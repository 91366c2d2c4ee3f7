/** Git object ids and the commit verification of both commit loaders: a
    commit object is stored as `"commit " + decimal(byte length) + NUL + body`
    (Pro Git, section 10.2 "Git Objects"), its id is the lower-case hex SHA-1
    (FIPS 180-4, section 6.1) of that encoding, and a loaded commit verifies
    when re-encoding its text reproduces the stored id. */
module ObjectId {
  import opened Results
  import opened Bytes
  import opened Text

  /** The library functions the loaders call, taken as parameters: SHA-1
      digests, `str.encode('utf-8')`, `bytes.decode('utf-8', errors='replace')`
      and strict `bytes.decode()` (`None` where it raises). */
  datatype Primitives = Primitives(
    sha1: seq<byte> -> seq<byte>,
    encode: string -> seq<byte>,
    decodeLossy: seq<byte> -> string,
    decodeStrict: seq<byte> -> Option<string>)

  /** SHA-1 digests are 20 bytes long. */
  ghost predicate DigestSized(p: Primitives) {
    forall b :: |p.sha1(b)| == 20
  }

  /* --------------------------------------------------------------- hex */

  /** The lower-case hex digit of `n`. */
  function HexDigit(n: nat): (c: char)
    requires n < 16
    ensures IsHexDigit(c)
  {
    if n < 10 then ('0' as int + n) as char else ('a' as int + n - 10) as char
  }

  predicate IsHexDigit(c: char) {
    '0' <= c <= '9' || 'a' <= c <= 'f'
  }

  /** The value of a lower-case hex digit. */
  function HexValue(c: char): (v: Option<nat>)
    ensures v.Some? <==> IsHexDigit(c)
    ensures v.Some? ==> v.value < 16 && HexDigit(v.value) == c
  {
    if '0' <= c <= '9' then Some(c as int - '0' as int)
    else if 'a' <= c <= 'f' then Some(c as int - 'a' as int + 10)
    else None
  }

  /** `hexdigest()`: two lower-case hex digits per byte, high half first. */
  function Hex(b: seq<byte>): (h: string)
    ensures |h| == 2 * |b|
    ensures forall i :: 0 <= i < |h| ==> IsHexDigit(h[i])
  {
    if b == [] then [] else [HexDigit(b[0] / 16), HexDigit(b[0] % 16)] + Hex(b[1..])
  }

  /** Reading hex text back into bytes; `None` on odd length or a non-hex character. */
  function Unhex(h: string): Option<seq<byte>>
    decreases |h|
  {
    if h == [] then Some([])
    else if |h| == 1 then None
    else
      match (HexValue(h[0]), HexValue(h[1]), Unhex(h[2..]))
      case (Some(hi), Some(lo), Some(rest)) => Some([16 * hi + lo] + rest)
      case _ => None
  }

  /** Hex rendering loses nothing. */
  lemma {:induction false} UnhexHex(b: seq<byte>)
    ensures Unhex(Hex(b)) == Some(b)
  {
    if b != [] {
      var h := Hex(b);
      assert h[2..] == Hex(b[1..]);
      assert HexValue(h[0]) == Some(b[0] / 16);
      assert HexValue(h[1]) == Some(b[0] % 16);
      UnhexHex(b[1..]);
      assert b == [b[0]] + b[1..];
    }
  }

  lemma HexInjective(a: seq<byte>, b: seq<byte>)
    requires Hex(a) == Hex(b)
    ensures a == b
  {
    UnhexHex(a);
    UnhexHex(b);
  }

  /* ----------------------------------------------------------- framing */

  /** The bytes of `"commit "`. */
  const CommitTag: seq<byte> := [99, 111, 109, 109, 105, 116, 32]

  /** The ASCII bytes of the decimal digits of `n`. */
  function DecimalBytes(n: nat): (d: seq<byte>)
    ensures d != [] && forall i :: 0 <= i < |d| ==> 48 <= d[i] <= 57
  {
    var s := Decimal(n);
    assert IsAsciiText(s);
    AsciiBytes(s)
  }

  /** The loose-object header of a commit of `n` bytes: `"commit <n>\0"` as bytes. */
  function FrameHeader(n: nat): seq<byte>
  {
    CommitTag + DecimalBytes(n) + [0]
  }

  /** The loose-object encoding of a commit body. */
  function Frame(body: seq<byte>): seq<byte>
  {
    FrameHeader(|body|) + body
  }

  /** The header is `f"commit {n}\0".encode('utf-8')`. */
  lemma FrameHeaderText(n: nat)
    ensures IsAsciiText("commit " + Decimal(n) + "\0")
    ensures FrameHeader(n) == AsciiBytes("commit " + Decimal(n) + "\0")
  {
    var s := "commit " + Decimal(n) + "\0";
    assert IsAsciiText(s);
    AsciiBytesAppend("commit ", Decimal(n));
    AsciiBytesAppend("commit " + Decimal(n), "\0");
  }

  /** The value of a run of ASCII decimal digits. */
  function DigitsOf(d: seq<byte>): nat
    requires forall i :: 0 <= i < |d| ==> 48 <= d[i] <= 57
  {
    if d == [] then 0 else 10 * DigitsOf(d[..|d| - 1]) + (d[|d| - 1] - 48)
  }

  /** Reading a commit loose object: the tag, a decimal length, NUL, then a
      body of exactly that length; `None` for anything else. */
  function ParseFrame(obj: seq<byte>): Option<seq<byte>>
  {
    if |obj| < 7 || obj[..7] != CommitTag then None
    else
      var rest := obj[7..];
      var i := Find(rest, 0);
      if i == 0 || i == |rest| || !(forall j :: 0 <= j < i ==> 48 <= rest[j] <= 57) then None
      else if DigitsOf(rest[..i]) == |rest| - i - 1 then Some(rest[i + 1..])
      else None
  }

  lemma {:induction false} DigitsOfDecimal(n: nat)
    ensures DigitsOf(DecimalBytes(n)) == n
  {
    var d := DecimalBytes(n);
    if n >= 10 {
      DigitsOfDecimal(n / 10);
      assert d[..|d| - 1] == DecimalBytes(n / 10);
    }
  }

  /** The encoding can be read back: the header says where the body is. */
  lemma ParseFrameFrame(body: seq<byte>)
    ensures ParseFrame(Frame(body)) == Some(body)
  {
    var d := DecimalBytes(|body|);
    var obj := Frame(body);
    assert obj == CommitTag + (d + [0] + body);
    var rest := obj[7..];
    assert rest == d + [0] + body;
    FindAfter(d, 0, body);
    assert rest[..|d|] == d;
    assert rest[|d| + 1..] == body;
    DigitsOfDecimal(|body|);
  }

  /** Different bodies have different encodings. */
  lemma FrameInjective(a: seq<byte>, b: seq<byte>)
    requires Frame(a) == Frame(b)
    ensures a == b
  {
    ParseFrameFrame(a);
    ParseFrameFrame(b);
  }

  /* ------------------------------------------------------ verification */

  /** The id Git gives a commit whose stored body is `body`. */
  function GitObjectId(p: Primitives, body: seq<byte>): string
  {
    Hex(p.sha1(Frame(body)))
  }

  /** The digest `verify_commit` recomputes from a loaded commit's text: the text
      is re-encoded as UTF-8 and framed. */
  function Recompute(p: Primitives, raw: string): string
  {
    GitObjectId(p, p.encode(raw))
  }

  /** `verify_commit`: the recomputed digest equals the stored id. It reads the
      commit's id and text and nothing else. */
  predicate Verify(p: Primitives, sha: string, raw: string)
  {
    Recompute(p, raw) == sha
  }

  /** Only a 40-character lower-case hex id can verify. */
  lemma VerifiedIdShape(p: Primitives, sha: string, raw: string)
    requires DigestSized(p) && Verify(p, sha, raw)
    ensures |sha| == 40 && forall i :: 0 <= i < |sha| ==> IsHexDigit(sha[i])
  {
    assert |p.sha1(Frame(p.encode(raw)))| == 20;
  }

  /** Two texts that verify against the same id encode to the same bytes,
      unless SHA-1 collides on their two encodings. */
  lemma VerifiedIdDeterminesBytes(p: Primitives, sha: string, raw1: string, raw2: string)
    requires Verify(p, sha, raw1) && Verify(p, sha, raw2)
    requires p.sha1(Frame(p.encode(raw1))) == p.sha1(Frame(p.encode(raw2))) ==>
             Frame(p.encode(raw1)) == Frame(p.encode(raw2))
    ensures p.encode(raw1) == p.encode(raw2)
  {
    HexInjective(p.sha1(Frame(p.encode(raw1))), p.sha1(Frame(p.encode(raw2))));
    FrameInjective(p.encode(raw1), p.encode(raw2));
  }

  /** A commit loaded from stored bytes `body` keeps the lossy decoding of
      `body` as its text. It verifies against its true id when decoding and
      re-encoding restores `body`; when it does not, verification fails unless
      SHA-1 collides on the two encodings — a false mismatch. */
  lemma LossyDecodeVerify(p: Primitives, body: seq<byte>)
    ensures p.encode(p.decodeLossy(body)) == body ==>
            Verify(p, GitObjectId(p, body), p.decodeLossy(body))
    ensures p.encode(p.decodeLossy(body)) != body
            && p.sha1(Frame(body)) != p.sha1(Frame(p.encode(p.decodeLossy(body)))) ==>
            !Verify(p, GitObjectId(p, body), p.decodeLossy(body))
  {
    var again := p.encode(p.decodeLossy(body));
    if again != body && p.sha1(Frame(body)) != p.sha1(Frame(again)) {
      if Hex(p.sha1(Frame(again))) == Hex(p.sha1(Frame(body))) {
        HexInjective(p.sha1(Frame(again)), p.sha1(Frame(body)));
      }
    }
  }

  /* ------------------------------------------------------ verify all */

  /** A failed verification: the stored id and the recomputed digest. */
  datatype Mismatch = Mismatch(sha: string, recomputed: string)

  /** The (id, text) pairs verification reads from a list of commits, given
      how to read one commit's id and text. */
  function IdsAndTexts<C>(commits: seq<C>, idAndText: C -> (string, string)): (pairs: seq<(string, string)>)
    ensures |pairs| == |commits|
    ensures forall i :: 0 <= i < |commits| ==> pairs[i] == idAndText(commits[i])
  {
    seq(|commits|, i requires 0 <= i < |commits| => idAndText(commits[i]))
  }

  /** The report of `verify_all_commits` for commits given as (id, text)
      pairs: one entry per commit that fails, in order. */
  function Mismatches(p: Primitives, commits: seq<(string, string)>): seq<Mismatch>
  {
    if commits == [] then []
    else
      var c := commits[|commits| - 1];
      Mismatches(p, commits[..|commits| - 1])
        + (if Verify(p, c.0, c.1) then [] else [Mismatch(c.0, Recompute(p, c.1))])
  }

  /** `verify_all_commits`: checks the commits in order and collects the failures. */
  method VerifyAll(p: Primitives, commits: seq<(string, string)>) returns (report: seq<Mismatch>)
    ensures report == Mismatches(p, commits)
  {
    report := [];
    var i := 0;
    while i < |commits|
      invariant 0 <= i <= |commits|
      invariant report == Mismatches(p, commits[..i])
    {
      var c := commits[i];
      if !Verify(p, c.0, c.1) {
        report := report + [Mismatch(c.0, Recompute(p, c.1))];
      }
      assert commits[..i + 1][..i] == commits[..i];
      i := i + 1;
    }
    assert commits[..i] == commits;
  }

  /** The report of a concatenation is the concatenation of the reports: the
      failures keep the order of the commits. */
  lemma {:induction false} MismatchesAppend(p: Primitives, a: seq<(string, string)>, b: seq<(string, string)>)
    ensures Mismatches(p, a + b) == Mismatches(p, a) + Mismatches(p, b)
    decreases |b|
  {
    if b == [] {
      assert a + b == a;
    } else {
      var last := b[|b| - 1];
      assert (a + b)[..|a + b| - 1] == a + b[..|b| - 1];
      assert (a + b)[|a + b| - 1] == last;
      MismatchesAppend(p, a, b[..|b| - 1]);
    }
  }

  /** An entry is reported exactly for a commit that fails, and it pairs that
      commit's id with its recomputed digest, which never equals the id. */
  lemma {:induction false} MismatchesExactly(p: Primitives, commits: seq<(string, string)>)
    ensures forall m :: m in Mismatches(p, commits) ==>
              m.recomputed != m.sha && exists c :: c in commits && c.0 == m.sha && m.recomputed == Recompute(p, c.1)
    ensures forall c :: c in commits && !Verify(p, c.0, c.1) ==> Mismatch(c.0, Recompute(p, c.1)) in Mismatches(p, commits)
    ensures Mismatches(p, commits) == [] <==> forall c :: c in commits ==> Verify(p, c.0, c.1)
  {
    if commits != [] {
      var init := commits[..|commits| - 1];
      var c := commits[|commits| - 1];
      MismatchesExactly(p, init);
      assert commits == init + [c];
      forall x | x in init ensures x in commits { }
    }
  }
}
