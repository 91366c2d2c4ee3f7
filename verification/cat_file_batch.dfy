/** Reading the output of `git cat-file --batch`, as the commit loaders do:
    a header line `<sha> <type> <size>\n`, then the object's bytes, then one
    byte that is read and thrown away; an empty read means the end. */
module CatFileBatch {
  import opened Results
  import opened Bytes
  import opened Text
  import opened ObjectId

  /** One record: the header's three fields and the payload bytes read for it. */
  datatype BatchRecord = BatchRecord(sha: string, objectType: string, size: int, payload: seq<byte>)

  /* ------------------------------------------------------------ reading */

  /** `readline()`: the bytes up to and including the first newline, or all
      that is left; and the remaining stream. */
  function ReadLine(b: seq<byte>): (r: (seq<byte>, seq<byte>))
    ensures r.0 + r.1 == b
    ensures r.0 == [] <==> b == []
    ensures forall j :: 0 <= j < |r.0| - 1 ==> r.0[j] != Newline
    ensures r.1 != [] ==> r.0[|r.0| - 1] == Newline
  {
    var i := Find(b, Newline);
    if i == |b| then (b, []) else (b[..i + 1], b[i + 1..])
  }

  /** `read(n)` on the buffered pipe: `n` bytes, or fewer when the stream
      ends first; `-1` reads everything left, and any smaller `n` is refused
      with ValueError. */
  function Read(b: seq<byte>, n: int): (r: Result<(seq<byte>, seq<byte>)>)
    ensures r.Err? <==> n < -1
    ensures r.Err? ==> r.error == InvalidReadSize(n)
    ensures r.Ok? ==> r.value.0 + r.value.1 == b
    ensures 0 <= n <= |b| ==> r.Ok? && |r.value.0| == n
    ensures (n == -1 || n > |b|) ==> r == Ok((b, []))
  {
    if n < -1 then Err(InvalidReadSize(n))
    else if n == -1 || n > |b| then Ok((b, []))
    else Ok((b[..n], b[n..]))
  }

  /** `data[:-1]`: all but the last byte (nothing for nothing). */
  function DropLast(b: seq<byte>): seq<byte>
  {
    if b == [] then [] else b[..|b| - 1]
  }

  /** `read(size + 1)[:-1]`: for a non-negative size that the stream covers,
      exactly `size` bytes, with the byte after them consumed and dropped.
      A short stream loses its last byte; `-1` reads nothing; `-2` reads the
      whole rest of the stream; a smaller size makes `read` raise. */
  function ReadPayload(b: seq<byte>, size: int): (r: Result<(seq<byte>, seq<byte>)>)
    ensures 0 <= size < |b| ==> r == Ok((b[..size], b[size + 1..]))
    ensures 0 <= size && |b| <= size ==> r == Ok((DropLast(b), []))
    ensures size == -1 ==> r == Ok(([], b))
    ensures size == -2 ==> r == Ok((DropLast(b), []))
    ensures size < -2 ==> r == Err(InvalidReadSize(size + 1))
  {
    var chunk :- Read(b, size + 1);
    assert 0 <= size < |b| ==> chunk.0[..|chunk.0| - 1] == b[..size];
    Ok((DropLast(chunk.0), chunk.1))
  }

  /** `header.decode()`: ASCII bytes decode to the same code points (UTF-8
      agrees with ASCII there); other bytes go to the strict decoder. */
  function DecodeStrict(p: Primitives, b: seq<byte>): Option<string>
  {
    if IsAsciiBytes(b) then Some(AsciiText(b)) else p.decodeStrict(b)
  }

  /** `sha, obj_type, size_str = header.decode().split()` and `int(size_str)`:
      a header is accepted exactly when it decodes, splits into three words
      and its last word is an integer; each failure raises its own error. */
  function ParseHeader(p: Primitives, line: seq<byte>): (r: Result<(string, string, int)>)
    ensures r.Ok? <==> && DecodeStrict(p, line).Some?
                       && |SplitWs(DecodeStrict(p, line).value)| == 3
                       && ParseInt(SplitWs(DecodeStrict(p, line).value)[2]).Some?
    ensures r.Ok? ==> DecodeStrict(p, line).Some? &&
                      var words := SplitWs(DecodeStrict(p, line).value);
                      |words| == 3 && r.value.0 == words[0] && r.value.1 == words[1]
                      && ParseInt(words[2]) == Some(r.value.2)
    ensures DecodeStrict(p, line).None? ==> r == Err(UndecodableHeader(line))
    ensures DecodeStrict(p, line).Some? && |SplitWs(DecodeStrict(p, line).value)| != 3 ==>
              r == Err(MalformedBatchHeader(DecodeStrict(p, line).value))
    ensures DecodeStrict(p, line).Some? && |SplitWs(DecodeStrict(p, line).value)| == 3
            && ParseInt(SplitWs(DecodeStrict(p, line).value)[2]).None? ==>
              r == Err(InvalidSize(SplitWs(DecodeStrict(p, line).value)[2]))
  {
    match DecodeStrict(p, line)
    case None => Err(UndecodableHeader(line))
    case Some(text) =>
      var words := SplitWs(text);
      if |words| != 3 then Err(MalformedBatchHeader(text))
      else
        match ParseInt(words[2])
        case None => Err(InvalidSize(words[2]))
        case Some(size) => Ok((words[0], words[1], size))
  }

  /** The next record and the stream after it; `None` at the end of the stream.
      A header whose size is below -2 makes `read(size + 1)` raise, so no
      record read has such a size. */
  function NextRecord(p: Primitives, b: seq<byte>): (r: Result<Option<(BatchRecord, seq<byte>)>>)
    ensures r == Ok(None) <==> b == []
    ensures r.Ok? && r.value.Some? ==> |r.value.value.1| < |b| && r.value.value.0.size >= -2
    ensures b != [] && ParseHeader(p, ReadLine(b).0).Ok? && ParseHeader(p, ReadLine(b).0).value.2 < -2 ==>
              r == Err(InvalidReadSize(ParseHeader(p, ReadLine(b).0).value.2 + 1))
  {
    var (line, afterLine) := ReadLine(b);
    if line == [] then Ok(None)
    else
      var header :- ParseHeader(p, line);
      var chunk :- ReadPayload(afterLine, header.2);
      Ok(Some((BatchRecord(header.0, header.1, header.2, chunk.0), chunk.1)))
  }

  /** All records of a stream, in order; the first error stops the reading. */
  function DecodeBatch(p: Primitives, b: seq<byte>): Result<seq<BatchRecord>>
    decreases |b|
  {
    var next :- NextRecord(p, b);
    match next
    case None => Ok([])
    case Some((record, rest)) =>
      var records :- DecodeBatch(p, rest);
      Ok([record] + records)
  }

  /** A header with size -5 parses, but `read(-4)` raises: the stream
      `x commit -5\n` followed by anything yields no record. */
  lemma NegativeSizeRaises(p: Primitives, more: seq<byte>)
    ensures IsAsciiText("x commit -5")
    ensures ParseHeader(p, AsciiBytes("x commit -5") + [Newline]) == Ok(("x", "commit", -5))
    ensures NextRecord(p, AsciiBytes("x commit -5") + [Newline] + more) == Err(InvalidReadSize(-4))
  {
    var h := "x commit -5";
    assert IsAsciiText(h);
    var hb := AsciiBytes(h);
    NegativeHeaderParses(p);
    forall j | 0 <= j < |hb| ensures hb[j] != Newline {
      assert hb[j] == h[j] as int;
    }
    FindAfter(hb, Newline, more);
    var b := hb + [Newline] + more;
    assert ReadLine(b).0 == hb + [Newline] by {
      assert b[..|hb| + 1] == hb + [Newline];
    }
  }

  lemma NegativeHeaderParses(p: Primitives)
    ensures IsAsciiText("x commit -5")
    ensures ParseHeader(p, AsciiBytes("x commit -5") + [Newline]) == Ok(("x", "commit", -5))
  {
    var h := "x commit -5";
    assert IsAsciiText(h);
    DecodeHeaderLine(p, h);
    assert h + "\n" == "x" + " " + "commit" + " " + "-5" + "\n";
    SplitWsThree("x", "commit", "-5", "\n");
    MinusFive();
  }

  lemma MinusFive()
    ensures ParseInt("-5") == Some(-5)
  {
    StripUnpadded("-5");
    assert "-5"[1..] == "5";
    assert "5"[..0] == [];
  }

  /* --------------------------------------------------------- writing */

  /** A record `git cat-file --batch` can write: a non-empty ASCII id and type
      without whitespace, and a size equal to the payload length. */
  predicate Writable(r: BatchRecord) {
    && r.sha != [] && NoSpace(r.sha) && IsAsciiText(r.sha)
    && r.objectType != [] && NoSpace(r.objectType) && IsAsciiText(r.objectType)
    && r.size == |r.payload|
  }

  /** The header text of a record, without its newline. */
  function HeaderText(r: BatchRecord): string
    requires r.size >= 0
  {
    r.sha + " " + r.objectType + " " + Decimal(r.size)
  }

  /** The bytes of one record: header line, payload, newline. */
  function EncodeRecord(r: BatchRecord): seq<byte>
    requires Writable(r)
  {
    var h := HeaderText(r);
    assert IsAsciiText(h);
    AsciiBytes(h) + [Newline] + r.payload + [Newline]
  }

  /** The bytes of a sequence of records. */
  function EncodeBatch(rs: seq<BatchRecord>): seq<byte>
    requires forall i :: 0 <= i < |rs| ==> Writable(rs[i])
  {
    if rs == [] then [] else EncodeRecord(rs[0]) + EncodeBatch(rs[1..])
  }

  /** A written header line reads back as its three fields. */
  lemma ParseHeaderLine(p: Primitives, r: BatchRecord)
    requires Writable(r)
    ensures IsAsciiText(HeaderText(r))
    ensures ParseHeader(p, AsciiBytes(HeaderText(r)) + [Newline]) == Ok((r.sha, r.objectType, r.size))
  {
    assert IsAsciiText(HeaderText(r));
    DecodeHeaderLine(p, HeaderText(r));
    HeaderWords(r);
    ParseDecimal(r.size);
  }

  /** An ASCII line decodes to its text, newline included. */
  lemma DecodeHeaderLine(p: Primitives, h: string)
    requires IsAsciiText(h)
    ensures DecodeStrict(p, AsciiBytes(h) + [Newline]) == Some(h + "\n")
  {
    AsciiBytesAppend(h, "\n");
    assert AsciiBytes("\n") == [Newline];
    AsciiRoundTrip(h + "\n");
  }

  /** `split()` of a written header line gives its three fields. */
  lemma HeaderWords(r: BatchRecord)
    requires Writable(r)
    ensures SplitWs(HeaderText(r) + "\n") == [r.sha, r.objectType, Decimal(r.size)]
  {
    DigitsHaveNoSpace(Decimal(r.size));
    SplitWsThree(r.sha, r.objectType, Decimal(r.size), "\n");
  }

  lemma DigitsHaveNoSpace(d: string)
    requires forall i :: 0 <= i < |d| ==> IsDigit(d[i])
    ensures NoSpace(d)
  {
  }

  /** A written record reads back, and reading resumes right after it. */
  lemma NextRecordEncoded(p: Primitives, r: BatchRecord, more: seq<byte>)
    requires Writable(r)
    ensures NextRecord(p, EncodeRecord(r) + more) == Ok(Some((r, more)))
  {
    ParseHeaderLine(p, r);
    var after := r.payload + [Newline] + more;
    ReadEncodedLine(r, after);
    var x := AsciiBytes(HeaderText(r)) + [Newline];
    assert EncodeRecord(r) == x + r.payload + [Newline];
    ConcatAssoc(x + r.payload, [Newline], more);
    ConcatAssoc(x, r.payload, [Newline] + more);
    ConcatAssoc(r.payload, [Newline], more);
    assert EncodeRecord(r) + more == x + after;
    assert after[..r.size] == r.payload;
    assert after[r.size + 1..] == more;
  }

  /** `readline()` of a written record stops at the end of its header line. */
  lemma ReadEncodedLine(r: BatchRecord, after: seq<byte>)
    requires Writable(r)
    ensures IsAsciiText(HeaderText(r))
    ensures ReadLine(AsciiBytes(HeaderText(r)) + [Newline] + after) == (AsciiBytes(HeaderText(r)) + [Newline], after)
  {
    var h := HeaderText(r);
    assert IsAsciiText(h);
    var hb := AsciiBytes(h);
    var b := hb + [Newline] + after;
    forall j | 0 <= j < |hb| ensures hb[j] != Newline {
      assert hb[j] == h[j] as int;
      assert !IsSpace(h[j]) || h[j] == ' ';
    }
    FindAfter(hb, Newline, after);
    assert b[..|hb| + 1] == hb + [Newline];
    assert b[|hb| + 1..] == after;
  }

  /** Reading what was written gives back the records. */
  lemma {:induction false} DecodeEncode(p: Primitives, rs: seq<BatchRecord>)
    requires forall i :: 0 <= i < |rs| ==> Writable(rs[i])
    ensures DecodeBatch(p, EncodeBatch(rs)) == Ok(rs)
  {
    if rs != [] {
      var rest := rs[1..];
      forall i | 0 <= i < |rest| ensures Writable(rest[i]) {
        assert rest[i] == rs[i + 1];
      }
      DecodeEncode(p, rest);
      DecodeRecordThen(p, rs[0], EncodeBatch(rest), rest);
      assert rs == [rs[0]] + rest;
    }
  }

  /** A written record in front of a readable stream adds itself in front. */
  lemma DecodeRecordThen(p: Primitives, r: BatchRecord, more: seq<byte>, rs: seq<BatchRecord>)
    requires Writable(r)
    requires DecodeBatch(p, more) == Ok(rs)
    ensures DecodeBatch(p, EncodeRecord(r) + more) == Ok([r] + rs)
  {
    NextRecordEncoded(p, r, more);
  }

  /* --------------------------------------------------------- loading */

  /** The load loop shared by the commit loaders: read a record, decode its
      payload lossily, build a commit from the record's id and that text, and
      go on; the first failure, of either kind, ends the load. */
  function LoadWith<C>(p: Primitives, b: seq<byte>, build: (string, string) -> Result<C>): Result<seq<C>>
    decreases |b|
  {
    var next :- NextRecord(p, b);
    match next
    case None => Ok([])
    case Some((record, rest)) =>
      var c :- build(record.sha, p.decodeLossy(record.payload));
      var cs :- LoadWith(p, rest, build);
      Ok([c] + cs)
  }

  /** Building a commit from each record in turn; the first failure wins. */
  function BuildAll<C>(p: Primitives, rs: seq<BatchRecord>, build: (string, string) -> Result<C>): (r: Result<seq<C>>)
    ensures r.Ok? ==> |r.value| == |rs|
                      && forall i :: 0 <= i < |rs| ==> build(rs[i].sha, p.decodeLossy(rs[i].payload)) == Ok(r.value[i])
    ensures r.Ok? <==> forall i :: 0 <= i < |rs| ==> build(rs[i].sha, p.decodeLossy(rs[i].payload)).Ok?
  {
    if rs == [] then Ok([])
    else
      var rest := BuildAll(p, rs[1..], build);
      assert forall i :: 1 <= i < |rs| ==> rs[i] == rs[1..][i - 1];
      var c :- build(rs[0].sha, p.decodeLossy(rs[0].payload));
      var cs :- rest;
      Ok([c] + cs)
  }

  /** On a stream that decodes, loading is building from each record in order:
      one commit per record, carrying that record's id. */
  lemma {:induction false} LoadWithDecoded<C>(p: Primitives, b: seq<byte>, build: (string, string) -> Result<C>)
    requires DecodeBatch(p, b).Ok?
    ensures LoadWith(p, b, build) == BuildAll(p, DecodeBatch(p, b).value, build)
    decreases |b|
  {
    var next := NextRecord(p, b);
    if next.value.Some? {
      var rest := next.value.value.1;
      LoadWithDecoded(p, rest, build);
      var rs := DecodeBatch(p, b).value;
      assert rs[1..] == DecodeBatch(p, rest).value;
    }
  }
}
