/** The text of one commit object and how all three loaders read it: the text
    is split on `\n`; the leading run of non-empty lines are headers, each split
    once on a space into key and value; the message is the remaining lines
    after the first empty one, joined with `\n` and stripped. */
module CommitText {
  import opened Results
  import opened Text

  /** The header fields the loaders keep. Other keys are read and ignored. */
  datatype Headers = Headers(tree: string, parents: seq<string>, author: string, committer: string)

  /** The field values before any header line is read. */
  const NoHeaders := Headers("", [], "", "")

  /** What one commit text yields: the kept headers and the message. */
  datatype ParsedText = ParsedText(headers: Headers, message: string)

  /* -------------------------------------------------------- line structure */

  /** Number of leading non-empty lines: the header lines of a commit text. */
  function HeaderCount(lines: seq<string>): (n: nat)
    ensures n <= |lines|
    ensures forall i :: 0 <= i < n ==> lines[i] != []
    ensures n < |lines| ==> lines[n] == []
  {
    if lines == [] || lines[0] == [] then 0 else 1 + HeaderCount(lines[1..])
  }

  /** The lines after the first empty line (none when there is no empty line). */
  function BodyLines(lines: seq<string>): seq<string>
  {
    var n := HeaderCount(lines);
    if n < |lines| then lines[n + 1..] else []
  }

  /** The text after the first blank line, read directly from the characters:
      a blank line is a `\n` at the start of the text or right after another
      `\n`. Empty when there is no blank line. */
  function AfterBlankLine(t: string): string
    decreases |t|
  {
    if t == [] then []
    else if t[0] == '\n' then t[1..]
    else
      var i := Find(t, '\n');
      if i == |t| then [] else AfterBlankLine(t[i + 1..])
  }

  /** Joining the lines after the first empty line gives the text after the first blank line. */
  lemma {:induction false} BodyLinesText(t: string)
    ensures Join(BodyLines(Split(t, '\n')), '\n') == AfterBlankLine(t)
    decreases |t|
  {
    var i := Find(t, '\n');
    var lines := Split(t, '\n');
    if i < |t| {
      var rest := t[i + 1..];
      assert lines == [t[..i]] + Split(rest, '\n');
      assert lines[1..] == Split(rest, '\n');
      if i == 0 {
        assert lines[0] == [];
        JoinSplit(rest, '\n');
      } else {
        assert lines[0] != [];
        assert BodyLines(lines) == BodyLines(lines[1..]);
        BodyLinesText(rest);
      }
    }
  }

  /* ------------------------------------------------------------ header fold */

  /** The effect of one header line on the fields. */
  function Apply(h: Headers, key: string, value: string): Headers
  {
    if key == "tree" then h.(tree := value)
    else if key == "parent" then h.(parents := h.parents + [value])
    else if key == "author" then h.(author := value)
    else if key == "committer" then h.(committer := value)
    else h
  }

  /** Every header line holds a space, so `key, value = line.split(' ', 1)` succeeds. */
  predicate WellFormed(hs: seq<string>) {
    forall i :: 0 <= i < |hs| ==> !Lacks(hs[i], ' ')
  }

  /** The header loop, from fields `acc`: each line in turn updates the fields;
      the first line without a space stops the load with ValueError. */
  function ScanHeaders(acc: Headers, hs: seq<string>): (r: Result<Headers>)
    ensures r.Ok? <==> WellFormed(hs)
    ensures r.Err? ==> exists i :: 0 <= i < |hs| && Lacks(hs[i], ' ') && WellFormed(hs[..i])
                                   && r.error == MalformedHeaderLine(hs[i])
    decreases |hs|
  {
    if hs == [] then Ok(acc)
    else
      match SplitOnce(hs[0], ' ')
      case None => assert hs[..0] == []; Err(MalformedHeaderLine(hs[0]))
      case Some(kv) =>
        var r := ScanHeaders(Apply(acc, kv.0, kv.1), hs[1..]);
        assert WellFormed(hs) <==> !Lacks(hs[0], ' ') && WellFormed(hs[1..]) by {
          if WellFormed(hs[1..]) && !Lacks(hs[0], ' ') {
            forall i | 0 <= i < |hs| ensures !Lacks(hs[i], ' ') {
              if i > 0 { assert hs[i] == hs[1..][i - 1]; }
            }
          }
        }
        if r.Err? then
          ghost var i :| 0 <= i < |hs| - 1 && Lacks(hs[1..][i], ' ') && WellFormed(hs[1..][..i])
                         && r.error == MalformedHeaderLine(hs[1..][i]);
          assert hs[..i + 1] == [hs[0]] + hs[1..][..i];
          assert hs[i + 1] == hs[1..][i];
          r
        else r
  }

  /* ------------------------------------------------- reference definitions */

  /** Key and value of a well-formed header line. */
  function KeyValue(line: string): (string, string)
    requires !Lacks(line, ' ')
  {
    SplitOnce(line, ' ').value
  }

  /** The values of the header lines with key `key`, in order. */
  function ValuesOf(hs: seq<string>, key: string): seq<string>
    requires WellFormed(hs)
  {
    if hs == [] then []
    else
      var kv := KeyValue(hs[0]);
      (if kv.0 == key then [kv.1] else []) + ValuesOf(hs[1..], key)
  }

  /** The last value, or `d` when there is none. */
  function LastOr(vs: seq<string>, d: string): string
  {
    if vs == [] then d else vs[|vs| - 1]
  }

  /** The fields as the loaders promise them: `tree`, `author` and `committer`
      from the last line with that key (else `''`), `parents` from every
      `parent` line in order. */
  function Reference(hs: seq<string>): Headers
    requires WellFormed(hs)
  {
    Headers(LastOr(ValuesOf(hs, "tree"), ""), ValuesOf(hs, "parent"),
            LastOr(ValuesOf(hs, "author"), ""), LastOr(ValuesOf(hs, "committer"), ""))
  }

  /** The reference fields of `hs` read on top of the fields `acc`. */
  function From(acc: Headers, hs: seq<string>): Headers
    requires WellFormed(hs)
  {
    Headers(LastOr(ValuesOf(hs, "tree"), acc.tree), acc.parents + ValuesOf(hs, "parent"),
            LastOr(ValuesOf(hs, "author"), acc.author), LastOr(ValuesOf(hs, "committer"), acc.committer))
  }

  /** The header loop computes the reference fields, continuing from any start. */
  lemma {:induction false} ScanHeadersReference(acc: Headers, hs: seq<string>)
    requires WellFormed(hs)
    ensures ScanHeaders(acc, hs) == Ok(From(acc, hs))
    decreases |hs|
  {
    if hs == [] {
      assert acc.parents + [] == acc.parents;
    } else {
      var kv := KeyValue(hs[0]);
      var rest := hs[1..];
      assert WellFormed(rest) by {
        forall i | 0 <= i < |rest| ensures !Lacks(rest[i], ' ') {
          assert rest[i] == hs[i + 1];
        }
      }
      assert ScanHeaders(acc, hs) == ScanHeaders(Apply(acc, kv.0, kv.1), rest);
      ScanHeadersReference(Apply(acc, kv.0, kv.1), rest);
      FromStep(acc, hs);
    }
  }

  lemma FromStep(acc: Headers, hs: seq<string>)
    requires hs != [] && WellFormed(hs) && WellFormed(hs[1..])
    ensures From(acc, hs) == From(Apply(acc, KeyValue(hs[0]).0, KeyValue(hs[0]).1), hs[1..])
  {
    var kv := KeyValue(hs[0]);
    var next := Apply(acc, kv.0, kv.1);
    var rest := hs[1..];
    LastOrStep(kv, "tree", rest, acc.tree, next.tree);
    LastOrStep(kv, "author", rest, acc.author, next.author);
    LastOrStep(kv, "committer", rest, acc.committer, next.committer);
    var vs := ValuesOf(rest, "parent");
    if kv.0 == "parent" {
      assert next.parents + vs == acc.parents + ([kv.1] + vs);
    } else {
      assert next.parents + vs == acc.parents + ([] + vs);
    }
  }

  lemma LastOrStep(kv: (string, string), key: string, rest: seq<string>, before: string, after: string)
    requires WellFormed(rest)
    requires after == if kv.0 == key then kv.1 else before
    ensures LastOr((if kv.0 == key then [kv.1] else []) + ValuesOf(rest, key), before)
         == LastOr(ValuesOf(rest, key), after)
  {
    var vs := ValuesOf(rest, key);
    if kv.0 == key {
      if vs != [] {
        assert ([kv.1] + vs)[|[kv.1] + vs| - 1] == vs[|vs| - 1];
      }
    } else {
      assert [] + vs == vs;
    }
  }

  /* ---------------------------------------------------------------- parser */

  /** Parse one commit text as all three loaders do. It fails exactly when a
      header line has no space, naming the first such line; otherwise the
      fields are the reference fields of the header lines and the message is
      the stripped text after the first blank line. */
  function ParseCommitText(text: string): (r: Result<ParsedText>)
    ensures var hs := HeaderLines(text);
            && (r.Ok? <==> WellFormed(hs))
            && (r.Ok? ==> r.value.headers == Reference(hs) && r.value.message == Strip(AfterBlankLine(text)))
            && (r.Err? ==> exists i :: 0 <= i < |hs| && Lacks(hs[i], ' ') && WellFormed(hs[..i])
                                      && r.error == MalformedHeaderLine(hs[i]))
  {
    var lines := Split(text, '\n');
    var headers :- ScanHeaders(NoHeaders, lines[..HeaderCount(lines)]);
    ScanHeadersReference(NoHeaders, lines[..HeaderCount(lines)]);
    assert [] + ValuesOf(lines[..HeaderCount(lines)], "parent") == ValuesOf(lines[..HeaderCount(lines)], "parent");
    BodyLinesText(text);
    Ok(ParsedText(headers, Strip(Join(BodyLines(lines), '\n'))))
  }

  /** The header lines of a commit text. */
  function HeaderLines(text: string): (hs: seq<string>)
    ensures forall i :: 0 <= i < |hs| ==> hs[i] != [] && Lacks(hs[i], '\n')
  {
    var lines := Split(text, '\n');
    lines[..HeaderCount(lines)]
  }

  /* ---------------------------------------------------------- round trips */

  /** Git's own layout: header lines, a blank line, then the message. Parsing
      it gives back the reference fields of those headers and the stripped
      message, and the header lines are exactly the ones written. */
  lemma ParseLaidOut(hs: seq<string>, body: string)
    requires |hs| >= 1
    requires forall i :: 0 <= i < |hs| ==> hs[i] != [] && Lacks(hs[i], '\n')
    ensures HeaderLines(Join(hs, '\n') + "\n\n" + body) == hs
    ensures AfterBlankLine(Join(hs, '\n') + "\n\n" + body) == body
  {
    var text := Join(hs, '\n') + "\n\n" + body;
    var parts := hs + [[]] + Split(body, '\n');
    JoinSplit(body, '\n');
    JoinConcat(hs, [[]] + Split(body, '\n'));
    assert Join([[]] + Split(body, '\n'), '\n') == "\n" + body by {
      var b := Split(body, '\n');
      assert ([[]] + b)[1..] == b;
      if |b| == 1 { assert Join(b, '\n') == b[0]; }
    }
    assert parts == hs + ([[]] + Split(body, '\n'));
    assert Join(parts, '\n') == text;
    forall k | 0 <= k < |parts| ensures Lacks(parts[k], '\n') {
      if k >= |hs| + 1 { assert parts[k] == Split(body, '\n')[k - |hs| - 1]; }
    }
    SplitJoin(parts, '\n');
    HeaderCountPrefix(hs, Split(body, '\n'));
    assert parts[..|hs|] == hs;
    BodyLinesText(text);
    assert BodyLines(parts) == Split(body, '\n');
  }

  lemma {:induction false} HeaderCountPrefix(hs: seq<string>, b: seq<string>)
    requires forall i :: 0 <= i < |hs| ==> hs[i] != []
    ensures HeaderCount(hs + [[]] + b) == |hs|
  {
    if hs != [] {
      var rest := hs[1..];
      assert (hs + [[]] + b)[1..] == rest + [[]] + b;
      forall i | 0 <= i < |rest| ensures rest[i] != [] {
        assert rest[i] == hs[i + 1];
      }
      HeaderCountPrefix(rest, b);
    } else {
      assert (hs + [[]] + b)[0] == [];
    }
  }

  /** Joining two non-empty lists is joining each and putting a separator between. */
  lemma {:induction false} JoinConcat(a: seq<string>, b: seq<string>)
    requires |a| >= 1 && |b| >= 1
    ensures Join(a + b, '\n') == Join(a, '\n') + "\n" + Join(b, '\n')
  {
    if |a| == 1 {
      assert (a + b)[0] == a[0];
      assert (a + b)[1..] == b;
    } else {
      assert (a + b)[0] == a[0];
      assert (a + b)[1..] == a[1..] + b;
      JoinConcat(a[1..], b);
    }
  }
}
