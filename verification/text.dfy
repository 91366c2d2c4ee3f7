/** The Python `str` operations the loaders and the terminal front end rely on,
    over `string` (a sequence of Unicode scalar values): `split(sep)`,
    `split(sep, 1)`, `sep.join`, `split()`, `split(None, 1)`, `splitlines()`,
    `strip()`, `int()` and `str()` of a natural number. */
module Text {
  import opened Results

  /** Python's `str.isspace()`: the characters `split()` and `strip()` treat as
      whitespace, by code point. */
  predicate IsSpace(c: char) {
    var n := c as int;
    || (9 <= n <= 13) || (28 <= n <= 32) || n == 0x85 || n == 0xa0 || n == 0x1680
    || (0x2000 <= n <= 0x200a) || n == 0x2028 || n == 0x2029 || n == 0x202f || n == 0x205f || n == 0x3000
  }

  predicate AllSpace(s: string) {
    forall i :: 0 <= i < |s| ==> IsSpace(s[i])
  }

  predicate NoSpace(s: string) {
    forall i :: 0 <= i < |s| ==> !IsSpace(s[i])
  }

  /** `c` does not occur in `s`. */
  predicate Lacks<T(==)>(s: seq<T>, c: T) {
    forall i :: 0 <= i < |s| ==> s[i] != c
  }

  /* ---------------------------------------------------------------- strip() */

  /** Length of the leading whitespace of `s`. */
  function SpaceRun(s: string): (i: nat)
    ensures i <= |s|
    ensures forall j :: 0 <= j < i ==> IsSpace(s[j])
    ensures i < |s| ==> !IsSpace(s[i])
  {
    if s == [] || !IsSpace(s[0]) then 0 else 1 + SpaceRun(s[1..])
  }

  /** Where the trailing whitespace of `s` begins. */
  function SpaceTail(s: string): (i: nat)
    ensures i <= |s|
    ensures forall j :: i <= j < |s| ==> IsSpace(s[j])
    ensures 0 < i ==> !IsSpace(s[i - 1])
  {
    if s == [] || !IsSpace(s[|s| - 1]) then |s| else SpaceTail(s[..|s| - 1])
  }

  /** `s.lstrip()`. */
  function TrimStart(s: string): string
  {
    s[SpaceRun(s)..]
  }

  /** `s.rstrip()`. */
  function TrimEnd(s: string): string
  {
    s[..SpaceTail(s)]
  }

  /** `s.strip()`: the result neither starts nor ends with whitespace, it is
      empty exactly when `s` is all whitespace, and `s` is whitespace, then
      the result, then whitespace. */
  function Strip(s: string): (r: string)
    ensures r == [] || (!IsSpace(r[0]) && !IsSpace(r[|r| - 1]))
    ensures r == [] <==> AllSpace(s)
    ensures exists lead: nat :: lead + |r| <= |s| && r == s[lead..lead + |r|]
                              && AllSpace(s[..lead]) && AllSpace(s[lead + |r|..])
  {
    var lead := SpaceRun(s);
    var t := s[lead..];
    var n := SpaceTail(t);
    assert AllSpace(s[..lead]);
    assert AllSpace(s[lead + n..]) by {
      assert s[lead + n..] == t[n..];
    }
    assert n == 0 ==> lead == |s| by {
      if lead < |s| {
        assert t[0] == s[lead];
      }
    }
    t[..n]
  }

  /** Leading whitespace is skipped by `lstrip()`. */
  lemma {:induction false} SpaceRunPadded(a: string, s: string)
    requires AllSpace(a)
    ensures SpaceRun(a + s) == |a| + SpaceRun(s)
  {
    if a != [] {
      assert (a + s)[0] == a[0];
      assert (a + s)[1..] == a[1..] + s;
      SpaceRunPadded(a[1..], s);
    } else {
      assert a + s == s;
    }
  }

  /** Trailing whitespace is skipped by `rstrip()`. */
  lemma {:induction false} SpaceTailPadded(s: string, b: string)
    requires AllSpace(b)
    ensures SpaceTail(s + b) == SpaceTail(s)
    decreases |b|
  {
    if b == [] {
      assert s + b == s;
    } else {
      assert (s + b)[|s + b| - 1] == b[|b| - 1];
      assert (s + b)[..|s + b| - 1] == s + b[..|b| - 1];
      SpaceTailPadded(s, b[..|b| - 1]);
    }
  }

  /** Text after the leading whitespace does not change where it ends. */
  lemma {:induction false} SpaceRunAppend(s: string, b: string)
    requires SpaceRun(s) < |s|
    ensures SpaceRun(s + b) == SpaceRun(s)
  {
    assert (s + b)[0] == s[0];
    if IsSpace(s[0]) {
      assert (s + b)[1..] == s[1..] + b;
      SpaceRunAppend(s[1..], b);
    }
  }

  lemma TrimStartPadded(a: string, s: string)
    requires AllSpace(a)
    ensures TrimStart(a + s) == TrimStart(s)
  {
    SpaceRunPadded(a, s);
    assert (a + s)[|a| + SpaceRun(s)..] == s[SpaceRun(s)..];
  }

  /** A string that neither starts nor ends with whitespace is its own strip. */
  lemma StripUnpadded(s: string)
    requires s == [] || (!IsSpace(s[0]) && !IsSpace(s[|s| - 1]))
    ensures Strip(s) == s
  {
  }

  /** Whitespace around a string does not change its strip. */
  lemma StripPadded(a: string, s: string, b: string)
    requires AllSpace(a) && AllSpace(b)
    ensures Strip(a + s + b) == Strip(s)
  {
    var x := a + s + b;
    assert x == a + (s + b);
    TrimStartPadded(a, s + b);
    var t := TrimStart(s);
    if t != [] {
      TrimStartAppend(s, b);
      TrimEndPadded(t, b);
    } else {
      assert AllSpace(s + b);
      TrimStartPadded(s + b, []);
      assert (s + b) + [] == s + b;
    }
    assert Strip(x) == TrimEnd(TrimStart(x));
    assert Strip(s) == TrimEnd(t);
  }

  lemma TrimStartAppend(s: string, b: string)
    requires TrimStart(s) != []
    ensures TrimStart(s + b) == TrimStart(s) + b
  {
    var lead := SpaceRun(s);
    SpaceRunAppend(s, b);
    assert (s + b)[lead..] == s[lead..] + b;
  }

  lemma TrimEndPadded(t: string, b: string)
    requires AllSpace(b)
    ensures TrimEnd(t + b) == TrimEnd(t)
  {
    SpaceTailPadded(t, b);
    assert (t + b)[..SpaceTail(t)] == t[..SpaceTail(t)];
  }

  /* ------------------------------------------------------- split(sep), join */

  /** Position of the first `c` in `s`, or `|s|` when there is none. */
  function Find<T(==)>(s: seq<T>, c: T): (i: nat)
    ensures i <= |s|
    ensures forall j :: 0 <= j < i ==> s[j] != c
    ensures i < |s| ==> s[i] == c
  {
    if s == [] || s[0] == c then 0 else 1 + Find(s[1..], c)
  }

  /** The first `c` of `p + [c] + t` is the one after `p` when `p` has none. */
  lemma {:induction false} FindAfter<T>(p: seq<T>, c: T, t: seq<T>)
    requires Lacks(p, c)
    ensures Find(p + [c] + t, c) == |p|
  {
    var s := p + [c] + t;
    if p == [] {
      assert s[0] == c;
    } else {
      assert s[0] == p[0];
      assert s[1..] == p[1..] + [c] + t;
      FindAfter(p[1..], c, t);
    }
  }

  /** Python's `s.split(sep)` for a one-character separator: the pieces between
      separators, always at least one, none holding the separator. */
  function Split(s: string, sep: char): (parts: seq<string>)
    ensures |parts| >= 1
    ensures forall k :: 0 <= k < |parts| ==> Lacks(parts[k], sep)
    decreases |s|
  {
    var i := Find(s, sep);
    if i == |s| then [s] else [s[..i]] + Split(s[i + 1..], sep)
  }

  /** Python's `sep.join(parts)` for a one-character separator. */
  function Join(parts: seq<string>, sep: char): string
  {
    if |parts| == 0 then []
    else if |parts| == 1 then parts[0]
    else parts[0] + [sep] + Join(parts[1..], sep)
  }

  /** Joining the pieces of a split restores the string. */
  lemma {:induction false} JoinSplit(s: string, sep: char)
    ensures Join(Split(s, sep), sep) == s
    decreases |s|
  {
    var i := Find(s, sep);
    if i < |s| {
      var rest := Split(s[i + 1..], sep);
      JoinSplit(s[i + 1..], sep);
      assert Split(s, sep) == [s[..i]] + rest;
      assert s == s[..i] + [sep] + s[i + 1..];
    }
  }

  /** Splitting a join of separator-free pieces gives the pieces back. */
  lemma {:induction false} SplitJoin(parts: seq<string>, sep: char)
    requires |parts| >= 1
    requires forall k :: 0 <= k < |parts| ==> Lacks(parts[k], sep)
    ensures Split(Join(parts, sep), sep) == parts
  {
    if |parts| > 1 {
      var p := parts[0];
      var t := Join(parts[1..], sep);
      SplitJoinStep(p, sep, t);
      SplitJoin(parts[1..], sep);
      assert parts == [p] + parts[1..];
    }
  }

  lemma SplitJoinStep(p: string, sep: char, t: string)
    requires Lacks(p, sep)
    ensures Split(p + [sep] + t, sep) == [p] + Split(t, sep)
  {
    var s := p + [sep] + t;
    FindAfter(p, sep, t);
    assert s[..|p|] == p;
    assert s[|p| + 1..] == t;
  }

  /** Splitting at a separator splits each side on its own. */
  lemma {:induction false} SplitConcat(a: string, sep: char, b: string)
    ensures Split(a + [sep] + b, sep) == Split(a, sep) + Split(b, sep)
    decreases |a|
  {
    var i := Find(a, sep);
    if i == |a| {
      SplitJoinStep(a, sep, b);
    } else {
      var p := a[..i];
      var t := a[i + 1..];
      assert a == p + [sep] + t;
      assert a + [sep] + b == p + [sep] + (t + [sep] + b);
      SplitJoinStep(p, sep, t + [sep] + b);
      SplitJoinStep(p, sep, t);
      SplitConcat(t, sep, b);
      ConcatAssoc([p], Split(t, sep), Split(b, sep));
    }
  }

  /** Python's `key, value = s.split(sep, 1)`: `None` exactly when the two-value
      unpack fails because `s` holds no separator; otherwise the text before the
      first separator and everything after it. */
  function SplitOnce(s: string, sep: char): (r: Option<(string, string)>)
    ensures r.None? <==> Lacks(s, sep)
    ensures r.Some? ==> s == r.value.0 + [sep] + r.value.1 && Lacks(r.value.0, sep)
  {
    var i := Find(s, sep);
    if i == |s| then None
    else
      assert s == s[..i] + [sep] + s[i + 1..];
      Some((s[..i], s[i + 1..]))
  }

  /** The split point of `p + [sep] + t` is the first separator. */
  lemma SplitOnceAt(p: string, sep: char, t: string)
    requires Lacks(p, sep)
    ensures SplitOnce(p + [sep] + t, sep) == Some((p, t))
  {
    var s := p + [sep] + t;
    FindAfter(p, sep, t);
    assert s[..|p|] == p;
    assert s[|p| + 1..] == t;
  }

  /** Python's `s.split(sep, 1)[0]`: the text before the first separator, or all of `s`. */
  function BeforeFirst(s: string, sep: char): (r: string)
    ensures Lacks(r, sep)
    ensures Lacks(s, sep) ==> r == s
    ensures !Lacks(s, sep) ==> |r| < |s| && s[..|r| + 1] == r + [sep]
  {
    match SplitOnce(s, sep)
    case Some(kv) =>
      assert s[..|kv.0| + 1] == kv.0 + [sep];
      kv.0
    case None => s
  }

  /* ------------------------------------------------------------ splitlines() */

  /** The line boundaries of Python's `str.splitlines()`: `\n`, `\v`, `\f`,
      `\r`, the file, group and record separators U+001C to U+001E, NEL,
      and the line and paragraph separators U+2028 and U+2029. */
  predicate IsLineBreak(c: char) {
    var n := c as int;
    (10 <= n <= 13) || (0x1c <= n <= 0x1e) || n == 0x85 || n == 0x2028 || n == 0x2029
  }

  predicate NoLineBreak(s: string) {
    forall i :: 0 <= i < |s| ==> !IsLineBreak(s[i])
  }

  /** Length of the first line of `s`, without its boundary. */
  function LineEnd(s: string): (i: nat)
    ensures i <= |s|
    ensures forall j :: 0 <= j < i ==> !IsLineBreak(s[j])
    ensures i < |s| ==> IsLineBreak(s[i])
  {
    if s == [] || IsLineBreak(s[0]) then 0 else 1 + LineEnd(s[1..])
  }

  /** Python's `s.splitlines()`: lines without their boundaries, where `\r\n`
      counts as one boundary and a final boundary opens no empty line. */
  function SplitLines(s: string): (lines: seq<string>)
    ensures forall k :: 0 <= k < |lines| ==> NoLineBreak(lines[k])
    ensures s == [] <==> lines == []
    decreases |s|
  {
    if s == [] then []
    else
      var i := LineEnd(s);
      if i == |s| then [s]
      else
        var next := if s[i] == '\r' && i + 1 < |s| && s[i + 1] == '\n' then i + 2 else i + 1;
        [s[..i]] + SplitLines(s[next..])
  }

  /** Each line followed by `\n`: the shape of `git` listing output. */
  function Terminated(lines: seq<string>): string
  {
    if lines == [] then [] else lines[0] + "\n" + Terminated(lines[1..])
  }

  /** `splitlines()` of newline-terminated, break-free lines gives the lines back. */
  lemma {:induction false} SplitLinesTerminated(lines: seq<string>)
    requires forall k :: 0 <= k < |lines| ==> NoLineBreak(lines[k])
    ensures SplitLines(Terminated(lines)) == lines
  {
    if lines != [] {
      var l := lines[0];
      var t := Terminated(lines[1..]);
      var s := l + "\n" + t;
      assert Terminated(lines) == s;
      LineEndAt(l, t);
      assert s[..|l|] == l;
      assert s[|l| + 1..] == t;
      SplitLinesTerminated(lines[1..]);
      assert lines == [l] + lines[1..];
    }
  }

  lemma {:induction false} LineEndAt(l: string, t: string)
    requires NoLineBreak(l)
    ensures LineEnd(l + "\n" + t) == |l|
  {
    var s := l + "\n" + t;
    if l == [] {
      assert s[0] == '\n';
    } else {
      assert s[0] == l[0];
      assert s[1..] == l[1..] + "\n" + t;
      LineEndAt(l[1..], t);
    }
  }

  /* ------------------------------------------------- split(), split(None, 1) */

  /** Length of the leading run of non-whitespace characters. */
  function WordEnd(s: string): (i: nat)
    ensures i <= |s|
    ensures forall j :: 0 <= j < i ==> !IsSpace(s[j])
    ensures i < |s| ==> IsSpace(s[i])
  {
    if s == [] || IsSpace(s[0]) then 0 else 1 + WordEnd(s[1..])
  }

  /** Python's `s.split()`: the maximal runs of non-whitespace characters, in order. */
  function SplitWs(s: string): (words: seq<string>)
    ensures forall k :: 0 <= k < |words| ==> words[k] != [] && NoSpace(words[k])
    decreases |s|
  {
    var t := TrimStart(s);
    if t == [] then []
    else
      var n := WordEnd(t);
      [t[..n]] + SplitWs(t[n..])
  }

  /** Python's `s.split(None, 1)`: the first word, then the rest of the string
      with its leading whitespace removed (trailing whitespace kept). */
  function SplitWsOnce(s: string): (r: seq<string>)
    ensures |r| <= 2
    ensures forall k :: 0 <= k < |r| ==> r[k] != [] && !IsSpace(r[k][0])
  {
    var t := TrimStart(s);
    if t == [] then []
    else
      var n := WordEnd(t);
      var rest := TrimStart(t[n..]);
      if rest == [] then [t[..n]] else [t[..n], rest]
  }

  /** `split(None, 1)` agrees with `split()`: it keeps the first word and leaves
      the remaining words together in one piece. */
  lemma SplitWsOnceAgrees(s: string)
    ensures |SplitWsOnce(s)| == if |SplitWs(s)| < 2 then |SplitWs(s)| else 2
    ensures SplitWsOnce(s) != [] ==> SplitWsOnce(s)[0] == SplitWs(s)[0]
    ensures |SplitWsOnce(s)| == 2 ==> SplitWs(SplitWsOnce(s)[1]) == SplitWs(s)[1..]
  {
    var t := TrimStart(s);
    if t != [] {
      var u := t[WordEnd(t)..];
      SplitWsTrimmed(u);
      assert SplitWs(s)[1..] == SplitWs(u);
    }
  }

  /** `lstrip()` does not change `split()`. */
  lemma SplitWsTrimmed(s: string)
    ensures SplitWs(TrimStart(s)) == SplitWs(s)
    ensures SplitWs(s) == [] <==> TrimStart(s) == []
  {
    var t := TrimStart(s);
    if t != [] {
      assert SpaceRun(t) == 0;
      assert t[0..] == t;
    }
  }

  /** The first word of `w + rest` is `w` when `rest` is empty or starts with whitespace. */
  lemma {:induction false} WordEndAt(w: string, rest: string)
    requires NoSpace(w)
    requires rest == [] || IsSpace(rest[0])
    ensures WordEnd(w + rest) == |w|
  {
    var s := w + rest;
    if w == [] {
      assert s == rest;
    } else {
      assert s[0] == w[0];
      assert s[1..] == w[1..] + rest;
      WordEndAt(w[1..], rest);
    }
  }

  /** A word followed by whitespace (or nothing) is the first piece of `split()`. */
  lemma SplitWsWord(w: string, rest: string)
    requires w != [] && NoSpace(w)
    requires rest == [] || IsSpace(rest[0])
    ensures SplitWs(w + rest) == [w] + SplitWs(rest)
  {
    var s := w + rest;
    assert s[0] == w[0];
    assert SpaceRun(s) == 0;
    assert TrimStart(s) == s;
    WordEndAt(w, rest);
    assert s[..|w|] == w;
    assert s[|w|..] == rest;
  }

  /** Leading whitespace does not change `split()`. */
  lemma SplitWsSpaced(a: string, rest: string)
    requires AllSpace(a)
    ensures SplitWs(a + rest) == SplitWs(rest)
  {
    SplitWsTrimmed(a + rest);
    SplitWsTrimmed(rest);
    TrimStartPadded(a, rest);
  }

  /** `split()` of words separated by single spaces, then any whitespace, gives the words. */
  lemma {:induction false} SplitWsJoined(words: seq<string>, tail: string)
    requires |words| >= 1
    requires forall k :: 0 <= k < |words| ==> words[k] != [] && NoSpace(words[k])
    requires AllSpace(tail)
    ensures SplitWs(Join(words, ' ') + tail) == words
  {
    if |words| == 1 {
      SplitWsLastWord(words[0], tail);
      assert Join(words, ' ') == words[0];
    } else {
      var rest := words[1..];
      SplitWsJoinedStep(words, tail);
      forall k | 0 <= k < |rest|
        ensures rest[k] != [] && NoSpace(rest[k])
      {
        assert rest[k] == words[k + 1];
      }
      SplitWsJoined(rest, tail);
      assert words == [words[0]] + rest;
    }
  }

  lemma SplitWsLastWord(w: string, tail: string)
    requires w != [] && NoSpace(w) && AllSpace(tail)
    ensures SplitWs(w + tail) == [w]
  {
    SplitWsWord(w, tail);
    SplitWsSpaced(tail, []);
    assert tail + [] == tail;
  }

  lemma SplitWsJoinedStep(words: seq<string>, tail: string)
    requires |words| > 1 && words[0] != [] && NoSpace(words[0])
    ensures SplitWs(Join(words, ' ') + tail) == [words[0]] + SplitWs(Join(words[1..], ' ') + tail)
  {
    var t := Join(words[1..], ' ') + tail;
    JoinCons(words, tail);
    SplitWsWord(words[0], " " + t);
    SplitWsSpaced(" ", t);
  }

  lemma JoinCons(words: seq<string>, tail: string)
    requires |words| > 1
    ensures Join(words, ' ') + tail == words[0] + (" " + (Join(words[1..], ' ') + tail))
  {
    Associative(words[0], " ", Join(words[1..], ' '), tail);
  }

  /** `split()` of three words joined by single spaces, then any whitespace. */
  lemma SplitWsThree(a: string, b: string, c: string, tail: string)
    requires a != [] && NoSpace(a) && b != [] && NoSpace(b) && c != [] && NoSpace(c)
    requires AllSpace(tail)
    ensures SplitWs(a + " " + b + " " + c + tail) == [a, b, c]
  {
    var words := [a, b, c];
    JoinThree(a, b, c);
    SplitWsJoined(words, tail);
  }

  lemma JoinThree(a: string, b: string, c: string)
    ensures Join([a, b, c], ' ') == a + " " + b + " " + c
  {
    var words := [a, b, c];
    assert words[1..] == [b, c];
    assert [b, c][1..] == [c];
    assert Join([b, c], ' ') == b + [' '] + c;
  }

  /** Sequence concatenation regrouped to the right. */
  lemma ConcatAssoc<T>(a: seq<T>, b: seq<T>, c: seq<T>)
    ensures a + b + c == a + (b + c)
  {
  }

  lemma Associative(a: string, b: string, c: string, d: string)
    ensures a + b + c + d == a + (b + (c + d))
  {
  }

  /** `split(None, 1)` of `name sha` gives both back when the name has no
      whitespace and the second part does not start with any. */
  lemma SplitWsOnceOfPair(name: string, rest: string)
    requires name != [] && NoSpace(name)
    requires rest != [] && !IsSpace(rest[0])
    ensures SplitWsOnce(name + " " + rest) == [name, rest]
  {
    var sp := " " + rest;
    var s := name + sp;
    assert name + " " + rest == s;
    assert s[0] == name[0];
    assert SpaceRun(s) == 0;
    assert TrimStart(s) == s;
    WordEndAt(name, sp);
    assert s[..|name|] == name;
    assert s[|name|..] == sp;
    assert sp[0] == ' ' && sp[1] == rest[0];
    assert SpaceRun(sp) == 1;
    assert sp[1..] == rest;
  }

  /* ------------------------------------------------------------ int(), str() */

  predicate IsDigit(c: char) {
    '0' <= c <= '9'
  }

  /** The digits of a Python integer literal: ASCII digits, where single
      underscores may stand between two digits. */
  predicate IsDigitRun(d: string) {
    && d != []
    && IsDigit(d[0]) && IsDigit(d[|d| - 1])
    && (forall i :: 0 <= i < |d| ==> IsDigit(d[i]) || d[i] == '_')
    && (forall i :: 0 <= i < |d| - 1 ==> d[i] == '_' ==> d[i + 1] != '_')
  }

  /** The value of a run of digits, underscores ignored. */
  function DigitsValue(d: string): nat
  {
    if d == [] then 0
    else if IsDigit(d[|d| - 1]) then 10 * DigitsValue(d[..|d| - 1]) + (d[|d| - 1] as int - '0' as int)
    else DigitsValue(d[..|d| - 1])
  }

  /** Python's `int(s)` for base 10: surrounding whitespace, an optional sign
      and a digit run; `None` where Python raises ValueError. */
  function ParseInt(s: string): Option<int>
  {
    var t := Strip(s);
    if t != [] && (t[0] == '+' || t[0] == '-') then
      if IsDigitRun(t[1..]) then
        var v: int := DigitsValue(t[1..]);
        Some(if t[0] == '-' then -v else v)
      else None
    else if IsDigitRun(t) then Some(DigitsValue(t))
    else None
  }

  function DigitChar(n: nat): (c: char)
    requires n < 10
    ensures IsDigit(c) && c as int - '0' as int == n
  {
    ('0' as int + n) as char
  }

  /** Python's `str(n)` for a natural number. */
  function Decimal(n: nat): (d: string)
    ensures IsDigitRun(d)
    ensures forall i :: 0 <= i < |d| ==> IsDigit(d[i])
  {
    if n < 10 then [DigitChar(n)] else Decimal(n / 10) + [DigitChar(n % 10)]
  }

  lemma DigitNotSpace(c: char)
    requires IsDigit(c)
    ensures !IsSpace(c)
  {
  }

  lemma {:induction false} DecimalValue(n: nat)
    ensures DigitsValue(Decimal(n)) == n
  {
    if n >= 10 {
      DecimalValue(n / 10);
      var d := Decimal(n);
      assert d[..|d| - 1] == Decimal(n / 10);
    }
  }

  /** `int(str(n)) == n`. */
  lemma ParseDecimal(n: nat)
    ensures ParseInt(Decimal(n)) == Some(n)
  {
    var d := Decimal(n);
    DecimalValue(n);
    DigitNotSpace(d[0]);
    DigitNotSpace(d[|d| - 1]);
    StripUnpadded(d);
    assert d[0] != '+' && d[0] != '-';
  }

  /** `str` is injective on natural numbers. */
  lemma DecimalInjective(m: nat, n: nat)
    requires Decimal(m) == Decimal(n)
    ensures m == n
  {
    ParseDecimal(m);
    ParseDecimal(n);
  }
}
