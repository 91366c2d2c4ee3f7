/** The branch map of both loaders: `git for-each-ref` prints one line
    `<branch name> <commit id>` per local branch, and the loader groups the
    names under their commit id in a dict, which it then caches. */
module Branches {
  import opened Results
  import opened Text

  /** A dict from commit id to branch names. Python dicts keep their keys in
      first-insertion order, so the map is a sequence of entries. */
  type BranchMap = seq<(string, seq<string>)>

  predicate KeysUnique(m: BranchMap) {
    forall i, j :: 0 <= i < j < |m| ==> m[i].0 != m[j].0
  }

  /** Position of the entry for `sha`, or `|m|` when there is none. */
  function IndexOf(m: BranchMap, sha: string): (i: nat)
    ensures i <= |m|
    ensures forall j :: 0 <= j < i ==> m[j].0 != sha
    ensures i < |m| ==> m[i].0 == sha
  {
    if m == [] || m[0].0 == sha then 0 else 1 + IndexOf(m[1..], sha)
  }

  /** `branch_map.get(sha, [])`. */
  function Lookup(m: BranchMap, sha: string): (names: seq<string>)
    ensures (exists i :: 0 <= i < |m| && m[i].0 == sha) || names == []
  {
    var i := IndexOf(m, sha);
    if i < |m| then m[i].1 else []
  }

  /** The keys of the map, in order. */
  function Keys(m: BranchMap): (ks: seq<string>)
    ensures |ks| == |m| && forall i :: 0 <= i < |m| ==> ks[i] == m[i].0
  {
    if m == [] then [] else [m[0].0] + Keys(m[1..])
  }

  /** `branch_map.setdefault(sha, []).append(name)`: the name goes at the end
      of the list for `sha`, and a new key goes at the end of the map. */
  function AddBranch(m: BranchMap, sha: string, name: string): (r: BranchMap)
    ensures |r| == if IndexOf(m, sha) < |m| then |m| else |m| + 1
    ensures forall i :: 0 <= i < |m| ==> r[i].0 == m[i].0
    ensures IndexOf(m, sha) < |m| ==> r[IndexOf(m, sha)].1 == m[IndexOf(m, sha)].1 + [name]
    ensures IndexOf(m, sha) == |m| ==> r[|m|] == (sha, [name])
    ensures forall i :: 0 <= i < |m| && m[i].0 != sha ==> r[i] == m[i]
  {
    var i := IndexOf(m, sha);
    if i < |m| then m[i := (sha, m[i].1 + [name])] else m + [(sha, [name])]
  }

  /** `AddBranch` keeps the keys distinct and every list non-empty, and adds
      `sha` at the end of the keys when it is new. */
  lemma AddBranchShape(m: BranchMap, sha: string, name: string)
    ensures Keys(AddBranch(m, sha, name)) == if IndexOf(m, sha) < |m| then Keys(m) else Keys(m) + [sha]
    ensures KeysUnique(m) ==> KeysUnique(AddBranch(m, sha, name))
    ensures NoEmptyList(m) ==> NoEmptyList(AddBranch(m, sha, name))
  {
    var r := AddBranch(m, sha, name);
    var k := IndexOf(m, sha);
    if k < |m| {
      assert Keys(r) == Keys(m);
      if KeysUnique(m) {
        forall i, j | 0 <= i < j < |r| ensures r[i].0 != r[j].0 {
          assert r[i].0 == m[i].0 && r[j].0 == m[j].0;
        }
      }
    } else {
      assert Keys(r) == Keys(m) + [sha];
      if KeysUnique(m) {
        forall i, j | 0 <= i < j < |r| ensures r[i].0 != r[j].0 {
          if j == |m| {
            assert r[i].0 == m[i].0;
          } else {
            assert r[i].0 == m[i].0 && r[j].0 == m[j].0;
          }
        }
      }
    }
  }

  /** `AddBranch` extends the list under `sha` and leaves every other list alone. */
  lemma AddBranchLookup(m: BranchMap, sha: string, name: string, key: string)
    requires KeysUnique(m)
    ensures Lookup(AddBranch(m, sha, name), key) == Lookup(m, key) + (if key == sha then [name] else [])
  {
    var r := AddBranch(m, sha, name);
    var i := IndexOf(m, key);
    if i < |m| {
      assert r[i].0 == key;
      assert IndexOf(r, key) == i;
    } else if key == sha {
      assert r[|m|].0 == key;
      assert IndexOf(r, key) == |m|;
    } else {
      assert IndexOf(r, key) == |r|;
    }
  }

  /* ---------------------------------------------------------- one line */

  /** `name, sha = line.split(None, 1)`: the branch name and the commit id;
      fewer than two fields is a ValueError. */
  function ParseBranchLine(line: string): (r: Result<(string, string)>)
    ensures r.Err? ==> r.error == MalformedBranchLine(line)
    ensures r.Ok? ==> r.value.0 != [] && NoSpace(r.value.0) && r.value.1 != [] && !IsSpace(r.value.1[0])
  {
    var fields := SplitWsOnce(line);
    if |fields| != 2 then Err(MalformedBranchLine(line))
    else
      assert fields[0] == SplitWs(line)[0] by { SplitWsOnceAgrees(line); }
      Ok((fields[0], fields[1]))
  }

  /** A line parses exactly when it has at least two whitespace-separated
      fields; the name is the first field and the id holds the others. */
  lemma ParseBranchLineWords(line: string)
    ensures ParseBranchLine(line).Ok? <==> |SplitWs(line)| >= 2
    ensures ParseBranchLine(line).Ok? ==>
              ParseBranchLine(line).value.0 == SplitWs(line)[0]
              && SplitWs(ParseBranchLine(line).value.1) == SplitWs(line)[1..]
  {
    SplitWsOnceAgrees(line);
  }

  /** A line as `for-each-ref` writes it parses back into its name and id. */
  lemma ParseBranchLineOf(name: string, sha: string)
    requires name != [] && NoSpace(name)
    requires sha != [] && !IsSpace(sha[0])
    ensures ParseBranchLine(name + " " + sha) == Ok((name, sha))
  {
    SplitWsOnceOfPair(name, sha);
  }

  /* ---------------------------------------------------------- grouping */

  /** Each line of the output, parsed. Parsing is pure, so parsing every
      line first and then grouping up to the first failure is the same as
      the loop's parse-then-add of each line in turn. */
  function ParseAll(lines: seq<string>): (ps: seq<Result<(string, string)>>)
    ensures |ps| == |lines| && forall i :: 0 <= i < |lines| ==> ps[i] == ParseBranchLine(lines[i])
  {
    seq(|lines|, i requires 0 <= i < |lines| => ParseBranchLine(lines[i]))
  }

  /** The loop of `get_branches`, from the map `m`: each parsed line adds
      its name; the first malformed line stops it. The map built so far
      comes back in both cases, because the loop fills the cached dict in
      place. */
  function Group(m: BranchMap, ps: seq<Result<(string, string)>>): (r: (BranchMap, Option<Error>))
    decreases |ps|
  {
    if ps == [] then (m, None)
    else if ps[0].Err? then (m, Some(ps[0].error))
    else Group(AddBranch(m, ps[0].value.1, ps[0].value.0), ps[1..])
  }

  predicate AllOk(ps: seq<Result<(string, string)>>) {
    forall i :: 0 <= i < |ps| ==> ps[i].Ok?
  }

  /** Every line parses. */
  predicate AllParse(lines: seq<string>) {
    forall i :: 0 <= i < |lines| ==> ParseBranchLine(lines[i]).Ok?
  }

  /** The names of the entries whose id is `sha`, in order. */
  function NamesFor(ps: seq<Result<(string, string)>>, sha: string): seq<string>
    requires AllOk(ps)
  {
    if ps == [] then []
    else (if ps[0].value.1 == sha then [ps[0].value.0] else []) + NamesFor(ps[1..], sha)
  }

  /** Total number of names in the map. */
  function NameCount(m: BranchMap): nat
  {
    if m == [] then 0 else |m[0].1| + NameCount(m[1..])
  }

  predicate NoEmptyList(m: BranchMap) {
    forall i :: 0 <= i < |m| ==> m[i].1 != []
  }

  /** Position of the first failed parse, or `|ps|`. */
  function FirstErr(ps: seq<Result<(string, string)>>): (k: nat)
    ensures k <= |ps|
    ensures forall i :: 0 <= i < k ==> ps[i].Ok?
    ensures k < |ps| ==> ps[k].Err?
  {
    if ps == [] || ps[0].Err? then 0 else 1 + FirstErr(ps[1..])
  }

  /** Grouping fails exactly at a failed parse: the first one. */
  lemma GroupFails(m: BranchMap, ps: seq<Result<(string, string)>>)
    ensures Group(m, ps).1.None? <==> AllOk(ps)
    ensures Group(m, ps).1.Some? ==>
              exists i :: 0 <= i < |ps| && ps[i].Err? && AllOk(ps[..i]) && Group(m, ps).1.value == ps[i].error
  {
    GroupError(m, ps);
    var k := FirstErr(ps);
    if k < |ps| {
      assert AllOk(ps[..k]);
    }
  }

  lemma {:induction false} GroupError(m: BranchMap, ps: seq<Result<(string, string)>>)
    ensures Group(m, ps).1 == if FirstErr(ps) < |ps| then Some(ps[FirstErr(ps)].error) else None
    decreases |ps|
  {
    if ps != [] && ps[0].Ok? {
      var rest := ps[1..];
      var m' := AddBranch(m, ps[0].value.1, ps[0].value.0);
      GroupError(m', rest);
      assert Group(m, ps) == Group(m', rest);
      assert FirstErr(ps) == 1 + FirstErr(rest);
      if FirstErr(rest) < |rest| {
        assert ps[FirstErr(ps)] == rest[FirstErr(rest)];
      }
    }
  }

  lemma AllOkCons(ps: seq<Result<(string, string)>>)
    requires ps != []
    ensures AllOk(ps) <==> ps[0].Ok? && AllOk(ps[1..])
  {
    assert forall i :: 1 <= i < |ps| ==> ps[i] == ps[1..][i - 1];
  }

  /** On entries that all parsed, the list under every id is the names of
      its entries in order, after whatever `m` held. */
  lemma {:induction false} GroupLookup(m: BranchMap, ps: seq<Result<(string, string)>>, sha: string)
    requires KeysUnique(m) && AllOk(ps)
    ensures Lookup(Group(m, ps).0, sha) == Lookup(m, sha) + NamesFor(ps, sha)
    decreases |ps|
  {
    if ps != [] {
      var kv := ps[0].value;
      var m' := AddBranch(m, kv.1, kv.0);
      var here: seq<string> := if kv.1 == sha then [kv.0] else [];
      AllOkCons(ps);
      AddBranchShape(m, kv.1, kv.0);
      AddBranchLookup(m, kv.1, kv.0, sha);
      GroupLookup(m', ps[1..], sha);
      assert Group(m, ps) == Group(m', ps[1..]);
      assert NamesFor(ps, sha) == here + NamesFor(ps[1..], sha);
      assert Lookup(m', sha) == Lookup(m, sha) + here;
      ConcatAssoc(Lookup(m, sha), here, NamesFor(ps[1..], sha));
    }
  }

  /** Grouping keeps the keys distinct and never leaves a list empty. */
  lemma {:induction false} GroupShape(m: BranchMap, ps: seq<Result<(string, string)>>)
    requires KeysUnique(m) && NoEmptyList(m)
    ensures KeysUnique(Group(m, ps).0) && NoEmptyList(Group(m, ps).0)
    decreases |ps|
  {
    if ps != [] && ps[0].Ok? {
      AddBranchShape(m, ps[0].value.1, ps[0].value.0);
      GroupShape(AddBranch(m, ps[0].value.1, ps[0].value.0), ps[1..]);
    }
  }

  /** On entries that all parsed there is one name in the map per entry. */
  lemma {:induction false} GroupCount(m: BranchMap, ps: seq<Result<(string, string)>>)
    requires AllOk(ps)
    ensures NameCount(Group(m, ps).0) == NameCount(m) + |ps|
    decreases |ps|
  {
    if ps != [] {
      var kv := ps[0].value;
      AllOkCons(ps);
      AddBranchCount(m, kv.1, kv.0);
      GroupCount(AddBranch(m, kv.1, kv.0), ps[1..]);
    }
  }

  lemma {:induction false} AddBranchCount(m: BranchMap, sha: string, name: string)
    ensures NameCount(AddBranch(m, sha, name)) == NameCount(m) + 1
  {
    var i := IndexOf(m, sha);
    if i < |m| {
      NameCountUpdate(m, i, (sha, m[i].1 + [name]));
    } else {
      NameCountAppend(m, (sha, [name]));
    }
  }

  lemma {:induction false} NameCountUpdate(m: BranchMap, i: nat, e: (string, seq<string>))
    requires i < |m|
    ensures NameCount(m[i := e]) == NameCount(m) - |m[i].1| + |e.1|
  {
    if i > 0 {
      assert m[i := e][1..] == m[1..][i - 1 := e];
      NameCountUpdate(m[1..], i - 1, e);
    } else {
      assert m[i := e][1..] == m[1..];
    }
  }

  lemma {:induction false} NameCountAppend(m: BranchMap, e: (string, seq<string>))
    ensures NameCount(m + [e]) == NameCount(m) + |e.1|
  {
    if m != [] {
      assert (m + [e])[1..] == m[1..] + [e];
      NameCountAppend(m[1..], e);
    }
  }

  /** The map `get_branches` builds from the command's output: it starts
      from an empty dict and reads the output's lines in order. */
  function BranchMapOf(output: string): (BranchMap, Option<Error>)
  {
    Group([], ParseAll(SplitLines(output)))
  }

  /** The lines of `output` whose id is `sha`, by branch name, in order. */
  function NamesAt(output: string, sha: string): seq<string>
    requires AllParse(SplitLines(output))
  {
    NamesFor(ParseAll(SplitLines(output)), sha)
  }

  /** The map fails exactly at the first line without two fields, and names
      that line. */
  lemma BranchMapOfFails(output: string)
    ensures BranchMapOf(output).1.None? <==> AllParse(SplitLines(output))
    ensures BranchMapOf(output).1.Some? ==>
              var lines := SplitLines(output);
              exists i :: 0 <= i < |lines| && |SplitWs(lines[i])| < 2 && AllParse(lines[..i])
                          && BranchMapOf(output).1.value == MalformedBranchLine(lines[i])
  {
    var lines := SplitLines(output);
    var ps := ParseAll(lines);
    GroupFails([], ps);
    ParseAllOk(lines);
    if BranchMapOf(output).1.Some? {
      var i :| 0 <= i < |ps| && ps[i].Err? && AllOk(ps[..i]) && Group([], ps).1.value == ps[i].error;
      ParseBranchLineWords(lines[i]);
      ParseAllPrefix(lines, i);
      ParseAllOk(lines[..i]);
    }
  }

  lemma ParseAllOk(lines: seq<string>)
    ensures AllOk(ParseAll(lines)) <==> AllParse(lines)
  {
  }

  lemma ParseAllPrefix(lines: seq<string>, i: nat)
    requires i <= |lines|
    ensures ParseAll(lines)[..i] == ParseAll(lines[..i])
  {
  }

  /** What the map of a well-formed output holds: under each id, that id's
      names in output order; distinct keys; no empty list; one name per line.
      An empty output gives an empty map. */
  lemma BranchMapOfWellFormed(output: string, sha: string)
    requires AllParse(SplitLines(output))
    ensures BranchMapOf(output).1 == None
    ensures Lookup(BranchMapOf(output).0, sha) == NamesAt(output, sha)
    ensures KeysUnique(BranchMapOf(output).0) && NoEmptyList(BranchMapOf(output).0)
    ensures NameCount(BranchMapOf(output).0) == |SplitLines(output)|
    ensures output == [] ==> BranchMapOf(output).0 == []
  {
    var ps := ParseAll(SplitLines(output));
    assert AllOk(ps);
    GroupFails([], ps);
    GroupLookup([], ps, sha);
    GroupShape([], ps);
    GroupCount([], ps);
  }

  /* --------------------------------------------------------- flattening */

  /** `list_branches_json` before serialisation: one `(branch, sha)` entry
      per name, in map order and then list order. */
  function Flatten(m: BranchMap): (out: seq<(string, string)>)
    ensures |out| == NameCount(m)
  {
    if m == [] then [] else Pairs(m[0].1, m[0].0) + Flatten(m[1..])
  }

  /** The entries of one map entry. */
  function Pairs(names: seq<string>, sha: string): (out: seq<(string, string)>)
    ensures |out| == |names|
    ensures forall i :: 0 <= i < |names| ==> out[i] == (names[i], sha)
  {
    if names == [] then [] else [(names[0], sha)] + Pairs(names[1..], sha)
  }

  /** The branch names of the entries for `sha`, in order. */
  function BranchesAt(out: seq<(string, string)>, sha: string): seq<string>
  {
    if out == [] then []
    else (if out[0].1 == sha then [out[0].0] else []) + BranchesAt(out[1..], sha)
  }

  /** Reading the flat list back: the entries for any id carry exactly that
      id's list, in order. */
  lemma {:induction false} FlattenLookup(m: BranchMap, sha: string)
    requires KeysUnique(m)
    ensures BranchesAt(Flatten(m), sha) == Lookup(m, sha)
  {
    if m != [] {
      BranchesAtAppend(Pairs(m[0].1, m[0].0), Flatten(m[1..]), sha);
      BranchesAtPairs(m[0].1, m[0].0, sha);
      LookupCons(m, sha);
      FlattenLookup(m[1..], sha);
    }
  }

  /** `Lookup` on a map with distinct keys, by its first entry. */
  lemma LookupCons(m: BranchMap, sha: string)
    requires m != [] && KeysUnique(m)
    ensures KeysUnique(m[1..])
    ensures Lookup(m, sha) == if m[0].0 == sha then m[0].1 else Lookup(m[1..], sha)
    ensures m[0].0 == sha ==> Lookup(m[1..], sha) == []
  {
    var t := m[1..];
    assert forall i :: 0 <= i < |t| ==> t[i] == m[i + 1];
    if m[0].0 != sha {
      assert IndexOf(m, sha) == 1 + IndexOf(t, sha);
    } else {
      assert IndexOf(t, sha) == |t|;
    }
  }

  lemma {:induction false} BranchesAtAppend(a: seq<(string, string)>, b: seq<(string, string)>, sha: string)
    ensures BranchesAt(a + b, sha) == BranchesAt(a, sha) + BranchesAt(b, sha)
  {
    if a != [] {
      var here: seq<string> := if a[0].1 == sha then [a[0].0] else [];
      assert (a + b)[0] == a[0];
      assert (a + b)[1..] == a[1..] + b;
      BranchesAtAppend(a[1..], b, sha);
      assert BranchesAt(a + b, sha) == here + BranchesAt(a[1..] + b, sha);
      assert BranchesAt(a, sha) == here + BranchesAt(a[1..], sha);
      ConcatAssoc(here, BranchesAt(a[1..], sha), BranchesAt(b, sha));
    } else {
      assert a + b == b;
    }
  }

  lemma {:induction false} BranchesAtPairs(names: seq<string>, id: string, sha: string)
    ensures BranchesAt(Pairs(names, id), sha) == if id == sha then names else []
  {
    if names != [] {
      BranchesAtPairs(names[1..], id, sha);
      assert names == [names[0]] + names[1..];
    }
  }

  /** End to end: the flat list of a well-formed output has one entry per
      line, and the entries for each id name its branches in output order. */
  lemma FlattenBranchMapOf(output: string, sha: string)
    requires AllParse(SplitLines(output))
    ensures |Flatten(BranchMapOf(output).0)| == |SplitLines(output)|
    ensures BranchesAt(Flatten(BranchMapOf(output).0), sha) == NamesAt(output, sha)
  {
    BranchMapOfWellFormed(output, sha);
    FlattenLookup(BranchMapOf(output).0, sha);
  }

  /* -------------------------------------------------------------- cache */

  /** A `BranchLoader`: the cached map, `None` until the first query. */
  datatype BranchLoader = BranchLoader(branchMap: Option<BranchMap>)

  /** `get_branches` as written: a cached map is returned without running
      the command; otherwise the dict is cached before the loop fills it, so
      a malformed line leaves the part read so far in the cache. */
  function GetBranchesAsWritten(s: BranchLoader, output: string): (r: (Result<BranchMap>, BranchLoader))
    ensures s.branchMap.Some? ==> r == (Ok(s.branchMap.value), s)
    ensures s.branchMap.None? ==> r.1.branchMap == Some(BranchMapOf(output).0)
    ensures s.branchMap.None? ==> (r.0.Ok? <==> AllParse(SplitLines(output)))
    ensures r.0.Ok? ==> r.1.branchMap == Some(r.0.value)
  {
    BranchMapOfFails(output);
    match s.branchMap
    case Some(m) => (Ok(m), s)
    case None =>
      var (m, err) := BranchMapOf(output);
      match err
      case None => (Ok(m), BranchLoader(Some(m)))
      case Some(e) => (Err(e), BranchLoader(Some(m)))
  }

  /** `get_branches` with the dict cached only once it is complete: a
      failed read leaves the loader as it was. */
  function GetBranches(s: BranchLoader, output: string): (r: (Result<BranchMap>, BranchLoader))
    ensures s.branchMap.Some? ==> r == (Ok(s.branchMap.value), s)
    ensures s.branchMap.None? ==> (r.0.Ok? <==> AllParse(SplitLines(output)))
    ensures s.branchMap.None? && r.0.Ok? ==> r.0.value == BranchMapOf(output).0
    ensures r.0.Ok? ==> r.1.branchMap == Some(r.0.value)
    ensures r.0.Err? ==> r.1 == s
  {
    BranchMapOfFails(output);
    match s.branchMap
    case Some(m) => (Ok(m), s)
    case None =>
      var (m, err) := BranchMapOf(output);
      match err
      case None => (Ok(m), BranchLoader(Some(m)))
      case Some(e) => (Err(e), s)
  }

  /** Once a map is cached, every later call returns it, whatever the
      command would print now. */
  lemma CachedStays(s: BranchLoader, first: string, later: string)
    requires GetBranches(s, first).0.Ok?
    ensures GetBranches(GetBranches(s, first).1, later) == (GetBranches(s, first).0, GetBranches(s, first).1)
  {
  }

  /** As written, an output with a malformed line fails once and then is
      served from the cache as a successful, partial map: only the branch
      before the malformed line, none of the branches after it. */
  lemma PartialMapCached(name: string, sha: string, bad: string, more: seq<string>)
    requires name != [] && NoSpace(name) && sha != [] && !IsSpace(sha[0])
    requires NoLineBreak(name + " " + sha) && NoLineBreak(bad)
    requires forall k :: 0 <= k < |more| ==> NoLineBreak(more[k])
    requires ParseBranchLine(bad).Err?
    ensures var first := GetBranchesAsWritten(BranchLoader(None), Terminated([name + " " + sha, bad] + more));
            var second := GetBranchesAsWritten(first.1, Terminated([name + " " + sha, bad] + more));
            first.0.Err? && second.0 == Ok([(sha, [name])])
  {
    var lines := [name + " " + sha, bad] + more;
    OutputLines(name + " " + sha, bad, more, lines);
    GroupStopsAtBad(name, sha, bad, ParseAll(lines));
  }

  lemma OutputLines(first: string, second: string, more: seq<string>, lines: seq<string>)
    requires NoLineBreak(first) && NoLineBreak(second)
    requires forall k :: 0 <= k < |more| ==> NoLineBreak(more[k])
    requires lines == [first, second] + more
    ensures SplitLines(Terminated(lines)) == lines
  {
    forall k | 0 <= k < |lines| ensures NoLineBreak(lines[k]) {
      if k >= 2 { assert lines[k] == more[k - 2]; }
    }
    SplitLinesTerminated(lines);
  }

  lemma GroupStopsAtBad(name: string, sha: string, bad: string, ps: seq<Result<(string, string)>>)
    requires name != [] && NoSpace(name) && sha != [] && !IsSpace(sha[0])
    requires |ps| >= 2 && ps[0] == ParseBranchLine(name + " " + sha) && ps[1] == ParseBranchLine(bad)
    requires ParseBranchLine(bad).Err?
    ensures Group([], ps) == ([(sha, [name])], Some(MalformedBranchLine(bad)))
  {
    ParseBranchLineOf(name, sha);
    var m := [(sha, [name])];
    assert AddBranch([], sha, name) == m;
    assert ps[1..][0] == ps[1];
  }

  /** Such an output exists: `main abc`, then a line `x`. */
  lemma PartialMapWitness()
    ensures ParseBranchLine("x").Err?
    ensures NoLineBreak("main" + " " + "abc") && NoSpace("main")
  {
    ParseBranchLineWords("x");
    SplitWsLastWord("x", "");
    assert "x" + "" == "x";
  }

  /** With the corrected cache, a call after a failed one reads the output
      again: the result is exactly the map of the current output. */
  lemma FailedCallRetries(s: BranchLoader, first: string, later: string)
    requires s.branchMap.None?
    requires GetBranches(s, first).0.Err?
    requires AllParse(SplitLines(later))
    ensures GetBranches(GetBranches(s, first).1, later).0 == Ok(BranchMapOf(later).0)
  {
    BranchMapOfFails(later);
  }
}
