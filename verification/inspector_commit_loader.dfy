/** The inspector's `CommitLoader`: commits with four fields (id, tree,
    message, text), read by a header loop that keeps only `tree`; the branch
    map comes from a separate `BranchLoader`. */
module InspectorCommitLoader {
  import opened Results
  import opened Bytes
  import opened Text
  import opened CommitText
  import opened ObjectId
  import opened CatFileBatch
  import opened Branches
  import opened GitCommands

  datatype Commit = Commit(sha: string, tree: string, message: string, raw: string)

  /** The loader's caches: the commit ids, and the branch loader it owns. */
  datatype Loader = Loader(commitShas: Option<seq<string>>, branchLoader: BranchLoader)

  const NewLoader := Loader(None, BranchLoader(None))

  /** This loader's header loop: every line is still split into key and
      value, so a line without a space fails here too, but only `tree` is
      kept. */
  function ScanTree(tree: string, hs: seq<string>): (r: Result<string>)
    decreases |hs|
  {
    if hs == [] then Ok(tree)
    else
      match SplitOnce(hs[0], ' ')
      case None => Err(MalformedHeaderLine(hs[0]))
      case Some(kv) => ScanTree(if kv.0 == "tree" then kv.1 else tree, hs[1..])
  }

  /** The tree-only loop agrees with the full header loop: same failures,
      and the same `tree`. */
  lemma {:induction false} ScanTreeAgrees(acc: Headers, hs: seq<string>)
    ensures ScanTree(acc.tree, hs).Ok? <==> ScanHeaders(acc, hs).Ok?
    ensures ScanTree(acc.tree, hs).Ok? ==> ScanTree(acc.tree, hs).value == ScanHeaders(acc, hs).value.tree
    ensures ScanTree(acc.tree, hs).Err? ==> ScanTree(acc.tree, hs).error == ScanHeaders(acc, hs).error
    decreases |hs|
  {
    if hs != [] {
      match SplitOnce(hs[0], ' ')
      case None =>
      case Some(kv) =>
        var next := Apply(acc, kv.0, kv.1);
        assert next.tree == if kv.0 == "tree" then kv.1 else acc.tree;
        ScanTreeAgrees(next, hs[1..]);
    }
  }

  /** One commit from a record's id and decoded text: the tree of the last
      `tree` header line (`''` when there is none), the stripped text after
      the first blank line, and the text itself. A header line without a
      space fails the load, as in the other loaders. */
  function BuildCommit(sha: string, text: string): (r: Result<Commit>)
    ensures var hs := HeaderLines(text);
            && (r.Ok? <==> WellFormed(hs))
            && (r.Ok? ==> r.value == Commit(sha, LastOr(ValuesOf(hs, "tree"), ""), Strip(AfterBlankLine(text)), text))
            && (r.Err? ==> exists i :: 0 <= i < |hs| && Lacks(hs[i], ' ') && WellFormed(hs[..i])
                                      && r.error == MalformedHeaderLine(hs[i]))
  {
    var lines := Split(text, '\n');
    var hs := lines[..HeaderCount(lines)];
    ScanTreeAgrees(NoHeaders, hs);
    var tree :- ScanTree("", hs);
    ScanHeadersReference(NoHeaders, hs);
    BodyLinesText(text);
    Ok(Commit(sha, tree, Strip(Join(BodyLines(lines), '\n')), text))
  }

  /** `load_commits`: the (cached) commit ids, then one commit per record of
      the batch output, in order. The branch map is not read. */
  function LoadCommits(p: Primitives, s: Loader, git: GitOutputs): (r: (Result<seq<Commit>>, Loader))
    ensures r.1 == s.(commitShas := GetCommitShas(s.commitShas, git.revList).1)
  {
    var (shas, cache) := GetCommitShas(s.commitShas, git.revList);
    (LoadWith(p, git.catFile(Request(p, shas)), BuildCommit), s.(commitShas := cache))
  }

  /** On a batch output that decodes, one commit per record, in record
      order, with the record's id and decoded payload; the load fails exactly
      when some record's text has a header line without a space. */
  lemma LoadCommitsRecords(p: Primitives, s: Loader, git: GitOutputs)
    requires DecodeBatch(p, git.catFile(Request(p, GetCommitShas(s.commitShas, git.revList).0))).Ok?
    ensures var rs := DecodeBatch(p, git.catFile(Request(p, GetCommitShas(s.commitShas, git.revList).0))).value;
            var r := LoadCommits(p, s, git).0;
            && (r.Ok? <==> forall i :: 0 <= i < |rs| ==> WellFormed(HeaderLines(p.decodeLossy(rs[i].payload))))
            && (r.Ok? ==> |r.value| == |rs|
                          && forall i :: 0 <= i < |rs| ==>
                               r.value[i].sha == rs[i].sha && r.value[i].raw == p.decodeLossy(rs[i].payload))
  {
    var out := git.catFile(Request(p, GetCommitShas(s.commitShas, git.revList).0));
    LoadWithDecoded(p, out, BuildCommit);
    var rs := DecodeBatch(p, out).value;
    var r := BuildAll(p, rs, BuildCommit);
    if r.Ok? {
      forall i | 0 <= i < |rs|
        ensures r.value[i].sha == rs[i].sha && r.value[i].raw == p.decodeLossy(rs[i].payload)
      {
        assert BuildCommit(rs[i].sha, p.decodeLossy(rs[i].payload)) == Ok(r.value[i]);
      }
    }
  }

  /* ------------------------------------------------------ verification */

  /** `verify_commit`: reads the commit's id and text only. */
  predicate VerifyCommit(p: Primitives, c: Commit)
  {
    Verify(p, c.sha, c.raw)
  }

  /** A commit whose id was computed from its own text verifies; with any
      other id it does not. */
  lemma VerifyRoundTrip(p: Primitives, c: Commit, other: string)
    requires c.sha == Recompute(p, c.raw) && other != c.sha
    ensures VerifyCommit(p, c)
    ensures !VerifyCommit(p, c.(sha := other))
  {
  }

  /** What verification reads of a commit: its id and its text. */
  function IdAndText(c: Commit): (string, string)
  {
    (c.sha, c.raw)
  }

  /** `verify_all_commits`: loads the commits and reports, in order, each
      one that fails with its recomputed digest. */
  function VerifyAllCommits(p: Primitives, s: Loader, git: GitOutputs): (r: (Result<seq<Mismatch>>, Loader))
    ensures r.1 == LoadCommits(p, s, git).1
    ensures r.0.Ok? <==> LoadCommits(p, s, git).0.Ok?
    ensures r.0.Ok? ==> r.0.value == Mismatches(p, IdsAndTexts(LoadCommits(p, s, git).0.value, IdAndText))
  {
    var (loaded, s') := LoadCommits(p, s, git);
    match loaded
    case Err(e) => (Err(e), s')
    case Ok(commits) => (Ok(Mismatches(p, IdsAndTexts(commits, IdAndText))), s')
  }

  /** Verifying commits one at a time: the report of a list extended by one
      commit gains exactly that commit's mismatch, if it fails. */
  lemma ReportGrows(p: Primitives, commits: seq<Commit>, c: Commit)
    ensures Mismatches(p, IdsAndTexts(commits + [c], IdAndText)) ==
            Mismatches(p, IdsAndTexts(commits, IdAndText)) + (if VerifyCommit(p, c) then [] else [Mismatch(c.sha, Recompute(p, c.raw))])
  {
    assert IdsAndTexts(commits + [c], IdAndText) == IdsAndTexts(commits, IdAndText) + [(c.sha, c.raw)];
    MismatchesAppend(p, IdsAndTexts(commits, IdAndText), [(c.sha, c.raw)]);
  }

  /* ------------------------------------------------------ branch list */

  /** `get_branches`, delegated to the owned branch loader. */
  function GetBranchMap(s: Loader, git: GitOutputs): (r: (Result<BranchMap>, Loader))
    ensures r.1 == s.(branchLoader := GetBranches(s.branchLoader, git.forEachRef).1)
    ensures r.0 == GetBranches(s.branchLoader, git.forEachRef).0
  {
    var (found, b) := GetBranches(s.branchLoader, git.forEachRef);
    (found, s.(branchLoader := b))
  }

  /** `list_branches_json` before serialisation: the (branch, id) entries of
      the branch map. */
  function ListBranches(s: Loader, git: GitOutputs): (r: (Result<seq<(string, string)>>, Loader))
    ensures r.1 == GetBranchMap(s, git).1
    ensures r.0.Ok? <==> GetBranchMap(s, git).0.Ok?
    ensures r.0.Ok? ==> |r.0.value| == NameCount(GetBranchMap(s, git).0.value)
  {
    var (found, s') := GetBranchMap(s, git);
    match found
    case Err(e) => (Err(e), s')
    case Ok(m) => (Ok(Flatten(m)), s')
  }

  /** From a fresh loader on a well-formed output: one entry per output line,
      and the entries for each id name its branches in output order. */
  lemma ListBranchesFresh(git: GitOutputs, sha: string)
    requires AllParse(SplitLines(git.forEachRef))
    ensures ListBranches(NewLoader, git).0.Ok?
    ensures |ListBranches(NewLoader, git).0.value| == |SplitLines(git.forEachRef)|
    ensures BranchesAt(ListBranches(NewLoader, git).0.value, sha) == NamesAt(git.forEachRef, sha)
  {
    BranchMapOfWellFormed(git.forEachRef, sha);
    FlattenBranchMapOf(git.forEachRef, sha);
  }
}
