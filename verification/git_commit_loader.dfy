/** The `git_commit_loader` package's loader: commits with eight fields, the
    branches pointing at each commit attached. */
module GitCommitLoader {
  import opened Results
  import opened Bytes
  import opened Text
  import opened CommitText
  import opened ObjectId
  import opened CatFileBatch
  import opened Branches
  import opened GitCommands

  datatype Commit = Commit(
    sha: string, tree: string, parents: seq<string>, author: string, committer: string,
    message: string, branches: seq<string>, raw: string)

  /** The loader's caches: the commit ids and the branch map. */
  datatype Loader = Loader(commitShas: Option<seq<string>>, branches: BranchLoader)

  const NewLoader := Loader(None, BranchLoader(None))

  /** One commit from a record's id and the record's decoded text. The text
      is kept whole as `raw`; the fields are those of the header lines (the
      last `tree`, `author` and `committer`, every `parent`, `''` and `[]`
      when absent); the message is the stripped text after the first blank
      line; the branches are the map's list for the id, or none. A header
      line without a space fails the load. */
  function BuildCommit(branchMap: BranchMap, sha: string, text: string): (r: Result<Commit>)
    ensures var hs := HeaderLines(text);
            && (r.Ok? <==> WellFormed(hs))
            && (r.Ok? ==> && r.value.sha == sha && r.value.raw == text
                          && r.value.tree == LastOr(ValuesOf(hs, "tree"), "")
                          && r.value.parents == ValuesOf(hs, "parent")
                          && r.value.author == LastOr(ValuesOf(hs, "author"), "")
                          && r.value.committer == LastOr(ValuesOf(hs, "committer"), "")
                          && r.value.message == Strip(AfterBlankLine(text))
                          && r.value.branches == Lookup(branchMap, sha))
            && (r.Err? ==> exists i :: 0 <= i < |hs| && Lacks(hs[i], ' ') && WellFormed(hs[..i])
                                      && r.error == MalformedHeaderLine(hs[i]))
  {
    var parsed :- ParseCommitText(text);
    var h := parsed.headers;
    Ok(Commit(sha, h.tree, h.parents, h.author, h.committer, parsed.message, Lookup(branchMap, sha), text))
  }

  /** What `cat-file --batch` prints for the ids the loader asks for. */
  function BatchOutput(p: Primitives, shas: seq<string>, git: GitOutputs): seq<byte>
  {
    git.catFile(Request(p, shas))
  }

  /** `load_commits`: the commit ids and the branch map (both cached), then
      one commit per record of the batch output, in order. A failure while
      reading the branches ends the load before the batch is read. */
  function LoadCommits(p: Primitives, s: Loader, git: GitOutputs): (r: (Result<seq<Commit>>, Loader))
    ensures r.1.commitShas == GetCommitShas(s.commitShas, git.revList).1
    ensures r.1.branches == GetBranches(s.branches, git.forEachRef).1
    ensures GetBranches(s.branches, git.forEachRef).0.Err? ==> r.0 == Err(GetBranches(s.branches, git.forEachRef).0.error)
  {
    var (shas, cache) := GetCommitShas(s.commitShas, git.revList);
    var (found, branches) := GetBranches(s.branches, git.forEachRef);
    var s' := Loader(cache, branches);
    match found
    case Err(e) => (Err(e), s')
    case Ok(branchMap) =>
      (LoadWith(p, BatchOutput(p, shas, git), (sha, text) => BuildCommit(branchMap, sha, text)), s')
  }

  /** On a batch output that decodes, the load yields one commit per record,
      in record order: its id is the record's, its text is the record's
      payload decoded, its branches are the map's list for that id. It fails
      exactly when some record's text has a header line without a space. */
  lemma LoadCommitsRecords(p: Primitives, s: Loader, git: GitOutputs)
    requires GetBranches(s.branches, git.forEachRef).0.Ok?
    requires DecodeBatch(p, BatchOutput(p, GetCommitShas(s.commitShas, git.revList).0, git)).Ok?
    ensures var branchMap := GetBranches(s.branches, git.forEachRef).0.value;
            var rs := DecodeBatch(p, BatchOutput(p, GetCommitShas(s.commitShas, git.revList).0, git)).value;
            var r := LoadCommits(p, s, git).0;
            && (r.Ok? <==> forall i :: 0 <= i < |rs| ==> WellFormed(HeaderLines(p.decodeLossy(rs[i].payload))))
            && (r.Ok? ==> |r.value| == |rs|
                          && forall i :: 0 <= i < |rs| ==>
                               && r.value[i].sha == rs[i].sha
                               && r.value[i].raw == p.decodeLossy(rs[i].payload)
                               && r.value[i].branches == Lookup(branchMap, rs[i].sha))
  {
    var branchMap := GetBranches(s.branches, git.forEachRef).0.value;
    var out := BatchOutput(p, GetCommitShas(s.commitShas, git.revList).0, git);
    var build := (sha, text) => BuildCommit(branchMap, sha, text);
    LoadWithDecoded(p, out, build);
    var rs := DecodeBatch(p, out).value;
    var r := BuildAll(p, rs, build);
    if r.Ok? {
      forall i | 0 <= i < |rs|
        ensures r.value[i].sha == rs[i].sha && r.value[i].raw == p.decodeLossy(rs[i].payload)
                && r.value[i].branches == Lookup(branchMap, rs[i].sha)
      {
        assert build(rs[i].sha, p.decodeLossy(rs[i].payload)) == Ok(r.value[i]);
      }
    }
  }

  /* ------------------------------------------------------ verification */

  /** `verify_commit`: reads the commit's id and text only. */
  predicate VerifyCommit(p: Primitives, c: Commit)
  {
    Verify(p, c.sha, c.raw)
  }

  /** What verification reads of a commit: its id and its text. */
  function IdAndText(c: Commit): (string, string)
  {
    (c.sha, c.raw)
  }

  /** `verify_all_commits`: loads the commits and reports the ones that
      fail verification. A failed load fails the call. */
  function VerifyAllCommits(p: Primitives, s: Loader, git: GitOutputs): (r: (Result<seq<Mismatch>>, Loader))
    ensures r.1 == LoadCommits(p, s, git).1
    ensures r.0.Ok? <==> LoadCommits(p, s, git).0.Ok?
    ensures r.0.Ok? ==> r.0.value == Report(p, LoadCommits(p, s, git).0.value)
  {
    var (loaded, s') := LoadCommits(p, s, git);
    match loaded
    case Err(e) => (Err(e), s')
    case Ok(commits) => (Ok(Report(p, commits)), s')
  }

  /** The mismatch report for loaded commits. */
  function Report(p: Primitives, commits: seq<Commit>): seq<Mismatch>
  {
    Mismatches(p, IdsAndTexts(commits, IdAndText))
  }

  /** The report names exactly the commits that fail, in order, each with
      its recomputed digest (never equal to its id); it is empty exactly when
      every commit verifies. */
  lemma ReportExactly(p: Primitives, commits: seq<Commit>)
    ensures forall m :: m in Report(p, commits) ==>
              (m.recomputed != m.sha
               && exists i :: 0 <= i < |commits| && commits[i].sha == m.sha && m.recomputed == Recompute(p, commits[i].raw))
    ensures forall i :: 0 <= i < |commits| && !VerifyCommit(p, commits[i]) ==>
              Mismatch(commits[i].sha, Recompute(p, commits[i].raw)) in Report(p, commits)
    ensures Report(p, commits) == [] <==> forall i :: 0 <= i < |commits| ==> VerifyCommit(p, commits[i])
  {
    var pairs := IdsAndTexts(commits, IdAndText);
    MismatchesExactly(p, pairs);
    forall m | m in Mismatches(p, pairs)
      ensures exists i :: 0 <= i < |commits| && commits[i].sha == m.sha && m.recomputed == Recompute(p, commits[i].raw)
    {
      var c :| c in pairs && c.0 == m.sha && m.recomputed == Recompute(p, c.1);
      var i :| 0 <= i < |pairs| && pairs[i] == c;
    }
    forall i | 0 <= i < |commits| && !VerifyCommit(p, commits[i])
      ensures Mismatch(commits[i].sha, Recompute(p, commits[i].raw)) in Mismatches(p, pairs)
    {
      assert pairs[i] in pairs;
    }
    if Mismatches(p, pairs) == [] {
      forall i | 0 <= i < |commits| ensures VerifyCommit(p, commits[i]) {
        assert pairs[i] in pairs;
      }
    }
  }

  /** A commit loaded from a record whose id is Git's id for the payload
      verifies when decoding and re-encoding the payload gives it back. */
  lemma LoadedCommitVerifies(p: Primitives, branchMap: BranchMap, record: BatchRecord)
    requires record.sha == GitObjectId(p, record.payload)
    requires p.encode(p.decodeLossy(record.payload)) == record.payload
    ensures BuildCommit(branchMap, record.sha, p.decodeLossy(record.payload)).Ok? ==>
            VerifyCommit(p, BuildCommit(branchMap, record.sha, p.decodeLossy(record.payload)).value)
  {
    LossyDecodeVerify(p, record.payload);
  }

  /* ------------------------------------------------------ branch list */

  /** `list_branches_json` before serialisation: the (branch, id) entries of
      the cached branch map. */
  function ListBranches(s: Loader, git: GitOutputs): (r: (Result<seq<(string, string)>>, Loader))
    ensures r.1 == s.(branches := GetBranches(s.branches, git.forEachRef).1)
    ensures r.0.Ok? <==> GetBranches(s.branches, git.forEachRef).0.Ok?
    ensures r.0.Ok? ==> |r.0.value| == NameCount(GetBranches(s.branches, git.forEachRef).0.value)
  {
    var (found, branches) := GetBranches(s.branches, git.forEachRef);
    match found
    case Err(e) => (Err(e), s.(branches := branches))
    case Ok(m) => (Ok(Flatten(m)), s.(branches := branches))
  }

  /** From a fresh loader on a well-formed output: one entry per output line,
      and the entries for each id name its branches in output order. */
  lemma ListBranchesFresh(git: GitOutputs, sha: string)
    requires AllParse(SplitLines(git.forEachRef))
    ensures ListBranches(NewLoader, git).0.Ok?
    ensures |ListBranches(NewLoader, git).0.value| == |SplitLines(git.forEachRef)|
    ensures BranchesAt(ListBranches(NewLoader, git).0.value, sha) == NamesAt(git.forEachRef, sha)
  {
    BranchMapOfWellFormed(git.forEachRef, sha);
    FlattenBranchMapOf(git.forEachRef, sha);
  }
}
