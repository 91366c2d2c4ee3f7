/** The standalone in-memory loader: commits with six fields (id, tree,
    parents, author, committer, message) and no branch information. */
module InMemoryCommitLoader {
  import opened Results
  import opened Bytes
  import opened Text
  import opened CommitText
  import opened ObjectId
  import opened CatFileBatch
  import opened GitCommands

  datatype Commit = Commit(
    sha: string, tree: string, parents: seq<string>, author: string, committer: string, message: string)

  /** The loader's only state: the cached commit ids. */
  datatype Loader = Loader(commitShas: Option<seq<string>>)

  const NewLoader := Loader(None)

  /** One commit from a record's id and decoded text: the fields of the
      header lines (the last `tree`, `author` and `committer`, every
      `parent`), and the stripped text after the first blank line. A header
      line without a space fails the load. */
  function BuildCommit(sha: string, text: string): (r: Result<Commit>)
    ensures var hs := HeaderLines(text);
            && (r.Ok? <==> WellFormed(hs))
            && (r.Ok? ==> && r.value.sha == sha
                          && r.value.tree == LastOr(ValuesOf(hs, "tree"), "")
                          && r.value.parents == ValuesOf(hs, "parent")
                          && r.value.author == LastOr(ValuesOf(hs, "author"), "")
                          && r.value.committer == LastOr(ValuesOf(hs, "committer"), "")
                          && r.value.message == Strip(AfterBlankLine(text)))
            && (r.Err? ==> exists i :: 0 <= i < |hs| && Lacks(hs[i], ' ') && WellFormed(hs[..i])
                                      && r.error == MalformedHeaderLine(hs[i]))
  {
    var parsed :- ParseCommitText(text);
    var h := parsed.headers;
    Ok(Commit(sha, h.tree, h.parents, h.author, h.committer, parsed.message))
  }

  /** A text in Git's layout (header lines, a blank line, the message) gives
      the fields written in its header lines and its message, stripped. */
  lemma BuildLaidOut(sha: string, hs: seq<string>, body: string)
    requires |hs| >= 1
    requires forall i :: 0 <= i < |hs| ==> hs[i] != [] && Lacks(hs[i], '\n')
    ensures var r := BuildCommit(sha, Join(hs, '\n') + "\n\n" + body);
            && (r.Ok? <==> WellFormed(hs))
            && (r.Ok? ==> r.value == Commit(sha, LastOr(ValuesOf(hs, "tree"), ""), ValuesOf(hs, "parent"),
                                            LastOr(ValuesOf(hs, "author"), ""), LastOr(ValuesOf(hs, "committer"), ""),
                                            Strip(body)))
  {
    ParseLaidOut(hs, body);
  }

  /** `load_commits`: the (cached) commit ids, then one commit per record of
      the batch output, in order. */
  function LoadCommits(p: Primitives, s: Loader, git: GitOutputs): (r: (Result<seq<Commit>>, Loader))
    ensures r.1 == Loader(GetCommitShas(s.commitShas, git.revList).1)
  {
    var (shas, cache) := GetCommitShas(s.commitShas, git.revList);
    (LoadWith(p, git.catFile(Request(p, shas)), BuildCommit), Loader(cache))
  }

  /** When `cat-file` answers with a sequence of well-formed records, the
      load yields one commit per record, in order, each with the record's id
      and the fields of the record's decoded payload; it fails exactly when
      some payload has a header line without a space. */
  lemma LoadEncodedRecords(p: Primitives, s: Loader, git: GitOutputs, rs: seq<BatchRecord>)
    requires forall i :: 0 <= i < |rs| ==> Writable(rs[i])
    requires git.catFile(Request(p, GetCommitShas(s.commitShas, git.revList).0)) == EncodeBatch(rs)
    ensures var r := LoadCommits(p, s, git).0;
            && (r.Ok? <==> forall i :: 0 <= i < |rs| ==> WellFormed(HeaderLines(p.decodeLossy(rs[i].payload))))
            && (r.Ok? ==> |r.value| == |rs|
                          && forall i :: 0 <= i < |rs| ==> Ok(r.value[i]) == BuildCommit(rs[i].sha, p.decodeLossy(rs[i].payload)))
  {
    DecodeEncode(p, rs);
    LoadWithDecoded(p, EncodeBatch(rs), BuildCommit);
  }

  /** An empty repository: `rev-list` prints nothing, nothing is asked of
      `cat-file`, and when it prints nothing back, no commits are loaded. */
  lemma EmptyRepository(p: Primitives, git: GitOutputs)
    requires git.revList == [] && git.catFile([]) == []
    ensures LoadCommits(p, NewLoader, git) == (Ok([]), Loader(Some([])))
  {
    assert SplitLines([]) == [];
    assert NextRecord(p, []) == Ok(None);
  }
}
