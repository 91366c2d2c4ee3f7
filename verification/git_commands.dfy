/** What the loaders get from running git, taken as values: the text printed
    by `git rev-list --all` and by `git for-each-ref`, and `git cat-file
    --batch` as a function from the bytes written to its input to the bytes
    it prints. Also the commit id list every loader caches. */
module GitCommands {
  import opened Results
  import opened Bytes
  import opened Text
  import opened ObjectId

  datatype GitOutputs = GitOutputs(revList: string, forEachRef: string, catFile: seq<byte> -> seq<byte>)

  /** The bytes written to `cat-file --batch`: each id and a newline, encoded. */
  function Request(p: Primitives, shas: seq<string>): seq<byte>
  {
    if shas == [] then [] else p.encode(shas[0] + "\n") + Request(p, shas[1..])
  }

  /** `get_commit_shas`: a cached list is returned as it is; otherwise the
      lines of `rev-list` are read and cached. The result is always the
      cached list. */
  function GetCommitShas(cache: Option<seq<string>>, revList: string): (r: (seq<string>, Option<seq<string>>))
    ensures r.1 == Some(r.0)
    ensures cache.Some? ==> r.0 == cache.value
    ensures cache.None? ==> r.0 == SplitLines(revList)
  {
    match cache
    case Some(shas) => (shas, cache)
    case None =>
      var shas := SplitLines(revList);
      (shas, Some(shas))
  }

  /** `rev-list` prints one id per line; the first call returns those ids. */
  lemma FirstCallListsIds(shas: seq<string>)
    requires forall k :: 0 <= k < |shas| ==> NoLineBreak(shas[k])
    ensures GetCommitShas(None, Terminated(shas)) == (shas, Some(shas))
  {
    SplitLinesTerminated(shas);
  }

  /** After the first call, later calls return the same list and leave the
      cache alone, whatever `rev-list` would print now. */
  lemma LaterCallsCached(first: string, later: string)
    ensures var (shas, cache) := GetCommitShas(None, first);
            GetCommitShas(cache, later) == (shas, cache)
  {
  }
}
