/** The inspector's terminal interface, reduced to how it turns loaded data
    into table rows: author names, timestamp tokens, short ids and subject
    lines for the commit table, name-sorted rows for the branch table, and
    the rule by which the commit list is cached between refreshes. */
module Tui {
  import opened Results
  import opened Text
  import opened Branches
  import InspectorCommitLoader
  import GitCommitLoader

  /* ------------------------------------------------------- commit cells */

  /** `_get_author_name`: the part of an author line before the first `<`,
      trimmed; with no `<`, the whole line trimmed. */
  function AuthorName(info: string): (r: string)
    ensures Lacks(r, '<')
    ensures Lacks(info, '<') ==> r == Strip(info)
  {
    Strip(BeforeFirst(info, '<'))
  }

  /** Git's author line `Name <email> seconds zone` gives the name, trimmed. */
  lemma AuthorNameOf(name: string, rest: string)
    requires Lacks(name, '<')
    ensures AuthorName(name + "<" + rest) == Strip(name)
  {
    SplitOnceAt(name, '<', rest);
  }

  /** What the date column is built from: the timestamp token, or the
      fallback `Unknown Date`. Formatting the timestamp is left out. */
  datatype DateToken = Timestamp(seconds: int) | UnknownDate

  /** `_parse_commit_date` up to formatting: the second-to-last of the
      `' '`-separated parts, read as an integer; `UnknownDate` when there are
      fewer than two parts (IndexError) or that part is not an integer
      (ValueError). */
  function CommitDate(info: string): (r: DateToken)
    ensures |Split(info, ' ')| < 2 ==> r == UnknownDate
    ensures |Split(info, ' ')| >= 2 ==>
              (r.Timestamp? <==> ParseInt(Split(info, ' ')[|Split(info, ' ')| - 2]).Some?)
    ensures r.Timestamp? ==> Some(r.seconds) == ParseInt(Split(info, ' ')[|Split(info, ' ')| - 2])
  {
    var parts := Split(info, ' ');
    if |parts| < 2 then UnknownDate
    else
      match ParseInt(parts[|parts| - 2])
      case None => UnknownDate
      case Some(t) => Timestamp(t)
  }

  /** On Git's author line `prefix seconds zone`, the token read is the
      seconds written. */
  lemma CommitDateOf(prefix: string, seconds: nat, zone: string)
    requires Lacks(zone, ' ')
    ensures CommitDate(prefix + " " + Decimal(seconds) + " " + zone) == Timestamp(seconds)
  {
    var d := Decimal(seconds);
    assert Lacks(d, ' ');
    SplitConcat(prefix + " " + d, ' ', zone);
    SplitConcat(prefix, ' ', d);
    assert prefix + " " + d + " " + zone == (prefix + [' '] + d) + [' '] + zone;
    assert Split(d, ' ') == [d];
    assert Split(zone, ' ') == [zone];
    ParseDecimal(seconds);
  }

  /** A line without a space has one part only, so no date. */
  lemma CommitDateOneWord(info: string)
    requires Lacks(info, ' ')
    ensures CommitDate(info) == UnknownDate
  {
  }

  function Min(a: int, b: int): int {
    if a <= b then a else b
  }

  /** `sha[:7]`: the first seven characters, or the whole id when shorter. */
  function ShortSha(sha: string): (r: string)
    ensures |r| == Min(7, |sha|)
    ensures sha == r + sha[|r|..]
  {
    if |sha| <= 7 then sha else sha[..7]
  }

  /** `message.split('\n', 1)[0]`: the first line of the message. */
  function Subject(message: string): (r: string)
    ensures Lacks(r, '\n')
  {
    BeforeFirst(message, '\n')
  }

  /** The subject is the first of the message's lines, and the message is
      that line followed, if there is more, by a newline and the rest. */
  lemma SubjectIsFirstLine(message: string)
    ensures Subject(message) == Split(message, '\n')[0]
    ensures Subject(message) == message || message[..|Subject(message)| + 1] == Subject(message) + "\n"
  {
    var i := Find(message, '\n');
    if i < |message| {
      assert message == message[..i] + ['\n'] + message[i + 1..];
      SplitJoinStep(message[..i], '\n', message[i + 1..]);
    }
  }

  /** A message written as a first line and the rest has that first line as
      its subject. */
  lemma SubjectOf(first: string, rest: string)
    requires Lacks(first, '\n')
    ensures Subject(first + "\n" + rest) == first
  {
    SplitOnceAt(first, '\n', rest);
  }

  /* -------------------------------------------------------- commit table */

  /** What the commit table reads of a loaded commit. `author` is `None`
      when the commit value has no `author` attribute at all. */
  datatype TableCommit = TableCommit(sha: string, author: Option<string>, message: string)

  /** A commit-table row: a commit's cells and its key, or a notice with the
      error it reports, if any. */
  datatype CommitRow =
    | CommitEntry(shortSha: string, author: string, date: DateToken, subject: string, key: string)
    | CommitNotice(text: string, detail: Option<Error>)

  /** The Python exception class behind each error. */
  function ErrorKind(e: Error): string
  {
    match e
    case MalformedHeaderLine(_) => "ValueError"
    case MalformedBatchHeader(_) => "ValueError"
    case InvalidSize(_) => "ValueError"
    case InvalidReadSize(_) => "ValueError"
    case UndecodableHeader(_) => "UnicodeDecodeError"
    case MalformedBranchLine(_) => "ValueError"
    case MissingAttribute(_) => "AttributeError"
    case Raised(kind, _) => kind
  }

  /** The row added when a refresh fails: the exception's class and text. */
  function CommitErrorRow(e: Error): CommitRow
  {
    CommitNotice("Error: " + ErrorKind(e), Some(e))
  }

  /** The row of one commit; reading `author` fails on a commit without one. */
  function CommitRowOf(c: TableCommit): Result<CommitRow>
  {
    match c.author
    case None => Err(MissingAttribute("author"))
    case Some(a) => Ok(CommitEntry(ShortSha(c.sha), AuthorName(a), CommitDate(a), Subject(c.message), c.sha))
  }

  /** Position of the first commit without an author, or `|cs|`. */
  function FirstMissing(cs: seq<TableCommit>): (k: nat)
    ensures k <= |cs|
    ensures forall i :: 0 <= i < k ==> cs[i].author.Some?
    ensures k < |cs| ==> cs[k].author.None?
  {
    if cs == [] || cs[0].author.None? then 0 else 1 + FirstMissing(cs[1..])
  }

  /** The loop over the cached commits: one row per commit, in order, until
      a commit without an author stops it; the rows added before stay. */
  function CommitRows(cs: seq<TableCommit>): (r: (seq<CommitRow>, Option<Error>))
    ensures r.1.None? <==> forall i :: 0 <= i < |cs| ==> cs[i].author.Some?
    ensures r.1.Some? ==> r.1 == Some(MissingAttribute("author"))
    ensures r.1.None? ==> |r.0| == |cs|
    ensures r.1.Some? ==> |r.0| < |cs| && cs[|r.0|].author.None?
    ensures forall i :: 0 <= i < |r.0| ==> cs[i].author.Some? && Ok(r.0[i]) == CommitRowOf(cs[i])
  {
    var k := FirstMissing(cs);
    var rows := seq(k, i requires 0 <= i < k => CommitRowOf(cs[i]).value);
    (rows, if k < |cs| then Some(MissingAttribute("author")) else None)
  }

  /** The table and the commit cache after `_update_commit_table`. */
  datatype CommitTable = CommitTable(rows: seq<CommitRow>, cache: seq<TableCommit>)

  /** `_update_commit_table`, given whether a commit loader exists, the
      cache, and what loading would give. The loader is consulted only when
      the cache is empty; any failure resets the cache to empty. */
  function UpdateCommitTable(available: bool, cache: seq<TableCommit>, load: Result<seq<TableCommit>>): (t: CommitTable)
    ensures !available ==> t == CommitTable([CommitNotice("CommitLoader not available.", None)], cache)
    ensures t.cache == cache || t.cache == [] || (cache == [] && load == Ok(t.cache))
  {
    if !available then CommitTable([CommitNotice("CommitLoader not available.", None)], cache)
    else if cache == [] && load.Err? then CommitTable([CommitErrorRow(load.error)], [])
    else
      var cs := if cache != [] then cache else load.value;
      if cs == [] then CommitTable([CommitNotice("No commits found.", None)], cs)
      else
        var (rows, err) := CommitRows(cs);
        match err
        case None => CommitTable(rows, cs)
        case Some(e) => CommitTable(rows + [CommitErrorRow(e)], [])
  }

  /** A non-empty cache is used as it is: what loading would give does not
      matter. */
  lemma CacheUsed(cache: seq<TableCommit>, load1: Result<seq<TableCommit>>, load2: Result<seq<TableCommit>>)
    requires cache != []
    ensures UpdateCommitTable(true, cache, load1) == UpdateCommitTable(true, cache, load2)
  {
  }

  /** A failed load leaves one error row and an empty cache, so the next
      refresh loads again. */
  lemma LoadFailureResets(e: Error)
    ensures UpdateCommitTable(true, [], Err(e)) == CommitTable([CommitNotice("Error: " + ErrorKind(e), Some(e))], [])
  {
  }

  /** Loading nothing gives the single notice row. */
  lemma NoCommitsNotice()
    ensures UpdateCommitTable(true, [], Ok([])) == CommitTable([CommitNotice("No commits found.", None)], [])
  {
  }

  /** When every commit has an author, the table has one row per commit in
      cache order, each keyed by the commit's id and showing its short id,
      author name, date token and subject; the commits stay cached. */
  lemma CommitsListed(cache: seq<TableCommit>, load: Result<seq<TableCommit>>)
    requires cache != [] || (load.Ok? && load.value != [])
    requires var cs := if cache != [] then cache else load.value;
             forall i :: 0 <= i < |cs| ==> cs[i].author.Some?
    ensures var cs := if cache != [] then cache else load.value;
            var t := UpdateCommitTable(true, cache, load);
            && t.cache == cs
            && |t.rows| == |cs|
            && forall i :: 0 <= i < |cs| ==>
                 t.rows[i] == CommitEntry(ShortSha(cs[i].sha), AuthorName(cs[i].author.value),
                                          CommitDate(cs[i].author.value), Subject(cs[i].message), cs[i].sha)
  {
  }

  /** A commit without an author ends the listing, whether the commits were
      cached or freshly loaded: the rows of the commits before it stay, one
      error row follows, and the cache is emptied. */
  lemma MissingAuthorStops(cache: seq<TableCommit>, load: Result<seq<TableCommit>>, k: nat)
    requires cache != [] || (load.Ok? && load.value != [])
    requires var cs := if cache != [] then cache else load.value;
             && k < |cs| && cs[k].author.None?
             && forall i :: 0 <= i < k ==> cs[i].author.Some?
    ensures var cs := if cache != [] then cache else load.value;
            var t := UpdateCommitTable(true, cache, load);
            && t.cache == []
            && |t.rows| == k + 1
            && t.rows[k] == CommitNotice("Error: AttributeError", Some(MissingAttribute("author")))
            && forall i :: 0 <= i < k ==> Ok(t.rows[i]) == CommitRowOf(cs[i])
  {
    var cs := if cache != [] then cache else load.value;
    MissingAuthorRows(cs, k);
    var (rows, err) := CommitRows(cs);
    var t := CommitTable(rows + [CommitErrorRow(err.value)], []);
    assert UpdateCommitTable(true, cache, load) == t;
    assert err.value == MissingAttribute("author");
    AttributeErrorRow();
    forall i | 0 <= i < k ensures Ok(t.rows[i]) == CommitRowOf(cs[i]) {
      assert t.rows[i] == rows[i];
    }
  }

  /** The loop stops exactly at the first commit without an author. */
  lemma MissingAuthorRows(cs: seq<TableCommit>, k: nat)
    requires k < |cs| && cs[k].author.None?
    requires forall i :: 0 <= i < k ==> cs[i].author.Some?
    ensures CommitRows(cs).1 == Some(MissingAttribute("author"))
    ensures |CommitRows(cs).0| == k
  {
    var (rows, err) := CommitRows(cs);
    assert cs[k].author.None?;
    assert err.Some?;
    assert cs[|rows|].author.None?;
  }

  lemma AttributeErrorRow()
    ensures CommitErrorRow(MissingAttribute("author")) == CommitNotice("Error: AttributeError", Some(MissingAttribute("author")))
  {
    assert "Error: " + "AttributeError" == "Error: AttributeError";
  }

  /** The inspector's commits, as the table reads them: they have no
      `author` attribute. */
  function FromInspectorCommit(c: InspectorCommitLoader.Commit): TableCommit
  {
    TableCommit(c.sha, None, c.message)
  }

  /** As written, the table is fed by the inspector's loader, whose commits
      carry no author: any non-empty load ends in a single AttributeError
      row and an empty cache, so no commit is ever listed and every refresh
      loads again. */
  lemma InspectorCommitsNeverListed(commits: seq<InspectorCommitLoader.Commit>)
    requires commits != []
    ensures var cs := seq(|commits|, i requires 0 <= i < |commits| => FromInspectorCommit(commits[i]));
            UpdateCommitTable(true, [], Ok(cs)) ==
              CommitTable([CommitNotice("Error: AttributeError", Some(MissingAttribute("author")))], [])
  {
    var cs := seq(|commits|, i requires 0 <= i < |commits| => FromInspectorCommit(commits[i]));
    assert cs[0].author.None?;
    assert CommitRowOf(cs[0]).Err?;
    assert CommitRows(cs) == ([], Some(MissingAttribute("author")));
    var row := CommitErrorRow(MissingAttribute("author"));
    AttributeErrorRow();
    assert UpdateCommitTable(true, [], Ok(cs)) == CommitTable([] + [row], []);
    assert [] + [row] == [row];
  }

  /** The commits of the `git_commit_loader` package carry the author line
      the table needs. */
  function FromFullCommit(c: GitCommitLoader.Commit): TableCommit
  {
    TableCommit(c.sha, Some(c.author), c.message)
  }

  /** Fed with commits that carry an author, every commit is listed, in
      order, with the name and date token from its author line. */
  lemma FullCommitsListed(commits: seq<GitCommitLoader.Commit>)
    requires commits != []
    ensures var cs := seq(|commits|, i requires 0 <= i < |commits| => FromFullCommit(commits[i]));
            var t := UpdateCommitTable(true, [], Ok(cs));
            && t.cache == cs
            && |t.rows| == |commits|
            && forall i :: 0 <= i < |commits| ==>
                 t.rows[i] == CommitEntry(ShortSha(commits[i].sha), AuthorName(commits[i].author),
                                          CommitDate(commits[i].author), Subject(commits[i].message), commits[i].sha)
  {
    var cs := seq(|commits|, i requires 0 <= i < |commits| => FromFullCommit(commits[i]));
    CommitsListed([], Ok(cs));
  }

  /* ---------------------------------------------------- sorting by name */

  /** Python's `<` on strings: code points compared left to right, a proper
      prefix first. */
  predicate Less(a: string, b: string)
    decreases |a|
  {
    if a == [] then b != []
    else if b == [] then false
    else a[0] < b[0] || (a[0] == b[0] && Less(a[1..], b[1..]))
  }

  lemma {:induction false} LessIrreflexive(a: string)
    ensures !Less(a, a)
    decreases |a|
  {
    if a != [] {
      LessIrreflexive(a[1..]);
    }
  }

  lemma {:induction false} LessAsymmetric(a: string, b: string)
    ensures Less(a, b) ==> !Less(b, a)
    decreases |a|
  {
    if a != [] && b != [] {
      LessAsymmetric(a[1..], b[1..]);
    }
  }

  /** Any two different strings are ordered one way or the other. */
  lemma {:induction false} LessTotal(a: string, b: string)
    ensures a == b || Less(a, b) || Less(b, a)
    decreases |a|
  {
    if a != [] && b != [] {
      LessTotal(a[1..], b[1..]);
      if a[0] == b[0] && a[1..] == b[1..] {
        assert a == [a[0]] + a[1..] && b == [b[0]] + b[1..];
      }
    }
  }

  lemma {:induction false} LessTransitive(a: string, b: string, c: string)
    requires Less(a, b) && Less(b, c)
    ensures Less(a, c)
    decreases |a|
  {
    if a != [] && a[0] == b[0] && b[0] == c[0] {
      LessTransitive(a[1..], b[1..], c[1..]);
    }
  }

  /** One `(name, sha)` entry of the branch table. */
  type Entry = (string, string)

  /** No entry is named before the one in front of it. */
  predicate Sorted(s: seq<Entry>) {
    forall i, j :: 0 <= i < j < |s| ==> !Less(s[j].0, s[i].0)
  }

  predicate NeighboursSorted(s: seq<Entry>) {
    forall i :: 0 < i < |s| ==> !Less(s[i].0, s[i - 1].0)
  }

  /** Put `x` after every entry of `acc` whose name is not after `x`'s. */
  function Insert(acc: seq<Entry>, x: Entry): (r: seq<Entry>)
    ensures |r| == |acc| + 1
    ensures multiset(r) == multiset(acc) + multiset{x}
    ensures acc == [] ==> r == [x]
    ensures acc != [] ==> r[|r| - 1] == x || r[|r| - 1] == acc[|acc| - 1]
    decreases |acc|
  {
    if acc == [] then [x]
    else
      var init := acc[..|acc| - 1];
      var last := acc[|acc| - 1];
      assert acc == init + [last];
      if Less(x.0, last.0) then Insert(init, x) + [last] else acc + [x]
  }

  lemma {:induction false} InsertSorted(acc: seq<Entry>, x: Entry)
    requires NeighboursSorted(acc)
    ensures NeighboursSorted(Insert(acc, x))
    decreases |acc|
  {
    if acc != [] {
      var init := acc[..|acc| - 1];
      var last := acc[|acc| - 1];
      if Less(x.0, last.0) {
        InsertSorted(init, x);
        var front := Insert(init, x);
        LessAsymmetric(x.0, last.0);
        if init != [] {
          assert !Less(last.0, init[|init| - 1].0);
        }
        assert front[|front| - 1] == x || !Less(last.0, front[|front| - 1].0);
      }
    }
  }

  /** `sorted_branches.sort(key=lambda x: x[0])`: a stable sort by name,
      here an insertion sort. */
  function SortByName(s: seq<Entry>): (r: seq<Entry>)
    ensures |r| == |s|
    ensures multiset(r) == multiset(s)
    decreases |s|
  {
    if s == [] then []
    else
      assert s == s[..|s| - 1] + [s[|s| - 1]];
      Insert(SortByName(s[..|s| - 1]), s[|s| - 1])
  }

  lemma {:induction false} SortNeighbours(s: seq<Entry>)
    ensures NeighboursSorted(SortByName(s))
    decreases |s|
  {
    if s != [] {
      SortNeighbours(s[..|s| - 1]);
      InsertSorted(SortByName(s[..|s| - 1]), s[|s| - 1]);
    }
  }

  lemma {:induction false} NeighboursSortedIsSorted(s: seq<Entry>)
    requires NeighboursSorted(s)
    ensures Sorted(s)
    decreases |s|
  {
    if s != [] {
      var init := s[..|s| - 1];
      NeighboursSortedIsSorted(init);
      forall i | 0 <= i < |s| - 1 ensures !Less(s[|s| - 1].0, s[i].0) {
        NotBeforeLast(s, i);
      }
    }
  }

  lemma {:induction false} NotBeforeLast(s: seq<Entry>, i: nat)
    requires NeighboursSorted(s) && i < |s| - 1
    ensures !Less(s[|s| - 1].0, s[i].0)
    decreases |s| - i
  {
    var n := |s| - 1;
    if i < n - 1 {
      NotBeforeLast(s, i + 1);
      if Less(s[n].0, s[i].0) {
        LessTotal(s[i].0, s[i + 1].0);
        if Less(s[i + 1].0, s[i].0) {
        } else if s[i].0 == s[i + 1].0 {
        } else {
          LessTransitive(s[n].0, s[i].0, s[i + 1].0);
        }
      }
    }
  }

  /** The sorted entries are in name order. */
  lemma SortByNameSorted(s: seq<Entry>)
    ensures Sorted(SortByName(s))
  {
    SortNeighbours(s);
    NeighboursSortedIsSorted(SortByName(s));
  }

  /** The entries with name `n`, in order. */
  function WithName(s: seq<Entry>, n: string): seq<Entry>
    decreases |s|
  {
    if s == [] then []
    else WithName(s[..|s| - 1], n) + (if s[|s| - 1].0 == n then [s[|s| - 1]] else [])
  }

  lemma {:induction false} InsertWithName(acc: seq<Entry>, x: Entry, n: string)
    ensures WithName(Insert(acc, x), n) == WithName(acc, n) + (if x.0 == n then [x] else [])
    decreases |acc|
  {
    if acc == [] {
      assert Insert(acc, x) == [x];
      assert [x][..0] == [];
    } else {
      var init := acc[..|acc| - 1];
      var last := acc[|acc| - 1];
      if Less(x.0, last.0) {
        var front := Insert(init, x);
        InsertWithName(init, x, n);
        assert (front + [last])[..|front|] == front;
        LessIrreflexive(x.0);
        var mine: seq<Entry> := if x.0 == n then [x] else [];
        var theirs: seq<Entry> := if last.0 == n then [last] else [];
        assert mine == [] || theirs == [];
        ConcatAssoc(WithName(init, n), mine, theirs);
        ConcatAssoc(WithName(init, n), theirs, mine);
      } else {
        assert (acc + [x])[..|acc|] == acc;
      }
    }
  }

  /** Entries with the same name keep their order: the sort is stable. */
  lemma {:induction false} SortStable(s: seq<Entry>, n: string)
    ensures WithName(SortByName(s), n) == WithName(s, n)
    decreases |s|
  {
    if s != [] {
      SortStable(s[..|s| - 1], n);
      InsertWithName(SortByName(s[..|s| - 1]), s[|s| - 1], n);
    }
  }

  /* -------------------------------------------------------- branch table */

  /** A branch-table row: a branch and its commit id, or a notice with the
      error it reports, if any. */
  datatype BranchRow = BranchEntry(name: string, sha: string) | BranchNotice(text: string, detail: Option<Error>)

  function EntryRows(es: seq<Entry>): (rows: seq<BranchRow>)
    ensures |rows| == |es|
    ensures forall i :: 0 <= i < |es| ==> rows[i] == BranchEntry(es[i].0, es[i].1)
  {
    seq(|es|, i requires 0 <= i < |es| => BranchEntry(es[i].0, es[i].1))
  }

  /** `_update_branch_table`, given whether a branch loader exists and what
      `get_branches` gives. */
  function UpdateBranchTable(available: bool, found: Result<BranchMap>): (rows: seq<BranchRow>)
    ensures !available ==> rows == [BranchNotice("BranchLoader not available.", None)]
    ensures available && found.Err? ==>
              rows == [BranchNotice("Error loading branches: " + ErrorKind(found.error), Some(found.error))]
    ensures available && found == Ok([]) ==> rows == [BranchNotice("No branches found.", None)]
  {
    if !available then [BranchNotice("BranchLoader not available.", None)]
    else
      match found
      case Err(e) => [BranchNotice("Error loading branches: " + ErrorKind(e), Some(e))]
      case Ok(m) =>
        if m == [] then [BranchNotice("No branches found.", None)]
        else EntryRows(SortByName(Flatten(m)))
  }

  /** For a non-empty map, the rows are the map's `(name, sha)` entries,
      one per branch name, each exactly once, in name order, with entries of
      the same name in map order. */
  lemma BranchRowsOf(m: BranchMap)
    requires m != []
    ensures var es := SortByName(Flatten(m));
            && UpdateBranchTable(true, Ok(m)) == EntryRows(es)
            && |es| == NameCount(m)
            && multiset(es) == multiset(Flatten(m))
            && Sorted(es)
            && forall n :: WithName(es, n) == WithName(Flatten(m), n)
  {
    SortByNameSorted(Flatten(m));
    forall n ensures WithName(SortByName(Flatten(m)), n) == WithName(Flatten(m), n) {
      SortStable(Flatten(m), n);
    }
  }
}
