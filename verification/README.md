# A model of git-moukaeritai-work's commit inspector

The repository's inspector runs `git` and reshapes what it prints. This
project models that logic in Dafny: the reshaping as pure functions,
with git's output supplied as values. It covers:

- the three copies of the commit-object parser. They produce commits with
  eight fields (`git_commit_loader`), four fields (`git_repo_inspector`'s
  `CommitLoader`) and six fields (`load_commits_in_memory.py`);
- the `git cat-file --batch` record stream those loaders read;
- commit verification. It rebuilds Git's loose-object encoding,
  `"commit <size>\0" + body` (Pro Git, section 10.2 "Git Objects"), hashes it
  with SHA-1 and compares the lower-case hex digest with the stored id. The
  mismatch report of `verify_all_commits` is modelled too;
- the branch map built from `git for-each-ref`, its cache, and its flattening
  into (branch, id) pairs;
- the cached commit-id list of `get_commit_shas`;
- `clean_git_env`;
- the state `RepoDir` derives from its three `git rev-parse` probes;
- the pure parts of the terminal front end: author name, date token, short
  id, subject, the commit-table cache rule, and the branch table sorted by
  name.

## Layout

| module | file | what it holds |
|---|---|---|
| `Results` | results.dfy | `Option`, `Result`, and the errors the loaders raise |
| `Text` | text.dfy | Python's `strip`, `split(sep)`, `'\n'.join`, `split(' ', 1)`, `split()`, `split(None, 1)`, `splitlines` and `int()` on `str`, with their round trips |
| `Bytes` | bytes.dfy | bytes and ASCII text |
| `CommitText` | commit_text.dfy | the shared header/message parser and its reference definition |
| `ObjectId` | object_id.dfy | hex rendering, loose-object framing, verification, the mismatch report |
| `CatFileBatch` | cat_file_batch.dfy | the batch record decoder, its encoder, and the load loop shared by the loaders |
| `Branches` | branches.dfy | the branch map, its grouping, its flattening and its cache |
| `GitCommands` | git_commands.dfy | git's outputs taken as values, and the commit-id cache |
| `GitCommitLoader` | git_commit_loader.dfy | the eight-field loader |
| `InspectorCommitLoader` | inspector_commit_loader.dfy | the four-field loader |
| `InMemoryCommitLoader` | in_memory_commit_loader.dfy | the six-field loader |
| `EnvUtils` | env_utils.dfy | `clean_git_env` |
| `RepoDir` | repo_dir.dfy | `RepoDir` from probe outcomes |
| `Tui` | tui.dfy | cell helpers, the commit table, the branch table |

### Inputs

What git prints is an input value of type `GitCommands.GitOutputs`:
- the text of `rev-list --all`;
- the text of `for-each-ref`;
- `cat-file --batch` as a function from the bytes written to it to the bytes
  it prints.

A few library functions are fields of `ObjectId.Primitives`, so the model
proves nothing about their internals:
- SHA-1;
- UTF-8 encoding;
- lossy decoding (`errors='replace'`);
- strict decoding.

Hex rendering and the framing are defined exactly.

The probes of `RepoDir` are inputs, one `Printed(stdout)` or `Failed(error)`
each. So are the outcome of entering the repository path (entered, not
found, or another OSError such as NotADirectoryError for a file) and the
process environment.

### Where the code and its description disagree

The model follows the code in each case:
- **What `raw` holds.** A commit's `raw` is the payload decoded with
  replacement, not the payload bytes. Verification re-encodes it, so a
  payload that is not valid UTF-8 is reported as a mismatch.
  `ObjectId.LossyDecodeVerify` states both sides.
- **An absent `tree`.** It is `''`, not an error.
- **The inspector's `CommitLoader`.** It keeps only `tree` of the headers.
  Its commits have no `parents`, `author`, `committer` or `branches`.

## Model

| member | source | states |
|---|---|---|
| Text.Strip | src/git_commit_loader/__init__.py:110 | `strip()` drops the whitespace at both ends: the result is a contiguous part of the input with no whitespace at either end, and it is empty exactly when the input is all whitespace |
| Text.JoinSplit | src/git_commit_loader/__init__.py:89 | joining the parts of `split('\n')` with `'\n'` gives back the text |
| Text.SplitJoin | src/git_commit_loader/__init__.py:89 | splitting a join of at least one separator-free part gives back the parts |
| Text.SplitOnce | src/git_commit_loader/__init__.py:98 | `split(' ', 1)` yields two values exactly when the line has a space; the key is the text before the first space and the value is the rest |
| Text.SplitLinesTerminated | src/git_repo_inspector/commit_loader.py:48 | `splitlines()` of newline-terminated lines gives back the lines |
| Text.SplitWsOnceAgrees | src/git_repo_inspector/branch_loader.py:32 | `split(None, 1)` yields two values exactly when `split()` yields at least two words; its first value is the first word, and the rest splits into the remaining words |
| Text.ParseDecimal | src/git_commit_loader/__init__.py:79 | `int()` reads back the decimal digits of any natural number |
| CommitText.HeaderCount | src/git_commit_loader/__init__.py:97 | the header loop stops at the first empty line: every line before it is non-empty |
| CommitText.BodyLinesText | src/git_commit_loader/__init__.py:110 | the lines after the first empty line, rejoined, are the text after the first blank line, and are empty when there is none |
| CommitText.ScanHeaders | src/git_commit_loader/__init__.py:97-107 | the header loop succeeds exactly when every header line has a space; otherwise it fails on the first line without one |
| CommitText.ScanHeadersReference | src/git_commit_loader/__init__.py:90-107 | on well-formed header lines, the loop computes the reference reading: the last `tree`, `author` and `committer` value, `''` when absent, and every `parent` in order |
| CommitText.ParseCommitText | src/git_commit_loader/__init__.py:89-110 | a commit text parses exactly when its header lines are well formed. The headers are the reference reading and the message is the stripped text after the first blank line. A failure names the first header line without a space |
| CommitText.HeaderLines | src/git_commit_loader/__init__.py:89-97 | the header lines are non-empty and contain no newline |
| CommitText.ParseLaidOut | src/git_commit_loader/__init__.py:89-110 | for a text laid out as header lines, a blank line and a body, the header lines are exactly those lines and the message source is exactly the body |
| ObjectId.Hex | src/git_commit_loader/__init__.py:138 | `hexdigest()` gives two lower-case hex digits per byte |
| ObjectId.UnhexHex | src/git_commit_loader/__init__.py:138 | hex rendering can be read back, so it loses nothing |
| ObjectId.HexInjective | src/git_commit_loader/__init__.py:138 | different digests render as different hex strings |
| ObjectId.FrameHeaderText | src/git_commit_loader/__init__.py:137 | the framed header is the bytes of `f"commit {n}\0"` |
| ObjectId.ParseFrameFrame | src/git_commit_loader/__init__.py:136-138 | the loose-object encoding can be read back: its header gives the body's length |
| ObjectId.FrameInjective | src/git_commit_loader/__init__.py:136-138 | different bodies have different encodings |
| ObjectId.VerifiedIdShape | src/git_commit_loader/__init__.py:136-139 | with 20-byte digests, only a 40-character lower-case hex id can verify |
| ObjectId.VerifiedIdDeterminesBytes | src/git_commit_loader/__init__.py:136-139 | two texts that verify against one id encode to the same bytes, unless SHA-1 collides on their encodings |
| ObjectId.LossyDecodeVerify | src/git_commit_loader/__init__.py:136-139 | a commit whose text came from stored bytes verifies against their true id when re-encoding restores the bytes; otherwise it fails, barring a SHA-1 collision |
| ObjectId.VerifyAll | src/git_commit_loader/__init__.py:147-155 | the loop over the commits collects the same report as the recursive definition |
| ObjectId.MismatchesAppend | src/git_commit_loader/__init__.py:147-155 | the report of a concatenation is the concatenation of the reports, so the failures keep the commits' order |
| ObjectId.MismatchesExactly | src/git_commit_loader/__init__.py:147-155 | every reported entry is a failing commit paired with its recomputed digest, which differs from its id. Every failing commit is reported. The report is empty exactly when all commits verify |
| CatFileBatch.ReadLine | src/git_commit_loader/__init__.py:75-77 | `readline()` returns the bytes up to and including the first newline and leaves the rest; it returns nothing only at the end of the stream |
| CatFileBatch.Read | src/git_commit_loader/__init__.py:82 | `read(n)` on the buffered pipe raises ValueError exactly when `n < -1`; otherwise it returns exactly `n` bytes when there are that many, and everything that is left for `-1` or a short stream |
| CatFileBatch.ReadPayload | src/git_commit_loader/__init__.py:82 | `read(size + 1)[:-1]` is the `size` bytes after the header when more follow and the rest minus its last byte on a short stream; size -1 reads nothing, size -2 reads the rest minus its last byte, and any smaller size raises ValueError from `read` |
| CatFileBatch.ParseHeader | src/git_commit_loader/__init__.py:78-79 | a header is accepted exactly when it decodes, splits into three words and its last word is an integer, giving those words and that integer. Each failure has its own error: an undecodable line, a word count other than three, a size that is not an integer |
| CatFileBatch.NextRecord | load_commits_in_memory.py:50-58 | the stream ends exactly when it is empty; each record read consumes input; a header whose size is below -2 fails the read with ValueError, so no record read has such a size |
| CatFileBatch.NegativeSizeRaises | load_commits_in_memory.py:54-58 | the header `x commit -5` parses to size -5, and reading its payload with `read(-4)` raises ValueError |
| CatFileBatch.ParseHeaderLine | load_commits_in_memory.py:54-55 | a header line as `cat-file` writes it reads back as its id, type and size |
| CatFileBatch.NextRecordEncoded | load_commits_in_memory.py:51-58 | a written record reads back whole, payload included, and reading resumes right after its trailing byte |
| CatFileBatch.DecodeEncode | load_commits_in_memory.py:50-58 | reading a written sequence of records gives back the records |
| CatFileBatch.BuildAll | load_commits_in_memory.py:85-94 | building succeeds exactly when every record builds, and then yields one commit per record, in record order |
| CatFileBatch.LoadWithDecoded | load_commits_in_memory.py:50-94 | on a stream that decodes, the load loop is building from each decoded record in order |
| Branches.Lookup | src/git_commit_loader/__init__.py:112 | `branch_map.get(sha, [])`: an id not in the map has no branches |
| Branches.AddBranch | src/git_repo_inspector/branch_loader.py:33 | `setdefault(sha, []).append(name)`: an id already present gets `name` at the end of its list and keeps its place; a new id is added last with `[name]`; other entries are unchanged |
| Branches.AddBranchShape | src/git_repo_inspector/branch_loader.py:33 | adding a name keeps the keys unique, keeps every list non-empty, and adds a key only for a new id |
| Branches.AddBranchLookup | src/git_repo_inspector/branch_loader.py:33 | after adding, an id's list is its old list, plus the name when the id matches |
| Branches.ParseBranchLine | src/git_repo_inspector/branch_loader.py:32 | a line gives a name with no space and an id, or fails with that line |
| Branches.ParseBranchLineWords | src/git_repo_inspector/branch_loader.py:32 | a line parses exactly when it has at least two whitespace-separated words |
| Branches.ParseBranchLineOf | src/git_repo_inspector/branch_loader.py:32 | `name sha` as `for-each-ref` prints it parses as (name, sha) |
| Branches.GroupFails | src/git_repo_inspector/branch_loader.py:31-33 | grouping fails exactly when some line fails to parse, and it reports the first such line |
| Branches.GroupError | src/git_repo_inspector/branch_loader.py:31-33 | grouping's error is the error of the first line that fails to parse, or none |
| Branches.GroupLookup | src/git_repo_inspector/branch_loader.py:31-33 | after grouping, each id's list is its old list plus the names of its lines, in input order |
| Branches.GroupShape | src/git_repo_inspector/branch_loader.py:31-33 | grouping keeps the keys unique and no list empty |
| Branches.GroupCount | src/git_repo_inspector/branch_loader.py:31-33 | grouping adds one name per line |
| Branches.BranchMapOfFails | src/git_repo_inspector/branch_loader.py:29-33 | reading the output fails exactly when some line lacks two fields, and then on the first such line |
| Branches.BranchMapOfWellFormed | src/git_repo_inspector/branch_loader.py:29-34 | on a well-formed output: each id's list holds the names of its lines in output order. Keys are unique and no list is empty. The total number of names is the number of lines. Empty output gives an empty map |
| Branches.Flatten | src/git_commit_loader/__init__.py:163-168 | flattening gives one entry per name |
| Branches.FlattenLookup | src/git_commit_loader/__init__.py:163-168 | the flattened entries for an id name exactly that id's branches, in list order |
| Branches.FlattenBranchMapOf | src/git_commit_loader/__init__.py:163-168 | flattening the map of a well-formed output gives one entry per line; each id's entries name its branches in output order |
| Branches.GetBranches | src/git_repo_inspector/branch_loader.py:16-34 | a cached map is returned as it is. Otherwise the call succeeds exactly when every line parses, and caches the map of the output. A failed call leaves the loader as it was (see Findings) |
| Branches.CachedStays | src/git_repo_inspector/branch_loader.py:22-34 | once a call succeeds, every later call returns the same map and state, whatever the command would print now |
| Branches.FailedCallRetries | src/git_repo_inspector/branch_loader.py:22-34 | after a failed call, the next call reads the output again |
| Branches.GetBranchesAsWritten | src/git_repo_inspector/branch_loader.py:22-34 | as written, the first call caches the map of the lines read so far whether or not a line fails |
| Branches.PartialMapCached | src/git_repo_inspector/branch_loader.py:30-33 | as written, an output with a malformed second line fails once; the next call then succeeds with only the first line's branch |
| Branches.PartialMapWitness | src/git_repo_inspector/branch_loader.py:32 | `main abc` followed by `x` is such an output |
| GitCommands.GetCommitShas | src/git_repo_inspector/commit_loader.py:33-49 | the result is always the cached list: the first call caches the lines of `rev-list`; a cached list is returned as it is |
| GitCommands.FirstCallListsIds | src/git_repo_inspector/commit_loader.py:39-49 | the first call returns the ids `rev-list` printed, one per line |
| GitCommands.LaterCallsCached | src/git_repo_inspector/commit_loader.py:39-49 | later calls return the first call's list and leave the cache alone, whatever `rev-list` would print now |
| GitCommitLoader.BuildCommit | src/git_commit_loader/__init__.py:89-125 | a commit is built exactly when the header lines are well formed. `raw` is the whole text, the fields are the reference reading of the headers, the message is the stripped body, and the branches are the map's list for the id. A failure names the first bad header line |
| GitCommitLoader.LoadCommits | src/git_commit_loader/__init__.py:58-127 | the load caches the commit ids and the branch map; a failure reading the branches fails the load |
| GitCommitLoader.LoadCommitsRecords | src/git_commit_loader/__init__.py:64-127 | on a batch output that decodes, the load gives one commit per record, in order, with the record's id, its decoded payload as `raw` and the id's branches. It fails exactly when some payload has a malformed header line |
| GitCommitLoader.VerifyAllCommits | src/git_commit_loader/__init__.py:141-155 | the report is the mismatch report of the loaded commits' ids and texts; a failed load fails the call |
| GitCommitLoader.ReportExactly | src/git_commit_loader/__init__.py:147-155 | the report names exactly the commits that fail, each with its recomputed digest; it is empty exactly when every commit verifies |
| GitCommitLoader.LoadedCommitVerifies | src/git_commit_loader/__init__.py:129-139 | a commit loaded from a record whose id is Git's id for the payload verifies when decoding and re-encoding the payload gives it back |
| GitCommitLoader.ListBranches | src/git_commit_loader/__init__.py:157-168 | the listing succeeds exactly when reading the branches does, with one entry per branch name |
| GitCommitLoader.ListBranchesFresh | src/git_commit_loader/__init__.py:157-168 | from a fresh loader on a well-formed output, there is one entry per output line, and each id's entries name its branches in output order |
| InspectorCommitLoader.ScanTreeAgrees | src/git_repo_inspector/commit_loader.py:94-98 | the tree-only header loop fails on the same lines as the full loop, with the same error, and otherwise keeps the same `tree` |
| InspectorCommitLoader.BuildCommit | src/git_repo_inspector/commit_loader.py:89-110 | the commit is the id, the last `tree` value (or `''`), the stripped body and the whole text. A header line without a space fails the load even though only `tree` is kept |
| InspectorCommitLoader.LoadCommits | src/git_repo_inspector/commit_loader.py:54-112 | the load caches the commit ids and leaves the branch loader alone |
| InspectorCommitLoader.LoadCommitsRecords | src/git_repo_inspector/commit_loader.py:73-112 | on a batch output that decodes, the load gives one commit per record, in order, with the record's id and decoded payload; it fails exactly when some payload has a malformed header line |
| InspectorCommitLoader.VerifyRoundTrip | src/git_repo_inspector/commit_loader.py:114-124 | a commit whose id was computed from its own text verifies; with any other id it fails |
| InspectorCommitLoader.VerifyAllCommits | src/git_repo_inspector/commit_loader.py:126-140 | the report is the mismatch report of the loaded commits; a failed load fails the call |
| InspectorCommitLoader.ReportGrows | src/git_repo_inspector/commit_loader.py:132-140 | one more commit adds exactly its own mismatch to the end of the report, when it fails |
| InspectorCommitLoader.GetBranchMap | src/git_repo_inspector/commit_loader.py:51-52 | `get_branches` is the owned branch loader's answer, and updates only that loader |
| InspectorCommitLoader.ListBranches | src/git_repo_inspector/commit_loader.py:142-153 | the listing succeeds exactly when reading the branches does, with one entry per branch name |
| InspectorCommitLoader.ListBranchesFresh | src/git_repo_inspector/commit_loader.py:142-153 | from a fresh loader on a well-formed output, there is one entry per line, and each id's entries name its branches in output order |
| InMemoryCommitLoader.BuildCommit | load_commits_in_memory.py:62-94 | a commit is built exactly when the header lines are well formed: the last `tree`, `author` and `committer` (`''` when absent), every `parent` in order, and the stripped body. A failure names the first bad header line |
| InMemoryCommitLoader.BuildLaidOut | load_commits_in_memory.py:62-83 | a text laid out as header lines, a blank line and a body gives the fields written in those lines and the body, stripped |
| InMemoryCommitLoader.LoadCommits | load_commits_in_memory.py:35-96 | the load caches the commit ids |
| InMemoryCommitLoader.LoadEncodedRecords | load_commits_in_memory.py:50-94 | when `cat-file` prints a sequence of records, the load gives one commit per record, in order, built from the record's id and decoded payload; it fails exactly when some payload has a malformed header line |
| InMemoryCommitLoader.EmptyRepository | load_commits_in_memory.py:41-53 | an empty repository loads no commits and caches an empty id list |
| EnvUtils.PopAll | src/git_repo_inspector/env_utils.py:21-23 | popping each variable keeps exactly the entries whose key is not one of them, with their values |
| EnvUtils.CleanRemovesGitVars | src/git_repo_inspector/env_utils.py:4-23 | none of the eleven variables is left |
| EnvUtils.CleanKeepsOthers | src/git_repo_inspector/env_utils.py:21-24 | every other variable is kept with its value |
| EnvUtils.CleanIsDifference | src/git_repo_inspector/env_utils.py:19-24 | the result is the input minus the variables' keys, as one map difference |
| EnvUtils.CleanIdempotent | src/git_repo_inspector/env_utils.py:23 | cleaning twice is cleaning once |
| EnvUtils.CleanUnaffected | src/git_repo_inspector/env_utils.py:19-24 | an environment without any of the variables passes unchanged |
| RepoDir.NewRepoDir | src/git_repo_inspector/repo_dir.py:15-68 | construction fails exactly when a non-empty path was given and entering it failed. A missing path raises FileNotFoundError naming the path; any other OSError from `chdir` (NotADirectoryError, PermissionError) propagates with its own class |
| RepoDir.ChdirIgnoredWithoutPath | src/git_repo_inspector/repo_dir.py:23-29 | without a path nothing is entered, so construction succeeds whatever `chdir` would have done |
| RepoDir.ConstructedFields | src/git_repo_inspector/repo_dir.py:31-66 | each probe leaves exactly one of its value and its error set, except that a skipped top-level probe leaves both unset. The values are the probes' trimmed outputs and the errors are theirs |
| RepoDir.BareFlag | src/git_repo_inspector/repo_dir.py:48-56 | the bare flag is set exactly when the bare probe answered, and is true exactly when its trimmed output is `true` |
| RepoDir.BareSkipsToplevel | src/git_repo_inspector/repo_dir.py:58-66 | a bare repository has no top-level directory, whatever the top-level probe would say |
| RepoDir.GetToplevelDir | src/git_repo_inspector/repo_dir.py:81-90 | succeeds exactly when the repository is not known to be bare and a top-level directory is set, returning it |
| RepoDir.InsideHasToplevel | src/git_repo_inspector/repo_dir.py:70-90 | inside a working tree with the top-level probe answered, `get_toplevel_dir` returns that answer, trimmed |
| RepoDir.InsideToplevelIff | src/git_repo_inspector/repo_dir.py:70-90 | inside a working tree, `get_toplevel_dir` succeeds exactly when the top-level probe did not fail |
| RepoDir.BareHasNoToplevel | src/git_repo_inspector/repo_dir.py:70-90 | a bare repository is never inside a working tree and never yields a top-level directory |
| RepoDir.UnknownBareStillHasToplevel | src/git_repo_inspector/repo_dir.py:58-90 | when the bare probe fails, the directory is not inside a working tree, yet its top-level directory is still returned |
| Tui.AuthorName | src/git_repo_inspector/tui.py:93-98 | the name contains no `<`; without a `<` it is the whole line, trimmed |
| Tui.AuthorNameOf | src/git_repo_inspector/tui.py:96 | for `name <rest>`, the result is `name` trimmed |
| Tui.CommitDate | src/git_repo_inspector/tui.py:81-91 | fewer than two `' '`-separated parts gives Unknown Date. Otherwise the timestamp is the integer value of the second-to-last part, or Unknown Date when that is not an integer |
| Tui.CommitDateOf | src/git_repo_inspector/tui.py:85-86 | an author line ending `<seconds> <zone>` gives those seconds |
| Tui.CommitDateOneWord | src/git_repo_inspector/tui.py:85-91 | a line without a space gives Unknown Date |
| Tui.ShortSha | src/git_repo_inspector/tui.py:119 | the short id is the first `min(7, len)` characters of the id |
| Tui.SubjectIsFirstLine | src/git_repo_inspector/tui.py:125 | the subject is the first `'\n'`-separated part of the message: the whole message, or the text before its first newline |
| Tui.SubjectOf | src/git_repo_inspector/tui.py:125 | `first + "\n" + rest` has subject `first` |
| Tui.CommitRows | src/git_repo_inspector/tui.py:118-126 | the loop gives one row per commit, in order, until the first commit without an author, where it stops with AttributeError |
| Tui.UpdateCommitTable | src/git_repo_inspector/tui.py:100-133 | without a loader the table says so and the cache is kept. The cache afterwards is the old cache, empty, or — only when it was empty — the loaded list |
| Tui.CacheUsed | src/git_repo_inspector/tui.py:108-109 | with a non-empty cache, the loader's answer does not matter |
| Tui.LoadFailureResets | src/git_repo_inspector/tui.py:129-131 | a failed load gives one error row naming the exception class and an empty cache |
| Tui.NoCommitsNotice | src/git_repo_inspector/tui.py:127-128 | an empty load gives the single row "No commits found." |
| Tui.CommitsListed | src/git_repo_inspector/tui.py:111-126 | commits that all carry an author give one row each, in order: short id, author name, date token, subject, with the full id as key. They become the cache |
| Tui.MissingAuthorStops | src/git_repo_inspector/tui.py:108-131 | whether the commits were cached or just loaded, a commit without an author keeps the rows before it, adds one AttributeError row and empties the cache |
| Tui.InspectorCommitsNeverListed | src/git_repo_inspector/tui.py:118-120 | the inspector's commits have no author, so any non-empty load shows a single AttributeError row and leaves the cache empty |
| Tui.FullCommitsListed | src/git_repo_inspector/tui.py:118-126 | commits that carry an author line, as the eight-field loader's do, are all listed in order |
| Tui.LessTransitive | src/git_repo_inspector/tui.py:192 | Python's string order is transitive. It is also irreflexive, asymmetric and total: see LessIrreflexive, LessAsymmetric and LessTotal |
| Tui.LessTotal | src/git_repo_inspector/tui.py:192 | any two different strings are ordered one way or the other |
| Tui.SortByName | src/git_repo_inspector/tui.py:192 | sorting keeps the entries: same length, same multiset |
| Tui.SortByNameSorted | src/git_repo_inspector/tui.py:192 | the sorted entries are in name order |
| Tui.SortStable | src/git_repo_inspector/tui.py:192 | entries with the same name keep their relative order |
| Tui.UpdateBranchTable | src/git_repo_inspector/tui.py:181-201 | no loader gives "BranchLoader not available."; a failure gives one row naming the exception class; an empty map gives "No branches found." |
| Tui.BranchRowsOf | src/git_repo_inspector/tui.py:186-195 | a non-empty map gives one row per branch name, each (name, id) entry exactly once, sorted by name, with same-name entries in map order |

## Left out

- Running git: `subprocess`, the pipes to `cat-file`, `check=True`, and the environment passed in. Their outputs are inputs. A command that exits with an error is not modelled for `rev-list` and `for-each-ref`; a failed `rev-parse` probe is.
- `os.chdir` into the repository and back. The working directory is not modelled.
- The internals of SHA-1, UTF-8 encoding and the two decoders. They are parameters, so nothing is proved about their internals.
- `json.dumps` and `_asdict` in `list_branches_json` and `list_commits_json`. `list_commits_json` is only `load_commits` serialised, so it has no member of its own.
- `datetime.fromtimestamp(...).strftime(...)`, including its range errors. `Tui.CommitDate` returns the integer timestamp token.
- The Textual widgets, `compose`, `on_mount`, `_load_repo_data` and `on_button_pressed`. `_load_repo_data` also clears the commit cache on error (tui.py:63), which `Tui.UpdateCommitTable` covers as a call with an empty cache.
- Exception message texts. An error row carries the exception class name and the model's error value, not `str(e)`.
- RepoDir.NewRepoDir: for an OSError other than FileNotFoundError, the model keeps the exception class and the path but not Python's message text, which comes from the operating system.
- `int()` on non-ASCII digits. `Text.ParseInt` accepts ASCII digits, a sign, single underscores and surrounding whitespace.
- Python's whitespace set for `strip` and `split()`. It is written out as a predicate over the code points Python treats as whitespace.
- The `git_commit_loader` package's inline `get_branches` (src/git_commit_loader/__init__.py:38-56). It is the same code as `BranchLoader.get_branches`, so it shares that model: `Branches.GetBranchesAsWritten` as written, `Branches.GetBranches` corrected (see Findings).
- The worktree experiment scripts, `repo_loader.py` and the `__main__.py` command line. They contain no logic beyond running git.
- Assertions in the tests that disagree with the code. These are a four-field commit expected to carry `parents` and `branches`, and an "Unknown Author" that `_get_author_name` never returns for a string. The code is modelled.
- `clean_git_env` works on a copy of `os.environ`. The model takes the environment as an immutable map, so the input is unchanged by construction.

## Findings

| source | as written | input that shows it | evidently intended | confidence | as-written member | corrected member |
|---|---|---|---|---|---|---|
| src/git_repo_inspector/tui.py:118-126 | the commit table reads `commit.author`, but the `CommitLoader` feeding it builds four-field commits with no `author` | any repository with at least one commit: the first row raises AttributeError, the table shows one error row, and the cache is emptied, so every refresh loads again | commits carrying the author line, as the eight-field loader builds them, listed one row each | high, not executed | Tui.InspectorCommitsNeverListed | Tui.FullCommitsListed |
| src/git_repo_inspector/branch_loader.py:30-33 | `branch_map = {}` is cached before the loop fills it, so a line without two fields leaves the names read so far in the cache | `for-each-ref` printing `main abc` then `x`: the first call raises, the second returns `{'abc': ['main']}` as if complete | cache the map only once every line has been read, so a failed call leaves nothing cached | medium, not executed | Branches.PartialMapCached | Branches.FailedCallRetries |

`Branches.GetBranchesAsWritten` is the cache as written. `Branches.GetBranches` is the corrected cache, and every loader in the model uses it. The same pattern appears at src/git_commit_loader/__init__.py:52-55.
