# git-stats ownership tally, modelled in Dafny

git-stats ranks the authors of a git repository by the number of lines they
own in HEAD. It walks HEAD's tree in pre-order. It blames every file it meets
and adds each blame hunk's line count to the hunk author's entry in one
`HashMap<String, usize>`. At the end it lists the map's entries sorted by
count, highest first. It is a single file,
`src/main.rs`, with three functions: `make_blame`, `get_tree` and `main`.

The model keeps that structure:

- `rust_types.dfy` (`RustTypes`): Rust's `Option` (with `unwrap_or`) and `Result` (`Ok`/`Err`).
- `tallies.dfy` (`Tallies`): the tally (`map<string, nat>`), the
  insert-at-0-then-add step, and the sum of all counts.
- `blame.dfy` (`Blame`): `make_blame`. A blame is a sequence of hunks, each an
  optional e-mail and a line count. The e-mail is absent when the library
  cannot return it as text; an empty e-mail is present, as the empty string.
  `FoldHunks` is the hunk loop. It is checked
  against an independent reference sum, `HunkSum`, which adds up the lines of
  the hunks attributed to one author.
- `tree_walk.dfy` (`TreeWalk`): `get_tree`. The walk is the sequence of
  entries it visits, each with its directory path, optional name and optional
  kind, plus the error the walk may report. Blame is an oracle from path to
  hunks or error.
- `ranking.dfy` (`Ranking`): the collect-and-sort of `main`. Collecting the
  map is a method that takes the entries in an arbitrary order, because
  `HashMap` iteration order is unspecified. `sort_by` is modelled as a stable
  insertion sort on counts.
- `seqs.dfy` (`Seqs`): sequence and multiset helpers for the permutation proofs.
- `scenario.dfy` (`Scenario`): one worked run. Files `A`, `src/B` and `src/C`
  sit beside a directory and a submodule entry. The run ends with
  alice owning 13 lines and bob 5, and the ranking is alice, then bob.

The two panics in `get_tree` are modelled as error values of `TreeWalk.Error`,
not as preconditions. `EmptyFilename` is the `expect("empty filename")` on an
entry name the library cannot return as text. `BlameUnwrapped` is the
`unwrap()` on a failed blame. Errors that `get_tree` returns with `?` are
`Git`.

The program is sequential: it walks and blames one file at a time. A failed
blame panics. The sort compares counts only, so
the order of rows with equal counts is whatever `HashMap` iteration gave.

## Model

| member | source | states |
|---|---|---|
| Tallies.AddLines | src/main.rs:14-15 | the author gains an entry if it had none; its count becomes the old count (0 if absent) plus the hunk's lines; every other author's count is unchanged |
| Tallies.TotalAddLines | src/main.rs:14-15 | adding n lines to one author raises the sum of all counts by exactly n |
| Blame.FoldHunksSpec | src/main.rs:10-16 | after the hunk loop, the authors are the old authors plus every author some hunk is attributed to, and each author's count is its old count (0 if absent) plus the lines of the hunks attributed to it |
| Blame.MakeBlame | src/main.rs:7-18 | a failed blame returns its error and leaves the tally exactly as it was; a successful one returns Ok, adds each hunk's lines to its author, removes no key, and raises the sum of all counts by the file's total hunk lines |
| Blame.EmaillessCountsAsUnknown | src/main.rs:11-15 | a hunk whose signature e-mail the library cannot return as text puts an "unknown" entry in the tally, with at least that hunk's lines on top of the earlier "unknown" count |
| Blame.FoldHunksFrame | src/main.rs:14-15 | an author no hunk is attributed to keeps its count, and is present afterwards exactly when it was present before |
| Blame.FoldHunksTotal | src/main.rs:10-16 | the sum of all counts grows by exactly the sum of the hunks' line counts |
| Blame.FoldHunksAppend | src/main.rs:10-16 | folding two runs of hunks one after the other is the same as folding them together |
| Blame.FoldHunksPermutation | src/main.rs:10-16 | any rearrangement of the hunks gives the same tally |
| TreeWalk.PathOfInjective | src/main.rs:24-28 | the blame path `parent path ++ name` identifies the file: for entries whose directory path is empty or ends in '/' and whose name holds no '/', as the walk reports them, equal paths mean equal directory paths and equal names, so no two files are blamed at the same path |
| TreeWalk.Blobs | src/main.rs:25 | an entry is kept exactly when the walk visited it and its kind is Blob |
| TreeWalk.BlobsCount | src/main.rs:25 | each blob is kept exactly as many times as the walk visited it, and no other entry is kept |
| TreeWalk.BlobsAppend | src/main.rs:24-25 | the filter keeps walk order: the files of two consecutive stretches of the walk are the files of the first followed by those of the second |
| TreeWalk.PathOfLastComponent | src/main.rs:26-28 | for an entry as the walk reports it, the text after the last '/' of the path it is blamed at is its name |
| TreeWalk.VisitOnlyBlobs | src/main.rs:24-30 | entries that are not blobs contribute nothing: the walk gives the same outcome as the walk over its blob entries alone |
| TreeWalk.VisitFiles | src/main.rs:25-29 | over blob entries, the callback loop succeeds exactly when every file has a name and can be blamed, and then gives the fold of all the files' hunks in walk order |
| TreeWalk.VisitPanics | src/main.rs:27-28 | the callback loop can only fail with one of the two panics, never with a returned git error |
| TreeWalk.GetTreeOutcome | src/main.rs:20-33 | `get_tree` returns a tally exactly when the walk reported no error and every blob could be named and blamed; that tally is the fold of all blob hunks; if every blob is blamed but the walk failed it returns the walk's error; otherwise it ends in a panic |
| TreeWalk.GetTreeTally | src/main.rs:20-33 | in a clean run, the tally's authors are exactly those of the blob hunks, each author's count is the lines of that author's hunks over all blob files, and the counts sum to the total lines of all blob hunks |
| TreeWalk.AllHunksPermutation | src/main.rs:24-30 | taking the files in another order leaves every file blameable and only rearranges the hunks |
| TreeWalk.GetTreeOrderIndependent | src/main.rs:24-30 | in a clean run, visiting the blob files in any other order gives the same tally |
| Ranking.Insert | src/main.rs:44 | inserting a row into a list sorted by non-increasing count keeps it sorted, and the result is the list plus that row |
| Ranking.SortByCount | src/main.rs:44 | the result is sorted by non-increasing count and is a permutation of the input |
| Ranking.Collect | src/main.rs:43 | the collected list holds every entry of the map exactly once |
| Ranking.EntriesOnce | src/main.rs:43 | a permutation of the map's entries has one row per author, each carrying that author's count, and no author twice |
| Ranking.Rank | src/main.rs:43-44 | the output is sorted by non-increasing count; it is a permutation of the map's entries; it has one row per author with that author's count, and no author twice |
| Ranking.Report | src/main.rs:41-44 | the ranking exists exactly when the run is clean, and otherwise the error is the one `get_tree` ended with; each row is an author of some blob hunk with that author's summed lines, every such author has a row, and counts never increase down the list |
| Scenario.ExampleTally | src/main.rs:20-33 | the worked walk (files A, src/B, src/C, plus a directory and a submodule) yields alice 13 and bob 5 |
| Scenario.ExampleRanking | src/main.rs:43-44 | any sorted permutation of that tally is alice 13, then bob 5 |

## Left out

- `Repository::open`, `head()`, `peel_to_tree()`, `blame_file` and `Tree::walk` are library calls whose internals are not part of this model. The walk becomes a `TreeWalk.Traversal`: the entries visited in pre-order and an optional error. A failure to resolve HEAD is a traversal that visited nothing and carries the error. Blame becomes an oracle from path to hunks or error.
- Argument handling and the `assert!` on the argument count (src/main.rs:37-38) are left out because they are process I/O. Opening the repository (src/main.rs:40) and printing (src/main.rs:46) are left out for the same reason.
- Tallies.AddLines: counts are unbounded naturals. The `usize` overflow of `*entry += lines` is not modelled. It would panic in a debug build and wrap in a release build. Counts are bounded by the repository's line count.
- Ranking.Rank: no order among rows of equal count is claimed. The Rust sort is stable but compares counts only, over `HashMap` iteration order, which is unspecified. `Collect` models that order as an arbitrary choice.
- The callback never asks the walk to skip or stop through its return value, which is always `TreeWalkResult::Ok`. A panic in it ends the run at that entry, as `Visit` does. Where a failing walk stops is part of the input.
