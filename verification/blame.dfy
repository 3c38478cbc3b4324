/** `make_blame`: folding one file's blame hunks into the per-author tally. */
module Blame {
  import opened RustTypes
  import opened Tallies
  import Seqs

  /** An error reported by the version-control library. */
  datatype GitError = GitError(message: string)

  /** One blame hunk: the e-mail of its final signature, absent when the
      library cannot return that e-mail as text, and the number of lines the
      hunk covers. An empty e-mail is present, as the empty string. */
  datatype Hunk = Hunk(email: Option<string>, lines: nat)

  /** The key that hunks without an e-mail are counted under. */
  const Unknown: string := "unknown"

  /** The author a hunk is attributed to. */
  function AuthorOf(h: Hunk): string {
    UnwrapOr(h.email, Unknown)
  }

  /** Every author some hunk is attributed to. */
  function Authors(hs: seq<Hunk>): set<string> {
    set h | h in hs :: AuthorOf(h)
  }

  /** The lines a hunk gives author `a`: all of them when it is attributed to `a`, else none. */
  function Share(h: Hunk, a: string): nat {
    if AuthorOf(h) == a then h.lines else 0
  }

  /** Reference definition: the lines of the hunks attributed to `a`. */
  function HunkSum(hs: seq<Hunk>, a: string): nat {
    if hs == [] then 0 else Share(hs[0], a) + HunkSum(hs[1..], a)
  }

  /** The lines of all hunks, whoever they are attributed to. */
  function Lines(hs: seq<Hunk>): nat {
    if hs == [] then 0 else hs[0].lines + Lines(hs[1..])
  }

  lemma AuthorsUnfold(hs: seq<Hunk>)
    requires hs != []
    ensures Authors(hs) == {AuthorOf(hs[0])} + Authors(hs[1..])
  {
  }

  /** The loop of `make_blame`: hunks are added one by one, in blame order. */
  function FoldHunks(m: Tally, hs: seq<Hunk>): Tally
    decreases |hs|
  {
    if hs == [] then m
    else FoldHunks(AddLines(m, AuthorOf(hs[0]), hs[0].lines), hs[1..])
  }

  /** After the loop, the authors are the old ones plus every author a hunk
      is attributed to, and each author's count has grown by the lines of
      the hunks attributed to it. */
  lemma {:induction false} FoldHunksSpec(m: Tally, hs: seq<Hunk>)
    ensures FoldHunks(m, hs).Keys == m.Keys + Authors(hs)
    ensures forall a :: Get(FoldHunks(m, hs), a) == Get(m, a) + HunkSum(hs, a)
    decreases |hs|
  {
    if hs != [] {
      AuthorsUnfold(hs);
      FoldHunksSpec(AddLines(m, AuthorOf(hs[0]), hs[0].lines), hs[1..]);
    }
  }

  /** `make_blame`: the tally after the call, and the call's own result. A
      failed blame returns its error before the tally is touched. */
  function MakeBlame(authors: Tally, blame: Result<seq<Hunk>, GitError>): (r: (Tally, Result<(), GitError>))
    ensures blame.Err? ==> r == (authors, Err(blame.error))
    ensures blame.Ok? ==> r.1 == Ok(())
    ensures blame.Ok? ==> r.0.Keys == authors.Keys + Authors(blame.value)
    ensures blame.Ok? ==> forall a :: Get(r.0, a) == Get(authors, a) + HunkSum(blame.value, a)
    ensures blame.Ok? ==> Total(r.0) == Total(authors) + Lines(blame.value)
  {
    match blame
    case Err(e) => (authors, Err(e))
    case Ok(hunks) =>
      FoldHunksSpec(authors, hunks);
      FoldHunksTotal(authors, hunks);
      (FoldHunks(authors, hunks), Ok(()))
  }

  lemma {:induction false} HunkSumAbsent(hs: seq<Hunk>, a: string)
    requires a !in Authors(hs)
    ensures HunkSum(hs, a) == 0
    decreases |hs|
  {
    if hs != [] {
      AuthorsUnfold(hs);
      HunkSumAbsent(hs[1..], a);
    }
  }

  /** An author no hunk is attributed to keeps its entry, or its absence, and its count. */
  lemma FoldHunksFrame(m: Tally, hs: seq<Hunk>, a: string)
    requires a !in Authors(hs)
    ensures a in FoldHunks(m, hs) <==> a in m
    ensures Get(FoldHunks(m, hs), a) == Get(m, a)
  {
    FoldHunksSpec(m, hs);
    HunkSumAbsent(hs, a);
  }

  lemma {:induction false} HunkSumCovers(hs: seq<Hunk>, i: nat)
    requires i < |hs|
    ensures HunkSum(hs, AuthorOf(hs[i])) >= hs[i].lines
    decreases |hs|
  {
    if i > 0 {
      HunkSumCovers(hs[1..], i - 1);
    }
  }

  /** A hunk whose e-mail the library cannot return as text is counted under "unknown". */
  lemma EmaillessCountsAsUnknown(m: Tally, hs: seq<Hunk>, i: nat)
    requires i < |hs| && hs[i].email.None?
    ensures Unknown in FoldHunks(m, hs)
    ensures FoldHunks(m, hs)[Unknown] >= Get(m, Unknown) + hs[i].lines
  {
    FoldHunksSpec(m, hs);
    assert hs[i] in hs;
    HunkSumCovers(hs, i);
  }

  /** The sum of all counts grows by exactly the lines of the file's hunks. */
  lemma {:induction false} FoldHunksTotal(m: Tally, hs: seq<Hunk>)
    ensures Total(FoldHunks(m, hs)) == Total(m) + Lines(hs)
    decreases |hs|
  {
    if hs != [] {
      var next := AddLines(m, AuthorOf(hs[0]), hs[0].lines);
      TotalAddLines(m, AuthorOf(hs[0]), hs[0].lines);
      FoldHunksTotal(next, hs[1..]);
    }
  }

  /** Folding two runs of hunks is folding the first, then the second. */
  lemma {:induction false} FoldHunksAppend(m: Tally, a: seq<Hunk>, b: seq<Hunk>)
    ensures FoldHunks(m, a + b) == FoldHunks(FoldHunks(m, a), b)
    decreases |a|
  {
    if a == [] {
      assert a + b == b;
    } else {
      assert (a + b)[1..] == a[1..] + b;
      FoldHunksAppend(AddLines(m, AuthorOf(a[0]), a[0].lines), a[1..], b);
    }
  }

  lemma {:induction false} HunkSumAppend(a: seq<Hunk>, b: seq<Hunk>, x: string)
    ensures HunkSum(a + b, x) == HunkSum(a, x) + HunkSum(b, x)
    decreases |a|
  {
    if a == [] {
      assert a + b == b;
    } else {
      assert (a + b)[1..] == a[1..] + b;
      HunkSumAppend(a[1..], b, x);
    }
  }

  /** Taking one hunk out: the author's sum is that hunk's share plus the sum over the others. */
  lemma HunkSumWithout(b: seq<Hunk>, i: nat, x: string)
    requires i < |b|
    ensures HunkSum(b, x) == Share(b[i], x) + HunkSum(b[..i] + b[i + 1..], x)
  {
    var left, h, right := b[..i], b[i], b[i + 1..];
    assert b == left + ([h] + right);
    HunkSumAppend(left, [h] + right, x);
    assert ([h] + right)[1..] == right;
    HunkSumAppend(left, right, x);
  }

  lemma {:induction false} HunkSumPermutation(a: seq<Hunk>, b: seq<Hunk>, x: string)
    requires multiset(a) == multiset(b)
    ensures HunkSum(a, x) == HunkSum(b, x)
    decreases |a|
  {
    if a == [] {
      assert |b| == |multiset(b)| == 0;
    } else {
      var i := Seqs.Match(a, b);
      HunkSumWithout(b, i, x);
      HunkSumPermutation(a[1..], b[..i] + b[i + 1..], x);
    }
  }

  lemma AuthorsPermutation(a: seq<Hunk>, b: seq<Hunk>)
    requires multiset(a) == multiset(b)
    ensures Authors(a) == Authors(b)
  {
    forall h
      ensures h in a <==> h in b
    {
      assert h in a <==> h in multiset(a);
    }
  }

  /** The order of the hunks does not matter: any rearrangement gives the same tally. */
  lemma FoldHunksPermutation(m: Tally, a: seq<Hunk>, b: seq<Hunk>)
    requires multiset(a) == multiset(b)
    ensures FoldHunks(m, a) == FoldHunks(m, b)
  {
    var ra, rb := FoldHunks(m, a), FoldHunks(m, b);
    FoldHunksSpec(m, a);
    FoldHunksSpec(m, b);
    AuthorsPermutation(a, b);
    forall x | x in ra
      ensures ra[x] == rb[x]
    {
      HunkSumPermutation(a, b, x);
      assert Get(ra, x) == Get(rb, x);
    }
  }
}
