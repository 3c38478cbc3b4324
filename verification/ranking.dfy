/** The end of `main`: the tally as a list of (author, lines) pairs, sorted
    by count, highest first. */
module Ranking {
  import opened RustTypes
  import opened Tallies
  import opened Blame
  import opened TreeWalk
  import Seqs

  /** One row of the output: an author and the lines they own. */
  type Row = (string, nat)

  /** Counts never increase along the list. */
  predicate SortedByCount(s: seq<Row>) {
    forall i, j :: 0 <= i < j < |s| ==> s[i].1 >= s[j].1
  }

  /** Places `x` before the first row whose count is not above its own, so
      rows of equal count keep their relative order. */
  function Insert(x: Row, s: seq<Row>): (r: seq<Row>)
    requires SortedByCount(s)
    ensures SortedByCount(r)
    ensures multiset(r) == multiset(s) + multiset{x}
    ensures forall i :: 0 <= i < |r| ==> r[i] == x || r[i] in s
    decreases |s|
  {
    if s == [] || s[0].1 <= x.1 then
      PrependAbove(x, s);
      [x] + s
    else
      var t := Insert(x, s[1..]);
      PrependHead(s, x, t);
      [s[0]] + t
  }

  /** A row counting at least as much as the head of a sorted list can lead it. */
  lemma PrependAbove(x: Row, s: seq<Row>)
    requires SortedByCount(s) && (s == [] || s[0].1 <= x.1)
    ensures SortedByCount([x] + s)
    ensures multiset([x] + s) == multiset(s) + multiset{x}
    ensures forall i :: 0 <= i < |[x] + s| ==> ([x] + s)[i] == x || ([x] + s)[i] in s
  {
    forall i | 0 < i < |[x] + s|
      ensures ([x] + s)[i] in s
    {
      assert ([x] + s)[i] == s[i - 1];
    }
  }

  /** The head of a sorted list can lead the insertion of a smaller row into its tail. */
  lemma PrependHead(s: seq<Row>, x: Row, t: seq<Row>)
    requires s != [] && SortedByCount(s) && x.1 < s[0].1
    requires SortedByCount(t) && multiset(t) == multiset(s[1..]) + multiset{x}
    requires forall i :: 0 <= i < |t| ==> t[i] == x || t[i] in s[1..]
    ensures SortedByCount([s[0]] + t)
    ensures multiset([s[0]] + t) == multiset(s) + multiset{x}
    ensures forall i :: 0 <= i < |[s[0]] + t| ==> ([s[0]] + t)[i] == x || ([s[0]] + t)[i] in s
  {
    var r := [s[0]] + t;
    assert s == [s[0]] + s[1..];
    forall k | 0 <= k < |t|
      ensures t[k].1 <= s[0].1 && (t[k] == x || t[k] in s)
    {
      if t[k] != x {
        var j :| 0 <= j < |s[1..]| && s[1..][j] == t[k];
        assert s[1..][j] == s[j + 1];
      }
    }
    forall i | 0 < i < |r|
      ensures r[i] == t[i - 1]
    {
    }
  }

  /** `sort_by(|lhs, rhs| rhs.1.cmp(lhs.1))`: a stable sort on counts alone,
      highest first. */
  function SortByCount(s: seq<Row>): (r: seq<Row>)
    ensures SortedByCount(r)
    ensures multiset(r) == multiset(s)
    decreases |s|
  {
    if s == [] then []
    else
      assert s == [s[0]] + s[1..];
      Insert(s[0], SortByCount(s[1..]))
  }

  /** `authors.iter().collect()`: every entry of the tally once, in whatever
      order the map yields them. */
  method Collect(m: Tally) returns (items: seq<Row>)
    ensures multiset(items) == multiset(m.Items)
  {
    items := [];
    var rest := m.Items;
    while rest != {}
      invariant rest <= m.Items
      invariant multiset(items) + multiset(rest) == multiset(m.Items)
      decreases rest
    {
      var p :| p in rest;
      assert multiset(rest) == multiset(rest - {p}) + multiset{p};
      items := items + [p];
      rest := rest - {p};
    }
  }

  /** A list holding each entry of a tally exactly once: each row is an
      entry, each author has a row, and no author has two. */
  lemma EntriesOnce(m: Tally, s: seq<Row>)
    requires multiset(s) == multiset(m.Items)
    ensures |s| == |m|
    ensures forall i :: 0 <= i < |s| ==> s[i].0 in m && m[s[i].0] == s[i].1
    ensures forall a :: a in m ==> (a, m[a]) in s
    ensures forall i, j :: 0 <= i < j < |s| ==> s[i].0 != s[j].0
  {
    assert |m.Items| == |m|;
    forall i | 0 <= i < |s|
      ensures s[i] in m.Items
    {
      assert s[i] in multiset(s);
    }
    forall a | a in m
      ensures (a, m[a]) in s
    {
      assert (a, m[a]) in m.Items;
      assert (a, m[a]) in multiset(s);
    }
    forall i, j | 0 <= i < j < |s|
      ensures s[i].0 != s[j].0
    {
      assert s[i] in m.Items && s[j] in m.Items;
      Seqs.Twice(s, i, j);
      assert multiset(s)[s[i]] == 1;
    }
  }

  /** The collect-and-sort of `main`: the tally's entries, each once, with
      counts never increasing. */
  method Rank(m: Tally) returns (ranked: seq<Row>)
    ensures SortedByCount(ranked)
    ensures multiset(ranked) == multiset(m.Items)
    ensures |ranked| == |m|
    ensures forall i :: 0 <= i < |ranked| ==> ranked[i].0 in m && m[ranked[i].0] == ranked[i].1
    ensures forall a :: a in m ==> (a, m[a]) in ranked
    ensures forall i, j :: 0 <= i < j < |ranked| ==> ranked[i].0 != ranked[j].0
  {
    var items := Collect(m);
    ranked := SortByCount(items);
    EntriesOnce(m, ranked);
  }

  /** `main` after the repository is opened: the tally of `get_tree`, ranked,
      or the error that ended `get_tree`. */
  method Report(t: Traversal, blame: Oracle) returns (r: Result<seq<Row>, Error>)
    ensures r.Ok? <==> Clean(t, blame)
    ensures r.Err? ==> GetTree(t, blame) == Err(r.error)
    ensures r.Ok? ==> SortedByCount(r.value)
    ensures r.Ok? ==>
      var hs := AllHunks(Blobs(t.visited), blame);
      && (forall i :: 0 <= i < |r.value| ==> r.value[i].0 in Authors(hs) && r.value[i].1 == HunkSum(hs, r.value[i].0))
      && (forall a :: a in Authors(hs) ==> (a, HunkSum(hs, a)) in r.value)
      && (forall i, j :: 0 <= i < j < |r.value| ==> r.value[i].0 != r.value[j].0)
  {
    GetTreeOutcome(t, blame);
    match GetTree(t, blame)
    case Err(e) =>
      r := Err(e);
    case Ok(authors) =>
      GetTreeTally(t, blame);
      var ranked := Rank(authors);
      r := Ok(ranked);
  }
}
