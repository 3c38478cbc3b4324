/** A worked run: three files, one of them in a sub-directory, beside a
    directory entry and a submodule that the walk skips. */
module Scenario {
  import opened RustTypes
  import opened Tallies
  import opened Blame
  import opened TreeWalk
  import opened Ranking

  const Walk: seq<Entry> := [
    Entry("", Some("A"), Some(Blob)),
    Entry("", Some("lib"), Some(Commit)),
    Entry("", Some("src"), Some(Tree)),
    Entry("src/", Some("B"), Some(Blob)),
    Entry("src/", Some("C"), Some(Blob))
  ]

  /** Blame of the three files; any other path is not in HEAD. */
  function Oracle(path: string): Result<seq<Hunk>, GitError> {
    if path == "A" then Ok([Hunk(Some("alice"), 10)])
    else if path == "src/B" then Ok([Hunk(Some("bob"), 5), Hunk(Some("alice"), 2)])
    else if path == "src/C" then Ok([Hunk(Some("alice"), 1)])
    else Err(GitError("path not in HEAD"))
  }

  /** The files the walk reaches, in walk order. */
  lemma ExampleFiles()
    ensures Blobs(Walk) == [Walk[0], Walk[3], Walk[4]]
  {
    BlobsOfFive(Walk);
  }

  /** Of five entries whose kinds run file, other, other, file, file, the
      files are the first, fourth and fifth. */
  lemma BlobsOfFive(w: seq<Entry>)
    requires |w| == 5
    requires IsBlob(w[0]) && !IsBlob(w[1]) && !IsBlob(w[2]) && IsBlob(w[3]) && IsBlob(w[4])
    ensures Blobs(w) == [w[0], w[3], w[4]]
  {
    var w1 := w[1..];
    var w2 := w1[1..];
    var w3 := w2[1..];
    var w4 := w3[1..];
    assert w1[0] == w[1] && w2[0] == w[2] && w3[0] == w[3] && w4[0] == w[4];
    assert w4[1..] == [];
    assert Blobs(w4) == [w[4]];
    assert Blobs(w3) == [w[3], w[4]];
    assert Blobs(w1) == Blobs(w2) == Blobs(w3);
  }

  const Files: seq<Entry> := [Walk[0], Walk[3], Walk[4]]

  const Hunks: seq<Hunk> := [Hunk(Some("alice"), 10), Hunk(Some("bob"), 5), Hunk(Some("alice"), 2), Hunk(Some("alice"), 1)]

  /** The hunks of the three files, file after file. */
  lemma ExampleHunks()
    ensures Blameable(Files, Oracle)
    ensures AllHunks(Files, Oracle) == Hunks
  {
    assert PathOf(Files[0]) == "A";
    assert PathOf(Files[1]) == "src/B";
    assert PathOf(Files[2]) == "src/C";
    assert Files[1..][1..][1..] == [];
    assert AllHunks(Files[1..][1..], Oracle) == [Hunk(Some("alice"), 1)];
    assert AllHunks(Files[1..], Oracle) == Hunks[1..];
  }

  /** Per author, the hunks of the three files add up to 13 for alice and 5 for bob. */
  lemma ExampleSums()
    ensures Authors(Hunks) == {"alice", "bob"}
    ensures HunkSum(Hunks, "alice") == 13 && HunkSum(Hunks, "bob") == 5
  {
    assert Hunks[0] in Hunks && Hunks[1] in Hunks;
    assert Hunks[1..][1..][1..][1..] == [];
  }

  /** The run ends with alice owning 13 lines and bob 5. */
  lemma ExampleTally()
    ensures GetTree(Traversal(Walk, None), Oracle) == Ok(map["alice" := 13, "bob" := 5])
  {
    ExampleFiles();
    ExampleHunks();
    ExampleSums();
    var t := Traversal(Walk, None);
    assert Blobs(t.visited) == Files;
    assert Clean(t, Oracle);
    GetTreeTally(t, Oracle);
    var r := GetTree(t, Oracle).value;
    assert r.Keys == {"alice", "bob"};
    assert r["alice"] == Get(r, "alice") == 13;
    assert r["bob"] == Get(r, "bob") == 5;
    ExpectedTally(r);
  }

  lemma ExpectedTally(r: Tally)
    requires r.Keys == {"alice", "bob"} && r["alice"] == 13 && r["bob"] == 5
    ensures r == map["alice" := 13, "bob" := 5]
  {
    var e := map["alice" := 13, "bob" := 5];
    assert e.Keys == r.Keys;
    forall k | k in r
      ensures r[k] == e[k]
    {
    }
  }

  /** Whatever order the map yields its entries in, the ranking is alice, then bob. */
  lemma ExampleRanking(ranked: seq<Row>)
    requires SortedByCount(ranked)
    requires multiset(ranked) == multiset(map["alice" := 13, "bob" := 5].Items)
    ensures ranked == [("alice", 13), ("bob", 5)]
  {
    var m := map["alice" := 13, "bob" := 5];
    EntriesOnce(m, ranked);
    assert m.Keys == {"alice", "bob"};
    assert |m| == 2;
    assert "alice" in m && m["alice"] == 13;
    assert "bob" in m && m["bob"] == 5;
    assert ("alice", 13) in ranked && ("bob", 5) in ranked;
    assert ranked[0].0 in m && ranked[1].0 in m;
  }
}
