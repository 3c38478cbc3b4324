/** `get_tree`: the pre-order walk of HEAD's tree, blaming every file into one tally. */
module TreeWalk {
  import opened RustTypes
  import opened Tallies
  import opened Blame
  import Seqs

  /** The object types the library reports for a tree entry. */
  datatype ObjectType = Any | Commit | Tree | Blob | Tag

  /** One entry the walk visits: the path of the directory holding it (empty
      at the top, otherwise ending in '/'), its name (absent when the library
      cannot give it as text) and its kind (absent when unrecognised). */
  datatype Entry = Entry(root: string, name: Option<string>, kind: Option<ObjectType>)

  /** What resolving HEAD to a tree and walking it in pre-order yields: the
      entries visited, in order, and the library's error if resolving HEAD or
      the walk failed. A failure to resolve HEAD visits nothing. */
  datatype Traversal = Traversal(visited: seq<Entry>, failure: Option<GitError>)

  /** How `get_tree` can end without a tally. `Git` is a returned error; the
      other two are the panics of `expect("empty filename")` and of `unwrap()`
      on a failed blame. */
  datatype Error = Git(cause: GitError) | EmptyFilename | BlameUnwrapped(path: string, cause: GitError)

  /** Blame of the file at a path, in HEAD. */
  type Oracle = string -> Result<seq<Hunk>, GitError>

  predicate IsBlob(e: Entry) {
    e.kind == Some(Blob)
  }

  /** The path a file is blamed at: its directory's path followed directly by
      its name, with no separator added. */
  function PathOf(e: Entry): string
    requires e.name.Some?
  {
    e.root + e.name.value
  }

  /** The last component of a path: what follows its last '/', or the whole
      path when it has none. */
  function LastComponent(p: string): (r: string)
    ensures |r| <= |p| && r == p[|p| - |r|..]
    ensures forall k :: 0 <= k < |r| ==> r[k] != '/'
    ensures |r| < |p| ==> p[|p| - |r| - 1] == '/'
  {
    if p == [] || p[|p| - 1] == '/' then []
    else LastComponent(p[..|p| - 1]) + [p[|p| - 1]]
  }

  /** An entry as the walk reports it: its directory path is empty or ends
      in '/', and it has a name, which holds no '/' (a tree entry names one
      path component). */
  predicate WellPlaced(e: Entry) {
    && (e.root == [] || e.root[|e.root| - 1] == '/')
    && e.name.Some?
    && (forall k :: 0 <= k < |e.name.value| ==> e.name.value[k] != '/')
  }

  /** Distinct files get distinct paths: two well-placed entries are blamed
      at the same path only when their directory and name agree. */
  lemma PathOfInjective(e1: Entry, e2: Entry)
    requires WellPlaced(e1) && WellPlaced(e2)
    requires PathOf(e1) == PathOf(e2)
    ensures e1.root == e2.root && e1.name == e2.name
  {
    var p := PathOf(e1);
    if |e1.root| < |e2.root| {
      SlashInName(e1, e2.root);
    } else if |e2.root| < |e1.root| {
      SlashInName(e2, e1.root);
    } else {
      assert e1.root == p[..|e1.root|] == e2.root;
      assert e1.name.value == p[|e1.root|..] == e2.name.value;
    }
  }

  /** The name of a well-placed entry is the last component of the path it is
      blamed at. */
  lemma PathOfLastComponent(e: Entry)
    requires WellPlaced(e)
    ensures LastComponent(PathOf(e)) == e.name.value
  {
    NameIsLast(e.root, e.name.value);
  }

  lemma {:induction false} NameIsLast(root: string, name: string)
    requires root == [] || root[|root| - 1] == '/'
    requires forall k :: 0 <= k < |name| ==> name[k] != '/'
    ensures LastComponent(root + name) == name
  {
    if name == [] {
      assert root + name == root;
    } else {
      var init, c := name[..|name| - 1], name[|name| - 1];
      NameIsLast(root, init);
      assert root + name == (root + init) + [c];
      LastComponentSnoc(root + init, c);
      assert init + [c] == name;
    }
  }

  /** A character other than '/' extends the last component. */
  lemma LastComponentSnoc(p: string, c: char)
    requires c != '/'
    ensures LastComponent(p + [c]) == LastComponent(p) + [c]
  {
    assert (p + [c])[..|p|] == p;
  }

  /** When a longer directory path ending in '/' is a prefix of an entry's
      path, that '/' falls inside the entry's name. */
  lemma SlashInName(e: Entry, root: string)
    requires e.name.Some? && |e.root| < |root| <= |PathOf(e)|
    requires PathOf(e)[..|root|] == root && root[|root| - 1] == '/'
    ensures e.name.value[|root| - 1 - |e.root|] == '/'
  {
    var p := PathOf(e);
    assert p[|root| - 1] == root[|root| - 1];
    assert e.name.value[|root| - 1 - |e.root|] == p[|e.root|..][|root| - 1 - |e.root|];
  }

  /** The entries that are files, in walk order. */
  function Blobs(walk: seq<Entry>): (r: seq<Entry>)
    ensures forall e :: e in r <==> e in walk && IsBlob(e)
    ensures forall i :: 0 <= i < |r| ==> IsBlob(r[i])
  {
    if walk == [] then []
    else if IsBlob(walk[0]) then [walk[0]] + Blobs(walk[1..])
    else Blobs(walk[1..])
  }

  /** Each visited blob is kept as often as the walk visited it, and nothing
      else is kept. */
  lemma {:induction false} BlobsCount(walk: seq<Entry>)
    ensures forall e :: multiset(Blobs(walk))[e] == if IsBlob(e) then multiset(walk)[e] else 0
  {
    if walk != [] {
      BlobsCount(walk[1..]);
      assert walk == [walk[0]] + walk[1..];
    }
  }

  /** The filter keeps walk order: filtering a concatenation concatenates the
      filtered parts. */
  lemma {:induction false} BlobsAppend(a: seq<Entry>, b: seq<Entry>)
    ensures Blobs(a + b) == Blobs(a) + Blobs(b)
  {
    if a == [] {
      assert a + b == b;
    } else {
      var x, rest := a[0], a[1..];
      assert a + b == [x] + (rest + b);
      assert a == [x] + rest;
      BlobsCons(x, rest + b);
      BlobsCons(x, rest);
      BlobsAppend(rest, b);
      var head, p, q := if IsBlob(x) then [x] else [], Blobs(rest), Blobs(b);
      assert Blobs(a + b) == head + (p + q);
      assert Blobs(a) == head + p;
      Seqs.Regroup(head, p, q);
    }
  }

  /** One step of the filter. */
  lemma BlobsCons(e: Entry, walk: seq<Entry>)
    ensures Blobs([e] + walk) == if IsBlob(e) then [e] + Blobs(walk) else Blobs(walk)
  {
    assert ([e] + walk)[1..] == walk;
  }

  /** The walk's callback over the visited entries, threading the tally. */
  function Visit(authors: Tally, walk: seq<Entry>, blame: Oracle): Result<Tally, Error>
    decreases |walk|
  {
    if walk == [] then Ok(authors)
    else
      var e := walk[0];
      if !IsBlob(e) then Visit(authors, walk[1..], blame)
      else if e.name.None? then Err(EmptyFilename)
      else
        var (next, outcome) := MakeBlame(authors, blame(PathOf(e)));
        if outcome.Err? then Err(BlameUnwrapped(PathOf(e), outcome.error))
        else Visit(next, walk[1..], blame)
  }

  /** `get_tree`: starting from an empty tally, visit the walk; a walk that
      reports an error discards the tally. */
  function GetTree(t: Traversal, blame: Oracle): Result<Tally, Error> {
    match Visit(map[], t.visited, blame)
    case Err(err) => Err(err)
    case Ok(authors) =>
      if t.failure.Some? then Err(Git(t.failure.value)) else Ok(authors)
  }

  /** A file can be blamed: it has a name and blame of its path succeeds. */
  predicate Resolvable(e: Entry, blame: Oracle) {
    e.name.Some? && blame(PathOf(e)).Ok?
  }

  predicate Blameable(files: seq<Entry>, blame: Oracle) {
    forall i :: 0 <= i < |files| ==> Resolvable(files[i], blame)
  }

  /** The hunks of all the files, file after file. */
  function AllHunks(files: seq<Entry>, blame: Oracle): seq<Hunk>
    requires Blameable(files, blame)
  {
    if files == [] then [] else blame(PathOf(files[0])).value + AllHunks(files[1..], blame)
  }

  /** A run ends with a tally exactly when the walk reported no error and
      every file it visited could be blamed. */
  predicate Clean(t: Traversal, blame: Oracle) {
    t.failure.None? && Blameable(Blobs(t.visited), blame)
  }

  /** Entries that are not files contribute nothing: visiting the walk is
      visiting its files alone. */
  lemma {:induction false} VisitOnlyBlobs(m: Tally, walk: seq<Entry>, blame: Oracle)
    ensures Visit(m, walk, blame) == Visit(m, Blobs(walk), blame)
    decreases |walk|
  {
    if walk != [] {
      var e := walk[0];
      if !IsBlob(e) {
        VisitOnlyBlobs(m, walk[1..], blame);
      } else {
        var rest := Blobs(walk[1..]);
        assert Blobs(walk) == [e] + rest;
        assert ([e] + rest)[1..] == rest;
        if e.name.Some? {
          var (next, outcome) := MakeBlame(m, blame(PathOf(e)));
          VisitOnlyBlobs(next, walk[1..], blame);
        }
      }
    }
  }

  /** Visiting files only: it succeeds exactly when every file can be
      blamed, and then it is the fold of all their hunks. */
  lemma {:induction false} VisitFiles(m: Tally, files: seq<Entry>, blame: Oracle)
    requires forall i :: 0 <= i < |files| ==> IsBlob(files[i])
    ensures Visit(m, files, blame).Ok? <==> Blameable(files, blame)
    ensures Blameable(files, blame) ==> Visit(m, files, blame).value == FoldHunks(m, AllHunks(files, blame))
    decreases |files|
  {
    if files != [] {
      var e := files[0];
      assert Blameable(files, blame) <==> Resolvable(e, blame) && Blameable(files[1..], blame) by {
        if Resolvable(e, blame) && Blameable(files[1..], blame) {
          forall i | 0 <= i < |files|
            ensures Resolvable(files[i], blame)
          {
            if i > 0 {
              assert files[i] == files[1..][i - 1];
            }
          }
        }
      }
      if Resolvable(e, blame) {
        var hs := blame(PathOf(e)).value;
        VisitFiles(FoldHunks(m, hs), files[1..], blame);
        if Blameable(files, blame) {
          FoldHunksAppend(m, hs, AllHunks(files[1..], blame));
        }
      }
    }
  }

  /** How `get_tree` ends: with a tally exactly when the run is clean, that
      tally being the fold of every file's hunks in walk order; with the
      walk's error when every file could be blamed but the walk failed;
      otherwise with one of the two panics. */
  lemma GetTreeOutcome(t: Traversal, blame: Oracle)
    ensures GetTree(t, blame).Ok? <==> Clean(t, blame)
    ensures Clean(t, blame) ==>
      GetTree(t, blame).value == FoldHunks(map[], AllHunks(Blobs(t.visited), blame))
    ensures t.failure.Some? && Blameable(Blobs(t.visited), blame) ==>
      GetTree(t, blame) == Err(Git(t.failure.value))
    ensures !Blameable(Blobs(t.visited), blame) ==>
      GetTree(t, blame).Err? && !GetTree(t, blame).error.Git?
  {
    VisitOnlyBlobs(map[], t.visited, blame);
    VisitFiles(map[], Blobs(t.visited), blame);
    if !Blameable(Blobs(t.visited), blame) {
      VisitPanics(map[], t.visited, blame);
    }
  }

  lemma {:induction false} VisitPanics(m: Tally, walk: seq<Entry>, blame: Oracle)
    ensures Visit(m, walk, blame).Err? ==> !Visit(m, walk, blame).error.Git?
    decreases |walk|
  {
    if walk != [] {
      var e := walk[0];
      if !IsBlob(e) {
        VisitPanics(m, walk[1..], blame);
      } else if e.name.Some? {
        var (next, outcome) := MakeBlame(m, blame(PathOf(e)));
        VisitPanics(next, walk[1..], blame);
      }
    }
  }

  /** The tally of a clean run is, per author, the lines of that author's
      hunks over all files; it has exactly those authors; and its total is
      the line count of all files. */
  lemma GetTreeTally(t: Traversal, blame: Oracle)
    requires Clean(t, blame)
    ensures GetTree(t, blame).Ok?
    ensures GetTree(t, blame).value.Keys == Authors(AllHunks(Blobs(t.visited), blame))
    ensures forall a :: Get(GetTree(t, blame).value, a) == HunkSum(AllHunks(Blobs(t.visited), blame), a)
    ensures Total(GetTree(t, blame).value) == Lines(AllHunks(Blobs(t.visited), blame))
  {
    GetTreeOutcome(t, blame);
    FoldHunksSpec(map[], AllHunks(Blobs(t.visited), blame));
    FoldHunksTotal(map[], AllHunks(Blobs(t.visited), blame));
    assert Total(map[]) == 0;
  }

  lemma {:induction false} AllHunksAppend(a: seq<Entry>, b: seq<Entry>, blame: Oracle)
    requires Blameable(a, blame) && Blameable(b, blame)
    ensures Blameable(a + b, blame)
    ensures AllHunks(a + b, blame) == AllHunks(a, blame) + AllHunks(b, blame)
    decreases |a|
  {
    assert Blameable(a + b, blame) by {
      forall i | 0 <= i < |a + b|
        ensures Resolvable((a + b)[i], blame)
      {
        if i >= |a| {
          assert (a + b)[i] == b[i - |a|];
        }
      }
    }
    if a == [] {
      assert a + b == b;
    } else {
      assert (a + b)[1..] == a[1..] + b;
      AllHunksAppend(a[1..], b, blame);
    }
  }

  /** Files drawn from a blameable list are blameable. */
  lemma BlameableFrom(a: seq<Entry>, b: seq<Entry>, blame: Oracle)
    requires Blameable(a, blame)
    requires forall e :: e in b ==> e in a
    ensures Blameable(b, blame)
  {
    forall j | 0 <= j < |b|
      ensures Resolvable(b[j], blame)
    {
      assert b[j] in b;
      var i :| 0 <= i < |a| && a[i] == b[j];
    }
  }

  /** The files before and after position `i` of a blameable list are blameable. */
  lemma BlameableSlices(b: seq<Entry>, i: nat, blame: Oracle)
    requires Blameable(b, blame) && i < |b|
    ensures Blameable(b[..i], blame) && Blameable(b[i + 1..], blame)
    ensures Blameable([b[i]], blame)
  {
    forall k | 0 <= k < |b[..i]|
      ensures Resolvable(b[..i][k], blame)
    {
      assert b[..i][k] == b[k];
    }
    var right := b[i + 1..];
    forall k | 0 <= k < |right|
      ensures Resolvable(right[k], blame)
    {
      assert right[k] == b[i + 1 + k];
    }
  }

  /** The hunks of a blameable list, cut around position `i`. */
  lemma {:induction false} AllHunksSplit(b: seq<Entry>, i: nat, blame: Oracle)
    requires Blameable(b, blame) && i < |b|
    ensures Blameable(b[..i], blame) && Blameable(b[i + 1..], blame)
    ensures AllHunks(b, blame)
      == AllHunks(b[..i], blame) + (blame(PathOf(b[i])).value + AllHunks(b[i + 1..], blame))
    decreases i
  {
    BlameableSlices(b, i, blame);
    if i > 0 {
      var t := b[1..];
      BlameableSlices(b, 0, blame);
      AllHunksSplit(t, i - 1, blame);
      assert t[..i - 1] == b[..i][1..];
      assert t[i - 1] == b[i] && t[i..] == b[i + 1..];
      assert b[..i][0] == b[0];
    }
  }

  /** Taking one file out of a blameable list: the hunks of the list are the
      hunks of that file together with the hunks of the others. */
  lemma AllHunksWithout(b: seq<Entry>, i: nat, blame: Oracle)
    requires Blameable(b, blame) && i < |b|
    ensures Blameable(b[..i] + b[i + 1..], blame)
    ensures multiset(AllHunks(b, blame))
      == multiset(blame(PathOf(b[i])).value) + multiset(AllHunks(b[..i] + b[i + 1..], blame))
  {
    var left, right := b[..i], b[i + 1..];
    var hf := blame(PathOf(b[i])).value;
    AllHunksSplit(b, i, blame);
    AllHunksAppend(left, right, blame);
    var hl, hr := AllHunks(left, blame), AllHunks(right, blame);
    assert multiset(hl + (hf + hr)) == multiset(hl) + multiset(hf) + multiset(hr);
    assert multiset(hl + hr) == multiset(hl) + multiset(hr);
  }

  /** Rearranging the files rearranges their hunks. */
  lemma {:induction false} AllHunksPermutation(a: seq<Entry>, b: seq<Entry>, blame: Oracle)
    requires Blameable(a, blame)
    requires multiset(a) == multiset(b)
    ensures Blameable(b, blame)
    ensures multiset(AllHunks(a, blame)) == multiset(AllHunks(b, blame))
    decreases |a|
  {
    forall e | e in b
      ensures e in a
    {
      assert e in multiset(a);
    }
    BlameableFrom(a, b, blame);
    if a == [] {
      assert |b| == |multiset(b)| == 0;
    } else {
      var i := Seqs.Match(a, b);
      var rest := b[..i] + b[i + 1..];
      AllHunksWithout(b, i, blame);
      AllHunksWithout(a, 0, blame);
      assert a[..0] + a[1..] == a[1..];
      AllHunksPermutation(a[1..], rest, blame);
    }
  }

  /** Order independence: visiting the files of a clean run in any other
      order yields the same tally. */
  lemma GetTreeOrderIndependent(t: Traversal, blame: Oracle, order: seq<Entry>)
    requires Clean(t, blame)
    requires multiset(order) == multiset(Blobs(t.visited))
    ensures Visit(map[], order, blame) == GetTree(t, blame)
  {
    var files := Blobs(t.visited);
    GetTreeOutcome(t, blame);
    AllHunksPermutation(files, order, blame);
    forall i | 0 <= i < |order|
      ensures IsBlob(order[i])
    {
      assert order[i] in multiset(files);
    }
    VisitFiles(map[], order, blame);
    FoldHunksPermutation(map[], AllHunks(order, blame), AllHunks(files, blame));
  }
}
