/** Per-author line tallies: the `HashMap<String, usize>` the program fills. */
module Tallies {

  /** Author identity to owned-line count. */
  type Tally = map<string, nat>

  /** The count recorded for `a`, or 0 when `a` has no entry. */
  function Get(m: Tally, a: string): nat {
    if a in m then m[a] else 0
  }

  /** Adds `n` lines to `a`'s entry, creating the entry at 0 first when it is
      absent (`entry(a).or_insert(0)` followed by `+= n`). */
  function AddLines(m: Tally, a: string, n: nat): (r: Tally)
    ensures r.Keys == m.Keys + {a}
    ensures Get(r, a) == Get(m, a) + n
    ensures forall b :: b != a ==> Get(r, b) == Get(m, b)
  {
    m[a := Get(m, a) + n]
  }

  /** The sum of all counts in a tally. */
  ghost function Total(m: Tally): nat
    decreases |m|
  {
    if m == map[] then 0
    else
      var k :| k in m;
      assert (m - {k}).Keys == m.Keys - {k};
      m[k] + Total(m - {k})
  }

  /** The total can be split at any key, not only the one `Total` happens to pick. */
  lemma {:induction false} TotalRemove(m: Tally, k: string)
    requires k in m
    ensures Total(m) == m[k] + Total(m - {k})
    decreases |m|
  {
    var j :| j in m && Total(m) == m[j] + Total(m - {j});
    if j != k {
      assert (m - {j}).Keys == m.Keys - {j};
      assert (m - {k}).Keys == m.Keys - {k};
      TotalRemove(m - {j}, k);
      TotalRemove(m - {k}, j);
      assert m - {j} - {k} == m - {k} - {j};
    }
  }

  /** Adding `n` lines to one author raises the total by exactly `n`. */
  lemma TotalAddLines(m: Tally, a: string, n: nat)
    ensures Total(AddLines(m, a, n)) == Total(m) + n
  {
    var r := AddLines(m, a, n);
    TotalRemove(r, a);
    if a in m {
      TotalRemove(m, a);
      assert r - {a} == m - {a};
    } else {
      assert r - {a} == m;
    }
  }
}
