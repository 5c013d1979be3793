/**
 * Listing the rows of a table keyed by auto-increment ids. Both back-end
 * stores hand out ids from a counter, so every key lies below the next id
 * and a table can be listed by walking the id range in ascending order.
 */
module Tables {

  /** The members of `keys` that lie in `[lo, hi)`, in ascending order. */
  function KeysInRange(keys: set<int>, lo: int, hi: int): (r: seq<int>)
    decreases hi - lo
    ensures forall k :: k in r <==> k in keys && lo <= k < hi
    ensures forall i, j :: 0 <= i < j < |r| ==> r[i] < r[j]
  {
    if lo >= hi then []
    else
      var rest := KeysInRange(keys, lo + 1, hi);
      assert forall j :: 0 <= j < |rest| ==> rest[j] in rest;
      (if lo in keys then [lo] else []) + rest
  }

  /** The values of `m` whose keys lie in `[lo, hi)`, in ascending key order. */
  function ValuesInRange<T>(m: map<int, T>, lo: int, hi: int): (r: seq<T>)
  {
    var ks := KeysInRange(m.Keys, lo, hi);
    seq(|ks|, i requires 0 <= i < |ks| => m[ks[i]])
  }

  predicate Distinct<T(==)>(s: seq<T>)
  {
    forall i, j :: 0 <= i < j < |s| ==> s[i] != s[j]
  }

  /** In a sequence without repetitions, each member occurs exactly once. */
  lemma {:induction false} DistinctCount<T>(s: seq<T>, x: T)
    requires Distinct(s) && x in s
    ensures multiset(s)[x] == 1
  {
    assert s == [s[0]] + s[1..];
    if s[0] == x {
      assert x !in s[1..];
    } else {
      DistinctCount(s[1..], x);
    }
  }
}
