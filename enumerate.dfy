/**
 * Orders in which a loop over a dictionary or a set visits its keys: the
 * source iterates in an order it does not choose, so the model records the
 * order as a sequence that lists every key once.
 */
module Enumerations {

  /** A sequence of distinct keys that lists exactly the set `keys`. */
  ghost predicate Enumerates<K>(order: seq<K>, keys: set<K>) {
    && (forall i, j :: 0 <= i < j < |order| ==> order[i] != order[j])
    && (forall i :: 0 <= i < |order| ==> order[i] in keys)
    && (forall k :: k in keys ==> k in order)
  }

  /** Appending a key not yet listed lists one more key. */
  lemma EnumeratesAppend<K>(order: seq<K>, keys: set<K>, k: K)
    requires Enumerates(order, keys) && k !in keys
    ensures Enumerates(order + [k], keys + {k})
  {
    var o := order + [k];
    forall i, j | 0 <= i < j < |o| ensures o[i] != o[j] {
      if j == |order| {
        assert o[i] == order[i];
      } else {
        assert o[i] == order[i] && o[j] == order[j];
      }
    }
    forall x | x in keys + {k} ensures x in o {
      if x != k {
        var i :| 0 <= i < |order| && order[i] == x;
        assert o[i] == x;
      } else {
        assert o[|order|] == k;
      }
    }
  }

  /** One pass of a loop that takes key `k` out of the keys still to visit and lists it. */
  lemma EnumeratesNext<K>(order: seq<K>, all: set<K>, keys: set<K>, k: K)
    requires keys <= all && k in keys && Enumerates(order, all - keys)
    ensures Enumerates(order + [k], all - (keys - {k}))
  {
    assert all - (keys - {k}) == (all - keys) + {k};
    EnumeratesAppend(order, all - keys, k);
  }

  /** An enumeration is as long as the set it lists. */
  lemma {:induction false} EnumeratesSize<K>(order: seq<K>, keys: set<K>)
    requires Enumerates(order, keys)
    ensures |order| == |keys|
  {
    if |order| > 0 {
      var init := order[..|order| - 1];
      var last := order[|order| - 1];
      forall x | x in keys - {last} ensures x in init {
        var i :| 0 <= i < |order| && order[i] == x;
        assert i != |order| - 1;
        assert init[i] == x;
      }
      EnumeratesSize(init, keys - {last});
    }
  }

  /** Distinct elements drawn from `keys` are at most as many as `keys`. */
  lemma {:induction false} DistinctBound<K>(s: seq<K>, keys: set<K>)
    requires forall i, j :: 0 <= i < j < |s| ==> s[i] != s[j]
    requires forall i :: 0 <= i < |s| ==> s[i] in keys
    ensures |s| <= |keys|
  {
    if |s| > 0 {
      var init, last := s[..|s| - 1], s[|s| - 1];
      forall i | 0 <= i < |init| ensures init[i] in keys - {last} {
        assert init[i] == s[i];
      }
      DistinctBound(init, keys - {last});
    }
  }

  /** Some element occurs twice. */
  predicate HasRepeat<K(==)>(s: seq<K>) {
    exists i, j :: 0 <= i < j < |s| && s[i] == s[j]
  }

  /** Pigeonhole: more elements than `keys` holds, all from `keys`, repeat one. */
  lemma Pigeonhole<K>(s: seq<K>, keys: set<K>)
    requires |s| > |keys|
    requires forall i :: 0 <= i < |s| ==> s[i] in keys
    ensures HasRepeat(s)
  {
    if forall i, j :: 0 <= i < j < |s| ==> s[i] != s[j] {
      DistinctBound(s, keys);
    }
  }
}
