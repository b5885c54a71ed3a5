/** The `itertools` iterations `get_mapping` walks through, written as the
    sequences Python produces, plus the merge of per-component matches and
    the automorphism filter. */
module Itertools {
  import opened Collections

  /** `range(n)`. */
  function Range(n: nat): (r: seq<nat>)
    ensures |r| == n && forall i :: 0 <= i < n ==> r[i] == i
  {
    seq(n, i => i)
  }

  /** `pool` without its `i`-th element. */
  function RemoveAt<T>(pool: seq<T>, i: nat): seq<T>
    requires i < |pool|
  {
    pool[..i] + pool[i + 1..]
  }

  /** Removing one element of a sequence without repetitions removes that
      element and nothing else. */
  lemma RemoveAtMembers<T>(pool: seq<T>, i: nat)
    requires Distinct(pool) && i < |pool|
    ensures Distinct(RemoveAt(pool, i)) && |RemoveAt(pool, i)| == |pool| - 1
    ensures forall x :: x in RemoveAt(pool, i) <==> x in pool && x != pool[i]
  {
    var r := RemoveAt(pool, i);
    assert forall j :: 0 <= j < i ==> r[j] == pool[j];
    assert forall j :: i <= j < |r| ==> r[j] == pool[j + 1];
    forall x | x in pool && x != pool[i] ensures x in r {
      var j :| 0 <= j < |pool| && pool[j] == x;
      if j < i { assert r[j] == x; } else { assert r[j - 1] == x; }
    }
  }

  /** `[[x] + s for s in ss]`. */
  function Prepend<T>(x: T, ss: seq<seq<T>>): (r: seq<seq<T>>)
    ensures |r| == |ss| && forall k :: 0 <= k < |ss| ==> r[k] == [x] + ss[k]
  {
    seq(|ss|, k requires 0 <= k < |ss| => [x] + ss[k])
  }

  lemma PrependMembers<T>(x: T, ss: seq<seq<T>>)
    ensures forall t :: t in Prepend(x, ss) <==> t != [] && t[0] == x && t[1..] in ss
  {
    forall t | t != [] && t[0] == x && t[1..] in ss ensures t in Prepend(x, ss) {
      var k :| 0 <= k < |ss| && ss[k] == t[1..];
      assert Prepend(x, ss)[k] == t;
    }
    forall t | t in Prepend(x, ss) ensures t != [] && t[0] == x && t[1..] in ss {
      var k :| 0 <= k < |ss| && Prepend(x, ss)[k] == t;
      assert t[1..] == ss[k];
    }
  }

  /** `r` distinct elements of `pool`: what `permutations(pool, r)` yields. */
  ghost predicate IsArrangement<T>(pool: seq<T>, r: nat, a: seq<T>) {
    |a| == r && Distinct(a) && forall i :: 0 <= i < |a| ==> a[i] in pool
  }

  /** `permutations(pool, r)`: every choice of `r` elements of `pool` taken
      from distinct positions, ordered by those positions. */
  function Arrangements<T>(pool: seq<T>, r: nat): seq<seq<T>>
    decreases r, 1, 0
  {
    if r == 0 then [[]] else Branches(pool, r, 0)
  }

  /** The arrangements whose first element comes from position `i` of
      `pool` or a later one. */
  function Branches<T>(pool: seq<T>, r: nat, i: nat): seq<seq<T>>
    requires 1 <= r && i <= |pool|
    decreases r, 0, |pool| - i
  {
    if i == |pool| then []
    else Prepend(pool[i], Arrangements(RemoveAt(pool, i), r - 1)) + Branches(pool, r, i + 1)
  }

  /** What `permutations` yields is exactly the arrangements. */
  lemma {:induction false} ArrangementsMembers<T>(pool: seq<T>, r: nat)
    requires Distinct(pool)
    ensures forall a :: a in Arrangements(pool, r) <==> IsArrangement(pool, r, a)
    decreases r, 1, 0
  {
    if r == 0 {
      forall a | IsArrangement(pool, r, a) ensures a in Arrangements(pool, r) {
        assert a == [];
      }
    } else {
      BranchesMembers(pool, r, 0);
    }
  }

  /** `permutations(pool, r)` yields nothing when `r` exceeds the pool. */
  lemma ArrangementsTooLong<T(!new)>(pool: seq<T>, r: nat)
    requires Distinct(pool) && r > |pool|
    ensures Arrangements(pool, r) == []
  {
    ArrangementsMembers(pool, r);
    if Arrangements(pool, r) != [] {
      var a := Arrangements(pool, r)[0];
      assert IsArrangement(pool, r, a);
      DistinctCard(a);
      DistinctCard(pool);
      SubsetCard(Elements(a), Elements(pool));
      assert false;
    }
  }

  lemma {:induction false} BranchesMembers<T>(pool: seq<T>, r: nat, i: nat)
    requires Distinct(pool) && 1 <= r && i <= |pool|
    ensures forall a :: a in Branches(pool, r, i) <==> IsArrangement(pool, r, a) && a[0] in pool[i..]
    decreases r, 0, |pool| - i
  {
    if i < |pool| {
      var rest := RemoveAt(pool, i);
      RemoveAtMembers(pool, i);
      ArrangementsMembers(rest, r - 1);
      BranchesMembers(pool, r, i + 1);
      PrependMembers(pool[i], Arrangements(rest, r - 1));
      forall a ensures a in Branches(pool, r, i) <==> IsArrangement(pool, r, a) && a[0] in pool[i..] {
        if IsArrangement(pool, r, a) && a[0] == pool[i] {
          assert a == [a[0]] + a[1..];
          assert forall j :: 0 <= j < |a[1..]| ==> a[1..][j] == a[j + 1] && a[j + 1] != a[0];
          assert IsArrangement(rest, r - 1, a[1..]);
        }
        if a in Prepend(pool[i], Arrangements(rest, r - 1)) {
          assert a == [a[0]] + a[1..] && IsArrangement(rest, r - 1, a[1..]);
          forall j | 0 <= j < |a| ensures a[j] in pool {
            if j > 0 { assert a[1..][j - 1] == a[j]; }
          }
          forall j, k | 0 <= j < k < |a| ensures a[j] != a[k] {
            assert a[1..][k - 1] == a[k];
            if j > 0 { assert a[1..][j - 1] == a[j]; }
          }
        }
        assert pool[i..] == [pool[i]] + pool[i + 1..];
      }
    }
  }

  /** `product(*lists)`: one element of each list, the last list varying
      fastest. */
  function Product<T>(lists: seq<seq<T>>): seq<seq<T>>
    decreases |lists|
  {
    if lists == [] then [[]] else Pairs(lists[0], Product(lists[1..]))
  }

  function Pairs<T>(heads: seq<T>, tails: seq<seq<T>>): seq<seq<T>>
    decreases |heads|
  {
    if heads == [] then [] else Prepend(heads[0], tails) + Pairs(heads[1..], tails)
  }

  lemma {:induction false} PairsMembers<T>(heads: seq<T>, tails: seq<seq<T>>)
    ensures forall t :: t in Pairs(heads, tails) <==> t != [] && t[0] in heads && t[1..] in tails
    decreases |heads|
  {
    if heads != [] {
      PairsMembers(heads[1..], tails);
      PrependMembers(heads[0], tails);
      assert heads == [heads[0]] + heads[1..];
    }
  }

  /** A tuple of `product(*lists)` is exactly a choice from each list. */
  lemma {:induction false} ProductMembers<T>(lists: seq<seq<T>>)
    ensures forall t :: t in Product(lists) <==> |t| == |lists| && forall j :: 0 <= j < |lists| ==> t[j] in lists[j]
    decreases |lists|
  {
    if lists != [] {
      ProductMembers(lists[1..]);
      PairsMembers(lists[0], Product(lists[1..]));
      forall t ensures t in Product(lists) <==> |t| == |lists| && forall j :: 0 <= j < |lists| ==> t[j] in lists[j] {
        if |t| == |lists| {
          assert forall j :: 0 <= j < |lists| - 1 ==> t[1..][j] == t[j + 1] && lists[1..][j] == lists[j + 1];
          if forall j :: 0 <= j < |lists| ==> t[j] in lists[j] {
            assert forall j :: 0 <= j < |lists[1..]| ==> t[1..][j] in lists[1..][j];
          }
          if t in Product(lists) {
            forall j | 0 <= j < |lists| ensures t[j] in lists[j] {
              if j > 0 { assert t[1..][j - 1] in lists[1..][j - 1]; }
            }
          }
        }
      }
    }
  }

  /** `mapping = match[0]; for m in match[1:]: mapping.update(m)`. */
  function Merge<K, V>(ms: seq<map<K, V>>): map<K, V>
    requires ms != []
  {
    if |ms| == 1 then ms[0] else Merge(ms[..|ms| - 1]) + ms[|ms| - 1]
  }

  /** The merged map has the keys of all the maps. */
  lemma {:induction false} MergeKeys<K, V>(ms: seq<map<K, V>>)
    requires ms != []
    ensures forall k :: k in Merge(ms) <==> exists j :: 0 <= j < |ms| && k in ms[j]
  {
    if |ms| > 1 {
      var init := ms[..|ms| - 1];
      MergeKeys(init);
      assert forall j :: 0 <= j < |init| ==> init[j] == ms[j];
    }
  }

  /** At each key the merged map holds the value of the last map with that
      key. */
  lemma {:induction false} MergeAt<K, V>(ms: seq<map<K, V>>, j: nat, k: K)
    requires j < |ms| && k in ms[j]
    requires forall i :: j < i < |ms| ==> k !in ms[i]
    ensures k in Merge(ms) && Merge(ms)[k] == ms[j][k]
  {
    if |ms| > 1 {
      var init := ms[..|ms| - 1];
      if j < |ms| - 1 {
        assert init[j] == ms[j];
        MergeAt(init, j, k);
      }
    }
  }

  /** The automorphism filter: a map is kept only when no earlier kept map,
      and no set in `seen`, has its set of values. */
  function Dedup<K, V>(ms: seq<map<K, V>>, seen: set<set<V>>): seq<map<K, V>>
  {
    if ms == [] then []
    else if ms[0].Values in seen then Dedup(ms[1..], seen)
    else [ms[0]] + Dedup(ms[1..], seen + {ms[0].Values})
  }

  /** The filter keeps only maps it is given, none with a value set already
      seen and no two with the same value set. */
  lemma {:induction false} DedupSound<K, V>(ms: seq<map<K, V>>, seen: set<set<V>>)
    ensures forall i :: 0 <= i < |Dedup(ms, seen)| ==> Dedup(ms, seen)[i] in ms && Dedup(ms, seen)[i].Values !in seen
    ensures forall i, j :: 0 <= i < j < |Dedup(ms, seen)| ==> Dedup(ms, seen)[i].Values != Dedup(ms, seen)[j].Values
  {
    if ms != [] {
      if ms[0].Values in seen {
        DedupSound(ms[1..], seen);
      } else {
        var rest := Dedup(ms[1..], seen + {ms[0].Values});
        DedupSound(ms[1..], seen + {ms[0].Values});
        assert Dedup(ms, seen) == [ms[0]] + rest;
        assert forall i :: 1 <= i < |Dedup(ms, seen)| ==> Dedup(ms, seen)[i] == rest[i - 1];
      }
    }
  }

  /** Every value set of an unseen map is kept: the filter loses no
      match up to its set of target atoms. */
  lemma DedupCovers<K, V>(ms: seq<map<K, V>>, seen: set<set<V>>)
    ensures forall m :: m in ms ==> m.Values in seen || exists i :: 0 <= i < |Dedup(ms, seen)| && Dedup(ms, seen)[i].Values == m.Values
  {
    forall m | m in ms && m.Values !in seen
      ensures exists i :: 0 <= i < |Dedup(ms, seen)| && Dedup(ms, seen)[i].Values == m.Values
    {
      var i := DedupIndex(ms, seen, m);
    }
  }

  /** Where the filter keeps the value set of an unseen map. */
  lemma {:induction false} DedupIndex<K, V>(ms: seq<map<K, V>>, seen: set<set<V>>, m: map<K, V>) returns (i: nat)
    requires m in ms && m.Values !in seen
    ensures i < |Dedup(ms, seen)| && Dedup(ms, seen)[i].Values == m.Values
  {
    if ms[0].Values in seen {
      assert m in ms[1..];
      i := DedupIndex(ms[1..], seen, m);
    } else if m.Values == ms[0].Values {
      i := 0;
    } else {
      assert m in ms[1..];
      var rest := Dedup(ms[1..], seen + {ms[0].Values});
      var j := DedupIndex(ms[1..], seen + {ms[0].Values}, m);
      assert Dedup(ms, seen) == [ms[0]] + rest;
      i := j + 1;
    }
  }

  /** `t` takes one entry from each of the lists, in order: a tuple
      `product(*lists)` can yield. */
  ghost predicate Choice<T>(lists: seq<seq<T>>, t: seq<T>) {
    |t| == |lists| && forall j :: 0 <= j < |lists| ==> t[j] in lists[j]
  }

  /** `for match in product(*lists)`, each tuple merged: one map per
      product tuple, and a map is among them exactly when it merges a
      choice of one map from each list. */
  function Combined<K(!new), V(!new)>(lists: seq<seq<map<K, V>>>): (r: seq<map<K, V>>)
    requires lists != []
    ensures |r| == |Product(lists)|
    ensures forall m :: m in r <==> exists t :: Choice(lists, t) && m == Merge(t)
  {
    var tuples := Product(lists);
    assert forall k :: 0 <= k < |tuples| ==> tuples[k] != [] by {
      TuplesNonEmpty(lists);
    }
    var r := seq(|tuples|, k requires 0 <= k < |tuples| => Merge(tuples[k]));
    MergedChoices(lists, tuples, r);
    r
  }

  /** Every product tuple takes one entry from each list, so none is empty
      when there is a list. */
  lemma TuplesNonEmpty<T>(lists: seq<seq<T>>)
    requires lists != []
    ensures forall k :: 0 <= k < |Product(lists)| ==> Product(lists)[k] != []
  {
    var tuples := Product(lists);
    ProductMembers(lists);
    forall k | 0 <= k < |tuples| ensures tuples[k] != [] {
      assert tuples[k] in tuples;
    }
  }

  /** Merging every product tuple yields exactly the merges of choices. */
  lemma MergedChoices<K, V>(lists: seq<seq<map<K, V>>>, tuples: seq<seq<map<K, V>>>, r: seq<map<K, V>>)
    requires lists != [] && tuples == Product(lists)
    requires |r| == |tuples| && forall k :: 0 <= k < |r| ==> tuples[k] != [] && r[k] == Merge(tuples[k])
    ensures forall m :: m in r <==> exists t :: Choice(lists, t) && m == Merge(t)
  {
    ProductMembers(lists);
    forall m | m in r ensures exists t :: Choice(lists, t) && m == Merge(t) {
      var k :| 0 <= k < |r| && r[k] == m;
      assert tuples[k] in tuples;
      assert Choice(lists, tuples[k]);
    }
    forall m | exists t :: Choice(lists, t) && m == Merge(t) ensures m in r {
      var t :| Choice(lists, t) && m == Merge(t);
      assert t in tuples;
      var k :| 0 <= k < |tuples| && tuples[k] == t;
      assert r[k] == m;
    }
  }
}
