/** `_sorted_primed`: atoms sorted by a comparable key, each distinct key
    given the next prime of the table, so that equal keys share a prime and
    smaller keys get smaller primes. */
module Ranking {
  import opened Collections
  import opened Graphs
  import opened Primes

  /** `lt` is Python's `<` on the keys in `s`: irreflexive, transitive and
      total (of two different keys one is smaller). */
  ghost predicate StrictTotalOn<K>(lt: (K, K) -> bool, s: set<K>) {
    && (forall a :: a in s ==> !lt(a, a))
    && (forall a, b, c :: a in s && b in s && c in s && lt(a, b) && lt(b, c) ==> lt(a, c))
    && (forall a, b :: a in s && b in s && a != b ==> lt(a, b) || lt(b, a))
  }

  /** Python's `<` on integers. */
  function IntLt(a: nat, b: nat): bool {
    a < b
  }

  /** The keys in `vals` below `v`. */
  function Below<K(==,!new)>(vals: set<K>, lt: (K, K) -> bool, v: K): (r: set<K>)
    ensures forall w :: w in r <==> w in vals && lt(w, v)
  {
    set w | w in vals && lt(w, v)
  }

  /** The closed form of `_sorted_primed`: an atom gets the prime whose
      position in the table is the number of distinct keys below its own;
      the table running out (more distinct keys than primes) is an error. */
  function Primed<X(!new), K(==,!new)>(params: map<X, K>, lt: (K, K) -> bool): (r: Option<map<X, nat>>)
    ensures r.Some? <==> |params.Values| <= TableSize
    ensures r.Some? ==> r.value.Keys == params.Keys
    ensures r.Some? ==> forall x, y :: x in params && y in params && params[x] == params[y] ==> r.value[x] == r.value[y]
  {
    if |params.Values| > TableSize then None
    else Some(map x | x in params :: Prime(|Below(params.Values, lt, params[x])|))
  }

  /** A smaller key gets a smaller prime, and only a smaller key does. */
  lemma PrimedOrder<X(!new), K(!new)>(params: map<X, K>, lt: (K, K) -> bool, x: X, y: X)
    requires StrictTotalOn(lt, params.Values)
    requires Primed(params, lt).Some? && x in params && y in params
    ensures lt(params[x], params[y]) <==> Primed(params, lt).value[x] < Primed(params, lt).value[y]
  {
    var w := Primed(params, lt).value;
    var px, py := params[x], params[y];
    assert px in params.Values && py in params.Values;
    if lt(px, py) {
      RankBelow(params.Values, lt, px, py);
      PrimeIncreasing(|Below(params.Values, lt, px)|, |Below(params.Values, lt, py)|);
    } else if px == py {
    } else {
      assert lt(py, px);
      RankBelow(params.Values, lt, py, px);
      PrimeIncreasing(|Below(params.Values, lt, py)|, |Below(params.Values, lt, px)|);
    }
  }

  /** Two atoms share a prime exactly when they share a key. */
  lemma PrimedClasses<X(!new), K(!new)>(params: map<X, K>, lt: (K, K) -> bool, x: X, y: X)
    requires StrictTotalOn(lt, params.Values)
    requires Primed(params, lt).Some? && x in params && y in params
    ensures params[x] == params[y] <==> Primed(params, lt).value[x] == Primed(params, lt).value[y]
  {
    var px, py := params[x], params[y];
    assert px in params.Values && py in params.Values;
    if px != py {
      if lt(px, py) {
        PrimedOrder(params, lt, x, y);
      } else {
        PrimedOrder(params, lt, y, x);
      }
    }
  }

  /** A key below another has fewer keys below it. */
  lemma RankBelow<K(!new)>(vals: set<K>, lt: (K, K) -> bool, u: K, v: K)
    requires StrictTotalOn(lt, vals)
    requires u in vals && v in vals && lt(u, v)
    ensures |Below(vals, lt, u)| < |Below(vals, lt, v)|
  {
    var a, b := Below(vals, lt, u), Below(vals, lt, v);
    forall w | w in a ensures w in b {
      assert lt(w, u);
    }
    assert u in b && u !in a;
    assert a + {u} <= b;
    SubsetCard(a + {u}, b);
  }

  /** The sort step: each key map to its key, compared with `lt`. */
  method SortedPrimed<X(!new), K(==,!new)>(params: map<X, K>, lt: (K, K) -> bool) returns (r: Option<map<X, nat>>)
    requires StrictTotalOn(lt, params.Values)
    ensures r == Primed(params, lt)
  {
    TotalOnKeys(params, lt);
    var items := SortByKey(params.Keys, params, lt);
    var levels: map<K, nat> := map[];
    ghost var at: map<K, nat> := map[];
    var primed: map<X, nat> := map[];
    for i := 0 to |items|
      invariant Levelled(params, lt, items, i, levels, at, primed)
    {
      var x := items[i];
      var y := params[x];
      if y in levels {
        KnownLevel(params, lt, items, i, levels, at, primed);
        primed := primed[x := levels[y]];
      } else {
        if |levels| == TableSize {
          TableExhausted(params, lt, items, i, levels, at, primed);
          return None;
        }
        NewLevel(params, lt, items, i, levels, at, primed);
        levels := levels[y := Prime(|levels|)];
        at := at[y := i];
        primed := primed[x := levels[y]];
      }
    }
    AllLevelled(params, lt, items, levels, at, primed);
    return Some(primed);
  }

  lemma TotalOnKeys<X(!new), K>(params: map<X, K>, lt: (K, K) -> bool)
    requires StrictTotalOn(lt, params.Values)
    ensures StrictOrderOn(lt, params, params.Keys)
  {
    forall a | a in params.Keys ensures !lt(params[a], params[a]) {
      assert params[a] in params.Values;
    }
    forall a, b, c | a in params.Keys && b in params.Keys && c in params.Keys
      ensures ChainAt(lt, params, a, b, c)
    {
      assert params[a] in params.Values && params[b] in params.Values && params[c] in params.Values;
    }
  }

  /** `items` lists the atoms of `params` once each, sorted by key. */
  ghost predicate SortedItems<X(!new), K>(params: map<X, K>, lt: (K, K) -> bool, items: seq<X>) {
    && Distinct(items)
    && (forall x :: x in items <==> x in params)
    && (forall i, j :: 0 <= i < j < |items| && items[i] in params && items[j] in params ==>
          !lt(params[items[j]], params[items[i]]))
  }

  /** The state after the first `i` sorted atoms: `levels` holds the keys
      met so far, each with its prime (`at` says where it was met), and
      `primed` holds those atoms with the prime of their key. */
  ghost predicate Levelled<X(!new), K(!new)>(params: map<X, K>, lt: (K, K) -> bool, items: seq<X>, i: int,
                                      levels: map<K, nat>, at: map<K, nat>, primed: map<X, nat>)
  {
    && SortedItems(params, lt, items)
    && StrictTotalOn(lt, params.Values)
    && 0 <= i <= |items|
    && |levels| <= TableSize
    && KeysMet(params, items, i, levels, at)
    && LevelPrimes(params, lt, levels)
    && AtomsPrimed(params, items, i, levels, primed)
  }

  ghost predicate KeysMet<X, K>(params: map<X, K>, items: seq<X>, i: int, levels: map<K, nat>, at: map<K, nat>)
    requires 0 <= i <= |items|
  {
    && (forall j :: 0 <= j < i ==> items[j] in params && params[items[j]] in levels)
    && (forall v :: v in levels ==> v in at && at[v] < i && items[at[v]] in params && params[items[at[v]]] == v)
  }

  ghost predicate LevelPrimes<X(!new), K(!new)>(params: map<X, K>, lt: (K, K) -> bool, levels: map<K, nat>) {
    forall v :: v in levels ==> levels[v] == Prime(|Below(params.Values, lt, v)|)
  }

  ghost predicate AtomsPrimed<X, K>(params: map<X, K>, items: seq<X>, i: int, levels: map<K, nat>, primed: map<X, nat>)
    requires 0 <= i <= |items|
  {
    && (forall j :: 0 <= j < i ==> items[j] in primed)
    && (forall x :: x in primed ==> x in params && params[x] in levels && primed[x] == levels[params[x]])
  }

  lemma KnownLevel<X(!new), K(!new)>(params: map<X, K>, lt: (K, K) -> bool, items: seq<X>, i: int,
                              levels: map<K, nat>, at: map<K, nat>, primed: map<X, nat>)
    requires Levelled(params, lt, items, i, levels, at, primed) && i < |items|
    requires items[i] in params && params[items[i]] in levels
    ensures Levelled(params, lt, items, i + 1, levels, at, primed[items[i] := levels[params[items[i]]]])
  {
    KnownKeyMet(params, items, i, levels, at);
    KnownAtomPrimed(params, items, i, levels, primed);
  }

  lemma KnownKeyMet<X, K>(params: map<X, K>, items: seq<X>, i: int, levels: map<K, nat>, at: map<K, nat>)
    requires 0 <= i < |items| && items[i] in params && params[items[i]] in levels
    requires KeysMet(params, items, i, levels, at)
    ensures KeysMet(params, items, i + 1, levels, at)
  {
  }

  lemma KnownAtomPrimed<X, K>(params: map<X, K>, items: seq<X>, i: int, levels: map<K, nat>, primed: map<X, nat>)
    requires 0 <= i < |items| && items[i] in params && params[items[i]] in levels
    requires AtomsPrimed(params, items, i, levels, primed)
    ensures AtomsPrimed(params, items, i + 1, levels, primed[items[i] := levels[params[items[i]]]])
  {
  }

  /** A key met for the first time lies above every key met before and
      below none of the keys still to come. */
  lemma NewLevel<X(!new), K(!new)>(params: map<X, K>, lt: (K, K) -> bool, items: seq<X>, i: int,
                            levels: map<K, nat>, at: map<K, nat>, primed: map<X, nat>)
    requires Levelled(params, lt, items, i, levels, at, primed) && i < |items|
    requires items[i] in params && params[items[i]] !in levels && |levels| < TableSize
    ensures
      var y := params[items[i]];
      var p := Prime(|levels|);
      Levelled(params, lt, items, i + 1, levels[y := p], at[y := i], primed[items[i] := p])
  {
    var y, x := params[items[i]], items[i];
    var p := Prime(|levels|);
    BelowIsLevels(params, lt, items, i, levels, at, primed);
    NewKeyMet(params, items, i, levels, at, p);
    NewLevelPrime(params, lt, levels, y, p);
    NewAtomPrimed(params, items, i, levels, primed, p);
  }

  lemma NewKeyMet<X, K>(params: map<X, K>, items: seq<X>, i: int, levels: map<K, nat>, at: map<K, nat>, p: nat)
    requires 0 <= i < |items| && items[i] in params
    requires KeysMet(params, items, i, levels, at)
    ensures KeysMet(params, items, i + 1, levels[params[items[i]] := p], at[params[items[i]] := i])
  {
  }

  lemma NewLevelPrime<X(!new), K(!new)>(params: map<X, K>, lt: (K, K) -> bool, levels: map<K, nat>, y: K, p: nat)
    requires LevelPrimes(params, lt, levels)
    requires p == Prime(|Below(params.Values, lt, y)|)
    ensures LevelPrimes(params, lt, levels[y := p])
  {
  }

  lemma NewAtomPrimed<X, K>(params: map<X, K>, items: seq<X>, i: int, levels: map<K, nat>, primed: map<X, nat>, p: nat)
    requires 0 <= i < |items| && items[i] in params && params[items[i]] !in levels
    requires AtomsPrimed(params, items, i, levels, primed)
    ensures AtomsPrimed(params, items, i + 1, levels[params[items[i]] := p], primed[items[i] := p])
  {
  }

  lemma BelowIsLevels<X(!new), K(!new)>(params: map<X, K>, lt: (K, K) -> bool, items: seq<X>, i: int,
                                 levels: map<K, nat>, at: map<K, nat>, primed: map<X, nat>)
    requires Levelled(params, lt, items, i, levels, at, primed) && i < |items|
    requires items[i] in params && params[items[i]] !in levels
    ensures |Below(params.Values, lt, params[items[i]])| == |levels|
  {
    var y := params[items[i]];
    var b := Below(params.Values, lt, y);
    assert y in params.Values;
    forall w ensures w in b <==> w in levels.Keys {
      if w in levels {
        var j := at[w];
        assert params[items[j]] in params.Values;
      }
      if w in b {
        var z := ValueSource(params, w);
        assert z in items;
        var j := IndexOf(items, z);
        if j >= i {
          assert j != i;
        }
      }
    }
    assert b == levels.Keys;
  }

  /** A new key when every prime is taken: there are more keys than
      primes. */
  lemma TableExhausted<X(!new), K(!new)>(params: map<X, K>, lt: (K, K) -> bool, items: seq<X>, i: int,
                                  levels: map<K, nat>, at: map<K, nat>, primed: map<X, nat>)
    requires Levelled(params, lt, items, i, levels, at, primed) && i < |items|
    requires items[i] in params && params[items[i]] !in levels && |levels| == TableSize
    ensures |params.Values| > TableSize
  {
    var y := params[items[i]];
    LevelsAreKeys(params, lt, items, i, levels, at, primed);
    assert y in params.Values;
    ProperSubsetCard(levels.Keys, params.Values, y);
  }

  lemma LevelsAreKeys<X(!new), K(!new)>(params: map<X, K>, lt: (K, K) -> bool, items: seq<X>, i: int,
                                       levels: map<K, nat>, at: map<K, nat>, primed: map<X, nat>)
    requires Levelled(params, lt, items, i, levels, at, primed)
    ensures levels.Keys <= params.Values
  {
    forall v | v in levels ensures v in params.Values {
      var j := at[v];
      assert params[items[j]] in params.Values;
    }
  }

  /** After the last atom every key has its level and every atom its
      prime. */
  lemma AllLevelled<X(!new), K(!new)>(params: map<X, K>, lt: (K, K) -> bool, items: seq<X>,
                               levels: map<K, nat>, at: map<K, nat>, primed: map<X, nat>)
    requires Levelled(params, lt, items, |items|, levels, at, primed)
    ensures Primed(params, lt) == Some(primed)
  {
    forall v | v in params.Values ensures v in levels {
      var z := ValueSource(params, v);
      assert z in items;
      var j := IndexOf(items, z);
    }
    SubsetCard(params.Values, levels.Keys);
    var w := Primed(params, lt).value;
    forall x ensures x in primed <==> x in w {
      if x in params {
        assert x in items;
        var j := IndexOf(items, x);
      }
    }
    SameMap(primed, w);
  }
}
