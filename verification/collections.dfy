/** Generic facts about sequences, sets and maps shared by the graph,
    ranking and matching modules. */
module Collections {

  /** No element occurs twice. */
  predicate Distinct<T(==)>(s: seq<T>) {
    forall i, j :: 0 <= i < j < |s| ==> s[i] != s[j]
  }

  /** Appending a new element keeps a sequence duplicate-free. */
  lemma DistinctAppend<T>(s: seq<T>, x: T)
    requires Distinct(s) && x !in s
    ensures Distinct(s + [x])
  {
  }

  /** The elements of `s` that belong to `keep`, in their original order. */
  function Filter<T(==,!new)>(s: seq<T>, keep: set<T>): (r: seq<T>)
    ensures forall x :: x in r <==> x in s && x in keep
    ensures |r| <= |s|
    ensures Distinct(s) ==> Distinct(r)
  {
    if s == [] then []
    else if s[0] in keep then [s[0]] + Filter(s[1..], keep)
    else Filter(s[1..], keep)
  }

  /** The image of a sequence under a map, position by position. */
  function Image<X, V>(s: seq<X>, f: map<X, V>): (r: seq<V>)
    requires forall i :: 0 <= i < |s| ==> s[i] in f
    ensures |r| == |s|
    ensures forall i :: 0 <= i < |s| ==> r[i] == f[s[i]]
  {
    seq(|s|, i requires 0 <= i < |s| => f[s[i]])
  }

  /** `lt`, seen through `key`, is a strict partial order on `s`
      (irreflexive and transitive): what selecting a minimum needs. The
      transitivity instance for a triple is named by `ChainAt`, so that
      proofs instantiate it only where they mention it. */
  ghost predicate StrictOrderOn<K, X>(lt: (K, K) -> bool, key: map<X, K>, s: set<X>)
    requires s <= key.Keys
  {
    && (forall a :: a in s ==> !lt(key[a], key[a]))
    && (forall a, b, c :: a in s && b in s && c in s ==> ChainAt(lt, key, a, b, c))
  }

  ghost predicate ChainAt<K, X>(lt: (K, K) -> bool, key: map<X, K>, a: X, b: X, c: X)
    requires a in key && b in key && c in key
  {
    lt(key[a], key[b]) && lt(key[b], key[c]) ==> lt(key[a], key[c])
  }

  lemma StrictOrderSubset<K, X>(lt: (K, K) -> bool, key: map<X, K>, s: set<X>, t: set<X>)
    requires t <= s <= key.Keys
    requires StrictOrderOn(lt, key, s)
    ensures StrictOrderOn(lt, key, t)
  {
    forall a, b, c | a in t && b in t && c in t ensures ChainAt(lt, key, a, b, c) {
      assert ChainAt(lt, key, a, b, c);
    }
  }

  /** A finite non-empty set has an element no other element is below. */
  lemma {:induction false} MinimalExists<K, X>(lt: (K, K) -> bool, key: map<X, K>, s: set<X>) returns (m: X)
    requires s != {} && s <= key.Keys
    requires StrictOrderOn(lt, key, s)
    ensures m in s && forall y :: y in s ==> !lt(key[y], key[m])
    decreases |s|
  {
    var x :| x in s;
    var rest := s - {x};
    if rest == {} {
      forall y | y in s ensures !lt(key[y], key[x]) {
        assert y !in rest;
      }
      m := x;
    } else {
      assert |rest| < |s|;
      var r := MinimalExists(lt, key, rest);
      if lt(key[x], key[r]) {
        forall y | y in s ensures !lt(key[y], key[x]) {
          if y != x {
            assert y in rest;
            assert !lt(key[y], key[r]);
            assert ChainAt(lt, key, y, x, r);
          }
        }
        m := x;
      } else {
        m := r;
      }
    }
  }

  /** The elements of `s` in non-decreasing `key` order: the output of a
      stable sort by `key`, up to the order among equal keys. */
  method SortByKey<K, X>(s: set<X>, key: map<X, K>, lt: (K, K) -> bool) returns (r: seq<X>)
    requires s <= key.Keys
    requires StrictOrderOn(lt, key, s)
    ensures Distinct(r) && |r| == |s|
    ensures forall x :: x in r <==> x in s
    ensures forall i, j :: 0 <= i < j < |r| ==> !lt(key[r[j]], key[r[i]])
  {
    r := [];
    var rest := s;
    while rest != {}
      invariant rest <= s
      invariant |r| + |rest| == |s|
      invariant forall x :: x in r <==> x in s && x !in rest
      invariant Distinct(r)
      invariant forall i, y :: 0 <= i < |r| && y in rest ==> !lt(key[y], key[r[i]])
      invariant forall i, j :: 0 <= i < j < |r| ==> !lt(key[r[j]], key[r[i]])
      decreases |rest|
    {
      StrictOrderSubset(lt, key, s, rest);
      ghost var w := MinimalExists(lt, key, rest);
      var m :| m in rest && forall y :: y in rest ==> !lt(key[y], key[m]);
      ghost var r0, rest0 := r, rest;
      r := r + [m];
      rest := rest - {m};
      assert forall i :: 0 <= i < |r0| ==> r[i] == r0[i];
      assert r[|r0|] == m;
      assert m !in r0;
      forall i, y | 0 <= i < |r| && y in rest ensures !lt(key[y], key[r[i]]) {
        assert y in rest0;
        if i < |r0| {
          assert r[i] == r0[i];
        }
      }
    }
  }

  /** Two sequences without repetitions and without common elements
      concatenate to one without repetitions. */
  lemma DistinctConcat<T>(a: seq<T>, b: seq<T>)
    requires Distinct(a) && Distinct(b)
    requires forall x :: x in a ==> x !in b
    ensures Distinct(a + b)
  {
    forall i, j | 0 <= i < j < |a + b| ensures (a + b)[i] != (a + b)[j] {
      if i < |a| && j >= |a| {
        assert (a + b)[i] in a && (a + b)[j] == b[j - |a|];
      }
    }
  }

  /** The parts of a sequence without repetitions have none and share no
      element. */
  lemma DistinctParts<T>(a: seq<T>, b: seq<T>)
    requires Distinct(a + b)
    ensures Distinct(a) && Distinct(b)
    ensures forall x :: x in a ==> x !in b
  {
    assert forall i :: 0 <= i < |a| ==> (a + b)[i] == a[i];
    assert forall i :: 0 <= i < |b| ==> (a + b)[|a| + i] == b[i];
    forall x | x in a ensures x !in b {
      var i :| 0 <= i < |a| && a[i] == x;
      forall j | 0 <= j < |b| ensures b[j] != x {
        assert (a + b)[i] != (a + b)[|a| + j];
      }
    }
  }

  /** A non-empty sequence is its front followed by its last element. */
  lemma SplitLast<T>(s: seq<T>)
    requires s != []
    ensures s[..|s| - 1] + [s[|s| - 1]] == s
  {
  }

  /** The set of elements of a sequence. */
  function Elements<T(!new)>(s: seq<T>): (r: set<T>)
    ensures forall x :: x in r <==> x in s
  {
    set x | x in s
  }

  /** A sequence is empty exactly when its set of elements is. */
  lemma ElementsEmpty<T(!new)>(s: seq<T>)
    ensures Elements(s) == {} <==> s == []
  {
    if s != [] {
      assert s[0] in Elements(s);
    }
  }

  /** Some member of a non-empty set. */
  lemma Pick<T>(s: set<T>) returns (x: T)
    requires s != {}
    ensures x in s
  {
    if forall y :: y !in s {
      assert false;
    }
    x :| x in s;
  }

  /** The first position of `x` in `s`. */
  function IndexOf<T(==)>(s: seq<T>, x: T): (r: nat)
    requires x in s
    ensures r < |s| && s[r] == x
    ensures forall j :: 0 <= j < r ==> s[j] != x
  {
    if s[0] == x then 0 else 1 + IndexOf(s[1..], x)
  }

  /** An element of a prefix is first found inside that prefix. */
  lemma IndexInPrefix<T>(s: seq<T>, x: T, k: nat)
    requires k <= |s| && x in s[..k]
    ensures x in s && IndexOf(s, x) < k
  {
    var j := IndexOf(s[..k], x);
    assert s[j] == x;
  }

  /** In a sequence without repetitions an element's position is its only
      one. */
  lemma IndexOfDistinct<T>(s: seq<T>, i: int)
    requires Distinct(s) && 0 <= i < |s|
    ensures IndexOf(s, s[i]) == i
  {
  }

  /** A sequence without repetitions has as many elements as its set. */
  lemma {:induction false} DistinctCard<T(!new)>(s: seq<T>)
    requires Distinct(s)
    ensures |Elements(s)| == |s|
  {
    if s != [] {
      var t := s[..|s| - 1];
      assert Distinct(t);
      DistinctCard(t);
      assert Elements(s) == Elements(t) + {s[|s| - 1]};
      assert s[|s| - 1] !in t;
    }
  }

  /** An injective map sends a set to a set of the same size. */
  lemma {:induction false} InjectiveImageCard<X, Y>(s: set<X>, f: map<X, Y>)
    requires s <= f.Keys
    requires forall a, b :: a in s && b in s && a != b ==> f[a] != f[b]
    ensures |SetImage(s, f)| == |s|
    decreases |s|
  {
    if s != {} {
      var x :| x in s;
      var rest := s - {x};
      InjectiveImageCard(rest, f);
      assert SetImage(s, f) == SetImage(rest, f) + {f[x]};
      assert f[x] !in SetImage(rest, f);
    }
  }

  lemma SubsetCard<T>(a: set<T>, b: set<T>)
    requires a <= b
    ensures |a| <= |b|
  {
    assert b == a + (b - a);
  }

  /** A subset missing an element of the larger set is strictly smaller. */
  lemma ProperSubsetCard<T>(a: set<T>, b: set<T>, y: T)
    requires a <= b && y in b && y !in a
    ensures |a| < |b|
  {
    assert a + {y} <= b;
    SubsetCard(a + {y}, b);
  }

  /** A subset as large as the set is the set. */
  lemma SubsetSameCard<T>(a: set<T>, b: set<T>)
    requires a <= b && |a| == |b|
    ensures a == b
  {
    assert b == a + (b - a);
    assert a !! (b - a);
    assert |b - a| == 0;
  }

  /** An injective map into a set as large as its domain uses all of it. */
  lemma InjectiveOnto<X, Y>(f: map<X, Y>, b: set<Y>)
    requires forall x, y :: x in f && y in f && x != y ==> f[x] != f[y]
    requires forall x :: x in f ==> f[x] in b
    requires |f.Keys| == |b|
    ensures f.Values == b
  {
    ValuesAsImage(f);
    InjectiveImageCard(f.Keys, f);
    forall v | v in f.Values ensures v in b {
      var x := ValueSource(f, v);
    }
    SubsetSameCard(f.Values, b);
  }

  /** The image of a set under a map. */
  function SetImage<X, Y>(s: set<X>, f: map<X, Y>): (r: set<Y>)
    requires s <= f.Keys
    ensures forall x :: x in s ==> f[x] in r
    ensures forall y :: y in r ==> exists x :: x in s && f[x] == y
  {
    set x | x in s :: f[x]
  }

  /** An element of an image and a member of the set it comes from. */
  lemma SetImageSource<X, Y>(s: set<X>, f: map<X, Y>, y: Y) returns (x: X)
    requires s <= f.Keys && y in SetImage(s, f)
    ensures x in s && f[x] == y
  {
    x :| x in s && f[x] == y;
  }

  /** A map sends a set to a set no larger. */
  lemma {:induction false} ImageCardLe<X, Y>(s: set<X>, f: map<X, Y>)
    requires s <= f.Keys
    ensures |SetImage(s, f)| <= |s|
    decreases |s|
  {
    if s != {} {
      var x :| x in s;
      var rest := s - {x};
      ImageCardLe(rest, f);
      assert SetImage(s, f) == SetImage(rest, f) + {f[x]};
    }
  }

  lemma {:induction false} FilterAppend<T(!new)>(s: seq<T>, x: T, keep: set<T>)
    ensures Filter(s + [x], keep) == Filter(s, keep) + (if x in keep then [x] else [])
  {
    if s != [] {
      assert (s + [x])[1..] == s[1..] + [x];
      FilterAppend(s[1..], x, keep);
    }
  }

  lemma {:induction false} FilterAll<T(!new)>(s: seq<T>, keep: set<T>)
    requires forall x :: x in s ==> x in keep
    ensures Filter(s, keep) == s
  {
    if s != [] {
      FilterAll(s[1..], keep);
    }
  }

  /** Two maps with the same keys and the same value at every key are
      equal. */
  lemma SameMap<K, V>(m1: map<K, V>, m2: map<K, V>)
    requires forall k :: k in m1 <==> k in m2
    requires forall k :: k in m1 ==> m1[k] == m2[k]
    ensures m1 == m2
  {
    forall k ensures k in m1.Keys <==> k in m2.Keys {
    }
    assert m1.Keys == m2.Keys;
  }

  /** A key holding a given value. */
  lemma ValueSource<X, Y>(f: map<X, Y>, v: Y) returns (k: X)
    requires v in f.Values
    ensures k in f && f[k] == v
  {
    k :| k in f && f[k] == v;
  }

  /** The values of a map are the image of its keys. */
  lemma ValuesAsImage<X, Y>(f: map<X, Y>)
    ensures f.Values == SetImage(f.Keys, f)
  {
    forall v | v in f.Values ensures v in SetImage(f.Keys, f) {
      var k :| k in f && f[k] == v;
    }
  }

  /** Removing a key just added to a map that lacked it restores the map. */
  lemma UpdateThenRemove<X, Y>(m: map<X, Y>, k: X, v: Y)
    requires k !in m
    ensures m[k := v] - {k} == m
  {
  }
}
