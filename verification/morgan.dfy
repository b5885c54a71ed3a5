/** `Morgan.atoms_order`: a Morgan-style ranking of the atoms. Atoms start
    in classes of equal signature (atom code, sorted bond codes), and each
    round replaces an atom's weight by its square times the product of its
    neighbours' weights, re-ranked onto primes, until every atom is unique,
    the class count stalls, or the round budget runs out. */
module Morgan {
  import opened Collections
  import opened Graphs
  import opened Primes
  import opened Ranking

  // ---------------------------------------------------------------- orders

  /** Python's `<` on tuples of integers: lexicographic, a proper prefix
      before its extensions. */
  function SeqLt(a: seq<int>, b: seq<int>): bool {
    if a == [] then b != []
    else if b == [] then false
    else if a[0] != b[0] then a[0] < b[0]
    else SeqLt(a[1..], b[1..])
  }

  lemma {:induction false} SeqLtIrreflexive(a: seq<int>)
    ensures !SeqLt(a, a)
  {
    if a != [] {
      SeqLtIrreflexive(a[1..]);
    }
  }

  lemma {:induction false} SeqLtTransitive(a: seq<int>, b: seq<int>, c: seq<int>)
    requires SeqLt(a, b) && SeqLt(b, c)
    ensures SeqLt(a, c)
  {
    if a != [] && a[0] == b[0] && b[0] == c[0] {
      SeqLtTransitive(a[1..], b[1..], c[1..]);
    }
  }

  lemma {:induction false} SeqLtTotal(a: seq<int>, b: seq<int>)
    requires a != b
    ensures SeqLt(a, b) || SeqLt(b, a)
  {
    if a != [] && b != [] && a[0] == b[0] {
      assert a == [a[0]] + a[1..] && b == [b[0]] + b[1..];
      SeqLtTotal(a[1..], b[1..]);
    }
  }

  /** An atom's starting key: `(int(atom), tuple(sorted(int(bond), ...)))`. */
  datatype Signature = Signature(atom: int, bonds: seq<int>)

  /** Python's `<` on the pairs: by atom code, then by the bond codes. */
  function SigLt(a: Signature, b: Signature): bool {
    a.atom < b.atom || (a.atom == b.atom && SeqLt(a.bonds, b.bonds))
  }

  lemma SigLtTotal(s: set<Signature>)
    ensures StrictTotalOn(SigLt, s)
  {
    forall a | a in s ensures !SigLt(a, a) {
      SeqLtIrreflexive(a.bonds);
    }
    forall a, b, c | a in s && b in s && c in s && SigLt(a, b) && SigLt(b, c) ensures SigLt(a, c) {
      if a.atom == b.atom == c.atom {
        SeqLtTransitive(a.bonds, b.bonds, c.bonds);
      }
    }
    forall a, b | a in s && b in s && a != b ensures SigLt(a, b) || SigLt(b, a) {
      if a.atom == b.atom {
        SeqLtTotal(a.bonds, b.bonds);
      }
    }
  }

  // --------------------------------------------------------------- sorting

  predicate Sorted(s: seq<int>) {
    forall i, j :: 0 <= i < j < |s| ==> s[i] <= s[j]
  }

  function Insert(x: int, s: seq<int>): (r: seq<int>)
    requires Sorted(s)
    ensures Sorted(r) && multiset(r) == multiset(s) + multiset{x}
  {
    if s == [] then [x]
    else if x <= s[0] then [x] + s
    else
      var rest := Insert(x, s[1..]);
      assert forall i :: 0 <= i < |s[1..]| ==> s[0] <= s[1..][i];
      InsertAbove(s[0], x, s[1..], rest);
      assert s == [s[0]] + s[1..];
      [s[0]] + rest
  }

  /** Putting below a sorted sequence a value no larger than any of its
      elements keeps it sorted. */
  lemma InsertAbove(lo: int, x: int, s: seq<int>, r: seq<int>)
    requires lo <= x && Sorted(r) && (forall i :: 0 <= i < |s| ==> lo <= s[i])
    requires multiset(r) == multiset(s) + multiset{x}
    ensures Sorted([lo] + r)
  {
    forall i | 0 <= i < |r| ensures lo <= r[i] {
      assert r[i] in multiset(r);
      if r[i] != x {
        assert r[i] in multiset(s);
        var j :| 0 <= j < |s| && s[j] == r[i];
      }
    }
    forall i, j | 0 <= i < j < |[lo] + r| ensures ([lo] + r)[i] <= ([lo] + r)[j] {
      if i > 0 {
        assert ([lo] + r)[i] == r[i - 1];
      }
      assert ([lo] + r)[j] == r[j - 1];
    }
  }

  /** `sorted(...)` on integers. */
  function Sort(s: seq<int>): (r: seq<int>)
    ensures Sorted(r) && multiset(r) == multiset(s)
  {
    if s == [] then []
    else
      assert s == [s[0]] + s[1..];
      Insert(s[0], Sort(s[1..]))
  }

  /** A sorted sequence is fixed by its multiset: the order the codes are
      collected in does not matter. */
  lemma {:induction false} SortedUnique(a: seq<int>, b: seq<int>)
    requires Sorted(a) && Sorted(b) && multiset(a) == multiset(b)
    ensures a == b
  {
    if a == [] {
      assert |multiset(b)| == 0;
    } else {
      HeadsMatch(a, b);
      SortedTails(a, b);
      SortedUnique(a[1..], b[1..]);
      SameHeadAndTail(a, b);
    }
  }

  /** Dropping the common head leaves two sorted permutations. */
  lemma SortedTails(a: seq<int>, b: seq<int>)
    requires Sorted(a) && Sorted(b) && multiset(a) == multiset(b) && a != [] && b != [] && a[0] == b[0]
    ensures Sorted(a[1..]) && Sorted(b[1..]) && multiset(a[1..]) == multiset(b[1..])
  {
    DropHead(a, b);
    SortedTail(a);
    SortedTail(b);
  }

  /** Dropping equal heads from two permutations of each other. */
  lemma DropHead<T>(a: seq<T>, b: seq<T>)
    requires multiset(a) == multiset(b) && a != [] && b != [] && a[0] == b[0]
    ensures multiset(a[1..]) == multiset(b[1..])
  {
    assert a == [a[0]] + a[1..] && b == [b[0]] + b[1..];
    assert multiset(a[1..]) == multiset(a) - multiset{a[0]};
    assert multiset(b[1..]) == multiset(b) - multiset{b[0]};
  }

  lemma SameHeadAndTail(a: seq<int>, b: seq<int>)
    requires a != [] && b != [] && a[0] == b[0] && a[1..] == b[1..]
    ensures a == b
  {
    assert a == [a[0]] + a[1..] && b == [b[0]] + b[1..];
  }

  lemma SortedTail(a: seq<int>)
    requires Sorted(a) && a != []
    ensures Sorted(a[1..])
  {
    forall i, j | 0 <= i < j < |a[1..]| ensures a[1..][i] <= a[1..][j] {
      assert a[1..][i] == a[i + 1] && a[1..][j] == a[j + 1];
    }
  }

  /** Two sorted permutations of each other start with the same element. */
  lemma HeadsMatch(a: seq<int>, b: seq<int>)
    requires Sorted(a) && Sorted(b) && multiset(a) == multiset(b) && a != []
    ensures b != [] && a[0] == b[0]
  {
    assert a[0] in multiset(a);
    assert |multiset(b)| != 0;
    assert b[0] in multiset(b);
    var i :| 0 <= i < |b| && b[i] == a[0];
    var j :| 0 <= j < |a| && a[j] == b[0];
    assert b[0] <= b[i] && a[0] <= a[j];
  }

  // ------------------------------------------------------------ signatures

  /** The codes of the bonds in `row`, taken in atom order. */
  function RowCodes<B>(ids: seq<Atom>, row: map<Atom, B>, bcode: B -> int): (r: seq<int>)
    ensures |r| <= |ids|
  {
    if ids == [] then []
    else (if ids[0] in row then [bcode(row[ids[0]])] else []) + RowCodes(ids[1..], row, bcode)
  }

  /** `params`: each atom's code with the sorted codes of its bonds. */
  function Params<A, B>(g: Graph<A, B>, acode: A -> int, bcode: B -> int): (r: map<Atom, Signature>)
    requires WellFormed(g)
    ensures r.Keys == g.atoms.Keys
  {
    map n | n in g.atoms :: Signature(acode(g.atoms[n]), Sort(RowCodes(g.ids, g.bonds[n], bcode)))
  }

  // ------------------------------------------------------------ refinement

  /** The product of a sequence, `reduce(mul, ...)`. */
  function Product(s: seq<nat>): nat {
    if s == [] then 1 else s[0] * Product(s[1..])
  }

  /** Taking one factor out of a product. */
  lemma {:induction false} ProductRemove(s: seq<nat>, k: nat)
    requires k < |s|
    ensures Product(s) == s[k] * Product(s[..k] + s[k + 1..])
  {
    if k == 0 {
      assert s[..0] + s[1..] == s[1..];
    } else {
      var t := s[1..];
      ProductRemove(t, k - 1);
      var rest := t[..k - 1] + t[k..];
      assert s[..k] + s[k + 1..] == [s[0]] + rest;
      Swap(s[0], s[k], Product(rest));
    }
  }

  lemma Swap(a: nat, b: nat, p: nat)
    ensures a * (b * p) == b * (a * p)
  {
  }

  /** The product does not depend on the order of the factors. */
  lemma {:induction false} ProductPermutation(s: seq<nat>, t: seq<nat>)
    requires multiset(s) == multiset(t)
    ensures Product(s) == Product(t)
    decreases |s|
  {
    if s == [] {
      assert |multiset(t)| == 0;
    } else {
      assert s[0] in multiset(s);
      var k := IndexOf(t, s[0]);
      var rest := t[..k] + t[k + 1..];
      DropMatching(s, t, k);
      ProductPermutation(s[1..], rest);
      ProductRemove(t, k);
    }
  }

  /** Dropping the same factor from both sides keeps them permutations. */
  lemma DropMatching<T>(s: seq<T>, t: seq<T>, k: nat)
    requires multiset(s) == multiset(t) && s != [] && k < |t| && t[k] == s[0]
    ensures multiset(s[1..]) == multiset(t[..k] + t[k + 1..])
  {
    assert s == [s[0]] + s[1..];
    assert t == t[..k] + [t[k]] + t[k + 1..];
    assert multiset(s[1..]) == multiset(s) - multiset{s[0]};
    assert multiset(t[..k] + t[k + 1..]) == multiset(t) - multiset{t[k]};
  }

  /** The neighbours of `n`, in atom order. */
  function Neighbours<A, B>(g: Graph<A, B>, n: Atom): (r: seq<Atom>)
    requires WellFormed(g) && n in g.bonds
    ensures forall x :: x in r <==> x in g.bonds[n]
    ensures forall i :: 0 <= i < |r| ==> r[i] in g.atoms
  {
    var r := Filter(g.ids, g.bonds[n].Keys);
    IdsAreAtoms(g);
    assert forall x :: x in g.bonds[n] ==> x in g.ids;
    assert forall i :: 0 <= i < |r| ==> r[i] in g.ids;
    r
  }

  /** The weights of the neighbours of `n`. */
  function NeighbourWeights<A, B>(g: Graph<A, B>, w: map<Atom, nat>, n: Atom): (r: seq<nat>)
    requires WellFormed(g) && w.Keys == g.atoms.Keys && n in g.bonds
  {
    Image(Neighbours(g, n), w)
  }

  /** One round: `w(n)^2` times the product of the neighbours' weights. */
  function Refine<A, B>(g: Graph<A, B>, w: map<Atom, nat>): (r: map<Atom, nat>)
    requires WellFormed(g) && w.Keys == g.atoms.Keys
    ensures r.Keys == g.atoms.Keys
  {
    map n | n in g.bonds :: Weigh(w[n], Product(NeighbourWeights(g, w, n)))
  }

  /** `weights[n] ** 2` times the neighbours' product. */
  function Weigh(x: nat, p: nat): nat {
    x * x * p
  }

  /** Two atoms of equal weight whose neighbours carry the same weights
      (with multiplicity) get equal new weights. */
  lemma RefineEquitable<A, B>(g: Graph<A, B>, w: map<Atom, nat>, n: Atom, m: Atom)
    requires WellFormed(g) && w.Keys == g.atoms.Keys && n in g.atoms && m in g.atoms
    requires w[n] == w[m]
    requires multiset(NeighbourWeights(g, w, n)) == multiset(NeighbourWeights(g, w, m))
    ensures Refine(g, w)[n] == Refine(g, w)[m]
  {
    ProductPermutation(NeighbourWeights(g, w, n), NeighbourWeights(g, w, m));
  }

  // ------------------------------------------------------------- the loop

  /** The least element of a sequence (0 for the empty one). */
  function MinOf(s: seq<nat>): (r: nat)
    ensures s != [] ==> r in s && forall x :: x in s ==> r <= x
  {
    if s == [] then 0
    else if |s| == 1 then s[0]
    else
      assert forall x :: x in s ==> x == s[0] || x in s[1..];
      var m := MinOf(s[1..]);
      if s[0] <= m then s[0] else m
  }

  /** `x[min(x)] > 1` for `x = Counter(weights.values())`: more than one
      atom has the least weight. */
  function SmallestShared<A, B>(g: Graph<A, B>, w: map<Atom, nat>): bool
    requires WellFormed(g) && w.Keys == g.atoms.Keys
  {
    IdsAreAtoms(g);
    var vs := Image(g.ids, w);
    multiset(vs)[MinOf(vs)] > 1
  }

  /** Every weight is a prime. */
  ghost predicate AllPrime(w: map<Atom, nat>) {
    forall n :: n in w ==> IsPrime(w[n])
  }

  /** What one round of `_morgan` leads to: the loop ends with these
      weights, the prime table runs out, or another round follows. */
  datatype Step = Stop(weights: map<Atom, nat>) | Exhausted | Again(weights: map<Atom, nat>, tries: nat, numb: nat, stab: nat)

  /** `_sorted_primed(tmp)` for the refined weights `tmp`. */
  function Rerank<A, B>(g: Graph<A, B>, w: map<Atom, nat>): (r: Option<map<Atom, nat>>)
    requires WellFormed(g) && w.Keys == g.atoms.Keys
    ensures r.Some? ==> r.value.Keys == g.atoms.Keys && AllPrime(r.value)
    ensures r.None? ==> Size(g) > TableSize
  {
    var tmp := Refine(g, w);
    ValuesCardLe(tmp);
    var p := Primed(tmp, IntLt);
    if p.None? then None
    else
      PrimedAllPrime(tmp, IntLt);
      p
  }

  /** One round of `_morgan` with `tries` rounds left, `numb` classes
      before the round and `stab` stalled rounds so far. It re-ranks the
      refined weights and stops on all-unique weights or on the stall limit
      (3 stalled rounds when the lightest class is shared, 2 otherwise); a
      last round that lost classes earns one more. */
  function Round<A, B>(g: Graph<A, B>, w: map<Atom, nat>, tries: nat, numb: nat, stab: nat): (r: Step)
    requires WellFormed(g) && w.Keys == g.atoms.Keys && tries > 0
    ensures r.Stop? || r.Again? ==> r.weights.Keys == g.atoms.Keys && AllPrime(r.weights)
    ensures r.Exhausted? ==> Size(g) > TableSize
    ensures r.Again? ==> r.tries < tries || (r.tries == tries && r.numb < numb)
  {
    match Rerank(g, w)
    case None => Exhausted
    case Some(next) => Decide(g, next, tries, numb, stab)
  }

  /** The end of a round that re-ranked the weights to `next`. */
  function Decide<A, B>(g: Graph<A, B>, next: map<Atom, nat>, tries: nat, numb: nat, stab: nat): (r: Step)
    requires WellFormed(g) && next.Keys == g.atoms.Keys && tries > 0
    ensures r.Stop? || r.Again? ==> r.weights == next
    ensures !r.Exhausted?
    ensures |next.Values| == Size(g) ==> r == Stop(next)
    ensures r.Again? ==> r.tries < tries || (r.tries == tries && r.numb < numb)
  {
    var numb' := |next.Values|;
    if numb' == Size(g) then Stop(next)
    else if numb' == numb && (if SmallestShared(g, next) then stab == 3 else stab >= 2) then Stop(next)
    else Again(next, Budget(tries, numb', numb), numb', if numb' == numb then stab + 1 else 0)
  }

  /** The rounds left after one: one fewer, except that a last round which
      lost classes leaves one more. */
  function Budget(tries: nat, numb': nat, numb: nat): (r: nat)
    requires tries > 0
    ensures r < tries || (r == tries && numb' < numb)
  {
    if tries - 1 == 0 && numb' < numb then 1 else tries - 1
  }

  /** The loop of `_morgan` from a state; an exhausted budget returns the
      weights as they are. */
  function MorganFrom<A, B>(g: Graph<A, B>, w: map<Atom, nat>, tries: nat, numb: nat, stab: nat): (r: Result<map<Atom, nat>>)
    requires WellFormed(g) && w.Keys == g.atoms.Keys
    ensures r.Ok? ==> r.value.Keys == g.atoms.Keys
    ensures r.Ok? && AllPrime(w) ==> AllPrime(r.value)
    ensures Size(g) <= TableSize ==> r.Ok?
    decreases tries, numb
  {
    if tries == 0 then Ok(w)
    else
      match Round(g, w, tries, numb, stab)
      case Stop(next) => Ok(next)
      case Exhausted => Err(PrimesExhausted)
      case Again(next, tries', numb', stab') => MorganFrom(g, next, tries', numb', stab')
  }

  /** A map has no more distinct values than keys. */
  lemma ValuesCardLe<X, Y>(m: map<X, Y>)
    ensures |m.Values| <= |m.Keys|
  {
    ValuesAsImage(m);
    ImageCardLe(m.Keys, m);
  }

  lemma PrimedAllPrime<K(!new)>(params: map<Atom, K>, lt: (K, K) -> bool)
    requires Primed(params, lt).Some?
    ensures AllPrime(Primed(params, lt).value)
  {
  }

  /** `_morgan(weights)`: `4 * len(self)` rounds, no stalls yet. */
  function RunMorgan<A, B>(g: Graph<A, B>, w: map<Atom, nat>): (r: Result<map<Atom, nat>>)
    requires WellFormed(g) && w.Keys == g.atoms.Keys
  {
    MorganFrom(g, w, 4 * Size(g), |w.Values|, 0)
  }

  /** A round that makes every weight unique ends the loop with those
      weights. */
  lemma MorganStopsWhenUnique<A, B>(g: Graph<A, B>, w: map<Atom, nat>, tries: nat, numb: nat, stab: nat, next: map<Atom, nat>)
    requires WellFormed(g) && w.Keys == g.atoms.Keys && tries > 0
    requires Rerank(g, w) == Some(next) && |next.Values| == Size(g)
    ensures MorganFrom(g, w, tries, numb, stab) == Ok(next)
  {
    assert Round(g, w, tries, numb, stab) == Stop(next);
  }

  /** `atoms_order`: no weights for an empty graph, weight 2 for a lone
      atom, and otherwise the Morgan loop from the ranked signatures. */
  function AtomsOrder<A, B>(g: Graph<A, B>, acode: A -> int, bcode: B -> int): (r: Result<map<Atom, nat>>)
    requires WellFormed(g)
    ensures Size(g) == 0 ==> r == Ok(map[])
    ensures Size(g) == 1 ==> r.Ok? && forall n :: n in r.value ==> r.value[n] == 2
    ensures r.Ok? ==> r.value.Keys == g.atoms.Keys && AllPrime(r.value)
    ensures Size(g) <= TableSize ==> r.Ok?
  {
    if Size(g) == 0 then Ok(map[])
    else if Size(g) == 1 then Ok(map n | n in g.atoms :: 2)
    else
      var params := Params(g, acode, bcode);
      ValuesCardLe(params);
      match Primed(params, SigLt)
      case None => Err(PrimesExhausted)
      case Some(w) =>
        PrimedAllPrime(params, SigLt);
        RunMorgan(g, w)
  }
}
