/** `__compiled_query`: a query graph split into its connected components,
    each flattened into the depth-first order in which the matcher maps its
    atoms, plus the ring closures, the bonds the spanning tree of that order
    does not follow. */
module Queries {
  import opened Collections
  import opened Graphs
  import opened Ranking

  /** One step of a compiled order: the first atom of a component with its
      label `data`, or an atom reached from an earlier `parent` over a bond. */
  datatype Entry<A, B> =
    | Root(atom: Atom, data: A)
    | Link(atom: Atom, parent: Atom, data: A, bond: B)

  /** The closures defaultdict: for an atom, the earlier atoms of its
      component it is bonded to besides its parent, with the bond labels. */
  type Closures<B> = map<Atom, seq<(Atom, B)>>

  /** The atoms of an order, position by position. */
  function AtomsOf<A, B>(order: seq<Entry<A, B>>): (r: seq<Atom>)
    ensures |r| == |order| && forall i :: 0 <= i < |order| ==> r[i] == order[i].atom
  {
    seq(|order|, i requires 0 <= i < |order| => order[i].atom)
  }

  /** `closures[n]`: a missing key reads as an empty list. */
  function ClosuresOf<B>(closures: Closures<B>, n: Atom): seq<(Atom, B)> {
    if n in closures then closures[n] else []
  }

  /** The atoms of a closure list. */
  function Firsts<B>(c: seq<(Atom, B)>): (r: seq<Atom>)
    ensures |r| == |c| && forall i :: 0 <= i < |c| ==> r[i] == c[i].0
  {
    seq(|c|, i requires 0 <= i < |c| => c[i].0)
  }

  /** The atoms of all components, component after component. */
  function Flat<A, B>(comps: seq<seq<Entry<A, B>>>): seq<Atom> {
    if comps == [] then [] else Flat(comps[..|comps| - 1]) + AtomsOf(comps[|comps| - 1])
  }

  /** The shape the matcher relies on: a component starts with its root,
      lists each atom once, reaches every later atom from an earlier parent,
      and closes rings only to earlier atoms. */
  ghost predicate Compiled<A, B>(order: seq<Entry<A, B>>, closures: Closures<B>) {
    && order != [] && order[0].Root?
    && Distinct(AtomsOf(order))
    && (forall k :: 1 <= k < |order| ==> LinksBack(order, k))
    && (forall k :: 0 <= k < |order| ==> ClosesBack(order, closures, k))
  }

  /** The `k`-th entry is reached from an atom placed before it. */
  ghost predicate LinksBack<A, B>(order: seq<Entry<A, B>>, k: nat)
    requires k < |order|
  {
    order[k].Link? && order[k].parent in AtomsOf(order)[..k]
  }

  /** The `k`-th entry closes rings only to atoms placed before it. */
  ghost predicate ClosesBack<A, B>(order: seq<Entry<A, B>>, closures: Closures<B>, k: nat)
    requires k < |order|
  {
    forall m :: m in Firsts(ClosuresOf(closures, order[k].atom)) ==> m in AtomsOf(order)[..k]
  }

  /** Every entry is an atom of `q` with its label, and every link follows a
      bond of `q` with its label. */
  ghost predicate TreeOrdered<A, B>(q: Graph<A, B>, order: seq<Entry<A, B>>) {
    && (forall k :: 0 <= k < |order| ==> order[k].atom in q.atoms && order[k].data == q.atoms[order[k].atom])
    && (forall k :: 0 <= k < |order| && order[k].Link? ==>
          HasEdge(q, order[k].parent, order[k].atom) && order[k].bond == q.bonds[order[k].parent][order[k].atom])
  }

  /** Every closure is a bond of `q` with its label. */
  ghost predicate ClosuresFollowBonds<A, B>(q: Graph<A, B>, order: seq<Entry<A, B>>, closures: Closures<B>) {
    forall k, j :: 0 <= k < |order| && 0 <= j < |ClosuresOf(closures, order[k].atom)| ==>
      ClosureIsBond(q, order[k].atom, ClosuresOf(closures, order[k].atom)[j])
  }

  ghost predicate ClosureIsBond<A, B>(q: Graph<A, B>, n: Atom, c: (Atom, B)) {
    HasEdge(q, n, c.0) && c.1 == q.bonds[n][c.0]
  }

  /** Every bond of `q` inside the component is used exactly once: as the
      link of its later atom to its parent, or else as one of that atom's
      closures, each listed once. */
  ghost predicate EdgesAccounted<A, B>(q: Graph<A, B>, order: seq<Entry<A, B>>, closures: Closures<B>) {
    && (forall k :: 0 <= k < |order| ==> Distinct(Firsts(ClosuresOf(closures, order[k].atom))))
    && (forall i, k :: 0 <= i < k < |order| && HasEdge(q, order[k].atom, order[i].atom) ==>
          IsParent(order[k], order[i].atom) != (order[i].atom in Firsts(ClosuresOf(closures, order[k].atom))))
  }

  predicate IsParent<A, B>(e: Entry<A, B>, n: Atom) {
    e.Link? && e.parent == n
  }

  /** No bond leaves the component. */
  ghost predicate ComponentClosed<A, B>(q: Graph<A, B>, order: seq<Entry<A, B>>) {
    forall k, v :: 0 <= k < |order| && HasEdge(q, order[k].atom, v) ==> v in AtomsOf(order)
  }

  /** What a compiled component promises about the query it comes from. */
  ghost predicate ComponentOk<A, B>(q: Graph<A, B>, order: seq<Entry<A, B>>, closures: Closures<B>) {
    && Compiled(order, closures)
    && TreeOrdered(q, order)
    && ClosuresFollowBonds(q, order, closures)
    && EdgesAccounted(q, order, closures)
    && ComponentClosed(q, order)
  }

  /** The components list every atom of `q` exactly once. */
  ghost predicate Partition<A, B>(q: Graph<A, B>, comps: seq<seq<Entry<A, B>>>) {
    && Distinct(Flat(comps))
    && (forall x :: x in Flat(comps) <==> x in q.atoms)
  }

  /** Each component starts at an atom of highest rank among those no
      earlier component holds. */
  ghost predicate RootsMaximal<A, B>(q: Graph<A, B>, rank: map<Atom, nat>, comps: seq<seq<Entry<A, B>>>) {
    forall i, x :: 0 <= i < |comps| && x in q.atoms && x !in Flat(comps[..i]) ==>
      comps[i] != [] && comps[i][0].atom in rank && x in rank && rank[x] <= rank[comps[i][0].atom]
  }

  /** No bond of `q` leaves `s`. */
  ghost predicate Closed<A, B>(q: Graph<A, B>, s: set<Atom>) {
    forall u, v :: u in s && HasEdge(q, u, v) ==> v in s
  }

  /** An atom bonded to a closed set lies in it. */
  lemma ClosedBack<A, B>(q: Graph<A, B>, s: set<Atom>, u: Atom, v: Atom)
    requires Closed(q, s) && SymmetricRows(q.bonds)
    requires HasEdge(q, u, v) && v in s
    ensures u in s
  {
    EdgeSymmetric(q, u, v);
    assert HasEdge(q, v, u);
  }

  /** The bond from `front` to `n` and its label, as a stack entry. */
  function LinkTo<A, B>(q: Graph<A, B>, front: Atom, n: Atom): Entry<A, B>
    requires n in q.atoms && front in q.bonds && n in q.bonds[front]
  {
    Link(n, front, q.atoms[n], q.bonds[front][n])
  }

  /** The neighbours `ns` of `front`, reached from `back`, split as the
      placing loop splits them: unseen atoms become stack entries, seen
      ones closures; `back` itself is skipped. */
  function Scan<A, B>(q: Graph<A, B>, front: Atom, back: Atom, seen: set<Atom>, ns: seq<Atom>): (r: (seq<Entry<A, B>>, seq<(Atom, B)>))
    requires front in q.bonds && forall n :: n in ns ==> n in q.bonds[front] && n in q.atoms
    ensures forall i :: 0 <= i < |r.0| ==> r.0[i].atom in ns && r.0[i].atom != back && r.0[i].atom !in seen && r.0[i] == LinkTo(q, front, r.0[i].atom)
    ensures forall n :: n in ns && n != back && n !in seen ==> n in AtomsOf(r.0)
    ensures forall j :: 0 <= j < |r.1| ==> r.1[j].0 in ns && r.1[j].0 != back && r.1[j].0 in seen && r.1[j].1 == q.bonds[front][r.1[j].0]
    ensures forall n :: n in ns && n != back && n in seen ==> n in Firsts(r.1)
    ensures Distinct(ns) ==> Distinct(Firsts(r.1))
  {
    if ns == [] then ([], [])
    else
      var init := ns[..|ns| - 1];
      var n := ns[|ns| - 1];
      assert forall x :: x in ns ==> x in init || x == n;
      var (ps, cs) := Scan(q, front, back, seen, init);
      if n == back then (ps, cs)
      else if n !in seen then
        var ps' := ps + [LinkTo(q, front, n)];
        assert AtomsOf(ps') == AtomsOf(ps) + [n];
        (ps', cs)
      else
        var cs' := cs + [(n, q.bonds[front][n])];
        assert Firsts(cs') == Firsts(cs) + [n];
        (ps, cs')
  }

  lemma RankOrder(rank: map<Atom, nat>, s: set<Atom>)
    requires s <= rank.Keys
    ensures StrictOrderOn(IntLt, rank, s)
  {
    forall a, b, c | a in s && b in s && c in s ensures ChainAt(IntLt, rank, a, b, c) {
    }
  }

  /** `__compiled_query`: components in the order the outer loop finds
      them, each starting at a highest-ranked atom not yet seen. Among equal
      ranks, and among neighbours of equal rank, the pick is left open. */
  method Compile<A, B>(q: Graph<A, B>, rank: map<Atom, nat>) returns (comps: seq<seq<Entry<A, B>>>, closures: Closures<B>)
    requires WellFormed(q) && rank.Keys == q.atoms.Keys
    ensures Partition(q, comps)
    ensures forall i :: 0 <= i < |comps| ==> ComponentOk(q, comps[i], closures)
    ensures RootsMaximal(q, rank, comps)
    ensures closures.Keys <= q.atoms.Keys
  {
    closures := map[];
    comps := [];
    var seen: set<Atom> := {};
    while |seen| < |q.atoms|
      invariant forall x :: x in seen <==> x in Flat(comps)
      invariant Distinct(Flat(comps))
      invariant seen <= q.atoms.Keys
      invariant Closed(q, seen)
      invariant closures.Keys <= seen
      invariant forall i :: 0 <= i < |comps| ==> ComponentOk(q, comps[i], closures)
      invariant RootsMaximal(q, rank, comps)
      decreases |q.atoms| - |seen|
    {
      var rest := q.atoms.Keys - seen;
      ghost var missing := Pick(q.atoms.Keys - seen) by {
        if q.atoms.Keys - seen == {} {
          SubsetCard(q.atoms.Keys, seen);
        }
      }
      var above := (a: nat, b: nat) => b < a;
      assert StrictOrderOn(above, rank, rest) by {
        forall a, b, c | a in rest && b in rest && c in rest ensures ChainAt(above, rank, a, b, c) {
        }
      }
      ghost var top := MinimalExists(above, rank, rest);
      var start :| start in rest && forall y :: y in rest ==> rank[y] <= rank[start];
      var order, closures' := Explore(q, rank, seen, start, closures);
      ghost var comps0, closures0, seen0 := comps, closures, seen;
      comps := comps + [order];
      closures := closures';
      seen := seen + Elements(AtomsOf(order));
      KeepFlat(comps0, order, seen0);
      KeepComponents(q, comps0, order, closures0, closures, seen0);
      KeepRoots(q, rank, comps0, order, seen0, start);
      ProperSubsetCard(seen0, seen, start);
      SubsetCard(seen, q.atoms.Keys);
    }
    forall x | x in q.atoms ensures x in seen {
      if x !in seen {
        ProperSubsetCard(seen, q.atoms.Keys, x);
      }
    }
  }

  /** Appending a component with fresh atoms keeps the flattened list
      free of repetitions. */
  lemma KeepFlat<A, B>(comps: seq<seq<Entry<A, B>>>, order: seq<Entry<A, B>>, seen: set<Atom>)
    requires forall x :: x in seen <==> x in Flat(comps)
    requires Distinct(Flat(comps)) && Distinct(AtomsOf(order))
    requires forall k :: 0 <= k < |order| ==> order[k].atom !in seen
    ensures forall x :: x in seen + Elements(AtomsOf(order)) <==> x in Flat(comps + [order])
    ensures Distinct(Flat(comps + [order]))
  {
    assert (comps + [order])[..|comps|] == comps;
    assert Flat(comps + [order]) == Flat(comps) + AtomsOf(order);
    DistinctConcat(Flat(comps), AtomsOf(order));
  }

  /** The earlier components keep their promises once a new one is added. */
  lemma KeepComponents<A, B>(q: Graph<A, B>, comps: seq<seq<Entry<A, B>>>, order: seq<Entry<A, B>>,
                             closures0: Closures<B>, closures: Closures<B>, seen: set<Atom>)
    requires forall x :: x in seen <==> x in Flat(comps)
    requires forall i :: 0 <= i < |comps| ==> ComponentOk(q, comps[i], closures0)
    requires forall x :: x in seen ==> ClosuresOf(closures, x) == ClosuresOf(closures0, x)
    requires ComponentOk(q, order, closures)
    ensures forall i :: 0 <= i < |comps + [order]| ==> ComponentOk(q, (comps + [order])[i], closures)
  {
    forall i | 0 <= i < |comps + [order]| ensures ComponentOk(q, (comps + [order])[i], closures) {
      if i < |comps| {
        assert (comps + [order])[i] == comps[i];
        forall k | 0 <= k < |comps[i]| ensures ClosuresOf(closures, comps[i][k].atom) == ClosuresOf(closures0, comps[i][k].atom) {
          assert comps[i][k].atom in AtomsOf(comps[i]);
          FlatHolds(comps, i, comps[i][k].atom);
        }
        SameClosures(q, comps[i], closures0, closures);
      }
    }
  }

  /** The new component starts at a highest-ranked atom outside the earlier
      ones. */
  lemma KeepRoots<A, B>(q: Graph<A, B>, rank: map<Atom, nat>, comps: seq<seq<Entry<A, B>>>, order: seq<Entry<A, B>>,
                        seen: set<Atom>, start: Atom)
    requires rank.Keys == q.atoms.Keys
    requires forall x :: x in seen <==> x in Flat(comps)
    requires RootsMaximal(q, rank, comps)
    requires order != [] && order[0].atom == start && start in q.atoms
    requires forall y :: y in q.atoms.Keys - seen ==> rank[y] <= rank[start]
    ensures RootsMaximal(q, rank, comps + [order])
  {
    var comps' := comps + [order];
    forall i, x | 0 <= i < |comps'| && x in q.atoms && x !in Flat(comps'[..i])
      ensures comps'[i] != [] && comps'[i][0].atom in rank && x in rank && rank[x] <= rank[comps'[i][0].atom]
    {
      if i < |comps| {
        assert comps'[..i] == comps[..i];
        assert comps'[i] == comps[i];
      } else {
        assert comps'[..i] == comps;
        assert x in q.atoms.Keys - seen;
      }
    }
  }

  /** An atom of a component is an atom of the flattened list. */
  lemma {:induction false} FlatHolds<A, B>(comps: seq<seq<Entry<A, B>>>, i: int, x: Atom)
    requires 0 <= i < |comps| && x in AtomsOf(comps[i])
    ensures x in Flat(comps)
  {
    if i < |comps| - 1 {
      FlatHolds(comps[..|comps| - 1], i, x);
    }
  }

  /** A component's promises hold under any closure map that agrees on its
      atoms. */
  lemma SameClosures<A, B>(q: Graph<A, B>, order: seq<Entry<A, B>>, c1: Closures<B>, c2: Closures<B>)
    requires ComponentOk(q, order, c1)
    requires forall k :: 0 <= k < |order| ==> ClosuresOf(c2, order[k].atom) == ClosuresOf(c1, order[k].atom)
    ensures ComponentOk(q, order, c2)
  {
    forall k | 0 <= k < |order| ensures ClosesBack(order, c2, k) {
      assert ClosesBack(order, c1, k);
      assert Firsts(ClosuresOf(c2, order[k].atom)) == Firsts(ClosuresOf(c1, order[k].atom));
    }
    forall i, k | 0 <= i < k < |order| && HasEdge(q, order[k].atom, order[i].atom)
      ensures IsParent(order[k], order[i].atom) != (order[i].atom in Firsts(ClosuresOf(c2, order[k].atom)))
    {
      assert Firsts(ClosuresOf(c2, order[k].atom)) == Firsts(ClosuresOf(c1, order[k].atom));
    }
    forall k | 0 <= k < |order| ensures Distinct(Firsts(ClosuresOf(c2, order[k].atom))) {
      assert Firsts(ClosuresOf(c2, order[k].atom)) == Firsts(ClosuresOf(c1, order[k].atom));
    }
  }

  /** The inner loop's state while a component is explored from `start`:
      `seen` is the earlier components plus `order`, the closure lists of
      earlier components are untouched, and every bond out of `order` leads
      into `order` or to an atom on the stack. */
  ghost predicate Exploring<A, B>(q: Graph<A, B>, seen0: set<Atom>, seen: set<Atom>, order: seq<Entry<A, B>>,
                                  stack: seq<Entry<A, B>>, closures0: Closures<B>, closures: Closures<B>) {
    && (forall x :: x in seen <==> x in seen0 || x in AtomsOf(order))
    && (forall k :: 0 <= k < |order| ==> order[k].atom !in seen0)
    && seen <= q.atoms.Keys
    && Compiled(order, closures)
    && TreeOrdered(q, order)
    && ClosuresFollowBonds(q, order, closures)
    && EdgesAccounted(q, order, closures)
    && closures.Keys <= seen
    && (forall x :: x in seen0 ==> ClosuresOf(closures, x) == ClosuresOf(closures0, x))
    && StackLinks(q, order, stack)
    && Frontier(q, order, stack)
  }

  /** Every stack entry is a bond from an atom already placed. */
  ghost predicate StackLinks<A, B>(q: Graph<A, B>, order: seq<Entry<A, B>>, stack: seq<Entry<A, B>>) {
    forall i :: 0 <= i < |stack| ==>
      && stack[i].Link?
      && stack[i].parent in AtomsOf(order)
      && stack[i].atom in q.atoms
      && LinkedFrom(q, stack[i])
  }

  ghost predicate LinkedFrom<A, B>(q: Graph<A, B>, e: Entry<A, B>)
    requires e.Link? && e.atom in q.atoms
  {
    e.parent in q.bonds && e.atom in q.bonds[e.parent] && e == LinkTo(q, e.parent, e.atom)
  }

  ghost predicate Frontier<A, B>(q: Graph<A, B>, order: seq<Entry<A, B>>, stack: seq<Entry<A, B>>) {
    forall k, v :: 0 <= k < |order| && HasEdge(q, order[k].atom, v) ==> v in AtomsOf(order) || v in AtomsOf(stack)
  }

  /** One component: the depth-first walk from `start` over atoms outside
      `seen0`, appending each atom when it is first popped. */
  method Explore<A, B>(q: Graph<A, B>, rank: map<Atom, nat>, seen0: set<Atom>, start: Atom, closures0: Closures<B>)
    returns (order: seq<Entry<A, B>>, closures: Closures<B>)
    requires WellFormed(q) && rank.Keys == q.atoms.Keys
    requires seen0 <= q.atoms.Keys && start in q.atoms && start !in seen0
    requires Closed(q, seen0) && closures0.Keys <= seen0
    ensures ComponentOk(q, order, closures)
    ensures order[0] == Root(start, q.atoms[start])
    ensures forall k :: 0 <= k < |order| ==> order[k].atom !in seen0
    ensures seen0 + Elements(AtomsOf(order)) <= q.atoms.Keys
    ensures Closed(q, seen0 + Elements(AtomsOf(order)))
    ensures closures.Keys <= seen0 + Elements(AtomsOf(order))
    ensures forall x :: x in seen0 ==> ClosuresOf(closures, x) == ClosuresOf(closures0, x)
  {
    var seen := seen0 + {start};
    RowInAtoms(q, start);
    RankOrder(rank, q.bonds[start].Keys);
    var ns := SortByKey(q.bonds[start].Keys, rank, IntLt);
    var stack := seq(|ns|, i requires 0 <= i < |ns| => LinkTo(q, start, ns[i]));
    order := [Root(start, q.atoms[start])];
    closures := closures0;
    StartExploring(q, seen0, start, ns, stack, closures0);
    while stack != []
      invariant Exploring(q, seen0, seen, order, stack, closures0, closures)
      invariant order != [] && order[0] == Root(start, q.atoms[start])
      decreases |q.atoms| - |seen|, |stack|
    {
      var top := stack[|stack| - 1];
      SplitLast(stack);
      stack := stack[..|stack| - 1];
      TopFacts(q, order, stack, top);
      var front, back := top.atom, top.parent;
      if front !in seen {
        RowInAtoms(q, front);
        RankOrder(rank, q.bonds[front].Keys);
        var fn := SortByKey(q.bonds[front].Keys, rank, IntLt);
        var (pushes, cl) := Scan(q, front, back, seen, fn);
        ghost var seenBefore, orderBefore, stackBefore, closuresBefore := seen, order, stack, closures;
        order := order + [top];
        stack := stack + pushes;
        if cl != [] {
          closures := closures[front := cl];
        }
        PlaceStep(q, seen0, seenBefore, orderBefore, stackBefore, top, fn, pushes, cl, closures0, closuresBefore, closures);
        seen := seen + {front};
        ProperSubsetCard(seenBefore, seen, front);
        SubsetCard(seen, q.atoms.Keys);
      } else {
        SkipStep(q, seen0, seen, order, stack, top, closures0, closures);
      }
    }
    FinishExploring(q, seen0, seen, order, closures);
  }

  /** The state before the first pop. */
  lemma StartExploring<A, B>(q: Graph<A, B>, seen0: set<Atom>, start: Atom, ns: seq<Atom>,
                             stack: seq<Entry<A, B>>, closures0: Closures<B>)
    requires WellFormed(q) && seen0 <= q.atoms.Keys && start in q.atoms && start !in seen0
    requires closures0.Keys <= seen0 && Closed(q, seen0)
    requires forall x :: x in ns <==> x in q.bonds[start]
    requires |stack| == |ns| && forall i :: 0 <= i < |ns| ==> ns[i] in q.atoms && stack[i] == LinkTo(q, start, ns[i])
    ensures Exploring(q, seen0, seen0 + {start}, [Root(start, q.atoms[start])], stack, closures0, closures0)
  {
    var order: seq<Entry<A, B>> := [Root(start, q.atoms[start])];
    assert AtomsOf(order) == [start];
    assert ClosuresOf(closures0, start) == [];
    forall k, v | 0 <= k < |order| && HasEdge(q, order[k].atom, v) ensures v in AtomsOf(order) || v in AtomsOf(stack) {
      var i := IndexOf(ns, v);
      assert AtomsOf(stack)[i] == v;
    }
  }

  /** The popped entry is a link from a placed atom. */
  lemma TopFacts<A, B>(q: Graph<A, B>, order: seq<Entry<A, B>>, stack: seq<Entry<A, B>>, top: Entry<A, B>)
    requires StackLinks(q, order, stack + [top])
    ensures top.Link? && top.atom in q.atoms && top.parent in AtomsOf(order)
    ensures top.parent in q.bonds && top.atom in q.bonds[top.parent] && top == LinkTo(q, top.parent, top.atom)
  {
    assert (stack + [top])[|stack|] == top;
  }

  /** Popping an atom already seen changes nothing but the stack. */
  lemma SkipStep<A, B>(q: Graph<A, B>, seen0: set<Atom>, seen: set<Atom>, order: seq<Entry<A, B>>,
                       stack: seq<Entry<A, B>>, top: Entry<A, B>, closures0: Closures<B>, closures: Closures<B>)
    requires WellFormed(q) && Closed(q, seen0)
    requires Exploring(q, seen0, seen, order, stack + [top], closures0, closures)
    requires top.atom in seen
    ensures Exploring(q, seen0, seen, order, stack, closures0, closures)
  {
    var full := stack + [top];
    assert forall i :: 0 <= i < |stack| ==> full[i] == stack[i];
    forall k, v | 0 <= k < |order| && HasEdge(q, order[k].atom, v) ensures v in AtomsOf(order) || v in AtomsOf(stack) {
      assert v in AtomsOf(order) || v in AtomsOf(full);
      if v !in AtomsOf(order) {
        var i := IndexOf(AtomsOf(full), v);
        if i == |stack| {
          assert v == top.atom;
          if v in seen0 {
            assert HasEdge(q, v, order[k].atom);
            assert false;
          }
        } else {
          assert AtomsOf(stack)[i] == v;
        }
      }
    }
  }

  /** Placing a popped atom not yet seen: it joins the order, its unseen
      neighbours go on the stack and its seen ones, bar the parent, become
      its closures. */
  lemma PlaceStep<A, B>(q: Graph<A, B>, seen0: set<Atom>, seen: set<Atom>, order: seq<Entry<A, B>>,
                        stack: seq<Entry<A, B>>, top: Entry<A, B>, fn: seq<Atom>, pushes: seq<Entry<A, B>>, cl: seq<(Atom, B)>,
                        closures0: Closures<B>, closures: Closures<B>, closures': Closures<B>)
    requires WellFormed(q) && Closed(q, seen0)
    requires Exploring(q, seen0, seen, order, stack + [top], closures0, closures)
    requires top.Link? && top.atom !in seen && top.atom in q.bonds
    requires Distinct(fn) && forall x :: x in fn <==> x in q.bonds[top.atom]
    requires forall x :: x in fn ==> x in q.atoms
    requires (pushes, cl) == Scan(q, top.atom, top.parent, seen, fn)
    requires closures' == if cl != [] then closures[top.atom := cl] else closures
    ensures Exploring(q, seen0, seen + {top.atom}, order + [top], stack + pushes, closures0, closures')
  {
    TopFacts(q, order, stack, top);
    var front, back := top.atom, top.parent;
    assert front !in AtomsOf(order);
    PlaceClosureMap(closures, front, cl, seen, closures');
    assert forall k :: 0 <= k < |order| ==> ClosuresOf(closures', order[k].atom) == ClosuresOf(closures, order[k].atom);
    PlaceCompiled(q, seen0, seen, order, top, cl, closures, closures');
    PlaceAccounted(q, seen0, seen, order, top, fn, cl, closures, closures');
    PlaceTree(q, order, top);
    PlaceStack(q, seen0, seen, order, stack, top, pushes);
    PlaceFrontier(q, seen0, seen, order, stack, top, fn, pushes);
    PlaceSeen(seen0, seen, order, top);
    assert seen + {front} <= q.atoms.Keys;
    assert forall x :: x in seen0 ==> x != front && ClosuresOf(closures', x) == ClosuresOf(closures0, x);
  }

  /** Only the placed atom's closure list changes. */
  lemma PlaceClosureMap<B>(closures: Closures<B>, front: Atom, cl: seq<(Atom, B)>, seen: set<Atom>, closures': Closures<B>)
    requires closures.Keys <= seen && front !in seen
    requires closures' == if cl != [] then closures[front := cl] else closures
    ensures ClosuresOf(closures', front) == cl
    ensures forall x :: x != front ==> ClosuresOf(closures', x) == ClosuresOf(closures, x)
    ensures closures'.Keys <= seen + {front}
  {
  }

  lemma PlaceTree<A, B>(q: Graph<A, B>, order: seq<Entry<A, B>>, top: Entry<A, B>)
    requires TreeOrdered(q, order)
    requires top.Link? && top.atom in q.atoms && top.parent in q.bonds && top.atom in q.bonds[top.parent]
    requires top == LinkTo(q, top.parent, top.atom)
    ensures TreeOrdered(q, order + [top])
  {
    var order' := order + [top];
    forall k | 0 <= k < |order'| ensures order'[k].atom in q.atoms && order'[k].data == q.atoms[order'[k].atom] {
      if k < |order| {
        assert order'[k] == order[k];
      }
    }
    forall k | 0 <= k < |order'| && order'[k].Link?
      ensures HasEdge(q, order'[k].parent, order'[k].atom) && order'[k].bond == q.bonds[order'[k].parent][order'[k].atom]
    {
      if k < |order| {
        assert order'[k] == order[k];
      }
    }
  }

  lemma PlaceSeen<A, B>(seen0: set<Atom>, seen: set<Atom>, order: seq<Entry<A, B>>, top: Entry<A, B>)
    requires forall x :: x in seen <==> x in seen0 || x in AtomsOf(order)
    requires forall k :: 0 <= k < |order| ==> order[k].atom !in seen0
    requires top.atom !in seen0
    ensures forall x :: x in seen + {top.atom} <==> x in seen0 || x in AtomsOf(order + [top])
    ensures forall k :: 0 <= k < |order + [top]| ==> (order + [top])[k].atom !in seen0
  {
    assert AtomsOf(order + [top]) == AtomsOf(order) + [top.atom];
    forall k | 0 <= k < |order + [top]| ensures (order + [top])[k].atom !in seen0 {
      if k < |order| {
        assert (order + [top])[k] == order[k];
      }
    }
  }

  lemma PlaceCompiled<A, B>(q: Graph<A, B>, seen0: set<Atom>, seen: set<Atom>, order: seq<Entry<A, B>>,
                            top: Entry<A, B>, cl: seq<(Atom, B)>, closures: Closures<B>, closures': Closures<B>)
    requires SymmetricRows(q.bonds) && Closed(q, seen0)
    requires (forall x :: x in seen <==> x in seen0 || x in AtomsOf(order))
    requires Compiled(order, closures) && top.Link? && top.parent in AtomsOf(order) && top.atom !in seen
    requires forall j :: 0 <= j < |cl| ==> cl[j].0 in seen && HasEdge(q, top.atom, cl[j].0)
    requires forall k :: 0 <= k < |order| ==> order[k].atom !in seen0
    requires ClosuresOf(closures', top.atom) == cl
    requires forall k :: 0 <= k < |order| ==> ClosuresOf(closures', order[k].atom) == ClosuresOf(closures, order[k].atom)
    ensures Compiled(order + [top], closures')
  {
    var order' := order + [top];
    assert AtomsOf(order') == AtomsOf(order) + [top.atom];
    assert AtomsOf(order')[..|order|] == AtomsOf(order);
    DistinctConcat(AtomsOf(order), [top.atom]);
    forall k | 1 <= k < |order'| ensures LinksBack(order', k) {
      if k < |order| {
        assert LinksBack(order, k);
        assert AtomsOf(order')[..k] == AtomsOf(order)[..k];
      }
    }
    PlaceClosureAtoms(q, seen0, seen, order, top, cl, closures, closures');
  }

  lemma PlaceClosureAtoms<A, B>(q: Graph<A, B>, seen0: set<Atom>, seen: set<Atom>, order: seq<Entry<A, B>>,
                                top: Entry<A, B>, cl: seq<(Atom, B)>, closures: Closures<B>, closures': Closures<B>)
    requires SymmetricRows(q.bonds) && Closed(q, seen0)
    requires (forall x :: x in seen <==> x in seen0 || x in AtomsOf(order))
    requires Compiled(order, closures) && top.atom !in seen
    requires forall j :: 0 <= j < |cl| ==> cl[j].0 in seen && HasEdge(q, top.atom, cl[j].0)
    requires ClosuresOf(closures', top.atom) == cl
    requires forall k :: 0 <= k < |order| ==> ClosuresOf(closures', order[k].atom) == ClosuresOf(closures, order[k].atom)
    ensures forall k :: 0 <= k < |order + [top]| ==> ClosesBack(order + [top], closures', k)
  {
    var order' := order + [top];
    assert AtomsOf(order') == AtomsOf(order) + [top.atom];
    forall k, m | 0 <= k < |order'| && m in Firsts(ClosuresOf(closures', order'[k].atom)) ensures m in AtomsOf(order')[..k] {
      if k < |order| {
        assert ClosesBack(order, closures, k);
        assert AtomsOf(order')[..k] == AtomsOf(order)[..k];
        assert order'[k] == order[k];
      } else {
        assert AtomsOf(order')[..k] == AtomsOf(order);
        var j := IndexOf(Firsts(cl), m);
        assert cl[j].0 == m;
        if m in seen0 {
          ClosedBack(q, seen0, top.atom, m);
        }
      }
    }
  }

  lemma PlaceAccounted<A, B>(q: Graph<A, B>, seen0: set<Atom>, seen: set<Atom>, order: seq<Entry<A, B>>,
                             top: Entry<A, B>, fn: seq<Atom>, cl: seq<(Atom, B)>, closures: Closures<B>, closures': Closures<B>)
    requires WellFormed(q) && Closed(q, seen0)
    requires (forall x :: x in seen <==> x in seen0 || x in AtomsOf(order))
    requires ClosuresFollowBonds(q, order, closures) && EdgesAccounted(q, order, closures)
    requires top.Link? && top.atom !in seen && top.atom in q.bonds && top.parent in AtomsOf(order)
    requires forall k :: 0 <= k < |order| ==> order[k].atom !in seen0
    requires Distinct(fn) && forall x :: x in fn <==> x in q.bonds[top.atom]
    requires forall x :: x in fn ==> x in q.atoms
    requires cl == Scan(q, top.atom, top.parent, seen, fn).1
    requires ClosuresOf(closures', top.atom) == cl
    requires forall k :: 0 <= k < |order| ==> ClosuresOf(closures', order[k].atom) == ClosuresOf(closures, order[k].atom)
    ensures ClosuresFollowBonds(q, order + [top], closures')
    ensures EdgesAccounted(q, order + [top], closures')
  {
    PlaceFollow(q, order, top, cl, closures, closures');
    PlaceDistinct(order, top, cl, closures, closures');
    PlaceOnce(q, seen0, seen, order, top, fn, cl, closures, closures');
  }

  /** The placed atom's closures, and everyone else's, are bonds. */
  lemma PlaceFollow<A, B>(q: Graph<A, B>, order: seq<Entry<A, B>>, top: Entry<A, B>, cl: seq<(Atom, B)>,
                          closures: Closures<B>, closures': Closures<B>)
    requires ClosuresFollowBonds(q, order, closures) && top.atom in q.bonds
    requires forall j :: 0 <= j < |cl| ==> cl[j].0 in q.bonds[top.atom] && cl[j].1 == q.bonds[top.atom][cl[j].0]
    requires ClosuresOf(closures', top.atom) == cl
    requires forall k :: 0 <= k < |order| ==> ClosuresOf(closures', order[k].atom) == ClosuresOf(closures, order[k].atom)
    ensures ClosuresFollowBonds(q, order + [top], closures')
  {
    var order' := order + [top];
    forall k, j | 0 <= k < |order'| && 0 <= j < |ClosuresOf(closures', order'[k].atom)|
      ensures ClosureIsBond(q, order'[k].atom, ClosuresOf(closures', order'[k].atom)[j])
    {
      if k < |order| {
        assert order'[k] == order[k];
      }
    }
  }

  /** No closure is listed twice for one atom. */
  lemma PlaceDistinct<A, B>(order: seq<Entry<A, B>>, top: Entry<A, B>, cl: seq<(Atom, B)>, closures: Closures<B>, closures': Closures<B>)
    requires forall k :: 0 <= k < |order| ==> Distinct(Firsts(ClosuresOf(closures, order[k].atom)))
    requires Distinct(Firsts(cl)) && ClosuresOf(closures', top.atom) == cl
    requires forall k :: 0 <= k < |order| ==> ClosuresOf(closures', order[k].atom) == ClosuresOf(closures, order[k].atom)
    ensures forall k :: 0 <= k < |order + [top]| ==> Distinct(Firsts(ClosuresOf(closures', (order + [top])[k].atom)))
  {
    var order' := order + [top];
    forall k | 0 <= k < |order'| ensures Distinct(Firsts(ClosuresOf(closures', order'[k].atom))) {
      if k < |order| {
        assert order'[k] == order[k];
      }
    }
  }

  /** A bond from the placed atom back into the order is its link or one
      of its closures, never both. */
  lemma PlaceOnce<A, B>(q: Graph<A, B>, seen0: set<Atom>, seen: set<Atom>, order: seq<Entry<A, B>>,
                        top: Entry<A, B>, fn: seq<Atom>, cl: seq<(Atom, B)>, closures: Closures<B>, closures': Closures<B>)
    requires (forall x :: x in seen <==> x in seen0 || x in AtomsOf(order))
    requires EdgesAccounted(q, order, closures)
    requires top.Link? && top.atom in q.bonds
    requires forall x :: x in fn <==> x in q.bonds[top.atom]
    requires forall j :: 0 <= j < |cl| ==> cl[j].0 != top.parent
    requires forall n :: n in fn && n != top.parent && n in seen ==> n in Firsts(cl)
    requires ClosuresOf(closures', top.atom) == cl
    requires forall k :: 0 <= k < |order| ==> ClosuresOf(closures', order[k].atom) == ClosuresOf(closures, order[k].atom)
    ensures forall i, k :: 0 <= i < k < |order + [top]| && HasEdge(q, (order + [top])[k].atom, (order + [top])[i].atom) ==>
      IsParent((order + [top])[k], (order + [top])[i].atom) != ((order + [top])[i].atom in Firsts(ClosuresOf(closures', (order + [top])[k].atom)))
  {
    var order' := order + [top];
    forall i, k | 0 <= i < k < |order'| && HasEdge(q, order'[k].atom, order'[i].atom)
      ensures IsParent(order'[k], order'[i].atom) != (order'[i].atom in Firsts(ClosuresOf(closures', order'[k].atom)))
    {
      if k < |order| {
        assert order'[k] == order[k] && order'[i] == order[i];
      } else {
        var u := order'[i].atom;
        assert order'[i] == order[i] && order'[k] == top;
        assert u in AtomsOf(order);
        assert u in seen && u in fn;
        if u == top.parent {
          assert forall j :: 0 <= j < |cl| ==> Firsts(cl)[j] != u;
        } else {
          assert u in Firsts(cl);
        }
      }
    }
  }

  lemma PlaceStack<A, B>(q: Graph<A, B>, seen0: set<Atom>, seen: set<Atom>, order: seq<Entry<A, B>>,
                         stack: seq<Entry<A, B>>, top: Entry<A, B>, pushes: seq<Entry<A, B>>)
    requires StackLinks(q, order, stack + [top])
    requires top.atom in q.bonds
    requires forall i :: 0 <= i < |pushes| ==> pushes[i].atom in q.atoms && pushes[i].atom in q.bonds[top.atom] && pushes[i] == LinkTo(q, top.atom, pushes[i].atom)
    ensures StackLinks(q, order + [top], stack + pushes)
  {
    var full := stack + [top];
    var order' := order + [top];
    assert AtomsOf(order') == AtomsOf(order) + [top.atom];
    forall i | 0 <= i < |stack + pushes|
      ensures (stack + pushes)[i].Link? && (stack + pushes)[i].parent in AtomsOf(order')
        && (stack + pushes)[i].atom in q.atoms && LinkedFrom(q, (stack + pushes)[i])
    {
      if i < |stack| {
        assert (stack + pushes)[i] == full[i];
      } else {
        assert (stack + pushes)[i] == pushes[i - |stack|];
      }
    }
  }

  lemma PlaceFrontier<A, B>(q: Graph<A, B>, seen0: set<Atom>, seen: set<Atom>, order: seq<Entry<A, B>>,
                            stack: seq<Entry<A, B>>, top: Entry<A, B>, fn: seq<Atom>, pushes: seq<Entry<A, B>>)
    requires WellFormed(q) && Closed(q, seen0)
    requires (forall x :: x in seen <==> x in seen0 || x in AtomsOf(order))
    requires Frontier(q, order, stack + [top])
    requires top.Link? && top.atom in q.bonds && top.parent in AtomsOf(order)
    requires forall k :: 0 <= k < |order| ==> order[k].atom !in seen0
    requires top.atom !in seen0
    requires forall x :: x in fn <==> x in q.bonds[top.atom]
    requires forall n :: n in fn && n != top.parent && n !in seen ==> n in AtomsOf(pushes)
    ensures Frontier(q, order + [top], stack + pushes)
  {
    var full := stack + [top];
    var order' := order + [top];
    var stack' := stack + pushes;
    assert AtomsOf(order') == AtomsOf(order) + [top.atom];
    assert AtomsOf(stack') == AtomsOf(stack) + AtomsOf(pushes);
    assert AtomsOf(full) == AtomsOf(stack) + [top.atom];
    forall k, v | 0 <= k < |order'| && HasEdge(q, order'[k].atom, v) ensures v in AtomsOf(order') || v in AtomsOf(stack') {
      if k < |order| {
        assert order'[k] == order[k];
        assert v in AtomsOf(order) || v in AtomsOf(full);
      } else {
        assert order'[k] == top && v in fn;
        if v != top.parent && v in seen {
          if v in seen0 {
            assert HasEdge(q, v, top.atom);
            assert false;
          }
        }
      }
    }
  }

  /** With the stack empty the component is closed under bonds. */
  lemma FinishExploring<A, B, K>(q: Graph<A, B>, seen0: set<Atom>, seen: set<Atom>, order: seq<Entry<A, B>>, closures: map<Atom, K>)
    requires Closed(q, seen0) && Frontier(q, order, [])
    requires forall x :: x in seen <==> x in seen0 || x in AtomsOf(order)
    requires closures.Keys <= seen <= q.atoms.Keys
    ensures ComponentClosed(q, order)
    ensures Closed(q, seen0 + Elements(AtomsOf(order)))
    ensures closures.Keys <= seen0 + Elements(AtomsOf(order)) <= q.atoms.Keys
  {
    var s := seen0 + Elements(AtomsOf(order));
    forall x | x in closures ensures x in s {
      assert x in seen;
    }
    forall x | x in s ensures x in q.atoms {
      assert x in seen;
    }
    forall u, v | u in s && HasEdge(q, u, v) ensures v in s {
      if u !in seen0 {
        var k := IndexOf(AtomsOf(order), u);
        assert HasEdge(q, order[k].atom, v);
        var none: seq<Entry<A, B>> := [];
        assert v in AtomsOf(order) || v in AtomsOf(none);
      }
    }
  }
}
