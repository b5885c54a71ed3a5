/** `get_mapping` and the comparisons built on it. The query is compiled
    into components; for every arrangement of the target's connected
    components, one per query component, each query component is searched
    for inside its target component, the per-component matches are combined
    tuple by tuple, and the automorphism filter keeps one match per set of
    target atoms. */
module Isomorphisms {
  import opened Collections
  import opened Graphs
  import opened Queries
  import opened Matching
  import opened Morgan
  import opened Itertools

  /** A query, a target with its connected components in the order
      `connected_components` lists them, and the label comparisons
      `query == target` for atoms and bonds. */
  datatype Problem<!QA, !QB, !TA, !TB> = Problem(
    query: Graph<QA, QB>,
    target: Graph<TA, TB>,
    components: seq<set<Atom>>,
    atomEq: (QA, TA) -> bool,
    bondEq: (QB, TB) -> bool)

  /** What `connected_components` guarantees: pairwise disjoint atom sets,
      none of them left by a bond. */
  ghost predicate TargetComponents<TA, TB>(o: Graph<TA, TB>, cs: seq<set<Atom>>) {
    && (forall i :: 0 <= i < |cs| ==> Closed(o, cs[i]))
    && (forall i, j :: 0 <= i < j < |cs| ==> cs[i] !! cs[j])
  }

  ghost predicate Posed<QA, QB, TA, TB>(p: Problem<QA, QB, TA, TB>) {
    WellFormed(p.query) && WellFormed(p.target) && TargetComponents(p.target, p.components)
  }

  /** The independent statement of a substructure match: `f` maps the query
      atoms one-to-one onto target atoms with equal labels and every query
      bond onto a target bond with an equal label. */
  ghost predicate IsEmbedding<QA, QB, TA, TB>(p: Problem<QA, QB, TA, TB>, f: map<Atom, Atom>) {
    && (forall x :: x in f <==> x in p.query.atoms)
    && (forall x, y :: x in f && y in f && x != y ==> f[x] != f[y])
    && (forall x :: x in f ==> f[x] in p.target.atoms && p.atomEq(p.query.atoms[x], p.target.atoms[f[x]]))
    && (forall x, y :: HasEdge(p.query, x, y) ==> EdgeKept(p, f, x, y))
  }

  ghost predicate EdgeKept<QA, QB, TA, TB>(p: Problem<QA, QB, TA, TB>, f: map<Atom, Atom>, x: Atom, y: Atom)
    requires HasEdge(p.query, x, y)
  {
    x in f && y in f && HasEdge(p.target, f[x], f[y]) && p.bondEq(p.query.bonds[x][y], p.target.bonds[f[x]][f[y]])
  }

  /** Some set of atoms that no bond leaves holds `x` but not `y`: the two
      lie in different connected components. */
  ghost predicate Separated<A, B>(q: Graph<A, B>, x: Atom, y: Atom) {
    exists s :: Closed(q, s) && x in s && y !in s
  }

  /** The shape of the matches `get_mapping` looks for: every image lies in
      a target component, and atoms of different query components land in
      different target components. */
  ghost predicate ComponentWise<QA, QB, TA, TB>(p: Problem<QA, QB, TA, TB>, f: map<Atom, Atom>) {
    && (forall x :: x in f ==> exists i :: 0 <= i < |p.components| && f[x] in p.components[i])
    && (forall x, y, i, j ::
          (x in f && y in f && Separated(p.query, x, y) && 0 <= i < |p.components| && 0 <= j < |p.components| &&
           f[x] in p.components[i] && f[y] in p.components[j]) ==> i != j)
  }

  ghost predicate Matches<QA, QB, TA, TB>(p: Problem<QA, QB, TA, TB>, f: map<Atom, Atom>) {
    IsEmbedding(p, f) && ComponentWise(p, f)
  }

  /** What `__compiled_query` provides (the contract of `Compile`). */
  ghost predicate Planned<QA, QB, TA, TB>(p: Problem<QA, QB, TA, TB>, comps: seq<seq<Entry<QA, QB>>>, closures: Closures<QB>) {
    Partition(p.query, comps) && forall a :: 0 <= a < |comps| ==> ComponentOk(p.query, comps[a], closures)
  }

  /** `__get_mapping(order, closures, other, component)` for query
      component `a` and the target component `c[a]` it is paired with. */
  function SearchAt<QA, QB, TA, TB>(p: Problem<QA, QB, TA, TB>, comps: seq<seq<Entry<QA, QB>>>, closures: Closures<QB>, c: seq<nat>, a: nat): Search<QA, QB, TA, TB>
    requires |c| == |comps| && a < |comps| && c[a] < |p.components|
  {
    Search(comps[a], closures, p.target, p.components[c[a]], p.atomEq, p.bondEq)
  }

  /** `c` is one of the tuples `permutations(other.connected_components,
      len(components))` yields, written as component positions. */
  ghost predicate Candidate<QA, QB, TA, TB>(p: Problem<QA, QB, TA, TB>, comps: seq<seq<Entry<QA, QB>>>, c: seq<nat>) {
    IsArrangement(Range(|p.components|), |comps|, c)
  }

  /** `c` names, for every query component, the target component that
      holds the image of its root. */
  ghost predicate Assigned<QA, QB, TA, TB>(p: Problem<QA, QB, TA, TB>, comps: seq<seq<Entry<QA, QB>>>, f: map<Atom, Atom>, c: seq<nat>) {
    && |c| == |comps|
    && forall a :: 0 <= a < |comps| ==>
         comps[a] != [] && comps[a][0].atom in f && c[a] < |p.components| && f[comps[a][0].atom] in p.components[c[a]]
  }

  lemma CandidateBounds<QA, QB, TA, TB>(p: Problem<QA, QB, TA, TB>, comps: seq<seq<Entry<QA, QB>>>, c: seq<nat>)
    requires Candidate(p, comps, c)
    ensures |c| == |comps| && Distinct(c) && forall a :: 0 <= a < |c| ==> c[a] < |p.components|
  {
    forall a | 0 <= a < |c| ensures c[a] < |p.components| {
      var k :| 0 <= k < |p.components| && Range(|p.components|)[k] == c[a];
    }
  }

  // Facts about the components of a compiled query.

  /** An atom listed by the components lies in one of them. */
  lemma {:induction false} FlatSource<A, B>(comps: seq<seq<Entry<A, B>>>, x: Atom) returns (a: nat)
    requires x in Flat(comps)
    ensures a < |comps| && x in AtomsOf(comps[a])
  {
    var init := comps[..|comps| - 1];
    if x in Flat(init) {
      a := FlatSource(init, x);
      assert comps[a] == init[a];
    } else {
      a := |comps| - 1;
    }
  }

  /** No atom lies in two components. */
  lemma {:induction false} FlatApart<A, B>(comps: seq<seq<Entry<A, B>>>, a: nat, b: nat, x: Atom)
    requires Distinct(Flat(comps)) && a < |comps| && b < |comps| && a != b
    requires x in AtomsOf(comps[a])
    ensures x !in AtomsOf(comps[b])
  {
    var n := |comps| - 1;
    var init := comps[..n];
    DistinctParts(Flat(init), AtomsOf(comps[n]));
    if a < n && b < n {
      assert init[a] == comps[a] && init[b] == comps[b];
      FlatApart(init, a, b, x);
    } else if a == n {
      if x in AtomsOf(comps[b]) {
        assert init[b] == comps[b];
        FlatHolds(init, b, x);
        assert false;
      }
    } else {
      assert init[a] == comps[a];
      FlatHolds(init, a, x);
    }
  }

  /** Every atom of a component is joined to the root by links, so a set no
      bond leaves holds the root exactly when it holds the atom. */
  lemma {:induction false} RootReach<A, B>(q: Graph<A, B>, order: seq<Entry<A, B>>, closures: Closures<B>, s: set<Atom>, k: nat)
    requires SymmetricRows(q.bonds) && Compiled(order, closures) && TreeOrdered(q, order)
    requires Closed(q, s) && k < |order|
    ensures order[k].atom in s <==> order[0].atom in s
  {
    if k > 0 {
      assert LinksBack(order, k);
      var d := ParentDepth(order, k);
      RootReach(q, order, closures, s, d);
      var e := order[k];
      assert HasEdge(q, e.parent, e.atom);
      if e.atom in s {
        ClosedBack(q, s, e.parent, e.atom);
      }
    }
  }

  /** Atoms of one component are never separated. */
  lemma SameComponentJoined<A, B>(q: Graph<A, B>, order: seq<Entry<A, B>>, closures: Closures<B>, s: set<Atom>, x: Atom, y: Atom)
    requires SymmetricRows(q.bonds) && Compiled(order, closures) && TreeOrdered(q, order)
    requires Closed(q, s) && x in AtomsOf(order) && y in AtomsOf(order) && x in s
    ensures y in s
  {
    RootReach(q, order, closures, s, Depth(order, x));
    RootReach(q, order, closures, s, Depth(order, y));
  }

  /** A component's atom set is left by no bond. */
  lemma ComponentIsClosed<A, B>(q: Graph<A, B>, order: seq<Entry<A, B>>)
    requires ComponentClosed(q, order)
    ensures Closed(q, Elements(AtomsOf(order)))
  {
    forall u, v | u in Elements(AtomsOf(order)) && HasEdge(q, u, v) ensures v in Elements(AtomsOf(order)) {
      var k :| 0 <= k < |order| && AtomsOf(order)[k] == u;
    }
  }

  /** Roots of different components are separated. */
  lemma RootsSeparated<QA, QB, TA, TB>(p: Problem<QA, QB, TA, TB>, comps: seq<seq<Entry<QA, QB>>>, closures: Closures<QB>, a: nat, b: nat)
    requires Planned(p, comps, closures) && a < |comps| && b < |comps| && a != b
    ensures comps[a] != [] && comps[b] != [] && Separated(p.query, comps[a][0].atom, comps[b][0].atom)
  {
    assert ComponentOk(p.query, comps[a], closures) && ComponentOk(p.query, comps[b], closures);
    var s := Elements(AtomsOf(comps[a]));
    ComponentIsClosed(p.query, comps[a]);
    assert AtomsOf(comps[a])[0] == comps[a][0].atom && AtomsOf(comps[b])[0] == comps[b][0].atom;
    FlatApart(comps, b, a, comps[b][0].atom);
    assert comps[b][0].atom !in s;
  }

  /** Different target components share no atom. */
  lemma Apart<TA, TB>(o: Graph<TA, TB>, cs: seq<set<Atom>>, i: nat, j: nat, v: Atom)
    requires TargetComponents(o, cs) && i < |cs| && j < |cs| && i != j && v in cs[i]
    ensures v !in cs[j]
  {
    if i < j {
      assert cs[i] !! cs[j];
    } else {
      assert cs[j] !! cs[i];
    }
  }

  /** A target atom lies in at most one target component. */
  lemma OneHome<TA, TB>(o: Graph<TA, TB>, cs: seq<set<Atom>>, v: Atom, i: nat, j: nat)
    requires TargetComponents(o, cs) && i < |cs| && j < |cs| && v in cs[i] && v in cs[j]
    ensures i == j
  {
    if i != j {
      Apart(o, cs, i, j, v);
    }
  }

  // What a match of one component says about the query.

  /** A matched atom lands on an allowed target atom with an equal label. */
  lemma EmbedsAtom<QA, QB, TA, TB>(q: Graph<QA, QB>, s: Search<QA, QB, TA, TB>, f: map<Atom, Atom>, x: Atom)
    requires Ready(s) && TreeOrdered(q, s.order) && Embeds(s, f) && x in AtomsOf(s.order)
    ensures x in f && x in q.atoms && f[x] in s.atoms && f[x] in s.target.atoms
    ensures s.atomEq(q.atoms[x], s.target.atoms[f[x]])
  {
    var k := Depth(s.order, x);
    assert EntryEmbedded(s, f, k);
  }

  /** A bond from the `k`-th atom back to the earlier `i`-th is either the
      link of the `k`-th entry or one of its closures, so a match keeps it,
      read in either direction. */
  lemma EdgeAt<QA, QB, TA, TB>(q: Graph<QA, QB>, s: Search<QA, QB, TA, TB>, f: map<Atom, Atom>, i: nat, k: nat)
    requires Ready(s) && ComponentOk(q, s.order, s.closures) && SymmetricRows(q.bonds) && SymmetricRows(s.target.bonds)
    requires Embeds(s, f) && i < k < |s.order| && HasEdge(q, s.order[k].atom, s.order[i].atom)
    ensures var x, y := s.order[k].atom, s.order[i].atom;
      && x in f && y in f && HasEdge(s.target, f[x], f[y]) && HasEdge(s.target, f[y], f[x])
      && s.bondEq(q.bonds[x][y], s.target.bonds[f[x]][f[y]])
      && s.bondEq(q.bonds[y][x], s.target.bonds[f[y]][f[x]])
  {
    var x, y := s.order[k].atom, s.order[i].atom;
    var e := s.order[k];
    var cl := ClosuresOf(s.closures, x);
    assert AtomsOf(s.order)[k] == x && AtomsOf(s.order)[i] == y;
    assert EntryEmbedded(s, f, k);
    EdgeSymmetric(q, x, y);
    if IsParent(e, y) {
      assert HasEdge(q, y, x) && e.bond == q.bonds[y][x];
      assert HasEdge(s.target, f[y], f[x]);
      EdgeSymmetric(s.target, f[y], f[x]);
    } else {
      assert y in Firsts(cl);
      var j :| 0 <= j < |cl| && Firsts(cl)[j] == y;
      assert ClosureIsBond(q, x, cl[j]);
      assert HasEdge(s.target, f[y], f[x]);
      EdgeSymmetric(s.target, f[y], f[x]);
    }
  }

  /** A match of a component keeps every query bond at its atoms. */
  lemma EmbedsEdge<QA, QB, TA, TB>(q: Graph<QA, QB>, s: Search<QA, QB, TA, TB>, f: map<Atom, Atom>, x: Atom, y: Atom)
    requires Ready(s) && ComponentOk(q, s.order, s.closures) && SymmetricRows(q.bonds) && SymmetricRows(s.target.bonds)
    requires Embeds(s, f) && x in AtomsOf(s.order) && HasEdge(q, x, y)
    ensures y in AtomsOf(s.order)
    ensures x in f && y in f && HasEdge(s.target, f[x], f[y]) && s.bondEq(q.bonds[x][y], s.target.bonds[f[x]][f[y]])
  {
    var k := Depth(s.order, x);
    assert ComponentClosed(q, s.order);
    assert y in AtomsOf(s.order);
    var i := Depth(s.order, y);
    if i < k {
      EdgeAt(q, s, f, i, k);
    } else {
      assert x != y;
      EdgeSymmetric(q, x, y);
      EdgeAt(q, s, f, k, i);
    }
  }

  // Combining the component matches of one candidate tuple.

  /** `t` holds, for every query component, a match inside the target
      component the candidate pairs it with. */
  ghost predicate Found<QA, QB, TA, TB>(p: Problem<QA, QB, TA, TB>, comps: seq<seq<Entry<QA, QB>>>, closures: Closures<QB>, c: seq<nat>, t: seq<map<Atom, Atom>>) {
    && |t| == |comps| && |c| == |comps|
    && (forall a :: 0 <= a < |comps| ==> c[a] < |p.components|)
    && forall a :: 0 <= a < |comps| ==> FoundAt(p, comps, closures, c, a, t[a])
  }

  ghost predicate FoundAt<QA, QB, TA, TB>(p: Problem<QA, QB, TA, TB>, comps: seq<seq<Entry<QA, QB>>>, closures: Closures<QB>, c: seq<nat>, a: nat, f: map<Atom, Atom>)
    requires |c| == |comps| && a < |comps| && c[a] < |p.components|
  {
    Ready(SearchAt(p, comps, closures, c, a)) && Embeds(SearchAt(p, comps, closures, c, a), f)
  }

  /** The merged map agrees with each component's match on its atoms. */
  lemma MergedAt<QA, QB, TA, TB>(p: Problem<QA, QB, TA, TB>, comps: seq<seq<Entry<QA, QB>>>, closures: Closures<QB>, c: seq<nat>, t: seq<map<Atom, Atom>>, a: nat, x: Atom)
    requires Planned(p, comps, closures) && Found(p, comps, closures, c, t)
    requires a < |comps| && x in AtomsOf(comps[a])
    ensures x in Merge(t) && Merge(t)[x] == t[a][x]
  {
    assert FoundAt(p, comps, closures, c, a, t[a]);
    forall i | a < i < |t| ensures x !in t[i] {
      FlatApart(comps, a, i, x);
      assert FoundAt(p, comps, closures, c, i, t[i]);
    }
    MergeAt(t, a, x);
  }

  /** The merged map has exactly the query atoms as keys. */
  lemma MergedKeys<QA, QB, TA, TB>(p: Problem<QA, QB, TA, TB>, comps: seq<seq<Entry<QA, QB>>>, closures: Closures<QB>, c: seq<nat>, t: seq<map<Atom, Atom>>)
    requires Planned(p, comps, closures) && Found(p, comps, closures, c, t) && comps != []
    ensures forall x :: x in Merge(t) <==> x in p.query.atoms
  {
    MergeKeys(t);
    forall x ensures x in Merge(t) <==> x in p.query.atoms {
      if x in Merge(t) {
        var a :| 0 <= a < |t| && x in t[a];
        assert FoundAt(p, comps, closures, c, a, t[a]);
        FlatHolds(comps, a, x);
      }
      if x in p.query.atoms {
        var a := FlatSource(comps, x);
        assert FoundAt(p, comps, closures, c, a, t[a]);
      }
    }
  }

  /** Where a query atom goes in the merged map: the component holding it,
      and an allowed atom of its target component with an equal label. */
  lemma MergedImage<QA, QB, TA, TB>(p: Problem<QA, QB, TA, TB>, comps: seq<seq<Entry<QA, QB>>>, closures: Closures<QB>, c: seq<nat>, t: seq<map<Atom, Atom>>, x: Atom) returns (a: nat)
    requires Posed(p) && Planned(p, comps, closures) && Found(p, comps, closures, c, t)
    requires x in p.query.atoms
    ensures a < |comps| && x in AtomsOf(comps[a]) && x in Merge(t) && Merge(t)[x] == t[a][x]
    ensures Merge(t)[x] in p.components[c[a]] && Merge(t)[x] in p.target.atoms
    ensures p.atomEq(p.query.atoms[x], p.target.atoms[Merge(t)[x]])
  {
    a := FlatSource(comps, x);
    MergedAt(p, comps, closures, c, t, a, x);
    assert FoundAt(p, comps, closures, c, a, t[a]);
    assert ComponentOk(p.query, comps[a], closures);
    EmbedsAtom(p.query, SearchAt(p, comps, closures, c, a), t[a], x);
  }

  /** Merging one match per component, each inside the target component
      the candidate tuple assigns it, gives a match of the whole query. */
  lemma MergedMatches<QA, QB, TA, TB>(p: Problem<QA, QB, TA, TB>, comps: seq<seq<Entry<QA, QB>>>, closures: Closures<QB>, c: seq<nat>, t: seq<map<Atom, Atom>>)
    requires Posed(p) && Planned(p, comps, closures) && comps != []
    requires Candidate(p, comps, c) && Found(p, comps, closures, c, t)
    ensures Matches(p, Merge(t))
  {
    CandidateBounds(p, comps, c);
    var m := Merge(t);
    MergedKeys(p, comps, closures, c, t);
    forall x, y | x in m && y in m && x != y ensures m[x] != m[y] {
      var a := MergedImage(p, comps, closures, c, t, x);
      var b := MergedImage(p, comps, closures, c, t, y);
      if a == b {
        assert FoundAt(p, comps, closures, c, a, t[a]);
      } else {
        assert c[a] != c[b];
        Apart(p.target, p.components, c[a], c[b], m[x]);
      }
    }
    forall x | x in m ensures m[x] in p.target.atoms && p.atomEq(p.query.atoms[x], p.target.atoms[m[x]]) {
      var a := MergedImage(p, comps, closures, c, t, x);
    }
    forall x, y | HasEdge(p.query, x, y) ensures EdgeKept(p, m, x, y) {
      var a := MergedImage(p, comps, closures, c, t, x);
      assert FoundAt(p, comps, closures, c, a, t[a]);
      assert ComponentOk(p.query, comps[a], closures);
      EmbedsEdge(p.query, SearchAt(p, comps, closures, c, a), t[a], x, y);
      MergedAt(p, comps, closures, c, t, a, y);
    }
    forall x | x in m ensures exists i :: 0 <= i < |p.components| && m[x] in p.components[i] {
      var a := MergedImage(p, comps, closures, c, t, x);
    }
    forall x, y, i, j |
      x in m && y in m && Separated(p.query, x, y) && 0 <= i < |p.components| && 0 <= j < |p.components| &&
      m[x] in p.components[i] && m[y] in p.components[j]
      ensures i != j
    {
      var a := MergedImage(p, comps, closures, c, t, x);
      var b := MergedImage(p, comps, closures, c, t, y);
      OneHome(p.target, p.components, m[x], i, c[a]);
      OneHome(p.target, p.components, m[y], j, c[b]);
      if a == b {
        var s :| Closed(p.query, s) && x in s && y !in s;
        assert ComponentOk(p.query, comps[a], closures);
        SameComponentJoined(p.query, comps[a], closures, s, x, y);
        assert false;
      }
    }
  }

  // Splitting a match of the whole query into component matches.

  /** The part of `f` on the atoms of one component. */
  function Restrict<A, B>(f: map<Atom, Atom>, order: seq<Entry<A, B>>): (r: map<Atom, Atom>)
    ensures forall x :: x in r <==> x in f && x in AtomsOf(order)
    ensures forall x :: x in r ==> r[x] == f[x]
  {
    map x | x in f && x in AtomsOf(order) :: f[x]
  }

  /** A match of the whole query keeps each component inside the target
      component that holds the image of its root. */
  lemma {:induction false} StaysHome<QA, QB, TA, TB>(p: Problem<QA, QB, TA, TB>, comps: seq<seq<Entry<QA, QB>>>, closures: Closures<QB>, f: map<Atom, Atom>, a: nat, k: nat, i: nat)
    requires Posed(p) && Planned(p, comps, closures) && IsEmbedding(p, f)
    requires a < |comps| && k < |comps[a]| && i < |p.components|
    requires comps[a][0].atom in f && f[comps[a][0].atom] in p.components[i]
    ensures comps[a][k].atom in f && f[comps[a][k].atom] in p.components[i]
  {
    if k > 0 {
      var order := comps[a];
      assert ComponentOk(p.query, order, closures);
      assert LinksBack(order, k);
      var d := ParentDepth(order, k);
      StaysHome(p, comps, closures, f, a, d, i);
      var e := order[k];
      assert HasEdge(p.query, e.parent, e.atom);
      assert EdgeKept(p, f, e.parent, e.atom);
      assert Closed(p.target, p.components[i]);
    }
  }

  /** The restriction of a match to a component fits the `k`-th entry. */
  lemma RestrictEntry<QA, QB, TA, TB>(p: Problem<QA, QB, TA, TB>, comps: seq<seq<Entry<QA, QB>>>, closures: Closures<QB>, c: seq<nat>, f: map<Atom, Atom>, a: nat, k: nat)
    requires Posed(p) && Planned(p, comps, closures) && IsEmbedding(p, f) && Assigned(p, comps, f, c)
    requires a < |comps| && k < |comps[a]|
    requires forall x :: x in AtomsOf(comps[a]) ==> x in f
    ensures Ready(SearchAt(p, comps, closures, c, a))
    ensures EntryEmbedded(SearchAt(p, comps, closures, c, a), Restrict(f, comps[a]), k)
  {
    var s := SearchAt(p, comps, closures, c, a);
    var g := Restrict(f, comps[a]);
    var order := comps[a];
    assert ComponentOk(p.query, order, closures);
    var e := order[k];
    assert AtomsOf(order)[k] == e.atom;
    StaysHome(p, comps, closures, f, a, k, c[a]);
    if k > 0 {
      assert LinksBack(order, k);
      assert HasEdge(p.query, e.parent, e.atom) && EdgeKept(p, f, e.parent, e.atom);
    }
    var cl := ClosuresOf(closures, e.atom);
    assert ClosesBack(order, closures, k);
    forall j | 0 <= j < |cl|
      ensures cl[j].0 in g && BondMatches(s.bondEq, cl[j].1, BondAt(s.target, g[cl[j].0], g[e.atom]))
    {
      var y := cl[j].0;
      assert Firsts(cl)[j] == y;
      assert y in AtomsOf(order)[..k];
      assert ClosureIsBond(p.query, e.atom, cl[j]);
      assert EdgeKept(p, f, e.atom, y);
      EdgeSymmetric(p.target, f[e.atom], f[y]);
    }
  }

  /** The restriction of a match to a component is a match of the
      component inside its assigned target component. */
  lemma RestrictEmbeds<QA, QB, TA, TB>(p: Problem<QA, QB, TA, TB>, comps: seq<seq<Entry<QA, QB>>>, closures: Closures<QB>, c: seq<nat>, f: map<Atom, Atom>, a: nat)
    requires Posed(p) && Planned(p, comps, closures) && IsEmbedding(p, f) && Assigned(p, comps, f, c)
    requires a < |comps|
    ensures FoundAt(p, comps, closures, c, a, Restrict(f, comps[a]))
  {
    var order := comps[a];
    assert ComponentOk(p.query, order, closures);
    forall x | x in AtomsOf(order) ensures x in f {
      var k :| 0 <= k < |order| && AtomsOf(order)[k] == x;
    }
    var s, g := SearchAt(p, comps, closures, c, a), Restrict(f, order);
    assert Ready(s);
    assert forall x :: x in g <==> x in AtomsOf(s.order);
    assert forall x, y :: x in g && y in g && x != y ==> g[x] != g[y];
    forall k | 0 <= k < |order| ensures EntryEmbedded(s, g, k) {
      RestrictEntry(p, comps, closures, c, f, a, k);
    }
    assert Embeds(s, g);
  }

  /** A match of the whole query is the merge of its restrictions to the
      components, each a component match for the candidate tuple. */
  lemma Split<QA, QB, TA, TB>(p: Problem<QA, QB, TA, TB>, comps: seq<seq<Entry<QA, QB>>>, closures: Closures<QB>, c: seq<nat>, f: map<Atom, Atom>) returns (t: seq<map<Atom, Atom>>)
    requires Posed(p) && Planned(p, comps, closures) && comps != []
    requires IsEmbedding(p, f) && Assigned(p, comps, f, c)
    ensures Found(p, comps, closures, c, t) && Merge(t) == f
  {
    t := seq(|comps|, a requires 0 <= a < |comps| => Restrict(f, comps[a]));
    forall a | 0 <= a < |comps| ensures FoundAt(p, comps, closures, c, a, t[a]) {
      RestrictEmbeds(p, comps, closures, c, f, a);
    }
    MergedKeys(p, comps, closures, c, t);
    forall x | x in f ensures x in Merge(t) && Merge(t)[x] == f[x] {
      var a := FlatSource(comps, x);
      MergedAt(p, comps, closures, c, t, a, x);
    }
    ghost var m := Merge(t);
    assert forall x :: x in m <==> x in p.query.atoms.Keys;
    assert forall x :: x in f <==> x in p.query.atoms.Keys;
    assert forall x :: x in f ==> m[x] == f[x];
    assert m.Keys == f.Keys;
    assert m == f;
  }

  /** The target component holding a target atom. */
  ghost function ComponentOf(cs: seq<set<Atom>>, v: Atom): (i: nat)
    requires exists i :: 0 <= i < |cs| && v in cs[i]
    ensures i < |cs| && v in cs[i]
  {
    var i :| 0 <= i < |cs| && v in cs[i]; i
  }

  /** The root of every component has an image in some target component. */
  lemma RootsPlaced<QA, QB, TA, TB>(p: Problem<QA, QB, TA, TB>, comps: seq<seq<Entry<QA, QB>>>, closures: Closures<QB>, f: map<Atom, Atom>)
    requires Planned(p, comps, closures) && Matches(p, f)
    ensures forall a :: 0 <= a < |comps| ==>
      comps[a] != [] && comps[a][0].atom in f && exists i :: 0 <= i < |p.components| && f[comps[a][0].atom] in p.components[i]
  {
    forall a | 0 <= a < |comps|
      ensures comps[a] != [] && comps[a][0].atom in f && exists i :: 0 <= i < |p.components| && f[comps[a][0].atom] in p.components[i]
    {
      assert ComponentOk(p.query, comps[a], closures);
    }
  }

  /** Different components of a match sit in different target components. */
  lemma HomesDistinct<QA, QB, TA, TB>(p: Problem<QA, QB, TA, TB>, comps: seq<seq<Entry<QA, QB>>>, closures: Closures<QB>, f: map<Atom, Atom>, c: seq<nat>)
    requires Planned(p, comps, closures) && Matches(p, f) && Assigned(p, comps, f, c)
    ensures Distinct(c)
  {
    forall a, b | 0 <= a < b < |c| ensures c[a] != c[b] {
      RootsSeparated(p, comps, closures, a, b);
      var x, y := comps[a][0].atom, comps[b][0].atom;
      assert Separated(p.query, x, y) && f[x] in p.components[c[a]] && f[y] in p.components[c[b]];
    }
  }

  /** Every match is reached from exactly one candidate tuple: the target
      components of the component roots' images, which are distinct. */
  lemma AssignmentExists<QA, QB, TA, TB>(p: Problem<QA, QB, TA, TB>, comps: seq<seq<Entry<QA, QB>>>, closures: Closures<QB>, f: map<Atom, Atom>) returns (c: seq<nat>)
    requires Planned(p, comps, closures) && Matches(p, f)
    ensures Assigned(p, comps, f, c) && Candidate(p, comps, c)
  {
    RootsPlaced(p, comps, closures, f);
    c := seq(|comps|, a requires 0 <= a < |comps| => ComponentOf(p.components, f[comps[a][0].atom]));
    assert Assigned(p, comps, f, c);
    HomesDistinct(p, comps, closures, f, c);
    forall a | 0 <= a < |c| ensures c[a] in Range(|p.components|) {
      assert Range(|p.components|)[c[a]] == c[a];
    }
  }

  /** A query with more components than the target has no match:
      `permutations` yields no candidate tuple. */
  lemma TooFewComponents<QA, QB, TA, TB>(p: Problem<QA, QB, TA, TB>, comps: seq<seq<Entry<QA, QB>>>, closures: Closures<QB>, f: map<Atom, Atom>)
    requires Planned(p, comps, closures) && |p.components| < |comps|
    ensures !Matches(p, f)
  {
    ArrangementsTooLong(Range(|p.components|), |comps|);
    ArrangementsMembers(Range(|p.components|), |comps|);
    if Matches(p, f) {
      var c := AssignmentExists(p, comps, closures, f);
      assert false;
    }
  }

  // The search itself.

  /** `lists[a]` holds exactly the matches of component `a` inside its
      assigned target component. */
  ghost predicate AllFound<QA, QB, TA, TB>(p: Problem<QA, QB, TA, TB>, comps: seq<seq<Entry<QA, QB>>>, closures: Closures<QB>, c: seq<nat>, a: nat, ms: seq<map<Atom, Atom>>)
    requires |c| == |comps| && a < |comps| && c[a] < |p.components|
  {
    && Ready(SearchAt(p, comps, closures, c, a))
    && (forall i :: 0 <= i < |ms| ==> Embeds(SearchAt(p, comps, closures, c, a), ms[i]))
    && (forall g :: Embeds(SearchAt(p, comps, closures, c, a), g) ==> g in ms)
  }

  /** A tuple of component matches merges into a match of the query. */
  lemma TupleMatches<QA, QB, TA, TB>(p: Problem<QA, QB, TA, TB>, comps: seq<seq<Entry<QA, QB>>>, closures: Closures<QB>, c: seq<nat>,
                                     lists: seq<seq<map<Atom, Atom>>>, t: seq<map<Atom, Atom>>)
    requires Posed(p) && Planned(p, comps, closures) && comps != [] && Candidate(p, comps, c)
    requires |c| == |lists| == |comps| && forall a :: 0 <= a < |comps| ==> c[a] < |p.components| && AllFound(p, comps, closures, c, a, lists[a])
    requires |t| == |lists| && forall a :: 0 <= a < |lists| ==> t[a] in lists[a]
    ensures Matches(p, Merge(t))
  {
    forall a | 0 <= a < |comps| ensures FoundAt(p, comps, closures, c, a, t[a]) {
      assert AllFound(p, comps, closures, c, a, lists[a]);
      var i :| 0 <= i < |lists[a]| && lists[a][i] == t[a];
    }
    MergedMatches(p, comps, closures, c, t);
  }

  /** A match with its components where `c` puts them is the merge of a
      tuple of component matches. */
  lemma MatchTuple<QA, QB, TA, TB>(p: Problem<QA, QB, TA, TB>, comps: seq<seq<Entry<QA, QB>>>, closures: Closures<QB>, c: seq<nat>,
                                   lists: seq<seq<map<Atom, Atom>>>, f: map<Atom, Atom>) returns (t: seq<map<Atom, Atom>>)
    requires Posed(p) && Planned(p, comps, closures) && comps != []
    requires |c| == |lists| == |comps| && forall a :: 0 <= a < |comps| ==> c[a] < |p.components| && AllFound(p, comps, closures, c, a, lists[a])
    requires Matches(p, f) && Assigned(p, comps, f, c)
    ensures |t| == |lists| && (forall a :: 0 <= a < |lists| ==> t[a] in lists[a]) && Merge(t) == f
  {
    t := Split(p, comps, closures, c, f);
    forall a | 0 <= a < |comps| ensures t[a] in lists[a] {
      assert AllFound(p, comps, closures, c, a, lists[a]);
      assert FoundAt(p, comps, closures, c, a, t[a]);
    }
  }

  /** Every merged tuple is a match of the query. */
  lemma CombinedSound<QA, QB, TA, TB>(p: Problem<QA, QB, TA, TB>, comps: seq<seq<Entry<QA, QB>>>, closures: Closures<QB>, c: seq<nat>,
                                      lists: seq<seq<map<Atom, Atom>>>)
    requires Posed(p) && Planned(p, comps, closures) && comps != [] && Candidate(p, comps, c)
    requires |c| == |lists| == |comps| && forall a :: 0 <= a < |comps| ==> c[a] < |p.components| && AllFound(p, comps, closures, c, a, lists[a])
    ensures forall k :: 0 <= k < |Combined(lists)| ==> Matches(p, Combined(lists)[k])
  {
    forall k | 0 <= k < |Combined(lists)| ensures Matches(p, Combined(lists)[k]) {
      var m := Combined(lists)[k];
      assert m in Combined(lists);
      var t :| Choice(lists, t) && m == Merge(t);
      TupleMatches(p, comps, closures, c, lists, t);
    }
  }

  /** Every match with its components where `c` puts them is a merged
      tuple. */
  lemma CombinedComplete<QA, QB, TA, TB>(p: Problem<QA, QB, TA, TB>, comps: seq<seq<Entry<QA, QB>>>, closures: Closures<QB>, c: seq<nat>,
                                         lists: seq<seq<map<Atom, Atom>>>)
    requires Posed(p) && Planned(p, comps, closures) && comps != []
    requires |c| == |lists| == |comps| && forall a :: 0 <= a < |comps| ==> c[a] < |p.components| && AllFound(p, comps, closures, c, a, lists[a])
    ensures forall f :: Matches(p, f) && Assigned(p, comps, f, c) ==> f in Combined(lists)
  {
    forall f | Matches(p, f) && Assigned(p, comps, f, c) ensures f in Combined(lists) {
      var t := MatchTuple(p, comps, closures, c, lists, f);
      assert Choice(lists, t);
    }
  }

  /** `self.__get_mapping(order, closures, other, component)`, run to the
      end. */
  method SearchComponent<QA, QB, TA, TB>(p: Problem<QA, QB, TA, TB>, comps: seq<seq<Entry<QA, QB>>>, closures: Closures<QB>, c: seq<nat>, a: nat)
    returns (found: seq<map<Atom, Atom>>)
    requires Posed(p) && Planned(p, comps, closures)
    requires |c| == |comps| && a < |comps| && c[a] < |p.components|
    ensures AllFound(p, comps, closures, c, a, found)
  {
    assert ComponentOk(p.query, comps[a], closures);
    found := Mappings(SearchAt(p, comps, closures, c, a));
  }

  /** The generator expression handed to `product`: every component
      searched inside its target component. */
  method SearchAll<QA, QB, TA, TB>(p: Problem<QA, QB, TA, TB>, comps: seq<seq<Entry<QA, QB>>>, closures: Closures<QB>, c: seq<nat>)
    returns (lists: seq<seq<map<Atom, Atom>>>)
    requires Posed(p) && Planned(p, comps, closures)
    requires |c| == |comps| && forall a :: 0 <= a < |comps| ==> c[a] < |p.components|
    ensures |lists| == |comps| && forall a :: 0 <= a < |comps| ==> AllFound(p, comps, closures, c, a, lists[a])
  {
    lists := [];
    while |lists| < |comps|
      invariant |lists| <= |comps|
      invariant forall a :: 0 <= a < |lists| ==> AllFound(p, comps, closures, c, a, lists[a])
    {
      var found := SearchComponent(p, comps, closures, c, |lists|);
      lists := lists + [found];
    }
  }

  /** The body of `for candidates in permutations(...)`: search every
      component inside its target component, then merge every tuple of
      `product` of the results. Yields exactly the matches whose components
      sit where `c` puts them. */
  method MatchCandidate<QA, QB, TA, TB>(p: Problem<QA, QB, TA, TB>, comps: seq<seq<Entry<QA, QB>>>, closures: Closures<QB>, c: seq<nat>)
    returns (ms: seq<map<Atom, Atom>>)
    requires Posed(p) && Planned(p, comps, closures) && comps != [] && Candidate(p, comps, c)
    ensures forall k :: 0 <= k < |ms| ==> Matches(p, ms[k])
    ensures forall f :: Matches(p, f) && Assigned(p, comps, f, c) ==> f in ms
  {
    CandidateBounds(p, comps, c);
    var lists := SearchAll(p, comps, closures, c);
    ms := Combined(lists);
    CombinedSound(p, comps, closures, c, lists);
    CombinedComplete(p, comps, closures, c, lists);
  }

  /** One round of `for candidates in permutations(...)`: the matches of
      candidate `i` join those of the candidates before it. */
  method Accumulate<QA, QB, TA, TB>(p: Problem<QA, QB, TA, TB>, comps: seq<seq<Entry<QA, QB>>>, closures: Closures<QB>,
                                    cands: seq<seq<nat>>, i: nat, all: seq<map<Atom, Atom>>)
    returns (all': seq<map<Atom, Atom>>)
    requires Posed(p) && Planned(p, comps, closures) && comps != []
    requires i < |cands| && Candidate(p, comps, cands[i])
    requires forall k :: 0 <= k < |all| ==> Matches(p, all[k])
    requires forall f, k :: 0 <= k < i && Matches(p, f) && Assigned(p, comps, f, cands[k]) ==> f in all
    ensures forall k :: 0 <= k < |all'| ==> Matches(p, all'[k])
    ensures forall f, k :: 0 <= k <= i && Matches(p, f) && Assigned(p, comps, f, cands[k]) ==> f in all'
  {
    var ms := MatchCandidate(p, comps, closures, cands[i]);
    all' := all + ms;
    JoinCovers(p, comps, cands, i, all, ms, all');
  }

  /** The matches found so far, followed by those of candidate `i`, cover
      every candidate up to and including `i`. */
  lemma JoinCovers<QA, QB, TA, TB>(p: Problem<QA, QB, TA, TB>, comps: seq<seq<Entry<QA, QB>>>, cands: seq<seq<nat>>, i: nat,
                                   all: seq<map<Atom, Atom>>, ms: seq<map<Atom, Atom>>, all': seq<map<Atom, Atom>>)
    requires i < |cands| && all' == all + ms
    requires forall f, k :: 0 <= k < i && Matches(p, f) && Assigned(p, comps, f, cands[k]) ==> f in all
    requires forall f :: Matches(p, f) && Assigned(p, comps, f, cands[i]) ==> f in ms
    ensures forall f, k :: 0 <= k <= i && Matches(p, f) && Assigned(p, comps, f, cands[k]) ==> f in all'
  {
    forall f, k | 0 <= k <= i && Matches(p, f) && Assigned(p, comps, f, cands[k]) ensures f in all' {
      if k < i {
        assert f in all;
      } else {
        assert f in ms;
      }
    }
  }

  /** The loops of `get_mapping` before the filter: the matches of every
      candidate tuple, in order. They are exactly the matches of the query. */
  method MatchAll<QA, QB, TA, TB>(p: Problem<QA, QB, TA, TB>, comps: seq<seq<Entry<QA, QB>>>, closures: Closures<QB>)
    returns (all: seq<map<Atom, Atom>>)
    requires Posed(p) && Planned(p, comps, closures) && comps != []
    ensures forall k :: 0 <= k < |all| ==> Matches(p, all[k])
    ensures forall f :: Matches(p, f) ==> f in all
  {
    var cands := Arrangements(Range(|p.components|), |comps|);
    ArrangementsMembers(Range(|p.components|), |comps|);
    all := [];
    var i := 0;
    while i < |cands|
      invariant i <= |cands|
      invariant forall k :: 0 <= k < |all| ==> Matches(p, all[k])
      invariant forall f, k :: 0 <= k < i && Matches(p, f) && Assigned(p, comps, f, cands[k]) ==> f in all
    {
      assert cands[i] in cands;
      all := Accumulate(p, comps, closures, cands, i, all);
      i := i + 1;
    }
    EveryCandidateTried(p, comps, closures, cands, all);
  }

  /** Once every candidate tuple has been searched, every match is found:
      each match is assigned to some tuple. */
  lemma EveryCandidateTried<QA, QB, TA, TB>(p: Problem<QA, QB, TA, TB>, comps: seq<seq<Entry<QA, QB>>>, closures: Closures<QB>,
                                           cands: seq<seq<nat>>, all: seq<map<Atom, Atom>>)
    requires Planned(p, comps, closures)
    requires forall c :: IsArrangement(Range(|p.components|), |comps|, c) ==> c in cands
    requires forall f, k :: 0 <= k < |cands| && Matches(p, f) && Assigned(p, comps, f, cands[k]) ==> f in all
    ensures forall f :: Matches(p, f) ==> f in all
  {
    forall f | Matches(p, f) ensures f in all {
      var c := AssignmentExists(p, comps, closures, f);
      var k :| 0 <= k < |cands| && cands[k] == c;
    }
  }

  /** A query has no components exactly when it has no atoms. */
  lemma NoComponents<QA, QB, TA, TB>(p: Problem<QA, QB, TA, TB>, comps: seq<seq<Entry<QA, QB>>>, closures: Closures<QB>)
    requires Planned(p, comps, closures)
    ensures comps == [] <==> Size(p.query) == 0
  {
    if comps == [] {
      assert forall x :: x !in p.query.atoms;
      assert p.query.atoms.Keys == {};
    } else {
      var a := |comps| - 1;
      assert ComponentOk(p.query, comps[a], closures);
      assert AtomsOf(comps[a])[0] == comps[a][0].atom;
      FlatHolds(comps, a, comps[a][0].atom);
      assert comps[a][0].atom in p.query.atoms.Keys;
    }
  }

  /** A query that `get_mapping` cannot run on: an empty one (`match[0]`
      raises `IndexError`) or one whose canonical ranking runs out of
      primes. */
  predicate QueryFails<QA, QB>(q: Graph<QA, QB>, acode: QA -> int, bcode: QB -> int)
    requires WellFormed(q)
  {
    Size(q) == 0 || AtomsOrder(q, acode, bcode).Err?
  }

  /** `get_mapping(other, automorphism_filter=filter)`, all its yields in
      order. Without the filter it yields every match; with the filter, one
      match for every set of target atoms that some match covers. */
  method GetMapping<QA, QB, TA, TB>(q: Graph<QA, QB>, o: Graph<TA, TB>, components: seq<set<Atom>>,
                                    acode: QA -> int, bcode: QB -> int,
                                    atomEq: (QA, TA) -> bool, bondEq: (QB, TB) -> bool, filter: bool)
    returns (r: Result<seq<map<Atom, Atom>>>)
    requires WellFormed(q) && WellFormed(o) && TargetComponents(o, components)
    ensures Size(q) == 0 ==> r == Err(EmptyQuery)
    ensures Size(q) > 0 && AtomsOrder(q, acode, bcode).Err? ==> r == Err(AtomsOrder(q, acode, bcode).error)
    ensures r.Ok? <==> !QueryFails(q, acode, bcode)
    ensures r.Ok? ==> forall i :: 0 <= i < |r.value| ==> Matches(Problem(q, o, components, atomEq, bondEq), r.value[i])
    ensures r.Ok? && !filter ==> forall f :: Matches(Problem(q, o, components, atomEq, bondEq), f) ==> f in r.value
    ensures r.Ok? && filter ==> forall f :: Matches(Problem(q, o, components, atomEq, bondEq), f) ==>
              exists i :: 0 <= i < |r.value| && r.value[i].Values == f.Values
    ensures r.Ok? && filter ==> forall i, j :: 0 <= i < j < |r.value| ==> r.value[i].Values != r.value[j].Values
  {
    var p := Problem(q, o, components, atomEq, bondEq);
    var ranks := AtomsOrder(q, acode, bcode);
    if ranks.Err? {
      return Err(ranks.error);
    }
    var comps, closures := Compile(q, ranks.value);
    NoComponents(p, comps, closures);
    if comps == [] {
      return Err(EmptyQuery);
    }
    var all := MatchAll(p, comps, closures);
    var out := Filtered(p, all, filter);
    r := Ok(out);
  }

  /** `automorphism_filter`: with the filter, keep the first match for each
      set of target atoms; without it, keep every match. */
  method Filtered<QA, QB, TA, TB>(p: Problem<QA, QB, TA, TB>, all: seq<map<Atom, Atom>>, filter: bool)
    returns (out: seq<map<Atom, Atom>>)
    requires forall k :: 0 <= k < |all| ==> Matches(p, all[k])
    requires forall f :: Matches(p, f) ==> f in all
    ensures forall i :: 0 <= i < |out| ==> Matches(p, out[i])
    ensures !filter ==> forall f :: Matches(p, f) ==> f in out
    ensures filter ==> forall f :: Matches(p, f) ==> exists i :: 0 <= i < |out| && out[i].Values == f.Values
    ensures filter ==> forall i, j :: 0 <= i < j < |out| ==> out[i].Values != out[j].Values
  {
    if filter {
      DedupSound(all, {});
      DedupCovers(all, {});
      out := Dedup(all, {});
    } else {
      out := all;
    }
  }

  // The comparisons built on `get_mapping`.

  /** Some match of `q` into `o` exists. */
  ghost predicate Embeddable<QA, QB, TA, TB>(q: Graph<QA, QB>, o: Graph<TA, TB>, components: seq<set<Atom>>,
                                            atomEq: (QA, TA) -> bool, bondEq: (QB, TB) -> bool) {
    exists f :: Matches(Problem(q, o, components, atomEq, bondEq), f)
  }

  /** `is_substructure`: whether `get_mapping` yields anything. An error
      of `get_mapping` is not caught. */
  method IsSubstructure<QA, QB, TA, TB>(q: Graph<QA, QB>, o: Graph<TA, TB>, components: seq<set<Atom>>,
                                        acode: QA -> int, bcode: QB -> int,
                                        atomEq: (QA, TA) -> bool, bondEq: (QB, TB) -> bool)
    returns (r: Result<bool>)
    requires WellFormed(q) && WellFormed(o) && TargetComponents(o, components)
    ensures r.Err? <==> QueryFails(q, acode, bcode)
    ensures r.Ok? ==> (r.value <==> Embeddable(q, o, components, atomEq, bondEq))
  {
    var ms := GetMapping(q, o, components, acode, bcode, atomEq, bondEq, true);
    if ms.Err? {
      r := Err(ms.error);
    } else if |ms.value| > 0 {
      assert Matches(Problem(q, o, components, atomEq, bondEq), ms.value[0]);
      r := Ok(true);
    } else {
      r := Ok(false);
    }
  }

  /** With as many query atoms as target atoms, a match uses every target
      atom. */
  lemma EqualSizeOnto<QA, QB, TA, TB>(p: Problem<QA, QB, TA, TB>, f: map<Atom, Atom>)
    requires Matches(p, f) && Size(p.query) == Size(p.target)
    ensures f.Values == p.target.atoms.Keys
  {
    assert IsEmbedding(p, f);
    assert forall x :: x in f.Keys <==> x in p.query.atoms.Keys;
    assert f.Keys == p.query.atoms.Keys;
    forall x | x in f ensures f[x] in p.target.atoms.Keys {
      assert f[x] in p.target.atoms;
    }
    assert |f.Keys| == |p.query.atoms.Keys| == |p.query.atoms|;
    assert |p.target.atoms.Keys| == |p.target.atoms|;
    assert forall x, y :: x in f && y in f && x != y ==> f[x] != f[y];
    InjectiveOnto(f, p.target.atoms.Keys);
  }

  /** `is_equal`: graphs of different sizes are unequal; otherwise, as
      `is_substructure`, and then a match covers every target atom. */
  method IsEqual<QA, QB, TA, TB>(q: Graph<QA, QB>, o: Graph<TA, TB>, components: seq<set<Atom>>,
                                 acode: QA -> int, bcode: QB -> int,
                                 atomEq: (QA, TA) -> bool, bondEq: (QB, TB) -> bool)
    returns (r: Result<bool>)
    requires WellFormed(q) && WellFormed(o) && TargetComponents(o, components)
    ensures Size(q) != Size(o) ==> r == Ok(false)
    ensures Size(q) == Size(o) ==> (r.Err? <==> QueryFails(q, acode, bcode))
    ensures Size(q) == Size(o) && r.Ok? ==> (r.value <==> Embeddable(q, o, components, atomEq, bondEq))
    ensures r == Ok(true) ==> exists f :: Matches(Problem(q, o, components, atomEq, bondEq), f) && f.Values == o.atoms.Keys
  {
    if Size(q) != Size(o) {
      return Ok(false);
    }
    r := IsSubstructure(q, o, components, acode, bcode, atomEq, bondEq);
    if r == Ok(true) {
      ghost var f :| Matches(Problem(q, o, components, atomEq, bondEq), f);
      EqualSizeOnto(Problem(q, o, components, atomEq, bondEq), f);
    }
  }

  /** `self < other`: a proper substructure, with fewer atoms. */
  method Lt<SA, SB, OA, OB>(g: Graph<SA, SB>, h: Graph<OA, OB>, hComponents: seq<set<Atom>>,
                            acode: SA -> int, bcode: SB -> int,
                            atomEq: (SA, OA) -> bool, bondEq: (SB, OB) -> bool)
    returns (r: Result<bool>)
    requires WellFormed(g) && WellFormed(h) && TargetComponents(h, hComponents)
    ensures Size(g) >= Size(h) ==> r == Ok(false)
    ensures Size(g) < Size(h) ==> (r.Err? <==> QueryFails(g, acode, bcode))
    ensures r.Ok? ==> (r.value <==> Size(g) < Size(h) && Embeddable(g, h, hComponents, atomEq, bondEq))
  {
    if Size(g) >= Size(h) {
      return Ok(false);
    }
    r := IsSubstructure(g, h, hComponents, acode, bcode, atomEq, bondEq);
  }

  /** `self <= other`: `self.is_substructure(other)`. */
  method Le<SA, SB, OA, OB>(g: Graph<SA, SB>, h: Graph<OA, OB>, hComponents: seq<set<Atom>>,
                            acode: SA -> int, bcode: SB -> int,
                            atomEq: (SA, OA) -> bool, bondEq: (SB, OB) -> bool)
    returns (r: Result<bool>)
    requires WellFormed(g) && WellFormed(h) && TargetComponents(h, hComponents)
    ensures r.Err? <==> QueryFails(g, acode, bcode)
    ensures r.Ok? ==> (r.value <==> Embeddable(g, h, hComponents, atomEq, bondEq))
  {
    r := IsSubstructure(g, h, hComponents, acode, bcode, atomEq, bondEq);
  }

  /** `self > other`: `other` is a proper substructure of `self`, with
      fewer atoms; here `other` is the query. */
  method Gt<SA, SB, OA, OB>(g: Graph<SA, SB>, h: Graph<OA, OB>, gComponents: seq<set<Atom>>,
                            acode: OA -> int, bcode: OB -> int,
                            atomEq: (OA, SA) -> bool, bondEq: (OB, SB) -> bool)
    returns (r: Result<bool>)
    requires WellFormed(g) && WellFormed(h) && TargetComponents(g, gComponents)
    ensures Size(g) <= Size(h) ==> r == Ok(false)
    ensures Size(g) > Size(h) ==> (r.Err? <==> QueryFails(h, acode, bcode))
    ensures r.Ok? ==> (r.value <==> Size(g) > Size(h) && Embeddable(h, g, gComponents, atomEq, bondEq))
  {
    if Size(g) <= Size(h) {
      return Ok(false);
    }
    r := IsSubstructure(h, g, gComponents, acode, bcode, atomEq, bondEq);
  }

  /** `self >= other`: `other.is_substructure(self)`. */
  method Ge<SA, SB, OA, OB>(g: Graph<SA, SB>, h: Graph<OA, OB>, gComponents: seq<set<Atom>>,
                            acode: OA -> int, bcode: OB -> int,
                            atomEq: (OA, SA) -> bool, bondEq: (OB, SB) -> bool)
    returns (r: Result<bool>)
    requires WellFormed(g) && WellFormed(h) && TargetComponents(g, gComponents)
    ensures r.Err? <==> QueryFails(h, acode, bcode)
    ensures r.Ok? ==> (r.value <==> Embeddable(h, g, gComponents, atomEq, bondEq))
  {
    r := IsSubstructure(h, g, gComponents, acode, bcode, atomEq, bondEq);
  }
}
