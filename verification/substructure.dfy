/** `Graph.substructure`, `Graph.__sub__` and the layered neighbourhood
    behind `augmented_substructure`. */
module Substructures {
  import opened Collections
  import opened Graphs

  /** `h` is the subgraph of `g` induced by `sel`: the atoms of `sel` in
      their original order, with their labels and charges, and exactly the
      bonds of `g` between two of them. */
  ghost predicate InducedBy<A, B>(g: Graph<A, B>, sel: set<Atom>, h: Graph<A, B>)
    requires WellFormed(g) && sel <= g.atoms.Keys
  {
    && h.ids == Filter(g.ids, sel)
    && h.atoms.Keys == sel && h.charges.Keys == sel && h.bonds.Keys == sel
    && (forall n :: n in sel ==> h.atoms[n] == g.atoms[n] && h.charges[n] == g.charges[n])
    && (forall a, b :: a in sel && b in sel ==>
          && (HasEdge(h, a, b) <==> HasEdge(g, a, b))
          && (HasEdge(g, a, b) ==> h.bonds[a][b] == g.bonds[a][b]))
    && (forall a, b :: HasEdge(h, a, b) ==> a in sel && b in sel)
  }

  /** The bond `a`-`b` of `g` joins two selected atoms and its first end in
      atom order lies before position `i`, or at `i` with the other end
      before position `j`: the bonds the copying loop has stored so far. */
  ghost predicate Copied<A, B>(g: Graph<A, B>, sel: set<Atom>, i: int, j: int, a: Atom, b: Atom)
    requires WellFormed(g)
  {
    && a in sel && b in sel && HasEdge(g, a, b)
    && var p, q := IndexOf(g.ids, a), IndexOf(g.ids, b);
       var lo, hi := if p < q then p else q, if p < q then q else p;
       lo < i || (lo == i && hi < j)
  }

  /** The bond-copying loop of `substructure`: each selected atom, marked
      seen, copies its bonds to selected atoms not yet seen into both rows.
      Atoms are visited in atom order, skipping unselected ones, which is
      the order of the selection tuple; neighbours too are visited in atom
      order. */
  method InducedBonds<A, B>(g: Graph<A, B>, sel: set<Atom>) returns (cb: map<Atom, map<Atom, B>>)
    requires WellFormed(g) && sel <= g.atoms.Keys
    ensures cb.Keys == sel
    ensures SymmetricRows(cb)
    ensures forall a, b :: a in cb && b in cb[a] <==> a in sel && b in sel && HasEdge(g, a, b)
    ensures forall a, b :: a in cb && b in cb[a] ==> HasEdge(g, a, b) && cb[a][b] == g.bonds[a][b]
  {
    cb := map n | n in sel :: map[];
    var seen: set<Atom> := {};
    for i := 0 to |g.ids|
      invariant seen == Elements(g.ids[..i]) * sel
      invariant RowsCopied(g, sel, cb, i, 0)
    {
      var n := g.ids[i];
      assert g.ids[..i + 1] == g.ids[..i] + [n];
      if n in sel {
        seen := seen + {n};
        cb := CopyRow(g, sel, i, seen, cb);
      } else {
        SkipRow(g, sel, cb, i);
      }
    }
    AllCopied(g, sel, cb);
  }

  /** Row `a` of `cb` holds `b`. */
  ghost predicate Stored<B>(cb: map<Atom, map<Atom, B>>, a: Atom, b: Atom) {
    a in cb && b in cb[a]
  }

  /** The rows hold exactly the bonds `Copied` up to row `i`, column `j`,
      with their labels from `g`, symmetrically. */
  ghost predicate RowsCopied<A, B>(g: Graph<A, B>, sel: set<Atom>, cb: map<Atom, map<Atom, B>>, i: int, j: int)
    requires WellFormed(g)
  {
    && cb.Keys == sel && SymmetricRows(cb)
    && (forall a, b :: Stored(cb, a, b) <==> Copied(g, sel, i, j, a, b))
    && (forall a, b :: a in cb && b in cb[a] ==> HasEdge(g, a, b) && cb[a][b] == g.bonds[a][b])
  }

  /** One pass of the inner loop, for the selected atom at position `i`. */
  method CopyRow<A, B>(g: Graph<A, B>, sel: set<Atom>, i: int, seen: set<Atom>, cb0: map<Atom, map<Atom, B>>)
    returns (cb: map<Atom, map<Atom, B>>)
    requires WellFormed(g) && sel <= g.atoms.Keys
    requires 0 <= i < |g.ids| && g.ids[i] in sel
    requires seen == Elements(g.ids[..i + 1]) * sel
    requires RowsCopied(g, sel, cb0, i, 0)
    ensures RowsCopied(g, sel, cb, i + 1, 0)
  {
    var n := g.ids[i];
    IdsAreAtoms(g);
    var row := g.bonds[n];
    cb := cb0;
    for j := 0 to |g.ids|
      invariant RowsCopied(g, sel, cb, i, j)
    {
      var m := g.ids[j];
      var store := m in row && m !in seen && m in sel;
      if store {
        IndexOfDistinct(g.ids, i);
        IndexOfDistinct(g.ids, j);
        assert m !in g.ids[..i + 1];
      }
      ghost var before := cb;
      if store {
        cb := StoreBoth(cb, n, m, row[m]);
      }
      CopyStep(g, sel, i, j, seen, before, cb);
    }
    RowDone(g, sel, cb, i);
  }

  lemma CopyStep<A, B>(g: Graph<A, B>, sel: set<Atom>, i: int, j: int, seen: set<Atom>,
                       cb0: map<Atom, map<Atom, B>>, cb: map<Atom, map<Atom, B>>)
    requires WellFormed(g) && sel <= g.atoms.Keys
    requires 0 <= i < |g.ids| && g.ids[i] in sel && 0 <= j < |g.ids|
    requires seen == Elements(g.ids[..i + 1]) * sel
    requires RowsCopied(g, sel, cb0, i, j)
    requires var n, m := g.ids[i], g.ids[j];
      if m in g.bonds[n] && m !in seen && m in sel then n != m && cb == StoreBoth(cb0, n, m, g.bonds[n][m]) else cb == cb0
    ensures RowsCopied(g, sel, cb, i, j + 1)
  {
    var n, m := g.ids[i], g.ids[j];
    IndexOfDistinct(g.ids, i);
    IndexOfDistinct(g.ids, j);
    if m in g.bonds[n] && m !in seen && m in sel {
      assert m !in g.ids[..i + 1];
      CopyStore(g, sel, i, j, cb0, cb);
    } else {
      forall a, b ensures Copied(g, sel, i, j + 1, a, b) <==> Copied(g, sel, i, j, a, b) {
        CopiedNext(g, sel, i, j, a, b);
      }
    }
  }

  lemma CopyStore<A, B>(g: Graph<A, B>, sel: set<Atom>, i: int, j: int,
                        cb0: map<Atom, map<Atom, B>>, cb: map<Atom, map<Atom, B>>)
    requires WellFormed(g) && 0 <= i < j < |g.ids|
    requires g.ids[i] in sel && g.ids[j] in sel && HasEdge(g, g.ids[i], g.ids[j])
    requires RowsCopied(g, sel, cb0, i, j)
    requires cb == StoreBoth(cb0, g.ids[i], g.ids[j], g.bonds[g.ids[i]][g.ids[j]])
    ensures RowsCopied(g, sel, cb, i, j + 1)
  {
    var n, m := g.ids[i], g.ids[j];
    assert HasEdge(g, m, n);
    assert cb.Keys == sel && SymmetricRows(cb);
    StoredMembers(g, sel, i, j, cb0, cb);
    StoredValues(g, sel, i, j, cb0, cb);
  }

  lemma StoredMembers<A, B>(g: Graph<A, B>, sel: set<Atom>, i: int, j: int,
                            cb0: map<Atom, map<Atom, B>>, cb: map<Atom, map<Atom, B>>)
    requires WellFormed(g) && 0 <= i < j < |g.ids|
    requires g.ids[i] in sel && g.ids[j] in sel && HasEdge(g, g.ids[i], g.ids[j])
    requires RowsCopied(g, sel, cb0, i, j)
    requires cb == StoreBoth(cb0, g.ids[i], g.ids[j], g.bonds[g.ids[i]][g.ids[j]])
    ensures forall a, b :: Stored(cb, a, b) <==> Copied(g, sel, i, j + 1, a, b)
  {
    forall a, b ensures Stored(cb, a, b) <==> Copied(g, sel, i, j + 1, a, b) {
      CopiedNext(g, sel, i, j, a, b);
    }
  }

  lemma StoredValues<A, B>(g: Graph<A, B>, sel: set<Atom>, i: int, j: int,
                           cb0: map<Atom, map<Atom, B>>, cb: map<Atom, map<Atom, B>>)
    requires WellFormed(g) && 0 <= i < j < |g.ids|
    requires g.ids[i] in sel && g.ids[j] in sel && HasEdge(g, g.ids[i], g.ids[j])
    requires RowsCopied(g, sel, cb0, i, j)
    requires cb == StoreBoth(cb0, g.ids[i], g.ids[j], g.bonds[g.ids[i]][g.ids[j]])
    ensures forall a, b :: a in cb && b in cb[a] ==> HasEdge(g, a, b) && cb[a][b] == g.bonds[a][b]
  {
    var n, m := g.ids[i], g.ids[j];
    assert HasEdge(g, m, n);
    forall a, b | a in cb && b in cb[a] ensures HasEdge(g, a, b) && cb[a][b] == g.bonds[a][b] {
      if {a, b} != {n, m} {
        assert a in cb0 && b in cb0[a];
      } else if a == m {
        assert cb[a][b] == g.bonds[n][m];
      }
    }
  }

  lemma SkipRow<A, B>(g: Graph<A, B>, sel: set<Atom>, cb: map<Atom, map<Atom, B>>, i: int)
    requires WellFormed(g) && 0 <= i < |g.ids| && g.ids[i] !in sel
    requires RowsCopied(g, sel, cb, i, 0)
    ensures RowsCopied(g, sel, cb, i + 1, 0)
  {
    forall a, b | Copied(g, sel, i + 1, 0, a, b) ensures Copied(g, sel, i, 0, a, b) {
      IndexOfDistinct(g.ids, i);
    }
  }

  lemma RowDone<A, B>(g: Graph<A, B>, sel: set<Atom>, cb: map<Atom, map<Atom, B>>, i: int)
    requires WellFormed(g) && 0 <= i < |g.ids|
    requires RowsCopied(g, sel, cb, i, |g.ids|)
    ensures RowsCopied(g, sel, cb, i + 1, 0)
  {
    forall a, b ensures Stored(cb, a, b) <==> Copied(g, sel, i + 1, 0, a, b) {
      CopiedRowDone(g, sel, i, a, b);
    }
  }

  lemma AllCopied<A, B>(g: Graph<A, B>, sel: set<Atom>, cb: map<Atom, map<Atom, B>>)
    requires WellFormed(g)
    requires RowsCopied(g, sel, cb, |g.ids|, 0)
    ensures forall a, b :: a in cb && b in cb[a] <==> a in sel && b in sel && HasEdge(g, a, b)
  {
    forall a, b | a in sel && b in sel && HasEdge(g, a, b) ensures Copied(g, sel, |g.ids|, 0, a, b) {
      assert a in g.ids;
      assert IndexOf(g.ids, a) < |g.ids|;
    }
  }

  /** Position `j` of row `i` adds exactly the bond between the atoms at
      positions `i` and `j`, when it comes later than `i`. */
  lemma CopiedNext<A, B>(g: Graph<A, B>, sel: set<Atom>, i: int, j: int, a: Atom, b: Atom)
    requires WellFormed(g) && 0 <= i < |g.ids| && 0 <= j < |g.ids|
    ensures Copied(g, sel, i, j + 1, a, b) <==>
      || Copied(g, sel, i, j, a, b)
      || ({a, b} == {g.ids[i], g.ids[j]} && i < j && a in sel && b in sel && HasEdge(g, a, b))
  {
    IndexOfDistinct(g.ids, i);
    IndexOfDistinct(g.ids, j);
    if a in g.ids && b in g.ids {
      var p, q := IndexOf(g.ids, a), IndexOf(g.ids, b);
      assert g.ids[p] == a && g.ids[q] == b;
    }
  }

  /** Finishing row `i` is starting row `i + 1`. */
  lemma CopiedRowDone<A, B>(g: Graph<A, B>, sel: set<Atom>, i: int, a: Atom, b: Atom)
    requires WellFormed(g)
    ensures Copied(g, sel, i, |g.ids|, a, b) <==> Copied(g, sel, i + 1, 0, a, b)
  {
    if a in sel && b in sel && HasEdge(g, a, b) {
      assert a in g.ids && b in g.ids;
      assert IndexOf(g.ids, a) < |g.ids| && IndexOf(g.ids, b) < |g.ids|;
    }
  }

  /** `cb[n][m] = cb[m][n] = bond` */
  function StoreBoth<B>(cb: map<Atom, map<Atom, B>>, n: Atom, m: Atom, bond: B): (r: map<Atom, map<Atom, B>>)
    requires n in cb && m in cb && n != m
    requires SymmetricRows(cb)
    ensures r.Keys == cb.Keys && SymmetricRows(r)
    ensures m in r[n] && n in r[m] && r[n][m] == bond && r[m][n] == bond
    ensures forall a, b :: {a, b} != {n, m} ==>
              (a in r && b in r[a] <==> a in cb && b in cb[a]) && (a in cb && b in cb[a] ==> r[a][b] == cb[a][b])
  {
    var c := cb[n := cb[n][m := bond]];
    c[m := c[m][n := bond]]
  }

  /** `substructure`: refuses an empty selection, then one naming an
      absent atom; otherwise the induced subgraph, with the graph's name
      only when `meta` is set, and the selected atoms in atom order. */
  method Substructure<A, B>(g: Graph<A, B>, atoms: seq<Atom>, meta: bool) returns (r: Result<(Graph<A, B>, seq<Atom>)>)
    requires WellFormed(g)
    ensures atoms == [] ==> r == Err(EmptyAtoms)
    ensures atoms != [] && !(Elements(atoms) <= g.atoms.Keys) ==> r == Err(InvalidAtoms)
    ensures r.Ok? <==> atoms != [] && Elements(atoms) <= g.atoms.Keys
    ensures r.Ok? ==>
      var (h, order) := r.value;
      && WellFormed(h)
      && InducedBy(g, Elements(atoms), h)
      && order == h.ids
      && h.name == (if meta then g.name else "")
  {
    if atoms == [] {
      return Err(EmptyAtoms);
    }
    var sel := Elements(atoms);
    if !(sel <= g.atoms.Keys) {
      return Err(InvalidAtoms);
    }
    var order := Filter(g.ids, sel);
    var cb := InducedBonds(g, sel);
    var h := Graph(order, map n | n in sel :: g.atoms[n], map n | n in sel :: g.charges[n], cb,
                   if meta then g.name else "");
    InducedShape(g, sel, h);
    return Ok((h, order));
  }

  lemma InducedShape<A, B>(g: Graph<A, B>, sel: set<Atom>, h: Graph<A, B>)
    requires WellFormed(g) && sel <= g.atoms.Keys
    requires h.ids == Filter(g.ids, sel)
    requires h.atoms == (map n | n in sel :: g.atoms[n]) && h.charges == (map n | n in sel :: g.charges[n])
    requires h.bonds.Keys == sel && SymmetricRows(h.bonds)
    requires forall a, b :: a in h.bonds && b in h.bonds[a] <==> a in sel && b in sel && HasEdge(g, a, b)
    requires forall a, b :: a in h.bonds && b in h.bonds[a] ==> HasEdge(g, a, b) && h.bonds[a][b] == g.bonds[a][b]
    ensures WellFormed(h) && InducedBy(g, sel, h)
  {
    InducedOrder(g, sel);
    InducedEdges(g, sel, h);
    assert h.atoms.Keys == sel && h.charges.Keys == sel;
    assert forall n :: n in h.ids <==> n in h.atoms;
    assert WellFormed(h);
    assert forall n :: n in sel ==> h.atoms[n] == g.atoms[n] && h.charges[n] == g.charges[n];
  }

  lemma InducedOrder<A, B>(g: Graph<A, B>, sel: set<Atom>)
    requires WellFormed(g) && sel <= g.atoms.Keys
    ensures Distinct(Filter(g.ids, sel))
    ensures forall n :: n in Filter(g.ids, sel) <==> n in sel
  {
    forall n | n in sel ensures n in g.ids {
      assert n in g.atoms;
    }
  }

  lemma InducedEdges<A, B>(g: Graph<A, B>, sel: set<Atom>, h: Graph<A, B>)
    requires WellFormed(g) && sel <= g.atoms.Keys
    requires forall a, b :: a in h.bonds && b in h.bonds[a] <==> a in sel && b in sel && HasEdge(g, a, b)
    requires forall a, b :: a in h.bonds && b in h.bonds[a] ==> HasEdge(g, a, b) && h.bonds[a][b] == g.bonds[a][b]
    ensures forall a, b :: a in sel && b in sel ==>
          && (HasEdge(h, a, b) <==> HasEdge(g, a, b))
          && (HasEdge(g, a, b) ==> h.bonds[a][b] == g.bonds[a][b])
    ensures forall a, b :: HasEdge(h, a, b) ==> a in sel && b in sel
  {
  }

  /** Selecting every atom, keeping the name, gives back the graph. */
  lemma InducedFull<A, B>(g: Graph<A, B>, h: Graph<A, B>)
    requires WellFormed(g)
    requires InducedBy(g, g.atoms.Keys, h) && h.name == g.name
    ensures h == g
  {
    IdsAreAtoms(g);
    assert forall x :: x in g.ids ==> x in g.atoms.Keys;
    FilterAll(g.ids, g.atoms.Keys);
    forall n | n in h.atoms ensures h.atoms[n] == g.atoms[n] {
      assert n in g.atoms.Keys;
    }
    SameMap(h.atoms, g.atoms);
    forall n | n in h.charges ensures h.charges[n] == g.charges[n] {
      assert n in g.atoms.Keys;
    }
    SameMap(h.charges, g.charges);
    forall a | a in g.bonds ensures h.bonds[a] == g.bonds[a] {
      FullRow(g, h, a);
    }
    SameMap(h.bonds, g.bonds);
  }

  /** With every atom selected, each row is copied whole. */
  lemma FullRow<A, B>(g: Graph<A, B>, h: Graph<A, B>, a: Atom)
    requires WellFormed(g)
    requires InducedBy(g, g.atoms.Keys, h)
    requires a in g.bonds
    ensures h.bonds[a] == g.bonds[a]
  {
    forall b ensures b in h.bonds[a] <==> b in g.bonds[a] {
      if b in g.bonds[a] {
        assert HasEdge(g, a, b);
      }
      if b in h.bonds[a] {
        assert HasEdge(h, a, b);
      }
    }
    forall b | b in h.bonds[a] ensures h.bonds[a][b] == g.bonds[a][b] {
      assert HasEdge(h, a, b);
    }
    SameMap(h.bonds[a], g.bonds[a]);
  }

  /** `__sub__`: the subgraph on the atoms not named; naming an absent atom
      or every atom is refused. */
  method Exclude<A, B>(g: Graph<A, B>, other: seq<Atom>) returns (r: Result<Graph<A, B>>)
    requires WellFormed(g)
    ensures !(Elements(other) <= g.atoms.Keys) ==> r == Err(InvalidAtoms)
    ensures Elements(other) <= g.atoms.Keys && g.atoms.Keys - Elements(other) == {} ==> r == Err(FullSubstitution)
    ensures r.Ok? <==> Elements(other) <= g.atoms.Keys && g.atoms.Keys - Elements(other) != {}
    ensures r.Ok? ==>
      && WellFormed(r.value)
      && InducedBy(g, g.atoms.Keys - Elements(other), r.value)
      && r.value.name == ""
  {
    var excluded := Elements(other);
    if !(excluded <= g.atoms.Keys) {
      return Err(InvalidAtoms);
    }
    var rest := g.atoms.Keys - excluded;
    if rest == {} {
      return Err(FullSubstitution);
    }
    var atoms := Filter(g.ids, rest);
    SelectionOrder(g, rest);
    var sub := Substructure(g, atoms, false);
    return Ok(sub.value.0);
  }

  /** A set of atoms listed in atom order: the same set, and empty only
      when the set is. */
  lemma SelectionOrder<A, B>(g: Graph<A, B>, s: set<Atom>)
    requires WellFormed(g) && s <= g.atoms.Keys
    ensures Elements(Filter(g.ids, s)) == s
    ensures Filter(g.ids, s) == [] <==> s == {}
  {
    forall n | n in s ensures n in Filter(g.ids, s) {
      assert n in g.atoms;
    }
    if s != {} {
      var n := Pick(s);
      assert n in Filter(g.ids, s);
    }
    ElementsEmpty(Filter(g.ids, s));
  }

  /** One layer more: the atoms of `s` and all their neighbours
      (`{y for x in s for y in bonds[x]} | s`). */
  function Expand<A, B>(g: Graph<A, B>, s: set<Atom>): (r: set<Atom>)
    ensures s <= r
    ensures r - s <= g.atoms.Keys
  {
    (set y | y in g.atoms && Adjacent(g, s, y)) + s
  }

  /** `y` is a neighbour of some atom of `s`. */
  predicate Adjacent<A, B>(g: Graph<A, B>, s: set<Atom>, y: Atom) {
    exists x :: x in s && x in g.bonds && y in g.bonds[x]
  }

  /** `s` grown by `k` layers: the reference the layer loop follows. */
  function ExpandN<A, B>(g: Graph<A, B>, s: set<Atom>, k: nat): (r: set<Atom>)
    ensures s <= r
    ensures r - s <= g.atoms.Keys
  {
    if k == 0 then s else Expand(g, ExpandN(g, s, k - 1))
  }

  /** Growing a selection of atoms never leaves the graph. */
  lemma ExpandWithin<A, B>(g: Graph<A, B>, s: set<Atom>, k: nat)
    requires s <= g.atoms.Keys
    ensures ExpandN(g, s, k) <= g.atoms.Keys
  {
    var r := ExpandN(g, s, k);
    forall y | y in r ensures y in g.atoms {
      if y !in s {
        assert y in r - s;
      }
    }
  }

  /** Once a layer adds nothing, every later layer is the same. */
  lemma {:induction false} FixpointStays<A, B>(g: Graph<A, B>, s: set<Atom>, k: nat, m: nat)
    requires Expand(g, ExpandN(g, s, k)) <= ExpandN(g, s, k)
    requires k <= m
    ensures ExpandN(g, s, m) == ExpandN(g, s, k)
  {
    FixpointBound(g, s, k, m);
    ExpandMonotone(g, s, k, m);
  }

  /** Past a layer that adds nothing, no layer leaves it. */
  lemma {:induction false} FixpointBound<A, B>(g: Graph<A, B>, s: set<Atom>, k: nat, m: nat)
    requires Expand(g, ExpandN(g, s, k)) <= ExpandN(g, s, k)
    requires k <= m
    ensures ExpandN(g, s, m) <= ExpandN(g, s, k)
    decreases m
  {
    if m > k {
      FixpointBound(g, s, k, m - 1);
      ExpandGrows(g, ExpandN(g, s, m - 1), ExpandN(g, s, k));
    }
  }

  /** A larger selection grows into a larger layer. */
  lemma ExpandGrows<A, B>(g: Graph<A, B>, a: set<Atom>, b: set<Atom>)
    requires a <= b
    ensures Expand(g, a) <= Expand(g, b)
  {
    forall y | y in Expand(g, a) ensures y in Expand(g, b) {
      if y !in a {
        var x :| x in a && x in g.bonds && y in g.bonds[x];
        assert Adjacent(g, b, y);
      }
    }
  }

  /** The number of rounds `range(deep)` runs. */
  function Rounds(deep: int): nat {
    if deep < 0 then 0 else deep
  }

  /** `__augmented_substructure`: the layers `atoms`, `atoms` plus their
      neighbours, and so on, for at most `deep` rounds, stopping early at
      the first layer that repeats one already listed. */
  method Layers<A, B>(g: Graph<A, B>, atoms: seq<Atom>, deep: int) returns (r: Result<seq<set<Atom>>>)
    requires WellFormed(g)
    ensures r.Ok? <==> Elements(atoms) <= g.atoms.Keys
    ensures r.Err? ==> r.error == InvalidAtoms
    ensures r.Ok? ==> LayersOf(g, Elements(atoms), deep, r.value)
  {
    var s := Elements(atoms);
    if !(s <= g.atoms.Keys) {
      return Err(InvalidAtoms);
    }
    var nodes := [s];
    var i := 0;
    var stop := false;
    while i < deep && !stop
      invariant 0 <= i <= Rounds(deep)
      invariant |nodes| == i + 1
      invariant GrownLayers(g, s, nodes)
      invariant stop ==> Expand(g, nodes[i]) <= nodes[i]
      decreases deep - i, if stop then 0 else 1
    {
      var n := Expand(g, nodes[i]);
      if n in nodes {
        assert n <= nodes[i] by {
          RepeatIsFixpoint(g, s, nodes, n);
        }
        stop := true;
      } else {
        GrowLayer(g, s, nodes, n);
        nodes := nodes + [n];
        i := i + 1;
      }
    }
    var last := nodes[|nodes| - 1];
    assert last == ExpandN(g, s, i);
    if !stop {
      assert i == Rounds(deep);
    } else {
      assert last == ExpandN(g, s, Rounds(deep)) by {
        FixpointStays(g, s, i, Rounds(deep));
      }
      assert Expand(g, last) <= last && last <= Expand(g, last);
    }
    assert LayersOf(g, s, deep, nodes);
    return Ok(nodes);
  }

  /** What the layer loop returns for the selection `s`: at most `deep + 1`
      layers, each the previous plus its neighbours, ending at a fixpoint
      or after `deep` rounds, the last being the `deep`-fold expansion. */
  ghost predicate LayersOf<A, B>(g: Graph<A, B>, s: set<Atom>, deep: int, layers: seq<set<Atom>>) {
    && 1 <= |layers| <= Rounds(deep) + 1
    && GrownLayers(g, s, layers)
    && (|layers| == Rounds(deep) + 1 || Expand(g, layers[|layers| - 1]) == layers[|layers| - 1])
    && layers[|layers| - 1] == ExpandN(g, s, Rounds(deep))
  }

  /** `layers[k]` is the selection grown by `k` layers, and no layer is
      listed twice. */
  ghost predicate GrownLayers<A, B>(g: Graph<A, B>, s: set<Atom>, layers: seq<set<Atom>>) {
    && (forall k :: 0 <= k < |layers| ==> layers[k] == ExpandN(g, s, k))
    && Distinct(layers)
  }

  /** A new layer that repeats none of the listed ones extends them. */
  lemma GrowLayer<A, B>(g: Graph<A, B>, s: set<Atom>, layers: seq<set<Atom>>, n: set<Atom>)
    requires layers != [] && GrownLayers(g, s, layers)
    requires n == Expand(g, layers[|layers| - 1]) && n !in layers
    ensures GrownLayers(g, s, layers + [n])
  {
    var next := layers + [n];
    assert n == ExpandN(g, s, |layers|);
    forall k, l | 0 <= k < l < |next| ensures next[k] != next[l] {
      if l == |layers| {
        assert next[k] == layers[k];
        assert layers[k] in layers;
      }
    }
  }

  /** A new layer that repeats a listed one repeats the last: the layers
      only grow. */
  lemma RepeatIsFixpoint<A, B>(g: Graph<A, B>, s: set<Atom>, layers: seq<set<Atom>>, n: set<Atom>)
    requires layers != [] && GrownLayers(g, s, layers)
    requires n == Expand(g, layers[|layers| - 1]) && n in layers
    ensures n == layers[|layers| - 1]
  {
    var i := |layers| - 1;
    var k :| 0 <= k < |layers| && layers[k] == n;
    var t := layers[i];
    assert t <= n;
    assert n <= t by {
      assert n == ExpandN(g, s, k) && t == ExpandN(g, s, i);
      ExpandMonotone(g, s, k, i);
    }
  }

  /** Growing more layers never loses an atom. */
  lemma {:induction false} ExpandMonotone<A, B>(g: Graph<A, B>, s: set<Atom>, k: nat, l: nat)
    requires k <= l
    ensures ExpandN(g, s, k) <= ExpandN(g, s, l)
    decreases l
  {
    if k < l {
      ExpandMonotone(g, s, k, l - 1);
      var a, b, c := ExpandN(g, s, k), ExpandN(g, s, l - 1), ExpandN(g, s, l);
      forall y | y in a ensures y in c {
        assert y in b;
      }
    }
  }

  /** Listed layers strictly grow. */
  lemma LayersIncrease<A, B>(g: Graph<A, B>, s: set<Atom>, layers: seq<set<Atom>>, k: nat, l: nat)
    requires GrownLayers(g, s, layers)
    requires k < l < |layers|
    ensures layers[k] < layers[l]
  {
    ExpandMonotone(g, s, k, l);
    assert layers[k] <= layers[l];
    assert layers[k] != layers[l];
  }

  /** `augmented_substructure`: the subgraph induced by the last layer.
      Since the layers stop only at a fixpoint, that is `atoms` grown by
      `deep` layers. */
  method AugmentedSubstructure<A, B>(g: Graph<A, B>, atoms: seq<Atom>, deep: int, meta: bool) returns (r: Result<Graph<A, B>>)
    requires WellFormed(g)
    ensures !(Elements(atoms) <= g.atoms.Keys) ==> r == Err(InvalidAtoms)
    ensures Elements(atoms) <= g.atoms.Keys && atoms == [] ==> r == Err(EmptyAtoms)
    ensures r.Ok? <==> Elements(atoms) <= g.atoms.Keys && atoms != []
    ensures r.Ok? ==>
      && WellFormed(r.value)
      && InducedBy(g, ExpandN(g, Elements(atoms), Rounds(deep)), r.value)
      && r.value.name == (if meta then g.name else "")
  {
    var layers := Layers(g, atoms, deep);
    if layers.Err? {
      return Err(layers.error);
    }
    var last := layers.value[|layers.value| - 1];
    SelectionOrder(g, last);
    ElementsEmpty(atoms);
    GrowEmpty(g, Elements(atoms), Rounds(deep));
    var sub := Substructure(g, Filter(g.ids, last), meta);
    if sub.Err? {
      return Err(sub.error);
    }
    return Ok(sub.value.0);
  }

  /** Growing a selection leaves it empty exactly when it started empty. */
  lemma {:induction false} GrowEmpty<A, B>(g: Graph<A, B>, s: set<Atom>, k: nat)
    ensures ExpandN(g, s, k) == {} <==> s == {}
  {
    if k > 0 {
      GrowEmpty(g, s, k - 1);
      var t := ExpandN(g, s, k - 1);
      if t == {} {
        assert Expand(g, t) == {};
      }
    }
  }
}
