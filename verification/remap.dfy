/** `Graph.remap`: renumbering atoms through a partial mapping, each atom
    `n` going to `mapping.get(n, n)`. The result dicts are rebuilt by
    assigning key after key in atom order, so two atoms sent to the same
    number overwrite each other. */
module Remaps {
  import opened Collections
  import opened Graphs

  /** `mg(n, n)`: the new number of atom `n`. */
  function Rename(f: map<Atom, Atom>, n: Atom): Atom {
    if n in f then f[n] else n
  }

  /** No two members of `s` receive the same new number. */
  ghost predicate InjectiveOn(f: map<Atom, Atom>, s: set<Atom>) {
    forall a, b :: a in s && b in s && Rename(f, a) == Rename(f, b) ==> a == b
  }

  /** `{mg(n, n): v for n, v in src.items()}` with `src` visited in the
      order `order`: later keys overwrite earlier ones. */
  function RenameInto<V>(order: seq<Atom>, src: map<Atom, V>, f: map<Atom, Atom>): (r: map<Atom, V>)
    ensures r.Keys == set n | n in order && n in src :: Rename(f, n)
  {
    if order == [] then map[]
    else
      var init := order[..|order| - 1];
      var n := order[|order| - 1];
      var r := RenameInto(init, src, f);
      assert forall x :: x in order <==> x in init || x == n;
      if n in src then r[Rename(f, n) := src[n]] else r
  }

  /** The key order of the rebuilt dict: a new number takes the position of
      its first assignment. */
  function RenameOrder(order: seq<Atom>, f: map<Atom, Atom>): (r: seq<Atom>)
    ensures forall k :: k in r <==> exists n :: n in order && k == Rename(f, n)
  {
    if order == [] then []
    else
      var init := order[..|order| - 1];
      var n := order[|order| - 1];
      var r := RenameOrder(init, f);
      assert forall x :: x in order <==> x in init || x == n;
      if Rename(f, n) in r then r else r + [Rename(f, n)]
  }

  /** Each adjacency row renamed, the neighbours visited in atom order. */
  function RenamedRows<A, B>(g: Graph<A, B>, f: map<Atom, Atom>): (r: map<Atom, map<Atom, B>>)
    ensures r.Keys == g.bonds.Keys
  {
    map n | n in g.bonds :: RenameInto(g.ids, g.bonds[n], f)
  }

  /** The graph the body of `remap` builds, without the overlap check. */
  function Rebuild<A, B>(g: Graph<A, B>, f: map<Atom, Atom>): Graph<A, B> {
    Graph(
      RenameOrder(g.ids, f),
      RenameInto(g.ids, g.atoms, f),
      RenameInto(g.ids, g.charges, f),
      RenameInto(g.ids, RenamedRows(g, f), f),
      g.name)
  }

  /** `remap` as written: only a mapping with repeated values is refused. */
  function RemapAsWritten<A, B>(g: Graph<A, B>, f: map<Atom, Atom>): (r: Result<Graph<A, B>>)
    ensures r.Ok? <==> |f.Values| == |f.Keys|
    ensures r.Ok? <==> forall a, b :: a in f && b in f && f[a] == f[b] ==> a == b
    ensures r.Err? ==> r.error == MappingOverlap
    ensures r.Ok? ==> r.value == Rebuild(g, f)
  {
    DistinctValuesCard(f);
    if |f.Values| != |f.Keys| then Err(MappingOverlap) else Ok(Rebuild(g, f))
  }

  /** An atom left unmapped keeps its number; a mapping that sends
      another atom onto that number merges the two. */
  predicate Collides<A, B>(g: Graph<A, B>, f: map<Atom, Atom>) {
    exists a :: a in f && a in g.atoms && f[a] in g.atoms && f[a] !in f
  }

  /** `remap` as evidently intended: besides the source's test, a mapping
      is refused when it sends an atom onto the number of an atom it leaves
      in place, so that no two atoms of the graph share a new number. */
  function Remap<A, B>(g: Graph<A, B>, f: map<Atom, Atom>): (r: Result<Graph<A, B>>)
    ensures r.Ok? <==> |f.Values| == |f.Keys| && InjectiveOn(f, g.atoms.Keys)
    ensures r.Err? ==> r.error == MappingOverlap
    ensures r.Ok? ==> r.value == Rebuild(g, f)
  {
    DistinctValuesCard(f);
    if |f.Values| != |f.Keys| then Err(MappingOverlap)
    else if Collides(g, f) then
      CollisionNotInjective(g, f);
      Err(MappingOverlap)
    else
      NoCollisionInjective(g, f);
      Ok(Rebuild(g, f))
  }

  /** The source's test `len(mapping) != len(set(mapping.values()))` is
      exactly "two keys share a value". */
  lemma DistinctValuesCard(f: map<Atom, Atom>)
    ensures |f.Values| == |f.Keys| <==> forall a, b :: a in f && b in f && f[a] == f[b] ==> a == b
  {
    ValuesAsImage(f);
    if forall a, b :: a in f && b in f && f[a] == f[b] ==> a == b {
      InjectiveImageCard(f.Keys, f);
    } else {
      var a, b :| a in f && b in f && f[a] == f[b] && a != b;
      ImageCardLe(f.Keys - {a}, f);
      var rest := SetImage(f.Keys - {a}, f);
      forall v | v in f.Values ensures v in rest {
        var k := ValueSource(f, v);
        if k == a {
          assert f[b] in rest;
        } else {
          assert f[k] in rest;
        }
      }
      SubsetCard(f.Values, rest);
    }
  }

  lemma CollisionNotInjective<A, B>(g: Graph<A, B>, f: map<Atom, Atom>)
    requires Collides(g, f)
    ensures !InjectiveOn(f, g.atoms.Keys)
  {
    var a :| a in f && a in g.atoms && f[a] in g.atoms && f[a] !in f;
    var k := f[a];
    assert Rename(f, a) == Rename(f, k) && a != k;
  }

  lemma NoCollisionInjective<A, B>(g: Graph<A, B>, f: map<Atom, Atom>)
    requires forall a, b :: a in f && b in f && f[a] == f[b] ==> a == b
    requires !Collides(g, f)
    ensures InjectiveOn(f, g.atoms.Keys)
  {
  }

  /** Under an injective renaming every source key lands on its own new
      number, carrying its value. */
  lemma {:induction false} RenameIntoAt<V>(order: seq<Atom>, src: map<Atom, V>, f: map<Atom, Atom>, s: set<Atom>, n: Atom)
    requires forall x :: x in order ==> x in s
    requires InjectiveOn(f, s)
    requires n in order && n in src
    ensures Rename(f, n) in RenameInto(order, src, f)
    ensures RenameInto(order, src, f)[Rename(f, n)] == src[n]
  {
    var init := order[..|order| - 1];
    var m := order[|order| - 1];
    assert forall x :: x in order <==> x in init || x == m;
    if m != n {
      RenameIntoAt(init, src, f, s, n);
    }
  }

  /** Under an injective renaming the key order is the order renamed
      position by position. */
  lemma {:induction false} RenameOrderAt(order: seq<Atom>, f: map<Atom, Atom>, s: set<Atom>)
    requires Distinct(order)
    requires forall x :: x in order ==> x in s
    requires InjectiveOn(f, s)
    ensures |RenameOrder(order, f)| == |order|
    ensures forall i :: 0 <= i < |order| ==> RenameOrder(order, f)[i] == Rename(f, order[i])
  {
    if order != [] {
      var init := order[..|order| - 1];
      var m := order[|order| - 1];
      assert forall x :: x in order <==> x in init || x == m;
      assert Distinct(init);
      RenameOrderAt(init, f, s);
      assert m !in init;
      assert Rename(f, m) !in RenameOrder(init, f);
    }
  }

  /** `h` is `g` with every atom `n` renumbered to `Rename(f, n)`: the
      order, labels, charges and bonds follow the atoms, and nothing else
      is in `h`. */
  ghost predicate Renumbered<A, B>(g: Graph<A, B>, f: map<Atom, Atom>, h: Graph<A, B>)
    requires WellFormed(g)
  {
    && |h.ids| == |g.ids|
    && (forall i :: 0 <= i < |g.ids| ==> h.ids[i] == Rename(f, g.ids[i]))
    && (forall k :: k in h.atoms <==> exists n :: n in g.atoms && Rename(f, n) == k)
    && (forall n :: n in g.atoms ==>
          && Rename(f, n) in h.atoms && h.atoms[Rename(f, n)] == g.atoms[n]
          && Rename(f, n) in h.charges && h.charges[Rename(f, n)] == g.charges[n])
    && (forall n, m :: n in g.atoms && m in g.atoms ==>
          && (HasEdge(h, Rename(f, n), Rename(f, m)) <==> HasEdge(g, n, m))
          && (HasEdge(g, n, m) ==> h.bonds[Rename(f, n)][Rename(f, m)] == g.bonds[n][m]))
    && h.name == g.name
  }

  /** A mapping `Remap` accepts renumbers the graph and keeps it well
      formed. */
  lemma RemapRenumbers<A, B>(g: Graph<A, B>, f: map<Atom, Atom>, h: Graph<A, B>)
    requires WellFormed(g)
    requires Remap(g, f) == Ok(h)
    ensures WellFormed(h)
    ensures Renumbered(g, f, h)
  {
    RebuildRenumbers(g, f, g.atoms.Keys, h);
  }

  /** The rebuilt graph under a renaming injective on the atoms and the
      mapping's keys. */
  lemma RebuildRenumbers<A, B>(g: Graph<A, B>, f: map<Atom, Atom>, s: set<Atom>, h: Graph<A, B>)
    requires WellFormed(g)
    requires s == g.atoms.Keys && InjectiveOn(f, s) && h == Rebuild(g, f)
    ensures WellFormed(h)
    ensures Renumbered(g, f, h)
  {
    RebuildNodes(g, f, s);
    assert SymmetricRows(h.bonds) by { RebuildEdges(g, f, s, h.bonds); }
    forall n, m | n in g.atoms && m in g.atoms
      ensures (HasEdge(h, Rename(f, n), Rename(f, m)) <==> HasEdge(g, n, m))
      ensures HasEdge(g, n, m) ==> h.bonds[Rename(f, n)][Rename(f, m)] == g.bonds[n][m]
    {
      RebuiltEdge(g, f, s, h.bonds, n, m);
    }
  }

  lemma RebuildNodes<A, B>(g: Graph<A, B>, f: map<Atom, Atom>, s: set<Atom>)
    requires WellFormed(g)
    requires s == g.atoms.Keys && InjectiveOn(f, s)
    ensures var h := Rebuild(g, f);
      && Distinct(h.ids)
      && (forall k :: k in h.ids <==> k in h.atoms)
      && h.charges.Keys == h.atoms.Keys
      && h.bonds.Keys == h.atoms.Keys
      && |h.ids| == |g.ids|
      && (forall i :: 0 <= i < |g.ids| ==> h.ids[i] == Rename(f, g.ids[i]))
      && (forall k :: k in h.atoms <==> exists n :: n in g.atoms && Rename(f, n) == k)
      && (forall n :: n in g.atoms ==>
            && Rename(f, n) in h.atoms && h.atoms[Rename(f, n)] == g.atoms[n]
            && Rename(f, n) in h.charges && h.charges[Rename(f, n)] == g.charges[n])
  {
    RebuildOrder(g, f, s);
    RebuildKeys(g, f);
    RebuildLabels(g, f, s, g.atoms);
    RebuildLabels(g, f, s, g.charges);
  }

  /** The new order is the old one renamed position by position. */
  lemma RebuildOrder<A, B>(g: Graph<A, B>, f: map<Atom, Atom>, s: set<Atom>)
    requires WellFormed(g)
    requires s == g.atoms.Keys && InjectiveOn(f, s)
    ensures var ids := RenameOrder(g.ids, f);
      && Distinct(ids) && |ids| == |g.ids|
      && (forall i :: 0 <= i < |g.ids| ==> ids[i] == Rename(f, g.ids[i]))
  {
    var ids := RenameOrder(g.ids, f);
    assert forall x :: x in g.ids ==> x in s;
    RenameOrderAt(g.ids, f, s);
    forall i, j | 0 <= i < j < |ids| ensures ids[i] != ids[j] {
      assert g.ids[i] != g.ids[j];
    }
  }

  /** Every rebuilt side table is keyed by the renamed atoms. */
  lemma RebuildKeys<A, B>(g: Graph<A, B>, f: map<Atom, Atom>)
    requires WellFormed(g)
    ensures var keys := RenameInto(g.ids, g.atoms, f).Keys;
      && (forall k :: k in RenameOrder(g.ids, f) <==> k in keys)
      && RenameInto(g.ids, g.charges, f).Keys == keys
      && RenameInto(g.ids, RenamedRows(g, f), f).Keys == keys
      && (forall k :: k in keys <==> exists n :: n in g.atoms && Rename(f, n) == k)
  {
    var keys := RenameInto(g.ids, g.atoms, f).Keys;
    var rows := RenamedRows(g, f);
    assert forall n :: n in g.ids <==> n in g.atoms;
    assert forall n :: n in g.atoms <==> n in g.charges;
    assert forall n :: n in g.atoms <==> n in rows;
  }

  /** Under an injective renaming a side table's entries follow their atoms. */
  lemma RebuildLabels<A, B, V>(g: Graph<A, B>, f: map<Atom, Atom>, s: set<Atom>, src: map<Atom, V>)
    requires WellFormed(g) && src.Keys == g.atoms.Keys
    requires s == g.atoms.Keys && InjectiveOn(f, s)
    ensures forall n :: n in g.atoms ==> Rename(f, n) in RenameInto(g.ids, src, f) && RenameInto(g.ids, src, f)[Rename(f, n)] == src[n]
  {
    assert forall x :: x in g.ids ==> x in s;
    forall n | n in g.atoms ensures Rename(f, n) in RenameInto(g.ids, src, f) && RenameInto(g.ids, src, f)[Rename(f, n)] == src[n] {
      RenameIntoAt(g.ids, src, f, s, n);
    }
  }

  lemma RebuildEdges<A, B>(g: Graph<A, B>, f: map<Atom, Atom>, s: set<Atom>, hb: map<Atom, map<Atom, B>>)
    requires WellFormed(g)
    requires s == g.atoms.Keys && InjectiveOn(f, s)
    requires hb == RenameInto(g.ids, RenamedRows(g, f), f)
    ensures SymmetricRows(hb)
    ensures forall n, m :: n in g.atoms && m in g.atoms ==>
      && n in g.bonds && Rename(f, n) in hb
      && (Rename(f, m) in hb[Rename(f, n)] <==> m in g.bonds[n])
      && (m in g.bonds[n] ==> hb[Rename(f, n)][Rename(f, m)] == g.bonds[n][m])
  {
    forall k, j | k in hb && j in hb[k]
      ensures j != k && j in hb && k in hb[j] && hb[j][k] == hb[k][j]
    {
      RebuiltBondSymmetric(g, f, s, k, j);
    }
    forall n, m | n in g.atoms && m in g.atoms
      ensures n in g.bonds && Rename(f, n) in hb
      ensures Rename(f, m) in hb[Rename(f, n)] <==> m in g.bonds[n]
      ensures m in g.bonds[n] ==> hb[Rename(f, n)][Rename(f, m)] == g.bonds[n][m]
    {
      RebuiltEdge(g, f, s, hb, n, m);
    }
  }

  /** The renamed ends of a pair of atoms are bonded exactly when the
      atoms were, by the same bond. */
  lemma RebuiltEdge<A, B>(g: Graph<A, B>, f: map<Atom, Atom>, s: set<Atom>, hb: map<Atom, map<Atom, B>>, n: Atom, m: Atom)
    requires WellFormed(g)
    requires s == g.atoms.Keys && InjectiveOn(f, s)
    requires hb == RenameInto(g.ids, RenamedRows(g, f), f)
    requires n in g.atoms && m in g.atoms
    ensures n in g.bonds && Rename(f, n) in hb
    ensures Rename(f, m) in hb[Rename(f, n)] <==> m in g.bonds[n]
    ensures m in g.bonds[n] ==> hb[Rename(f, n)][Rename(f, m)] == g.bonds[n][m]
  {
    RebuiltRows(g, f, s);
    assert hb[Rename(f, n)] == RenameInto(g.ids, g.bonds[n], f);
    if m in g.bonds[n] {
      assert forall x :: x in g.ids ==> x in s;
      RenameIntoAt(g.ids, g.bonds[n], f, s, m);
    }
  }

  /** Each rebuilt row sits under its atom's new number. */
  lemma RebuiltRows<A, B>(g: Graph<A, B>, f: map<Atom, Atom>, s: set<Atom>)
    requires WellFormed(g)
    requires s == g.atoms.Keys && InjectiveOn(f, s)
    ensures var hb := RenameInto(g.ids, RenamedRows(g, f), f);
      forall n :: n in g.atoms ==> Rename(f, n) in hb && hb[Rename(f, n)] == RenamedRows(g, f)[n]
  {
    var rows := RenamedRows(g, f);
    var hb := RenameInto(g.ids, rows, f);
    assert forall x :: x in g.ids ==> x in s;
    forall n | n in g.atoms ensures Rename(f, n) in hb && hb[Rename(f, n)] == rows[n] {
      RenameIntoAt(g.ids, rows, f, s, n);
    }
  }

  /** A rebuilt bond is stored under both of its ends with one label. */
  lemma RebuiltBondSymmetric<A, B>(g: Graph<A, B>, f: map<Atom, Atom>, s: set<Atom>, k: Atom, j: Atom)
    requires WellFormed(g)
    requires s == g.atoms.Keys && InjectiveOn(f, s)
    requires k in RenameInto(g.ids, RenamedRows(g, f), f) && j in RenameInto(g.ids, RenamedRows(g, f), f)[k]
    ensures var hb := RenameInto(g.ids, RenamedRows(g, f), f);
      j != k && j in hb && k in hb[j] && hb[j][k] == hb[k][j]
  {
    var rows := RenamedRows(g, f);
    var hb := RenameInto(g.ids, rows, f);
    RebuiltRows(g, f, s);
    assert forall x :: x in g.ids ==> x in s;
    var n :| n in g.ids && n in rows && k == Rename(f, n);
    assert hb[k] == rows[n];
    assert j in RenameInto(g.ids, g.bonds[n], f);
    var m :| m in g.ids && m in g.bonds[n] && j == Rename(f, m);
    assert HasEdge(g, n, m) && HasEdge(g, m, n);
    RenameIntoAt(g.ids, g.bonds[n], f, s, m);
    RenameIntoAt(g.ids, g.bonds[m], f, s, n);
    assert hb[j] == rows[m];
  }

  /** Two atoms numbered 1 and 2 joined by one bond. */
  function BondedPair<A, B>(a: A, b: B): Graph<A, B> {
    Graph([1, 2], map[1 := a, 2 := a], map[1 := 0, 2 := 0], map[1 := map[2 := b], 2 := map[1 := b]], "")
  }

  lemma BondedPairWellFormed<A, B>(a: A, b: B)
    ensures WellFormed(BondedPair(a, b))
  {
    var g := BondedPair(a, b);
    assert g.atoms.Keys == {1, 2} && g.charges.Keys == {1, 2} && g.bonds.Keys == {1, 2};
    assert forall n :: n in g.ids <==> n == 1 || n == 2;
    assert g.bonds[1].Keys == {2} && g.bonds[2].Keys == {1};
    forall n, m | n in g.bonds && m in g.bonds[n] ensures m != n && m in g.bonds && n in g.bonds[m] && g.bonds[m][n] == g.bonds[n][m] {
      assert n == 1 || n == 2;
    }
  }

  /** The renumbering as written merges atoms 1 and 2 of a bonded pair
      under the mapping `{1: 2}`, which it accepts: one atom is left,
      bonded to itself. */
  lemma RemapAsWrittenMergesAtoms<A, B>(a: A, b: B)
    ensures WellFormed(BondedPair(a, b))
    ensures RemapAsWritten(BondedPair(a, b), map[1 := 2]).Ok?
    ensures var h := RemapAsWritten(BondedPair(a, b), map[1 := 2]).value;
      h.atoms.Keys == {2} && HasEdge(h, 2, 2) && !WellFormed(h)
  {
    BondedPairWellFormed(a, b);
    SingleValue(1, 2);
    MergedRows(a, b);
  }

  /** A one-entry mapping passes the source's test. */
  lemma SingleValue(k: Atom, v: Atom)
    ensures |map[k := v].Values| == |map[k := v].Keys|
  {
    var f := map[k := v];
    assert f.Values == {v} by {
      assert f[k] == v;
      forall u | u in f.Values ensures u == v {
        var j := ValueSource(f, u);
      }
    }
  }

  lemma MergedRows<A, B>(a: A, b: B)
    ensures var h := Rebuild(BondedPair(a, b), map[1 := 2]);
      h.atoms.Keys == {2} && HasEdge(h, 2, 2) && !WellFormed(h)
  {
    var g := BondedPair(a, b);
    var f := map[1 := 2];
    assert [1, 2][..1] == [1];
    assert [1][..0] == [];
    var row := map[1 := b];
    assert RenameInto([1], row, f) == map[2 := b];
    assert RenameInto([1, 2], row, f) == map[2 := b];
    assert RenamedRows(g, f)[2] == map[2 := b];
  }

  /** The corrected check refuses that mapping. */
  lemma RemapRefusesMerge<A, B>(a: A, b: B)
    ensures Remap(BondedPair(a, b), map[1 := 2]) == Err(MappingOverlap)
  {
    var f := map[1 := 2];
    assert Rename(f, 1) == Rename(f, 2);
  }

  /** A key that is no atom of the graph renames nothing, and the
      corrected check accepts it as the source does. */
  lemma RemapAcceptsUnusedKey<A, B>(a: A, b: B)
    ensures Remap(BondedPair(a, b), map[99 := 1]).Ok?
    ensures Remap(BondedPair(a, b), map[99 := 1]).value == BondedPair(a, b)
  {
    var g, f := BondedPair(a, b), map[99 := 1];
    SingleValue(99, 1);
    BondedPairWellFormed(a, b);
    assert g.atoms.Keys == {1, 2};
    assert Rename(f, 1) == 1 && Rename(f, 2) == 2;
    RemapFixingAll(g, f);
  }

  /** A mapping that sends every atom of the graph to itself, and passes
      the source's test, renumbers nothing: the graph comes back as it
      was. */
  lemma RemapFixingAll<A, B>(g: Graph<A, B>, f: map<Atom, Atom>)
    requires WellFormed(g)
    requires |f.Values| == |f.Keys|
    requires forall n :: n in g.atoms ==> Rename(f, n) == n
    ensures Remap(g, f) == Ok(g)
  {
    assert InjectiveOn(f, g.atoms.Keys);
    assert forall n, m :: n in g.bonds && m in g.bonds[n] ==> m in g.atoms;
    RebuildFixingAll(g, f);
  }

  lemma RebuildFixingAll<A, B>(g: Graph<A, B>, f: map<Atom, Atom>)
    requires Distinct(g.ids)
    requires forall n :: n in g.ids <==> n in g.atoms
    requires g.charges.Keys == g.atoms.Keys && g.bonds.Keys == g.atoms.Keys
    requires forall n, m :: n in g.bonds && m in g.bonds[n] ==> m in g.atoms
    requires forall n :: n in g.atoms ==> Rename(f, n) == n
    ensures Rebuild(g, f) == g
  {
    var s := g.ids;
    assert forall n :: n in s ==> Rename(f, n) == n;
    assert RenameOrder(s, f) == s by { FixedOrder(s, f); }
    assert RenameInto(s, g.atoms, f) == g.atoms by { FixedCopy(s, g.atoms, f); }
    assert RenameInto(s, g.charges, f) == g.charges by { FixedCopy(s, g.charges, f); }
    assert RenamedRows(g, f) == g.bonds by { FixedRows(g, f); }
    assert RenameInto(s, g.bonds, f) == g.bonds by { FixedCopy(s, g.bonds, f); }
  }

  /** Each adjacency row, its neighbours all fixed, is copied whole. */
  lemma FixedRows<A, B>(g: Graph<A, B>, f: map<Atom, Atom>)
    requires forall n, m :: n in g.bonds && m in g.bonds[n] ==> m in g.ids
    requires forall n :: n in g.ids ==> Rename(f, n) == n
    ensures RenamedRows(g, f) == g.bonds
  {
    var rows := RenamedRows(g, f);
    forall n | n in g.bonds ensures rows[n] == g.bonds[n] {
      FixedCopy(g.ids, g.bonds[n], f);
    }
  }

  /** A map whose keys are all visited, and all fixed, is copied whole. */
  lemma FixedCopy<V>(order: seq<Atom>, src: map<Atom, V>, f: map<Atom, Atom>)
    requires forall n :: n in order ==> Rename(f, n) == n
    requires forall n :: n in src ==> n in order
    ensures RenameInto(order, src, f) == src
  {
    FixedValues(order, src, f);
    var r := RenameInto(order, src, f);
    forall n | n in src ensures n in r {
      assert n in order && Rename(f, n) == n;
    }
    assert r.Keys == src.Keys;
  }

  /** Visiting keys that the mapping fixes copies their values unchanged. */
  lemma {:induction false} FixedValues<V>(order: seq<Atom>, src: map<Atom, V>, f: map<Atom, Atom>)
    requires forall n :: n in order ==> Rename(f, n) == n
    ensures forall n :: n in RenameInto(order, src, f) ==> n in src && RenameInto(order, src, f)[n] == src[n]
  {
    if order != [] {
      var init := order[..|order| - 1];
      assert forall x :: x in init ==> x in order;
      FixedValues(init, src, f);
    }
  }

  /** Fixed, distinct keys keep their order. */
  lemma {:induction false} FixedOrder(order: seq<Atom>, f: map<Atom, Atom>)
    requires Distinct(order)
    requires forall n :: n in order ==> Rename(f, n) == n
    ensures RenameOrder(order, f) == order
  {
    if order != [] {
      var init := order[..|order| - 1];
      var n := order[|order| - 1];
      assert order == init + [n];
      assert forall x :: x in init ==> x in order;
      FixedOrder(init, f);
      assert n !in init by {
        forall j | 0 <= j < |init| ensures init[j] != n {
          assert init[j] == order[j];
        }
      }
    }
  }
}
