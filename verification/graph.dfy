/** The attributed graph of CGRtools' `Graph` container: atom numbers in
    insertion order, an opaque label per atom, a formal charge per atom and
    a symmetric adjacency map `atom -> (neighbour -> bond label)`. Python
    exceptions become `Err` results; Python's dict insertion order is kept
    in `ids`. */
module Graphs {
  import opened Collections

  type Atom = int

  /** The exceptions the container raises, one constructor per message. */
  datatype Error =
    | AtomLoop          // ValueError: atom loops impossible
    | AtomNotFound      // AtomNotFound: atoms not found
    | AlreadyBonded     // ValueError: atoms already bonded
    | AtomExists        // ValueError: atom with same number exists
    | KeyMissing        // KeyError raised by a dict deletion
    | ChargeOutOfRange  // ValueError: formal charge should be in range [-4, 4]
    | NameTooLong       // ValueError: name should be string up to 80 symbols
    | EmptyAtoms        // ValueError: empty atoms list not allowed
    | InvalidAtoms      // ValueError: invalid atom numbers
    | MappingOverlap    // ValueError: mapping overlap
    | FullSubstitution  // ValueError: full substitution not allowed
    | EmptyQuery        // IndexError: matching a query without atoms
    | PrimesExhausted   // StopIteration: more classes than the prime table holds

  datatype Result<T> = Ok(value: T) | Err(error: Error)

  datatype Option<T> = None | Some(value: T)

  /** `ids` is the iteration order of the atom and bond dicts (they are
      filled in the same order); `atoms`, `charges` and `bonds` are the dicts
      themselves. */
  datatype Graph<A, B> = Graph(
    ids: seq<Atom>,
    atoms: map<Atom, A>,
    charges: map<Atom, int>,
    bonds: map<Atom, map<Atom, B>>,
    name: string)

  /** The container's invariant: one order entry per atom, every side table
      keyed by the atoms, no self-loops, and every bond stored in both
      directions with the same label. */
  ghost predicate WellFormed<A, B>(g: Graph<A, B>) {
    && Distinct(g.ids)
    && (forall n :: n in g.ids <==> n in g.atoms)
    && g.charges.Keys == g.atoms.Keys
    && g.bonds.Keys == g.atoms.Keys
    && SymmetricRows(g.bonds)
  }

  /** No self-loops, and every bond is stored in both directions with the
      same label. */
  ghost predicate SymmetricRows<B>(bonds: map<Atom, map<Atom, B>>) {
    forall n, m :: n in bonds && m in bonds[n] ==>
      && m != n
      && m in bonds
      && n in bonds[m]
      && bonds[m][n] == bonds[n][m]
  }

  /** Every entry of the order is an atom with a charge and a row. */
  lemma IdsAreAtoms<A, B>(g: Graph<A, B>)
    requires WellFormed(g)
    ensures forall i :: 0 <= i < |g.ids| ==> g.ids[i] in g.atoms && g.ids[i] in g.charges && g.ids[i] in g.bonds
  {
    forall i | 0 <= i < |g.ids| ensures g.ids[i] in g.atoms && g.ids[i] in g.charges && g.ids[i] in g.bonds {
      var x := g.ids[i];
      assert x in g.ids;
      assert x in g.atoms;
    }
  }

  /** A bond read from either end is the same bond. */
  lemma EdgeSymmetric<A, B>(g: Graph<A, B>, n: Atom, m: Atom)
    requires SymmetricRows(g.bonds) && n in g.bonds && m in g.bonds[n]
    ensures m in g.bonds && n in g.bonds[m] && g.bonds[m][n] == g.bonds[n][m]
  {
  }

  /** The neighbours of an atom are atoms. */
  lemma RowInAtoms<A, B>(g: Graph<A, B>, n: Atom)
    requires WellFormed(g) && n in g.bonds
    ensures g.bonds[n].Keys <= g.atoms.Keys
  {
    forall m | m in g.bonds[n] ensures m in g.atoms {
      assert m in g.bonds;
    }
  }

  ghost predicate HasEdge<A, B>(g: Graph<A, B>, n: Atom, m: Atom) {
    n in g.bonds && m in g.bonds[n]
  }

  /** `o_bonds[n].get(m)`: the bond between `n` and `m`, if any. */
  function BondAt<A, B>(g: Graph<A, B>, n: Atom, m: Atom): (r: Option<B>)
    ensures r.Some? <==> HasEdge(g, n, m)
    ensures r.Some? ==> r.value == g.bonds[n][m]
  {
    if n in g.bonds && m in g.bonds[n] then Some(g.bonds[n][m]) else None
  }

  /** The number of atoms, `len(graph)`. */
  function Size<A, B>(g: Graph<A, B>): nat {
    |g.atoms|
  }

  /** A graph without atoms, as `Graph.__init__` leaves it. */
  function Empty<A, B>(): (g: Graph<A, B>)
    ensures WellFormed(g) && Size(g) == 0
  {
    Graph([], map[], map[], map[], "")
  }

  /** The largest element of a non-empty sequence. */
  function Max(s: seq<int>): (r: int)
    requires s != []
    ensures r in s && forall x :: x in s ==> x <= r
  {
    if |s| == 1 then s[0]
    else
      assert forall x :: x in s ==> x == s[0] || x in s[1..];
      var m := Max(s[1..]); if s[0] < m then m else s[0]
  }

  /** `max(self._atoms, default=0) + 1`: the number an atom added without
      an explicit number receives. */
  function NextId(ids: seq<Atom>): (r: Atom)
    ensures forall x :: x in ids ==> x < r
    ensures ids == [] ==> r == 1
    ensures ids != [] ==> r - 1 in ids
  {
    if ids == [] then 1 else Max(ids) + 1
  }

  /** `_validate_charge`: formal charges lie in [-4, 4]. */
  function ValidateCharge(charge: int): (r: Result<int>)
    ensures r.Ok? <==> -4 <= charge <= 4
    ensures r.Ok? ==> r.value == charge
    ensures r.Err? ==> r.error == ChargeOutOfRange
  {
    if charge > 4 || charge < -4 then Err(ChargeOutOfRange) else Ok(charge)
  }

  /** `add_atom`: a new atom with no bonds, under the given number or the
      next free one. The number is checked before the charge. */
  function AddAtom<A, B>(g: Graph<A, B>, atom: A, id: Option<Atom>, charge: int): (r: Result<(Graph<A, B>, Atom)>)
    requires WellFormed(g)
    ensures id.Some? && id.value in g.atoms ==> r == Err(AtomExists)
    ensures (id.None? || id.value !in g.atoms) && !(-4 <= charge <= 4) ==> r == Err(ChargeOutOfRange)
    ensures r.Ok? <==> (id.None? || id.value !in g.atoms) && -4 <= charge <= 4
    ensures r.Ok? ==>
      var (h, n) := r.value;
      && n !in g.atoms
      && (id.Some? ==> n == id.value)
      && (id.None? ==> (forall x :: x in g.atoms ==> x < n) && (g.atoms == map[] ==> n == 1))
      && WellFormed(h)
      && h.ids == g.ids + [n]
      && h.atoms == g.atoms[n := atom]
      && h.charges == g.charges[n := charge]
      && h.bonds == g.bonds[n := map[]]
      && h.name == g.name
  {
    var n := if id.None? then NextId(g.ids) else id.value;
    if id.Some? && n in g.atoms then Err(AtomExists)
    else
      match ValidateCharge(charge)
      case Err(e) => Err(e)
      case Ok(c) =>
        FreshAtomWellFormed(g, n, atom, c);
        Ok((Graph(g.ids + [n], g.atoms[n := atom], g.charges[n := c], g.bonds[n := map[]], g.name), n))
  }

  /** An atom under a fresh number, with an empty row, keeps the graph
      well formed. */
  lemma FreshAtomWellFormed<A, B>(g: Graph<A, B>, n: Atom, atom: A, charge: int)
    requires WellFormed(g) && n !in g.atoms
    ensures WellFormed(Graph(g.ids + [n], g.atoms[n := atom], g.charges[n := charge], g.bonds[n := map[]], g.name))
  {
    var h := Graph(g.ids + [n], g.atoms[n := atom], g.charges[n := charge], g.bonds[n := map[]], g.name);
    assert n !in g.ids;
    DistinctAppend(g.ids, n);
    forall a, b | a in h.bonds && b in h.bonds[a] ensures b != a && b in h.bonds && a in h.bonds[b] && h.bonds[b][a] == h.bonds[a][b] {
      assert a != n && b in g.bonds[a] && b != n;
    }
  }

  /** `add_bond`: rejects a loop, an absent atom and an existing bond, in
      that order; otherwise stores the bond in both directions. */
  function AddBond<A, B>(g: Graph<A, B>, n: Atom, m: Atom, bond: B): (r: Result<Graph<A, B>>)
    requires WellFormed(g)
    ensures n == m ==> r == Err(AtomLoop)
    ensures n != m && (n !in g.atoms || m !in g.atoms) ==> r == Err(AtomNotFound)
    ensures n != m && n in g.atoms && m in g.atoms && HasEdge(g, n, m) ==> r == Err(AlreadyBonded)
    ensures r.Ok? <==> n != m && n in g.atoms && m in g.atoms && !HasEdge(g, n, m)
    ensures r.Ok? ==>
      var h := r.value;
      && WellFormed(h)
      && HasEdge(h, n, m) && HasEdge(h, m, n)
      && h.bonds[n][m] == bond && h.bonds[m][n] == bond
      && h.bonds.Keys == g.bonds.Keys
      && (forall a, b :: {a, b} != {n, m} ==>
            (HasEdge(h, a, b) <==> HasEdge(g, a, b)) && (HasEdge(g, a, b) ==> h.bonds[a][b] == g.bonds[a][b]))
      && h.ids == g.ids && h.atoms == g.atoms && h.charges == g.charges && h.name == g.name
  {
    if n == m then Err(AtomLoop)
    else if n !in g.bonds || m !in g.bonds then Err(AtomNotFound)
    else if n in g.bonds[m] then Err(AlreadyBonded)
    else
      LinkSymmetric(g.bonds, n, m, bond);
      Ok(g.(bonds := Link(g.bonds, n, m, bond)))
  }

  /** Two ordered pairs that do not name the same unordered pair. */
  predicate OtherPair(a: Atom, b: Atom, n: Atom, m: Atom) {
    !(a == n && b == m) && !(a == m && b == n)
  }

  /** The rows with the bond `n`-`m` stored under both ends. */
  function Link<B>(bonds: map<Atom, map<Atom, B>>, n: Atom, m: Atom, bond: B): (r: map<Atom, map<Atom, B>>)
    requires n in bonds && m in bonds && n != m
    ensures r.Keys == bonds.Keys
    ensures m in r[n] && r[n][m] == bond && n in r[m] && r[m][n] == bond
    ensures forall a, b :: OtherPair(a, b, n, m) ==>
      (a in r && b in r[a] <==> a in bonds && b in bonds[a]) && (a in bonds && b in bonds[a] ==> r[a][b] == bonds[a][b])
  {
    var rows := bonds[n := bonds[n][m := bond]];
    rows[m := rows[m][n := bond]]
  }

  /** Storing a bond under both ends keeps the rows symmetric. */
  lemma LinkSymmetric<B>(bonds: map<Atom, map<Atom, B>>, n: Atom, m: Atom, bond: B)
    requires SymmetricRows(bonds) && n in bonds && m in bonds && n != m
    ensures SymmetricRows(Link(bonds, n, m, bond))
  {
    var r := Link(bonds, n, m, bond);
    forall a, b | a in r && b in r[a] ensures b != a && b in r && a in r[b] && r[b][a] == r[a][b] {
      if OtherPair(a, b, n, m) {
        assert OtherPair(b, a, n, m);
      }
    }
  }

  /** The rows with the bond `n`-`m` removed from both ends. */
  function Unlink<B>(bonds: map<Atom, map<Atom, B>>, n: Atom, m: Atom): (r: map<Atom, map<Atom, B>>)
    requires n in bonds && m in bonds
    ensures r.Keys == bonds.Keys
    ensures m !in r[n] && n !in r[m]
    ensures forall a, b :: OtherPair(a, b, n, m) ==>
      (a in r && b in r[a] <==> a in bonds && b in bonds[a]) && (a in bonds && b in bonds[a] ==> r[a][b] == bonds[a][b])
  {
    var rows := bonds[n := bonds[n] - {m}];
    rows[m := rows[m] - {n}]
  }

  /** Removing a bond from both ends keeps the rows symmetric. */
  lemma UnlinkSymmetric<B>(bonds: map<Atom, map<Atom, B>>, n: Atom, m: Atom)
    requires SymmetricRows(bonds) && n in bonds && m in bonds
    ensures SymmetricRows(Unlink(bonds, n, m))
  {
    var r := Unlink(bonds, n, m);
    forall a, b | a in r && b in r[a] ensures b != a && b in r && a in r[b] && r[b][a] == r[a][b] {
      assert OtherPair(a, b, n, m);
      assert OtherPair(b, a, n, m);
    }
  }

  /** `delete_atom`: removes the atom and its key from every former
      neighbour's row; a missing atom is a KeyError. */
  function DeleteAtom<A, B>(g: Graph<A, B>, n: Atom): (r: Result<Graph<A, B>>)
    requires WellFormed(g)
    ensures r.Ok? <==> n in g.atoms
    ensures r.Err? ==> r.error == KeyMissing
    ensures r.Ok? ==>
      var h := r.value;
      && WellFormed(h)
      && h.atoms == g.atoms - {n}
      && h.charges == g.charges - {n}
      && h.ids == Filter(g.ids, g.atoms.Keys - {n})
      && (forall a :: a in h.bonds ==> n !in h.bonds[a])
      && (forall a, b :: a != n && b != n ==>
            (HasEdge(h, a, b) <==> HasEdge(g, a, b)) && (HasEdge(g, a, b) ==> h.bonds[a][b] == g.bonds[a][b]))
      && h.name == g.name
  {
    if n !in g.atoms then Err(KeyMissing)
    else
      var h := Graph(Filter(g.ids, g.atoms.Keys - {n}), g.atoms - {n}, g.charges - {n}, DetachRows(g.bonds, n), g.name);
      assert forall x :: x in h.ids <==> x in h.atoms;
      DetachRowsFacts(g.bonds, n);
      Ok(h)
  }

  /** The rows left once `n` is popped and each former neighbour forgets
      it. */
  function DetachRows<B>(bonds: map<Atom, map<Atom, B>>, n: Atom): (r: map<Atom, map<Atom, B>>)
    requires n in bonds
    ensures r.Keys == bonds.Keys - {n}
  {
    map a | a in bonds && a != n :: if a in bonds[n] then bonds[a] - {n} else bonds[a]
  }

  /** Detaching keeps symmetric rows symmetric, leaves nothing pointing at
      `n`, and keeps every other bond. */
  lemma DetachRowsFacts<B>(g: map<Atom, map<Atom, B>>, n: Atom)
    requires SymmetricRows(g) && n in g
    ensures var bonds := DetachRows(g, n);
      && SymmetricRows(bonds)
      && (forall a :: a in bonds ==> n !in bonds[a])
      && (forall a, b :: a != n && b != n ==>
            (a in bonds && b in bonds[a] <==> a in g && b in g[a]) && (a in g && b in g[a] ==> bonds[a][b] == g[a][b]))
  {
    var bonds := DetachRows(g, n);
    forall a | a in bonds ensures n !in bonds[a] {
      if a !in g[n] {
        assert n !in g[a];
      }
    }
    forall a, b | a in bonds && b in bonds[a]
      ensures b != a && b in bonds && a in bonds[b] && bonds[b][a] == bonds[a][b]
    {
      assert b != n;
      assert b in g[a];
    }
  }

  /** Detaching a bond-less atom added to the rows restores them. */
  lemma DetachIsolated<B>(bonds: map<Atom, map<Atom, B>>, n: Atom)
    requires n !in bonds
    ensures DetachRows(bonds[n := map[]], n) == bonds
  {
    var r := DetachRows(bonds[n := map[]], n);
    forall a | a in bonds ensures r[a] == bonds[a] {
      assert a != n;
    }
  }

  /** `delete_bond`: removes both directions; a missing bond is a KeyError. */
  function DeleteBond<A, B>(g: Graph<A, B>, n: Atom, m: Atom): (r: Result<Graph<A, B>>)
    requires WellFormed(g)
    ensures r.Ok? <==> HasEdge(g, n, m)
    ensures r.Err? ==> r.error == KeyMissing
    ensures r.Ok? ==>
      var h := r.value;
      && WellFormed(h)
      && !HasEdge(h, n, m) && !HasEdge(h, m, n)
      && h.bonds.Keys == g.bonds.Keys
      && (forall a, b :: {a, b} != {n, m} ==>
            (HasEdge(h, a, b) <==> HasEdge(g, a, b)) && (HasEdge(g, a, b) ==> h.bonds[a][b] == g.bonds[a][b]))
      && h.ids == g.ids && h.atoms == g.atoms && h.charges == g.charges && h.name == g.name
  {
    if n !in g.bonds || m !in g.bonds[n] then Err(KeyMissing)
    else
      EdgeSymmetric(g, n, m);
      UnlinkSymmetric(g.bonds, n, m);
      Ok(g.(bonds := Unlink(g.bonds, n, m)))
  }

  /** The `name` setter: at most 80 characters. */
  function SetName<A, B>(g: Graph<A, B>, name: string): (r: Result<Graph<A, B>>)
    ensures r.Ok? <==> |name| <= 80
    ensures r.Err? ==> r.error == NameTooLong
    ensures r.Ok? ==> r.value.name == name && r.value == g.(name := name)
  {
    if |name| > 80 then Err(NameTooLong) else Ok(g.(name := name))
  }

  /** Adding an atom under a fresh number and deleting it again gives back
      the original graph. */
  lemma AddDeleteAtomRoundTrip<A, B>(g: Graph<A, B>, atom: A, id: Option<Atom>, charge: int, h: Graph<A, B>, n: Atom)
    requires WellFormed(g)
    requires AddAtom(g, atom, id, charge) == Ok((h, n))
    ensures DeleteAtom(h, n) == Ok(g)
  {
    var r := AddAtom(g, atom, id, charge);
    assert r.Ok? && r.value.0 == h && r.value.1 == n;
    assert n !in g.atoms && WellFormed(h);
    assert h.ids == g.ids + [n] && h.atoms == g.atoms[n := atom] && h.charges == g.charges[n := charge];
    assert h.bonds == g.bonds[n := map[]] && h.name == g.name;
    DeleteFreshAtom(g, h, n, atom, charge);
  }

  lemma DeleteFreshAtom<A, B>(g: Graph<A, B>, h: Graph<A, B>, n: Atom, atom: A, charge: int)
    requires WellFormed(g) && WellFormed(h) && n !in g.atoms
    requires h.ids == g.ids + [n] && h.atoms == g.atoms[n := atom] && h.charges == g.charges[n := charge]
    requires h.bonds == g.bonds[n := map[]] && h.name == g.name
    ensures DeleteAtom(h, n) == Ok(g)
  {
    assert DeleteAtom(h, n) == Ok(Graph(Filter(h.ids, h.atoms.Keys - {n}), h.atoms - {n}, h.charges - {n}, DetachRows(h.bonds, n), h.name));
    FreshIdsFilter(g, n);
    assert h.atoms.Keys - {n} == g.atoms.Keys;
    UpdateThenRemove(g.atoms, n, atom);
    UpdateThenRemove(g.charges, n, charge);
    DetachIsolated(g.bonds, n);
  }

  /** Filtering a fresh id back out of the order restores it. */
  lemma FreshIdsFilter<A, B>(g: Graph<A, B>, n: Atom)
    requires WellFormed(g) && n !in g.atoms
    ensures Filter(g.ids + [n], g.atoms.Keys) == g.ids
  {
    FilterAppend(g.ids, n, g.atoms.Keys);
    assert forall x :: x in g.ids ==> x in g.atoms.Keys;
    FilterAll(g.ids, g.atoms.Keys);
  }

  /** Adding a bond and deleting it again gives back the original graph. */
  lemma AddDeleteBondRoundTrip<A, B>(g: Graph<A, B>, n: Atom, m: Atom, bond: B, h: Graph<A, B>)
    requires WellFormed(g)
    requires AddBond(g, n, m, bond) == Ok(h)
    ensures DeleteBond(h, n, m) == Ok(g)
  {
    assert n != m && n in g.bonds && m in g.bonds && m !in g.bonds[n];
    EdgeSymmetricAbsent(g, n, m);
    assert h == g.(bonds := Link(g.bonds, n, m, bond));
    assert DeleteBond(h, n, m) == Ok(h.(bonds := Unlink(h.bonds, n, m)));
    UnlinkLink(g.bonds, n, m, bond);
  }

  /** No bond `n`-`m` is stored under `m` either. */
  lemma EdgeSymmetricAbsent<A, B>(g: Graph<A, B>, n: Atom, m: Atom)
    requires SymmetricRows(g.bonds) && n in g.bonds && m in g.bonds && m !in g.bonds[n]
    ensures n !in g.bonds[m]
  {
  }

  /** Removing a bond just stored restores the rows. */
  lemma UnlinkLink<B>(bonds: map<Atom, map<Atom, B>>, n: Atom, m: Atom, bond: B)
    requires n in bonds && m in bonds && n != m && m !in bonds[n] && n !in bonds[m]
    ensures Unlink(Link(bonds, n, m, bond), n, m) == bonds
  {
    var r := Unlink(Link(bonds, n, m, bond), n, m);
    assert r[n] == bonds[n];
    assert r[m] == bonds[m];
  }
}
