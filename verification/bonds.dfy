/** `Graph.bonds` and `Graph.bonds_count`: every undirected bond listed
    once, from the atom that comes first in atom order. */
module BondListing {
  import opened Collections
  import opened Graphs

  /** The bond `n`-`m` exists and `n` precedes `m` in atom order: the
      direction in which `bonds()` reports it. */
  ghost predicate Forward<A, B>(g: Graph<A, B>, n: Atom, m: Atom) {
    HasEdge(g, n, m) && n in g.ids && m in g.ids && IndexOf(g.ids, n) < IndexOf(g.ids, m)
  }

  /** Every bond is reported in exactly one of its two directions. */
  lemma ForwardExactlyOnce<A, B>(g: Graph<A, B>, n: Atom, m: Atom)
    requires WellFormed(g)
    ensures HasEdge(g, n, m) <==> Forward(g, n, m) || Forward(g, m, n)
    ensures !(Forward(g, n, m) && Forward(g, m, n))
  {
    if HasEdge(g, n, m) {
      assert n in g.atoms && m in g.atoms && n != m;
      var i, j := IndexOf(g.ids, n), IndexOf(g.ids, m);
      assert i != j;
    }
  }

  /** The triples reported once the first `i` atoms are done and, of atom
      `i`, the neighbours before position `j`. */
  ghost predicate Reported<A, B>(g: Graph<A, B>, i: int, j: int, t: (Atom, Atom, B)) {
    && Forward(g, t.0, t.1)
    && t.2 == g.bonds[t.0][t.1]
    && (IndexOf(g.ids, t.0) < i || (IndexOf(g.ids, t.0) == i && IndexOf(g.ids, t.1) < j))
  }

  /** `bonds()`: walks the atoms in order, marking each as seen, and
      reports every bond to a neighbour not seen yet. Neighbours are visited
      in atom order. */
  method Bonds<A, B>(g: Graph<A, B>) returns (r: seq<(Atom, Atom, B)>)
    requires WellFormed(g)
    ensures Distinct(r)
    ensures forall n, m, b :: (n, m, b) in r <==> Forward(g, n, m) && b == g.bonds[n][m]
  {
    r := [];
    var seen: set<Atom> := {};
    IdsAreAtoms(g);
    for i := 0 to |g.ids|
      invariant seen == Elements(g.ids[..i])
      invariant Distinct(r)
      invariant forall t :: t in r <==> Reported(g, i, 0, t)
    {
      assert g.ids[..i + 1] == g.ids[..i] + [g.ids[i]];
      seen := seen + {g.ids[i]};
      r := ReportRow(g, i, seen, r);
      RowFinished(g, i, r);
    }
    forall n, m, b ensures (n, m, b) in r <==> Forward(g, n, m) && b == g.bonds[n][m] {
      assert Reported(g, |g.ids|, 0, (n, m, b)) <==> Forward(g, n, m) && b == g.bonds[n][m];
    }
  }

  /** The inner loop of `bonds()` for the `i`-th atom, `seen` holding it
      and the atoms before it. */
  method ReportRow<A, B>(g: Graph<A, B>, i: int, seen: set<Atom>, r0: seq<(Atom, Atom, B)>) returns (r: seq<(Atom, Atom, B)>)
    requires WellFormed(g) && 0 <= i < |g.ids| && g.ids[i] in g.bonds
    requires seen == Elements(g.ids[..i + 1])
    requires Distinct(r0) && forall t :: t in r0 <==> Reported(g, i, 0, t)
    ensures Distinct(r) && forall t :: t in r <==> Reported(g, i, |g.ids|, t)
  {
    var n := g.ids[i];
    var row := g.bonds[n];
    r := r0;
    for j := 0 to |g.ids|
      invariant Distinct(r)
      invariant forall t :: t in r <==> Reported(g, i, j, t)
    {
      var m := g.ids[j];
      if m in row && m !in seen {
        ReportNew(g, i, j, seen, r);
        r := r + [(n, m, row[m])];
      } else {
        ReportSkip(g, i, j, seen, r);
      }
    }
  }

  /** A bond to a neighbour not seen yet is reported, and only it is new. */
  lemma ReportNew<A, B>(g: Graph<A, B>, i: int, j: int, seen: set<Atom>, r: seq<(Atom, Atom, B)>)
    requires WellFormed(g) && 0 <= i < |g.ids| && 0 <= j < |g.ids| && g.ids[i] in g.bonds
    requires seen == Elements(g.ids[..i + 1])
    requires Distinct(r) && forall t :: t in r <==> Reported(g, i, j, t)
    requires g.ids[j] in g.bonds[g.ids[i]] && g.ids[j] !in seen
    ensures var r' := r + [(g.ids[i], g.ids[j], g.bonds[g.ids[i]][g.ids[j]])];
      Distinct(r') && forall t :: t in r' <==> Reported(g, i, j + 1, t)
  {
    var n, m := g.ids[i], g.ids[j];
    IndexOfDistinct(g.ids, i);
    IndexOfDistinct(g.ids, j);
    var t := (n, m, g.bonds[n][m]);
    assert m !in g.ids[..i + 1];
    assert !Reported(g, i, j, t);
    DistinctAppend(r, t);
    forall u ensures u in r + [t] <==> Reported(g, i, j + 1, u) {
      if Reported(g, i, j + 1, u) && !Reported(g, i, j, u) {
        assert u.0 == n && u.1 == m;
      }
    }
  }

  /** A neighbour already seen, or no neighbour at all, adds nothing. */
  lemma ReportSkip<A, B>(g: Graph<A, B>, i: int, j: int, seen: set<Atom>, r: seq<(Atom, Atom, B)>)
    requires WellFormed(g) && 0 <= i < |g.ids| && 0 <= j < |g.ids| && g.ids[i] in g.bonds
    requires seen == Elements(g.ids[..i + 1])
    requires forall t :: t in r <==> Reported(g, i, j, t)
    requires !(g.ids[j] in g.bonds[g.ids[i]] && g.ids[j] !in seen)
    ensures forall t :: t in r <==> Reported(g, i, j + 1, t)
  {
    forall t | Reported(g, i, j + 1, t) ensures Reported(g, i, j, t) {
      if !Reported(g, i, j, t) {
        Newly(g, i, j, t);
        assert false;
      }
    }
  }

  /** A triple reported at position `j` of row `i` is the bond from atom
      `i` to atom `j`, a neighbour placed after atom `i`. */
  lemma Newly<A, B>(g: Graph<A, B>, i: int, j: int, t: (Atom, Atom, B))
    requires WellFormed(g) && 0 <= i < |g.ids| && 0 <= j < |g.ids|
    requires Reported(g, i, j + 1, t) && !Reported(g, i, j, t)
    ensures t.0 == g.ids[i] && t.1 == g.ids[j] && t.1 in g.bonds[t.0] && t.1 !in g.ids[..i + 1]
  {
    IndexOfDistinct(g.ids, i);
    IndexOfDistinct(g.ids, j);
  }

  /** Once a row is done, the next atom starts. */
  lemma RowFinished<A, B>(g: Graph<A, B>, i: int, r: seq<(Atom, Atom, B)>)
    requires WellFormed(g) && 0 <= i < |g.ids|
    requires forall t :: t in r <==> Reported(g, i, |g.ids|, t)
    ensures forall t :: t in r <==> Reported(g, i + 1, 0, t)
  {
    forall t ensures t in r <==> Reported(g, i + 1, 0, t) {
      if t.0 in g.ids && t.1 in g.ids && IndexOf(g.ids, t.0) == i {
        assert IndexOf(g.ids, t.1) < |g.ids|;
      }
    }
  }

  /** `bonds_count` is the number of triples `bonds()` reports. */
  lemma CountListed<A, B>(g: Graph<A, B>, r: seq<(Atom, Atom, B)>)
    requires WellFormed(g) && Distinct(r)
    requires forall n, m, b :: (n, m, b) in r <==> Forward(g, n, m) && b == g.bonds[n][m]
    ensures |r| == BondsCount(g)
  {
    ListedCount(g, r);
    Handshake(g);
  }

  /** `sum(len(x) for x in self._bonds.values())`, the rows visited in the
      order `ids`. */
  function DegreeSum<A, B>(g: Graph<A, B>, ids: seq<Atom>): nat {
    if ids == [] then 0
    else (if ids[0] in g.bonds then |g.bonds[ids[0]]| else 0) + DegreeSum(g, ids[1..])
  }

  /** `bonds_count`: half the sum of the row sizes. */
  function BondsCount<A, B>(g: Graph<A, B>): nat
    requires WellFormed(g)
  {
    DegreeSum(g, g.ids) / 2
  }

  /** The directed pairs `(n, m)` stored in the rows of `ids`. */
  ghost function PairsFrom<A, B>(g: Graph<A, B>, ids: seq<Atom>): set<(Atom, Atom)> {
    set n, m | n in ids && n in g.bonds && m in g.bonds[n] :: (n, m)
  }

  ghost function RowPairs<A, B>(g: Graph<A, B>, n: Atom): set<(Atom, Atom)>
    requires n in g.bonds
  {
    set m | m in g.bonds[n] :: (n, m)
  }

  /** The pairs reported by `bonds()`. */
  ghost function ForwardPairs<A, B>(g: Graph<A, B>): set<(Atom, Atom)> {
    set n, m | n in g.ids && n in g.bonds && m in g.bonds[n] && Forward(g, n, m) :: (n, m)
  }

  lemma RowPairsCard<A, B>(g: Graph<A, B>, n: Atom)
    requires n in g.bonds
    ensures |RowPairs(g, n)| == |g.bonds[n]|
  {
    var row := g.bonds[n];
    var f := map m | m in row :: (n, m);
    assert row.Keys <= f.Keys;
    InjectiveImageCard(row.Keys, f);
    forall p | p in RowPairs(g, n) ensures p in SetImage(row.Keys, f) {
      assert p.1 in row.Keys && f[p.1] == p;
    }
    forall p | p in SetImage(row.Keys, f) ensures p in RowPairs(g, n) {
      var m := SetImageSource(row.Keys, f, p);
      assert p == (n, m);
    }
    assert SetImage(row.Keys, f) == RowPairs(g, n);
  }

  lemma {:induction false} DegreeSumPairs<A, B>(g: Graph<A, B>, ids: seq<Atom>)
    requires Distinct(ids)
    requires forall i :: 0 <= i < |ids| ==> ids[i] in g.bonds
    ensures DegreeSum(g, ids) == |PairsFrom(g, ids)|
  {
    if ids != [] {
      var rest := ids[1..];
      assert Distinct(rest);
      DegreeSumPairs(g, rest);
      RowPairsCard(g, ids[0]);
      assert ids[0] !in rest;
      assert PairsFrom(g, ids) == RowPairs(g, ids[0]) + PairsFrom(g, rest);
      assert RowPairs(g, ids[0]) !! PairsFrom(g, rest);
    }
  }

  /** Every bond is stored twice, once per direction, so the row sizes sum
      to twice the number of bonds `bonds()` reports. */
  lemma Handshake<A, B>(g: Graph<A, B>)
    requires WellFormed(g)
    ensures DegreeSum(g, g.ids) == 2 * |ForwardPairs(g)|
  {
    IdsAreAtoms(g);
    DegreeSumPairs(g, g.ids);
    var back := Reversed(ForwardPairs(g));
    SplitPairs(g, back);
  }

  /** Each pair turned around. */
  ghost function Reversed(s: set<(Atom, Atom)>): (r: set<(Atom, Atom)>)
    ensures |r| == |s|
    ensures forall p: (Atom, Atom) :: p in r <==> (p.1, p.0) in s
  {
    var swap := map p | p in s :: (p.1, p.0);
    InjectiveImageCard(s, swap);
    var r := SetImage(s, swap);
    assert forall p: (Atom, Atom) :: (p.1, p.0) in s ==> swap[(p.1, p.0)] == p;
    r
  }

  lemma SplitPairs<A, B>(g: Graph<A, B>, back: set<(Atom, Atom)>)
    requires WellFormed(g)
    requires forall p: (Atom, Atom) :: p in back <==> (p.1, p.0) in ForwardPairs(g)
    ensures PairsFrom(g, g.ids) == ForwardPairs(g) + back
    ensures ForwardPairs(g) !! back
  {
    var fw := ForwardPairs(g);
    forall p | p in PairsFrom(g, g.ids) ensures p in fw || p in back {
      ForwardExactlyOnce(g, p.0, p.1);
    }
    forall p | p in fw ensures p !in back {
      ForwardExactlyOnce(g, p.0, p.1);
    }
    forall p | p in back ensures p in PairsFrom(g, g.ids) {
      ForwardExactlyOnce(g, p.0, p.1);
    }
  }

  /** A repetition-free listing of the forward bonds has one entry per
      forward pair. */
  lemma ListedCount<A, B>(g: Graph<A, B>, r: seq<(Atom, Atom, B)>)
    requires WellFormed(g) && Distinct(r)
    requires forall n, m, b :: (n, m, b) in r <==> Forward(g, n, m) && b == g.bonds[n][m]
    ensures |r| == |ForwardPairs(g)|
  {
    PairsDistinct(g, r);
    DistinctCard(PairsOf(r));
    PairsListed(g, r);
  }

  /** The atom pairs of a bond listing, bond labels dropped. */
  function PairsOf<B>(r: seq<(Atom, Atom, B)>): (ps: seq<(Atom, Atom)>)
    ensures |ps| == |r| && forall i :: 0 <= i < |r| ==> ps[i] == (r[i].0, r[i].1)
  {
    seq(|r|, i requires 0 <= i < |r| => (r[i].0, r[i].1))
  }

  /** A pair's label is fixed by the graph, so no pair is listed twice. */
  lemma PairsDistinct<A, B>(g: Graph<A, B>, r: seq<(Atom, Atom, B)>)
    requires WellFormed(g) && Distinct(r)
    requires forall n, m, b :: (n, m, b) in r <==> Forward(g, n, m) && b == g.bonds[n][m]
    ensures Distinct(PairsOf(r))
  {
    var ps := PairsOf(r);
    forall i, j | 0 <= i < j < |r| ensures ps[i] != ps[j] {
      assert r[i] in r && r[j] in r;
    }
  }

  /** The listed pairs are exactly the forward pairs. */
  lemma PairsListed<A, B>(g: Graph<A, B>, r: seq<(Atom, Atom, B)>)
    requires WellFormed(g)
    requires forall n, m, b :: (n, m, b) in r <==> Forward(g, n, m) && b == g.bonds[n][m]
    ensures Elements(PairsOf(r)) == ForwardPairs(g)
  {
    var ps := PairsOf(r);
    forall p | p in ForwardPairs(g) ensures p in Elements(ps) {
      var t := (p.0, p.1, g.bonds[p.0][p.1]);
      assert t in r;
      var i :| 0 <= i < |r| && r[i] == t;
      assert ps[i] == p;
    }
    forall p | p in Elements(ps) ensures p in ForwardPairs(g) {
      var i :| 0 <= i < |r| && ps[i] == p;
      assert r[i] in r;
    }
  }
}
