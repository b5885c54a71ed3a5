/** `__get_mapping`: the depth-first search that maps one compiled query
    component onto atoms of a target graph. The search keeps the images of
    a prefix of the order on `path`, with `mapping` from query atoms to
    their images and `reversed_mapping` back; the stack holds candidate
    images with the order position they are for. */
module Matching {
  import opened Collections
  import opened Graphs
  import opened Queries

  /** One search: a compiled component with its closures, the target graph,
      the target atoms allowed (one connected component of the target), and
      the label comparisons `query == target` for atoms and bonds. */
  datatype Search<!QA, !QB, !TA, !TB> = Search(
    order: seq<Entry<QA, QB>>,
    closures: Closures<QB>,
    target: Graph<TA, TB>,
    atoms: set<Atom>,
    atomEq: (QA, TA) -> bool,
    bondEq: (QB, TB) -> bool)

  /** What the search relies on: a compiled component and a well-formed
      target. */
  ghost predicate Ready<QA, QB, TA, TB>(s: Search<QA, QB, TA, TB>) {
    Compiled(s.order, s.closures) && WellFormed(s.target)
  }

  /** `order_depth[n]`: the position of the atom `n` in the order. */
  function Depth<A, B>(order: seq<Entry<A, B>>, n: Atom): (r: nat)
    requires n in AtomsOf(order)
    ensures r < |order| && order[r].atom == n
  {
    IndexOf(AtomsOf(order), n)
  }

  /** The position of the parent of the `k`-th entry. */
  function ParentDepth<A, B>(order: seq<Entry<A, B>>, k: nat): (r: nat)
    requires 1 <= k < |order| && LinksBack(order, k)
    ensures r < k && order[r].atom == order[k].parent
  {
    IndexInPrefix(AtomsOf(order), order[k].parent, k);
    Depth(order, order[k].parent)
  }

  /** The position of the atom the `j`-th closure of the `k`-th entry
      closes to. */
  function ClosureDepth<A, B>(order: seq<Entry<A, B>>, closures: Closures<B>, k: nat, j: nat): (r: nat)
    requires Compiled(order, closures) && k < |order| && j < |ClosuresOf(closures, order[k].atom)|
    ensures r < k && order[r].atom == ClosuresOf(closures, order[k].atom)[j].0
  {
    var m := ClosuresOf(closures, order[k].atom)[j].0;
    assert ClosesBack(order, closures, k);
    assert Firsts(ClosuresOf(closures, order[k].atom))[j] == m;
    IndexInPrefix(AtomsOf(order), m, k);
    Depth(order, m)
  }

  /** `bond == o_bonds[u].get(v)`: a missing bond never matches. */
  function BondMatches<QB, TB>(bondEq: (QB, TB) -> bool, b: QB, o: Option<TB>): bool {
    o.Some? && bondEq(b, o.value)
  }

  /** The image `p[k]` of the `k`-th entry fits, given the images of the
      entries before it: an allowed atom with an equal label, bonded to the
      image of the parent by an equal bond, and bonded by an equal bond to
      the image of every atom the entry closes a ring to. */
  ghost predicate Fits<QA, QB, TA, TB>(s: Search<QA, QB, TA, TB>, p: seq<Atom>, k: nat)
    requires Ready(s) && k < |p| <= |s.order|
  {
    var n := p[k];
    && n in s.atoms && n in s.target.atoms
    && s.atomEq(s.order[k].data, s.target.atoms[n])
    && (k > 0 ==> var d := ParentDepth(s.order, k); BondMatches(s.bondEq, s.order[k].bond, BondAt(s.target, p[d], n)))
    && ClosuresFit(s, p, k)
  }

  ghost predicate ClosuresFit<QA, QB, TA, TB>(s: Search<QA, QB, TA, TB>, p: seq<Atom>, k: nat)
    requires Ready(s) && k < |p| <= |s.order|
  {
    forall j :: 0 <= j < |ClosuresOf(s.closures, s.order[k].atom)| ==>
      BondMatches(s.bondEq, ClosuresOf(s.closures, s.order[k].atom)[j].1,
                  BondAt(s.target, p[ClosureDepth(s.order, s.closures, k, j)], p[k]))
  }

  /** Images for a prefix of the order, each fitting and none repeated. */
  ghost predicate ValidPath<QA, QB, TA, TB>(s: Search<QA, QB, TA, TB>, p: seq<Atom>)
    requires Ready(s)
  {
    && |p| <= |s.order|
    && Distinct(p)
    && forall k :: 0 <= k < |p| ==> Fits(s, p, k)
  }

  /** `t` may follow the images `p`. */
  ghost predicate FitsNext<QA, QB, TA, TB>(s: Search<QA, QB, TA, TB>, p: seq<Atom>, t: Atom)
    requires Ready(s)
  {
    |p| < |s.order| && t !in p && Fits(s, p + [t], |p|)
  }

  /** The independent statement of a match: `f` maps the component's atoms
      one-to-one onto allowed target atoms with equal labels, and every bond
      of the spanning tree and every closure onto an equal target bond. */
  ghost predicate Embeds<QA, QB, TA, TB>(s: Search<QA, QB, TA, TB>, f: map<Atom, Atom>)
    requires Ready(s)
  {
    && (forall x :: x in f <==> x in AtomsOf(s.order))
    && (forall x, y :: x in f && y in f && x != y ==> f[x] != f[y])
    && (forall k :: 0 <= k < |s.order| ==> EntryEmbedded(s, f, k))
  }

  ghost predicate EntryEmbedded<QA, QB, TA, TB>(s: Search<QA, QB, TA, TB>, f: map<Atom, Atom>, k: nat)
    requires Ready(s) && k < |s.order| && s.order[k].atom in f
  {
    var e := s.order[k];
    var n := f[e.atom];
    && n in s.atoms && n in s.target.atoms
    && s.atomEq(e.data, s.target.atoms[n])
    && (e.Link? ==> e.parent in f && BondMatches(s.bondEq, e.bond, BondAt(s.target, f[e.parent], n)))
    && forall j :: 0 <= j < |ClosuresOf(s.closures, e.atom)| ==>
         ClosuresOf(s.closures, e.atom)[j].0 in f &&
         BondMatches(s.bondEq, ClosuresOf(s.closures, e.atom)[j].1, BondAt(s.target, f[ClosuresOf(s.closures, e.atom)[j].0], n))
  }

  /** The images `f` gives the order's atoms, in order. */
  function PathOf<A, B>(order: seq<Entry<A, B>>, f: map<Atom, Atom>): (r: seq<Atom>)
    requires forall x :: x in AtomsOf(order) ==> x in f
    ensures |r| == |order| && forall k :: 0 <= k < |order| ==> r[k] == f[order[k].atom]
  {
    seq(|order|, k requires 0 <= k < |order| => f[order[k].atom])
  }

  /** A match read off position by position is a valid full path. */
  lemma EmbedsPath<QA, QB, TA, TB>(s: Search<QA, QB, TA, TB>, f: map<Atom, Atom>)
    requires Ready(s) && Embeds(s, f)
    ensures ValidPath(s, PathOf(s.order, f)) && |PathOf(s.order, f)| == |s.order|
  {
    var p := PathOf(s.order, f);
    forall i, j | 0 <= i < j < |p| ensures p[i] != p[j] {
      assert AtomsOf(s.order)[i] != AtomsOf(s.order)[j];
    }
    forall k | 0 <= k < |p| ensures Fits(s, p, k) {
      assert EntryEmbedded(s, f, k);
      forall j | 0 <= j < |ClosuresOf(s.closures, s.order[k].atom)|
        ensures BondMatches(s.bondEq, ClosuresOf(s.closures, s.order[k].atom)[j].1,
                            BondAt(s.target, p[ClosureDepth(s.order, s.closures, k, j)], p[k]))
      {
        var d := ClosureDepth(s.order, s.closures, k, j);
      }
      if k > 0 {
        var d := ParentDepth(s.order, k);
      }
    }
  }

  /** A valid full path, read as a map, is a match. */
  lemma PathEmbeds<QA, QB, TA, TB>(s: Search<QA, QB, TA, TB>, p: seq<Atom>, r: map<Atom, Atom>)
    requires Ready(s) && ValidPath(s, p) && |p| == |s.order|
    requires forall x :: x in r <==> x in AtomsOf(s.order)
    requires forall k :: 0 <= k < |s.order| ==> r[s.order[k].atom] == p[k]
    ensures Embeds(s, r)
  {
    forall x, y | x in r && y in r && x != y ensures r[x] != r[y] {
      var i, j := Depth(s.order, x), Depth(s.order, y);
      assert p[i] != p[j];
    }
    forall k | 0 <= k < |s.order| ensures EntryEmbedded(s, r, k) {
      FitsEmbedded(s, p, r, k);
    }
  }

  lemma FitsEmbedded<QA, QB, TA, TB>(s: Search<QA, QB, TA, TB>, p: seq<Atom>, r: map<Atom, Atom>, k: nat)
    requires Ready(s) && k < |p| == |s.order|
    requires Fits(s, p, k)
    requires forall x :: x in r <==> x in AtomsOf(s.order)
    requires forall i :: 0 <= i < |s.order| ==> r[s.order[i].atom] == p[i]
    ensures EntryEmbedded(s, r, k)
  {
    var e := s.order[k];
    assert e.atom in AtomsOf(s.order);
    if k > 0 {
      var d := ParentDepth(s.order, k);
      assert AtomsOf(s.order)[d] == e.parent;
    }
    forall j | 0 <= j < |ClosuresOf(s.closures, e.atom)|
      ensures ClosuresOf(s.closures, e.atom)[j].0 in r &&
        BondMatches(s.bondEq, ClosuresOf(s.closures, e.atom)[j].1, BondAt(s.target, r[ClosuresOf(s.closures, e.atom)[j].0], r[e.atom]))
    {
      var d := ClosureDepth(s.order, s.closures, k, j);
      assert AtomsOf(s.order)[d] == ClosuresOf(s.closures, e.atom)[j].0;
    }
  }

  /** `Fits` reads the images up to position `k` only. */
  lemma FitsPrefix<QA, QB, TA, TB>(s: Search<QA, QB, TA, TB>, p: seq<Atom>, p': seq<Atom>, k: nat)
    requires Ready(s) && k < |p| <= |s.order| && k < |p'| <= |s.order|
    requires forall j :: 0 <= j <= k ==> p[j] == p'[j]
    requires Fits(s, p, k)
    ensures Fits(s, p', k)
  {
    if k > 0 {
      var d := ParentDepth(s.order, k);
      assert p[d] == p'[d];
    }
    forall j | 0 <= j < |ClosuresOf(s.closures, s.order[k].atom)|
      ensures BondMatches(s.bondEq, ClosuresOf(s.closures, s.order[k].atom)[j].1,
                          BondAt(s.target, p'[ClosureDepth(s.order, s.closures, k, j)], p'[k]))
    {
      var d := ClosureDepth(s.order, s.closures, k, j);
      assert p[d] == p'[d];
    }
  }

  /** The search's view of its dicts: `path` holds the images of the first
      `|path|` entries, `mapping` maps exactly those entries' atoms to them
      and `reversed_mapping` maps each image back. */
  ghost predicate Tracks<QA, QB, TA, TB>(s: Search<QA, QB, TA, TB>, path: seq<Atom>, mapping: map<Atom, Atom>, reversed: map<Atom, Atom>) {
    && |path| < |s.order|
    && (forall k :: 0 <= k < |path| ==> path[k] in reversed && reversed[path[k]] == s.order[k].atom)
    && (forall x :: x in mapping <==> x in AtomsOf(s.order)[..|path|])
    && (forall k :: 0 <= k < |path| ==> s.order[k].atom in mapping && mapping[s.order[k].atom] == path[k])
  }

  /** `for x in xs: del mapping[reversed_mapping[x]]`. */
  function Forget(m: map<Atom, Atom>, rev: map<Atom, Atom>, xs: seq<Atom>): (r: map<Atom, Atom>)
    requires forall i :: 0 <= i < |xs| ==> xs[i] in rev
    ensures forall y :: y in r <==> y in m && y !in Image(xs, rev)
    ensures forall y :: y in r ==> r[y] == m[y]
  {
    if xs == [] then m
    else
      assert forall y :: y in Image(xs, rev) <==> y == rev[xs[0]] || y in Image(xs[1..], rev);
      Forget(m - {rev[xs[0]]}, rev, xs[1..])
  }

  /** `s_atom == o_atom` for the root: the candidates for the first entry,
      in the target's atom order. */
  function Roots<QA, QB, TA, TB>(s: Search<QA, QB, TA, TB>, ids: seq<Atom>): (r: seq<(Atom, nat)>)
    requires Ready(s) && forall i :: 0 <= i < |ids| ==> ids[i] in s.target.atoms
    ensures forall i :: 0 <= i < |r| ==> r[i].1 == 0 && r[i].0 in ids && r[i].0 in s.target.atoms && r[i].0 in s.atoms && s.atomEq(s.order[0].data, s.target.atoms[r[i].0])
    ensures forall n :: n in ids && n in s.atoms && n in s.target.atoms && s.atomEq(s.order[0].data, s.target.atoms[n]) ==> (n, 0) in r
  {
    if ids == [] then []
    else (if ids[0] in s.atoms && s.atomEq(s.order[0].data, s.target.atoms[ids[0]]) then [(ids[0], 0)] else []) + Roots(s, ids[1..])
  }

  /** The source's test for pushing `n` as the image of entry `lp`, reached
      from the image `fork` of its parent. */
  function Admits<QA, QB, TA, TB>(s: Search<QA, QB, TA, TB>, fork: Atom, path: seq<Atom>, mapping: map<Atom, Atom>, lp: nat, n: Atom): bool
    requires Ready(s) && 1 <= lp < |s.order|
    requires fork in s.target.bonds && n in s.target.bonds[fork] && n in s.target.atoms
    requires forall j :: 0 <= j < |ClosuresOf(s.closures, s.order[lp].atom)| ==> ClosuresOf(s.closures, s.order[lp].atom)[j].0 in mapping
  {
    assert LinksBack(s.order, lp);
    var e := s.order[lp];
    var cl := ClosuresOf(s.closures, e.atom);
    && n in s.atoms
    && n !in path
    && s.bondEq(e.bond, s.target.bonds[fork][n])
    && s.atomEq(e.data, s.target.atoms[n])
    && forall j :: 0 <= j < |cl| ==> BondMatches(s.bondEq, cl[j].1, BondAt(s.target, mapping[cl[j].0], n))
  }

  /** The neighbours `ns` of `fork` the source pushes, in order. */
  function Candidates<QA, QB, TA, TB>(s: Search<QA, QB, TA, TB>, fork: Atom, path: seq<Atom>, mapping: map<Atom, Atom>, lp: nat, ns: seq<Atom>): (r: seq<(Atom, nat)>)
    requires Ready(s) && 1 <= lp < |s.order|
    requires fork in s.target.bonds && forall n :: n in ns ==> n in s.target.bonds[fork] && n in s.target.atoms
    requires forall j :: 0 <= j < |ClosuresOf(s.closures, s.order[lp].atom)| ==> ClosuresOf(s.closures, s.order[lp].atom)[j].0 in mapping
    ensures |r| <= |ns|
    ensures forall i :: 0 <= i < |r| ==> r[i].1 == lp && r[i].0 in ns && Admits(s, fork, path, mapping, lp, r[i].0)
    ensures forall n :: n in ns && Admits(s, fork, path, mapping, lp, n) ==> (n, lp) in r
  {
    if ns == [] then []
    else (if Admits(s, fork, path, mapping, lp, ns[0]) then [(ns[0], lp)] else []) + Candidates(s, fork, path, mapping, lp, ns[1..])
  }

  function Pow(b: nat, h: nat): (r: nat)
    ensures b >= 1 ==> r >= 1
  {
    if h == 0 then 1 else b * Pow(b, h - 1)
  }

  /** The termination measure: an entry for position `e` weighs
      `b^(size - e)`, more than the at most `b - 1` entries it can push. */
  function Potential(stack: seq<(Atom, nat)>, b: nat, size: nat): nat {
    if stack == [] then 0
    else Potential(stack[..|stack| - 1], b, size) + Pow(b, if stack[|stack| - 1].1 <= size then size - stack[|stack| - 1].1 else 0)
  }

  lemma {:induction false} PotentialAppend(a: seq<(Atom, nat)>, t: seq<(Atom, nat)>, b: nat, size: nat)
    ensures Potential(a + t, b, size) == Potential(a, b, size) + Potential(t, b, size)
    decreases |t|
  {
    if t == [] {
      assert a + t == a;
    } else {
      var t' := t[..|t| - 1];
      assert (a + t)[..|a + t| - 1] == a + t';
      assert (a + t)[|a + t| - 1] == t[|t| - 1];
      PotentialAppend(a, t', b, size);
    }
  }

  /** Entries all for one position weigh the same. */
  lemma {:induction false} PotentialLevel(t: seq<(Atom, nat)>, b: nat, size: nat, lp: nat)
    requires lp <= size && forall i :: 0 <= i < |t| ==> t[i].1 == lp
    ensures Potential(t, b, size) == |t| * Pow(b, size - lp)
  {
    if t != [] {
      PotentialLevel(t[..|t| - 1], b, size, lp);
    }
  }

  /** Fewer than `b` entries one level down weigh less than one entry. */
  lemma Outweighs(c: nat, b: nat, h: nat)
    requires c < b
    ensures c * Pow(b, h) < Pow(b, h + 1)
  {
    MulBelow(c, b, Pow(b, h));
  }

  lemma {:induction false} MulBelow(c: nat, b: nat, p: nat)
    requires c < b && p >= 1
    ensures c * p < b * p
    decreases b
  {
    if b > c + 1 {
      MulBelow(c, b - 1, p);
    }
    assert b * p == (b - 1) * p + p;
  }

  /** Popping an entry and pushing fewer than `b` entries for the next
      position lowers the measure. */
  lemma PotentialDrops(full: seq<(Atom, nat)>, rest: seq<(Atom, nat)>, top: (Atom, nat), pushed: seq<(Atom, nat)>, b: nat, size: nat)
    requires full == rest + [top] && top.1 < size && |pushed| < b
    requires forall i :: 0 <= i < |pushed| ==> pushed[i].1 == top.1 + 1
    ensures Potential(rest + pushed, b, size) < Potential(full, b, size)
  {
    assert full[..|rest|] == rest;
    PotentialAppend(rest, pushed, b, size);
    PotentialLevel(pushed, b, size, top.1 + 1);
    Outweighs(|pushed|, b, size - (top.1 + 1));
  }

  lemma PotentialPop(full: seq<(Atom, nat)>, rest: seq<(Atom, nat)>, top: (Atom, nat), b: nat, size: nat)
    requires full == rest + [top] && b >= 1
    ensures Potential(rest, b, size) < Potential(full, b, size)
  {
    assert full[..|rest|] == rest;
  }

  /** Every stack entry `(t, e)` is a candidate that may follow the first
      `e` images of the path. */
  ghost predicate StackFits<QA, QB, TA, TB>(s: Search<QA, QB, TA, TB>, stack: seq<(Atom, nat)>, path: seq<Atom>)
    requires Ready(s)
  {
    forall i :: 0 <= i < |stack| ==> stack[i].1 <= |path| && FitsNext(s, path[..stack[i].1], stack[i].0)
  }

  /** Positions never decrease towards the top of the stack. */
  ghost predicate Ascending(stack: seq<(Atom, nat)>) {
    forall i, j :: 0 <= i < j < |stack| ==> stack[i].1 <= stack[j].1
  }

  /** The match `f` is reached by popping the `i`-th entry: it agrees with
      the path below the entry's position and maps that position's atom to
      the entry's candidate. */
  ghost predicate PendingAt<QA, QB, TA, TB>(s: Search<QA, QB, TA, TB>, stack: seq<(Atom, nat)>, path: seq<Atom>, f: map<Atom, Atom>, i: nat)
    requires Ready(s) && i < |stack| && forall x :: x in AtomsOf(s.order) ==> x in f
  {
    var e := stack[i].1;
    && e <= |path| && e < |s.order|
    && (forall j :: 0 <= j < e ==> f[s.order[j].atom] == path[j])
    && f[s.order[e].atom] == stack[i].0
  }

  /** Every match has been yielded or is still pending on the stack. */
  ghost predicate Covered<QA, QB, TA, TB>(s: Search<QA, QB, TA, TB>, stack: seq<(Atom, nat)>, path: seq<Atom>, out: seq<map<Atom, Atom>>)
    requires Ready(s)
  {
    forall f :: Embeds(s, f) ==> f in out || exists i :: 0 <= i < |stack| && PendingAt(s, stack, path, f, i)
  }

  /** The loop invariant of the search. */
  ghost predicate Searching<QA, QB, TA, TB>(s: Search<QA, QB, TA, TB>, stack: seq<(Atom, nat)>, path: seq<Atom>,
                                            mapping: map<Atom, Atom>, reversed: map<Atom, Atom>, out: seq<map<Atom, Atom>>)
    requires Ready(s)
  {
    && Tracks(s, path, mapping, reversed)
    && ValidPath(s, path)
    && StackFits(s, stack, path)
    && Ascending(stack)
    && (forall i :: 0 <= i < |out| ==> Embeds(s, out[i]))
    && Covered(s, stack, path, out)
  }

  /** The root candidates start the search with nothing yielded. */
  lemma StartSearch<QA, QB, TA, TB>(s: Search<QA, QB, TA, TB>, stack: seq<(Atom, nat)>)
    requires Ready(s)
    requires forall i :: 0 <= i < |stack| ==>
      stack[i].1 == 0 && stack[i].0 in s.target.atoms && stack[i].0 in s.atoms && s.atomEq(s.order[0].data, s.target.atoms[stack[i].0])
    requires forall n :: n in s.target.ids && n in s.atoms && n in s.target.atoms && s.atomEq(s.order[0].data, s.target.atoms[n]) ==> (n, 0) in stack
    ensures Searching(s, stack, [], map[], map[], [])
  {
    var empty: seq<Atom> := [];
    forall i | 0 <= i < |stack| ensures stack[i].1 <= |empty| && FitsNext(s, empty[..stack[i].1], stack[i].0) {
      var t := stack[i].0;
      assert empty[..0] + [t] == [t];
      assert Fits(s, [t], 0);
    }
    forall f | Embeds(s, f) ensures exists i :: 0 <= i < |stack| && PendingAt(s, stack, empty, f, i) {
      assert AtomsOf(s.order)[0] == s.order[0].atom;
      assert EntryEmbedded(s, f, 0);
      var n := f[s.order[0].atom];
      assert n in s.target.ids;
      var i :| 0 <= i < |stack| && stack[i] == (n, 0);
      assert PendingAt(s, stack, empty, f, i);
    }
  }

  /** The popped entry: a candidate for the position after the path prefix
      it was pushed for, with nothing below it for a later position. */
  lemma TopOf<QA, QB, TA, TB>(s: Search<QA, QB, TA, TB>, rest: seq<(Atom, nat)>, t: Atom, depth: nat, path: seq<Atom>)
    requires Ready(s) && StackFits(s, rest + [(t, depth)], path) && Ascending(rest + [(t, depth)])
    ensures depth <= |path| && FitsNext(s, path[..depth], t)
    ensures StackFits(s, rest, path) && Ascending(rest)
    ensures forall i :: 0 <= i < |rest| ==> rest[i].1 <= depth
  {
    var full := rest + [(t, depth)];
    assert full[|rest|] == (t, depth);
    assert forall i :: 0 <= i < |rest| ==> full[i] == rest[i];
  }

  /** A prefix of a valid path is valid. */
  lemma ValidPrefix<QA, QB, TA, TB>(s: Search<QA, QB, TA, TB>, p: seq<Atom>, e: nat)
    requires Ready(s) && ValidPath(s, p) && e <= |p|
    ensures ValidPath(s, p[..e])
  {
    forall k | 0 <= k < e ensures Fits(s, p[..e], k) {
      FitsPrefix(s, p, p[..e], k);
    }
  }

  /** A valid path extended by a candidate that may follow it is valid. */
  lemma ValidExtend<QA, QB, TA, TB>(s: Search<QA, QB, TA, TB>, p: seq<Atom>, t: Atom)
    requires Ready(s) && ValidPath(s, p) && FitsNext(s, p, t)
    ensures ValidPath(s, p + [t])
  {
    FitsExtend(s, p, t);
    DistinctConcat(p, [t]);
  }

  lemma FitsExtend<QA, QB, TA, TB>(s: Search<QA, QB, TA, TB>, p: seq<Atom>, t: Atom)
    requires Ready(s) && ValidPath(s, p) && FitsNext(s, p, t)
    ensures forall k :: 0 <= k < |p| + 1 ==> Fits(s, p + [t], k)
  {
    var q := p + [t];
    forall k | 0 <= k < |p| ensures Fits(s, q, k) {
      FitsPrefix(s, p, q, k);
    }
  }

  /** The full path a yielded map is read from is valid, so the map is a
      match; the map holds the path's images and the popped candidate. */
  lemma YieldSound<QA, QB, TA, TB>(s: Search<QA, QB, TA, TB>, path: seq<Atom>, mapping: map<Atom, Atom>, reversed: map<Atom, Atom>, t: Atom)
    requires Ready(s) && Tracks(s, path, mapping, reversed) && ValidPath(s, path)
    requires |path| == |s.order| - 1 && FitsNext(s, path, t)
    ensures var r := map[s.order[|path|].atom := t] + mapping;
      && Embeds(s, r)
      && (forall x :: x in r <==> x in AtomsOf(s.order))
      && (forall k :: 0 <= k < |path| ==> r[s.order[k].atom] == path[k])
      && r[s.order[|path|].atom] == t
  {
    var p := path + [t];
    var r := map[s.order[|path|].atom := t] + mapping;
    YieldMap(s, path, mapping, reversed, t);
    ValidExtend(s, path, t);
    PathEmbeds(s, p, r);
  }

  /** The yielded map sends the order's atoms along the full path. */
  lemma YieldMap<QA, QB, TA, TB>(s: Search<QA, QB, TA, TB>, path: seq<Atom>, mapping: map<Atom, Atom>, reversed: map<Atom, Atom>, t: Atom)
    requires Distinct(AtomsOf(s.order)) && Tracks(s, path, mapping, reversed) && |path| == |s.order| - 1
    ensures var r := map[s.order[|path|].atom := t] + mapping;
      && (forall x :: x in r <==> x in AtomsOf(s.order))
      && (forall k :: 0 <= k < |s.order| ==> r[s.order[k].atom] == (path + [t])[k])
  {
    var d := |path|;
    var p := path + [t];
    var r := map[s.order[d].atom := t] + mapping;
    var atoms := AtomsOf(s.order);
    SplitLast(atoms);
    assert forall j :: 0 <= j < d ==> atoms[..d][j] != atoms[d];
    assert s.order[d].atom !in mapping;
    forall x ensures x in r <==> x in atoms {
      assert x in atoms <==> x in atoms[..d] || x == atoms[d];
    }
    forall k | 0 <= k < |s.order| ensures r[s.order[k].atom] == p[k] {
      if k < d {
        assert atoms[k] != atoms[d];
      }
    }
  }

  /** Two maps on the order's atoms that agree with one path are equal. */
  lemma SameMatch<QA, QB, TA, TB>(s: Search<QA, QB, TA, TB>, f: map<Atom, Atom>, r: map<Atom, Atom>, p: seq<Atom>)
    requires |p| == |s.order|
    requires forall x :: x in f <==> x in AtomsOf(s.order)
    requires forall x :: x in r <==> x in AtomsOf(s.order)
    requires forall k :: 0 <= k < |p| ==> f[s.order[k].atom] == p[k] && r[s.order[k].atom] == p[k]
    ensures f == r
  {
    forall x | x in f ensures f[x] == r[x] {
      var k := Depth(s.order, x);
    }
    assert forall x :: x in f <==> x in r;
    SameMap(f, r);
  }

  /** A match pending on the stack before a yield is the yielded map or
      pending below the popped entry. */
  lemma YieldOne<QA, QB, TA, TB>(s: Search<QA, QB, TA, TB>, rest: seq<(Atom, nat)>, t: Atom, path: seq<Atom>,
                                 r: map<Atom, Atom>, f: map<Atom, Atom>, i: nat)
    requires Ready(s) && |path| == |s.order| - 1
    requires forall x :: x in f <==> x in AtomsOf(s.order)
    requires forall x :: x in r <==> x in AtomsOf(s.order)
    requires forall k :: 0 <= k < |path| ==> r[s.order[k].atom] == path[k]
    requires r[s.order[|path|].atom] == t
    requires i < |rest| + 1 && PendingAt(s, rest + [(t, |path|)], path, f, i)
    ensures f == r || (i < |rest| && PendingAt(s, rest, path, f, i))
  {
    var full := rest + [(t, |path|)];
    if i < |rest| {
      assert full[i] == rest[i];
    } else {
      assert full[i] == (t, |path|);
      var p := path + [t];
      assert forall k :: 0 <= k < |p| ==> f[s.order[k].atom] == p[k] && r[s.order[k].atom] == p[k];
      SameMatch(s, f, r, p);
    }
  }

  /** Yielding the match of the popped entry keeps every match covered. */
  lemma YieldCovered<QA, QB, TA, TB>(s: Search<QA, QB, TA, TB>, rest: seq<(Atom, nat)>, t: Atom, path: seq<Atom>,
                                     out: seq<map<Atom, Atom>>, r: map<Atom, Atom>)
    requires Ready(s) && |path| == |s.order| - 1
    requires Covered(s, rest + [(t, |path|)], path, out)
    requires forall x :: x in r <==> x in AtomsOf(s.order)
    requires forall k :: 0 <= k < |path| ==> r[s.order[k].atom] == path[k]
    requires r[s.order[|path|].atom] == t
    ensures Covered(s, rest, path, out + [r])
  {
    var full := rest + [(t, |path|)];
    forall f | Embeds(s, f) ensures f in out + [r] || exists i :: 0 <= i < |rest| && PendingAt(s, rest, path, f, i) {
      if f !in out {
        var i :| 0 <= i < |full| && PendingAt(s, full, path, f, i);
        YieldOne(s, rest, t, path, r, f, i);
      }
    }
  }

  /** `yield {s_atom: o_atom, **mapping}` when the popped entry is for the
      last position. */
  lemma YieldStep<QA, QB, TA, TB>(s: Search<QA, QB, TA, TB>, rest: seq<(Atom, nat)>, t: Atom, depth: nat,
                                  path: seq<Atom>, mapping: map<Atom, Atom>, reversed: map<Atom, Atom>, out: seq<map<Atom, Atom>>)
    requires Ready(s) && depth == |s.order| - 1
    requires Searching(s, rest + [(t, depth)], path, mapping, reversed, out)
    ensures Searching(s, rest, path, mapping, reversed, out + [map[s.order[depth].atom := t] + mapping])
  {
    TopOf(s, rest, t, depth, path);
    assert path[..depth] == path;
    var r := map[s.order[depth].atom := t] + mapping;
    YieldSound(s, path, mapping, reversed, t);
    YieldCovered(s, rest, t, path, out, r);
    forall i | 0 <= i < |out + [r]| ensures Embeds(s, (out + [r])[i]) {
      if i < |out| {
        assert (out + [r])[i] == out[i];
      }
    }
  }

  /** `path = path[:depth]` after deleting the mapping of the dropped
      images. */
  lemma TruncateTracks<QA, QB, TA, TB>(s: Search<QA, QB, TA, TB>, path: seq<Atom>, mapping: map<Atom, Atom>, reversed: map<Atom, Atom>, d: nat)
    requires Distinct(AtomsOf(s.order)) && Tracks(s, path, mapping, reversed) && d <= |path|
    ensures forall i :: 0 <= i < |path[d..]| ==> path[d..][i] in reversed
    ensures Tracks(s, path[..d], Forget(mapping, reversed, path[d..]), reversed)
  {
    var xs := path[d..];
    assert forall i :: 0 <= i < |xs| ==> xs[i] == path[d + i];
    var m := Forget(mapping, reversed, xs);
    var atoms := AtomsOf(s.order);
    forall y ensures y in m <==> y in atoms[..d] {
      if y in atoms[..d] {
        KeptKey(s, path, mapping, reversed, d, y);
      }
      if y in m {
        ForgottenKey(s, path, mapping, reversed, d, y);
      }
    }
    forall k | 0 <= k < d ensures s.order[k].atom in m && m[s.order[k].atom] == path[k] {
      assert atoms[..d][k] == s.order[k].atom;
    }
  }

  /** The images of the cut-off tail are the order's atoms from `d` on. */
  lemma TailImage<QA, QB, TA, TB>(s: Search<QA, QB, TA, TB>, path: seq<Atom>, mapping: map<Atom, Atom>, reversed: map<Atom, Atom>, d: nat)
    requires Tracks(s, path, mapping, reversed) && d <= |path|
    ensures forall i :: 0 <= i < |path[d..]| ==> path[d..][i] in reversed
    ensures forall i :: 0 <= i < |path| - d ==> Image(path[d..], reversed)[i] == AtomsOf(s.order)[d + i]
  {
    assert forall i :: 0 <= i < |path[d..]| ==> path[d..][i] == path[d + i];
  }

  /** An atom of the kept prefix survives the cut. */
  lemma KeptKey<QA, QB, TA, TB>(s: Search<QA, QB, TA, TB>, path: seq<Atom>, mapping: map<Atom, Atom>, reversed: map<Atom, Atom>, d: nat, y: Atom)
    requires Distinct(AtomsOf(s.order)) && Tracks(s, path, mapping, reversed) && d <= |path|
    requires y in AtomsOf(s.order)[..d]
    ensures forall i :: 0 <= i < |path[d..]| ==> path[d..][i] in reversed
    ensures y in Forget(mapping, reversed, path[d..])
  {
    TailImage(s, path, mapping, reversed, d);
    var atoms := AtomsOf(s.order);
    var gone := Image(path[d..], reversed);
    var k :| 0 <= k < d && atoms[k] == y;
    assert y in atoms[..|path|];
    forall i | 0 <= i < |gone| ensures gone[i] != y {
      assert gone[i] == atoms[d + i];
    }
  }

  /** An atom that survives the cut belongs to the kept prefix. */
  lemma ForgottenKey<QA, QB, TA, TB>(s: Search<QA, QB, TA, TB>, path: seq<Atom>, mapping: map<Atom, Atom>, reversed: map<Atom, Atom>, d: nat, y: Atom)
    requires Tracks(s, path, mapping, reversed) && d <= |path|
    requires forall i :: 0 <= i < |path[d..]| ==> path[d..][i] in reversed
    requires y in Forget(mapping, reversed, path[d..])
    ensures y in AtomsOf(s.order)[..d]
  {
    TailImage(s, path, mapping, reversed, d);
    var atoms := AtomsOf(s.order);
    var gone := Image(path[d..], reversed);
    var k :| 0 <= k < |path| && atoms[k] == y;
    assert atoms[..d][k] == y;
  }

  /** `path.append(o_atom)` with `mapping[s_atom] = o_atom` and
      `reversed_mapping[o_atom] = s_atom`. */
  lemma ExtendTracks<QA, QB, TA, TB>(s: Search<QA, QB, TA, TB>, path: seq<Atom>, mapping: map<Atom, Atom>, reversed: map<Atom, Atom>, t: Atom)
    requires Distinct(AtomsOf(s.order)) && Tracks(s, path, mapping, reversed)
    requires t !in path && |path| + 1 < |s.order|
    ensures Tracks(s, path + [t], mapping[s.order[|path|].atom := t], reversed[t := s.order[|path|].atom])
  {
    var d := |path|;
    var atoms := AtomsOf(s.order);
    var p := path + [t];
    var m := mapping[s.order[d].atom := t];
    forall x ensures x in m <==> x in atoms[..d + 1] {
      assert atoms[..d + 1] == atoms[..d] + [atoms[d]];
    }
    forall k | 0 <= k < d ensures s.order[k].atom in m && m[s.order[k].atom] == p[k] {
      assert atoms[k] != atoms[d];
    }
  }

  /** `fork`: the image of the parent of the next entry, read from the path
      or, when the parent is the popped entry's atom, the popped candidate. */
  lemma ForkFacts<QA, QB, TA, TB>(s: Search<QA, QB, TA, TB>, p: seq<Atom>, t: Atom)
    requires Ready(s) && |p| + 1 < |s.order|
    ensures LinksBack(s.order, |p| + 1)
    ensures s.order[|p| + 1].parent != s.order[|p|].atom ==>
      s.order[|p| + 1].parent in AtomsOf(s.order) && Depth(s.order, s.order[|p| + 1].parent) < |p|
    ensures (if s.order[|p| + 1].parent != s.order[|p|].atom then p[Depth(s.order, s.order[|p| + 1].parent)] else t)
      == (p + [t])[ParentDepth(s.order, |p| + 1)]
  {
    var depth := |p|;
    var d := ParentDepth(s.order, depth + 1);
    var atoms := AtomsOf(s.order);
    assert atoms[d] == s.order[depth + 1].parent;
    if d == depth {
      assert (p + [t])[d] == t;
    } else {
      assert atoms[d] != atoms[depth];
      assert (p + [t])[d] == p[d];
    }
  }

  /** The atoms a next entry closes rings to are mapped already. */
  lemma ClosuresMapped<QA, QB, TA, TB>(s: Search<QA, QB, TA, TB>, p: seq<Atom>, m: map<Atom, Atom>)
    requires Ready(s) && |p| < |s.order|
    requires forall x :: x in m <==> x in AtomsOf(s.order)[..|p|]
    ensures forall j :: 0 <= j < |ClosuresOf(s.closures, s.order[|p|].atom)| ==> ClosuresOf(s.closures, s.order[|p|].atom)[j].0 in m
  {
    var cl := ClosuresOf(s.closures, s.order[|p|].atom);
    assert ClosesBack(s.order, s.closures, |p|);
    forall j | 0 <= j < |cl| ensures cl[j].0 in m {
      assert Firsts(cl)[j] == cl[j].0;
    }
  }

  /** The source's test on a neighbour of `fork` is exactly `FitsNext`. */
  lemma AdmitsIff<QA, QB, TA, TB>(s: Search<QA, QB, TA, TB>, fork: Atom, p: seq<Atom>, m: map<Atom, Atom>, n: Atom)
    requires Ready(s) && 1 <= |p| < |s.order|
    requires forall k :: 0 <= k < |p| ==> s.order[k].atom in m && m[s.order[k].atom] == p[k]
    requires forall j :: 0 <= j < |ClosuresOf(s.closures, s.order[|p|].atom)| ==> ClosuresOf(s.closures, s.order[|p|].atom)[j].0 in m
    requires fork == p[ParentDepth(s.order, |p|)]
    requires fork in s.target.bonds && n in s.target.bonds[fork] && n in s.target.atoms
    ensures Admits(s, fork, p, m, |p|, n) <==> FitsNext(s, p, n)
  {
    var lp := |p|;
    var q := p + [n];
    var d := ParentDepth(s.order, lp);
    assert q[d] == fork && q[lp] == n;
    var cl := ClosuresOf(s.closures, s.order[lp].atom);
    forall j | 0 <= j < |cl| ensures q[ClosureDepth(s.order, s.closures, lp, j)] == m[cl[j].0] {
      var c := ClosureDepth(s.order, s.closures, lp, j);
      assert q[c] == p[c];
    }
  }

  /** The pushed candidates are exactly the atoms that may follow the
      extended path. */
  lemma CandidatesExact<QA, QB, TA, TB>(s: Search<QA, QB, TA, TB>, fork: Atom, p: seq<Atom>, m: map<Atom, Atom>, ns: seq<Atom>, cands: seq<(Atom, nat)>)
    requires Ready(s) && 1 <= |p| < |s.order|
    requires forall k :: 0 <= k < |p| ==> s.order[k].atom in m && m[s.order[k].atom] == p[k]
    requires forall j :: 0 <= j < |ClosuresOf(s.closures, s.order[|p|].atom)| ==> ClosuresOf(s.closures, s.order[|p|].atom)[j].0 in m
    requires fork == p[ParentDepth(s.order, |p|)]
    requires fork in s.target.bonds && forall n :: n in ns <==> n in s.target.bonds[fork]
    requires forall n :: n in ns ==> n in s.target.atoms
    requires cands == Candidates(s, fork, p, m, |p|, ns)
    ensures forall i :: 0 <= i < |cands| ==> cands[i].1 == |p| && FitsNext(s, p, cands[i].0)
    ensures forall n :: FitsNext(s, p, n) ==> (n, |p|) in cands
  {
    forall i | 0 <= i < |cands| ensures FitsNext(s, p, cands[i].0) {
      AdmitsIff(s, fork, p, m, cands[i].0);
    }
    forall n | FitsNext(s, p, n) ensures (n, |p|) in cands {
      var d := ParentDepth(s.order, |p|);
      assert (p + [n])[d] == fork;
      assert Fits(s, p + [n], |p|);
      AdmitsIff(s, fork, p, m, n);
    }
  }

  /** After pushing, every entry still fits the prefix it was pushed for. */
  lemma ExtendStackFits<QA, QB, TA, TB>(s: Search<QA, QB, TA, TB>, rest: seq<(Atom, nat)>, t: Atom, depth: nat, path: seq<Atom>, p: seq<Atom>, cands: seq<(Atom, nat)>)
    requires Ready(s) && StackFits(s, rest, path) && Ascending(rest)
    requires forall i :: 0 <= i < |rest| ==> rest[i].1 <= depth
    requires depth <= |path| && p == path[..depth] + [t]
    requires forall i :: 0 <= i < |cands| ==> cands[i].1 == |p| && FitsNext(s, p, cands[i].0)
    ensures StackFits(s, rest + cands, p) && Ascending(rest + cands)
  {
    assert forall j :: 0 <= j < depth ==> p[j] == path[j];
    var st := rest + cands;
    forall i | 0 <= i < |st| ensures st[i].1 <= |p| && FitsNext(s, p[..st[i].1], st[i].0) {
      if i < |rest| {
        var e := rest[i].1;
        assert st[i] == rest[i];
        assert p[..e] == path[..e];
      } else {
        assert st[i] == cands[i - |rest|];
        assert p[..|p|] == p;
      }
    }
    forall i, j | 0 <= i < j < |st| ensures st[i].1 <= st[j].1 {
      if j < |rest| {
        assert st[i] == rest[i] && st[j] == rest[j];
      } else if i < |rest| {
        assert st[i] == rest[i] && st[j] == cands[j - |rest|];
      } else {
        assert st[i] == cands[i - |rest|] && st[j] == cands[j - |rest|];
      }
    }
  }

  /** An atom that follows the path on a valid path may follow it. */
  lemma NextImage<QA, QB, TA, TB>(s: Search<QA, QB, TA, TB>, full: seq<Atom>, p: seq<Atom>)
    requires Ready(s) && ValidPath(s, full) && |p| < |full|
    requires forall j :: 0 <= j < |p| ==> p[j] == full[j]
    ensures FitsNext(s, p, full[|p|])
  {
    var q := p + [full[|p|]];
    assert forall j :: 0 <= j <= |p| ==> full[j] == q[j];
    assert Fits(s, full, |p|);
    FitsPrefix(s, full, q, |p|);
    assert forall j :: 0 <= j < |p| ==> full[j] != full[|p|];
  }

  /** A match pending below the popped entry stays pending after the path
      is cut back to that entry's position. */
  lemma KeepPending<QA, QB, TA, TB>(s: Search<QA, QB, TA, TB>, full: seq<(Atom, nat)>, st: seq<(Atom, nat)>, path: seq<Atom>, p: seq<Atom>,
                                    f: map<Atom, Atom>, i: nat, depth: nat)
    requires Ready(s) && forall x :: x in AtomsOf(s.order) ==> x in f
    requires i < |full| && i < |st| && full[i] == st[i] && full[i].1 <= depth
    requires PendingAt(s, full, path, f, i)
    requires depth <= |p| && depth <= |path| && forall j :: 0 <= j < depth ==> p[j] == path[j]
    ensures PendingAt(s, st, p, f, i)
  {
  }

  /** A match pending at the popped entry is pending at one of the pushed
      candidates. */
  lemma Descend<QA, QB, TA, TB>(s: Search<QA, QB, TA, TB>, rest: seq<(Atom, nat)>, p: seq<Atom>, cands: seq<(Atom, nat)>, f: map<Atom, Atom>)
    returns (c: nat)
    requires Ready(s) && Embeds(s, f) && |p| < |s.order|
    requires forall j :: 0 <= j < |p| ==> f[s.order[j].atom] == p[j]
    requires forall n :: FitsNext(s, p, n) ==> (n, |p|) in cands
    ensures c < |cands| && PendingAt(s, rest + cands, p, f, |rest| + c)
  {
    EmbedsPath(s, f);
    var full := PathOf(s.order, f);
    NextImage(s, full, p);
    var n := f[s.order[|p|].atom];
    c :| 0 <= c < |cands| && cands[c] == (n, |p|);
    assert (rest + cands)[|rest| + c] == cands[c];
  }

  /** After pushing, every match is still yielded or pending. */
  lemma ExtendCovered<QA, QB, TA, TB>(s: Search<QA, QB, TA, TB>, rest: seq<(Atom, nat)>, t: Atom, depth: nat, path: seq<Atom>,
                                      p: seq<Atom>, cands: seq<(Atom, nat)>, out: seq<map<Atom, Atom>>)
    requires Ready(s) && Covered(s, rest + [(t, depth)], path, out)
    requires forall i :: 0 <= i < |rest| ==> rest[i].1 <= depth
    requires depth <= |path| && depth + 1 < |s.order| && p == path[..depth] + [t]
    requires forall n :: FitsNext(s, p, n) ==> (n, |p|) in cands
    ensures Covered(s, rest + cands, p, out)
  {
    assert forall j :: 0 <= j < depth ==> p[j] == path[j];
    var full := rest + [(t, depth)];
    var st := rest + cands;
    forall f | Embeds(s, f) ensures f in out || exists i :: 0 <= i < |st| && PendingAt(s, st, p, f, i) {
      if f !in out {
        var i :| 0 <= i < |full| && PendingAt(s, full, path, f, i);
        if i < |rest| {
          assert full[i] == rest[i] && st[i] == rest[i];
          KeepPending(s, full, st, path, p, f, i, depth);
        } else {
          assert full[i] == (t, depth);
          var c := Descend(s, rest, p, cands, f);
          assert PendingAt(s, st, p, f, |rest| + c);
        }
      }
    }
  }

  /** The fork is a target atom with a row of bonds. */
  lemma ForkInTarget<QA, QB, TA, TB>(s: Search<QA, QB, TA, TB>, p: seq<Atom>)
    requires Ready(s) && ValidPath(s, p) && 1 <= |p| < |s.order|
    ensures p[ParentDepth(s.order, |p|)] in s.target.bonds
  {
    var d := ParentDepth(s.order, |p|);
    assert Fits(s, p, d);
  }

  /** `path = path[:depth]`, deleting the dropped images' entries from
      `mapping`; nothing changes when the path is that long already. */
  method Cut<QA, QB, TA, TB>(s: Search<QA, QB, TA, TB>, path: seq<Atom>, mapping: map<Atom, Atom>, reversed: map<Atom, Atom>, depth: nat)
    returns (p: seq<Atom>, m: map<Atom, Atom>)
    requires Ready(s) && Tracks(s, path, mapping, reversed) && ValidPath(s, path) && depth <= |path|
    ensures p == path[..depth]
    ensures Tracks(s, p, m, reversed) && ValidPath(s, p)
  {
    ValidPrefix(s, path, depth);
    p, m := path, mapping;
    if |p| != depth {
      TruncateTracks(s, p, m, reversed, depth);
      m := Forget(m, reversed, p[depth..]);
      p := p[..depth];
    } else {
      assert p[..depth] == p;
    }
  }

  /** Cut the path back to the popped entry's position (deleting the
      dropped images from `mapping`), append the popped candidate, and find
      `fork`, the image of the next entry's parent. */
  method Advance<QA, QB, TA, TB>(s: Search<QA, QB, TA, TB>, path: seq<Atom>, mapping: map<Atom, Atom>, reversed: map<Atom, Atom>,
                                 t: Atom, depth: nat)
    returns (p: seq<Atom>, m: map<Atom, Atom>, rev: map<Atom, Atom>, fork: Atom)
    requires Ready(s) && depth + 1 < |s.order|
    requires Tracks(s, path, mapping, reversed) && ValidPath(s, path)
    requires depth <= |path| && FitsNext(s, path[..depth], t)
    ensures Tracks(s, p, m, rev) && ValidPath(s, p)
    ensures p == path[..depth] + [t]
    ensures fork == p[ParentDepth(s.order, |p|)] && fork in s.target.bonds
  {
    var p0, m0 := Cut(s, path, mapping, reversed, depth);
    fork := Fork(s, p0, t);
    p, m, rev := Append(s, p0, m0, reversed, t);
    ForkInTarget(s, p);
  }

  /** `back = order[depth + 1][1]`, then `fork = path[order_depth[back]]`,
      or the popped candidate when `back` is the popped entry's atom: the
      image of the next entry's parent once the candidate is appended. */
  function Fork<QA, QB, TA, TB>(s: Search<QA, QB, TA, TB>, p: seq<Atom>, t: Atom): (r: Atom)
    requires Ready(s) && |p| + 1 < |s.order|
    ensures r == (p + [t])[ParentDepth(s.order, |p| + 1)]
  {
    ForkFacts(s, p, t);
    var back := s.order[|p| + 1].parent;
    if back != s.order[|p|].atom then p[Depth(s.order, back)] else t
  }

  /** `path.append(o_atom)`, `mapping[s_atom] = o_atom`,
      `reversed_mapping[o_atom] = s_atom`. */
  method Append<QA, QB, TA, TB>(s: Search<QA, QB, TA, TB>, path: seq<Atom>, mapping: map<Atom, Atom>, reversed: map<Atom, Atom>, t: Atom)
    returns (p: seq<Atom>, m: map<Atom, Atom>, rev: map<Atom, Atom>)
    requires Ready(s) && |path| + 1 < |s.order|
    requires Tracks(s, path, mapping, reversed) && ValidPath(s, path) && FitsNext(s, path, t)
    ensures p == path + [t]
    ensures Tracks(s, p, m, rev) && ValidPath(s, p)
  {
    var sAtom := s.order[|path|].atom;
    ExtendTracks(s, path, mapping, reversed, t);
    ValidExtend(s, path, t);
    p, m, rev := path + [t], mapping[sAtom := t], reversed[t := sAtom];
  }

  /** The neighbours of `fork` that may follow the path `p`, each paired
      with the position they are for. */
  method Push<QA, QB, TA, TB>(s: Search<QA, QB, TA, TB>, fork: Atom, p: seq<Atom>, m: map<Atom, Atom>, rev: map<Atom, Atom>)
    returns (cands: seq<(Atom, nat)>)
    requires Ready(s) && Tracks(s, p, m, rev) && 1 <= |p|
    requires fork == p[ParentDepth(s.order, |p|)] && fork in s.target.bonds
    ensures |cands| <= |s.target.ids|
    ensures forall i :: 0 <= i < |cands| ==> cands[i].1 == |p| && FitsNext(s, p, cands[i].0)
    ensures forall n :: FitsNext(s, p, n) ==> (n, |p|) in cands
  {
    RowInAtoms(s.target, fork);
    IdsAreAtoms(s.target);
    var ns := Filter(s.target.ids, s.target.bonds[fork].Keys);
    ClosuresMapped(s, p, m);
    cands := Candidates(s, fork, p, m, |p|, ns);
    CandidatesExact(s, fork, p, m, ns, cands);
  }

  /** One step of the search below the last position: extend the path by
      the candidate and push the candidates for the next position. */
  method Extend<QA, QB, TA, TB>(s: Search<QA, QB, TA, TB>, rest: seq<(Atom, nat)>, t: Atom, depth: nat,
                                path: seq<Atom>, mapping: map<Atom, Atom>, reversed: map<Atom, Atom>, ghost out: seq<map<Atom, Atom>>)
    returns (cands: seq<(Atom, nat)>, p: seq<Atom>, m: map<Atom, Atom>, rev: map<Atom, Atom>)
    requires Ready(s) && depth + 1 < |s.order|
    requires Searching(s, rest + [(t, depth)], path, mapping, reversed, out)
    ensures Searching(s, rest + cands, p, m, rev, out)
    ensures |cands| <= |s.target.ids| && forall i :: 0 <= i < |cands| ==> cands[i].1 == depth + 1
  {
    TopOf(s, rest, t, depth, path);
    var fork;
    p, m, rev, fork := Advance(s, path, mapping, reversed, t, depth);
    cands := Push(s, fork, p, m, rev);
    ExtendStackFits(s, rest, t, depth, path, p, cands);
    ExtendCovered(s, rest, t, depth, path, p, cands, out);
  }

  /** `stack.pop()`: the top candidate and its position, a position of
      the order. */
  method Pop<QA, QB, TA, TB>(s: Search<QA, QB, TA, TB>, stack: seq<(Atom, nat)>, ghost path: seq<Atom>)
    returns (rest: seq<(Atom, nat)>, t: Atom, depth: nat)
    requires Ready(s) && stack != [] && StackFits(s, stack, path)
    ensures stack == rest + [(t, depth)] && depth < |s.order|
  {
    t, depth := stack[|stack| - 1].0, stack[|stack| - 1].1;
    rest := stack[..|stack| - 1];
    assert stack[|stack| - 1] == (t, depth);
    SplitLast(stack);
  }

  /** One iteration of `while stack`: pop, then yield a match or extend
      the path and push the next candidates. */
  method Step<QA, QB, TA, TB>(s: Search<QA, QB, TA, TB>, stack: seq<(Atom, nat)>, path: seq<Atom>,
                              mapping: map<Atom, Atom>, reversed: map<Atom, Atom>, out: seq<map<Atom, Atom>>)
    returns (stack': seq<(Atom, nat)>, path': seq<Atom>, mapping': map<Atom, Atom>, reversed': map<Atom, Atom>, out': seq<map<Atom, Atom>>)
    requires Ready(s) && stack != [] && Searching(s, stack, path, mapping, reversed, out)
    ensures Searching(s, stack', path', mapping', reversed', out')
    ensures Potential(stack', |s.target.ids| + 1, |s.order| - 1) < Potential(stack, |s.target.ids| + 1, |s.order| - 1)
  {
    var rest, t, depth := Pop(s, stack, path);
    if depth == |s.order| - 1 {
      stack', out' := Yield(s, rest, t, depth, path, mapping, reversed, out);
      PotentialPop(stack, rest, (t, depth), |s.target.ids| + 1, |s.order| - 1);
      path', mapping', reversed' := path, mapping, reversed;
      assert Potential(stack', |s.target.ids| + 1, |s.order| - 1) < Potential(stack, |s.target.ids| + 1, |s.order| - 1);
    } else {
      var cands;
      cands, path', mapping', reversed' := Extend(s, rest, t, depth, path, mapping, reversed, out);
      PotentialDrops(stack, rest, (t, depth), cands, |s.target.ids| + 1, |s.order| - 1);
      stack', out' := rest + cands, out;
      assert Potential(stack', |s.target.ids| + 1, |s.order| - 1) < Potential(stack, |s.target.ids| + 1, |s.order| - 1);
    }
  }

  /** `yield {s_atom: o_atom, **mapping}` for a candidate of the last
      position. */
  method Yield<QA, QB, TA, TB>(s: Search<QA, QB, TA, TB>, rest: seq<(Atom, nat)>, t: Atom, depth: nat, path: seq<Atom>,
                               mapping: map<Atom, Atom>, reversed: map<Atom, Atom>, out: seq<map<Atom, Atom>>)
    returns (stack': seq<(Atom, nat)>, out': seq<map<Atom, Atom>>)
    requires Ready(s) && depth == |s.order| - 1 && Searching(s, rest + [(t, depth)], path, mapping, reversed, out)
    ensures Searching(s, stack', path, mapping, reversed, out') && stack' == rest
  {
    var r := map[s.order[depth].atom := t] + mapping;
    YieldStep(s, rest, t, depth, path, mapping, reversed, out);
    stack', out' := rest, out + [r];
  }

  /** `__get_mapping` for one component: every match of the component onto
      the allowed atoms, each yielded as `{s_atom: o_atom, **mapping}`. */
  method Mappings<QA, QB, TA, TB>(s: Search<QA, QB, TA, TB>) returns (out: seq<map<Atom, Atom>>)
    requires Ready(s)
    ensures forall i :: 0 <= i < |out| ==> Embeds(s, out[i])
    ensures forall f :: Embeds(s, f) ==> f in out
  {
    var size := |s.order| - 1;
    IdsAreAtoms(s.target);
    var stack := Roots(s, s.target.ids);
    var path: seq<Atom> := [];
    var mapping: map<Atom, Atom> := map[];
    var reversed: map<Atom, Atom> := map[];
    out := [];
    StartSearch(s, stack);
    while stack != []
      invariant Searching(s, stack, path, mapping, reversed, out)
      decreases Potential(stack, |s.target.ids| + 1, size)
    {
      stack, path, mapping, reversed, out := Step(s, stack, path, mapping, reversed, out);
    }
  }
}
