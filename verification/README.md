# CGRtools graph core in Dafny

A model of the sequential graph logic at the heart of CGRtools: the molecular
graph container, the Morgan-style canonical ranking of its atoms, and the
substructure matcher built on that ranking.

- **Graph container** (`Graphs`, `BondListing`, `Remaps`, `Substructures`).
  A graph has integer atom numbers kept in insertion order, an opaque atom
  label per atom, a formal charge, a symmetric adjacency map
  `atom -> (neighbour -> bond label)` and a name. Python exceptions become
  `Err` values of a `Result`, one error per `raise`. The model covers adding
  and deleting atoms and bonds, listing bonds, renumbering atoms, taking
  induced substructures and growing a neighbourhood layer by layer.
- **Canonical ranking** (`Primes`, `Ranking`, `Morgan`). `_sorted_primed`
  gives every distinct key the next prime from a table of the first 1000
  primes. `_morgan` repeatedly replaces a weight `w(n)` by
  `w(n)^2 * prod w(neighbours)` and re-ranks, under the retry budget and
  the stall counters of the source. `atoms_order` combines the two.
- **Matching** (`Queries`, `Matching`, `Itertools`, `Isomorphisms`).
  `__compiled_query` splits the query into depth-first ordered components
  and records the ring closures. `__get_mapping` is the explicit-stack
  backtracking search, modelled with its stack, path truncation and both
  mapping dictionaries. `get_mapping` walks `permutations` of the target
  components and the `product` of per-component matches, then applies the
  automorphism filter. The comparisons `is_substructure`, `is_equal`, `<`,
  `<=`, `>` and `>=` are built on it.

The matcher is proved against a definition that does not mention the
search. `Isomorphisms.Matches` holds when a map is injective, preserves atom
labels and sends every query bond to a target bond with an equal label.
It also requires that the map sends query atoms to target atoms inside the
given target components, and atoms in different query components to
different target components. `get_mapping` yields exactly these maps.
With the filter on, it yields one of them per set of target atoms.

Atom and bond labels are type parameters. Python's `==` between a query
label and a target label is a parameter (`atomEq`, `bondEq`), because query
atoms may compare asymmetrically. The ranking needs `int(atom)` and
`int(bond)`, which are parameters `acode` and `bcode`. The target's
`connected_components` is a parameter: a sequence of pairwise disjoint atom
sets, none of them left by a bond (`Isomorphisms.TargetComponents`).

Three behaviours of the code a reader may not expect:

- `is_substructure(G, G)` is not always true. An empty query makes
  `get_mapping` fail at `match[0]` with an `IndexError`. The model returns
  `Err(EmptyQuery)` there.
- `is_equal` compares atom counts only, not bond counts. A three-atom chain
  with matching labels is therefore equal to a three-atom ring. The model
  states this: `Isomorphisms.IsEqual` promises an onto match, not an
  isomorphism.
- Without the filter every match is yielded, so a triangle query on a
  triangle target gives all six labelled embeddings (three rotations times
  two reflections), not three.

## Model

| member | source | states |
|---|---|---|
| Graphs.ValidateCharge | CGRtools/containers/common.py:422-427 | a charge is accepted exactly when it lies in [-4, 4], is returned unchanged, and is otherwise a range error |
| Graphs.NextId | CGRtools/containers/common.py:155-156 | the default atom number exceeds every existing one, is 1 for an empty graph, and is one more than an existing number otherwise |
| Graphs.AddAtom | CGRtools/containers/common.py:150-175 | an existing number is refused, then a bad charge; otherwise the new atom gets the given or next number, an empty adjacency row, its label and charge, and the graph stays well formed with nothing else changed |
| Graphs.AddBond | CGRtools/containers/common.py:178-190 | a loop, a missing atom and an existing bond are refused in that order; otherwise both directions carry the same bond, symmetry holds, and every other pair keeps its bond |
| Graphs.DeleteAtom | CGRtools/containers/common.py:193-207 | a missing atom is a key error; otherwise the atom, its charge and its row go, no row mentions it any more, and every bond between other atoms is kept |
| Graphs.DeleteBond | CGRtools/containers/common.py:210-216 | a missing bond is a key error; otherwise both directions go and every other pair keeps its bond |
| Graphs.SetName | CGRtools/containers/common.py:141-147 | a name longer than 80 characters is refused; otherwise only the name changes |
| Graphs.AddDeleteAtomRoundTrip | CGRtools/containers/common.py:150-207 | deleting an atom just added gives back the original graph |
| Graphs.AddDeleteBondRoundTrip | CGRtools/containers/common.py:178-216 | deleting a bond just added gives back the original graph |
| BondListing.Bonds | CGRtools/containers/common.py:118-127 | the listing has no repeats and holds a triple exactly when its first atom comes earlier in the row order and the bond is the graph's |
| BondListing.ForwardExactlyOnce | CGRtools/containers/common.py:122-127 | every bond is listed in exactly one orientation |
| BondListing.CountListed | CGRtools/containers/common.py:118-131 | `bonds_count`, the degree sum halved, is the number of bonds listed |
| BondListing.Handshake | CGRtools/containers/common.py:129-131 | the degree sum is twice the number of bonds |
| Remaps.RemapAsWritten | CGRtools/containers/common.py:219-276 | the source's check: the mapping is accepted exactly when its values are distinct, and the graph is rebuilt under `n -> mapping.get(n, n)` |
| Remaps.DistinctValuesCard | CGRtools/containers/common.py:220-221 | `len(mapping) == len(set(mapping.values()))` holds exactly when the mapping is injective |
| Remaps.RemapAsWrittenMergesAtoms | CGRtools/containers/common.py:220-266 | the source accepts `{1: 2}` on two bonded atoms 1 and 2 and produces a single atom bonded to itself, which is not a well-formed graph |
| Remaps.Remap | CGRtools/containers/common.py:219-276 | the corrected check: the mapping is accepted exactly when its values are distinct and no two atoms of the graph receive the same new number, and the graph is rebuilt under it |
| Remaps.RemapAcceptsUnusedKey | CGRtools/containers/common.py:219-276 | on two bonded atoms 1 and 2, the mapping `{99: 1}` is accepted, as by the source, and the graph comes back unchanged |
| Remaps.RemapFixingAll | CGRtools/containers/common.py:219-276 | a mapping with distinct values that sends every atom of a well-formed graph to itself is accepted and returns the graph unchanged: same atom order, labels, charges and bonds |
| Remaps.RemapRefusesMerge | CGRtools/containers/common.py:220-221 | the corrected check refuses the merging mapping |
| Remaps.RemapRenumbers | CGRtools/containers/common.py:219-276 | an accepted renumbering gives a well-formed graph isomorphic to the original under the renaming |
| Remaps.RebuildNodes | CGRtools/containers/common.py:253-258 | every atom moves to its new number with its label and charge, unmapped atoms keep theirs, and the atom order is renamed position by position |
| Remaps.RebuildEdges | CGRtools/containers/common.py:265-266 | a bond `(n, m)` exists exactly when `(map(n), map(m))` does, with the same label, and symmetry is kept |
| Substructures.InducedBonds | CGRtools/containers/common.py:339-345 | the copied rows hold exactly the bonds with both ends selected, symmetrically, with the original labels |
| Substructures.Substructure | CGRtools/containers/common.py:314-347 | an empty list and unknown atoms are refused; otherwise the result is the induced subgraph in the original atom order, named as `meta` says. The atom table is filled by each subclass's override through `atom.copy`, which is not part of this model; the model keeps each selected atom's label |
| Substructures.SelectionOrder | CGRtools/containers/common.py:319 | the kept order holds exactly the selected atoms and is empty only for an empty selection |
| Substructures.InducedFull | CGRtools/containers/common.py:314-347 | selecting every atom and keeping the name gives back the graph itself |
| Substructures.Exclude | CGRtools/containers/common.py:355-366 | unknown atoms are refused, then excluding everything; otherwise the result is the subgraph induced by the remaining atoms |
| Substructures.Layers | CGRtools/containers/common.py:435-445 | unknown atoms are refused; otherwise there are at most `deep + 1` layers, each the previous plus its neighbours, ending at a fixpoint or after `deep` rounds, and the last is the `deep`-fold expansion |
| Substructures.LayersIncrease | CGRtools/containers/common.py:440-444 | the layers are strictly nested |
| Substructures.ExpandMonotone | CGRtools/containers/common.py:441 | more expansion rounds never give fewer atoms |
| Substructures.FixpointStays | CGRtools/containers/common.py:441-443 | once a layer repeats, every further round gives the same layer |
| Substructures.ExpandGrows | CGRtools/containers/common.py:441 | growing a larger selection by one layer never gives a smaller layer |
| Substructures.RepeatIsFixpoint | CGRtools/containers/common.py:441-443 | a new layer that equals some listed layer equals the last one, so `n in nodes` detects exactly a layer that adds nothing |
| Substructures.GrowEmpty | CGRtools/containers/common.py:435-445 | the expansion is empty exactly when the start set is |
| Substructures.AugmentedSubstructure | CGRtools/containers/common.py:368-377 | unknown atoms, then an empty list, are refused; otherwise the result is the subgraph induced by the last layer, named after the graph only when `meta` is set |
| Primes.NextPrime | CGRtools/algorithms/morgan.py:94-111 | the next prime the sieve yields is a prime above the last one with no prime in between |
| Primes.Prime | CGRtools/algorithms/morgan.py:114 | the `k`-th table entry is prime |
| Primes.PrimeIncreasing | CGRtools/algorithms/morgan.py:94-114 | the table is strictly increasing |
| Primes.PrimesListed | CGRtools/algorithms/morgan.py:94-114 | no prime below a table entry is skipped |
| Ranking.Primed | CGRtools/algorithms/morgan.py:46-55 | the ranking fails exactly when there are more distinct keys than primes; otherwise it keeps the key set and gives equal keys equal primes |
| Ranking.SortedPrimed | CGRtools/algorithms/morgan.py:46-55 | the sort-and-assign loop computes exactly the closed-form ranking |
| Ranking.PrimedOrder | CGRtools/algorithms/morgan.py:50-54 | a smaller key gets a smaller prime, and only a smaller key does |
| Ranking.PrimedClasses | CGRtools/algorithms/morgan.py:50-54 | two atoms share a prime exactly when they share a key |
| Morgan.SigLtTotal | CGRtools/algorithms/morgan.py:41-42 | Python's tuple `<` on signatures is a strict total order |
| Morgan.Sort | CGRtools/algorithms/morgan.py:41 | `sorted` returns an ordered permutation of its input |
| Morgan.Params | CGRtools/algorithms/morgan.py:41-42 | every atom, and only an atom, gets a signature |
| Morgan.ProductPermutation | CGRtools/algorithms/morgan.py:67 | the neighbours' product does not depend on their order |
| Morgan.RefineEquitable | CGRtools/algorithms/morgan.py:67 | atoms of equal weight whose neighbours have the same weights get equal new weights |
| Morgan.Rerank | CGRtools/algorithms/morgan.py:67-68 | re-ranking the refined weights gives prime weights on every atom, and fails only when there are more than 1000 atoms |
| Morgan.Round | CGRtools/algorithms/morgan.py:63-88 | a round keeps the atom set and prime weights, fails only above 1000 atoms, and a continuing round lowers the budget or keeps it while the class count drops |
| Morgan.Budget | CGRtools/algorithms/morgan.py:85-88 | the budget drops by one, except after a last round that lost classes, which leaves one more round; so the budget stays the same only when the class count fell |
| Morgan.MorganFrom | CGRtools/algorithms/morgan.py:57-91 | the loop terminates, keeps the atom set and prime weights, and succeeds whenever the table is large enough |
| Morgan.MorganStopsWhenUnique | CGRtools/algorithms/morgan.py:70-72 | a round that makes every weight unique ends the loop with those weights |
| Morgan.AtomsOrder | CGRtools/algorithms/morgan.py:29-43 | an empty graph gets no weights and a single atom gets 2; otherwise every atom gets a prime weight, and the ranking succeeds up to 1000 atoms |
| Queries.Scan | CGRtools/algorithms/isomorphism.py:156-161 | a neighbour other than the parent becomes a stack entry when unseen and a closure when seen, and every such neighbour is one or the other |
| Queries.Explore | CGRtools/algorithms/isomorphism.py:144-162 | the inner loop yields a valid component from its root, of atoms not seen before, closed under bonds, leaving earlier closures alone |
| Queries.Compile | CGRtools/algorithms/isomorphism.py:135-163 | the components partition the query's atoms; each root has the highest rank among atoms not yet placed; every later entry follows a bond from an earlier parent; closures go to earlier atoms; every bond is a tree link or a closure, never both |
| Matching.Roots | CGRtools/algorithms/isomorphism.py:100-103 | the initial stack holds exactly the allowed target atoms whose label equals the root's |
| Matching.CandidatesExact | CGRtools/algorithms/isomorphism.py:126-133 | a neighbour of the fork is pushed exactly when it may extend the path: allowed, unused, with equal labels and bonds, closures included |
| Matching.Cut | CGRtools/algorithms/isomorphism.py:111-114 | truncation leaves exactly the path prefix and a mapping that agrees with it |
| Matching.Advance | CGRtools/algorithms/isomorphism.py:111-124 | truncating and appending a fitting atom keeps the path valid and the fork at the parent's image |
| Matching.EmbedsPath | CGRtools/algorithms/isomorphism.py:109-133 | a match read along the order is a full valid path |
| Matching.PathEmbeds | CGRtools/algorithms/isomorphism.py:109 | a full valid path read as a mapping is a match |
| Matching.Step | CGRtools/algorithms/isomorphism.py:105-133 | one pass of the loop keeps the search invariant and lowers a well-founded measure of the stack |
| Matching.Mappings | CGRtools/algorithms/isomorphism.py:87-133 | every mapping yielded is a match of the component inside the allowed atoms, and every such match is yielded |
| Itertools.ArrangementsMembers | CGRtools/algorithms/isomorphism.py:74 | `permutations(pool, r)` yields exactly the sequences of `r` distinct pool elements |
| Itertools.ArrangementsTooLong | CGRtools/algorithms/isomorphism.py:74 | asking for more elements than the pool holds yields nothing |
| Itertools.ProductMembers | CGRtools/algorithms/isomorphism.py:75 | `product(*lists)` yields exactly the tuples taking one element from each list |
| Itertools.MergeKeys | CGRtools/algorithms/isomorphism.py:77-79 | the merged mapping's keys are the union of the parts' keys |
| Itertools.MergeAt | CGRtools/algorithms/isomorphism.py:77-79 | a key that only one part, or no later part, holds keeps that part's value |
| Itertools.Combined | CGRtools/algorithms/isomorphism.py:75-79 | one merged mapping per product tuple; a mapping is among them exactly when it merges one mapping chosen from each list |
| Itertools.DedupSound | CGRtools/algorithms/isomorphism.py:80-84 | the filter keeps only mappings it was given, whose target sets were unseen, with no two target sets alike |
| Itertools.DedupCovers | CGRtools/algorithms/isomorphism.py:80-84 | every mapping dropped by the filter shares its target set with a kept one or a set seen before |
| Isomorphisms.MergedMatches | CGRtools/algorithms/isomorphism.py:77-79 | merging one match per query component, each inside its own target component, gives a match of the whole query |
| Isomorphisms.Split | CGRtools/algorithms/isomorphism.py:77-79 | every match of the query is the merge of its per-component restrictions, each a component match |
| Isomorphisms.AssignmentExists | CGRtools/algorithms/isomorphism.py:74 | every match comes from a candidate tuple: the target components holding the roots' images are distinct |
| Isomorphisms.TooFewComponents | CGRtools/algorithms/isomorphism.py:74 | a query with more components than the target has no match |
| Isomorphisms.CombinedSound | CGRtools/algorithms/isomorphism.py:75-79 | every merged product tuple for a candidate is a match |
| Isomorphisms.CombinedComplete | CGRtools/algorithms/isomorphism.py:75-79 | every match assigned to a candidate is among its merged product tuples |
| Isomorphisms.MatchCandidate | CGRtools/algorithms/isomorphism.py:75-79 | the matches found for one candidate tuple are all matches, and include every match whose roots it assigns |
| Isomorphisms.MatchAll | CGRtools/algorithms/isomorphism.py:72-84 | the loops over candidates yield only matches and every match |
| Isomorphisms.NoComponents | CGRtools/algorithms/isomorphism.py:141-150 | the compiled query has no components exactly when it has no atoms |
| Isomorphisms.GetMapping | CGRtools/algorithms/isomorphism.py:67-85 | an empty query or an exhausted prime table is an error; otherwise every mapping yielded is a match; unfiltered, every match is yielded; filtered, every match's target set is yielded exactly once |
| Isomorphisms.IsSubstructure | CGRtools/algorithms/isomorphism.py:44-53 | an error exactly when the query cannot be run; otherwise true exactly when a match exists |
| Isomorphisms.EqualSizeOnto | CGRtools/algorithms/isomorphism.py:59-65 | a match between graphs of equal size uses every target atom |
| Isomorphisms.IsEqual | CGRtools/algorithms/isomorphism.py:55-65 | false for different sizes; otherwise as `is_substructure`, and a true answer comes with a match onto every target atom |
| Isomorphisms.Lt | CGRtools/algorithms/isomorphism.py:29-32 | false when the left graph is not smaller; otherwise true exactly when it embeds in the right one |
| Isomorphisms.Le | CGRtools/algorithms/isomorphism.py:34-35 | true exactly when the left graph embeds in the right one |
| Isomorphisms.Gt | CGRtools/algorithms/isomorphism.py:37-40 | false when the left graph is not larger; otherwise true exactly when the right one embeds in it |
| Isomorphisms.Ge | CGRtools/algorithms/isomorphism.py:42-43 | true exactly when the right graph embeds in the left one |

## Left out

- Radicals, 2-D coordinates (`_plane`, the `xy` check), `_parsed_mapping` and `meta`: side tables with no effect on atoms or bonds. Floating point is not modelled.
- Type checks (`isinstance` raising `TypeError`): the model is typed, so they cannot fail.
- Atom-object hooks (`_attach_to_graph`, `_change_map`, `atom.copy`, `bond.copy`) and the `copy=True` branch of `remap`. Labels are values, so a copy and the original are the same value.
- Caching (`cached_property`, `__dict__.clear()`), pickling and `logging.warning`: no effect on results.
- `union`, `split`, `augmented_substructures` and `__and__`: not part of this model.
- `connected_components` is not part of this model. Its result is a parameter of `get_mapping` with the guarantees stated by `Isomorphisms.TargetComponents`.
- Isomorphisms.GetMapping: the generators are computed in full, as sequences in yield order; laziness is not modelled. The mapping yielded is the value at yield time. The source reuses the dictionary `match[0]` and mutates it with `update`, and that object identity is not modelled.
- Morgan.AtomsOrder: `StopIteration` from an exhausted prime table reaches the caller as `RuntimeError` inside the `get_mapping` generator. The model returns `Err(PrimesExhausted)` in both cases.
- Bond rows are visited in the graph's atom order rather than in each row's dictionary insertion order. For a renaming that is one-to-one on the atoms, the results stated here do not depend on that order.
- Remaps.RemapAsWritten: when a mapping merges atoms, two bonds of a row can land on one new number and the label that survives is the one visited last. The model visits the row in atom order, the source in the row's insertion order, so the surviving label may differ from the source's.
- Queries.Compile: two tie-breaks of the source are left open. The root of each component is the first atom of highest rank in the iteration order of `atoms.keys() - seen` (`max`, CGRtools/algorithms/isomorphism.py:145). Neighbours of equal rank keep the row's insertion order under the stable `sorted` (CGRtools/algorithms/isomorphism.py:147, 156). The model picks any maximal root and any rank order of neighbours. Ranks from `atoms_order` are distinct when the Morgan refinement separates all atoms, and then neither choice arises. When it does arise, the order in which `get_mapping` yields its matches depends on it. So does the choice of which match of each target-atom set the automorphism filter keeps. The set of matches, and the set of target-atom sets covered, do not depend on it.
- Substructures.Layers: layers are stated as sets, in the order produced. The set comprehension's iteration order is not modelled.

## Findings

| source | as written | input that shows it | evidently intended | confidence | as-written member | corrected member |
|---|---|---|---|---|---|---|
| CGRtools/containers/common.py:220-221 | `remap` only checks that the mapping's values are distinct, then renames every atom `n` to `mapping.get(n, n)` | atoms 1 and 2 bonded, mapping `{1: 2}`: both atoms become 2 and the bond becomes a loop on atom 2 | refuse, as `'mapping overlap'`, a mapping whose renaming of all atoms is not one-to-one, so that an accepted renumbering gives a well-formed copy of the graph (Remaps.RemapRenumbers, Remaps.RemapRefusesMerge) | not executed | Remaps.RemapAsWrittenMergesAtoms | Remaps.Remap |
