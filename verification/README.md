# Non-covalent interaction detection between two molecules

A Dafny model of `oddt/interactions.py`. That module finds contacts between two
molecules (H-bonds, halogen bonds, pi-stacking, salt bridges, hydrophobic
contacts, pi-cation, acceptor-metal and pi-metal). Each detector is built from
the same parts:

- **Flag selection.** Atoms are picked by a boolean flag (`isacceptor`,
  `isdonor`, ...): `Molecules.Select`.
- **Proximity join.** `close_contacts` keeps every pair whose distance lies in
  `(cutoff_low, cutoff]`, in row-major order of the distance matrix:
  `Contacts.ContactIndices` at the index level and `Contacts.CloseContacts` at
  the record level.
- **Angular strictness.** `_check_angles` looks up the ideal angle of a
  hybridization code in `BASE_ANGLES`. A pair is strict when some neighbour
  angle lies strictly inside `(ideal - tol, ideal + tol)`, with NaN read as 0:
  `Angles.CheckAngles`.
- **Detectors and symmetrizing wrappers.** These live in module `Detectors`.
  Module `Properties` holds the laws that relate several calls. Module
  `Scenarios` holds concrete geometries.

The geometric primitives (`distance`, `angle`, `angle_2v` from `oddt.spatial`)
are not part of this model. A `Geometry.Space` value carries them as function
values, and every detector takes one as a parameter. An angle that is NaN is
`None`. A neighbour slot padded with NaN coordinates is also `None`, and its
angle is `None`. Atom and ring records have fixed fields (`Molecules.Atom`,
`Molecules.Ring`).

`np.take(BASE_ANGLES, h)` accepts codes from -5 to 4, counting negative codes
from the end of the table. Any other code raises `IndexError`. The model turns
that error into `Err(UnknownHybridization(h))`. Only atoms that survive the
join are looked up, so only they can cause the error.

Three behaviours of the code deserve a note:

- **NaN angles.** `_check_angles` replaces NaN by 0 before the band test
  (`interactions.py:69`). For code 0 (ideal angle 0) a padded slot therefore
  makes a side strict whenever the tolerance is positive.
  `Angles.NanSlotMatchesZeroIdeal` and `Scenarios.PaddedSlotsStrictAtCodeZero`
  state this. `pi_cation` and `pi_metal` do no substitution, so there an
  undefined angle is never strict.
- **Empty inputs.** The guard at line 59 tests `x` twice and never `y`. An
  empty `y` still gives no pair, because the matrix walk finds no cell.
  `Contacts.ContactIndices` states both cases.
- **What the join returns.** `close_contacts` computes index pairs and returns
  the selected records. The model has both layers.

## Model

| member | source | states |
|---|---|---|
| `Molecules.Select` | oddt/interactions.py:102-103 | the flag mask keeps exactly the records whose flag is set: each kept record is in the input and flagged, each flagged input record is kept, and nothing is kept when no record is flagged |
| `Molecules.SelectCounts` | oddt/interactions.py:102-103 | the mask keeps multiplicity: a flagged record occurs in the selection exactly as often as in the input, an unflagged one not at all |
| `Contacts.Scan` | oddt/interactions.py:60-62 | walking the distance matrix from a cell emits only in-bounds pairs in the window at or after that cell, strictly increasing in row-major order, and every such pair |
| `Contacts.ContactIndices` | oddt/interactions.py:59-64 | every emitted index pair has `cutoff_low < d <= cutoff`; every pair in that window is emitted; the emission is strictly increasing row-major, so no pair appears twice; an empty `x` or an empty `y` gives no pair |
| `Contacts.CloseContacts` | oddt/interactions.py:33-64 | two aligned record sequences: position k holds the records of the k-th emitted index pair, each pair is in the window, every in-window pair of records is reported, and an empty input gives two empty sequences |
| `Contacts.CutoffBoundaries` | oddt/interactions.py:35-36 | a pair exactly at `cutoff` is reported and a pair exactly at `cutoff_low` is not |
| `Contacts.JoinCommutes` | oddt/interactions.py:60-61 | with a symmetric distance, `(i, j)` is emitted for `(x, y)` iff `(j, i)` is emitted for `(y, x)` |
| `Contacts.CloseContactsCommute` | oddt/interactions.py:60-62 | the same law on records: with a symmetric distance, the join of (x, y) reports `(a, b)` iff the join of (y, x) reports `(b, a)` |
| `Contacts.ScanWithoutHits` | oddt/interactions.py:61 | a matrix walk over inputs none of whose pairs lies in the window emits nothing |
| `Contacts.CloseContactsOutOfReach` | oddt/interactions.py:61-62 | when no pair of input positions lies in the window, the join returns two empty sequences |
| `Angles.IdealAngle` | oddt/interactions.py:30 | the table lookup succeeds exactly for codes -5..4, with negative codes counted from the end, and yields an angle between 0 and 180 degrees |
| `Angles.AnyInBand` | oddt/interactions.py:69-73 | the per-pair `.any` is true iff some slot angle, NaN read as 0, lies strictly inside the band |
| `Angles.StrictAt` | oddt/interactions.py:67-73 | one side of one pair fails iff its code is unknown; otherwise it is strict iff some slot lies in the band around the ideal angle; with `tol <= 0` it is never strict |
| `Angles.CheckAngles` | oddt/interactions.py:67-73 | one flag per pair, each flag true iff some slot of that pair lies in the band around the pair's ideal angle; the call fails iff some pair's code is unknown, and the failure names an unknown code |
| `Angles.ToleranceMonotone` | oddt/interactions.py:71-73 | raising the tolerance never turns a strict slot set non-strict |
| `Angles.CheckAnglesMonotone` | oddt/interactions.py:67-73 | a pair flagged strict at `tol` is still flagged strict at any larger tolerance |
| `Angles.NanSlotMatchesZeroIdeal` | oddt/interactions.py:69-73 | a NaN slot counts as 0 degrees, so for code 0 it alone makes the side strict for any positive tolerance |
| `Angles.NanSlotMissesNonZeroIdeal` | oddt/interactions.py:69-73 | a lone NaN slot is not strict for a code whose ideal angle is positive, while the tolerance does not exceed that angle |
| `Angles.BandsDisjoint` | oddt/interactions.py:267-270 | for `tol <= 45` no angle is both near 0/180 and near 90 degrees |
| `Detectors.AcceptorContacts` | oddt/interactions.py:102-104 | acceptors of mol1 are paired with selected partners of mol2: every pair is in mol1/mol2 with the right flags and within `(0, cutoff]`, every such pair is reported, there are exactly as many pairs as in-window index pairs of the two selections (so none is reported twice), and no acceptor or no partner means an empty result |
| `Detectors.FirstSideStrict` | oddt/interactions.py:417-420 | the acceptor-side check alone: fails iff some first atom has an unknown code, naming an unknown code; otherwise one flag per pair, true iff the first atom's directional check seen from the second atom holds |
| `Detectors.BothSidesStrict` | oddt/interactions.py:107-114 | the AND of both sides' checks: fails iff some atom of either column has an unknown code; otherwise one flag per pair, true iff both directional checks hold |
| `Detectors.AcceptorPartnerBonds` | oddt/interactions.py:102-117 | the pairs are exactly the join's; the call fails iff a joined atom has an unknown code; the flags align with the pairs; `strict[k]` holds iff both the acceptor-side and the partner-side directional checks hold |
| `Detectors.HBondAcceptorDonor` | oddt/interactions.py:102-117 | the atom columns are exactly the acceptor-donor join's; every `a` is an acceptor of mol1 and every `d` a donor of mol2 within the cutoff, every such pair is reported, `strict[k]` is the AND of the two directional checks, and empty input gives an empty `strict` |
| `Detectors.HalogenBondAcceptorHalogen` | oddt/interactions.py:179-194 | the same contract with halogens of mol2 in place of donors, the columns being exactly the acceptor-halogen join's |
| `Detectors.AcceptorMetal` | oddt/interactions.py:412-423 | acceptors of mol1 against metals of mol2; `strict[k]` is the acceptor-side check alone; only acceptor codes can make the call fail |
| `Detectors.SymmetrizeKeepsSoundness` | oddt/interactions.py:145-147 | after symmetrizing, every pair has its mol1 atom first and its mol2 atom second, keeps its flag tied to its own two directional checks, and is acceptor-partner before the first call's length and partner-acceptor after it |
| `Detectors.SymmetrizeKeepsCompleteness` | oddt/interactions.py:145-147 | a pair reported by the call on (mol1, mol2) stays reported as is, and one reported by the call on (mol2, mol1) is reported with its atoms exchanged |
| `Detectors.SymmetrizeKeepsBonds` | oddt/interactions.py:145-147 | two one-way results that are sound and complete combine into a two-way result that is sound and complete in both directions |
| `Detectors.HBonds` | oddt/interactions.py:145-147 | fails iff either one-sided call fails; otherwise the columns are `a1 + d2` and `d1 + a2` and `strict == s1 + s2`; each `strict[k]` holds iff both directional checks of pair k hold; pairs before the length of `a1` are acceptor-donor and later ones donor-acceptor, mol1 atom first; every acceptor-donor pair within the cutoff, in either direction, is reported |
| `Detectors.HalogenBonds` | oddt/interactions.py:222-224 | the same for halogen bonds: columns `a1 + h2` and `h1 + a2`, flags tied to their pairs, acceptor-halogen pairs first and halogen-acceptor pairs after, and every such pair within the cutoff reported in either direction |
| `Detectors.SaltBridgePlusMinus` | oddt/interactions.py:293-296 | cations of mol1 against anions of mol2 within the cutoff, every such pair reported, and exactly as many pairs as in-window index pairs of the two selections |
| `Detectors.SymmetrizePairsSides` | oddt/interactions.py:315-317 | after the concatenation every pair has its mol1 atom first and is plus-minus or minus-plus |
| `Detectors.SaltBridges` | oddt/interactions.py:315-317 | the first sequence holds only mol1 atoms and the second only mol2 atoms, each pair is plus-minus or minus-plus, and the length is the sum of both calls |
| `Detectors.HydrophobicContacts` | oddt/interactions.py:337-340 | hydrophobes of mol1 against hydrophobes of mol2 within the cutoff, every such pair reported, and exactly as many pairs as in-window index pairs of the two selections |
| `Detectors.PiStacking` | oddt/interactions.py:257-273 | the ring pairs are the centroid join's; `strict_parallel` iff both angles are near 0/180; `strict_perpendicular` iff the normal angle is near 90 and the offset angle near 0/180; never both for `tol <= 45`; empty input gives empty flags |
| `Detectors.RingAtomJoin` | oddt/interactions.py:372-375 | the centroid join of rings with selected atoms pairs only rings of mol1 with selected atoms of mol2 within the cutoff, reports every such pair, and is empty when there are no rings or no selected atoms |
| `Detectors.RingAtomContacts` | oddt/interactions.py:372-381 | the pairs are exactly the centroid join's, so every ring/selected-atom pair within the cutoff is reported; `strict[k]` iff the normal-to-atom angle is defined and near 0/180; no rings or no selected atoms gives an empty result |
| `Detectors.PiCation` | oddt/interactions.py:372-381 | the pairs are exactly the join of the rings of mol1 with the cations of mol2, so every ring/cation pair within the cutoff is reported; strict iff the normal-to-cation angle is defined and near 0/180; empty input gives an empty `strict` |
| `Detectors.PiMetal` | oddt/interactions.py:455-464 | the pairs are exactly the join of the rings of mol1 with the metals of mol2, so every ring/metal pair within the cutoff is reported; strict iff the normal-to-metal angle is defined and near 0/180; empty input gives an empty `strict` |
| `Properties.SymmetrizeSwaps` | oddt/interactions.py:145-147 | combining the calls in the other order gives the same (atom, atom, flag) triples, read from the other side, with the two halves exchanged; so the multisets are equal |
| `Properties.HBondsSymmetric` | oddt/interactions.py:145-147 | `hbonds(mol1, mol2)` and `hbonds(mol2, mol1)` fail together; otherwise they have the same pair count and the same triples, read from the other side |
| `Properties.HalogenBondsSymmetric` | oddt/interactions.py:222-224 | the same symmetry law for `halogenbonds` |
| `Properties.SymmetrizePairsSwaps` | oddt/interactions.py:315-317 | the distance-only combination in the other order gives the same pairs, read from the other side, with the halves exchanged |
| `Properties.SaltBridgesSymmetric` | oddt/interactions.py:315-317 | `salt_bridges(mol1, mol2)` and `salt_bridges(mol2, mol1)` have the same count and the same pairs, read from the other side |
| `Properties.HydrophobicContactsCommute` | oddt/interactions.py:337-340 | with a symmetric distance, `(a, b)` is a hydrophobic contact of (mol1, mol2) iff `(b, a)` is one of (mol2, mol1) |
| `Scenarios.HBondStrictScenario` | oddt/interactions.py:102-117 | an sp acceptor and an sp donor 3.0 apart, with all angles at 179 degrees, give a reported and strict H-bond at the default cutoff and tolerance 30 |
| `Scenarios.HBondZeroToleranceScenario` | oddt/interactions.py:113-114 | the same geometry at tolerance 0 is reported but not strict |
| `Scenarios.PaddedSlotsStrictAtCodeZero` | oddt/interactions.py:69-73 | two code-0 atoms with only padded neighbour slots form a strict H-bond for any positive tolerance |
| `Scenarios.PiStackingParallelScenario` | oddt/interactions.py:262-271 | rings 4.0 apart with parallel normals are reported, parallel and not perpendicular |
| `Scenarios.PiStackingNeitherScenario` | oddt/interactions.py:267-271 | normals 45 degrees apart at tolerance 30 are reported but neither parallel nor perpendicular, the third outcome |
| `Scenarios.SaltBridgeBeyondCutoffScenario` | oddt/interactions.py:315-317 | in any space where a cation and an anion are 5.0 apart, there is no salt bridge at cutoff 4 |
| `Scenarios.PiCationUndefinedAngleScenario` | oddt/interactions.py:377-378 | when the normal-to-atom angle is NaN, no pi-cation pair is strict |

## Left out

- The numeric geometry of `oddt.spatial` (`distance`, `angle`, `angle_2v`) is not part of this model. It is floating-point vector maths, so the detectors take it as the function values of a `Space`.
- Building atom and ring dictionaries (flags, hybridization, neighbours, centroids, normals) belongs to the toolkit molecule classes and is not modelled. Records arrive with fixed fields.
- NumPy mechanics (`np.newaxis`, `argwhere`, structured arrays, boolean masks) become explicit sequences, filters and comprehensions.
- Floating point is not modelled: coordinates, distances and angles are `real`. NaN appears only as `None` for angles, so a NaN coordinate inside a distance is not modelled.
- The `x_column` / `y_column` arguments of `close_contacts` become position functions (`AtomCoords`, `RingCentroid`).
- Default arguments become named constants (`HBondCutoff`, `DefaultTolerance`, ...) that callers pass explicitly. The pass-through `*args, **kwargs` of `salt_bridges` becomes an explicit cutoff.
- Which out-of-range code `IndexError` reports first is not modelled. `CheckAngles` only promises that the error names an unknown code.
- Molecules.Select: states membership in both directions, and `Molecules.SelectCounts` states multiplicity, but neither states that the mask keeps the input order. Row-major order is stated for the indices (`Contacts.ContactIndices`).
- Detectors.AcceptorPartnerBonds: the error path says only that a failure names some unknown code, not whether it came from the acceptor side or the partner side.
