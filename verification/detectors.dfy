/** The interaction detectors: each selects atom or ring subsets by flag, joins
    them by distance, and classifies every surviving pair by its angles. */
module Detectors {
  import opened Wrappers
  import opened Geometry
  import opened Molecules
  import opened Contacts
  import opened Angles

  /** Default cutoffs (distance units of the coordinates) and tolerance (degrees). */
  const HBondCutoff: real := 3.5
  const HalogenBondCutoff: real := 4.0
  const PiStackingCutoff: real := 5.0
  const SaltBridgeCutoff: real := 4.0
  const HydrophobicCutoff: real := 4.0
  const PiCationCutoff: real := 5.0
  const AcceptorMetalCutoff: real := 4.0
  const PiMetalCutoff: real := 5.0
  const DefaultTolerance: real := 30.0

  /** Aligned atom pairs with one strictness flag per pair. */
  datatype StrictPairs = StrictPairs(first: seq<Atom>, second: seq<Atom>, strict: seq<bool>)

  /** Aligned ring pairs with the parallel and perpendicular flags. */
  datatype StackingPairs = StackingPairs(first: seq<Ring>, second: seq<Ring>,
                                         parallel: seq<bool>, perpendicular: seq<bool>)

  /** Aligned ring-atom pairs with one strictness flag per pair. */
  datatype RingAtomPairs = RingAtomPairs(rings: seq<Ring>, atoms: seq<Atom>, strict: seq<bool>)

  predicate Aligned(p: StrictPairs) {
    |p.first| == |p.second| == |p.strict|
  }

  // ---------------------------------------------------------------------------
  // Directional checks on atoms

  /** Angles at `center` between the ray to `outer` and the ray to each of its
      neighbour slots; a padded slot gives NaN. */
  function NeighborAngles(g: Space, outer: Point, center: Atom): (r: seq<Angle>)
    ensures |r| == |center.neighbors|
    ensures forall s :: 0 <= s < |r| ==>
              r[s] == (if center.neighbors[s].Some?
                       then g.angle(outer, center.coords, center.neighbors[s].value) else None)
  {
    seq(|center.neighbors|, s requires 0 <= s < |center.neighbors| =>
      match center.neighbors[s]
      case None => None
      case Some(n) => g.angle(outer, center.coords, n))
  }

  /** Reference meaning of one directional check: the centre atom's code is in
      the table and some neighbour direction lies within `tol` of its ideal
      angle, seen from `outer`. */
  predicate SideStrict(g: Space, center: Atom, outer: Point, tol: real) {
    && KnownHybridization(center.hybridization)
    && SomeSlotInBand(NeighborAngles(g, outer, center), IdealAngle(center.hybridization).value, tol)
  }

  /** Per pair, the angles measured at the first atom toward the second atom. */
  function FirstSideAngles(g: Space, c: Pairs<Atom, Atom>): (r: seq<seq<Angle>>)
    requires |c.first| == |c.second|
  {
    seq(|c.first|, k requires 0 <= k < |c.first| => NeighborAngles(g, c.second[k].coords, c.first[k]))
  }

  /** Per pair, the angles measured at the second atom toward the first atom. */
  function SecondSideAngles(g: Space, c: Pairs<Atom, Atom>): (r: seq<seq<Angle>>)
    requires |c.first| == |c.second|
  {
    seq(|c.first|, k requires 0 <= k < |c.first| => NeighborAngles(g, c.first[k].coords, c.second[k]))
  }

  function Hybridizations(atoms: seq<Atom>): (r: seq<int>)
  {
    seq(|atoms|, k requires 0 <= k < |atoms| => atoms[k].hybridization)
  }

  /** Acceptors of `mol1` joined with the atoms of `mol2` that `partner` selects. */
  function AcceptorContacts(g: Space, mol1: Molecule, mol2: Molecule, partner: Atom -> bool,
                            cutoff: real): (c: Pairs<Atom, Atom>)
    ensures |c.first| == |c.second|
    ensures forall k :: 0 <= k < |c.first| ==>
              c.first[k] in mol1.atoms && c.first[k].isAcceptor
              && c.second[k] in mol2.atoms && partner(c.second[k])
              && InWindow(g.distance(c.first[k].coords, c.second[k].coords), 0.0, cutoff)
    ensures forall i, j :: 0 <= i < |mol1.atoms| && 0 <= j < |mol2.atoms|
              && mol1.atoms[i].isAcceptor && partner(mol2.atoms[j])
              && InWindow(g.distance(mol1.atoms[i].coords, mol2.atoms[j].coords), 0.0, cutoff)
              ==> Reports(c.first, c.second, mol1.atoms[i], mol2.atoms[j])
    ensures (forall i :: 0 <= i < |mol1.atoms| ==> !mol1.atoms[i].isAcceptor)
            || (forall i :: 0 <= i < |mol2.atoms| ==> !partner(mol2.atoms[i]))
            ==> c == Pairs([], [])
    ensures |c.first| == |ContactIndices(Positions(Select(mol1.atoms, IsAcceptor), AtomCoords),
                                         Positions(Select(mol2.atoms, partner), AtomCoords),
                                         g.distance, 0.0, cutoff)|
  {
    CloseContacts(Select(mol1.atoms, IsAcceptor), Select(mol2.atoms, partner),
                  AtomCoords, AtomCoords, g.distance, cutoff, 0.0)
  }

  /** Per pair, the directional check at the first atom alone; fails on the
      first unknown hybridization code. */
  function FirstSideStrict(g: Space, c: Pairs<Atom, Atom>, tol: real): (r: Result<seq<bool>, Failure>)
    requires |c.first| == |c.second|
    ensures r.Ok? <==> forall k :: 0 <= k < |c.first| ==> KnownHybridization(c.first[k].hybridization)
    ensures r.Err? ==> !KnownHybridization(r.error.code)
    ensures r.Ok? ==> |r.value| == |c.first|
    ensures r.Ok? ==> forall k :: 0 <= k < |r.value| ==>
              (r.value[k] <==> SideStrict(g, c.first[k], c.second[k].coords, tol))
  {
    assert forall k :: 0 <= k < |c.first| ==>
             Hybridizations(c.first)[k] == c.first[k].hybridization
             && FirstSideAngles(g, c)[k] == NeighborAngles(g, c.second[k].coords, c.first[k]);
    CheckAngles(FirstSideAngles(g, c), Hybridizations(c.first), tol)
  }

  /** Per pair, the directional check at the first atom AND the one at the
      second atom; fails on the first unknown hybridization code. */
  function BothSidesStrict(g: Space, c: Pairs<Atom, Atom>, tol: real): (r: Result<seq<bool>, Failure>)
    requires |c.first| == |c.second|
    ensures r.Ok? <==> forall k :: 0 <= k < |c.first| ==>
              KnownHybridization(c.first[k].hybridization) && KnownHybridization(c.second[k].hybridization)
    ensures r.Err? ==> !KnownHybridization(r.error.code)
    ensures r.Ok? ==> |r.value| == |c.first|
    ensures r.Ok? ==> forall k :: 0 <= k < |r.value| ==>
              (r.value[k] <==>
                 SideStrict(g, c.first[k], c.second[k].coords, tol)
                 && SideStrict(g, c.second[k], c.first[k].coords, tol))
  {
    assert forall k :: 0 <= k < |c.first| ==>
             Hybridizations(c.first)[k] == c.first[k].hybridization
             && Hybridizations(c.second)[k] == c.second[k].hybridization
             && FirstSideAngles(g, c)[k] == NeighborAngles(g, c.second[k].coords, c.first[k])
             && SecondSideAngles(g, c)[k] == NeighborAngles(g, c.first[k].coords, c.second[k]);
    var s1 :- CheckAngles(FirstSideAngles(g, c), Hybridizations(c.first), tol);
    var s2 :- CheckAngles(SecondSideAngles(g, c), Hybridizations(c.second), tol);
    Ok(seq(|s1|, k requires 0 <= k < |s1| => s1[k] && s2[k]))
  }

  /** The shared shape of `hbond_acceptor_donor` and
      `halogenbond_acceptor_halogen`: join, then AND the acceptor-side and the
      partner-side directional checks. */
  function AcceptorPartnerBonds(g: Space, mol1: Molecule, mol2: Molecule, partner: Atom -> bool,
                                cutoff: real, tol: real): (r: Result<StrictPairs, Failure>)
    ensures var c := AcceptorContacts(g, mol1, mol2, partner, cutoff);
            && (r.Ok? <==> forall k :: 0 <= k < |c.first| ==>
                  KnownHybridization(c.first[k].hybridization) && KnownHybridization(c.second[k].hybridization))
            && (r.Ok? ==> r.value.first == c.first && r.value.second == c.second)
    ensures r.Err? ==> !KnownHybridization(r.error.code)
    ensures r.Ok? ==> Aligned(r.value)
    ensures r.Ok? ==> forall k :: 0 <= k < |r.value.strict| ==>
              (r.value.strict[k] <==>
                 SideStrict(g, r.value.first[k], r.value.second[k].coords, tol)
                 && SideStrict(g, r.value.second[k], r.value.first[k].coords, tol))
  {
    var c := AcceptorContacts(g, mol1, mol2, partner, cutoff);
    if |c.first| > 0 && |c.second| > 0 then
      var strict :- BothSidesStrict(g, c, tol);
      Ok(StrictPairs(c.first, c.second, strict))
    else
      Ok(StrictPairs(c.first, c.second, []))
  }

  /** `hbond_acceptor_donor`: acceptors of `mol1` against donors of `mol2`. */
  function HBondAcceptorDonor(g: Space, mol1: Molecule, mol2: Molecule, cutoff: real, tol: real)
    : (r: Result<StrictPairs, Failure>)
    ensures r.Ok? <==> forall k :: 0 <= k < |AcceptorContacts(g, mol1, mol2, IsDonor, cutoff).first| ==>
              KnownHybridization(AcceptorContacts(g, mol1, mol2, IsDonor, cutoff).first[k].hybridization)
              && KnownHybridization(AcceptorContacts(g, mol1, mol2, IsDonor, cutoff).second[k].hybridization)
    ensures r.Ok? ==> Aligned(r.value)
    ensures r.Ok? ==> forall k :: 0 <= k < |r.value.first| ==>
              && r.value.first[k] in mol1.atoms && r.value.first[k].isAcceptor
              && r.value.second[k] in mol2.atoms && r.value.second[k].isDonor
              && InWindow(g.distance(r.value.first[k].coords, r.value.second[k].coords), 0.0, cutoff)
              && (r.value.strict[k] <==>
                    SideStrict(g, r.value.first[k], r.value.second[k].coords, tol)
                    && SideStrict(g, r.value.second[k], r.value.first[k].coords, tol))
    ensures r.Ok? ==> forall i, j ::
              (0 <= i < |mol1.atoms| && 0 <= j < |mol2.atoms|
               && mol1.atoms[i].isAcceptor && mol2.atoms[j].isDonor
               && InWindow(g.distance(mol1.atoms[i].coords, mol2.atoms[j].coords), 0.0, cutoff))
              ==> Reports(r.value.first, r.value.second, mol1.atoms[i], mol2.atoms[j])
    ensures (forall i :: 0 <= i < |mol1.atoms| ==> !mol1.atoms[i].isAcceptor)
            || (forall i :: 0 <= i < |mol2.atoms| ==> !mol2.atoms[i].isDonor)
            ==> r == Ok(StrictPairs([], [], []))
    ensures var c := AcceptorContacts(g, mol1, mol2, IsDonor, cutoff);
            r.Ok? ==> r.value.first == c.first && r.value.second == c.second
  {
    AcceptorPartnerBonds(g, mol1, mol2, IsDonor, cutoff, tol)
  }

  /** `halogenbond_acceptor_halogen`: acceptors of `mol1` against halogens of `mol2`. */
  function HalogenBondAcceptorHalogen(g: Space, mol1: Molecule, mol2: Molecule, cutoff: real, tol: real)
    : (r: Result<StrictPairs, Failure>)
    ensures r.Ok? <==> forall k :: 0 <= k < |AcceptorContacts(g, mol1, mol2, IsHalogen, cutoff).first| ==>
              KnownHybridization(AcceptorContacts(g, mol1, mol2, IsHalogen, cutoff).first[k].hybridization)
              && KnownHybridization(AcceptorContacts(g, mol1, mol2, IsHalogen, cutoff).second[k].hybridization)
    ensures r.Ok? ==> Aligned(r.value)
    ensures r.Ok? ==> forall k :: 0 <= k < |r.value.first| ==>
              && r.value.first[k] in mol1.atoms && r.value.first[k].isAcceptor
              && r.value.second[k] in mol2.atoms && r.value.second[k].isHalogen
              && InWindow(g.distance(r.value.first[k].coords, r.value.second[k].coords), 0.0, cutoff)
              && (r.value.strict[k] <==>
                    SideStrict(g, r.value.first[k], r.value.second[k].coords, tol)
                    && SideStrict(g, r.value.second[k], r.value.first[k].coords, tol))
    ensures r.Ok? ==> forall i, j ::
              (0 <= i < |mol1.atoms| && 0 <= j < |mol2.atoms|
               && mol1.atoms[i].isAcceptor && mol2.atoms[j].isHalogen
               && InWindow(g.distance(mol1.atoms[i].coords, mol2.atoms[j].coords), 0.0, cutoff))
              ==> Reports(r.value.first, r.value.second, mol1.atoms[i], mol2.atoms[j])
    ensures (forall i :: 0 <= i < |mol1.atoms| ==> !mol1.atoms[i].isAcceptor)
            || (forall i :: 0 <= i < |mol2.atoms| ==> !mol2.atoms[i].isHalogen)
            ==> r == Ok(StrictPairs([], [], []))
    ensures var c := AcceptorContacts(g, mol1, mol2, IsHalogen, cutoff);
            r.Ok? ==> r.value.first == c.first && r.value.second == c.second
  {
    AcceptorPartnerBonds(g, mol1, mol2, IsHalogen, cutoff, tol)
  }

  /** `acceptor_metal`: acceptors of `mol1` against metals of `mol2`, strict on
      the acceptor-side check alone. Not symmetrized. */
  function AcceptorMetal(g: Space, mol1: Molecule, mol2: Molecule, cutoff: real, tol: real)
    : (r: Result<StrictPairs, Failure>)
    ensures var c := AcceptorContacts(g, mol1, mol2, IsMetal, cutoff);
            && (r.Ok? <==> forall k :: 0 <= k < |c.first| ==> KnownHybridization(c.first[k].hybridization))
            && (r.Ok? ==> r.value.first == c.first && r.value.second == c.second)
    ensures r.Err? ==> !KnownHybridization(r.error.code)
    ensures r.Ok? ==> Aligned(r.value)
    ensures r.Ok? ==> forall k :: 0 <= k < |r.value.first| ==>
              && r.value.first[k] in mol1.atoms && r.value.first[k].isAcceptor
              && r.value.second[k] in mol2.atoms && r.value.second[k].isMetal
              && InWindow(g.distance(r.value.first[k].coords, r.value.second[k].coords), 0.0, cutoff)
              && (r.value.strict[k] <==> SideStrict(g, r.value.first[k], r.value.second[k].coords, tol))
    ensures r.Ok? ==> forall i, j ::
              (0 <= i < |mol1.atoms| && 0 <= j < |mol2.atoms|
               && mol1.atoms[i].isAcceptor && mol2.atoms[j].isMetal
               && InWindow(g.distance(mol1.atoms[i].coords, mol2.atoms[j].coords), 0.0, cutoff))
              ==> Reports(r.value.first, r.value.second, mol1.atoms[i], mol2.atoms[j])
    ensures (forall i :: 0 <= i < |mol1.atoms| ==> !mol1.atoms[i].isAcceptor)
            || (forall i :: 0 <= i < |mol2.atoms| ==> !mol2.atoms[i].isMetal)
            ==> r == Ok(StrictPairs([], [], []))
  {
    var c := AcceptorContacts(g, mol1, mol2, IsMetal, cutoff);
    if |c.first| > 0 && |c.second| > 0 then
      var strict :- FirstSideStrict(g, c, tol);
      Ok(StrictPairs(c.first, c.second, strict))
    else
      Ok(StrictPairs(c.first, c.second, []))
  }

  // ---------------------------------------------------------------------------
  // Symmetrized detectors

  /** Combine the call on (mol1, mol2) with the call on (mol2, mol1) so that the
      first sequence always holds atoms of mol1 and the second atoms of mol2. */
  function Symmetrize(one: StrictPairs, two: StrictPairs): (r: StrictPairs)
    requires Aligned(one) && Aligned(two)
    ensures Aligned(r)
    ensures |r.first| == |one.first| + |two.first|
    ensures r.first[..|one.first|] == one.first && r.first[|one.first|..] == two.second
    ensures r.second[..|one.first|] == one.second && r.second[|one.first|..] == two.first
    ensures r.strict[..|one.first|] == one.strict && r.strict[|one.first|..] == two.strict
  {
    StrictPairs(one.first + two.second, one.second + two.first, one.strict + two.strict)
  }

  /** The same combination for distance-only results. */
  function SymmetrizePairs(one: Pairs<Atom, Atom>, two: Pairs<Atom, Atom>): (r: Pairs<Atom, Atom>)
    requires |one.first| == |one.second| && |two.first| == |two.second|
    ensures |r.first| == |r.second| == |one.first| + |two.first|
    ensures r.first[..|one.first|] == one.first && r.first[|one.first|..] == two.second
    ensures r.second[..|one.first|] == one.second && r.second[|one.first|..] == two.first
  {
    Pairs(one.first + two.second, one.second + two.first)
  }

  /** What each call guarantees of one of its pairs: the acceptor in `accs`,
      the partner in `parts`, within the cutoff, strict when both ends pass. */
  predicate SoundBond(g: Space, accs: seq<Atom>, parts: seq<Atom>, partner: Atom -> bool,
                      acceptor: Atom, other: Atom, strict: bool, cutoff: real, tol: real)
  {
    && acceptor in accs && acceptor.isAcceptor && other in parts && partner(other)
    && InWindow(g.distance(acceptor.coords, other.coords), 0.0, cutoff)
    && (strict <==> SideStrict(g, acceptor, other.coords, tol) && SideStrict(g, other, acceptor.coords, tol))
  }

  /** Everything one directed call (`hbond_acceptor_donor` or
      `halogenbond_acceptor_halogen`) guarantees: its pairs are sound, and every
      acceptor of `accMol` within the cutoff of a partner of `partMol` is
      reported. */
  predicate DirectedBonds(g: Space, accMol: Molecule, partMol: Molecule, partner: Atom -> bool,
                          p: StrictPairs, cutoff: real, tol: real)
  {
    && Aligned(p)
    && (forall k :: 0 <= k < |p.first| ==>
          SoundBond(g, accMol.atoms, partMol.atoms, partner, p.first[k], p.second[k], p.strict[k], cutoff, tol))
    && (forall i, j ::
          (0 <= i < |accMol.atoms| && 0 <= j < |partMol.atoms|
           && accMol.atoms[i].isAcceptor && partner(partMol.atoms[j])
           && InWindow(g.distance(accMol.atoms[i].coords, partMol.atoms[j].coords), 0.0, cutoff))
          ==> Reports(p.first, p.second, accMol.atoms[i], partMol.atoms[j]))
  }

  /** Everything the symmetrized result promises. Each pair has its mol1 atom
      first and is strict exactly when both of its directional checks pass;
      the pairs before position `n1` have the acceptor in mol1, the rest have
      the partner in mol1; and no acceptor-partner pair within the cutoff is
      missed, in either direction. */
  predicate SymmetricBonds(g: Space, mol1: Molecule, mol2: Molecule, partner: Atom -> bool,
                           p: StrictPairs, n1: int, cutoff: real, tol: real)
  {
    && Aligned(p)
    && (forall k :: 0 <= k < |p.first| ==>
          && p.first[k] in mol1.atoms && p.second[k] in mol2.atoms
          && (p.strict[k] <==>
                SideStrict(g, p.first[k], p.second[k].coords, tol)
                && SideStrict(g, p.second[k], p.first[k].coords, tol))
          && (k < n1 ==>
                (p.first[k].isAcceptor && partner(p.second[k])
                 && InWindow(g.distance(p.first[k].coords, p.second[k].coords), 0.0, cutoff)))
          && (n1 <= k ==>
                (partner(p.first[k]) && p.second[k].isAcceptor
                 && InWindow(g.distance(p.second[k].coords, p.first[k].coords), 0.0, cutoff))))
    && (forall i, j ::
          (0 <= i < |mol1.atoms| && 0 <= j < |mol2.atoms|
           && mol1.atoms[i].isAcceptor && partner(mol2.atoms[j])
           && InWindow(g.distance(mol1.atoms[i].coords, mol2.atoms[j].coords), 0.0, cutoff))
          ==> Reports(p.first, p.second, mol1.atoms[i], mol2.atoms[j]))
    && (forall i, j ::
          (0 <= i < |mol1.atoms| && 0 <= j < |mol2.atoms|
           && partner(mol1.atoms[i]) && mol2.atoms[j].isAcceptor
           && InWindow(g.distance(mol2.atoms[j].coords, mol1.atoms[i].coords), 0.0, cutoff))
          ==> Reports(p.first, p.second, mol1.atoms[i], mol2.atoms[j]))
  }

  /** The pairs of a symmetrized result keep what their call promised of them;
      the first |one.first| come from the call on (mol1, mol2), the rest from
      the call on (mol2, mol1) with their two atoms exchanged. */
  lemma SymmetrizeKeepsSoundness(g: Space, mol1: Molecule, mol2: Molecule, partner: Atom -> bool,
                                 one: StrictPairs, two: StrictPairs, cutoff: real, tol: real)
    requires Aligned(one) && Aligned(two)
    requires forall k :: 0 <= k < |one.first| ==>
               SoundBond(g, mol1.atoms, mol2.atoms, partner, one.first[k], one.second[k], one.strict[k], cutoff, tol)
    requires forall k :: 0 <= k < |two.first| ==>
               SoundBond(g, mol2.atoms, mol1.atoms, partner, two.first[k], two.second[k], two.strict[k], cutoff, tol)
    ensures var r := Symmetrize(one, two);
            var n1 := |one.first|;
            forall k :: 0 <= k < |r.first| ==>
              && r.first[k] in mol1.atoms && r.second[k] in mol2.atoms
              && (r.strict[k] <==>
                    SideStrict(g, r.first[k], r.second[k].coords, tol)
                    && SideStrict(g, r.second[k], r.first[k].coords, tol))
              && (k < n1 ==>
                    (r.first[k].isAcceptor && partner(r.second[k])
                     && InWindow(g.distance(r.first[k].coords, r.second[k].coords), 0.0, cutoff)))
              && (n1 <= k ==>
                    (partner(r.first[k]) && r.second[k].isAcceptor
                     && InWindow(g.distance(r.second[k].coords, r.first[k].coords), 0.0, cutoff)))
  {
    var r := Symmetrize(one, two);
    var n1 := |one.first|;
    forall k | 0 <= k < |r.first|
      ensures && r.first[k] in mol1.atoms && r.second[k] in mol2.atoms
              && (r.strict[k] <==>
                    SideStrict(g, r.first[k], r.second[k].coords, tol)
                    && SideStrict(g, r.second[k], r.first[k].coords, tol))
              && (k < n1 ==>
                    (r.first[k].isAcceptor && partner(r.second[k])
                     && InWindow(g.distance(r.first[k].coords, r.second[k].coords), 0.0, cutoff)))
              && (n1 <= k ==>
                    (partner(r.first[k]) && r.second[k].isAcceptor
                     && InWindow(g.distance(r.second[k].coords, r.first[k].coords), 0.0, cutoff)))
    {
      if k < n1 {
        assert SoundBond(g, mol1.atoms, mol2.atoms, partner, one.first[k], one.second[k], one.strict[k], cutoff, tol);
        assert r.first[k] == one.first[k] && r.second[k] == one.second[k] && r.strict[k] == one.strict[k];
      } else {
        var m := k - n1;
        assert SoundBond(g, mol2.atoms, mol1.atoms, partner, two.first[m], two.second[m], two.strict[m], cutoff, tol);
        assert r.first[k] == two.second[m] && r.second[k] == two.first[m] && r.strict[k] == two.strict[m];
      }
    }
  }

  /** No pair is lost by symmetrizing: a pair the call on (mol1, mol2) reports
      stays as it is, and a pair the call on (mol2, mol1) reports comes back
      with its two atoms exchanged. */
  lemma SymmetrizeKeepsCompleteness(g: Space, mol1: Molecule, mol2: Molecule, partner: Atom -> bool,
                                    one: StrictPairs, two: StrictPairs, cutoff: real)
    requires Aligned(one) && Aligned(two)
    requires forall i, j ::
               (0 <= i < |mol1.atoms| && 0 <= j < |mol2.atoms|
                && mol1.atoms[i].isAcceptor && partner(mol2.atoms[j])
                && InWindow(g.distance(mol1.atoms[i].coords, mol2.atoms[j].coords), 0.0, cutoff))
               ==> Reports(one.first, one.second, mol1.atoms[i], mol2.atoms[j])
    requires forall i, j ::
               (0 <= i < |mol2.atoms| && 0 <= j < |mol1.atoms|
                && mol2.atoms[i].isAcceptor && partner(mol1.atoms[j])
                && InWindow(g.distance(mol2.atoms[i].coords, mol1.atoms[j].coords), 0.0, cutoff))
               ==> Reports(two.first, two.second, mol2.atoms[i], mol1.atoms[j])
    ensures var r := Symmetrize(one, two);
            forall i, j ::
              (0 <= i < |mol1.atoms| && 0 <= j < |mol2.atoms|
               && mol1.atoms[i].isAcceptor && partner(mol2.atoms[j])
               && InWindow(g.distance(mol1.atoms[i].coords, mol2.atoms[j].coords), 0.0, cutoff))
              ==> Reports(r.first, r.second, mol1.atoms[i], mol2.atoms[j])
    ensures var r := Symmetrize(one, two);
            forall i, j ::
              (0 <= i < |mol1.atoms| && 0 <= j < |mol2.atoms|
               && partner(mol1.atoms[i]) && mol2.atoms[j].isAcceptor
               && InWindow(g.distance(mol2.atoms[j].coords, mol1.atoms[i].coords), 0.0, cutoff))
              ==> Reports(r.first, r.second, mol1.atoms[i], mol2.atoms[j])
  {
    var r := Symmetrize(one, two);
    forall i, j | 0 <= i < |mol1.atoms| && 0 <= j < |mol2.atoms|
                  && mol1.atoms[i].isAcceptor && partner(mol2.atoms[j])
                  && InWindow(g.distance(mol1.atoms[i].coords, mol2.atoms[j].coords), 0.0, cutoff)
      ensures Reports(r.first, r.second, mol1.atoms[i], mol2.atoms[j])
    {
      var k :| 0 <= k < |one.first| && k < |one.second|
               && one.first[k] == mol1.atoms[i] && one.second[k] == mol2.atoms[j];
      assert r.first[k] == mol1.atoms[i] && r.second[k] == mol2.atoms[j];
    }
    forall i, j | 0 <= i < |mol1.atoms| && 0 <= j < |mol2.atoms|
                  && partner(mol1.atoms[i]) && mol2.atoms[j].isAcceptor
                  && InWindow(g.distance(mol2.atoms[j].coords, mol1.atoms[i].coords), 0.0, cutoff)
      ensures Reports(r.first, r.second, mol1.atoms[i], mol2.atoms[j])
    {
      assert Reports(two.first, two.second, mol2.atoms[j], mol1.atoms[i]);
      var k :| 0 <= k < |two.first| && k < |two.second|
               && two.first[k] == mol2.atoms[j] && two.second[k] == mol1.atoms[i];
      assert r.first[|one.first| + k] == mol1.atoms[i] && r.second[|one.first| + k] == mol2.atoms[j];
    }
  }


  /** Symmetrizing two directed results gives a symmetric one: the first
      |one.first| pairs are those of the call on (mol1, mol2), the rest those of
      the call on (mol2, mol1) with the two atoms exchanged. */
  lemma SymmetrizeKeepsBonds(g: Space, mol1: Molecule, mol2: Molecule, partner: Atom -> bool,
                             one: StrictPairs, two: StrictPairs, cutoff: real, tol: real)
    requires DirectedBonds(g, mol1, mol2, partner, one, cutoff, tol)
    requires DirectedBonds(g, mol2, mol1, partner, two, cutoff, tol)
    ensures SymmetricBonds(g, mol1, mol2, partner, Symmetrize(one, two), |one.first|, cutoff, tol)
  {
    SymmetrizeKeepsSoundness(g, mol1, mol2, partner, one, two, cutoff, tol);
    SymmetrizeKeepsCompleteness(g, mol1, mol2, partner, one, two, cutoff);
  }

  /** `hbonds`: H-bonds in both directions. Pairs before position n1 have the
      acceptor in mol1, the rest have the donor in mol1. */
  function HBonds(g: Space, mol1: Molecule, mol2: Molecule, cutoff: real, tol: real)
    : (r: Result<StrictPairs, Failure>)
    ensures var one := HBondAcceptorDonor(g, mol1, mol2, cutoff, tol);
            var two := HBondAcceptorDonor(g, mol2, mol1, cutoff, tol);
            && (r.Ok? <==> one.Ok? && two.Ok?)
            && (r.Ok? ==> |r.value.first| == |one.value.first| + |two.value.first|
                          && r.value.first == one.value.first + two.value.second
                          && r.value.second == one.value.second + two.value.first
                          && r.value.strict == one.value.strict + two.value.strict)
    ensures r.Ok? ==>
              SymmetricBonds(g, mol1, mol2, IsDonor, r.value,
                             |HBondAcceptorDonor(g, mol1, mol2, cutoff, tol).value.first|, cutoff, tol)
  {
    var one :- HBondAcceptorDonor(g, mol1, mol2, cutoff, tol);
    var two :- HBondAcceptorDonor(g, mol2, mol1, cutoff, tol);
    SymmetrizeKeepsBonds(g, mol1, mol2, IsDonor, one, two, cutoff, tol);
    Ok(Symmetrize(one, two))
  }

  /** `halogenbonds`: halogen bonds in both directions. Pairs before position n1
      have the acceptor in mol1, the rest have the halogen in mol1. */
  function HalogenBonds(g: Space, mol1: Molecule, mol2: Molecule, cutoff: real, tol: real)
    : (r: Result<StrictPairs, Failure>)
    ensures var one := HalogenBondAcceptorHalogen(g, mol1, mol2, cutoff, tol);
            var two := HalogenBondAcceptorHalogen(g, mol2, mol1, cutoff, tol);
            && (r.Ok? <==> one.Ok? && two.Ok?)
            && (r.Ok? ==> |r.value.first| == |one.value.first| + |two.value.first|
                          && r.value.first == one.value.first + two.value.second
                          && r.value.second == one.value.second + two.value.first
                          && r.value.strict == one.value.strict + two.value.strict)
    ensures r.Ok? ==>
              SymmetricBonds(g, mol1, mol2, IsHalogen, r.value,
                             |HalogenBondAcceptorHalogen(g, mol1, mol2, cutoff, tol).value.first|, cutoff, tol)
  {
    var one :- HalogenBondAcceptorHalogen(g, mol1, mol2, cutoff, tol);
    var two :- HalogenBondAcceptorHalogen(g, mol2, mol1, cutoff, tol);
    SymmetrizeKeepsBonds(g, mol1, mol2, IsHalogen, one, two, cutoff, tol);
    Ok(Symmetrize(one, two))
  }

  /** `salt_bridge_plus_minus`: cations of `mol1` against anions of `mol2`. */
  function SaltBridgePlusMinus(g: Space, mol1: Molecule, mol2: Molecule, cutoff: real)
    : (r: Pairs<Atom, Atom>)
    ensures |r.first| == |r.second|
    ensures forall k :: 0 <= k < |r.first| ==>
              && r.first[k] in mol1.atoms && r.first[k].isPlus
              && r.second[k] in mol2.atoms && r.second[k].isMinus
              && InWindow(g.distance(r.first[k].coords, r.second[k].coords), 0.0, cutoff)
    ensures forall i, j :: 0 <= i < |mol1.atoms| && 0 <= j < |mol2.atoms|
              && mol1.atoms[i].isPlus && mol2.atoms[j].isMinus
              && InWindow(g.distance(mol1.atoms[i].coords, mol2.atoms[j].coords), 0.0, cutoff)
              ==> Reports(r.first, r.second, mol1.atoms[i], mol2.atoms[j])
    ensures |r.first| == |ContactIndices(Positions(Select(mol1.atoms, IsPlus), AtomCoords),
                                         Positions(Select(mol2.atoms, IsMinus), AtomCoords),
                                         g.distance, 0.0, cutoff)|
  {
    CloseContacts(Select(mol1.atoms, IsPlus), Select(mol2.atoms, IsMinus),
                  AtomCoords, AtomCoords, g.distance, cutoff, 0.0)
  }

  /** After distance-only symmetrizing, each pair has its mol1 atom first and is
      either plus-minus (from the first call) or minus-plus (from the second). */
  lemma SymmetrizePairsSides(mol1: Molecule, mol2: Molecule, one: Pairs<Atom, Atom>, two: Pairs<Atom, Atom>)
    requires |one.first| == |one.second| && |two.first| == |two.second|
    requires forall k :: 0 <= k < |one.first| ==>
               one.first[k] in mol1.atoms && one.first[k].isPlus && one.second[k] in mol2.atoms && one.second[k].isMinus
    requires forall k :: 0 <= k < |two.first| ==>
               two.first[k] in mol2.atoms && two.first[k].isPlus && two.second[k] in mol1.atoms && two.second[k].isMinus
    ensures var r := SymmetrizePairs(one, two);
            forall k :: 0 <= k < |r.first| ==>
              && r.first[k] in mol1.atoms && r.second[k] in mol2.atoms
              && ((r.first[k].isPlus && r.second[k].isMinus) || (r.first[k].isMinus && r.second[k].isPlus))
  {
    var r := SymmetrizePairs(one, two);
    forall k | 0 <= k < |r.first|
      ensures && r.first[k] in mol1.atoms && r.second[k] in mol2.atoms
              && ((r.first[k].isPlus && r.second[k].isMinus) || (r.first[k].isMinus && r.second[k].isPlus))
    {
      if k < |one.first| {
        assert r.first[k] == one.first[k] && r.second[k] == one.second[k];
      } else {
        assert r.first[k] == two.second[k - |one.first|] && r.second[k] == two.first[k - |one.first|];
      }
    }
  }

  /** `salt_bridges`: salt bridges in both directions, mol1 atoms first. */
  function SaltBridges(g: Space, mol1: Molecule, mol2: Molecule, cutoff: real)
    : (r: Pairs<Atom, Atom>)
    ensures var one := SaltBridgePlusMinus(g, mol1, mol2, cutoff);
            var two := SaltBridgePlusMinus(g, mol2, mol1, cutoff);
            && |r.first| == |r.second| == |one.first| + |two.first|
            && r.first == one.first + two.second
            && r.second == one.second + two.first
    ensures forall k :: 0 <= k < |r.first| ==>
              && r.first[k] in mol1.atoms && r.second[k] in mol2.atoms
              && ((r.first[k].isPlus && r.second[k].isMinus) || (r.first[k].isMinus && r.second[k].isPlus))
  {
    var one := SaltBridgePlusMinus(g, mol1, mol2, cutoff);
    var two := SaltBridgePlusMinus(g, mol2, mol1, cutoff);
    SymmetrizePairsSides(mol1, mol2, one, two);
    SymmetrizePairs(one, two)
  }

  /** `hydrophobic_contacts`: hydrophobes of `mol1` against hydrophobes of `mol2`. */
  function HydrophobicContacts(g: Space, mol1: Molecule, mol2: Molecule, cutoff: real)
    : (r: Pairs<Atom, Atom>)
    ensures |r.first| == |r.second|
    ensures forall k :: 0 <= k < |r.first| ==>
              && r.first[k] in mol1.atoms && r.first[k].isHydrophobe
              && r.second[k] in mol2.atoms && r.second[k].isHydrophobe
              && InWindow(g.distance(r.first[k].coords, r.second[k].coords), 0.0, cutoff)
    ensures forall i, j :: 0 <= i < |mol1.atoms| && 0 <= j < |mol2.atoms|
              && mol1.atoms[i].isHydrophobe && mol2.atoms[j].isHydrophobe
              && InWindow(g.distance(mol1.atoms[i].coords, mol2.atoms[j].coords), 0.0, cutoff)
              ==> Reports(r.first, r.second, mol1.atoms[i], mol2.atoms[j])
    ensures |r.first| == |ContactIndices(Positions(Select(mol1.atoms, IsHydrophobe), AtomCoords),
                                         Positions(Select(mol2.atoms, IsHydrophobe), AtomCoords),
                                         g.distance, 0.0, cutoff)|
  {
    CloseContacts(Select(mol1.atoms, IsHydrophobe), Select(mol2.atoms, IsHydrophobe),
                  AtomCoords, AtomCoords, g.distance, cutoff, 0.0)
  }

  // ---------------------------------------------------------------------------
  // Ring detectors

  /** Angle between the two ring normals. */
  function NormalAngle(g: Space, r1: Ring, r2: Ring): Angle {
    g.angle2v(r1.vector, r2.vector)
  }

  /** Angle at the first centroid between its normal and the second centroid. */
  function OffsetAngle(g: Space, r1: Ring, r2: Ring): Angle {
    g.angle(Add(r1.vector, r1.centroid), r1.centroid, r2.centroid)
  }

  /** `pi_stacking`: ring pairs with the parallel and the perpendicular
      classification; both flags may be false. */
  function PiStacking(g: Space, mol1: Molecule, mol2: Molecule, cutoff: real, tol: real)
    : (r: StackingPairs)
    ensures |r.first| == |r.second| == |r.parallel| == |r.perpendicular|
    ensures var c := CloseContacts(mol1.rings, mol2.rings, RingCentroid, RingCentroid, g.distance, cutoff, 0.0);
            r.first == c.first && r.second == c.second
    ensures forall k :: 0 <= k < |r.first| ==>
              && r.first[k] in mol1.rings && r.second[k] in mol2.rings
              && InWindow(g.distance(r.first[k].centroid, r.second[k].centroid), 0.0, cutoff)
              && (r.parallel[k] <==>
                    NearAxis(NormalAngle(g, r.first[k], r.second[k]), tol)
                    && NearAxis(OffsetAngle(g, r.first[k], r.second[k]), tol))
              && (r.perpendicular[k] <==>
                    NearPerpendicular(NormalAngle(g, r.first[k], r.second[k]), tol)
                    && NearAxis(OffsetAngle(g, r.first[k], r.second[k]), tol))
    ensures tol <= 45.0 ==> forall k :: 0 <= k < |r.first| ==> !(r.parallel[k] && r.perpendicular[k])
    ensures |mol1.rings| == 0 || |mol2.rings| == 0 ==> r == StackingPairs([], [], [], [])
  {
    var c := CloseContacts(mol1.rings, mol2.rings, RingCentroid, RingCentroid, g.distance, cutoff, 0.0);
    if |c.first| > 0 && |c.second| > 0 then
      var n := |c.first|;
      var parallel := seq(n, k requires 0 <= k < n =>
        NearAxis(NormalAngle(g, c.first[k], c.second[k]), tol) && NearAxis(OffsetAngle(g, c.first[k], c.second[k]), tol));
      var perpendicular := seq(n, k requires 0 <= k < n =>
        NearPerpendicular(NormalAngle(g, c.first[k], c.second[k]), tol) && NearAxis(OffsetAngle(g, c.first[k], c.second[k]), tol));
      assert tol <= 45.0 ==> forall k :: 0 <= k < n ==> !(parallel[k] && perpendicular[k]) by {
        if tol <= 45.0 {
          forall k | 0 <= k < n ensures !(parallel[k] && perpendicular[k]) {
            BandsDisjoint(NormalAngle(g, c.first[k], c.second[k]), tol);
          }
        }
      }
      StackingPairs(c.first, c.second, parallel, perpendicular)
    else
      StackingPairs(c.first, c.second, [], [])
  }

  /** Angle between a ring normal and the direction from its centroid to an atom. */
  function ApproachAngle(g: Space, ring: Ring, atom: Atom): Angle {
    g.angle2v(ring.vector, Sub(atom.coords, ring.centroid))
  }

  /** The centroid join of the rings of mol1 with the selected atoms of mol2,
      seen in the terms of the two molecules: each pair is a ring of mol1 and a
      selected atom of mol2 within the cutoff, every such pair is reported, and
      no rings or no selected atoms give nothing. */
  lemma RingAtomJoin(g: Space, mol1: Molecule, mol2: Molecule, partner: Atom -> bool, cutoff: real)
    ensures var c := CloseContacts(mol1.rings, Select(mol2.atoms, partner), RingCentroid, AtomCoords,
                                   g.distance, cutoff, 0.0);
            forall k :: 0 <= k < |c.first| ==>
              && c.first[k] in mol1.rings && c.second[k] in mol2.atoms && partner(c.second[k])
              && InWindow(g.distance(c.first[k].centroid, c.second[k].coords), 0.0, cutoff)
    ensures var c := CloseContacts(mol1.rings, Select(mol2.atoms, partner), RingCentroid, AtomCoords,
                                   g.distance, cutoff, 0.0);
            forall i, j ::
              (0 <= i < |mol1.rings| && 0 <= j < |mol2.atoms| && partner(mol2.atoms[j])
               && InWindow(g.distance(mol1.rings[i].centroid, mol2.atoms[j].coords), 0.0, cutoff))
              ==> Reports(c.first, c.second, mol1.rings[i], mol2.atoms[j])
    ensures |mol1.rings| == 0 || (forall i :: 0 <= i < |mol2.atoms| ==> !partner(mol2.atoms[i]))
            ==> CloseContacts(mol1.rings, Select(mol2.atoms, partner), RingCentroid, AtomCoords,
                              g.distance, cutoff, 0.0) == Pairs([], [])
  {
    var sel := Select(mol2.atoms, partner);
    var c := CloseContacts(mol1.rings, sel, RingCentroid, AtomCoords, g.distance, cutoff, 0.0);
    forall k | 0 <= k < |c.first|
      ensures && c.first[k] in mol1.rings && c.second[k] in mol2.atoms && partner(c.second[k])
              && InWindow(g.distance(c.first[k].centroid, c.second[k].coords), 0.0, cutoff)
    {
      assert c.second[k] in sel;
      assert InWindow(g.distance(RingCentroid(c.first[k]), AtomCoords(c.second[k])), 0.0, cutoff);
    }
    forall i, j | 0 <= i < |mol1.rings| && 0 <= j < |mol2.atoms| && partner(mol2.atoms[j])
                  && InWindow(g.distance(mol1.rings[i].centroid, mol2.atoms[j].coords), 0.0, cutoff)
      ensures Reports(c.first, c.second, mol1.rings[i], mol2.atoms[j])
    {
      assert mol1.rings[i] in mol1.rings && mol2.atoms[j] in sel;
      assert InWindow(g.distance(RingCentroid(mol1.rings[i]), AtomCoords(mol2.atoms[j])), 0.0, cutoff);
    }
  }

  /** The shared shape of `pi_cation` and `pi_metal`: rings of `mol1` against
      the atoms of `mol2` that `partner` selects, strict when the atom sits
      near the ring axis. No NaN substitution: an undefined angle is not strict. */
  function RingAtomContacts(g: Space, mol1: Molecule, mol2: Molecule, partner: Atom -> bool,
                            cutoff: real, tol: real): (r: RingAtomPairs)
    ensures |r.rings| == |r.atoms| == |r.strict|
    ensures var c := CloseContacts(mol1.rings, Select(mol2.atoms, partner), RingCentroid, AtomCoords,
                                   g.distance, cutoff, 0.0);
            r.rings == c.first && r.atoms == c.second
    ensures forall k :: 0 <= k < |r.rings| ==>
              && r.rings[k] in mol1.rings && r.atoms[k] in mol2.atoms && partner(r.atoms[k])
              && InWindow(g.distance(r.rings[k].centroid, r.atoms[k].coords), 0.0, cutoff)
              && (r.strict[k] <==> NearAxis(ApproachAngle(g, r.rings[k], r.atoms[k]), tol))
    ensures forall i, j ::
              (0 <= i < |mol1.rings| && 0 <= j < |mol2.atoms| && partner(mol2.atoms[j])
               && InWindow(g.distance(mol1.rings[i].centroid, mol2.atoms[j].coords), 0.0, cutoff))
              ==> Reports(r.rings, r.atoms, mol1.rings[i], mol2.atoms[j])
    ensures |mol1.rings| == 0 || (forall i :: 0 <= i < |mol2.atoms| ==> !partner(mol2.atoms[i]))
            ==> r == RingAtomPairs([], [], [])
  {
    var c := CloseContacts(mol1.rings, Select(mol2.atoms, partner), RingCentroid, AtomCoords,
                           g.distance, cutoff, 0.0);
    RingAtomJoin(g, mol1, mol2, partner, cutoff);
    if |c.first| > 0 && |c.second| > 0 then
      var n := |c.first|;
      RingAtomPairs(c.first, c.second,
                    seq(n, k requires 0 <= k < n => NearAxis(ApproachAngle(g, c.first[k], c.second[k]), tol)))
    else
      RingAtomPairs(c.first, c.second, [])
  }

  /** `pi_cation`: rings of `mol1` against cations of `mol2`. */
  function PiCation(g: Space, mol1: Molecule, mol2: Molecule, cutoff: real, tol: real)
    : (r: RingAtomPairs)
    ensures |r.rings| == |r.atoms| == |r.strict|
    ensures forall k :: 0 <= k < |r.rings| ==>
              && r.rings[k] in mol1.rings && r.atoms[k] in mol2.atoms && r.atoms[k].isPlus
              && InWindow(g.distance(r.rings[k].centroid, r.atoms[k].coords), 0.0, cutoff)
              && (r.strict[k] <==> NearAxis(ApproachAngle(g, r.rings[k], r.atoms[k]), tol))
    ensures var c := CloseContacts(mol1.rings, Select(mol2.atoms, IsPlus), RingCentroid, AtomCoords,
                                   g.distance, cutoff, 0.0);
            r.rings == c.first && r.atoms == c.second
    ensures forall i, j ::
              (0 <= i < |mol1.rings| && 0 <= j < |mol2.atoms| && mol2.atoms[j].isPlus
               && InWindow(g.distance(mol1.rings[i].centroid, mol2.atoms[j].coords), 0.0, cutoff))
              ==> Reports(r.rings, r.atoms, mol1.rings[i], mol2.atoms[j])
    ensures |mol1.rings| == 0 || (forall i :: 0 <= i < |mol2.atoms| ==> !mol2.atoms[i].isPlus)
            ==> r == RingAtomPairs([], [], [])
  {
    RingAtomContacts(g, mol1, mol2, IsPlus, cutoff, tol)
  }

  /** `pi_metal`: rings of `mol1` against metals of `mol2`. */
  function PiMetal(g: Space, mol1: Molecule, mol2: Molecule, cutoff: real, tol: real)
    : (r: RingAtomPairs)
    ensures |r.rings| == |r.atoms| == |r.strict|
    ensures forall k :: 0 <= k < |r.rings| ==>
              && r.rings[k] in mol1.rings && r.atoms[k] in mol2.atoms && r.atoms[k].isMetal
              && InWindow(g.distance(r.rings[k].centroid, r.atoms[k].coords), 0.0, cutoff)
              && (r.strict[k] <==> NearAxis(ApproachAngle(g, r.rings[k], r.atoms[k]), tol))
    ensures var c := CloseContacts(mol1.rings, Select(mol2.atoms, IsMetal), RingCentroid, AtomCoords,
                                   g.distance, cutoff, 0.0);
            r.rings == c.first && r.atoms == c.second
    ensures forall i, j ::
              (0 <= i < |mol1.rings| && 0 <= j < |mol2.atoms| && mol2.atoms[j].isMetal
               && InWindow(g.distance(mol1.rings[i].centroid, mol2.atoms[j].coords), 0.0, cutoff))
              ==> Reports(r.rings, r.atoms, mol1.rings[i], mol2.atoms[j])
    ensures |mol1.rings| == 0 || (forall i :: 0 <= i < |mol2.atoms| ==> !mol2.atoms[i].isMetal)
            ==> r == RingAtomPairs([], [], [])
  {
    RingAtomContacts(g, mol1, mol2, IsMetal, cutoff, tol)
  }
}
