/** Concrete inputs for the H-bond, pi-stacking, salt-bridge and pi-cation
    detectors, and the effect of reading an undefined angle as 0 degrees. Each
    space is either constant or fixed only at the points the scenario uses, so
    the detectors' contracts decide every outcome. */
module Scenarios {
  import opened Wrappers
  import opened Geometry
  import opened Molecules
  import opened Contacts
  import opened Angles
  import opened Detectors

  /** A space where every distance is `d`, every vertex angle is `vertex` and
      every angle between free vectors is `free`. */
  function ConstantSpace(d: real, vertex: Angle, free: Angle): (g: Space)
  {
    Space((p: Point, q: Point) => d, (p: Point, v: Point, q: Point) => vertex, (u: Point, v: Point) => free)
  }

  /** An atom with one neighbour slot and no flags set. */
  function PlainAtom(coords: Point, neighbor: Option<Point>, hybridization: int): Atom {
    Atom(coords, [neighbor], hybridization, false, false, false, false, false, false, false)
  }

  /** An sp acceptor (ideal angle 180) and an sp donor 3.0 apart whose every
      measured angle is 179 degrees form a strict H-bond at tolerance 30. */
  lemma HBondStrictScenario()
    ensures var acceptor := PlainAtom(Point(0.0, 0.0, 0.0), Some(Point(-1.0, 0.0, 0.0)), 1).(isAcceptor := true);
            var donor := PlainAtom(Point(3.0, 0.0, 0.0), Some(Point(4.0, 0.0, 0.0)), 1).(isDonor := true);
            var r := HBondAcceptorDonor(ConstantSpace(3.0, Some(179.0), None),
                                        Molecule([acceptor], []), Molecule([donor], []),
                                        HBondCutoff, DefaultTolerance);
            && r.Ok?
            && Reports(r.value.first, r.value.second, acceptor, donor)
            && forall k :: 0 <= k < |r.value.strict| ==> r.value.strict[k]
  {
    var acceptor := PlainAtom(Point(0.0, 0.0, 0.0), Some(Point(-1.0, 0.0, 0.0)), 1).(isAcceptor := true);
    var donor := PlainAtom(Point(3.0, 0.0, 0.0), Some(Point(4.0, 0.0, 0.0)), 1).(isDonor := true);
    var g := ConstantSpace(3.0, Some(179.0), None);
    var r := HBondAcceptorDonor(g, Molecule([acceptor], []), Molecule([donor], []), HBondCutoff, DefaultTolerance);
    assert InWindow(g.distance(acceptor.coords, donor.coords), 0.0, HBondCutoff);
    assert r.Ok?;
    forall k | 0 <= k < |r.value.strict|
      ensures r.value.strict[k]
    {
      assert r.value.first[k] == acceptor && r.value.second[k] == donor;
      assert NeighborAngles(g, donor.coords, acceptor)[0] == Some(179.0);
      assert NeighborAngles(g, acceptor.coords, donor)[0] == Some(179.0);
      assert InOpenBand(179.0, IdealAngle(1).value, DefaultTolerance);
    }
  }

  /** The same geometry at tolerance 0 is reported but never strict. */
  lemma HBondZeroToleranceScenario()
    ensures var acceptor := PlainAtom(Point(0.0, 0.0, 0.0), Some(Point(-1.0, 0.0, 0.0)), 1).(isAcceptor := true);
            var donor := PlainAtom(Point(3.0, 0.0, 0.0), Some(Point(4.0, 0.0, 0.0)), 1).(isDonor := true);
            var r := HBondAcceptorDonor(ConstantSpace(3.0, Some(179.0), None),
                                        Molecule([acceptor], []), Molecule([donor], []),
                                        HBondCutoff, 0.0);
            && r.Ok?
            && Reports(r.value.first, r.value.second, acceptor, donor)
            && forall k :: 0 <= k < |r.value.strict| ==> !r.value.strict[k]
  {
    var acceptor := PlainAtom(Point(0.0, 0.0, 0.0), Some(Point(-1.0, 0.0, 0.0)), 1).(isAcceptor := true);
    var donor := PlainAtom(Point(3.0, 0.0, 0.0), Some(Point(4.0, 0.0, 0.0)), 1).(isDonor := true);
    var g := ConstantSpace(3.0, Some(179.0), None);
    var r := HBondAcceptorDonor(g, Molecule([acceptor], []), Molecule([donor], []), HBondCutoff, 0.0);
    assert InWindow(g.distance(acceptor.coords, donor.coords), 0.0, HBondCutoff);
    assert r.Ok?;
    forall k | 0 <= k < |r.value.strict|
      ensures !r.value.strict[k]
    {
      assert r.value.first[k] == acceptor && r.value.second[k] == donor;
      var angles := NeighborAngles(g, donor.coords, acceptor);
      assert |angles| == 1 && angles[0] == Some(179.0);
      assert !InOpenBand(NanToNum(angles[0]), IdealAngle(1).value, 0.0);
      assert !SomeSlotInBand(angles, IdealAngle(1).value, 0.0);
    }
  }

  /** Padded neighbour slots read as 0 degrees: two atoms of code 0 (ideal 0)
      with nothing but padded slots form a strict H-bond for any positive
      tolerance, whatever the geometry. */
  lemma PaddedSlotsStrictAtCodeZero(g: Space, tol: real)
    requires tol > 0.0 && InWindow(g.distance(Point(0.0, 0.0, 0.0), Point(3.0, 0.0, 0.0)), 0.0, HBondCutoff)
    ensures var acceptor := PlainAtom(Point(0.0, 0.0, 0.0), None, 0).(isAcceptor := true);
            var donor := PlainAtom(Point(3.0, 0.0, 0.0), None, 0).(isDonor := true);
            var r := HBondAcceptorDonor(g, Molecule([acceptor], []), Molecule([donor], []), HBondCutoff, tol);
            && r.Ok?
            && Reports(r.value.first, r.value.second, acceptor, donor)
            && forall k :: 0 <= k < |r.value.strict| ==> r.value.strict[k]
  {
    var acceptor := PlainAtom(Point(0.0, 0.0, 0.0), None, 0).(isAcceptor := true);
    var donor := PlainAtom(Point(3.0, 0.0, 0.0), None, 0).(isDonor := true);
    var r := HBondAcceptorDonor(g, Molecule([acceptor], []), Molecule([donor], []), HBondCutoff, tol);
    assert r.Ok?;
    forall k | 0 <= k < |r.value.strict|
      ensures r.value.strict[k]
    {
      assert r.value.first[k] == acceptor && r.value.second[k] == donor;
      assert NeighborAngles(g, donor.coords, acceptor)[0] == None;
      assert NeighborAngles(g, acceptor.coords, donor)[0] == None;
      assert InOpenBand(NanToNum(None), IdealAngle(0).value, tol);
    }
  }

  /** Two rings 4.0 apart with parallel normals and a centroid offset along the
      normal stack in parallel, not perpendicular, at tolerance 30. */
  lemma PiStackingParallelScenario()
    ensures var r1 := Ring(Point(0.0, 0.0, 0.0), Point(0.0, 0.0, 1.0));
            var r2 := Ring(Point(0.0, 0.0, 4.0), Point(0.0, 0.0, 1.0));
            var r := PiStacking(ConstantSpace(4.0, Some(0.0), Some(0.0)),
                                Molecule([], [r1]), Molecule([], [r2]), PiStackingCutoff, DefaultTolerance);
            && Reports(r.first, r.second, r1, r2)
            && forall k :: 0 <= k < |r.first| ==> r.parallel[k] && !r.perpendicular[k]
  {
    var r1 := Ring(Point(0.0, 0.0, 0.0), Point(0.0, 0.0, 1.0));
    var r2 := Ring(Point(0.0, 0.0, 4.0), Point(0.0, 0.0, 1.0));
    var g := ConstantSpace(4.0, Some(0.0), Some(0.0));
    assert InWindow(g.distance(RingCentroid(r1), RingCentroid(r2)), 0.0, PiStackingCutoff);
  }

  /** Normals 45 degrees apart at tolerance 30: the pair is reported but is
      neither parallel nor perpendicular, the third outcome. */
  lemma PiStackingNeitherScenario()
    ensures var r1 := Ring(Point(0.0, 0.0, 0.0), Point(0.0, 0.0, 1.0));
            var r2 := Ring(Point(0.0, 0.0, 4.0), Point(0.0, 1.0, 1.0));
            var r := PiStacking(ConstantSpace(4.0, Some(0.0), Some(45.0)),
                                Molecule([], [r1]), Molecule([], [r2]), PiStackingCutoff, DefaultTolerance);
            && Reports(r.first, r.second, r1, r2)
            && forall k :: 0 <= k < |r.first| ==> !r.parallel[k] && !r.perpendicular[k]
  {
    var r1 := Ring(Point(0.0, 0.0, 0.0), Point(0.0, 0.0, 1.0));
    var r2 := Ring(Point(0.0, 0.0, 4.0), Point(0.0, 1.0, 1.0));
    var g := ConstantSpace(4.0, Some(0.0), Some(45.0));
    assert InWindow(g.distance(RingCentroid(r1), RingCentroid(r2)), 0.0, PiStackingCutoff);
  }

  /** A cation and an anion 5.0 apart form no salt bridge at cutoff 4, in
      any space where those two points are 5.0 apart. */
  lemma SaltBridgeBeyondCutoffScenario(g: Space)
    requires g.distance(Point(0.0, 0.0, 0.0), Point(5.0, 0.0, 0.0)) == 5.0
    ensures var plus := PlainAtom(Point(0.0, 0.0, 0.0), None, 0).(isPlus := true);
            var minus := PlainAtom(Point(5.0, 0.0, 0.0), None, 0).(isMinus := true);
            SaltBridges(g, Molecule([plus], []), Molecule([minus], []), SaltBridgeCutoff) == Pairs([], [])
  {
    var plus := PlainAtom(Point(0.0, 0.0, 0.0), None, 0).(isPlus := true);
    var minus := PlainAtom(Point(5.0, 0.0, 0.0), None, 0).(isMinus := true);
    var cations := Select([plus], IsPlus);
    var anions := Select([minus], IsMinus);
    assert forall i :: 0 <= i < |cations| ==> cations[i] == plus;
    assert forall j :: 0 <= j < |anions| ==> anions[j] == minus;
    CloseContactsOutOfReach(cations, anions, AtomCoords, AtomCoords, g.distance, SaltBridgeCutoff, 0.0);
    assert !IsPlus(minus);
    assert Select([minus], IsPlus) == [];
    CloseContactsOutOfReach(Select([minus], IsPlus), Select([plus], IsMinus),
                            AtomCoords, AtomCoords, g.distance, SaltBridgeCutoff, 0.0);
  }

  /** An undefined ring-to-cation angle is never strict: `pi_cation` applies no
      NaN substitution. */
  lemma PiCationUndefinedAngleScenario(mol1: Molecule, mol2: Molecule, cutoff: real, tol: real)
    ensures var r := PiCation(ConstantSpace(4.0, None, None), mol1, mol2, cutoff, tol);
            forall k :: 0 <= k < |r.strict| ==> !r.strict[k]
  {
  }
}
