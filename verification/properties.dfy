/** Laws relating several detector calls: the symmetry of the two-way
    detectors and the commutativity of the distance-only join. */
module Properties {
  import opened Geometry
  import opened Molecules
  import opened Contacts
  import opened Detectors

  /** The pairs of a result with their flags, read in (first, second) order. */
  function Triples(p: StrictPairs): (t: seq<(Atom, Atom, bool)>)
    requires Aligned(p)
  {
    seq(|p.first|, k requires 0 <= k < |p.first| => (p.first[k], p.second[k], p.strict[k]))
  }

  /** The same, read in (second, first) order. */
  function SwappedTriples(p: StrictPairs): (t: seq<(Atom, Atom, bool)>)
    requires Aligned(p)
  {
    seq(|p.first|, k requires 0 <= k < |p.first| => (p.second[k], p.first[k], p.strict[k]))
  }

  /** Symmetrizing with the arguments exchanged yields the same pairs, with the
      two halves in the other order. */
  lemma SymmetrizeSwaps(one: StrictPairs, two: StrictPairs)
    requires Aligned(one) && Aligned(two)
    ensures var forward := Triples(Symmetrize(one, two));
            SwappedTriples(Symmetrize(two, one)) == forward[|one.first|..] + forward[..|one.first|]
    ensures multiset(SwappedTriples(Symmetrize(two, one))) == multiset(Triples(Symmetrize(one, two)))
  {
    var forward := Triples(Symmetrize(one, two));
    var backward := SwappedTriples(Symmetrize(two, one));
    var n1 := |one.first|;
    var n2 := |two.first|;
    assert |backward| == n2 + n1;
    forall k | 0 <= k < n2 + n1
      ensures backward[k] == (forward[n1..] + forward[..n1])[k]
    {
      if k < n2 {
        assert backward[k] == (two.second[k], two.first[k], two.strict[k]);
        assert forward[n1 + k] == (two.second[k], two.first[k], two.strict[k]);
      } else {
        assert backward[k] == (one.first[k - n2], one.second[k - n2], one.strict[k - n2]);
        assert forward[k - n2] == (one.first[k - n2], one.second[k - n2], one.strict[k - n2]);
      }
    }
    assert backward == forward[n1..] + forward[..n1];
    assert forward == forward[..n1] + forward[n1..];
  }

  /** `hbonds(mol1, mol2)` and `hbonds(mol2, mol1)` fail together and otherwise
      report the same bonds with the same flags, seen from the other side. */
  lemma HBondsSymmetric(g: Space, mol1: Molecule, mol2: Molecule, cutoff: real, tol: real)
    ensures HBonds(g, mol1, mol2, cutoff, tol).Ok? <==> HBonds(g, mol2, mol1, cutoff, tol).Ok?
    ensures HBonds(g, mol1, mol2, cutoff, tol).Ok? ==>
              |HBonds(g, mol1, mol2, cutoff, tol).value.first| == |HBonds(g, mol2, mol1, cutoff, tol).value.first|
              && multiset(SwappedTriples(HBonds(g, mol2, mol1, cutoff, tol).value))
                 == multiset(Triples(HBonds(g, mol1, mol2, cutoff, tol).value))
  {
    var one := HBondAcceptorDonor(g, mol1, mol2, cutoff, tol);
    var two := HBondAcceptorDonor(g, mol2, mol1, cutoff, tol);
    if one.Ok? && two.Ok? {
      SymmetrizeSwaps(one.value, two.value);
    }
  }

  /** The same law for `halogenbonds`. */
  lemma HalogenBondsSymmetric(g: Space, mol1: Molecule, mol2: Molecule, cutoff: real, tol: real)
    ensures HalogenBonds(g, mol1, mol2, cutoff, tol).Ok? <==> HalogenBonds(g, mol2, mol1, cutoff, tol).Ok?
    ensures HalogenBonds(g, mol1, mol2, cutoff, tol).Ok? ==>
              |HalogenBonds(g, mol1, mol2, cutoff, tol).value.first|
                == |HalogenBonds(g, mol2, mol1, cutoff, tol).value.first|
              && multiset(SwappedTriples(HalogenBonds(g, mol2, mol1, cutoff, tol).value))
                 == multiset(Triples(HalogenBonds(g, mol1, mol2, cutoff, tol).value))
  {
    var one := HalogenBondAcceptorHalogen(g, mol1, mol2, cutoff, tol);
    var two := HalogenBondAcceptorHalogen(g, mol2, mol1, cutoff, tol);
    if one.Ok? && two.Ok? {
      SymmetrizeSwaps(one.value, two.value);
    }
  }

  /** Atom pairs of a distance-only result, in (first, second) order. */
  function PairList(p: Pairs<Atom, Atom>): (t: seq<(Atom, Atom)>)
    requires |p.first| == |p.second|
  {
    seq(|p.first|, k requires 0 <= k < |p.first| => (p.first[k], p.second[k]))
  }

  /** The same, in (second, first) order. */
  function SwappedPairList(p: Pairs<Atom, Atom>): (t: seq<(Atom, Atom)>)
    requires |p.first| == |p.second|
  {
    seq(|p.first|, k requires 0 <= k < |p.first| => (p.second[k], p.first[k]))
  }

  /** Distance-only symmetrizing with the arguments exchanged yields the same
      pairs, with the two halves in the other order. */
  lemma SymmetrizePairsSwaps(one: Pairs<Atom, Atom>, two: Pairs<Atom, Atom>)
    requires |one.first| == |one.second| && |two.first| == |two.second|
    ensures var forward := PairList(SymmetrizePairs(one, two));
            SwappedPairList(SymmetrizePairs(two, one)) == forward[|one.first|..] + forward[..|one.first|]
    ensures multiset(SwappedPairList(SymmetrizePairs(two, one))) == multiset(PairList(SymmetrizePairs(one, two)))
  {
    var forward := PairList(SymmetrizePairs(one, two));
    var backward := SwappedPairList(SymmetrizePairs(two, one));
    var n1 := |one.first|;
    var n2 := |two.first|;
    forall k | 0 <= k < n2 + n1
      ensures backward[k] == (forward[n1..] + forward[..n1])[k]
    {
      if k < n2 {
        assert backward[k] == (two.second[k], two.first[k]);
        assert forward[n1 + k] == (two.second[k], two.first[k]);
      } else {
        assert backward[k] == (one.first[k - n2], one.second[k - n2]);
        assert forward[k - n2] == (one.first[k - n2], one.second[k - n2]);
      }
    }
    assert backward == forward[n1..] + forward[..n1];
    assert forward == forward[..n1] + forward[n1..];
  }

  /** `salt_bridges(mol1, mol2)` and `salt_bridges(mol2, mol1)` report the same
      bridges, seen from the other side. */
  lemma SaltBridgesSymmetric(g: Space, mol1: Molecule, mol2: Molecule, cutoff: real)
    ensures |SaltBridges(g, mol1, mol2, cutoff).first| == |SaltBridges(g, mol2, mol1, cutoff).first|
    ensures multiset(SwappedPairList(SaltBridges(g, mol2, mol1, cutoff)))
            == multiset(PairList(SaltBridges(g, mol1, mol2, cutoff)))
  {
    SymmetrizePairsSwaps(SaltBridgePlusMinus(g, mol1, mol2, cutoff), SaltBridgePlusMinus(g, mol2, mol1, cutoff));
  }

  /** With a distance that ignores argument order, hydrophobic contacts pair the
      same atoms whichever molecule comes first. */
  lemma HydrophobicContactsCommute(g: Space, mol1: Molecule, mol2: Molecule, cutoff: real, a: Atom, b: Atom)
    requires SymmetricDistance(g)
    ensures var forward := HydrophobicContacts(g, mol1, mol2, cutoff);
            var backward := HydrophobicContacts(g, mol2, mol1, cutoff);
            Reports(forward.first, forward.second, a, b) <==> Reports(backward.first, backward.second, b, a)
  {
    CloseContactsCommute(Select(mol1.atoms, IsHydrophobe), Select(mol2.atoms, IsHydrophobe),
                         AtomCoords, g.distance, cutoff, 0.0, a, b);
  }
}
