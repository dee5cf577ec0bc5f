/** The atom and ring records a molecule exposes to the detectors, and the
    flag-based selection of atom subsets (`atom_dict[atom_dict['isdonor']]`). */
module Molecules {
  import opened Wrappers
  import opened Geometry

  /** One row of an atom dictionary. `neighbors` has one slot per directional
      reference point; a slot padded with NaN coordinates is `None`.
      `hybridization` indexes the ideal-angle table. */
  datatype Atom = Atom(
    coords: Point,
    neighbors: seq<Option<Point>>,
    hybridization: int,
    isAcceptor: bool,
    isDonor: bool,
    isHalogen: bool,
    isPlus: bool,
    isMinus: bool,
    isHydrophobe: bool,
    isMetal: bool)

  /** One row of a ring dictionary: the centroid and the ring normal. */
  datatype Ring = Ring(centroid: Point, vector: Point)

  datatype Molecule = Molecule(atoms: seq<Atom>, rings: seq<Ring>)

  function AtomCoords(a: Atom): Point { a.coords }
  function RingCentroid(r: Ring): Point { r.centroid }

  predicate IsAcceptor(a: Atom) { a.isAcceptor }
  predicate IsDonor(a: Atom) { a.isDonor }
  predicate IsHalogen(a: Atom) { a.isHalogen }
  predicate IsPlus(a: Atom) { a.isPlus }
  predicate IsMinus(a: Atom) { a.isMinus }
  predicate IsHydrophobe(a: Atom) { a.isHydrophobe }
  predicate IsMetal(a: Atom) { a.isMetal }

  /** Boolean-mask selection: the elements of `xs` satisfying `keep`, in their
      original order. */
  function Select<A>(xs: seq<A>, keep: A -> bool): (r: seq<A>)
    ensures |r| <= |xs|
    ensures forall k :: 0 <= k < |r| ==> r[k] in xs && keep(r[k])
    ensures forall i :: 0 <= i < |xs| && keep(xs[i]) ==> xs[i] in r
    ensures (forall i :: 0 <= i < |xs| ==> !keep(xs[i])) <==> r == []
  {
    if |xs| == 0 then []
    else
      var rest := Select(xs[1..], keep);
      assert forall i :: 1 <= i < |xs| ==> xs[i] == xs[1..][i - 1];
      if keep(xs[0]) then [xs[0]] + rest else rest
  }

  /** Selection keeps multiplicity: a kept value occurs in the result exactly
      as often as in `xs`, a dropped one not at all. */
  lemma {:induction false} SelectCounts<A>(xs: seq<A>, keep: A -> bool, a: A)
    ensures multiset(Select(xs, keep))[a] == if keep(a) then multiset(xs)[a] else 0
  {
    if |xs| > 0 {
      var rest := Select(xs[1..], keep);
      SelectCounts(xs[1..], keep, a);
      assert xs == [xs[0]] + xs[1..];
      assert multiset(xs)[a] == multiset{xs[0]}[a] + multiset(xs[1..])[a];
      if keep(xs[0]) {
        assert Select(xs, keep) == [xs[0]] + rest;
        assert multiset(Select(xs, keep))[a] == multiset{xs[0]}[a] + multiset(rest)[a];
      } else {
        assert Select(xs, keep) == rest;
      }
    }
  }
}
