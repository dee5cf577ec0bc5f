/** The angular strictness classifier (`_check_angles`) and the angle bands the
    ring detectors use. */
module Angles {
  import opened Wrappers

  /** Ideal angles in degrees, indexed by hybridization code (`BASE_ANGLES`). */
  const BaseAngles: seq<real> := [0.0, 180.0, 120.0, 109.5, 90.0]

  /** The error `np.take` raises for a code outside the table. */
  datatype Failure = UnknownHybridization(code: int)

  /** Codes the lookup accepts: an index into the table, or a negative index
      counted from its end. */
  predicate KnownHybridization(h: int) {
    -|BaseAngles| <= h < |BaseAngles|
  }

  /** `np.take(BASE_ANGLES, h)`: negative codes wrap around once; any other
      out-of-range code is an error. */
  function IdealAngle(h: int): (r: Option<real>)
    ensures r.Some? <==> KnownHybridization(h)
    ensures 0 <= h < |BaseAngles| ==> r == Some(BaseAngles[h])
    ensures -|BaseAngles| <= h < 0 ==> r == Some(BaseAngles[|BaseAngles| + h])
    ensures r.Some? ==> 0.0 <= r.value <= 180.0
  {
    if 0 <= h < |BaseAngles| then Some(BaseAngles[h])
    else if -|BaseAngles| <= h < 0 then Some(BaseAngles[|BaseAngles| + h])
    else None
  }

  /** `np.nan_to_num` on an angle: NaN becomes 0. */
  function NanToNum(a: Option<real>): real {
    if a.Some? then a.value else 0.0
  }

  /** The open band around an ideal angle. */
  predicate InOpenBand(a: real, ideal: real, tol: real) {
    ideal - tol < a < ideal + tol
  }

  /** Reference meaning of the per-pair test: some neighbour slot's angle, NaN
      read as 0, lies strictly inside the band. */
  predicate SomeSlotInBand(angles: seq<Option<real>>, ideal: real, tol: real) {
    exists s :: 0 <= s < |angles| && InOpenBand(NanToNum(angles[s]), ideal, tol)
  }

  /** `.any(axis=-1)` over one pair's neighbour slots. */
  function AnyInBand(angles: seq<Option<real>>, ideal: real, tol: real): (r: bool)
    ensures r <==> SomeSlotInBand(angles, ideal, tol)
  {
    if |angles| == 0 then false
    else if InOpenBand(NanToNum(angles[0]), ideal, tol) then true
    else
      var rest := AnyInBand(angles[1..], ideal, tol);
      assert forall s :: 1 <= s < |angles| ==> angles[s] == angles[1..][s - 1];
      rest
  }

  /** Strictness of one side of one pair, or the lookup failure. */
  function StrictAt(angles: seq<Option<real>>, h: int, tol: real): (r: Result<bool, Failure>)
    ensures r.Err? <==> !KnownHybridization(h)
    ensures r.Err? ==> r.error == UnknownHybridization(h)
    ensures r.Ok? ==> (r.value <==> SomeSlotInBand(angles, IdealAngle(h).value, tol))
    ensures tol <= 0.0 ==> r != Ok(true)
  {
    match IdealAngle(h)
    case None => Err(UnknownHybridization(h))
    case Some(ideal) => Ok(AnyInBand(angles, ideal, tol))
  }

  /** `_check_angles(angles, hybridizations, tolerance)`: one flag per pair.
      The lookup covers every pair before any comparison, so one unknown code
      fails the whole call. */
  function CheckAngles(angles: seq<seq<Option<real>>>, hybs: seq<int>, tol: real)
    : (r: Result<seq<bool>, Failure>)
    requires |angles| == |hybs|
    ensures r.Ok? <==> forall k :: 0 <= k < |hybs| ==> KnownHybridization(hybs[k])
    ensures r.Err? ==> !KnownHybridization(r.error.code)
    ensures r.Ok? ==> |r.value| == |hybs|
    ensures r.Ok? ==> forall k :: 0 <= k < |hybs| ==>
              (r.value[k] <==> SomeSlotInBand(angles[k], IdealAngle(hybs[k]).value, tol))
  {
    if |hybs| == 0 then Ok([])
    else
      var first :- StrictAt(angles[0], hybs[0], tol);
      var rest :- CheckAngles(angles[1..], hybs[1..], tol);
      assert forall k :: 1 <= k < |hybs| ==> hybs[k] == hybs[1..][k - 1] && angles[k] == angles[1..][k - 1];
      Ok([first] + rest)
  }

  /** Widening the tolerance never withdraws strictness. */
  lemma {:induction false} ToleranceMonotone(angles: seq<Option<real>>, ideal: real, tol: real, tol': real)
    requires tol <= tol'
    requires AnyInBand(angles, ideal, tol)
    ensures AnyInBand(angles, ideal, tol')
  {
    var s :| 0 <= s < |angles| && InOpenBand(NanToNum(angles[s]), ideal, tol);
    assert InOpenBand(NanToNum(angles[s]), ideal, tol');
  }

  /** The same for whole pair sequences: a pair strict at `tol` stays strict at
      any larger tolerance. */
  lemma CheckAnglesMonotone(angles: seq<seq<Option<real>>>, hybs: seq<int>, tol: real, tol': real, k: nat)
    requires |angles| == |hybs| && tol <= tol' && k < |hybs|
    requires CheckAngles(angles, hybs, tol).Ok? && CheckAngles(angles, hybs, tol).value[k]
    ensures CheckAngles(angles, hybs, tol').Ok? && CheckAngles(angles, hybs, tol').value[k]
  {
    var ideal := IdealAngle(hybs[k]).value;
    ToleranceMonotone(angles[k], ideal, tol, tol');
  }

  /** A NaN slot counts as 0 degrees: for the code whose ideal angle is 0, an
      undefined angle alone makes the pair strict whenever the tolerance is
      positive. */
  lemma NanSlotMatchesZeroIdeal(angles: seq<Option<real>>, tol: real, s: nat)
    requires s < |angles| && angles[s] == None && tol > 0.0
    ensures StrictAt(angles, 0, tol) == Ok(true)
  {
    assert InOpenBand(NanToNum(angles[s]), BaseAngles[0], tol);
  }

  /** A NaN slot never matches any other code's ideal angle while the
      tolerance stays below that angle. */
  lemma NanSlotMissesNonZeroIdeal(h: int, tol: real)
    requires KnownHybridization(h) && IdealAngle(h).value > 0.0 && tol <= IdealAngle(h).value
    ensures StrictAt([None], h, tol) == Ok(false)
  {
  }

  /** Rings: near the normal axis, 0 or 180 degrees (`a > 180 - tol | a < tol`).
      A NaN angle fails every comparison. */
  predicate NearAxis(a: Option<real>, tol: real) {
    a.Some? && (a.value > 180.0 - tol || a.value < tol)
  }

  /** Rings: near 90 degrees (`90 - tol < a < 90 + tol`). */
  predicate NearPerpendicular(a: Option<real>, tol: real) {
    a.Some? && 90.0 - tol < a.value < 90.0 + tol
  }

  /** Up to 45 degrees of tolerance the two ring bands are disjoint. */
  lemma BandsDisjoint(a: Option<real>, tol: real)
    requires tol <= 45.0
    ensures !(NearAxis(a, tol) && NearPerpendicular(a, tol))
  {
  }
}
