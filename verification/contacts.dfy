/** The proximity join (`close_contacts`): all pairs of two collections whose
    distance lies in the half-open window (cutoffLow, cutoff], emitted in
    row-major order of the distance matrix. */
module Contacts {
  import opened Geometry

  /** The contact window: the lower bound is exclusive, the upper inclusive. */
  predicate InWindow(d: real, cutoffLow: real, cutoff: real) {
    cutoffLow < d <= cutoff
  }

  /** Row-major order on index pairs: by row, then by column. */
  predicate Before(p: (nat, nat), q: (nat, nat)) {
    p.0 < q.0 || (p.0 == q.0 && p.1 < q.1)
  }

  /** (i, j) is at or after (row, col) in row-major order. */
  predicate AtOrAfter(i: nat, j: nat, row: nat, col: nat) {
    row < i || (row == i && col <= j)
  }

  /** The candidate pair (i, j) is in the window. */
  predicate Hit(xs: seq<Point>, ys: seq<Point>, dist: (Point, Point) -> real,
                cutoffLow: real, cutoff: real, i: nat, j: nat)
    requires i < |xs| && j < |ys|
  {
    InWindow(dist(xs[i], ys[j]), cutoffLow, cutoff)
  }

  /** Strictly increasing in row-major order, hence free of repetitions. */
  predicate RowMajorSorted(r: seq<(nat, nat)>) {
    forall a, b :: 0 <= a < b < |r| ==> Before(r[a], r[b])
  }

  /** Walk the distance matrix from cell (row, col) to its end. */
  function Scan(xs: seq<Point>, ys: seq<Point>, dist: (Point, Point) -> real,
                cutoffLow: real, cutoff: real, row: nat, col: nat): (r: seq<(nat, nat)>)
    requires row <= |xs| && col <= |ys|
    ensures forall k :: 0 <= k < |r| ==>
              r[k].0 < |xs| && r[k].1 < |ys| && AtOrAfter(r[k].0, r[k].1, row, col)
              && Hit(xs, ys, dist, cutoffLow, cutoff, r[k].0, r[k].1)
    ensures RowMajorSorted(r)
    ensures forall i: nat, j: nat ::
              (i < |xs| && j < |ys| && AtOrAfter(i, j, row, col)
               && Hit(xs, ys, dist, cutoffLow, cutoff, i, j)) ==> (i, j) in r
    decreases |xs| - row, |ys| - col
  {
    if row == |xs| then []
    else if col == |ys| then Scan(xs, ys, dist, cutoffLow, cutoff, row + 1, 0)
    else
      var rest := Scan(xs, ys, dist, cutoffLow, cutoff, row, col + 1);
      if Hit(xs, ys, dist, cutoffLow, cutoff, row, col) then [(row, col)] + rest else rest
  }

  /** The index pairs `close_contacts` selects. The guard tests the first
      collection twice and never the second; an empty second collection still
      yields no pair, because the matrix walk finds no cell. */
  function ContactIndices(xs: seq<Point>, ys: seq<Point>, dist: (Point, Point) -> real,
                          cutoffLow: real, cutoff: real): (r: seq<(nat, nat)>)
    ensures forall k :: 0 <= k < |r| ==>
              r[k].0 < |xs| && r[k].1 < |ys| && Hit(xs, ys, dist, cutoffLow, cutoff, r[k].0, r[k].1)
    ensures forall i: nat, j: nat :: i < |xs| && j < |ys| && Hit(xs, ys, dist, cutoffLow, cutoff, i, j)
              ==> (i, j) in r
    ensures RowMajorSorted(r)
    ensures |xs| == 0 || |ys| == 0 ==> r == []
  {
    if |xs| > 0 && |xs| > 0 then
      var r := Scan(xs, ys, dist, cutoffLow, cutoff, 0, 0);
      assert |r| > 0 ==> r[0].1 < |ys|;
      r
    else []
  }

  /** The positions a column of records holds (`x[x_column]`). */
  function Positions<A>(xs: seq<A>, pos: A -> Point): (r: seq<Point>)
    ensures |r| == |xs|
    ensures forall i :: 0 <= i < |xs| ==> r[i] == pos(xs[i])
  {
    seq(|xs|, i requires 0 <= i < |xs| => pos(xs[i]))
  }

  /** Some position of the aligned sequences pairs `a` with `b`. */
  predicate Reports<A(==), B(==)>(first: seq<A>, second: seq<B>, a: A, b: B) {
    exists k :: 0 <= k < |first| && k < |second| && first[k] == a && second[k] == b
  }

  /** Two aligned sequences: entry k of `first` is paired with entry k of `second`. */
  datatype Pairs<A, B> = Pairs(first: seq<A>, second: seq<B>)

  /** `close_contacts(x, y, cutoff, x_column, y_column, cutoff_low)`: the records
      of every pair in the window, as two aligned sequences. */
  function CloseContacts<A(==), B(==)>(xs: seq<A>, ys: seq<B>, xPos: A -> Point, yPos: B -> Point,
                               dist: (Point, Point) -> real, cutoff: real, cutoffLow: real)
    : (r: Pairs<A, B>)
    ensures |r.first| == |r.second|
    ensures forall k :: 0 <= k < |r.first| ==>
              r.first[k] in xs && r.second[k] in ys
              && InWindow(dist(xPos(r.first[k]), yPos(r.second[k])), cutoffLow, cutoff)
    ensures var idx := ContactIndices(Positions(xs, xPos), Positions(ys, yPos), dist, cutoffLow, cutoff);
            |r.first| == |idx|
            && forall k :: 0 <= k < |idx| ==> r.first[k] == xs[idx[k].0] && r.second[k] == ys[idx[k].1]
    ensures forall a, b :: a in xs && b in ys && InWindow(dist(xPos(a), yPos(b)), cutoffLow, cutoff) ==>
              Reports(r.first, r.second, a, b)
    ensures |xs| == 0 || |ys| == 0 ==> r == Pairs([], [])
  {
    var idx := ContactIndices(Positions(xs, xPos), Positions(ys, yPos), dist, cutoffLow, cutoff);
    var r := Pairs(seq(|idx|, k requires 0 <= k < |idx| => xs[idx[k].0]),
                   seq(|idx|, k requires 0 <= k < |idx| => ys[idx[k].1]));
    assert forall a, b :: a in xs && b in ys && InWindow(dist(xPos(a), yPos(b)), cutoffLow, cutoff) ==>
             Reports(r.first, r.second, a, b) by {
      forall a, b | a in xs && b in ys && InWindow(dist(xPos(a), yPos(b)), cutoffLow, cutoff)
        ensures Reports(r.first, r.second, a, b)
      {
        var i :| 0 <= i < |xs| && xs[i] == a;
        var j :| 0 <= j < |ys| && ys[j] == b;
        assert Hit(Positions(xs, xPos), Positions(ys, yPos), dist, cutoffLow, cutoff, i, j);
        assert (i, j) in idx;
        var k :| 0 <= k < |idx| && idx[k] == (i, j);
        assert r.first[k] == a && r.second[k] == b;
      }
    }
    r
  }

  /** A pair exactly at the upper cutoff is reported; one exactly at the lower
      cutoff is not. */
  lemma CutoffBoundaries(xs: seq<Point>, ys: seq<Point>, dist: (Point, Point) -> real,
                         cutoffLow: real, cutoff: real, i: nat, j: nat)
    requires i < |xs| && j < |ys| && cutoffLow < cutoff
    ensures dist(xs[i], ys[j]) == cutoff ==> (i, j) in ContactIndices(xs, ys, dist, cutoffLow, cutoff)
    ensures dist(xs[i], ys[j]) == cutoffLow ==> (i, j) !in ContactIndices(xs, ys, dist, cutoffLow, cutoff)
  {
    var r := ContactIndices(xs, ys, dist, cutoffLow, cutoff);
    if (i, j) in r {
      var k :| 0 <= k < |r| && r[k] == (i, j);
      assert Hit(xs, ys, dist, cutoffLow, cutoff, i, j);
    }
  }

  /** Joining (ys, xs) reports exactly the swapped pairs of joining (xs, ys),
      as long as the distance does not depend on argument order. */
  lemma JoinCommutes(xs: seq<Point>, ys: seq<Point>, dist: (Point, Point) -> real,
                     cutoffLow: real, cutoff: real)
    requires forall p, q :: dist(p, q) == dist(q, p)
    ensures forall i: nat, j: nat ::
              (i, j) in ContactIndices(xs, ys, dist, cutoffLow, cutoff)
              <==> (j, i) in ContactIndices(ys, xs, dist, cutoffLow, cutoff)
  {
    var r := ContactIndices(xs, ys, dist, cutoffLow, cutoff);
    var s := ContactIndices(ys, xs, dist, cutoffLow, cutoff);
    forall i: nat, j: nat
      ensures (i, j) in r <==> (j, i) in s
    {
      if (i, j) in r {
        var k :| 0 <= k < |r| && r[k] == (i, j);
        assert Hit(ys, xs, dist, cutoffLow, cutoff, j, i);
      }
      if (j, i) in s {
        var k :| 0 <= k < |s| && s[k] == (j, i);
        assert Hit(xs, ys, dist, cutoffLow, cutoff, i, j);
      }
    }
  }

  /** The record-level join of a collection with another reports a pair
      exactly when the join the other way round reports it swapped, as long as
      the distance does not depend on argument order. */
  lemma CloseContactsCommute<A>(xs: seq<A>, ys: seq<A>, pos: A -> Point,
                                    dist: (Point, Point) -> real, cutoff: real, cutoffLow: real, a: A, b: A)
    requires forall p, q :: dist(p, q) == dist(q, p)
    ensures Reports(CloseContacts(xs, ys, pos, pos, dist, cutoff, cutoffLow).first,
                    CloseContacts(xs, ys, pos, pos, dist, cutoff, cutoffLow).second, a, b)
            <==> Reports(CloseContacts(ys, xs, pos, pos, dist, cutoff, cutoffLow).first,
                         CloseContacts(ys, xs, pos, pos, dist, cutoff, cutoffLow).second, b, a)
  {
    var forward := CloseContacts(xs, ys, pos, pos, dist, cutoff, cutoffLow);
    var backward := CloseContacts(ys, xs, pos, pos, dist, cutoff, cutoffLow);
    if Reports(forward.first, forward.second, a, b) {
      var k :| 0 <= k < |forward.first| && k < |forward.second| && forward.first[k] == a && forward.second[k] == b;
      assert dist(pos(b), pos(a)) == dist(pos(a), pos(b));
    }
    if Reports(backward.first, backward.second, b, a) {
      var k :| 0 <= k < |backward.first| && k < |backward.second| && backward.first[k] == b && backward.second[k] == a;
      assert dist(pos(a), pos(b)) == dist(pos(b), pos(a));
    }
  }

  /** A walk over a matrix with no cell in the window reports nothing. */
  lemma {:induction false} ScanWithoutHits(xs: seq<Point>, ys: seq<Point>, dist: (Point, Point) -> real,
                                           cutoffLow: real, cutoff: real, row: nat, col: nat)
    requires row <= |xs| && col <= |ys|
    requires forall i, j :: 0 <= i < |xs| && 0 <= j < |ys| ==> !InWindow(dist(xs[i], ys[j]), cutoffLow, cutoff)
    ensures Scan(xs, ys, dist, cutoffLow, cutoff, row, col) == []
    decreases |xs| - row, |ys| - col
  {
    if row == |xs| {
    } else if col == |ys| {
      ScanWithoutHits(xs, ys, dist, cutoffLow, cutoff, row + 1, 0);
    } else {
      ScanWithoutHits(xs, ys, dist, cutoffLow, cutoff, row, col + 1);
    }
  }

  /** When no record of `xs` is within the window of any record of `ys`, the
      join is empty. */
  lemma CloseContactsOutOfReach<A, B>(xs: seq<A>, ys: seq<B>, xPos: A -> Point, yPos: B -> Point,
                                      dist: (Point, Point) -> real, cutoff: real, cutoffLow: real)
    requires forall i, j :: 0 <= i < |xs| && 0 <= j < |ys| ==>
               !InWindow(dist(xPos(xs[i]), yPos(ys[j])), cutoffLow, cutoff)
    ensures CloseContacts(xs, ys, xPos, yPos, dist, cutoff, cutoffLow) == Pairs([], [])
  {
    ScanWithoutHits(Positions(xs, xPos), Positions(ys, yPos), dist, cutoffLow, cutoff, 0, 0);
  }
}
