/** The coordinate mapper: a logical top-left-origin point of the 16x16 panel
    to the position of its LED on the serpentine strand. */
module Mapper {
  import opened Types

  /** Edge length of the panel. */
  const Side: nat := 16

  /** Number of LEDs on the strand, the length of the frame buffer. */
  const Cells: nat := Side * Side

  /** Both coordinates lie in [0, 15], bounds included. */
  predicate InBounds(p: Point) {
    0 <= p.x <= 15 && 0 <= p.y <= 15
  }

  /** `index_top_left`: the strand index of `p`, or `OutOfBounds`. The row is
      flipped (logical top row is the end of the strand) and the scan direction
      of a row follows the parity of the logical y. */
  function IndexTopLeft(p: Point): (r: Result<nat>)
    ensures r.Err? <==> !InBounds(p)
    ensures r.Ok? ==> r.value < Cells
  {
    if !(0 <= p.x <= 15) || !(0 <= p.y <= 15) then
      Err(OutOfBounds)
    else
      var x := p.x as int;
      var y := p.y as int;
      Ok((15 - y) * 16 + if y % 2 == 1 then x else 15 - x)
  }

  /** The logical point wired at strand position `i`: the inverse of the map. */
  function PointAt(i: nat): (p: Point)
    requires i < Cells
    ensures InBounds(p)
  {
    var y := 15 - i / 16;
    var col := i % 16;
    Point((if y % 2 == 1 then col else 15 - col) as i32, y as i32)
  }

  /** Every strand position is reached from the point wired there. */
  lemma IndexOfPointAt(i: nat)
    requires i < Cells
    ensures IndexTopLeft(PointAt(i)) == Ok(i)
  {
    var y := 15 - i / 16;
    assert i == (15 - y) * 16 + i % 16;
  }

  /** Mapping an in-bounds point and mapping back gives the point again. */
  lemma PointAtOfIndex(p: Point)
    requires InBounds(p)
    ensures IndexTopLeft(p).Ok? && PointAt(IndexTopLeft(p).value) == p
  {
    var x, y := p.x as int, p.y as int;
    var col := if y % 2 == 1 then x else 15 - x;
    DivMod16(15 - y, col);
  }

  lemma DivMod16(q: int, c: int)
    requires 0 <= q && 0 <= c < 16
    ensures (q * 16 + c) / 16 == q && (q * 16 + c) % 16 == c
  {
  }

  /** No two in-bounds points share an LED. */
  lemma IndexInjective(p: Point, q: Point)
    requires InBounds(p) && InBounds(q)
    requires IndexTopLeft(p) == IndexTopLeft(q)
    ensures p == q
  {
    PointAtOfIndex(p);
    PointAtOfIndex(q);
  }

  /** Every LED is the image of exactly one in-bounds point. */
  lemma IndexBijective(i: nat)
    requires i < Cells
    ensures exists p :: InBounds(p) && IndexTopLeft(p) == Ok(i)
    ensures forall p :: InBounds(p) && IndexTopLeft(p) == Ok(i) ==> p == PointAt(i)
  {
    IndexOfPointAt(i);
    forall p | InBounds(p) && IndexTopLeft(p) == Ok(i)
      ensures p == PointAt(i)
    {
      PointAtOfIndex(p);
    }
  }

  /** The four corners of the panel. */
  lemma Corners()
    ensures IndexTopLeft(Point(0, 0)) == Ok(255)
    ensures IndexTopLeft(Point(15, 0)) == Ok(240)
    ensures IndexTopLeft(Point(0, 15)) == Ok(0)
    ensures IndexTopLeft(Point(15, 15)) == Ok(15)
  {
  }

  /** Serpentine wiring: consecutive LEDs on the strand are neighbours on the
      panel (same row, adjacent columns, or same column, adjacent rows). */
  lemma StrandAdjacent(i: nat)
    requires i + 1 < Cells
    ensures var p, q := PointAt(i), PointAt(i + 1);
      (p.y == q.y && (p.x - q.x == 1 || q.x - p.x == 1)) ||
      (p.x == q.x && p.y - q.y == 1)
  {
    var r, c := i / 16, i % 16;
    if c < 15 {
      assert (i + 1) / 16 == r && (i + 1) % 16 == c + 1;
    } else {
      assert (i + 1) / 16 == r + 1 && (i + 1) % 16 == 0;
    }
  }
}
