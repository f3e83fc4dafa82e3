/** The state of the demo animation: a circle that bounces horizontally
    between two columns, one column per frame. */
module FrameLoop {
  import opened Types
  import opened Mapper

  /** The two loop variables: the circle's left column and its direction. */
  datatype Bounce = Bounce(circleX: int, circleMove: int)

  /** The values before the first frame. */
  const Start: Bounce := Bounce(1, 1)

  /** The column stays in [1, 10] and the direction is a unit step. */
  predicate Inv(s: Bounce) {
    1 <= s.circleX <= 10 && (s.circleMove == 1 || s.circleMove == -1)
  }

  /** One frame's update: turn right at or left of column 1, turn left at or
      right of column 10, then move. */
  function Step(s: Bounce): (t: Bounce)
    ensures Inv(s) ==> Inv(t)
    ensures s.circleX <= 1 ==> t.circleMove == 1
    ensures 10 <= s.circleX ==> t.circleMove == -1
  {
    var m := if s.circleX <= 1 then 1 else if s.circleX >= 10 then -1 else s.circleMove;
    Bounce(s.circleX + m, m)
  }

  /** The state after `n` frames, starting from (1, 1); the invariant holds
      before and after every frame. */
  function Frames(n: nat): (s: Bounce)
    ensures Inv(s)
  {
    if n == 0 then Start else Step(Frames(n - 1))
  }

  /** From the first frame on, the circle sweeps right from column 2 to 10 in
      9 frames, then left from 9 to 1 in 9 frames, and so on. */
  lemma {:induction false} FramesClosedForm(n: nat)
    requires n >= 1
    ensures var r := (n - 1) % 18;
      Frames(n) == if r < 9 then Bounce(r + 2, 1) else Bounce(18 - r, -1)
  {
    if n > 1 {
      FramesClosedForm(n - 1);
      var q := (n - 2) % 18;
      assert (n - 1) % 18 == if q == 17 then 0 else q + 1;
    }
  }

  /** The motion repeats with a period of 18 frames. */
  lemma FramesPeriodic(n: nat)
    requires n >= 1
    ensures Frames(n + 18) == Frames(n)
  {
    FramesClosedForm(n);
    FramesClosedForm(n + 18);
    var q, r := (n - 1) / 18, (n - 1) % 18;
    assert n + 18 - 1 == (q + 1) * 18 + r;
    assert (n + 18 - 1) % 18 == r;
  }

  /** The circle of diameter 5 whose bounding box starts at (circleX, 4) in
      any frame stays on the panel, so, assuming the rasteriser stays inside
      that bounding box, drawing it never reaches the error path of the
      surface. */
  lemma CircleBoxInBounds(n: nat, dx: int, dy: int)
    requires 0 <= dx < 5 && 0 <= dy < 5
    ensures var x := Frames(n).circleX + dx;
      -0x8000_0000 <= x < 0x8000_0000 && InBounds(Point(x as i32, (4 + dy) as i32))
  {
  }

  /** The frame loop run for `frames` frames, returning the column at which
      each frame draws the circle. */
  method Animate(frames: nat) returns (xs: seq<int>)
    ensures |xs| == frames
    ensures forall k :: 0 <= k < frames ==> xs[k] == Frames(k + 1).circleX
    ensures forall k :: 0 <= k < frames ==> 1 <= xs[k] <= 10
  {
    var circleX, circleMove := 1, 1;
    xs := [];
    while |xs| < frames
      invariant |xs| <= frames
      invariant Bounce(circleX, circleMove) == Frames(|xs|)
      invariant Inv(Bounce(circleX, circleMove))
      invariant forall k :: 0 <= k < |xs| ==> xs[k] == Frames(k + 1).circleX
      invariant forall k :: 0 <= k < |xs| ==> 1 <= xs[k] <= 10
    {
      if circleX <= 1 {
        circleMove := 1;
      } else if circleX >= 10 {
        circleMove := -1;
      }
      circleX := circleX + circleMove;
      xs := xs + [circleX];
    }
  }
}
