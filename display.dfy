/** The pixel surface: an owned buffer of 256 LED cells in strand order, the
    drawing contract that writes pixel streams into it, and the read that hands
    the whole buffer to the LED writer. */
module Display {
  import opened Types
  import opened Mapper

  /** What a pixel stream does to a buffer: the returned status and the cells. */
  datatype Outcome = Outcome(result: Result<()>, cells: seq<RGB8>)

  /** True when every pixel of `data` lies on the panel. */
  predicate AllInBounds(data: seq<Pixel>) {
    forall j :: 0 <= j < |data| ==> InBounds(data[j].point)
  }

  /** `draw_iter` on values: pixels are written in order, each into the cell its
      point maps to; the first pixel off the panel stops the stream with
      `OutOfBounds`, keeping the writes made before it. */
  function Draw(cells: seq<RGB8>, data: seq<Pixel>): (o: Outcome)
    requires |cells| == Cells
    ensures |o.cells| == Cells
    ensures o.result == if AllInBounds(data) then Ok(()) else Err(OutOfBounds)
    decreases |data|
  {
    if data == [] then
      Outcome(Ok(()), cells)
    else
      match IndexTopLeft(data[0].point)
      case Err(e) => Outcome(Err(e), cells)
      case Ok(i) =>
        var rest := Draw(cells[i := ToRgb8(data[0].color)], data[1..]);
        assert AllInBounds(data) <==> AllInBounds(data[1..]) by {
          assert forall j :: 0 < j < |data| ==> data[j] == data[1..][j - 1];
        }
        rest
  }

  /** The first pixel off the panel aborts the stream: the result is the
      error together with exactly the cells written by the pixels before it. */
  lemma {:induction false} DrawStopsAtFirstError(cells: seq<RGB8>, data: seq<Pixel>, k: nat)
    requires |cells| == Cells
    requires k < |data| && !InBounds(data[k].point)
    requires forall j :: 0 <= j < k ==> InBounds(data[j].point)
    ensures Draw(cells, data) == Outcome(Err(OutOfBounds), Draw(cells, data[..k]).cells)
    decreases k
  {
    if k > 0 {
      var i := IndexTopLeft(data[0].point).value;
      assert data[1..][..k - 1] == data[..k][1..];
      DrawStopsAtFirstError(cells[i := ToRgb8(data[0].color)], data[1..], k - 1);
    }
  }

  /** A cell that no pixel of the stream maps to keeps its colour, whether or
      not the stream is aborted. */
  lemma {:induction false} DrawUntouched(cells: seq<RGB8>, data: seq<Pixel>, i: nat)
    requires |cells| == Cells && i < Cells
    requires forall j :: 0 <= j < |data| ==> IndexTopLeft(data[j].point) != Ok(i)
    ensures Draw(cells, data).cells[i] == cells[i]
    decreases |data|
  {
    if data != [] && InBounds(data[0].point) {
      var n := IndexTopLeft(data[0].point).value;
      assert forall j :: 0 <= j < |data| - 1 ==> data[1..][j] == data[j + 1];
      DrawUntouched(cells[n := ToRgb8(data[0].color)], data[1..], i);
    }
  }

  /** Last write wins: a pixel that is reached (no earlier pixel is off the
      panel) and whose cell no later pixel targets leaves its colour there. */
  lemma {:induction false} DrawLastWins(cells: seq<RGB8>, data: seq<Pixel>, j: nat)
    requires |cells| == Cells
    requires j < |data| && forall k :: 0 <= k <= j ==> InBounds(data[k].point)
    requires forall k :: j < k < |data| ==> IndexTopLeft(data[k].point) != IndexTopLeft(data[j].point)
    ensures Draw(cells, data).cells[IndexTopLeft(data[j].point).value] == ToRgb8(data[j].color)
    decreases j
  {
    var n := IndexTopLeft(data[0].point).value;
    var next := cells[n := ToRgb8(data[0].color)];
    assert forall k :: 0 <= k < |data| - 1 ==> data[1..][k] == data[k + 1];
    if j == 0 {
      DrawUntouched(next, data[1..], n);
    } else {
      DrawLastWins(next, data[1..], j - 1);
    }
  }

  /** A stream of one colour that stays on the panel paints every cell it
      targets with that colour. */
  lemma {:induction false} DrawUniform(cells: seq<RGB8>, data: seq<Pixel>, color: Rgb888, j: nat)
    requires |cells| == Cells
    requires AllInBounds(data)
    requires forall k :: 0 <= k < |data| ==> data[k].color == color
    requires j < |data|
    ensures Draw(cells, data).cells[IndexTopLeft(data[j].point).value] == ToRgb8(color)
    decreases |data| - j
  {
    var n := IndexTopLeft(data[j].point).value;
    if k :| j < k < |data| && IndexTopLeft(data[k].point) == Ok(n) {
      DrawUniform(cells, data, color, k);
    } else {
      DrawLastWins(cells, data, j);
    }
  }

  /** The points of the panel's bounding box, row by row, each with `color`:
      the stream a whole-surface fill sends to `draw_iter`. */
  function FillPixels(color: Rgb888): (data: seq<Pixel>)
    ensures |data| == Cells && AllInBounds(data)
  {
    seq(Cells, k requires 0 <= k < Cells => Pixel(Point((k % 16) as i32, (k / 16) as i32), color))
  }

  /** Filling the whole surface succeeds and leaves every cell `color`,
      whatever the buffer held before. */
  lemma ClearFillsEveryCell(cells: seq<RGB8>, color: Rgb888)
    requires |cells| == Cells
    ensures Draw(cells, FillPixels(color)) == Outcome(Ok(()), seq(Cells, _ => ToRgb8(color)))
  {
    var data := FillPixels(color);
    var after := Draw(cells, data).cells;
    forall i | 0 <= i < Cells
      ensures after[i] == ToRgb8(color)
    {
      var p := PointAt(i);
      var k := (p.y as int) * 16 + p.x as int;
      DivMod16(p.y as int, p.x as int);
      assert data[k].point == p;
      IndexOfPointAt(i);
      DrawUniform(cells, data, color, k);
    }
    assert after == seq(Cells, _ => ToRgb8(color));
  }

  /** Clearing twice leaves the same buffer as clearing once. */
  lemma ClearIdempotent(cells: seq<RGB8>, color: Rgb888)
    requires |cells| == Cells
    ensures Draw(Draw(cells, FillPixels(color)).cells, FillPixels(color)) == Draw(cells, FillPixels(color))
  {
    ClearFillsEveryCell(cells, color);
    ClearFillsEveryCell(Draw(cells, FillPixels(color)).cells, color);
  }

  /** The LED panel surface; the LED writer it owns is not part of this model. */
  class LedDisplay {
    /** The colour of every LED, in strand order. */
    const frameBuffer: array<RGB8>

    ghost predicate Valid() {
      frameBuffer.Length == Cells
    }

    /** `new`: a buffer of 256 cells, all off. */
    constructor ()
      ensures Valid() && fresh(frameBuffer)
      ensures frameBuffer[..] == seq(Cells, _ => Off)
    {
      frameBuffer := new RGB8[Cells](_ => Off);
    }

    /** `size`: always 16x16, and exactly the points the mapper accepts. */
    function Size(): (s: Types.Size)
      ensures s.width * s.height == Cells
      ensures forall p :: InBounds(p) <==> 0 <= p.x as int < s.width && 0 <= p.y as int < s.height
    {
      Types.Size(16, 16)
    }

    /** `flush`: the whole buffer, in strand order, as handed to the writer;
        the buffer is left unchanged and the writer's status is dropped. */
    method Flush() returns (frame: seq<RGB8>)
      requires Valid()
      ensures |frame| == Cells
      ensures forall i :: 0 <= i < Cells ==> frame[i] == frameBuffer[i]
    {
      frame := frameBuffer[..];
    }

    /** `draw_iter`: writes the stream into the buffer in order, stopping at the
        first pixel off the panel. */
    method DrawIter(data: seq<Pixel>) returns (res: Result<()>)
      requires Valid()
      modifies frameBuffer
      ensures res == Draw(old(frameBuffer[..]), data).result
      ensures frameBuffer[..] == Draw(old(frameBuffer[..]), data).cells
    {
      var k := 0;
      while k < |data|
        invariant k <= |data|
        invariant Draw(old(frameBuffer[..]), data) == Draw(frameBuffer[..], data[k..])
      {
        var Pixel(point, color) := data[k];
        var idx :- IndexTopLeft(point);
        assert data[k..][1..] == data[k + 1..];
        frameBuffer[idx] := ToRgb8(color);
        k := k + 1;
      }
      return Ok(());
    }
  }

  /** A client of the surface: one pixel at the top-left corner, then one off
      the panel, each followed by a flush. */
  method DrawTwoPixels(red: Rgb888, white: Rgb888)
  {
    var display := new LedDisplay();
    var r := display.DrawIter([Pixel(Point(0, 0), red)]);
    assert r == Ok(());
    var frame := display.Flush();
    assert frame[255] == ToRgb8(red);
    assert frame[0] == Off;

    r := display.DrawIter([Pixel(Point(20, 5), white)]);
    assert r == Err(OutOfBounds);
    var again := display.Flush();
    assert again == frame;
  }
}
