# 16x16 serpentine LED matrix surface

A Dafny model of the drawing surface of a 16x16 WS2812 LED panel driven by an
Arduino Uno. The panel's LEDs form one strand wired in a serpentine pattern;
the surface `LedDisplay` lets a graphics library draw on it with
top-left-origin (x, y) coordinates. It owns a buffer of 256 colour cells in
strand order, maps each logical point to its strand position
(`index_top_left`), writes pixel streams into the buffer (`draw_iter`), reports
its size, and hands the whole buffer to the LED writer (`flush`). The model
also covers the demo's frame loop state: a circle whose column bounces between
1 and 10.

Files:

- `types.dfy` (module `Types`): points with signed 32-bit coordinates, sizes,
  the graphics colour `Rgb888`, the LED cell `RGB8`, pixels, the `OutOfBounds`
  error and a `Result` type that supports `:-`, Dafny's form of Rust's `?`.
- `mapper.dfy` (module `Mapper`): `IndexTopLeft`, its inverse `PointAt`, and
  the proofs that the map is a bijection from the 16x16 grid onto `[0, 256)`.
- `display.dfy` (module `Display`): the pure specification `Draw` of a pixel
  stream applied to a buffer, its lemmas, and the class `LedDisplay`, whose
  `DrawIter` loop writes into an `array` in place and is proved against `Draw`.
  A client method, `DrawTwoPixels`, draws a pixel at (0, 0) and one off the
  panel and shows, from the `DrawIter` and `Flush` contracts alone, that the
  first lands in cell 255 and the second changes nothing.
- `frame_loop.dfy` (module `FrameLoop`): the bounce step, its invariant and
  period, and the frame loop run over a finite number of frames.

Two facts about the code that the model keeps:

- Column direction. The scan direction of a row follows the parity of the
  logical `y` (`y` odd scans left to right), not the parity of the flipped
  row `15 - y`. So (0, 0) maps to 255 and (15, 15) maps to 15
  (`Mapper.Corners`).
- Error policy. `draw_iter` is not best-effort: the `?` at src/main.rs:88
  returns on the first out-of-bounds pixel and drops the rest of the stream.
  Writes made before that pixel stay (`Display.DrawStopsAtFirstError`).

## Model

| member | source | states |
|---|---|---|
| `Mapper.IndexTopLeft` | src/main.rs:50-60 | fails exactly when x or y lies outside [0, 15] (both bounds inclusive); otherwise returns an index below 256, so the buffer index is always in range |
| `Mapper.PointAt` | src/main.rs:58 | the inverse of the mapping: every strand index below 256 is wired to an in-bounds point |
| `Mapper.IndexOfPointAt` | src/main.rs:55-59 | mapping the point wired at index i gives back i: every index is reached |
| `Mapper.PointAtOfIndex` | src/main.rs:55-59 | an in-bounds point maps successfully, and its index leads back to the same point: no information is lost |
| `Mapper.IndexInjective` | src/main.rs:58 | two in-bounds points with the same index are equal |
| `Mapper.IndexBijective` | src/main.rs:58 | every index in [0, 256) is the image of exactly one in-bounds point |
| `Mapper.Corners` | src/main.rs:58 | (0,0) maps to 255, (15,0) to 240, (0,15) to 0 and (15,15) to 15 |
| `Mapper.StrandAdjacent` | src/main.rs:58 | consecutive strand positions are neighbouring cells of the panel: the serpentine wiring |
| `Display.Draw` | src/main.rs:83-93 | the buffer keeps its 256 cells; the stream yields `Ok(())` exactly when every pixel is on the panel and `Err(OutOfBounds)` otherwise |
| `Display.DrawStopsAtFirstError` | src/main.rs:88 | at the first off-panel pixel the result is `OutOfBounds` and the buffer holds exactly the writes of the pixels before it; that pixel and all later ones are not applied |
| `Display.DrawUntouched` | src/main.rs:87-92 | a cell that no pixel of the stream maps to keeps its old colour, aborted or not |
| `Display.DrawLastWins` | src/main.rs:87-92 | a pixel that is reached sets its cell to its colour unless a later pixel targets the same cell: the last write wins |
| `Display.DrawUniform` | src/main.rs:137 | an on-panel stream of one colour paints every cell it targets with that colour |
| `Display.FillPixels` | src/main.rs:137 | the stream of a whole-surface fill has 256 pixels, all on the panel |
| `Display.ClearFillsEveryCell` | src/main.rs:137 | filling the surface succeeds and leaves all 256 cells in the fill colour, whatever they held |
| `Display.ClearIdempotent` | src/main.rs:137 | clearing twice with one colour gives the same buffer as clearing once |
| `Display.LedDisplay.constructor` | src/main.rs:39-44 | a fresh buffer of 256 cells, every one `RGB8::default()`, that is (0, 0, 0) |
| `Display.LedDisplay.Size` | src/main.rs:67-69 | width times height is the buffer length, and a point lies inside the reported size exactly when the mapper accepts it; it reads no state |
| `Display.LedDisplay.Flush` | src/main.rs:46-48 | returns all 256 cells in index order and changes nothing; no error is reported |
| `Display.LedDisplay.DrawIter` | src/main.rs:83-93 | the loop's result and the new buffer are those of `Draw` on the old buffer, with an early return on the first error |
| `FrameLoop.Step` | src/main.rs:129-134 | keeps the column in [1, 10] and the direction in {-1, 1}; turns to +1 at column 1 or less and to -1 at column 10 or more |
| `FrameLoop.Frames` | src/main.rs:125-134 | the loop state after n frames from (1, 1); the column stays in [1, 10] and the direction in {-1, 1} before and after every frame |
| `FrameLoop.FramesClosedForm` | src/main.rs:125-134 | from frame 1 on, the circle sweeps right from column 2 to 10, then left from 9 to 1, in cycles of 18 frames |
| `FrameLoop.FramesPeriodic` | src/main.rs:125-134 | the state after n + 18 frames equals the state after n frames, for n at least 1 |
| `FrameLoop.CircleBoxInBounds` | src/main.rs:139 | the 5x5 bounding box of the circle drawn at (circle_x, 4) lies on the panel in every frame |
| `FrameLoop.Animate` | src/main.rs:125-139 | running the loop for n frames yields the columns of frames 1..n, each in [1, 10] |

## Left out

- The LED writer and its transmission (`SmartLedsWrite::write`, src/main.rs:47): a call into a hardware crate. `Flush` returns the sequence the writer would receive. The writer's result is discarded in the code, so nothing is lost.
- Hardware setup, serial output, SPI, the blocking WS2812 writer, `delay_ms` and the panic handler (src/main.rs:96-116, 144-146): I/O and foreign crates.
- Circle rasterisation and `PrimitiveStyleBuilder` (src/main.rs:118-123, 139-142): library code that is not part of this model. `FrameLoop.CircleBoxInBounds` only covers the circle's bounding box.
- `DrawTarget::clear` (src/main.rs:137): this is the graphics library's default and is not defined in this file. `Display.FillPixels`, `Display.ClearFillsEveryCell` and `Display.ClearIdempotent` model it as `draw_iter` over the 256 points of the bounding box, row by row. That is an assumption about the library, not behaviour taken from this code.
- `Rgb888` to `RGB8` conversion (src/main.rs:89): modelled only as copying the three channels (`Types.ToRgb8`).
- Pixel streams: the `IntoIterator` argument of `draw_iter` is modelled as a finite sequence. Laziness and infinite iterators are not modelled.
- The infinite frame loop (src/main.rs:128): `FrameLoop.Animate` runs it for a given number of frames and returns the circle's column in each frame. `circle_x` is an `i32`; the model uses unbounded integers because the invariant keeps it in [1, 10].
- The LED writer field of `LedDisplay` and the generic `Writer` parameter: not modelled, because only the transmission uses them.
