/** Value types shared by the coordinate mapper and the pixel surface: the
    graphics library's points, sizes, colours and pixels, the LED driver's
    colour cell, and the single drawing error. */
module Types {

  /** Signed 32-bit integer, the coordinate type of a graphics `Point`. */
  newtype i32 = x: int | -0x8000_0000 <= x < 0x8000_0000

  /** Unsigned 8-bit colour channel. */
  newtype byte = x: int | 0 <= x < 0x100

  /** A logical point, origin top-left, x to the right, y downwards. */
  datatype Point = Point(x: i32, y: i32)

  /** Width and height reported by a drawing surface. */
  datatype Size = Size(width: nat, height: nat)

  /** A 24-bit colour as the graphics library hands it to a surface. */
  datatype Rgb888 = Rgb888(r: byte, g: byte, b: byte)

  /** One cell of the LED strand, as the LED driver transmits it. */
  datatype RGB8 = RGB8(r: byte, g: byte, b: byte)

  /** `RGB8::default()`: every channel off. */
  const Off: RGB8 := RGB8(0, 0, 0)

  /** A coloured point produced by a drawing primitive. */
  datatype Pixel = Pixel(point: Point, color: Rgb888)

  /** The only error a surface write can report. */
  datatype DrawError = OutOfBounds

  /** A value or a drawing error; supports `:-`, the counterpart of `?`. */
  datatype Result<T> = Ok(value: T) | Err(error: DrawError) {
    predicate IsFailure() { Err? }

    function PropagateFailure<U>(): Result<U>
      requires Err?
    {
      Err(error)
    }

    function Extract(): T
      requires Ok?
    {
      value
    }
  }

  /** Copies the three channels of a graphics colour into an LED cell. */
  function ToRgb8(c: Rgb888): (cell: RGB8) {
    RGB8(c.r, c.g, c.b)
  }
}
