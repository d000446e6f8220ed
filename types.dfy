/** Machine-level types of the joystick widget: the C record stores its
    identifier and radii as `uint8_t` and the callback receives `int16_t`
    coordinates, so the conversions into those types are written out. */
module Types {

  /** A possibly absent value: a NULL pointer, or no active input device. */
  datatype Option<T> = None | Some(value: T)

  /** The C type `uint8_t`. */
  newtype uint8 = n: int | 0 <= n < 256

  /** Conversion of an `int` into `uint8_t`: C reduces the value modulo 256. */
  function Narrow8(v: int): (r: uint8)
    ensures (v - r as int) % 256 == 0
    ensures 0 <= v < 256 ==> r as int == v
  {
    (v % 256) as uint8
  }

  /** The range of the C type `int16_t`. */
  predicate InInt16(v: int) {
    -32768 <= v < 32768
  }

  /** Conversion of an `int32_t` argument into an `int16_t` parameter, as
      two's-complement compilers perform it: the value modulo 2^16, brought
      into the signed range. */
  function ToInt16(v: int): (r: int)
    ensures InInt16(r)
    ensures (v - r) % 65536 == 0
    ensures InInt16(v) ==> r == v
  {
    (v + 32768) % 65536 - 32768
  }
}
