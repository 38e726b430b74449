/**
 * What the two Kinect viewers share: machine integer ranges, the LED states
 * and tilt range of libfreenect.
 */
module Types {

  /** An unsigned 8-bit value (`uint8_t`). */
  type Byte = x: int | 0 <= x < 0x100

  /** An unsigned 16-bit value (`uint16_t`). */
  type U16 = x: int | 0 <= x < 0x1_0000

  /** The C conversion of an `int` to `uint16_t`: reduction modulo 2^16. */
  function ToU16(x: int): (r: U16)
    ensures 0 <= x < 0x1_0000 ==> r == x
    ensures (x - r) % 0x1_0000 == 0
  {
    x % 0x1_0000
  }

  /** libfreenect's LED states. */
  datatype Led = LedOff | LedGreen | LedRed | LedYellow | LedBlinkGreen | LedBlinkRedYellow

  /** Both viewers keep the tilt angle within +-30 degrees. */
  const MaxTilt := 30
}
