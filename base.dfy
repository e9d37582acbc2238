/** Shared value types: an optional value (JavaScript's `null`/`undefined`
    versus a present value) and the byte type of digests and encoders. */
module Base {

  datatype Option<+T> = None | Some(value: T)

  /** An unsigned 8-bit value, as held in a `Uint8Array`. */
  type byte = x: int | 0 <= x < 256

  /** A timestamp in milliseconds since the epoch (`Date.getTime()`). */
  type Millis = int
}
