/** Types shared by the three interrupt-driven I2C examples. */
module I2cTypes {

  /** The C type `uint8_t`. */
  newtype uint8 = x: int | 0 <= x < 256

  /** A 7-bit I2C slave address. */
  type Address = x: int | 0 <= x < 128

  /** `b + k` computed in `uint8_t`, that is, modulo 256. */
  function Add8(b: uint8, k: nat): uint8 {
    ((b as int + k) % 256) as uint8
  }

  /** The post-increment `b++` on a `uint8_t`: 255 wraps to 0. */
  function Inc8(b: uint8): uint8 {
    Add8(b, 1)
  }

  lemma {:induction false} Add8Succ(b: uint8, k: nat)
    ensures Add8(Inc8(b), k) == Add8(b, k + 1)
  {
  }

  lemma {:induction false} Add8Add(b: uint8, k: nat, l: nat)
    ensures Add8(Add8(b, k), l) == Add8(b, k + l)
  {
  }
}
