/** Machine words of the Go program, and Option. */
module Words {
  type Byte = x: int | 0 <= x < 0x100
  type U16 = x: int | 0 <= x < 0x1_0000
  type U32 = x: int | 0 <= x < 0x1_0000_0000

  datatype Option<+T> = None | Some(value: T)

  /** Conversion of an arbitrary sum or difference to `uint16`. */
  function Wrap16(x: int): U16 {
    x % 0x1_0000
  }

  /** Conversion of an arbitrary sum or difference to `uint32`. */
  function Wrap32(x: int): U32 {
    x % 0x1_0000_0000
  }

  function Min(a: int, b: int): int {
    if a <= b then a else b
  }

  /** Go's `/` on signed integers truncates toward zero; Dafny's does not. */
  function Quot(a: int, b: int): int
    requires b > 0
  {
    if a >= 0 then a / b else -(-a / b)
  }
}
