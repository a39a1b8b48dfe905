/** Types that several components share. */
module Common {

  datatype Option<T> = None | Some(value: T)

  /** A 32-bit register or memory word. */
  type Word = w: int | 0 <= w < 0x1_0000_0000

  type Half = h: int | 0 <= h < 0x1_0000

  type Byte = b: int | 0 <= b < 0x100

  type Mac = m: int | 0 <= m < 0x1_0000_0000_0000
}
