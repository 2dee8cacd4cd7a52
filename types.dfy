/** Machine-level vocabulary of the keyboard-light controller. */
module Types {

  /** The C fixed-width unsigned integers, as bounded integers. Where the C code lets a
      value wrap or truncates it, the model reduces it explicitly. */
  type u8 = x: int | 0 <= x < 0x100
  type u16 = x: int | 0 <= x < 0x1_0000
  type u32 = x: int | 0 <= x < 0x1_0000_0000

  /** Keyboard variant (`mode`): single-colour backlight or four-zone RGB. */
  datatype Variant = BW | RGB

  /** The four colour zones, each addressed by a REGION_* constant. */
  datatype Region = Left | Center | Right | Extra

  /** One firmware request: the submethod id and its 32-bit argument. */
  datatype Call = Call(cmd: u8, arg: u32)

  /** The firmware's answer to one request: the status (0 is success) and the returned word. */
  datatype Reply = Reply(status: u32, value: u32)

  /** A control-surface or module-parameter string after the kernel's integer parser:
      either the number it denotes or the (negative) error the parser returned. */
  datatype Parsed<T> = Parsed(value: T) | Unparsable(errno: int)

  /** Errno value returned by the validators. */
  const EINVAL: int := 22

  function Max(a: int, b: int): int { if a < b then b else a }

  function Min(a: int, b: int): int { if a < b then a else b }

  /** Byte `k` of a word, byte 0 being the least significant; byte 0 is also C's
      implicit `(u8)` conversion of the word. */
  function Byte(x: u32, k: nat): u8
    requires k < 4
  {
    match k
    case 0 => x % 0x100
    case 1 => x / 0x100 % 0x100
    case 2 => x / 0x100 / 0x100 % 0x100
    case _ => x / 0x100 / 0x100 / 0x100
  }
}
