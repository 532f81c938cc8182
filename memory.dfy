/**
 * Machine words and the abstract contents of a block's payload.
 * The target is a 32-bit microcontroller, so pointers and size_t are 32 bits.
 */
module Memory {
  datatype Option<+T> = None | Some(value: T)

  const PTR_BITS: nat := 32

  /** uintptr_t: the bits of a pointer read as an unsigned integer. */
  type uintptr = w: int | 0 <= w < 0x1_0000_0000

  /** A non-NULL pointer. */
  type Address = a: int | 0 < a < 0x1_0000_0000 witness 1

  /**
   * The `user_data` argument of a constructor. C passes one `const void *`;
   * callers put either an integer in it (a size, a number, NULL) or the
   * address of readable memory.
   */
  datatype UserArg =
    | Word(w: uintptr)
    | Ptr(addr: Address, bytes: seq<bv8>)
  {
    /** The argument's bits, as `(uintptr_t)user_data` reads them. */
    function Bits(): uintptr {
      match this
      case Word(w) => w
      case Ptr(a, _) => a
    }
  }

  /**
   * What a payload holds, as far as the core writes it. `Uninit` is memory
   * exactly as malloc returned it; `Bytes(p)` says the first |p| bytes are p.
   */
  datatype Payload =
    | Uninit
    | Bytes(prefix: seq<bv8>)
    | Unsigned(u: nat)
    | Signed(s: int)
    | Boolean(b: bool)
    | Pointer(p: UserArg)
    | AdcContext(gpio: seq<uintptr>, temp: nat)
}
