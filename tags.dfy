/**
 * The type tags ("magic numbers") of the value system. The public header that
 * numbers them is not part of this model, so the numbering below is chosen;
 * only its shape matters: tag 0 is NULL, every tag is below MAGIC_COUNT, and a
 * tag fits the 16-bit `magic` field of a block header.
 */
module Tags {
  const MAGIC_NULL: nat := 0
  const MAGIC_APP: nat := 1
  const MAGIC_DATA: nat := 2
  const MAGIC_U8: nat := 3
  const MAGIC_U16: nat := 4
  const MAGIC_U32: nat := 5
  const MAGIC_U64: nat := 6
  const MAGIC_S8: nat := 7
  const MAGIC_S16: nat := 8
  const MAGIC_S32: nat := 9
  const MAGIC_S64: nat := 10
  const MAGIC_F32: nat := 11
  const MAGIC_F64: nat := 12
  const MAGIC_BOOL: nat := 13
  const MAGIC_CSTR: nat := 14
  const MAGIC_LIST: nat := 15
  const MAGIC_MAP: nat := 16
  const MAGIC_EVENT: nat := 17
  const MAGIC_MUTEX: nat := 18
  const MAGIC_TIMER: nat := 19
  const MAGIC_GPIO: nat := 20
  const MAGIC_SPI: nat := 21
  const MAGIC_ADC: nat := 22
  /** Number of slots of the descriptor table. */
  const MAGIC_COUNT: nat := 23

  /** Number of event types, i.e. callback slots per core (value chosen). */
  const EVENT_COUNT: nat := 8

  predicate IsUnsignedTag(magic: nat) {
    magic == MAGIC_U8 || magic == MAGIC_U16 || magic == MAGIC_U32 || magic == MAGIC_U64
  }

  predicate IsSignedTag(magic: nat) {
    magic == MAGIC_S8 || magic == MAGIC_S16 || magic == MAGIC_S32 || magic == MAGIC_S64
  }

  /** The tags whose values fuse_init_number can initialise. */
  predicate IsNumberTag(magic: nat) {
    IsUnsignedTag(magic) || IsSignedTag(magic) || magic == MAGIC_BOOL
  }
}
