/**
 * The value system's per-type descriptors, with the constructors, destructors
 * and renderers closed into tags, and what the built-in constructors and
 * renderers of fuse.c compute.
 */
module Value {
  import opened Tags
  import opened Memory

  /** Which `init` a descriptor carries. */
  datatype InitFn = NoInit | InitNumber | InitMemcpy | InitCStr | InitList | InitAdc | InitForeign
  /** Which `destroy` a descriptor carries. */
  datatype DestroyFn = NoDestroy | DestroyList | DestroyAdc | DestroyForeign
  /** Which `cstr`/`qstr` renderer a descriptor carries. */
  datatype RenderFn =
    | NoRender | CStrNull | QStrNull | QStrBool | QStrNumber | CStrCStr | QStrCStr
    | CStrData | QStrData | QStrList | AdcStr | RenderForeign

  /** struct fuse_value_desc */
  datatype Desc = Desc(size: nat, name: string, init: InitFn, destroy: DestroyFn, cstr: RenderFn, qstr: RenderFn)
  {
    predicate Registered() { name != "" }
  }

  /** A descriptor slot nothing has written. */
  const Unregistered := Desc(0, "", NoInit, NoDestroy, NoRender, NoRender)

  /** sizeof(struct fuse_list) and sizeof(fuse_map_t): their definitions are not part of this model. */
  const LIST_SIZE: nat := 16
  const MAP_SIZE: nat := 16
  /** sizeof(const char *) on the 32-bit target. */
  const CSTR_SIZE: nat := 4

  /** Width in bits of the number types. */
  function Width(magic: nat): nat {
    if magic == MAGIC_U8 || magic == MAGIC_S8 || magic == MAGIC_BOOL then 8
    else if magic == MAGIC_U16 || magic == MAGIC_S16 then 16
    else if magic == MAGIC_U32 || magic == MAGIC_S32 || magic == MAGIC_F32 then 32
    else if magic == MAGIC_U64 || magic == MAGIC_S64 || magic == MAGIC_F64 then 64
    else 0
  }

  /** The descriptors fuse_new registers, by tag. */
  function Builtin(magic: nat): (d: Desc)
    ensures d.init != InitAdc && d.destroy != DestroyAdc
    ensures d.Registered() ==> magic <= MAGIC_MAP
  {
    if magic == MAGIC_NULL then Desc(0, "NULL", NoInit, NoDestroy, CStrNull, QStrNull)
    else if magic == MAGIC_APP then Desc(0, "APP", NoInit, NoDestroy, NoRender, NoRender)
    else if magic == MAGIC_DATA then Desc(0, "DATA", InitMemcpy, NoDestroy, CStrData, QStrData)
    else if magic == MAGIC_U8 then Desc(1, "U8", InitNumber, NoDestroy, QStrNumber, QStrNumber)
    else if magic == MAGIC_U16 then Desc(2, "U16", InitNumber, NoDestroy, QStrNumber, QStrNumber)
    else if magic == MAGIC_U32 then Desc(4, "U32", InitNumber, NoDestroy, QStrNumber, QStrNumber)
    else if magic == MAGIC_U64 then Desc(8, "U64", InitNumber, NoDestroy, QStrNumber, QStrNumber)
    else if magic == MAGIC_S8 then Desc(1, "S8", InitNumber, NoDestroy, QStrNumber, QStrNumber)
    else if magic == MAGIC_S16 then Desc(2, "S16", InitNumber, NoDestroy, QStrNumber, QStrNumber)
    else if magic == MAGIC_S32 then Desc(4, "S32", InitNumber, NoDestroy, QStrNumber, QStrNumber)
    else if magic == MAGIC_S64 then Desc(8, "S64", InitNumber, NoDestroy, QStrNumber, QStrNumber)
    else if magic == MAGIC_F32 then Desc(4, "F32", InitMemcpy, NoDestroy, QStrNumber, QStrNumber)
    else if magic == MAGIC_F64 then Desc(8, "F64", InitMemcpy, NoDestroy, QStrNumber, QStrNumber)
    else if magic == MAGIC_BOOL then Desc(1, "BOOL", InitNumber, NoDestroy, QStrBool, QStrBool)
    else if magic == MAGIC_CSTR then Desc(CSTR_SIZE, "CSTR", InitCStr, NoDestroy, CStrCStr, QStrCStr)
    else if magic == MAGIC_LIST then Desc(LIST_SIZE, "LIST", InitList, DestroyList, QStrList, QStrList)
    else if magic == MAGIC_MAP then Desc(MAP_SIZE, "MAP", NoInit, NoDestroy, NoRender, NoRender)
    else Unregistered
  }

  /**
   * The built-in table is consistent: every number type is built by
   * fuse_init_number and sized by its width, DATA is variable-size, and
   * exactly the tags up to MAP are registered.
   */
  lemma BuiltinTable()
    ensures forall m: nat | IsNumberTag(m) :: Builtin(m).init == InitNumber && Builtin(m).size * 8 == Width(m)
    ensures Builtin(MAGIC_DATA).size == 0 && Builtin(MAGIC_DATA).init == InitMemcpy
    ensures forall m: nat :: Builtin(m).Registered() <==> m <= MAGIC_MAP
  {
  }

  /** Two's-complement reading of an n-bit pattern x, with half == 2^(n-1). */
  function Twos(x: int, half: nat): int
    requires 0 <= x < 2 * half
  {
    if x >= half then x - 2 * half else x
  }

  /** The range of an unsigned type: 2^width. */
  function UnsignedModulus(magic: nat): nat {
    if magic == MAGIC_U8 then 0x100
    else if magic == MAGIC_U16 then 0x1_0000
    else if magic == MAGIC_U32 then 0x1_0000_0000
    else 0x1_0000_0000_0000_0000
  }

  /**
   * Half the range a signed value can end up in. For S64 this is 2^31: the
   * argument goes through the 32-bit intptr_t first.
   */
  function SignedHalf(magic: nat): nat {
    if magic == MAGIC_S8 then 0x80
    else if magic == MAGIC_S16 then 0x8000
    else 0x8000_0000
  }

  /**
   * What fuse_init_number stores for tag `magic` and argument bits `w`, or
   * None where it returns false. Unsigned tags truncate `(uintptr_t)user_data`,
   * signed tags convert `(intptr_t)user_data` (wrapping, as the compiler does),
   * BOOL stores whether the argument is non-zero.
   */
  function StoredNumber(magic: nat, w: uintptr): (r: Option<Payload>)
    ensures r.Some? <==> IsNumberTag(magic)
  {
    if magic == MAGIC_U8 then Some(Unsigned(w % 0x100))
    else if magic == MAGIC_U16 then Some(Unsigned(w % 0x1_0000))
    else if magic == MAGIC_U32 then Some(Unsigned(w))
    else if magic == MAGIC_U64 then Some(Unsigned(w))
    else if magic == MAGIC_S8 then Some(Signed(Twos(w % 0x100, 0x80)))
    else if magic == MAGIC_S16 then Some(Signed(Twos(w % 0x1_0000, 0x8000)))
    else if magic == MAGIC_S32 then Some(Signed(Twos(w, 0x8000_0000)))
    else if magic == MAGIC_S64 then Some(Signed(Twos(w, 0x8000_0000)))
    else if magic == MAGIC_BOOL then Some(Boolean(w != 0))
    else None
  }

  /** An unsigned tag keeps the argument modulo the type's range. */
  lemma StoredUnsigned(magic: nat, w: uintptr)
    requires IsUnsignedTag(magic)
    ensures var r := StoredNumber(magic, w);
            r.Some? && r.value.Unsigned? && r.value.u < UnsignedModulus(magic)
            && (w - r.value.u) % UnsignedModulus(magic) == 0
  {
    if magic == MAGIC_U8 {
      ModOfDifference(w, 0x100);
    } else if magic == MAGIC_U16 {
      ModOfDifference(w, 0x1_0000);
    }
  }

  /** A signed tag keeps the value in its range congruent to the argument. */
  lemma StoredSigned(magic: nat, w: uintptr)
    requires IsSignedTag(magic)
    ensures var r := StoredNumber(magic, w);
            r.Some? && r.value.Signed? && -(SignedHalf(magic) as int) <= r.value.s < SignedHalf(magic)
            && (w - r.value.s) % (2 * SignedHalf(magic)) == 0
  {
    if magic == MAGIC_S8 {
      TwosCongruent(w, 0x80);
    } else if magic == MAGIC_S16 {
      TwosCongruent(w, 0x8000);
    } else {
      TwosCongruent(w, 0x8000_0000);
      assert w % 0x1_0000_0000 == w;
    }
  }

  /** BOOL keeps whether the argument is non-zero. */
  lemma StoredBool(w: uintptr)
    ensures StoredNumber(MAGIC_BOOL, w) == Some(Boolean(w != 0))
  {
  }

  lemma ModOfDifference(w: int, m: nat)
    requires m > 0
    ensures 0 <= w % m < m && (w - w % m) % m == 0
  {
    assert w - w % m == m * (w / m);
    MulMod(m, w / m);
  }

  lemma MulMod(m: nat, q: int)
    requires m > 0
    ensures (m * q) % m == 0
  {
    ModUnique(m * q, m, q, 0);
  }

  /** Euclidean remainders are unique. */
  lemma ModUnique(x: int, m: nat, q: int, r: int)
    requires m > 0 && 0 <= r < m && x == m * q + r
    ensures x % m == r
  {
    var q', r' := x / m, x % m;
    assert x == m * q' + r';
    MulDiff(m, q, q');
    assert m * (q - q') == r' - r;
    MulAwayFromZero(m, q - q');
  }

  lemma TwosCongruent(w: int, half: nat)
    requires half > 0
    ensures var x := w % (2 * half);
            0 <= x < 2 * half && -(half as int) <= Twos(x, half) < half
            && (w - Twos(x, half)) % (2 * half) == 0
  {
    var m := 2 * half;
    var x := w % m;
    ModOfDifference(w, m);
    if x >= half {
      assert w - Twos(x, half) == (w - x) + m;
      AddModulus(w - x, m);
    }
  }

  lemma AddModulus(y: int, m: nat)
    requires m > 0 && y % m == 0
    ensures (y + m) % m == 0
  {
    DivExact(y, m);
    assert y + m == m * (y / m + 1);
    MulMod(m, y / m + 1);
  }

  /**
   * The range-and-congruence contract of StoredNumber pins the stored value
   * down: two values in the same range of 2*half that agree modulo 2*half
   * are equal.
   */
  lemma SignedStoreUnique(w: int, s: int, t: int, half: nat)
    requires half > 0
    requires -(half as int) <= s < half && (w - s) % (2 * half) == 0
    requires -(half as int) <= t < half && (w - t) % (2 * half) == 0
    ensures s == t
  {
    var m := 2 * half;
    var q1, q2 := (w - s) / m, (w - t) / m;
    DivExact(w - s, m);
    DivExact(w - t, m);
    MulDiff(m, q1, q2);
    var d := q1 - q2;
    assert t - s == m * d;
    MulAwayFromZero(m, d);
  }

  lemma DivExact(x: int, m: nat)
    requires m > 0 && x % m == 0
    ensures x == m * (x / m)
  {
  }

  lemma MulDiff(m: int, a: int, b: int)
    ensures m * a - m * b == m * (a - b)
  {
  }

  lemma MulAwayFromZero(m: nat, d: int)
    requires m > 0
    ensures d >= 1 ==> m * d >= m
    ensures d <= -1 ==> m * d <= -(m as int)
  {
    if d >= 1 {
      assert m * d == m * (d - 1) + m;
    } else if d <= -1 {
      assert m * d == m * (d + 1) - m;
    }
  }

  /** An appender's output: what has been written and the next index. */
  datatype Sink = Sink(text: string, index: nat)
  {
    function Append(s: string): (r: Sink)
      ensures r.text == text + s && r.index == index + |s|
    {
      Sink(text + s, index + |s|)
    }
  }

  const TRUE_LITERAL := "true"
  const FALSE_LITERAL := "false"
  const NULL_JSON := "null"

  /** What fuse_qstr_bool (used for both renderings of BOOL) appends. */
  function BoolText(b: bool): string {
    if b then TRUE_LITERAL else FALSE_LITERAL
  }

  /** Reads a rendered boolean back. */
  function ParseBool(s: string): Option<bool> {
    if s == TRUE_LITERAL then Some(true) else if s == FALSE_LITERAL then Some(false) else None
  }

  /** Rendering a bool loses nothing: the literal reads back as the value. */
  lemma BoolTextRoundTrip(b: bool)
    ensures ParseBool(BoolText(b)) == Some(b)
    ensures BoolText(b) == TRUE_LITERAL || BoolText(b) == FALSE_LITERAL
  {
  }

  /** fuse_qstr_bool */
  function RenderBool(out: Sink, b: bool): (r: Sink)
    ensures r == out.Append(if b then TRUE_LITERAL else FALSE_LITERAL)
  {
    out.Append(BoolText(b))
  }

  /** fuse_qstr_null */
  function RenderNullJson(out: Sink): (r: Sink)
    ensures r.text == out.text + "null" && r.index == out.index + 4
  {
    out.Append(NULL_JSON)
  }

  const HEX_DIGITS := "0123456789ABCDEF"

  /** One byte as two upper-case hex digits, high nibble first. */
  function HexPair(b: bv8): (s: string)
    ensures |s| == 2 && s[0] in HEX_DIGITS && s[1] in HEX_DIGITS
  {
    [HEX_DIGITS[b as int / 16], HEX_DIGITS[b as int % 16]]
  }

  /** The bytes as hex pairs, in order. */
  function Hex(bytes: seq<bv8>): (s: string)
    ensures |s| == 2 * |bytes|
  {
    if bytes == [] then [] else HexPair(bytes[0]) + Hex(bytes[1..])
  }

  /** The value of a hex digit, 0 for any other character. */
  function DigitValue(c: char): (v: nat)
    ensures v < 16
  {
    if '0' <= c <= '9' then c as int - '0' as int
    else if 'A' <= c <= 'F' then c as int - 'A' as int + 10
    else 0
  }

  /** Reads hex pairs back into bytes. */
  function UnHex(s: string): seq<bv8>
    decreases |s|
  {
    if |s| < 2 then [] else [(DigitValue(s[0]) * 16 + DigitValue(s[1])) as bv8] + UnHex(s[2..])
  }

  /** Each hex digit reads back as its position in HEX_DIGITS. */
  lemma DigitOf(k: nat)
    requires k < 16
    ensures DigitValue(HEX_DIGITS[k]) == k
  {
  }

  /** The two digits of a byte's pair give back the byte. */
  lemma HexPairValue(b: bv8)
    ensures (DigitValue(HexPair(b)[0]) * 16 + DigitValue(HexPair(b)[1])) as bv8 == b
  {
    var n := b as int;
    var hi, lo := n / 16, n % 16;
    DigitOf(hi);
    DigitOf(lo);
    assert DigitValue(HexPair(b)[0]) * 16 + DigitValue(HexPair(b)[1]) == hi * 16 + lo == n;
  }

  /** Reading a pair followed by more text reads the pair's byte first. */
  lemma UnHexPair(p: string, rest: string)
    requires |p| == 2
    ensures UnHex(p + rest) == [(DigitValue(p[0]) * 16 + DigitValue(p[1])) as bv8] + UnHex(rest)
  {
    assert (p + rest)[0] == p[0] && (p + rest)[1] == p[1];
    assert (p + rest)[2..] == rest;
  }

  lemma HexPairRoundTrip(b: bv8)
    ensures UnHex(HexPair(b)) == [b]
  {
    HexPairValue(b);
    UnHexPair(HexPair(b), []);
    assert HexPair(b) + [] == HexPair(b);
  }

  /** Every hex rendering reads back as the bytes it came from. */
  lemma {:induction false} HexRoundTrip(bytes: seq<bv8>)
    ensures UnHex(Hex(bytes)) == bytes
  {
    if bytes != [] {
      HexRoundTrip(bytes[1..]);
      HexPairValue(bytes[0]);
      UnHexPair(HexPair(bytes[0]), Hex(bytes[1..]));
      assert bytes == [bytes[0]] + bytes[1..];
    }
  }

  /** A hex rendering is made of hex digits only. */
  lemma {:induction false} HexDigitsOnly(bytes: seq<bv8>)
    ensures forall k :: 0 <= k < |Hex(bytes)| ==> Hex(bytes)[k] in HEX_DIGITS
  {
    if bytes != [] {
      HexDigitsOnly(bytes[1..]);
      var p, rest := HexPair(bytes[0]), Hex(bytes[1..]);
      assert forall k :: 0 <= k < |p + rest| ==> (p + rest)[k] == if k < 2 then p[k] else rest[k - 2];
    }
  }

  /** Hex of a longer prefix adds the next byte's pair at the end. */
  lemma {:induction false} HexSnoc(bytes: seq<bv8>, b: bv8)
    ensures Hex(bytes + [b]) == Hex(bytes) + HexPair(b)
  {
    if bytes != [] {
      assert (bytes + [b])[1..] == bytes[1..] + [b];
      HexSnoc(bytes[1..], b);
    }
  }

  /** Hex of one more byte of `bytes` adds that byte's pair at the end. */
  lemma HexPrefix(bytes: seq<bv8>, j: nat)
    requires j < |bytes|
    ensures Hex(bytes[..j + 1]) == Hex(bytes[..j]) + HexPair(bytes[j])
  {
    var done, b := bytes[..j], bytes[j];
    assert bytes[..j + 1] == done + [b];
    HexSnoc(done, b);
  }
}
