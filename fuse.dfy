/**
 * The application record of fuse.c/fuse.h: one allocator, the descriptor
 * table, the exit code and the two per-core queue/callback pairs, with the
 * lifecycle, tagged allocation, drain and the built-in value callbacks.
 */
module Fuse {
  import opened Memory
  import opened Tags
  import opened Alloc
  import opened Value
  import opened Reclaim
  import Adc

  /** FUSE_EXIT_SUCCESS: a reserved non-zero code, so that 0 can mean "keep running". */
  const EXIT_SUCCESS: int := -1

  /** What fuse_exit stores for `code`. */
  function NormaliseExit(code: int): (c: int)
    ensures c != 0
    ensures code != 0 ==> c == code
  {
    if code != 0 then code else EXIT_SUCCESS
  }

  /** What fuse_destroy returns for the stored code. */
  function ExitStatus(stored: int): (s: int)
    ensures s == 0 <==> stored == EXIT_SUCCESS || stored == 0
    ensures stored != EXIT_SUCCESS ==> s == stored
  {
    if stored == EXIT_SUCCESS then 0 else stored
  }

  /**
   * A code passed to fuse_exit comes back from fuse_destroy unchanged, except
   * that 0 and the reserved code both come back as 0.
   */
  lemma ExitRoundTrip(code: int)
    ensures ExitStatus(NormaliseExit(code)) == if code == EXIT_SUCCESS then 0 else code
    ensures ExitStatus(NormaliseExit(code)) == 0 <==> code == 0 || code == EXIT_SUCCESS
  {
  }

  /**
   * Outcomes of what the model does not see: whether the underlying malloc
   * fails, what an init callback whose body is not shown returns, and which
   * ADC channels cannot get their GPIO.
   */
  datatype Env = Env(oom: bool, initOk: bool, failingGpio: set<nat>)

  /** struct event_callbacks, whose definition is not part of this model. */
  datatype Callback = NoCallback | Handler(id: nat)

  /** sizeof(fuse_t) and the event/mutex/timer payloads: placeholders, their types are not part of this model. */
  const APP_SIZE: nat := 256
  const EVENT_SIZE: nat := 16
  const MUTEX_SIZE: nat := 16
  const TIMER_SIZE: nat := 16

  /** The descriptors fuse_register_value_event/mutex/timer install; their callbacks are not part of this model. */
  const EVENT_DESC := Desc(EVENT_SIZE, "EVENT", InitForeign, DestroyForeign, RenderForeign, RenderForeign)
  const MUTEX_DESC := Desc(MUTEX_SIZE, "MUTEX", InitForeign, DestroyForeign, RenderForeign, RenderForeign)
  const TIMER_DESC := Desc(TIMER_SIZE, "TIMER", InitForeign, DestroyForeign, RenderForeign, RenderForeign)

  /** The block size fuse_alloc_ex asks for: DATA takes it from the argument. */
  function AllocSize(d: Desc, magic: nat, arg: UserArg): nat {
    if magic == MAGIC_DATA then arg.Bits() else d.size
  }

  /** When `n` bytes are to be read, a non-NULL argument points at `n` readable bytes. */
  predicate Readable(arg: UserArg, n: nat) {
    n == 0 || arg.Bits() == 0 || (arg.Ptr? && |arg.bytes| >= n)
  }

  /** What an init callback needs of its argument: memcpy reads `size` bytes, the ADC reads its config. */
  predicate ArgFits(d: Desc, arg: UserArg) {
    (d.init == InitMemcpy ==> Readable(arg, d.size))
    && (d.init == InitAdc ==> arg.Ptr? && |arg.bytes| >= 1)
  }

  /** What fuse_init_memcpy leaves: `n` bytes copied from the argument, or zeros for NULL. */
  function CopiedBytes(n: nat, arg: UserArg): (p: Payload)
    requires Readable(arg, n)
    ensures p.Bytes? && |p.prefix| == n
    ensures arg.Ptr? ==> p.prefix == arg.bytes[..n]
    ensures arg.Bits() == 0 ==> forall k :: 0 <= k < n ==> p.prefix[k] == 0
  {
    if n == 0 then Bytes([])
    else if arg.Bits() != 0 then Bytes(arg.bytes[..n])
    else Bytes(seq(n, _ => 0))
  }

  /**
   * Whether a descriptor's init succeeds, what it leaves in the block, and
   * how many other values it creates on the way (the ADC's GPIO values).
   */
  datatype Built = Built(ok: bool, payload: Payload, made: nat)

  function Initialise(d: Desc, magic: nat, arg: UserArg, env: Env, adcLive: bool): (r: Built)
    requires ArgFits(d, arg)
    ensures d.init != InitAdc ==> r.made == 0
  {
    match d.init
    case NoInit => Built(true, Uninit, 0)
    case InitNumber =>
      var r := StoredNumber(magic, arg.Bits());
      Built(r.Some?, if r.Some? then r.value else Uninit, 0)
    case InitMemcpy => Built(true, CopiedBytes(d.size, arg), 0)
    case InitCStr => Built(true, Pointer(arg), 0)
    case InitList => Built(env.initOk, Uninit, 0)
    case InitForeign => Built(env.initOk, Uninit, 0)
    case InitAdc =>
      var mask := arg.bytes[0];
      var ok := Adc.InitSucceeds(mask, adcLive, env.failingGpio);
      Built(ok, if mask == 0 then Uninit else Adc.Context(if ok then Adc.ADC_TEMPERATURE_CHANNEL_NUM else 0),
            Adc.GpiosMade(mask, adcLive, env.failingGpio))
  }

  /** Constructing a number fails exactly for tags that are not numbers. */
  lemma InitialiseNumber(d: Desc, magic: nat, w: uintptr, env: Env, adcLive: bool)
    requires d.init == InitNumber
    ensures Initialise(d, magic, Word(w), env, adcLive).ok <==> IsNumberTag(magic)
    ensures IsNumberTag(magic) ==> Some(Initialise(d, magic, Word(w), env, adcLive).payload) == StoredNumber(magic, w)
  {
  }

  /** An ADC value is built exactly when fuse_adc_init's rules allow it. */
  lemma InitialiseAdc(d: Desc, mask: bv8, addr: Address, env: Env, adcLive: bool)
    requires d.init == InitAdc
    ensures Initialise(d, MAGIC_ADC, Ptr(addr, [mask]), env, adcLive).ok <==>
              mask != 0 && !adcLive && forall ch :: 0 <= ch < Adc.ADC_TEMPERATURE_CHANNEL_NUM ==> ch !in env.failingGpio
  {
    Adc.InitSucceedsMeaning(mask, adcLive, env.failingGpio);
  }

  /** A BOOL value made from `w` renders as the TRUE literal exactly when `w` is non-zero. */
  lemma BoolRendering(out: Sink, w: uintptr)
    ensures StoredNumber(MAGIC_BOOL, w).Some? && StoredNumber(MAGIC_BOOL, w).value.Boolean?
    ensures RenderBool(out, StoredNumber(MAGIC_BOOL, w).value.b) ==
              out.Append(if w != 0 then TRUE_LITERAL else FALSE_LITERAL)
  {
    StoredBool(w);
  }

  /** The write loop of fuse_cstr_data: each byte as two upper-case hex digits, in order. */
  method WriteHex(memory: seq<bv8>, out: Sink) returns (r: Sink)
    ensures r.text == out.text + Hex(memory) && r.index == out.index + 2 * |memory|
  {
    r := out;
    var j := 0;
    while j < |memory|
      invariant 0 <= j <= |memory|
      invariant r.text == out.text + Hex(memory[..j]) && r.index == out.index + 2 * j
    {
      HexPrefix(memory, j);
      r := r.Append(HexPair(memory[j]));
      j := j + 1;
    }
    assert memory[..j] == memory;
  }

  /** struct fuse_application */
  class Application {
    const allocator: Allocator
    const desc: array<Desc>
    var exitCode: int
    var core0: Header?
    const callbacks0: array<Callback>
    var core1: Header?
    const callbacks1: array<Callback>
    var drain: bool
    /** The allocator block that holds this record. */
    const record: Header

    /**
     * What holds from the moment the record exists: a sound allocator that
     * holds the record, retained; one descriptor slot per tag and two
     * separate callback tables; every live block tagged by a known tag;
     * an exit code that is never "keep running"; no queue for core 1.
     */
    ghost predicate Sound()
      reads this, desc, allocator, (set b | b in allocator.blocks)`prev, (set b | b in allocator.blocks)`next, record`ref
    {
      allocator.Valid() && Shape() && Holds(allocator.blocks)
    }

    /**
     * The shape of the record. fuse_adc_init is static in adc.c, so only
     * the ADC slot can carry it.
     */
    predicate Shape()
      reads this, desc
    {
      desc.Length == MAGIC_COUNT
      && (forall m :: 0 <= m < MAGIC_COUNT && m != MAGIC_ADC ==> desc[m].init != InitAdc)
      && callbacks0.Length == EVENT_COUNT && callbacks1.Length == EVENT_COUNT && callbacks0 != callbacks1
      && exitCode != 0
      && core1 == null
    }

    /** The live list holds the retained record, and only known tags. */
    ghost predicate Holds(bs: seq<Header>)
      reads record`ref
    {
      record in bs && record.magic == MAGIC_APP && record.ref > 0
      && forall b :: b in bs ==> b.magic < MAGIC_COUNT
    }

    /** A fully built application: core 0 has its retained event queue. */
    ghost predicate Valid()
      reads this, desc, allocator, (set b | b in allocator.blocks)`prev, (set b | b in allocator.blocks)`next, record`ref
      reads (if core0 == null then {} else {core0})`ref
    {
      Sound() && HasQueue(allocator.blocks)
    }

    ghost predicate HasQueue(bs: seq<Header>)
      reads this, (if core0 == null then {} else {core0})`ref
    {
      core0 != null && core0 in bs && core0 != record && core0.magic == MAGIC_LIST && core0.ref > 0
    }

    lemma HoldsAppend(bs: seq<Header>, v: Header)
      requires Holds(bs) && v.magic < MAGIC_COUNT
      ensures Holds(bs + [v])
      ensures HasQueue(bs) ==> HasQueue(bs + [v])
    {
    }

    lemma HoldsRemove(bs: seq<Header>, rest: seq<Header>, v: Header)
      requires Holds(bs) && v != record
      requires forall x :: x in rest <==> x in bs && x != v
      ensures Holds(rest)
      ensures HasQueue(bs) && v != core0 ==> HasQueue(rest)
    {
    }

    constructor (allocator: Allocator, record: Header)
      ensures this.allocator == allocator && this.record == record
      ensures fresh(desc) && desc.Length == MAGIC_COUNT && forall m :: 0 <= m < MAGIC_COUNT ==> desc[m] == Unregistered
      ensures fresh(callbacks0) && callbacks0.Length == EVENT_COUNT && forall e :: 0 <= e < EVENT_COUNT ==> callbacks0[e] == NoCallback
      ensures fresh(callbacks1) && callbacks1.Length == EVENT_COUNT && forall e :: 0 <= e < EVENT_COUNT ==> callbacks1[e] == NoCallback
      ensures callbacks0 != callbacks1
      ensures exitCode == EXIT_SUCCESS && core0 == null && core1 == null && !drain
    {
      this.allocator := allocator;
      this.record := record;
      desc := new Desc[MAGIC_COUNT](_ => Unregistered);
      callbacks0 := new Callback[EVENT_COUNT](_ => NoCallback);
      callbacks1 := new Callback[EVENT_COUNT](_ => NoCallback);
      exitCode := EXIT_SUCCESS;
      core0 := null;
      core1 := null;
      drain := false;
    }

    /** The descriptor table fuse_new installs: the built-in tags, then EVENT, MUTEX and TIMER. */
    ghost predicate StandardTable(): (r: bool)
      reads desc
      ensures r ==> desc.Length == MAGIC_COUNT && forall m :: 0 <= m < desc.Length && m != MAGIC_ADC ==> desc[m].init != InitAdc && desc[m].destroy != DestroyAdc
    {
      desc.Length == MAGIC_COUNT
      && (forall m :: 0 <= m <= MAGIC_MAP ==> desc[m] == Builtin(m))
      && desc[MAGIC_EVENT] == EVENT_DESC && desc[MAGIC_MUTEX] == MUTEX_DESC && desc[MAGIC_TIMER] == TIMER_DESC
      && forall m :: MAGIC_TIMER < m < MAGIC_COUNT ==> desc[m] == Unregistered
    }

    /**
     * fuse_new. `oomAllocator` and `oomApp` say whether the first two
     * mallocs fail, `list` what creating the core 0 queue meets.
     */
    static method New(oomAllocator: bool, oomApp: bool, list: Env, adc: Adc.Driver) returns (app: Application?)
      modifies adc
      ensures app == null <==> oomAllocator || oomApp || list.oom || !list.initOk
      ensures adc.instance == old(adc.instance)
      ensures app != null ==>
                fresh(app) && fresh(app.allocator) && fresh(app.desc) && fresh(app.record) && fresh(app.core0)
                && app.Valid() && app.allocator.blocks == [app.record, app.core0]
                && app.record.ref == 1 && app.core0.ref == 1
                && app.exitCode == EXIT_SUCCESS && app.StandardTable()
    {
      app := NewRecord(oomAllocator, oomApp);
      if app == null {
        return;
      }
      var q := app.AllocEx(MAGIC_LIST, Word(0), list, adc);
      if q == null {
        app.Abandon();
        return null;
      }
      app.Attach(q);
    }

    /** fuse_new giving up once the record exists: the record freed, then the allocator. */
    method Abandon()
      requires allocator.Valid() && allocator.blocks == [record]
      modifies allocator, record`next, record`prev
      ensures allocator.blocks == [] && allocator.head == null && allocator.tail == null
    {
      allocator.Free(record);
      var released := allocator.Destroy();
    }

    /** The last step of fuse_new: the new list, retained, becomes the core 0 queue, and core 1 gets none. */
    method Attach(q: Header)
      requires Sound() && q in allocator.blocks && q != record && q.magic == MAGIC_LIST && q.ref == 0
      modifies this`core0, this`core1, q`ref
      ensures Valid() && core0 == q && core1 == null && q.ref == 1
    {
      allocator.Retain(q);
      core0 := q;
      core1 := null;
    }

    /**
     * The first part of fuse_new: the allocator, the record allocated from
     * it and retained, and the descriptor table.
     */
    static method NewRecord(oomAllocator: bool, oomApp: bool) returns (app: Application?)
      ensures app == null <==> oomAllocator || oomApp
      ensures app != null ==>
                fresh(app) && fresh(app.allocator) && fresh(app.desc) && fresh(app.record)
                && app.Sound() && app.StandardTable()
                && app.allocator.blocks == [app.record] && app.record.ref == 1
                && app.exitCode == EXIT_SUCCESS && app.core0 == null
    {
      var a := Allocator.New(oomAllocator);
      if a == null {
        return null;
      }
      var b := a.Malloc(APP_SIZE, MAGIC_APP, oomApp);
      if b == null {
        var released := a.Destroy();
        return null;
      }
      app := new Application(a, b);
      a.Retain(b);
      app.InstallTable();
    }

    /** The descriptor slots fuse_new fills: the built-in tags, then EVENT, MUTEX and TIMER. */
    method InstallTable()
      requires desc.Length == MAGIC_COUNT && forall m :: 0 <= m < MAGIC_COUNT ==> desc[m] == Unregistered
      modifies desc
      ensures StandardTable()
    {
      forall m | 0 <= m <= MAGIC_MAP {
        desc[m] := Builtin(m);
      }
      desc[MAGIC_EVENT] := EVENT_DESC;
      desc[MAGIC_MUTEX] := MUTEX_DESC;
      desc[MAGIC_TIMER] := TIMER_DESC;
    }

    /**
     * fuse_alloc_ex: a block of the tag's size (DATA: the argument's value)
     * built by the tag's init; when init fails the block is freed again.
     */
    method AllocEx(magic: nat, arg: UserArg, env: Env, adc: Adc.Driver) returns (v: Header?)
      requires Sound() && magic < MAGIC_COUNT && ArgFits(desc[magic], arg)
      modifies allocator, (set x | x in allocator.blocks)`next, (set x | x in allocator.blocks)`prev, adc
      ensures Sound() && (old(Valid()) ==> Valid())
      ensures var built := Initialise(desc[magic], magic, arg, env, old(adc.instance) != null);
              (v == null <==> env.oom || !built.ok)
              && (v != null ==> v.payload == built.payload)
      ensures v != null ==>
                fresh(v) && v in allocator.blocks && v.magic == magic && v.size == AllocSize(desc[magic], magic, arg) && v.ref == 0
      ensures Adc.Grown(old(allocator.blocks) + (if v == null then [] else [v]), allocator.blocks,
                        if env.oom then 0 else Initialise(desc[magic], magic, arg, env, old(adc.instance) != null).made)
      ensures forall x :: x in allocator.blocks && x !in old(allocator.blocks) ==> fresh(x)
      ensures adc.instance == if v != null && desc[magic].init == InitAdc then v else old(adc.instance)
    {
      var d := desc[magic];
      var size := if magic == MAGIC_DATA then arg.Bits() else d.size;
      ghost var before := allocator.blocks;
      v := allocator.Malloc(size, magic, env.oom);
      if v == null {
        return;
      }
      HoldsAppend(before, v);
      var ok := Build(v, d, arg, env, adc, before);
      if !ok {
        v := null;
      }
    }

    /**
     * The rest of fuse_alloc_ex once `v` has been allocated: run the tag's
     * init, and give the block back to the allocator when init fails.
     */
    method Build(v: Header, d: Desc, arg: UserArg, env: Env, adc: Adc.Driver, ghost before: seq<Header>) returns (ok: bool)
      requires Sound() && allocator.blocks == before + [v] && v !in before && v != record && d == desc[v.magic] && ArgFits(d, arg)
      requires v.payload == Uninit
      modifies allocator, (set x | x in allocator.blocks)`next, (set x | x in allocator.blocks)`prev, v`payload, adc
      ensures Sound() && (old(Valid()) && v != old(core0) ==> Valid())
      ensures var built := Initialise(d, v.magic, arg, env, old(adc.instance) != null);
              ok == built.ok && (ok ==> v.payload == built.payload)
      ensures Adc.Grown(before + (if ok then [v] else []), allocator.blocks,
                        Initialise(d, v.magic, arg, env, old(adc.instance) != null).made)
      ensures forall x :: x in allocator.blocks && x !in old(allocator.blocks) ==> fresh(x)
      ensures ok ==> v in allocator.blocks
      ensures adc.instance == if ok && d.init == InitAdc then v else old(adc.instance)
    {
      ok := Construct(v, d, arg, env, adc);
      if !ok {
        Discard(v, before, Initialise(d, v.magic, arg, env, old(adc.instance) != null).made);
      } else {
        assert before + [v] + [] == before + [v];
      }
    }

    /**
     * The clean-up of fuse_alloc_ex after a failed init: `v` goes back to the
     * allocator, and whatever init created after it stays.
     */
    method Discard(v: Header, ghost before: seq<Header>, ghost made: nat)
      requires Sound() && v !in before && v != record && Adc.Grown(before + [v], allocator.blocks, made)
      modifies allocator, (set x | x in allocator.blocks)`next, (set x | x in allocator.blocks)`prev
      ensures Sound() && (old(Valid()) && v != old(core0) ==> Valid())
      ensures Adc.Grown(before, allocator.blocks, made)
      ensures forall x :: x in allocator.blocks ==> x in old(allocator.blocks)
    {
      ghost var grown := allocator.blocks;
      Adc.GrownMembers(before + [v], grown, made);
      allocator.Free(v);
      Adc.GrownRemove(before + [v], grown, made, v);
      RemoveLast(before, v);
      HoldsRemove(grown, allocator.blocks, v);
    }

    /** The `init` step of fuse_alloc_ex: the descriptor's constructor, if it has one. */
    method Construct(v: Header, d: Desc, arg: UserArg, env: Env, adc: Adc.Driver) returns (ok: bool)
      requires Sound() && v in allocator.blocks && d == desc[v.magic] && ArgFits(d, arg)
      requires v.payload == Uninit
      modifies v`payload, adc, allocator, (set x | x in allocator.blocks)`next
      ensures Sound() && (old(Valid()) ==> Valid())
      ensures var built := Initialise(d, v.magic, arg, env, old(adc.instance) != null);
              ok == built.ok && (ok ==> v.payload == built.payload)
      ensures Adc.Grown(old(allocator.blocks), allocator.blocks, Initialise(d, v.magic, arg, env, old(adc.instance) != null).made)
      ensures forall x :: x in allocator.blocks && x !in old(allocator.blocks) ==> fresh(x)
      ensures forall x :: x in old(allocator.blocks) ==> x in allocator.blocks
      ensures adc.instance == if ok && d.init == InitAdc then v else old(adc.instance)
    {
      match d.init {
        case NoInit =>
          ok := true;
        case InitNumber =>
          ok := InitNumber(v, arg);
        case InitMemcpy =>
          ok := InitMemcpy(v, arg);
        case InitCStr =>
          ok := InitCStr(v, arg);
        case InitList =>
          ok := env.initOk;
        case InitForeign =>
          ok := env.initOk;
        case InitAdc =>
          ghost var before := allocator.blocks;
          Adc.ScanOutcome(arg.bytes[0], env.failingGpio);
          ok := adc.Init(v, arg.bytes[0], env.failingGpio, allocator);
          Adc.GrownMembers(before, allocator.blocks, Adc.GpiosMade(arg.bytes[0], old(adc.instance) != null, env.failingGpio));
      }
    }

    /** fuse_init_number */
    method InitNumber(v: Header, arg: UserArg) returns (ok: bool)
      requires Sound() && v in allocator.blocks
      modifies v`payload
      ensures ok == StoredNumber(v.magic, arg.Bits()).Some?
      ensures v.payload == if ok then StoredNumber(v.magic, arg.Bits()).value else old(v.payload)
    {
      var magic := allocator.Magic(v);
      var stored := StoredNumber(magic, arg.Bits());
      if stored.None? {
        return false;
      }
      v.payload := stored.value;
      ok := true;
    }

    /** fuse_init_memcpy: copies the descriptor's size, not the block's. */
    method InitMemcpy(v: Header, arg: UserArg) returns (ok: bool)
      requires Sound() && v in allocator.blocks && v.magic < desc.Length && Readable(arg, desc[v.magic].size)
      modifies v`payload
      ensures ok && v.payload == CopiedBytes(desc[v.magic].size, arg)
    {
      var magic := allocator.Magic(v);
      var size := desc[magic].size;
      if size == 0 {
        v.payload := Bytes([]);
      } else if arg.Bits() != 0 {
        v.payload := Bytes(arg.bytes[..size]);
      } else {
        v.payload := Bytes(seq(size, _ => 0));
      }
      ok := true;
    }

    /** fuse_init_cstr: stores the pointer itself. */
    method InitCStr(v: Header, arg: UserArg) returns (ok: bool)
      modifies v`payload
      ensures ok && v.payload == Pointer(arg)
    {
      v.payload := Pointer(arg);
      ok := true;
    }

    /** fuse_free: the tag's destroy, then the allocator's free. */
    method Free(b: Header, adc: Adc.Driver)
      requires Sound() && b in allocator.blocks && b != record
      modifies allocator, (set x | x in allocator.blocks)`next, (set x | x in allocator.blocks)`prev, adc
      ensures Sound() && (old(Valid()) && b != old(core0) ==> Valid())
      ensures allocator.blocks == Remove(old(allocator.blocks), b)
      ensures forall x :: x in allocator.blocks <==> x in old(allocator.blocks) && x != b
      ensures adc.instance == if desc[b.magic].destroy == DestroyAdc then null else old(adc.instance)
    {
      var magic := allocator.Magic(b);
      match desc[magic].destroy {
        case NoDestroy =>
        case DestroyList =>
        case DestroyForeign =>
        case DestroyAdc =>
          adc.Destroy();
      }
      allocator.Free(b);
    }

    /** Whether the tag of `b` has the ADC's destructor. */
    ghost predicate IsAdc(b: Header)
      reads desc
    {
      b.magic < desc.Length && desc[b.magic].destroy == DestroyAdc
    }

    /** Whether a block of `before` that `after` no longer holds has the ADC's destructor. */
    ghost predicate FreesAdc(before: seq<Header>, after: seq<Header>)
      reads desc
    {
      exists b :: b in before && b !in after && IsAdc(b)
    }

    /** One step of a pass: the freed ADC blocks grow by `h` exactly when `h` goes and is an ADC. */
    lemma FreesAdcStep(orig: seq<Header>, bs: seq<Header>, bs': seq<Header>, h: Header, gone: bool)
      requires h in bs && forall x :: x in bs ==> x in orig
      requires forall x :: x in bs' ==> x in bs
      requires forall x :: x in bs ==> (x in bs' <==> x != h || !gone)
      ensures FreesAdc(orig, bs') <==> FreesAdc(orig, bs) || (gone && IsAdc(h))
    {
      if gone && IsAdc(h) {
        assert h in orig && h !in bs';
      }
    }

    /**
     * Releasing `q` unlinks it only when no reference is left, so the
     * unretained ADC blocks after the release are those of before other than `q`.
     */
    lemma ReleasedAdc(before: seq<Header>, first: seq<Header>, q: Header, zero: bool)
      requires forall x :: x in first ==> x in before
      requires forall x :: x in before ==> (x in first <==> x != q || !zero)
      requires zero <==> q.ref == 0
      ensures (exists b :: b in first && b.ref == 0 && IsAdc(b)) <==>
              (exists b :: b in before && b != q && b.ref == 0 && IsAdc(b))
    {
    }

    /** A pass that frees exactly the unretained blocks has freed an ADC exactly when one of them is an ADC. */
    lemma FreesUnretained(orig: seq<Header>, settled: seq<Header>)
      requires forall b :: b in orig ==> (b in settled <==> b.ref > 0)
      ensures FreesAdc(orig, settled) <==> exists b :: b in orig && b.ref == 0 && IsAdc(b)
    {
    }

    lemma FreesNothing(bs: seq<Header>)
      ensures !FreesAdc(bs, bs)
    {
    }

    /** fuse_drain: one head-to-tail pass freeing unretained blocks, at most `cap` of them when cap > 0. */
    method Drain(cap: nat, adc: Adc.Driver) returns (count: nat)
      requires Sound()
      modifies allocator, (set x | x in allocator.blocks)`next, (set x | x in allocator.blocks)`prev, adc
      ensures Sound() && (old(Valid()) ==> Valid())
      ensures allocator.blocks == Sweep(old(allocator.blocks), old(Referenced(allocator.blocks)), cap, 0)
      ensures count == |old(allocator.blocks)| - |allocator.blocks|
      ensures adc.instance == if FreesAdc(old(allocator.blocks), allocator.blocks) then null else old(adc.instance)
    {
      ghost var orig := allocator.blocks;
      ghost var keep := Referenced(orig);
      ghost var target := Sweep(orig, keep, cap, 0);
      ghost var wasValid := Valid();
      ghost var kept: seq<Header> := [];
      ghost var rest := orig;
      count := 0;
      var hdr := allocator.head;
      while hdr != null && (cap == 0 || count < cap)
        invariant Sound() && (wasValid ==> Valid())
        invariant allocator.blocks == kept + rest
        invariant forall x :: x in allocator.blocks ==> x in orig
        invariant forall x :: x in rest ==> (x in keep <==> x.ref > 0)
        invariant |orig| == |kept| + |rest| + count
        invariant hdr == if rest == [] then null else rest[0]
        invariant target == kept + Sweep(rest, keep, cap, count)
        invariant adc.instance == if FreesAdc(orig, allocator.blocks) then null else old(adc.instance)
        decreases |rest|
      {
        hdr, count, kept, rest := Visit(hdr, cap, count, keep, kept, rest, adc, orig, old(adc.instance));
      }
      assert Sweep(rest, keep, cap, count) == rest;
    }

    /**
     * The body of the fuse_drain loop for the header `hdr` at the head of
     * `rest`, `kept` being the retained headers already passed: `next` is
     * read first, then `hdr` is freed if nobody retains it.
     */
    method Visit(hdr: Header, cap: nat, count: nat, ghost keep: set<Header>, ghost kept: seq<Header>, ghost rest: seq<Header>,
                 adc: Adc.Driver, ghost orig: seq<Header>, ghost start: Header?)
      returns (next: Header?, count': nat, ghost kept': seq<Header>, ghost rest': seq<Header>)
      requires Sound() && allocator.blocks == kept + rest && rest != [] && hdr == rest[0]
      requires !(cap > 0 && count >= cap) && (hdr in keep <==> hdr.ref > 0)
      requires (forall x :: x in allocator.blocks ==> x in orig)
      requires adc.instance == if FreesAdc(orig, allocator.blocks) then null else start
      modifies allocator, (set x | x in allocator.blocks)`next, (set x | x in allocator.blocks)`prev, adc
      ensures Sound() && (old(Valid()) ==> Valid())
      ensures allocator.blocks == kept' + rest' && rest' == rest[1..]
      ensures forall x :: x in allocator.blocks ==> x in old(allocator.blocks)
      ensures next == if rest' == [] then null else rest'[0]
      ensures kept' + Sweep(rest', keep, cap, count') == kept + Sweep(rest, keep, cap, count)
      ensures |kept'| + count' == |kept| + count + 1
      ensures forall x :: x in old(allocator.blocks) ==> (x in allocator.blocks <==> x != hdr || hdr.ref > 0)
      ensures adc.instance == if hdr.ref == 0 && IsAdc(hdr) then null else old(adc.instance)
      ensures adc.instance == if FreesAdc(orig, allocator.blocks) then null else start
    {
      ghost var was := allocator.blocks;
      SplitAt(kept, rest);
      SweepStep(kept, rest, keep, cap, count);
      next := hdr.next;
      rest' := rest[1..];
      if hdr.ref == 0 {
        RemoveAt(kept + rest, |kept|);
        Free(hdr, adc);
        count', kept' := count + 1, kept;
      } else {
        count', kept' := count, kept + [hdr];
      }
      FreesAdcStep(orig, was, allocator.blocks, hdr, hdr.ref == 0);
    }

    /**
     * fuse_release, whose body is not part of this model, as the allocator's
     * release: one reference fewer, and the block unlinked when none is left.
     */
    method Release(v: Header) returns (zero: bool)
      requires Sound() && v in allocator.blocks && v != record && v.ref > 0
      modifies allocator, (set x | x in allocator.blocks)`next, (set x | x in allocator.blocks)`prev, v`ref
      ensures Sound() && v.ref == old(v.ref) - 1 && (zero <==> v.ref == 0)
      ensures forall x :: x in allocator.blocks ==> x in old(allocator.blocks)
      ensures forall x :: x in old(allocator.blocks) ==> (x in allocator.blocks <==> x != v || !zero)
    {
      ghost var before := allocator.blocks;
      zero := allocator.Release(v);
      if zero {
        HoldsRemove(before, allocator.blocks, v);
      }
    }

    /**
     * The do-while loop of fuse_destroy: drain uncapped until a pass frees
     * nothing. What is left is exactly the retained blocks, in list order.
     */
    method DrainAll(adc: Adc.Driver)
      requires Sound()
      modifies allocator, (set x | x in allocator.blocks)`next, (set x | x in allocator.blocks)`prev, adc
      ensures Sound() && (old(Valid()) ==> Valid())
      ensures allocator.blocks == Retained(old(allocator.blocks), old(Referenced(allocator.blocks)))
      ensures forall b :: b in allocator.blocks ==> b.ref > 0
      ensures adc.instance == if exists b :: b in old(allocator.blocks) && b.ref == 0 && IsAdc(b) then null else old(adc.instance)
    {
      ghost var orig := allocator.blocks;
      ghost var keep := Referenced(orig);
      ghost var wasValid := Valid();
      var drained := Drain(0, adc);
      UncappedSweep(orig, keep, 0);
      RetainedReferenced(orig);
      ghost var settled := allocator.blocks;
      FreesUnretained(orig, settled);
      ghost var cleared := adc.instance;
      while drained > 0
        invariant Sound() && (wasValid ==> Valid())
        invariant allocator.blocks == settled
        invariant forall b :: b in settled ==> b.ref > 0
        invariant adc.instance == cleared
        decreases |allocator.blocks| + (if drained > 0 then 1 else 0)
      {
        ghost var again := Referenced(settled);
        assert forall b :: b in settled ==> b in again;
        drained := Drain(0, adc);
        SweepFixedPoint(settled, again, 0, 0);
        FreesNothing(settled);
      }
    }

    /**
     * The first half of fuse_destroy: core 0's queue released, then drained
     * until a pass frees nothing. What stays is exactly the retained blocks.
     */
    method Settle(adc: Adc.Driver)
      requires Valid()
      modifies allocator, (set x | x in allocator.blocks)`next, (set x | x in allocator.blocks)`prev, core0`ref, adc
      ensures Sound()
      ensures core0.ref == old(core0.ref) - 1
      ensures forall b :: b in allocator.blocks ==> b in old(allocator.blocks)
      ensures forall b :: b in old(allocator.blocks) ==> (b in allocator.blocks <==> b.ref > 0)
      ensures adc.instance ==
                if exists b :: b in old(allocator.blocks) && b != core0 && b.ref == 0 && IsAdc(b) then null
                else old(adc.instance)
    {
      ghost var before := allocator.blocks;
      var gone := Release(core0);
      ghost var first := allocator.blocks;
      RetainedReferenced(first);
      ReleasedAdc(before, first, core0, gone);
      DrainAll(adc);
      assert forall b :: b in first ==> (b in allocator.blocks <==> b.ref > 0);
    }

    /**
     * fuse_destroy: release the core 0 queue, drain until a pass frees
     * nothing, free the record, then the allocator. `leaked` are the blocks
     * still live when the allocator goes, which the diagnostic walk would
     * report.
     */
    method Destroy(adc: Adc.Driver) returns (status: int, ghost leaked: seq<Header>)
      requires Valid()
      modifies allocator, (set x | x in allocator.blocks)`next, (set x | x in allocator.blocks)`prev, core0`ref, adc
      ensures status == ExitStatus(old(exitCode))
      ensures old(core0).ref == old(core0.ref) - 1
      ensures forall b :: b in leaked ==> b in old(allocator.blocks)
      ensures forall b :: b in old(allocator.blocks) ==> (b in leaked <==> b != record && b.ref > 0)
      ensures allocator.blocks == [] && allocator.head == null && allocator.tail == null
      ensures adc.instance ==
                if exists b :: b in old(allocator.blocks) && b != old(core0) && b.ref == 0 && IsAdc(b) then null
                else old(adc.instance)
    {
      var code := exitCode;
      Settle(adc);
      allocator.Free(record);
      leaked := allocator.blocks;
      var released := allocator.Destroy();
      status := ExitStatus(code);
    }

    /** fuse_exit */
    method Exit(code: int)
      requires Sound()
      modifies this`exitCode
      ensures Sound()
      ensures exitCode == NormaliseExit(code)
    {
      exitCode := if code != 0 then code else EXIT_SUCCESS;
    }

    /**
     * fuse_run, given what the entry point returns. The idle loop runs only
     * while exit_code is 0, which Sound rules out, so it is never entered.
     */
    method Run(entryResult: int)
      requires Sound()
      modifies this`exitCode
      ensures Sound()
      ensures exitCode == if entryResult != 0 then entryResult else old(exitCode)
    {
      if entryResult != 0 {
        Exit(entryResult);
        return;
      }
    }

    /**
     * fuse_register_value_type, whose body is not part of this model:
     * installs a descriptor under a tag that has none, and leaves a tag
     * that is registered already as it is.
     */
    method RegisterType(magic: nat, d: Desc)
      requires Sound() && magic < MAGIC_COUNT && (d.init == InitAdc ==> magic == MAGIC_ADC)
      modifies desc
      ensures Sound()
      ensures desc[magic] == if old(desc[magic]).Registered() then old(desc[magic]) else d
      ensures forall m :: 0 <= m < desc.Length && m != magic ==> desc[m] == old(desc[m])
    {
      if !desc[magic].Registered() {
        desc[magic] := d;
      }
    }

    /**
     * fuse_cstr_data for a DATA block whose bytes are `memory`: the bytes
     * the block is known to hold are its prefix, the rest is whatever the
     * allocation left there.
     */
    method CStrData(v: Header, memory: seq<bv8>, out: Sink) returns (r: Sink)
      requires allocator.Valid() && v in allocator.blocks && v.magic == MAGIC_DATA
      requires |memory| == v.size && (v.payload.Bytes? ==> v.payload.prefix <= memory)
      ensures r.text == out.text + Hex(memory) && r.index == out.index + 2 * |memory|
      ensures v.size == 0 ==> r == out
    {
      var datasz := allocator.Size(v);
      if datasz == 0 {
        return out;
      }
      r := WriteHex(memory, out);
    }
  }
}
