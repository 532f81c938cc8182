/**
 * The ADC driver of picofuse/adc.c on an RP2040: the channel-to-pin map, the
 * process-wide singleton, and the value type's init, destroy and render
 * callbacks. Hardware calls (adc_init, adc_set_temp_sensor_enabled) are
 * no-ops here. Creating a GPIO value either fails, for the channels the
 * caller names, or appends a new unretained GPIO block to the live list.
 */
module Adc {
  import opened Memory
  import opened Alloc
  import opened Tags
  import opened Value

  /** RP2040: four GPIO-backed inputs and the on-chip temperature sensor. */
  const NUM_ADC_CHANNELS: nat := 5
  const ADC_TEMPERATURE_CHANNEL_NUM: nat := 4
  /** adc_context.gpio has eight slots. */
  const GPIO_SLOTS: nat := 8
  /** sizeof(struct adc_context) on the 32-bit target: eight pointers and a byte, padded. */
  const ADC_CONTEXT_SIZE: nat := 36
  /** sizeof the GPIO value: its type is not part of this model. */
  const GPIO_SIZE: nat := 8
  /** First GPIO pin wired to an ADC input, for five- and eight-channel parts. */
  const GPIO_BASE_5: nat := 26
  const GPIO_BASE_8: nat := 40

  /** fuse_adc_is_temp_sensor */
  predicate IsTempSensor(ch: nat) {
    ch == ADC_TEMPERATURE_CHANNEL_NUM
  }

  /** fuse_adc_gpio for a part with `channels` inputs; 0 means no pin. */
  function PinFor(channels: nat, ch: nat): (r: nat)
    ensures r != 0 ==> ch < channels && !IsTempSensor(ch)
  {
    if ch >= channels then 0
    else if IsTempSensor(ch) then 0
    else if channels == 5 then ch + GPIO_BASE_5
    else if channels == 8 then ch + GPIO_BASE_8
    else 0
  }

  /** fuse_adc_gpio on this part. */
  function Gpio(ch: nat): (r: nat)
    ensures r == 0 || GPIO_BASE_5 <= r < GPIO_BASE_5 + ADC_TEMPERATURE_CHANNEL_NUM
  {
    PinFor(NUM_ADC_CHANNELS, ch)
  }

  /**
   * A channel has a pin exactly when it is an existing non-temperature
   * channel of a five- or eight-channel part, and the pin is then the
   * channel offset from that part's base.
   */
  lemma PinForMeaning(channels: nat, ch: nat)
    ensures PinFor(channels, ch) != 0 <==>
              ch < channels && !IsTempSensor(ch) && (channels == 5 || channels == 8)
    ensures PinFor(channels, ch) != 0 ==>
              PinFor(channels, ch) == ch + (if channels == 5 then GPIO_BASE_5 else GPIO_BASE_8)
  {
  }

  /** The channel a pin belongs to on this part. */
  function ChannelOf(pin: nat): nat {
    if pin >= GPIO_BASE_5 then pin - GPIO_BASE_5 else 0
  }

  /**
   * On this part the ADC pins are exactly GPIO 26 to 29, channels 0 to 3,
   * and the map reads back: distinct channels never share a pin.
   */
  lemma GpioPins(ch: nat)
    ensures Gpio(ch) != 0 <==> ch < ADC_TEMPERATURE_CHANNEL_NUM
    ensures Gpio(ch) != 0 ==> 26 <= Gpio(ch) <= 29 && ChannelOf(Gpio(ch)) == ch
  {
  }

  /** `1 << i` as an int, for the shifts the channel loop performs. */
  function Shift(i: nat): (r: nat)
    ensures r >= 1
  {
    if i == 0 then 1 else 2 * Shift(i - 1)
  }

  /**
   * The skip test as written, `channel_mask & (1 << i) == 0`: `==` binds
   * tighter than `&`, so the mask is and-ed with the truth value of
   * `(1 << i) == 0`.
   */
  predicate SkipAsWritten(mask: bv8, i: nat) {
    mask & (if Shift(i) == 0 then 1 else 0) != 0
  }

  /** The skip test never skips: every channel is visited whatever the mask. */
  lemma MaskNeverSkips(mask: bv8, i: nat)
    ensures !SkipAsWritten(mask, i)
  {
    assert Shift(i) != 0;
    assert mask & 0 == 0;
  }

  /**
   * Where the channel loop stands: still going, the temp channel so far,
   * and how many GPIO values it has created.
   */
  datatype Scan = Scan(ok: bool, temp: nat, made: nat)

  /**
   * The channel loop of fuse_adc_init from channel i with `temp` recorded and
   * `made` GPIO values created so far; `failing` are the channels whose GPIO
   * cannot be created.
   */
  function ScanFrom(mask: bv8, i: nat, temp: nat, made: nat, failing: set<nat>): Scan
    decreases NUM_ADC_CHANNELS - i
  {
    if i >= NUM_ADC_CHANNELS then Scan(true, temp, made)
    else if SkipAsWritten(mask, i) then ScanFrom(mask, i + 1, temp, made, failing)
    else if IsTempSensor(i) then ScanFrom(mask, i + 1, i, made, failing)
    else if Gpio(i) == 0 || i in failing then Scan(false, temp, made)
    else ScanFrom(mask, i + 1, temp, made + 1, failing)
  }

  /** The whole channel loop. */
  function ScanAll(mask: bv8, failing: set<nat>): Scan {
    ScanFrom(mask, 0, 0, 0, failing)
  }

  /**
   * The whole scan, as written: it succeeds exactly when every GPIO channel
   * (0 to 3) gets its GPIO, whatever the mask; on success the temperature
   * channel is recorded, on failure `temp` is still 0. Each channel before
   * the first failing one has created its GPIO value, and nothing undoes
   * that when a later channel fails.
   */
  lemma {:induction false} ScanOutcome(mask: bv8, failing: set<nat>)
    ensures ScanAll(mask, failing).ok <==> (forall ch :: 0 <= ch < ADC_TEMPERATURE_CHANNEL_NUM ==> ch !in failing)
    ensures ScanAll(mask, failing).temp == if ScanAll(mask, failing).ok then ADC_TEMPERATURE_CHANNEL_NUM else 0
    ensures ScanAll(mask, failing).ok ==> ScanAll(mask, failing).made == ADC_TEMPERATURE_CHANNEL_NUM
    ensures !ScanAll(mask, failing).ok ==>
              ScanAll(mask, failing).made < ADC_TEMPERATURE_CHANNEL_NUM && ScanAll(mask, failing).made in failing
              && forall ch :: 0 <= ch < ScanAll(mask, failing).made ==> ch !in failing
  {
    forall i: nat | i < NUM_ADC_CHANNELS ensures !SkipAsWritten(mask, i) {
      MaskNeverSkips(mask, i);
    }
    assert ScanFrom(mask, 4, 0, 4, failing) == Scan(true, 4, 4);
    assert ScanFrom(mask, 3, 0, 3, failing) == if 3 in failing then Scan(false, 0, 3) else Scan(true, 4, 4);
    assert ScanFrom(mask, 2, 0, 2, failing) == if 2 in failing then Scan(false, 0, 2) else ScanFrom(mask, 3, 0, 3, failing);
    assert ScanFrom(mask, 1, 0, 1, failing) == if 1 in failing then Scan(false, 0, 1) else ScanFrom(mask, 2, 0, 2, failing);
    assert ScanFrom(mask, 0, 0, 0, failing) == if 0 in failing then Scan(false, 0, 0) else ScanFrom(mask, 1, 0, 1, failing);
  }

  /** Eight NULL GPIO slots. */
  function NullSlots(): seq<uintptr> {
    seq(GPIO_SLOTS, _ => 0)
  }

  /** Whether fuse_adc_init returns true. */
  predicate InitSucceeds(mask: bv8, live: bool, failing: set<nat>) {
    mask != 0 && !live && ScanAll(mask, failing).ok
  }

  /** How many GPIO values fuse_adc_init creates: none unless it reaches the channel loop. */
  function GpiosMade(mask: bv8, live: bool, failing: set<nat>): nat {
    if mask == 0 || live then 0 else ScanAll(mask, failing).made
  }

  /**
   * A successful init leaves four GPIO values behind; a failed one leaves one
   * for each channel before the first that could not get its GPIO (none when
   * it fails before the channel loop).
   */
  lemma GpiosMadeMeaning(mask: bv8, live: bool, failing: set<nat>)
    ensures InitSucceeds(mask, live, failing) ==> GpiosMade(mask, live, failing) == ADC_TEMPERATURE_CHANNEL_NUM
    ensures !InitSucceeds(mask, live, failing) ==>
              GpiosMade(mask, live, failing) < ADC_TEMPERATURE_CHANNEL_NUM
              && forall ch :: 0 <= ch < GpiosMade(mask, live, failing) ==> ch !in failing
    ensures mask == 0 || live ==> GpiosMade(mask, live, failing) == 0
  {
    ScanOutcome(mask, failing);
  }

  /**
   * From position `from` on, `bs` holds the GPIO values the channel loop
   * created: tagged GPIO and retained by nobody, since they are never
   * stored in the context's `gpio` slots.
   */
  ghost predicate UnheldGpios(bs: seq<Header>, from: nat)
    reads (set b | b in bs)`ref
  {
    forall k :: from <= k < |bs| ==> bs[k].magic == MAGIC_GPIO && bs[k].ref == 0
  }

  /**
   * An ADC is built exactly when the mask selects a channel, no other ADC is
   * live and every GPIO can be created.
   */
  lemma InitSucceedsMeaning(mask: bv8, live: bool, failing: set<nat>)
    ensures InitSucceeds(mask, live, failing) <==>
              mask != 0 && !live && forall ch :: 0 <= ch < ADC_TEMPERATURE_CHANNEL_NUM ==> ch !in failing
  {
    ScanOutcome(mask, failing);
  }

  /** `after` is `before` followed by `made` GPIO values nobody retains. */
  ghost predicate Grown(before: seq<Header>, after: seq<Header>, made: nat)
    reads (set b | b in after)`ref
  {
    before <= after && |after| == |before| + made && UnheldGpios(after, |before|)
  }

  /** Growth keeps every block that was there, and adds only unretained GPIO values. */
  lemma GrownMembers(before: seq<Header>, after: seq<Header>, made: nat)
    requires Grown(before, after, made)
    ensures forall x :: x in before ==> x in after
    ensures forall x :: x in after && x !in before ==> x.magic == MAGIC_GPIO && x.ref == 0
    ensures made == 0 ==> after == before
  {
    assert after == before + after[|before|..];
    assert forall x :: x in after[|before|..] ==> exists k :: |before| <= k < |after| && after[k] == x;
  }

  /** Unlinking a block that was there before the growth leaves the added blocks alone. */
  lemma GrownRemove(before: seq<Header>, after: seq<Header>, made: nat, v: Header)
    requires Grown(before, after, made) && v in before
    ensures Grown(Remove(before, v), Remove(after, v), made)
  {
    var added := after[|before|..];
    assert after == before + added;
    RemoveAppend(before, added, v);
    var rest := Remove(before, v) + added;
    assert forall k :: |Remove(before, v)| <= k < |rest| ==> rest[k] == after[k + 1];
  }

  /** The ADC context after the zeroing step, once `temp` has been recorded. */
  function Context(temp: nat): Payload {
    AdcContext(NullSlots(), temp)
  }

  /** The singleton `fuse_adc_instance`. */
  class Driver {
    var instance: Header?

    constructor ()
      ensures instance == null
    {
      instance := null;
    }

    /**
     * fuse_adc_init for the value `v` with configuration mask `mask`, on the
     * allocator `v` lives in. Each GPIO value the channel loop creates is a
     * new block at the tail of the live list; it is never stored in `gpio`,
     * so the retain loop over the eight slots only sees NULL and the GPIO
     * blocks stay unretained, also when a later channel fails.
     */
    method Init(v: Header, mask: bv8, failing: set<nat>, allocator: Allocator) returns (ok: bool)
      requires allocator.Valid() && v in allocator.blocks
      modifies this, v`payload, allocator, (set x | x in allocator.blocks)`next
      ensures ok == InitSucceeds(mask, old(instance) != null, failing)
      ensures instance == (if ok then v else old(instance))
      ensures mask == 0 ==> v.payload == old(v.payload)
      ensures mask != 0 ==> v.payload == Context(if ok then ScanAll(mask, failing).temp else 0)
      ensures allocator.Valid()
      ensures Grown(old(allocator.blocks), allocator.blocks, GpiosMade(mask, old(instance) != null, failing))
      ensures forall x :: x in allocator.blocks && x !in old(allocator.blocks) ==> fresh(x)
    {
      if mask == 0 {
        return false;
      }
      v.payload := Context(0);
      if instance != null {
        return false;
      }
      ScanOutcome(mask, failing);
      var temp := 0;
      var i := 0;
      ghost var made := 0;
      while i < NUM_ADC_CHANNELS
        invariant 0 <= i <= NUM_ADC_CHANNELS
        invariant ScanFrom(mask, i, temp, made, failing) == ScanAll(mask, failing)
        invariant temp == 0 || (temp == ADC_TEMPERATURE_CHANNEL_NUM && i == NUM_ADC_CHANNELS)
        invariant v.payload == Context(temp) && instance == null
        invariant allocator.Valid() && Grown(old(allocator.blocks), allocator.blocks, made)
        invariant forall x :: x in allocator.blocks && x !in old(allocator.blocks) ==> fresh(x)
      {
        if SkipAsWritten(mask, i) {
          i := i + 1;
          continue;
        }
        if IsTempSensor(i) {
          temp := i;
          v.payload := Context(temp);
        } else {
          var pin := Gpio(i);
          if pin == 0 {
            return false;
          }
          if i in failing {
            return false;
          }
          var gpio := allocator.Malloc(GPIO_SIZE, MAGIC_GPIO, false);
          made := made + 1;
        }
        i := i + 1;
      }
      instance := v;
      ok := true;
    }

    /**
     * fuse_adc_destroy: the releases of the eight slots see only NULL, so
     * all that changes is the singleton.
     */
    method Destroy()
      modifies this
      ensures instance == null
    {
      instance := null;
    }
  }

  /** fuse_adc_str: the same text for both renderings. */
  function Render(out: Sink): (r: Sink)
    ensures r.text == out.text + ['{', '}'] && r.index == out.index + 2
  {
    out.Append("{").Append("}")
  }

  /** The descriptor fuse_register_value_adc installs. */
  const ADC_DESC := Desc(ADC_CONTEXT_SIZE, "ADC", InitAdc, DestroyAdc, AdcStr, AdcStr)
}
