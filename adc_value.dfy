/**
 * fuse_new_adc_ex: the ADC value type is registered with the application the
 * first time an ADC is asked for, then the value is made like any other.
 * fuse_new_value_ex, whose body is not part of this model, is taken to be
 * fuse_alloc_ex with the configuration's address as the argument.
 */
module AdcValue {
  import opened Memory
  import opened Tags
  import opened Alloc
  import opened Value
  import opened Fuse
  import opened Reclaim
  import Adc

  /** The configuration fuse_new_adc_ex passes by address: its channel mask. */
  function Config(config: Address, mask: bv8): UserArg {
    Ptr(config, [mask])
  }

  /** The descriptor the ADC tag has once fuse_new_adc_ex has checked the table. */
  function AdcDescriptor(d: Desc): (r: Desc)
    ensures r.Registered()
    ensures d.Registered() ==> r == d
    ensures !d.Registered() ==> r == Adc.ADC_DESC
  {
    if d.Registered() then d else Adc.ADC_DESC
  }

  /** The ADC descriptor builds its values with fuse_adc_init and tears them down with fuse_adc_destroy. */
  lemma AdcDescriptorCallbacks(d: Desc, config: Address, mask: bv8)
    requires !d.Registered() || d == Adc.ADC_DESC
    ensures AdcDescriptor(d) == Adc.ADC_DESC
    ensures AdcDescriptor(d).init == InitAdc && AdcDescriptor(d).destroy == DestroyAdc
    ensures ArgFits(AdcDescriptor(d), Config(config, mask))
  {
  }

  /** fuse_register_value_adc: the ADC descriptor goes in, unless the tag is registered already. */
  method RegisterAdc(app: Application)
    requires app.Sound()
    modifies app.desc
    ensures app.Sound()
    ensures app.desc[MAGIC_ADC] == AdcDescriptor(old(app.desc[MAGIC_ADC]))
    ensures forall m :: 0 <= m < app.desc.Length && m != MAGIC_ADC ==> app.desc[m] == old(app.desc[m])
  {
    app.RegisterType(MAGIC_ADC, Adc.ADC_DESC);
  }

  /**
   * fuse_new_adc_ex for a configuration at `config` whose channel mask is
   * `mask`. While the ADC slot holds the ADC descriptor, a value is made
   * exactly when the mask is non-zero, no other ADC is live and every GPIO
   * channel gets its pin, and it then becomes the singleton.
   */
  method NewAdcEx(app: Application, config: Address, mask: bv8, env: Env, adc: Adc.Driver) returns (v: Header?)
    requires app.Sound()
    requires ArgFits(AdcDescriptor(app.desc[MAGIC_ADC]), Config(config, mask))
    modifies app.desc, app.allocator, (set x | x in app.allocator.blocks)`next, (set x | x in app.allocator.blocks)`prev, adc
    ensures app.Sound() && (old(app.Valid()) ==> app.Valid())
    ensures app.desc[MAGIC_ADC] == AdcDescriptor(old(app.desc[MAGIC_ADC]))
    ensures forall m :: 0 <= m < app.desc.Length && m != MAGIC_ADC ==> app.desc[m] == old(app.desc[m])
    ensures var built := Initialise(app.desc[MAGIC_ADC], MAGIC_ADC, Config(config, mask), env, old(adc.instance) != null);
            (v == null <==> env.oom || !built.ok)
            && (v != null ==> v.payload == built.payload)
    ensures !old(app.desc[MAGIC_ADC]).Registered() || old(app.desc[MAGIC_ADC]) == Adc.ADC_DESC ==>
              (v != null <==> !env.oom && mask != 0 && old(adc.instance) == null
                              && forall ch :: 0 <= ch < Adc.ADC_TEMPERATURE_CHANNEL_NUM ==> ch !in env.failingGpio)
              && adc.instance == (if v != null then v else old(adc.instance))
    ensures v != null ==> fresh(v) && v in app.allocator.blocks && v.magic == MAGIC_ADC && v.size == app.desc[MAGIC_ADC].size && v.ref == 0
    ensures Adc.Grown(old(app.allocator.blocks) + (if v == null then [] else [v]), app.allocator.blocks,
                      if env.oom then 0 else Initialise(app.desc[MAGIC_ADC], MAGIC_ADC, Config(config, mask), env, old(adc.instance) != null).made)
    ensures forall x :: x in app.allocator.blocks && x !in old(app.allocator.blocks) ==> fresh(x)
    ensures (!old(app.desc[MAGIC_ADC]).Registered() || old(app.desc[MAGIC_ADC]) == Adc.ADC_DESC) && !env.oom ==>
              Adc.Grown(old(app.allocator.blocks) + (if v == null then [] else [v]), app.allocator.blocks,
                        Adc.GpiosMade(mask, old(adc.instance) != null, env.failingGpio))
    ensures adc.instance == if v != null && app.desc[MAGIC_ADC].init == InitAdc then v else old(adc.instance)
  {
    ghost var d := app.desc[MAGIC_ADC];
    if !app.desc[MAGIC_ADC].Registered() {
      RegisterAdc(app);
    }
    if !d.Registered() || d == Adc.ADC_DESC {
      AdcDescriptorCallbacks(d, config, mask);
      InitialiseAdc(app.desc[MAGIC_ADC], mask, config, env, adc.instance != null);
    }
    v := app.AllocEx(MAGIC_ADC, Config(config, mask), env, adc);
  }

  /**
   * An ADC whose third GPIO channel fails is not made, but the GPIO values
   * of channels 0 and 1 stay on the live list, retained by nobody, until the
   * next drain frees them.
   */
  method FailedAdcLeavesGpios(config: Address, mask: bv8) returns (made: bool, ghost left: nat, drained: nat)
    requires mask != 0
    ensures !made && left == 2 && drained == 2
  {
    var adc := new Adc.Driver();
    var app := Application.New(false, false, Env(false, true, {}), adc);
    ghost var before := app.allocator.blocks;
    made := RequestFailing(app, config, mask, adc);
    ghost var bs := app.allocator.blocks;
    left := |bs| - |before|;
    RetainedPrefix(bs, Referenced(bs), |before|);
    UncappedSweep(bs, Referenced(bs), 0);
    drained := app.Drain(0, adc);
  }

  /** The request of FailedAdcLeavesGpios: channel 2's GPIO cannot be created. */
  method RequestFailing(app: Application, config: Address, mask: bv8, adc: Adc.Driver) returns (made: bool)
    requires mask != 0 && app.Sound() && adc.instance == null && !app.desc[MAGIC_ADC].Registered()
    modifies app.desc, app.allocator, (set x | x in app.allocator.blocks)`next, (set x | x in app.allocator.blocks)`prev, adc
    ensures !made && app.Sound() && Adc.Grown(old(app.allocator.blocks), app.allocator.blocks, 2)
    ensures forall x :: x in app.allocator.blocks && x !in old(app.allocator.blocks) ==> fresh(x)
  {
    var env := Env(false, true, {2});
    Adc.ScanOutcome(mask, env.failingGpio);
    var v := NewAdcEx(app, config, mask, env, adc);
    made := v != null;
  }

  /**
   * An ADC that nobody retains is freed by the next drain, and its
   * destructor clears the singleton.
   */
  method DrainClearsAdc(config: Address, mask: bv8) returns (made: bool, cleared: bool)
    requires mask != 0
    ensures made && cleared
  {
    var adc := new Adc.Driver();
    var app := Application.New(false, false, Env(false, true, {}), adc);
    var a := RequestAdc(app, config, mask, adc);
    made := a != null;
    ghost var bs := app.allocator.blocks;
    RetainedReferenced(bs);
    UncappedSweep(bs, Referenced(bs), 0);
    var drained := app.Drain(0, adc);
    assert a in bs && a !in app.allocator.blocks;
    cleared := adc.instance == null;
  }

  /**
   * An ADC still retained when the application is destroyed survives the
   * drain; the allocator then releases it without its destructor, so the
   * singleton still names it although no block is live any more.
   */
  method RetainedAdcOutlivesDestroy(config: Address, mask: bv8) returns (made: bool, dangling: bool)
    requires mask != 0
    ensures made && dangling
  {
    var adc := new Adc.Driver();
    var app := Application.New(false, false, Env(false, true, {}), adc);
    var a := RequestAdc(app, config, mask, adc);
    made := a != null;
    app.allocator.Retain(a);
    var status, leaked := app.Destroy(adc);
    dangling := adc.instance == a && app.allocator.head == null;
  }

  /**
   * The request of DrainClearsAdc and RetainedAdcOutlivesDestroy on a fresh
   * application: the ADC is made, unretained, and is the singleton; the
   * GPIO values made with it carry no destructor.
   */
  method RequestAdc(app: Application, config: Address, mask: bv8, adc: Adc.Driver) returns (a: Header?)
    requires mask != 0 && app.Valid() && adc.instance == null && app.StandardTable()
    requires forall b :: b in app.allocator.blocks && b != app.core0 ==> b.ref > 0
    modifies app.desc, app.allocator, (set x | x in app.allocator.blocks)`next, (set x | x in app.allocator.blocks)`prev, adc
    ensures app.Valid() && a != null && fresh(a) && a in app.allocator.blocks && a.ref == 0 && app.IsAdc(a)
    ensures a.ref < UINT16_MAX && adc.instance == a && app.desc[MAGIC_ADC] == Adc.ADC_DESC
    ensures forall b :: b in app.allocator.blocks && b != app.core0 && b != a && b.ref == 0 ==> !app.IsAdc(b)
    ensures forall x :: x in app.allocator.blocks && x !in old(app.allocator.blocks) ==> fresh(x)
  {
    ghost var start := app.allocator.blocks;
    var env := Env(false, true, {});
    a := NewAdcEx(app, config, mask, env, adc);
    Adc.GrownMembers(start + [a], app.allocator.blocks, Adc.GpiosMade(mask, false, env.failingGpio));
    assert app.desc[MAGIC_GPIO] == Unregistered;
  }

  /** An ADC asked for with an empty channel mask is never made. */
  method EmptyMask(config: Address) returns (made: bool)
    ensures !made
  {
    var adc := new Adc.Driver();
    var env := Env(false, true, {});
    var app := Application.New(false, false, env, adc);
    var v := NewAdcEx(app, config, 0, env, adc);
    made := v != null;
  }

  /**
   * Only one ADC is live at a time: a second one is refused while the first
   * exists, and once the first is freed the singleton is clear again.
   */
  method OneAtATime(config: Address, mask: bv8) returns (first: bool, second: bool, third: bool)
    requires mask != 0
    ensures first && !second && third
  {
    var adc := new Adc.Driver();
    var env := Env(false, true, {});
    var app := Application.New(false, false, env, adc);
    var a := RequestAdc(app, config, mask, adc);
    first := a != null;
    ghost var live := app.allocator.blocks;
    var b := NewAdcEx(app, config, mask, env, adc);
    second := b != null;
    Adc.GrownMembers(live, app.allocator.blocks, 0);
    assert a in live;
    app.Free(a, adc);
    var c := NewAdcEx(app, config, mask, env, adc);
    third := c != null;
  }
}
