/**
 * The two map test programs as verified scenarios: each builds an
 * application, runs the map operations the test performs, and destroys the
 * map and then the application. Every assertion of the test is an `assert`
 * here, and each scenario returns what fuse_destroy returns.
 */
module MapTests {
  import opened Memory
  import opened Tags
  import opened Alloc
  import opened Value
  import opened Fuse
  import opened FuseMap
  import Adc

  /** Nothing fails that the model leaves to its environment. */
  const HEALTHY := Env(false, true, {})

  /** The blocks live after destroying an application whose only values were its record and core 0 queue. */
  lemma NothingLeaked(app: Application, live: seq<Header>, leaked: seq<Header>)
    requires forall b :: b in live ==> b == app.record || b == app.core0
    requires app.core0 != null && app.core0.ref == 0
    requires forall b :: b in leaked ==> b in live
    requires forall b :: b in live ==> (b in leaked <==> b != app.record && b.ref > 0)
    ensures forall b :: b !in leaked
  {
  }

  /**
   * The set-up both tests share: a new application with a map of capacity
   * 10, the map being the only value besides the record and the core 0 queue.
   */
  method Start() returns (app: Application, m: Map, adc: Adc.Driver)
    ensures fresh(app) && fresh(app.allocator) && fresh(app.record) && fresh(app.core0) && fresh(m) && fresh(m.block) && fresh(adc)
    ensures app.Valid() && app.allocator.blocks == [app.record, app.core0, m.block]
    ensures m.block != app.record && m.block != app.core0 && app.core0.ref == 1
    ensures app.exitCode == EXIT_SUCCESS
    ensures m.Valid() && m.Contents() == Empty(10)
  {
    adc := new Adc.Driver();
    var a := Application.New(false, false, HEALTHY, adc);
    assert a != null;
    app := a;
    var n := NewMap(app, 10, HEALTHY, adc);
    assert n != null;
    m := n;
  }

  /** The tear-down both tests share: fuse_map_destroy, then fuse_destroy, which returns 0 with nothing leaked. */
  method Finish(app: Application, m: Map, adc: Adc.Driver) returns (status: int, ghost leaked: seq<Header>)
    requires app.Valid() && app.allocator.blocks == [app.record, app.core0, m.block]
    requires m.block != app.record && m.block != app.core0 && app.core0.ref == 1
    requires app.exitCode == EXIT_SUCCESS
    modifies app.allocator, (set x | x in app.allocator.blocks)`next, (set x | x in app.allocator.blocks)`prev, app.core0`ref, adc
    ensures status == 0 && forall b :: b !in leaked
  {
    DestroyMap(app, m, adc);
    ghost var live := app.allocator.blocks;
    status, leaked := app.Destroy(adc);
    NothingLeaked(app, live, leaked);
  }

  /** TEST_001: a new map of capacity 10 is empty, reports its capacity, and nothing leaks. */
  method Test001() returns (status: int, ghost leaked: seq<Header>)
    ensures status == 0 && forall b :: b !in leaked
  {
    var app, m, adc := Start();
    var count, size := m.Stats(false);
    assert count == 0;
    count, size := m.Stats(true);
    assert count == 0 && size == Some(10);
    status, leaked := Finish(app, m, adc);
  }

  /** The first loop of TEST_002: keys 1 to 10 set to themselves, occupancy counting up. */
  method InsertAll(m: Map)
    requires m.Valid() && m.Contents() == Empty(10)
    modifies m
    ensures m.Valid() && m.capacity == 10 && |m.entries| == 10
    ensures forall k: uintptr :: k in m.entries <==> 1 <= k <= 10
    ensures forall k: uintptr :: k in m.entries ==> m.entries[k] == k
  {
    var i: uintptr := 1;
    while i <= 10
      invariant 1 <= i <= 11 && m.Valid() && m.capacity == 10
      invariant forall k: uintptr :: k in m.entries <==> 1 <= k < i
      invariant forall k: uintptr :: k in m.entries ==> m.entries[k] == k
      invariant |m.entries| == i - 1
    {
      PutOccupancy(m.Contents(), i, i);
      var ok := m.Set(i, i);
      assert ok;
      var count, _ := m.Stats(false);
      assert count == i as nat;
      i := i + 1;
    }
  }

  /** The second loop of TEST_002: every key reads back as itself. */
  method ReadAll(m: Map)
    requires forall k: uintptr :: k in m.entries <==> 1 <= k <= 10
    requires forall k: uintptr :: k in m.entries ==> m.entries[k] == k
    ensures forall k: uintptr :: 1 <= k <= 10 ==> Lookup(m.Contents(), k) == k
  {
    var i: uintptr := 1;
    while i <= 10
      invariant 1 <= i <= 11
      invariant forall k: uintptr :: 1 <= k < i ==> Lookup(m.Contents(), k) == k
    {
      var j := m.Get(i);
      assert j == i;
      i := i + 1;
    }
  }

  /** The third loop of TEST_002: each key set to NULL reads back NULL, occupancy counting down to 0. */
  method RemoveAll(m: Map)
    requires m.Valid() && m.capacity == 10 && |m.entries| == 10
    requires forall k: uintptr :: k in m.entries <==> 1 <= k <= 10
    requires forall k: uintptr :: k in m.entries ==> m.entries[k] == k
    modifies m
    ensures m.Valid() && m.Contents() == Empty(10)
  {
    var i: uintptr := 1;
    while i <= 10
      invariant 1 <= i <= 11 && m.Valid() && m.capacity == 10
      invariant forall k: uintptr :: k in m.entries <==> i <= k <= 10
      invariant forall k: uintptr :: k in m.entries ==> m.entries[k] == k
      invariant |m.entries| == 11 - i
    {
      PutOccupancy(m.Contents(), i, NULL);
      var ok := m.Set(i, NULL);
      assert ok;
      var j := m.Get(i);
      assert j == NULL;
      var count, _ := m.Stats(false);
      assert count == 10 - i as nat;
      i := i + 1;
    }
    assert m.entries == map[];
  }

  /**
   * TEST_002: keys 1 to 10 are set to themselves, occupancy counting up;
   * each reads back; each is then set to NULL, reading back NULL and
   * occupancy counting down to 0; nothing leaks.
   */
  method Test002() returns (status: int, ghost leaked: seq<Header>)
    ensures status == 0 && forall b :: b !in leaked
  {
    var app, m, adc := Start();
    InsertAll(m);
    ReadAll(m);
    RemoveAll(m);
    status, leaked := Finish(app, m, adc);
  }
}
