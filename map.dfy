/**
 * The fixed-capacity map of the value system. Its implementation is not part
 * of this model, so it is an abstract table: a capacity, and a finite map
 * from keys to values, both pointer-sized. A NULL value means "no entry":
 * `get` of a missing key gives NULL, and setting a key to NULL removes it.
 * A set that would need a new entry in a full table fails.
 */
module FuseMap {
  import opened Memory
  import opened Tags
  import opened Alloc
  import opened Value
  import opened Fuse
  import Adc

  const NULL: uintptr := 0

  datatype Table = Table(capacity: nat, entries: map<uintptr, uintptr>)
  {
    /** No more entries than slots, and no entry holding NULL. */
    ghost predicate Wf() {
      |entries| <= capacity && forall k :: k in entries ==> entries[k] != NULL
    }

    function Occupancy(): nat {
      |entries|
    }
  }

  /** A table with no entries. */
  function Empty(capacity: nat): (t: Table)
    ensures t.Wf() && t.capacity == capacity && t.Occupancy() == 0
  {
    Table(capacity, map[])
  }

  /** fuse_map_get: the value stored under `key`, NULL when there is none. */
  function Lookup(t: Table, key: uintptr): (v: uintptr)
    ensures t.Wf() ==> (v == NULL <==> key !in t.entries)
  {
    if key in t.entries then t.entries[key] else NULL
  }

  /** The outcome of fuse_map_set: whether it succeeded, and the table after it. */
  datatype Outcome = Outcome(ok: bool, table: Table)

  /** fuse_map_set */
  function Put(t: Table, key: uintptr, value: uintptr): (r: Outcome)
    ensures r.table.capacity == t.capacity
  {
    if value == NULL then Outcome(true, Table(t.capacity, t.entries - {key}))
    else if key in t.entries || |t.entries| < t.capacity then Outcome(true, Table(t.capacity, t.entries[key := value]))
    else Outcome(false, t)
  }

  /** A set fails exactly when it needs a new slot in a full table, and then changes nothing. */
  lemma PutFails(t: Table, key: uintptr, value: uintptr)
    ensures !Put(t, key, value).ok <==> value != NULL && key !in t.entries && t.Occupancy() >= t.capacity
    ensures !Put(t, key, value).ok ==> Put(t, key, value).table == t
  {
  }

  /** After a successful set, get of that key gives the value set; other keys are untouched. */
  lemma PutLookup(t: Table, key: uintptr, value: uintptr, other: uintptr)
    requires Put(t, key, value).ok
    ensures Lookup(Put(t, key, value).table, key) == value
    ensures other != key ==> Lookup(Put(t, key, value).table, other) == Lookup(t, other)
  {
  }

  /**
   * Occupancy goes up by one for a new key, down by one when a present key
   * is set to NULL, and stays the same otherwise.
   */
  lemma PutOccupancy(t: Table, key: uintptr, value: uintptr)
    ensures Put(t, key, value).table.Occupancy() ==
              if !Put(t, key, value).ok then t.Occupancy()
              else if value == NULL then (if key in t.entries then t.Occupancy() - 1 else t.Occupancy())
              else if key in t.entries then t.Occupancy()
              else t.Occupancy() + 1
  {
    var e := t.entries;
    if value == NULL && key in e {
      assert e == (e - {key})[key := e[key]];
    } else if value != NULL && key !in e && |e| < t.capacity {
      assert (e[key := value]).Keys == e.Keys + {key};
    }
  }

  /** Every set keeps the table well formed. */
  lemma PutWf(t: Table, key: uintptr, value: uintptr)
    requires t.Wf()
    ensures Put(t, key, value).table.Wf()
  {
    PutOccupancy(t, key, value);
  }

  /** Setting a key to NULL and then again to NULL changes nothing the second time. */
  lemma RemoveIdempotent(t: Table, key: uintptr)
    ensures Put(Put(t, key, NULL).table, key, NULL) == Put(t, key, NULL)
  {
    var e := t.entries;
    assert (e - {key}) - {key} == e - {key};
  }

  /** The map value, as the test programs use it; `block` is the MAP value in the application. */
  class Map {
    const capacity: nat
    var entries: map<uintptr, uintptr>
    const block: Header

    function Contents(): Table
      reads this
    {
      Table(capacity, entries)
    }

    ghost predicate Valid()
      reads this
    {
      Contents().Wf()
    }

    constructor (capacity: nat, block: Header)
      ensures Valid() && Contents() == Empty(capacity) && this.block == block
    {
      this.capacity := capacity;
      this.entries := map[];
      this.block := block;
    }

    /** fuse_map_set */
    method Set(key: uintptr, value: uintptr) returns (ok: bool)
      requires Valid()
      modifies this`entries
      ensures Valid()
      ensures Outcome(ok, Contents()) == Put(old(Contents()), key, value)
    {
      PutWf(Contents(), key, value);
      if value == NULL {
        entries := entries - {key};
        return true;
      }
      if key !in entries && |entries| >= capacity {
        return false;
      }
      entries := entries[key := value];
      ok := true;
    }

    /** fuse_map_get */
    method Get(key: uintptr) returns (value: uintptr)
      ensures value == Lookup(Contents(), key)
      ensures value != NULL <==> key in entries && entries[key] != NULL
    {
      value := if key in entries then entries[key] else NULL;
    }

    /**
     * fuse_map_stats: the occupancy, and the capacity through the
     * out-parameter when one is given (`wantSize`).
     */
    method Stats(wantSize: bool) returns (count: nat, size: Option<nat>)
      ensures count == Contents().Occupancy()
      ensures size == if wantSize then Some(capacity) else None
    {
      count := |entries|;
      size := if wantSize then Some(capacity) else None;
    }
  }

  /**
   * fuse_map_new, whose body is not part of this model: a MAP value from
   * fuse_alloc_ex, with an empty table of the given capacity.
   */
  method NewMap(app: Application, capacity: uintptr, env: Env, adc: Adc.Driver) returns (m: Map?)
    requires app.Sound() && ArgFits(app.desc[MAGIC_MAP], Word(capacity))
    modifies app.allocator, (set x | x in app.allocator.blocks)`next, (set x | x in app.allocator.blocks)`prev, adc
    ensures app.Sound() && (old(app.Valid()) ==> app.Valid())
    ensures m == null <==> env.oom || !Initialise(app.desc[MAGIC_MAP], MAGIC_MAP, Word(capacity), env, old(adc.instance) != null).ok
    ensures m == null ==> app.allocator.blocks == old(app.allocator.blocks)
    ensures m != null ==>
              fresh(m) && fresh(m.block) && m.Valid() && m.Contents() == Empty(capacity)
              && app.allocator.blocks == old(app.allocator.blocks) + [m.block] && m.block.magic == MAGIC_MAP
    ensures adc.instance == old(adc.instance)
  {
    var v := app.AllocEx(MAGIC_MAP, Word(capacity), env, adc);
    if v == null {
      return null;
    }
    m := new Map(capacity, v);
  }

  /** fuse_map_destroy, whose body is not part of this model: the MAP value freed. */
  method DestroyMap(app: Application, m: Map, adc: Adc.Driver)
    requires app.Sound() && m.block in app.allocator.blocks && m.block != app.record
    modifies app.allocator, (set x | x in app.allocator.blocks)`next, (set x | x in app.allocator.blocks)`prev, adc
    ensures app.Sound() && (old(app.Valid()) && m.block != old(app.core0) ==> app.Valid())
    ensures forall x :: x in app.allocator.blocks <==> x in old(app.allocator.blocks) && x != m.block
  {
    app.Free(m.block, adc);
  }
}
