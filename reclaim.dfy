/**
 * What one pass of fuse_drain leaves of the live list: a head-to-tail sweep
 * that frees every block nobody has retained, stopping after `cap` frees
 * when `cap` is not 0. The sweep is stated over the set of retained
 * headers, taken as a snapshot of the reference counts, so relinking or
 * freeing blocks does not change what it says.
 */
module Reclaim {
  import opened Alloc

  /** The headers of `bs` whose reference count is non-zero. */
  ghost function Referenced(bs: seq<Header>): (r: set<Header>)
    reads (set b | b in bs)`ref
    ensures forall b :: b in r ==> b in bs
    ensures forall b :: b in bs ==> (b in r <==> b.ref > 0)
  {
    set b | b in bs && b.ref > 0
  }

  /**
   * The blocks left after sweeping `bs` when `freed` blocks have been freed
   * already; `keep` are the retained headers.
   */
  function Sweep(bs: seq<Header>, keep: set<Header>, cap: nat, freed: nat): (r: seq<Header>)
    ensures |r| <= |bs|
    ensures forall b :: b in r ==> b in bs
    ensures cap > 0 && freed <= cap ==> |bs| - |r| <= cap - freed
    ensures cap > 0 && freed >= cap ==> r == bs
  {
    if bs == [] || (cap > 0 && freed >= cap) then bs
    else if bs[0] !in keep then Sweep(bs[1..], keep, cap, freed + 1)
    else [bs[0]] + Sweep(bs[1..], keep, cap, freed)
  }

  /**
   * One step of a pass over `kept + rest`, `kept` being the blocks already
   * passed over: the head of `rest` is either freed or joins `kept`.
   */
  lemma SweepStep(kept: seq<Header>, rest: seq<Header>, keep: set<Header>, cap: nat, freed: nat)
    requires rest != [] && !(cap > 0 && freed >= cap)
    ensures rest[0] !in keep ==> kept + Sweep(rest, keep, cap, freed) == kept + Sweep(rest[1..], keep, cap, freed + 1)
    ensures rest[0] in keep ==> kept + Sweep(rest, keep, cap, freed) == (kept + [rest[0]]) + Sweep(rest[1..], keep, cap, freed)
  {
  }

  /** The retained blocks of `bs`, in order: the reference for an uncapped sweep. */
  function Retained(bs: seq<Header>, keep: set<Header>): (r: seq<Header>)
    ensures forall b :: b in r ==> b in bs
    ensures forall b :: b in bs ==> (b in r <==> b in keep)
  {
    if bs == [] then []
    else (if bs[0] in keep then [bs[0]] else []) + Retained(bs[1..], keep)
  }

  /** A list whose first `n` blocks are retained and whose other blocks are not keeps its first `n`. */
  lemma {:induction false} RetainedPrefix(bs: seq<Header>, keep: set<Header>, n: nat)
    requires n <= |bs|
    requires forall k :: 0 <= k < n ==> bs[k] in keep
    requires forall k :: n <= k < |bs| ==> bs[k] !in keep
    ensures Retained(bs, keep) == bs[..n]
  {
    if bs != [] {
      RetainedPrefix(bs[1..], keep, if n == 0 then 0 else n - 1);
      if n > 0 {
        assert bs[..n] == [bs[0]] + bs[1..][..n - 1];
      }
    }
  }

  /** The retained blocks by the current reference counts are the blocks still referenced. */
  lemma RetainedReferenced(bs: seq<Header>)
    ensures forall b :: b in Retained(bs, Referenced(bs)) ==> b in bs
    ensures forall b :: b in bs ==> (b in Retained(bs, Referenced(bs)) <==> b.ref > 0)
  {
  }

  /** An uncapped sweep frees exactly the unretained blocks and keeps the order of the rest. */
  lemma {:induction false} UncappedSweep(bs: seq<Header>, keep: set<Header>, freed: nat)
    ensures Sweep(bs, keep, 0, freed) == Retained(bs, keep)
  {
    if bs != [] {
      UncappedSweep(bs[1..], keep, if bs[0] in keep then freed else freed + 1);
    }
  }

  /** A sweep never frees a retained block. */
  lemma {:induction false} SweepKeepsRetained(bs: seq<Header>, keep: set<Header>, cap: nat, freed: nat)
    ensures forall b :: b in bs && b in keep ==> b in Sweep(bs, keep, cap, freed)
  {
    if bs != [] && !(cap > 0 && freed >= cap) {
      SweepKeepsRetained(bs[1..], keep, cap, if bs[0] in keep then freed else freed + 1);
      assert forall b :: b in bs ==> b == bs[0] || b in bs[1..];
    }
  }

  /** Everything a sweep frees was unretained. */
  lemma {:induction false} SweepFreesUnretained(bs: seq<Header>, keep: set<Header>, cap: nat, freed: nat)
    ensures forall b :: b in bs && b !in Sweep(bs, keep, cap, freed) ==> b !in keep
  {
    SweepKeepsRetained(bs, keep, cap, freed);
  }

  /** A list with nothing unretained is left as it is: the fixed point fuse_destroy drains to. */
  lemma {:induction false} SweepFixedPoint(bs: seq<Header>, keep: set<Header>, cap: nat, freed: nat)
    ensures Sweep(bs, keep, cap, freed) == bs <==> (cap > 0 && freed >= cap) || forall b :: b in bs ==> b in keep
  {
    if bs != [] && !(cap > 0 && freed >= cap) {
      SweepFixedPoint(bs[1..], keep, cap, if bs[0] in keep then freed else freed + 1);
      if bs[0] !in keep {
        assert |Sweep(bs, keep, cap, freed)| < |bs|;
      }
      assert forall b :: b in bs ==> b == bs[0] || b in bs[1..];
    }
  }

  /** How many blocks a pass looks at before it reaches the end of the list or the cap. */
  function Visited(bs: seq<Header>, keep: set<Header>, cap: nat, freed: nat): (n: nat)
    ensures n <= |bs|
    ensures cap > 0 && freed >= cap ==> n == 0
  {
    if bs == [] || (cap > 0 && freed >= cap) then 0
    else 1 + Visited(bs[1..], keep, cap, if bs[0] in keep then freed else freed + 1)
  }

  /**
   * A pass keeps the order of the list: what it leaves is the retained
   * blocks of the part it visited, followed by the part it did not reach.
   * So every unretained block it visits is freed, capped or not.
   */
  lemma {:induction false} SweepOrder(bs: seq<Header>, keep: set<Header>, cap: nat, freed: nat)
    ensures var n := Visited(bs, keep, cap, freed);
            Sweep(bs, keep, cap, freed) == Retained(bs[..n], keep) + bs[n..]
  {
    var n := Visited(bs, keep, cap, freed);
    if bs == [] || (cap > 0 && freed >= cap) {
      assert bs[..n] == [] && bs[n..] == bs;
    } else {
      var freed' := if bs[0] in keep then freed else freed + 1;
      var m := Visited(bs[1..], keep, cap, freed');
      SweepOrder(bs[1..], keep, cap, freed');
      assert n == m + 1;
      assert bs[..n][0] == bs[0] && bs[..n][1..] == bs[1..][..m];
      assert bs[n..] == bs[1..][m..];
    }
  }

  /**
   * A capped pass leaves an unretained block only when it stopped at the
   * cap: it has then freed exactly `cap - freed` blocks.
   */
  lemma {:induction false} CappedStopsAtCap(bs: seq<Header>, keep: set<Header>, cap: nat, freed: nat)
    requires cap > 0 && freed <= cap
    ensures forall b :: b in bs && b !in keep && b in Sweep(bs, keep, cap, freed) ==>
              |bs| - |Sweep(bs, keep, cap, freed)| == cap - freed
  {
    if bs != [] && freed < cap {
      var freed' := if bs[0] in keep then freed else freed + 1;
      CappedStopsAtCap(bs[1..], keep, cap, freed');
      assert forall b :: b in bs ==> b == bs[0] || b in bs[1..];
    }
  }

  /** Sweeping twice uncapped frees nothing the second time. */
  lemma SweepIdempotent(bs: seq<Header>, keep: set<Header>)
    ensures Sweep(Sweep(bs, keep, 0, 0), keep, 0, 0) == Sweep(bs, keep, 0, 0)
  {
    var r := Sweep(bs, keep, 0, 0);
    UncappedSweep(bs, keep, 0);
    SweepFixedPoint(r, keep, 0, 0);
  }
}
