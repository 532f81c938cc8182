/**
 * The built-in allocator: every allocation is prefixed by a header, and the
 * live headers form a doubly linked list with `head` and `tail` on the
 * allocator. A header stands for its payload (the header-before-payload
 * pointer arithmetic is abstracted into object identity).
 */
module Alloc {
  import opened Memory

  const UINT16_MAX: nat := 0xFFFF

  type uint16 = x: int | 0 <= x <= 0xFFFF

  /** struct fuse_allocator_header */
  class Header {
    /** Set by malloc and never written again. */
    const size: nat
    const magic: uint16
    var ref: uint16
    var used: bool
    var prev: Header?
    var next: Header?
    /** The bytes after the header, as far as the value layer writes them. */
    var payload: Payload

    /** The header as malloc leaves it once `memset` has zeroed it. */
    constructor (size: nat, magic: uint16)
      ensures this.size == size && this.magic == magic
      ensures ref == 0 && !used && prev == null && next == null && payload == Uninit
    {
      this.size := size;
      this.magic := magic;
      ref := 0;
      used := false;
      prev := null;
      next := null;
      payload := Uninit;
    }
  }

  /** `s[i]`, as the term the distinctness quantifier is triggered on. */
  function Nth(s: seq<Header>, i: nat): Header
    requires i < |s|
  {
    s[i]
  }

  /** No header occurs twice. */
  predicate Distinct(s: seq<Header>) {
    forall i, j :: 0 <= i < j < |s| ==> Nth(s, i) != Nth(s, j)
  }

  /** Distinct positions hold distinct headers. */
  lemma DistinctFrom(s: seq<Header>, i: nat)
    requires Distinct(s) && i < |s|
    ensures forall j :: 0 <= j < |s| && j != i ==> s[j] != s[i]
  {
    forall j | 0 <= j < |s| && j != i
      ensures s[j] != s[i]
    {
      if j < i { assert Nth(s, j) != Nth(s, i); } else { assert Nth(s, i) != Nth(s, j); }
    }
  }

  /** Cutting one header out of a list without repeats leaves a list without repeats. */
  lemma DistinctCut(s: seq<Header>, i: nat)
    requires Distinct(s) && i < |s|
    ensures Distinct(s[..i] + s[i + 1..])
  {
    var t := s[..i] + s[i + 1..];
    forall p, q | 0 <= p < q < |t|
      ensures Nth(t, p) != Nth(t, q)
    {
      var p', q' := if p < i then p else p + 1, if q < i then q else q + 1;
      assert t[p] == s[p'] && t[q] == s[q'];
      assert Nth(s, p') != Nth(s, q');
    }
  }

  /** Appending a header that is not there keeps the list without repeats. */
  lemma DistinctSnoc(s: seq<Header>, b: Header)
    requires Distinct(s) && b !in s
    ensures Distinct(s + [b])
  {
    var t := s + [b];
    forall p, q | 0 <= p < q < |t|
      ensures Nth(t, p) != Nth(t, q)
    {
      if q < |s| {
        assert Nth(s, p) != Nth(s, q);
      }
    }
  }

  /** `s` without its first occurrence of `b`: the live list after `b` is unlinked. */
  function Remove(s: seq<Header>, b: Header): (r: seq<Header>)
    ensures |r| == if b in s then |s| - 1 else |s|
    ensures forall x :: x in r ==> x in s
  {
    if s == [] then []
    else if s[0] == b then s[1..]
    else [s[0]] + Remove(s[1..], b)
  }

  /** Removal stops at the first occurrence: everything after it stays. */
  lemma {:induction false} RemovePast(p: seq<Header>, b: Header, r: seq<Header>)
    requires b !in p
    ensures Remove(p + [b] + r, b) == p + r
  {
    if p == [] {
      assert p + [b] + r == [b] + r;
    } else {
      var q := p + [b] + r;
      assert q[0] == p[0] && p[0] != b;
      assert q[1..] == p[1..] + [b] + r;
      RemovePast(p[1..], b, r);
      assert p + r == [p[0]] + (p[1..] + r);
    }
  }

  /** In a list without repeats, removing the header at `i` cuts the list there. */
  lemma RemoveAt(s: seq<Header>, i: nat)
    requires Distinct(s) && i < |s|
    ensures Remove(s, s[i]) == s[..i] + s[i + 1..]
  {
    DistinctFrom(s, i);
    assert s == s[..i] + [s[i]] + s[i + 1..];
    RemovePast(s[..i], s[i], s[i + 1..]);
  }

  /** Index and slice facts for a list cut into a visited prefix and the rest. */
  lemma SplitAt<X>(kept: seq<X>, rest: seq<X>)
    requires rest != []
    ensures (kept + rest)[|kept|] == rest[0]
    ensures |rest| > 1 ==> (kept + rest)[|kept| + 1] == rest[1]
    ensures (kept + rest)[..|kept|] == kept && (kept + rest)[|kept| + 1..] == rest[1..]
    ensures (kept + [rest[0]]) + rest[1..] == kept + rest
  {
    assert rest == [rest[0]] + rest[1..];
  }

  /** In a list without repeats, removal takes out exactly `b`. */
  lemma RemoveMembers(s: seq<Header>, b: Header)
    requires Distinct(s)
    ensures forall x :: x in Remove(s, b) <==> x in s && x != b
  {
    if b in s {
      var i :| 0 <= i < |s| && s[i] == b;
      RemoveAt(s, i);
      DistinctFrom(s, i);
      assert forall x :: x in s[..i] + s[i + 1..] <==> x in s[..i] || x in s[i + 1..];
      assert forall x :: x in s <==> x in s[..i] || x == s[i] || x in s[i + 1..] by {
        assert s == s[..i] + [s[i]] + s[i + 1..];
      }
    } else {
      RemoveAbsent(s, b);
    }
  }

  /** Removing a header that is not there changes nothing. */
  lemma {:induction false} RemoveAbsent(s: seq<Header>, b: Header)
    requires b !in s
    ensures Remove(s, b) == s
  {
    if s != [] {
      RemoveAbsent(s[1..], b);
    }
  }

  /** Removal from a list that holds `b` in its first part leaves the second part alone. */
  lemma {:induction false} RemoveAppend(s: seq<Header>, t: seq<Header>, b: Header)
    requires b in s
    ensures Remove(s + t, b) == Remove(s, b) + t
  {
    assert (s + t)[0] == s[0];
    if s[0] != b {
      assert (s + t)[1..] == s[1..] + t;
      RemoveAppend(s[1..], t, b);
    } else {
      assert (s + t)[1..] == s[1..] + t;
    }
  }

  /** Removing the header just appended gives back the list before the append. */
  lemma RemoveLast(s: seq<Header>, b: Header)
    requires b !in s
    ensures Remove(s + [b], b) == s
  {
    RemovePast(s, b, []);
    assert s + [b] + [] == s + [b] && s + [] == s;
  }

  /** The list read from its last header back to its first. */
  function Reversed(s: seq<Header>): (r: seq<Header>)
    ensures |r| == |s|
    ensures forall k :: 0 <= k < |s| ==> r[k] == s[|s| - 1 - k]
  {
    if s == [] then [] else [s[|s| - 1]] + Reversed(s[..|s| - 1])
  }

  /** struct fuse_allocator, with the built-in methods of alloc_builtin.c. */
  class Allocator {
    var head: Header?
    var tail: Header?
    /** The live headers in list order, head first. */
    ghost var blocks: seq<Header>

    /**
     * The link invariant: `prev` is NULL exactly on the first header and
     * `next` exactly on the last, neighbours point at each other, and
     * head/tail are the first and last headers (both NULL when empty).
     */
    ghost predicate Valid()
      reads this, (set b | b in blocks)`prev, (set b | b in blocks)`next
    {
      && (blocks == [] <==> head == null)
      && (blocks == [] <==> tail == null)
      && (blocks != [] ==> head == blocks[0] && tail == blocks[|blocks| - 1])
      && (blocks != [] ==> blocks[0].prev == null && blocks[|blocks| - 1].next == null)
      && (forall i {:trigger blocks[i].next} :: 0 <= i < |blocks| - 1 ==> blocks[i].next == blocks[i + 1])
      && (forall i {:trigger blocks[i].prev} :: 0 < i < |blocks| ==> blocks[i].prev == blocks[i - 1])
      && Distinct(blocks)
    }

    constructor ()
      ensures Valid() && blocks == [] && head == null && tail == null
    {
      head := null;
      tail := null;
      blocks := [];
    }

    /** fuse_allocator_builtin_new; `oom` is whether the underlying malloc fails. */
    static method New(oom: bool) returns (a: Allocator?)
      ensures a == null <==> oom
      ensures a != null ==> fresh(a) && a.Valid() && a.blocks == []
    {
      if oom {
        return null;
      }
      a := new Allocator();
    }

    /**
     * fuse_allocator_builtin_malloc: appends a zeroed header at the tail.
     * `oom` is whether the underlying malloc fails.
     */
    method Malloc(size: nat, magic: uint16, oom: bool) returns (b: Header?)
      requires Valid()
      modifies this, (set x | x in blocks)`next
      ensures Valid()
      ensures b == null <==> oom
      ensures b == null ==> blocks == old(blocks) && head == old(head) && tail == old(tail)
      ensures b != null ==> fresh(b) && blocks == old(blocks) + [b]
      ensures b != null ==> b.ref == 0 && b.size == size && b.magic == magic && b.payload == Uninit
      ensures b != null ==> b.prev == old(tail) && b.next == null && tail == b
      ensures b != null ==> head == (if old(head) == null then b else old(head))
      ensures b != null && old(tail) != null ==> old(tail).next == b
    {
      if oom {
        return null;
      }
      b := new Header(size, magic);
      DistinctSnoc(blocks, b);
      if head == null {
        head := b;
      }
      if tail != null {
        tail.next := b;
      }
      b.prev := tail;
      tail := b;
      blocks := blocks + [b];
    }

    /** fuse_allocator_builtin_free: unlinks `b` and repairs its neighbours. */
    method Free(b: Header)
      requires Valid() && b in blocks
      modifies this, (set x | x in blocks)`prev, (set x | x in blocks)`next
      ensures Valid()
      ensures blocks == Remove(old(blocks), b)
      ensures forall x :: x in blocks <==> x in old(blocks) && x != b
      ensures old(b.prev) != null ==> old(b.prev).next == old(b.next)
      ensures old(b.next) != null ==> old(b.next).prev == old(b.prev)
      ensures head == (if old(head) == b then old(b.next) else old(head))
      ensures tail == (if old(tail) == b then old(b.prev) else old(tail))
    {
      ghost var s := blocks;
      ghost var i :| 0 <= i < |s| && s[i] == b;
      DistinctFrom(s, i);
      if i > 0 { DistinctFrom(s, i - 1); }
      if i + 1 < |s| { DistinctFrom(s, i + 1); }
      DistinctCut(s, i);
      assert b.prev == (if i == 0 then null else s[i - 1]) by {
        if i > 0 { assert s[i - 1].next == s[i]; }
      }
      assert b.next == (if i == |s| - 1 then null else s[i + 1]) by {
        if i < |s| - 1 { assert s[i].next == s[i + 1]; }
      }
      assert (head == b) == (i == 0) && (tail == b) == (i == |s| - 1);
      if b.prev != null {
        b.prev.next := b.next;
      }
      if b.next != null {
        b.next.prev := b.prev;
      }
      if head == b {
        head := b.next;
      }
      if tail == b {
        tail := b.prev;
      }
      blocks := s[..i] + s[i + 1..];
      UnlinkedValid(s, i);
      RemoveAt(s, i);
      RemoveMembers(s, b);
    }

    /** The link invariant after `Free` has relinked around `s[i]`. */
    lemma UnlinkedValid(s: seq<Header>, i: nat)
      requires i < |s| && blocks == s[..i] + s[i + 1..] && Distinct(blocks)
      requires head == (if i == 0 then (if |s| > 1 then s[1] else null) else s[0])
      requires tail == (if i == |s| - 1 then (if i > 0 then s[i - 1] else null) else s[|s| - 1])
      requires forall j {:trigger s[j].next} :: 0 <= j < |s| - 1 && j != i - 1 && j != i ==> s[j].next == s[j + 1]
      requires forall k {:trigger s[k].prev} :: 0 < k < |s| && k != i && k != i + 1 ==> s[k].prev == s[k - 1]
      requires i > 0 ==> s[i - 1].next == (if i + 1 < |s| then s[i + 1] else null)
      requires i + 1 < |s| ==> s[i + 1].prev == (if i > 0 then s[i - 1] else null)
      requires i > 0 ==> s[0].prev == null
      requires i + 1 < |s| ==> s[|s| - 1].next == null
      ensures Valid()
    {
      assert forall j :: 0 <= j < |blocks| ==> blocks[j] == (if j < i then s[j] else s[j + 1]);
      forall j | 0 <= j < |blocks| - 1
        ensures blocks[j].next == blocks[j + 1] && blocks[j + 1].prev == blocks[j]
      {
        if j + 1 < i {
          assert s[j].next == s[j + 1] && s[j + 1].prev == s[j];
        } else if j == i - 1 {
        } else {
          assert blocks[j] == s[j + 1] && blocks[j + 1] == s[j + 2];
          assert s[j + 1].next == s[j + 2] && s[j + 2].prev == s[j + 1];
        }
      }
    }

    /**
     * fuse_allocator_builtin_destroy: walks the list from `head`, saving
     * `next` before each header is given back; `released` is the headers in
     * the order they are freed. The allocator itself is freed too, which the
     * model shows as an empty allocator.
     */
    method Destroy() returns (released: seq<Header>)
      requires Valid()
      modifies this
      ensures released == old(blocks)
      ensures blocks == [] && head == null && tail == null
    {
      var block := head;
      released := [];
      ghost var k := 0;
      while block != null
        invariant 0 <= k <= |blocks|
        invariant released == blocks[..k]
        invariant block == (if k < |blocks| then blocks[k] else null)
        decreases |blocks| - k
      {
        var next := block.next;
        released := released + [block];
        block := next;
        k := k + 1;
      }
      head, tail, blocks := null, null, [];
    }

    /** fuse_allocator_builtin_magic */
    method Magic(b: Header) returns (m: uint16)
      requires Valid() && b in blocks
      ensures m == b.magic
    {
      m := b.magic;
    }

    /** fuse_allocator_builtin_size */
    method Size(b: Header) returns (n: nat)
      requires Valid() && b in blocks
      ensures n == b.size
    {
      n := b.size;
    }

    /** fuse_allocator_builtin_retain */
    method Retain(b: Header)
      requires Valid() && b in blocks && b.ref < UINT16_MAX
      modifies b`ref
      ensures Valid() && b.ref == old(b.ref) + 1
    {
      b.ref := b.ref + 1;
    }

    /**
     * fuse_allocator_builtin_release: decrements the count and, when it
     * reaches zero, unlinks the header at once.
     */
    method Release(b: Header) returns (zero: bool)
      requires Valid() && b in blocks && b.ref > 0
      modifies this, b`ref, (set x | x in blocks)`prev, (set x | x in blocks)`next
      ensures Valid() && b.ref == old(b.ref) - 1
      ensures zero <==> b.ref == 0
      ensures zero ==> blocks == Remove(old(blocks), b)
      ensures zero ==> forall x :: x in blocks <==> x in old(blocks) && x != b
      ensures !zero ==> blocks == old(blocks) && head == old(head) && tail == old(tail)
    {
      b.ref := b.ref - 1;
      zero := b.ref == 0;
      if zero {
        Free(b);
      }
    }

    /** A live header's neighbours are live or NULL. */
    lemma NeighboursLive(h: Header)
      requires Valid() && h in blocks
      ensures h.next == null || h.next in blocks
      ensures h.prev == null || h.prev in blocks
    {
      var i :| 0 <= i < |blocks| && blocks[i] == h;
      if i + 1 < |blocks| {
        assert blocks[i].next == blocks[i + 1];
      }
      if i > 0 {
        assert blocks[i - 1].next == blocks[i];
      }
    }

    /** The headers met by following `next` from `h`, for at most `fuel` steps. */
    ghost function Forward(h: Header?, fuel: nat): seq<Header>
      requires Valid() && (h == null || h in blocks)
      reads this, (set b | b in blocks)`prev, (set b | b in blocks)`next
      decreases fuel
    {
      if h == null || fuel == 0 then [] else NeighboursLive(h); [h] + Forward(h.next, fuel - 1)
    }

    /** The headers met by following `prev` from `h`, for at most `fuel` steps. */
    ghost function Backward(h: Header?, fuel: nat): seq<Header>
      requires Valid() && (h == null || h in blocks)
      reads this, (set b | b in blocks)`prev, (set b | b in blocks)`next
      decreases fuel
    {
      if h == null || fuel == 0 then [] else NeighboursLive(h); [h] + Backward(h.prev, fuel - 1)
    }

    lemma {:induction false} ForwardFrom(i: nat, fuel: nat)
      requires Valid() && i <= |blocks| && fuel >= |blocks| - i
      ensures Forward(if i < |blocks| then blocks[i] else null, fuel) == blocks[i..]
      decreases |blocks| - i
    {
      if i < |blocks| {
        ForwardFrom(i + 1, fuel - 1);
      }
    }

    lemma {:induction false} BackwardFrom(i: nat, fuel: nat)
      requires Valid() && i <= |blocks| && fuel >= i
      ensures Backward(if i > 0 then blocks[i - 1] else null, fuel) == Reversed(blocks[..i])
      decreases i
    {
      if i > 0 {
        BackwardFrom(i - 1, fuel - 1);
        assert blocks[..i][..i - 1] == blocks[..i - 1];
      }
    }

    /**
     * Walking `next` from `head` and walking `prev` from `tail` both stop at
     * NULL and meet the same headers, in opposite orders: the live list.
     */
    lemma TraversalsAgree(fuel: nat)
      requires Valid() && fuel >= |blocks|
      ensures Forward(head, fuel) == blocks
      ensures Backward(tail, fuel) == Reversed(blocks)
    {
      ForwardFrom(0, fuel);
      BackwardFrom(|blocks|, fuel);
      assert blocks[..|blocks|] == blocks;
    }
  }
}
