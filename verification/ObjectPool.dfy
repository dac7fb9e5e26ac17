/** The fixed-slot pool with its free list. */
module Pools {

  /** The slots in use. */
  function Active(slots: seq<bool>): (s: set<nat>)
    ensures forall i :: i in s <==> 0 <= i < |slots| && slots[i]
  {
    set i: nat | i < |slots| && slots[i]
  }

  lemma ActiveUpdate(slots: seq<bool>, i: nat, b: bool)
    requires i < |slots|
    ensures Active(slots[i := b]) == if b then Active(slots) + {i} else Active(slots) - {i}
  {
  }

  /** `free` lists every unused slot once, and nothing else. */
  predicate Lists(free: seq<nat>, slots: seq<bool>)
  {
    && (forall k :: 0 <= k < |free| ==> free[k] < |slots| && !slots[free[k]])
    && (forall j, k :: 0 <= j < k < |free| ==> free[j] != free[k])
    && (forall i :: 0 <= i < |slots| && !slots[i] ==> i in free)
  }

  /** The numbers below n. */
  function Range(n: nat): (s: set<nat>)
    ensures |s| == n
    ensures forall i: nat :: i in s <==> i < n
  {
    if n == 0 then {} else Range(n - 1) + {n - 1}
  }

  function Members(free: seq<nat>): (s: set<nat>)
    ensures forall i :: i in s <==> i in free
  {
    if free == [] then {} else
      var last := |free| - 1;
      assert forall i :: i in free <==> i in free[..last] || i == free[last];
      Members(free[..last]) + {free[last]}
  }

  /** A duplicate-free list has as many entries as members. */
  lemma {:induction false} ListSize(free: seq<nat>)
    requires forall j, k :: 0 <= j < k < |free| ==> free[j] != free[k]
    ensures |Members(free)| == |free|
  {
    if free != [] {
      var last := |free| - 1;
      var init, x := free[..last], free[last];
      ListSize(init);
      assert x !in init;
      assert Members(free) == Members(init) + {x};
    }
  }

  /** The free list and the slots in use add up to the capacity. */
  lemma InUseIsActive(free: seq<nat>, slots: seq<bool>)
    requires Lists(free, slots)
    ensures |free| + |Active(slots)| == |slots|
  {
    ListSize(free);
    var idle, all := Members(free), Range(|slots|);
    assert idle !! Active(slots) && idle + Active(slots) == all;
  }

  lemma ListsAcquire(free: seq<nat>, slots: seq<bool>)
    requires Lists(free, slots) && free != []
    ensures var last := |free| - 1;
            free[last] < |slots| && Lists(free[..last], slots[free[last] := true])
  {
    var last := |free| - 1;
    forall i | 0 <= i < |slots| && !slots[i] && i != free[last] ensures i in free[..last] {
      var k :| 0 <= k < |free| && free[k] == i;
      assert free[..last][k] == i;
    }
  }

  lemma ListsRelease(free: seq<nat>, slots: seq<bool>, idx: nat)
    requires Lists(free, slots) && idx < |slots| && slots[idx]
    ensures Lists(free + [idx], slots[idx := false])
  {
    var next := free + [idx];
    forall i | 0 <= i < |slots| && !slots[idx := false][i] ensures i in next {
      assert next[|free|] == idx;
      if i != idx {
        var k :| 0 <= k < |free| && free[k] == i;
        assert next[k] == i;
      }
    }
  }

  class ObjectPool {
    const freeList: array<nat>
    const slotActive: array<bool>
    var freeCount: nat

    /** The free-list prefix is a duplicate-free listing of exactly the inactive slots. */
    ghost predicate Valid()
      reads this, freeList, slotActive
    {
      && freeList.Length == slotActive.Length && freeCount <= freeList.Length
      && Lists(freeList[..freeCount], slotActive[..])
    }

    constructor (maxSlots: nat)
      ensures Valid() && slotActive.Length == maxSlots && fresh(freeList) && fresh(slotActive)
      ensures forall i :: 0 <= i < maxSlots ==> !slotActive[i]
    {
      freeList := new nat[maxSlots];
      slotActive := new bool[maxSlots];
      freeCount := 0;
      new;
      Reset();
    }

    method Reset()
      requires freeList.Length == slotActive.Length
      modifies this, freeList, slotActive
      ensures Valid() && Active(slotActive[..]) == {}
    {
      for i := 0 to freeList.Length
        invariant forall k :: 0 <= k < i ==> freeList[k] == k && !slotActive[k]
      {
        freeList[i] := i;
        slotActive[i] := false;
      }
      freeCount := freeList.Length;
      assert forall i :: 0 <= i < freeCount ==> freeList[..freeCount][i] == i;
    }

    /** A slot that was not in use, now in use, or -1 when every slot is. */
    method Acquire() returns (idx: int)
      requires Valid()
      modifies this, freeList, slotActive
      ensures Valid()
      ensures idx == -1 <==> old(Active(slotActive[..])) == Range(slotActive.Length)
      ensures idx == -1 ==> Active(slotActive[..]) == old(Active(slotActive[..]))
      ensures idx != -1 ==> 0 <= idx < slotActive.Length && idx !in old(Active(slotActive[..]))
      ensures idx != -1 ==> Active(slotActive[..]) == old(Active(slotActive[..])) + {idx}
    {
      ghost var free, slots := freeList[..freeCount], slotActive[..];
      if freeCount == 0 {
        return -1;
      }
      ListsAcquire(free, slots);
      freeCount := freeCount - 1;
      idx := freeList[freeCount];
      slotActive[idx] := true;
      assert freeList[..freeCount] == free[..freeCount];
      assert slotActive[..] == slots[idx := true];
      ActiveUpdate(slots, idx, true);
      assert idx !in Active(slots) && idx in Range(slotActive.Length);
    }

    /** Releasing a slot in use frees it; any other index, however stale, changes nothing. */
    method Release(idx: int)
      requires Valid()
      modifies this, freeList, slotActive
      ensures Valid()
      ensures Active(slotActive[..]) == old(Active(slotActive[..])) - (if idx < 0 then {} else {idx})
    {
      if idx < 0 || idx >= slotActive.Length { return; }
      if !slotActive[idx] { return; }
      ghost var free, slots := freeList[..freeCount], slotActive[..];
      InUseIsActive(free, slots);
      assert idx in Active(slots);
      ListsRelease(free, slots, idx);
      slotActive[idx] := false;
      freeList[freeCount] := idx;
      freeCount := freeCount + 1;
      assert freeList[..freeCount] == free + [idx];
      assert slotActive[..] == slots[idx := false];
      ActiveUpdate(slots, idx, false);
    }

    function InUse(): (n: nat)
      requires Valid()
      reads this, freeList, slotActive
      ensures n == |Active(slotActive[..])|
    {
      InUseIsActive(freeList[..freeCount], slotActive[..]);
      slotActive.Length - freeCount
    }

    predicate IsActive(idx: int): (r: bool)
      reads this, slotActive
      ensures r <==> idx in Active(slotActive[..])
    {
      0 <= idx < slotActive.Length && slotActive[idx]
    }
  }

  datatype Op = DoAcquire | DoRelease(idx: int) | DoReset

  /** What a client holds after n operations that were answered with `handed`, having started with
      `held`: acquired and not yet released. */
  function Held(held: set<nat>, ops: seq<Op>, handed: seq<int>, n: nat): set<nat>
    requires n <= |ops| && n <= |handed|
  {
    if n == 0 then held
    else
      var before := Held(held, ops, handed, n - 1);
      match ops[n - 1]
      case DoAcquire => if handed[n - 1] < 0 then before else before + {handed[n - 1]}
      case DoRelease(idx) => if idx < 0 then before else before - {idx}
      case DoReset => {}
  }

  lemma {:induction false} HeldPrefix(held: set<nat>, ops: seq<Op>, handed: seq<int>, x: int, n: nat)
    requires n <= |ops| && n <= |handed|
    ensures Held(held, ops, handed + [x], n) == Held(held, ops, handed, n)
  {
    if n > 0 { HeldPrefix(held, ops, handed, x, n - 1); }
  }

  /** Over any sequence of acquires, releases (double, stale or out of range) and resets, the active
      slots are exactly those the client holds, and an acquired slot is one it did not hold. */
  method Exercise(pool: ObjectPool, ops: seq<Op>) returns (handed: seq<int>)
    requires pool.Valid()
    modifies pool, pool.freeList, pool.slotActive
    ensures pool.Valid() && |handed| == |ops|
    ensures Active(pool.slotActive[..]) == Held(old(Active(pool.slotActive[..])), ops, handed, |ops|)
    ensures forall n :: 0 <= n < |ops| && ops[n].DoAcquire? ==>
              handed[n] !in Held(old(Active(pool.slotActive[..])), ops, handed, n)
  {
    ghost var held := Active(pool.slotActive[..]);
    handed := [];
    for n := 0 to |ops|
      invariant pool.Valid() && |handed| == n
      invariant Active(pool.slotActive[..]) == Held(held, ops, handed, n)
      invariant forall m :: 0 <= m < n && ops[m].DoAcquire? ==> handed[m] !in Held(held, ops, handed, m)
    {
      ghost var done := handed;
      var answer := Perform(pool, ops[n]);
      handed := handed + [answer];
      forall m | 0 <= m <= n ensures Held(held, ops, handed, m) == Held(held, ops, done, m) {
        HeldPrefix(held, ops, done, answer, m);
      }
    }
  }

  method Perform(pool: ObjectPool, op: Op) returns (answer: int)
    requires pool.Valid()
    modifies pool, pool.freeList, pool.slotActive
    ensures pool.Valid()
    ensures Active(pool.slotActive[..]) == Held(old(Active(pool.slotActive[..])), [op], [answer], 1)
    ensures op.DoAcquire? ==> answer !in old(Active(pool.slotActive[..]))
  {
    ghost var before := Active(pool.slotActive[..]);
    answer := -1;
    match op {
      case DoAcquire => answer := pool.Acquire();
      case DoRelease(idx) => pool.Release(idx);
      case DoReset => pool.Reset();
    }
    assert Held(before, [op], [answer], 0) == before;
  }
}
