/** The fixed-size circular buffer: index arithmetic over values first, then the class. */
module Rings {
  import opened Bytes

  /** The slot i places after `start` in a ring of n slots. */
  function Slot(start: nat, i: nat, n: nat): (s: nat)
    requires start < n && i <= n
    ensures s < n
  {
    if start + i < n then start + i else start + i - n
  }

  /** The wrap the code writes with the remainder operator. */
  lemma SlotIsRemainder(start: nat, i: nat, n: nat)
    requires start < n && i <= n
    ensures (start + i) % n == Slot(start, i, n)
  {
  }

  /** The queue held by `count` slots of a ring, from slot `start` on. */
  function Queue<T>(buf: seq<T>, start: nat, count: nat): (q: seq<T>)
    requires start < |buf| && count <= |buf|
    ensures |q| == count
  {
    seq(count, i requires 0 <= i < count => buf[Slot(start, i, |buf|)])
  }

  /** A queue is its front and the queue that starts behind it. */
  lemma QueueSplits<T>(buf: seq<T>, start: nat, count: nat, more: nat)
    requires start < |buf| && count + more <= |buf|
    ensures Queue(buf, start, count + more) == Queue(buf, start, count) + Queue(buf, Slot(start, count, |buf|), more)
  {
  }

  /** Storing at the slot behind the queue appends to it. */
  lemma StoreAppends<T>(buf: seq<T>, start: nat, count: nat, x: T)
    requires start < |buf| && count < |buf|
    ensures Queue(buf[Slot(start, count, |buf|) := x], start, count + 1) == Queue(buf, start, count) + [x]
  {
  }

  /** One entry of an I/O vector: `len` slots from `start` on. */
  datatype Region = Region(start: nat, len: nat)

  function Total(iov: seq<Region>): nat
  {
    if iov == [] then 0 else iov[0].len + Total(iov[1..])
  }

  /** Where the j-th byte of the regions, taken in order, lies in memory. */
  function Place(iov: seq<Region>, j: nat): (p: nat)
    requires j < Total(iov)
  {
    if j < iov[0].len then iov[0].start + j else Place(iov[1..], j - iov[0].len)
  }

  /** What `writev` reads through the regions. */
  function Gather<T>(buf: seq<T>, iov: seq<Region>): seq<T>
    requires forall j :: 0 <= j < Total(iov) ==> Place(iov, j) < |buf|
  {
    seq(Total(iov), j requires 0 <= j < Total(iov) => buf[Place(iov, j)])
  }

  /** What `readv` leaves in memory when it delivers `data` through the regions. */
  function Scatter<T>(buf: seq<T>, iov: seq<Region>, data: seq<T>): (r: seq<T>)
    requires |data| <= Total(iov)
    requires forall j :: 0 <= j < Total(iov) ==> Place(iov, j) < |buf|
    ensures |r| == |buf|
  {
    if data == [] then buf
    else
      var last := |data| - 1;
      Scatter(buf, iov, data[..last])[Place(iov, last) := data[last]]
  }

  /** The regions covering n slots from `start` on, in at most `maxIov` pieces. */
  function Regions(start: nat, n: nat, capacity: nat, maxIov: nat): (iov: seq<Region>)
    requires start < capacity && n <= capacity
    ensures |iov| <= maxIov
  {
    var contiguous := capacity - start;
    if n == 0 || maxIov == 0 then []
    else if contiguous >= n then [Region(start, n)]
    else if maxIov < 2 then [Region(start, contiguous)]
    else [Region(start, contiguous), Region(0, n - contiguous)]
  }

  lemma RegionsTotal(start: nat, n: nat, capacity: nat, maxIov: nat)
    requires start < capacity && n <= capacity
    ensures Total(Regions(start, n, capacity, maxIov)) ==
            if maxIov == 0 then 0 else if maxIov == 1 then Min(n, capacity - start) else n
  {
    var iov := Regions(start, n, capacity, maxIov);
    if |iov| == 2 {
      assert Total(iov[1..]) == iov[1].len + Total(iov[1..][1..]);
    }
  }

  /** The regions list the slots in ring order. */
  lemma PlaceIsSlot(start: nat, n: nat, capacity: nat, maxIov: nat, j: nat)
    requires start < capacity && n <= capacity
    requires j < Total(Regions(start, n, capacity, maxIov))
    ensures j < n && Place(Regions(start, n, capacity, maxIov), j) == Slot(start, j, capacity)
  {
    RegionsTotal(start, n, capacity, maxIov);
    var iov := Regions(start, n, capacity, maxIov);
    if |iov| == 2 && j >= iov[0].len {
      assert iov[1..] == [iov[1]];
      assert Total(iov) == iov[0].len + Total(iov[1..]);
    }
  }

  lemma PlacesAreSlots(start: nat, n: nat, capacity: nat, maxIov: nat)
    requires start < capacity && n <= capacity
    ensures var iov := Regions(start, n, capacity, maxIov);
            && Total(iov) <= n
            && forall j :: 0 <= j < Total(iov) ==> Place(iov, j) == Slot(start, j, capacity)
  {
    var iov := Regions(start, n, capacity, maxIov);
    RegionsTotal(start, n, capacity, maxIov);
    forall j | 0 <= j < Total(iov)
      ensures Place(iov, j) == Slot(start, j, capacity)
    {
      PlaceIsSlot(start, n, capacity, maxIov, j);
    }
  }

  /** Filling regions that list the slots behind the queue appends to the queue. */
  lemma {:induction false} ScatterAppends<T>(buf: seq<T>, read: nat, count: nat, iov: seq<Region>, data: seq<T>)
    requires read < |buf| && count + Total(iov) <= |buf| && |data| <= Total(iov)
    requires forall j :: 0 <= j < Total(iov) ==> Place(iov, j) < |buf| && Place(iov, j) == Slot(read, count + j, |buf|)
    ensures Queue(Scatter(buf, iov, data), read, count + |data|) == Queue(buf, read, count) + data
  {
    if data != [] {
      var last := |data| - 1;
      ScatterAppends(buf, read, count, iov, data[..last]);
      StoreAppends(Scatter(buf, iov, data[..last]), read, count + last, data[last]);
    }
  }

  lemma SlotShift(read: nat, count: nat, j: nat, n: nat)
    requires read < n && count + j <= n
    ensures Slot(Slot(read, count, n), j, n) == Slot(read, count + j, n)
  {
  }

  /** A zero-copy receive appends exactly the delivered bytes to the queue, and so touches no live
      element. */
  lemma ZeroCopyAppends<T>(buf: seq<T>, read: nat, count: nat, maxIov: nat, data: seq<T>)
    requires read < |buf| && count <= |buf|
    requires |data| <= Total(Regions(Slot(read, count, |buf|), |buf| - count, |buf|, maxIov))
    ensures var iov := Regions(Slot(read, count, |buf|), |buf| - count, |buf|, maxIov);
            && count + |data| <= |buf|
            && (forall j :: 0 <= j < Total(iov) ==> Place(iov, j) < |buf|)
            && Queue(Scatter(buf, iov, data), read, count + |data|) == Queue(buf, read, count) + data
  {
    hide Regions, Queue, Scatter, Slot, Total, Place;
    var n := |buf|;
    var write := Slot(read, count, n);
    var iov := Regions(write, n - count, n, maxIov);
    RegionsTotal(write, n - count, n, maxIov);
    forall j | 0 <= j < Total(iov)
      ensures Place(iov, j) < |buf| && Place(iov, j) == Slot(read, count + j, n)
    {
      PlaceIsSlot(write, n - count, n, maxIov, j);
      SlotShift(read, count, j, n);
    }
    ScatterAppends(buf, read, count, iov, data);
  }

  class RingBuffer<T(0)> {
    const buffer: array<T>
    var readIdx: nat
    var writeIdx: nat
    var count: nat

    ghost predicate Valid()
      reads this, buffer
    {
      && readIdx < buffer.Length
      && count <= buffer.Length
      && writeIdx == Slot(readIdx, count, buffer.Length)
    }

    /** The abstract queue, oldest element first. */
    ghost function Contents(): (q: seq<T>)
      requires Valid()
      reads this, buffer
      ensures |q| == count
    {
      Queue(buffer[..], readIdx, count)
    }

    constructor (capacity: nat)
      requires capacity > 0
      ensures Valid() && Contents() == [] && fresh(buffer) && buffer.Length == capacity
    {
      buffer := new T[capacity];
      readIdx, writeIdx, count := 0, 0, 0;
    }

    function Available(): (n: nat)
      requires Valid()
      reads this, buffer
      ensures n + |Contents()| == buffer.Length
    {
      buffer.Length - count
    }

    method Push(data: seq<T>) returns (ok: bool)
      requires Valid()
      modifies this`writeIdx, this`count, buffer
      ensures Valid()
      ensures ok <==> old(|Contents()|) + |data| <= buffer.Length
      ensures Contents() == if ok then old(Contents()) + data else old(Contents())
    {
      if Available() < |data| {
        return false;
      }
      ghost var before := Contents();
      for i := 0 to |data|
        invariant count == |before| && count + |data| <= buffer.Length
        invariant writeIdx == Slot(readIdx, count + i, buffer.Length)
        invariant Queue(buffer[..], readIdx, count + i) == before + data[..i]
      {
        ghost var b := buffer[..];
        StoreAppends(b, readIdx, count + i, data[i]);
        buffer[writeIdx] := data[i];
        assert buffer[..] == b[writeIdx := data[i]];
        SlotIsRemainder(writeIdx, 1, buffer.Length);
        writeIdx := (writeIdx + 1) % buffer.Length;
      }
      count := count + |data|;
      ok := true;
    }

    method Peek(data: array<T>, maxLen: nat) returns (len: nat)
      requires Valid() && data != buffer && maxLen <= data.Length
      modifies data
      ensures len == Min(maxLen, |Contents()|)
      ensures data[..len] == Contents()[..len]
      ensures data[len..] == old(data[len..])
    {
      len := Min(maxLen, count);
      var idx := readIdx;
      for i := 0 to len
        invariant idx == Slot(readIdx, i, buffer.Length)
        invariant data[..i] == Contents()[..i]
        invariant data[len..] == old(data[len..])
      {
        data[i] := buffer[idx];
        SlotIsRemainder(idx, 1, buffer.Length);
        idx := (idx + 1) % buffer.Length;
        assert data[..i + 1] == data[..i] + [data[i]];
        assert Contents()[..i + 1] == Contents()[..i] + [Contents()[i]];
      }
    }

    method Advance(amount: nat)
      requires Valid()
      modifies this`readIdx, this`count
      ensures Valid()
      ensures Contents() == old(Contents())[Min(amount, |old(Contents())|)..]
    {
      var len := amount;
      if len > count {
        len := count;
      }
      ghost var before, r, n := Contents(), readIdx, buffer.Length;
      SlotIsRemainder(readIdx, len, buffer.Length);
      readIdx := (readIdx + len) % buffer.Length;
      count := count - len;
      forall k | 0 <= k < count
        ensures buffer[Slot(readIdx, k, n)] == before[len + k]
      {
        assert Slot(readIdx, k, n) == Slot(r, len + k, n);
      }
    }

    method Clear()
      requires Valid()
      modifies this
      ensures Valid() && Contents() == []
    {
      readIdx, writeIdx, count := 0, 0, 0;
    }

    /** The contiguous view offered to readers: inside the array, and then equal to the whole
        queue, exactly when the contents do not wrap. */
    function View(): (v: Region)
      requires Valid()
      reads this, buffer
      ensures v.start + v.len <= buffer.Length <==> count == 0 || readIdx + count <= buffer.Length
      ensures v.start + v.len <= buffer.Length ==> buffer[v.start..v.start + v.len] == Contents()
    {
      if count == 0 then Region(0, 0) else Region(readIdx, count)
    }

    function FillIovec(maxIov: nat): (iov: seq<Region>)
      requires Valid()
      reads this, buffer
      ensures |iov| <= maxIov
      ensures forall j :: 0 <= j < Total(iov) ==> Place(iov, j) < buffer.Length
      ensures Gather(buffer[..], iov) <= Contents()
      ensures maxIov >= 2 ==> Gather(buffer[..], iov) == Contents()
      ensures maxIov >= 1 && Contents() != [] ==> Gather(buffer[..], iov) != []
    {
      PlacesAreSlots(readIdx, count, buffer.Length, maxIov);
      RegionsTotal(readIdx, count, buffer.Length, maxIov);
      if count == 0 || maxIov == 0 then []
      else
        var contiguous := buffer.Length - readIdx;
        if contiguous >= count then [Region(readIdx, count)]
        else if maxIov < 2 then [Region(readIdx, contiguous)]
        else [Region(readIdx, contiguous), Region(0, count - contiguous)]
    }

    /** The free slots offered to `readv`: none of them holds a live element. */
    function FillIovecWrite(maxIov: nat): (iov: seq<Region>)
      requires Valid()
      reads this, buffer
      ensures iov == Regions(writeIdx, Available(), buffer.Length, maxIov)
      ensures Total(iov) <= Available() && (maxIov >= 2 ==> Total(iov) == Available())
      ensures iov == [] <==> maxIov == 0 || Available() == 0
      ensures forall j, i :: 0 <= j < Total(iov) && 0 <= i < count ==>
                Place(iov, j) != Slot(readIdx, i, buffer.Length)
    {
      PlacesAreSlots(writeIdx, Available(), buffer.Length, maxIov);
      RegionsTotal(writeIdx, Available(), buffer.Length, maxIov);
      var avail := Available();
      if avail == 0 || maxIov == 0 then []
      else
        var contiguous := buffer.Length - writeIdx;
        if contiguous >= avail then [Region(writeIdx, avail)]
        else if maxIov < 2 then [Region(writeIdx, contiguous)]
        else [Region(writeIdx, contiguous), Region(0, avail - contiguous)]
    }

    /** The kernel's part of a zero-copy receive: `readv` fills the regions in order. */
    method Readv(iov: seq<Region>, data: seq<T>)
      requires |data| <= Total(iov)
      requires forall j :: 0 <= j < Total(iov) ==> Place(iov, j) < buffer.Length
      modifies buffer
      ensures buffer[..] == Scatter(old(buffer[..]), iov, data)
    {
      for k := 0 to |data|
        invariant buffer[..] == Scatter(old(buffer[..]), iov, data[..k])
      {
        buffer[Place(iov, k)] := data[k];
        assert data[..k + 1][..k] == data[..k];
      }
      assert data[..|data|] == data;
    }

    method CommitWrite(amount: nat)
      requires Valid()
      modifies this`writeIdx, this`count
      ensures Valid() && readIdx == old(readIdx)
      ensures count == old(count) + Min(amount, buffer.Length - old(count))
      ensures Contents() == old(Contents()) + Queue(buffer[..], old(writeIdx), count - old(count))
    {
      var len := amount;
      if len > Available() {
        len := Available();
      }
      SlotIsRemainder(writeIdx, len, buffer.Length);
      QueueSplits(buffer[..], readIdx, count, len);
      writeIdx := (writeIdx + len) % buffer.Length;
      count := count + len;
    }

    /** A whole zero-copy receive of `data`: region filling, `readv`, commit. */
    method Receive(data: seq<T>)
      requires Valid() && |data| <= Available()
      modifies this`writeIdx, this`count, buffer
      ensures Valid()
      ensures Contents() == old(Contents()) + data
    {
      var iov := FillIovecWrite(2);
      ZeroCopyAppends(buffer[..], readIdx, count, 2, data);
      Readv(iov, data);
      CommitWrite(|data|);
    }

    /** The pointer view of the first contiguous piece. */
    function ReadPtr(): (v: Region)
      requires Valid()
      reads this, buffer
      ensures v.start + v.len <= buffer.Length
      ensures buffer[v.start..v.start + v.len] <= Contents()
      ensures v.len == 0 <==> Contents() == []
    {
      if count == 0 then Region(0, 0)
      else
        var contiguous := buffer.Length - readIdx;
        Region(readIdx, if contiguous >= count then count else contiguous)
    }
  }
}
