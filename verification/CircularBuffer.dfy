/** `PodCircularBuffer`: a ring buffer with read and write positions and two flags. */
module CircularBuffer {
  /** `d` with `items` written from position `to` on. */
  function Overwrite<T>(d: seq<T>, to: int, items: seq<T>): (r: seq<T>)
    requires 0 <= to && to + |items| <= |d|
    ensures |r| == |d|
  {
    d[..to] + items + d[to + |items|..]
  }

  /** memcpy between two arrays. */
  method CopyItems<T>(src: array<T>, from: int, dst: array<T>, to: int, count: int)
    requires 0 <= count && 0 <= from && from + count <= src.Length && 0 <= to && to + count <= dst.Length
    requires src != dst
    modifies dst
    ensures dst[..] == Overwrite(old(dst[..]), to, src[from..from + count])
  {
    ghost var before := dst[..];
    for i := 0 to count
      invariant dst[..] == Overwrite(before, to, src[from..from + i])
    {
      dst[to + i] := src[from + i];
      assert src[from..from + i + 1] == src[from..from + i] + [src[from + i]];
    }
  }

  /** The queue a memory, two positions and the empty flag stand for, oldest item first. */
  function View<T>(d: seq<T>, readPos: int, writePos: int, isEmpty: bool): seq<T>
    requires 0 <= readPos <= |d| && 0 <= writePos <= |d|
  {
    if isEmpty then []
    else if readPos < writePos then d[readPos..writePos]
    else d[readPos..] + d[..writePos]
  }

  /** The position after `pos` items, going round at the end of the memory. */
  function Advance(pos: int, count: int, size: int): int {
    if pos + count < size then pos + count else 0
  }

  /** Writing items into free space, up to the end of the memory at most, appends them. */
  lemma AppendRun<T>(d: seq<T>, readPos: int, writePos: int, isEmpty: bool, items: seq<T>)
    requires 0 <= readPos < |d| && 0 <= writePos < |d| && writePos + |items| <= |d|
    requires isEmpty ==> readPos == writePos && items != []
    requires !isEmpty && writePos <= readPos ==> writePos + |items| <= readPos
    ensures View(Overwrite(d, writePos, items), readPos, Advance(writePos, |items|, |d|), false) ==
            View(d, readPos, writePos, isEmpty) + items
  {
    var d' := Overwrite(d, writePos, items);
    var w := Advance(writePos, |items|, |d|);
    assert d'[writePos..writePos + |items|] == items;
    if isEmpty {
      assert View(d', readPos, w, false) == items;
    }
  }

  /** Writing to the end of the memory and then from its start. */
  lemma AppendTwo<T>(d: seq<T>, readPos: int, writePos: int, isEmpty: bool, items: seq<T>)
    requires 0 <= readPos <= writePos < |d|
    requires if isEmpty then readPos == writePos else readPos < writePos
    requires |d| - writePos <= |items| <= |d| - writePos + readPos
    ensures var left := |d| - writePos;
      View(Overwrite(Overwrite(d, writePos, items[..left]), 0, items[left..]), readPos, |items| - left, false) ==
      View(d, readPos, writePos, isEmpty) + items
  {
    var left := |d| - writePos;
    AppendRun(d, readPos, writePos, isEmpty, items[..left]);
    AppendRun(Overwrite(d, writePos, items[..left]), readPos, 0, false, items[left..]);
    assert items == items[..left] + items[left..];
  }

  /** Reading items, up to the end of the memory at most, takes them off the front. */
  lemma TakeRun<T>(d: seq<T>, readPos: int, writePos: int, count: int)
    requires 0 <= readPos < |d| && 0 <= writePos < |d|
    requires 0 < count <= if readPos < writePos then writePos - readPos else |d| - readPos
    ensures var q := View(d, readPos, writePos, false); var r := Advance(readPos, count, |d|);
      && count <= |q| && d[readPos..readPos + count] == q[..count]
      && View(d, r, writePos, r == writePos) == q[count..]
  {
  }

  /** Reading to the end of the memory and then `count` items from its start. */
  lemma TakeTwo<T>(d: seq<T>, b: seq<T>, readPos: int, writePos: int, count: int)
    requires 0 <= writePos <= readPos < |d| && 0 <= count <= writePos && |d| - readPos + count <= |b|
    ensures var q := View(d, readPos, writePos, false); var left := |d| - readPos;
      && left + count <= |q|
      && Overwrite(Overwrite(b, 0, d[readPos..]), left, d[..count]) == Overwrite(b, 0, q[..left + count])
      && View(d, count, writePos, count == writePos) == q[left + count..]
  {
    var q := View(d, readPos, writePos, false);
    var left := |d| - readPos;
    assert q[..left + count] == d[readPos..] + d[..count];
  }

  /** One copy into `dst`, from `writePos` on. */
  method PutStraight<T>(src: array<T>, dst: array<T>, ghost readPos: int, writePos: int, ghost isEmpty: bool,
                        count: int)
    requires src != dst && 0 <= readPos < dst.Length && 0 <= writePos < dst.Length
    requires 0 <= count <= src.Length && writePos + count <= dst.Length
    requires isEmpty ==> readPos == writePos && count > 0
    requires !isEmpty && writePos <= readPos ==> writePos + count <= readPos
    modifies dst
    ensures View(dst[..], readPos, Advance(writePos, count, dst.Length), false) ==
            View(old(dst[..]), readPos, writePos, isEmpty) + src[..count]
  {
    ghost var d := dst[..];
    CopyItems(src, 0, dst, writePos, count);
    AppendRun(d, readPos, writePos, isEmpty, src[..count]);
  }

  /** Two copies into `dst`: to its end, then `rest` items from its start. */
  method PutWrapped<T>(src: array<T>, dst: array<T>, ghost readPos: int, writePos: int, ghost isEmpty: bool, rest: int)
    requires src != dst && 0 <= rest <= readPos <= writePos < dst.Length
    requires if isEmpty then readPos == writePos else readPos < writePos
    requires dst.Length - writePos + rest <= src.Length
    modifies dst
    ensures View(dst[..], readPos, rest, false) ==
            View(old(dst[..]), readPos, writePos, isEmpty) + src[..dst.Length - writePos + rest]
  {
    ghost var d := dst[..];
    var left := dst.Length - writePos;
    CopyItems(src, 0, dst, writePos, left);
    CopyItems(src, left, dst, 0, rest);
    ghost var items := src[..left + rest];
    assert src[0..left] == items[..left] && src[left..left + rest] == items[left..];
    AppendTwo(d, readPos, writePos, isEmpty, items);
  }

  /** One copy out of `src`, from `readPos` on. */
  method TakeStraight<T>(src: array<T>, dst: array<T>, readPos: int, ghost writePos: int, count: int)
    requires src != dst && 0 <= readPos < src.Length && 0 <= writePos < src.Length && count <= dst.Length
    requires 0 < count <= if readPos < writePos then writePos - readPos else src.Length - readPos
    modifies dst
    ensures var q := View(src[..], readPos, writePos, false); var r := Advance(readPos, count, src.Length);
      && count <= |q|
      && dst[..] == Overwrite(old(dst[..]), 0, q[..count])
      && View(src[..], r, writePos, r == writePos) == q[count..]
  {
    CopyItems(src, readPos, dst, 0, count);
    TakeRun(src[..], readPos, writePos, count);
    assert src[readPos..readPos + count] == src[..][readPos..readPos + count];
  }

  /** Two copies out of `src`: from `readPos` to its end, then `rest` items from its start. */
  method TakeWrapped<T>(src: array<T>, dst: array<T>, readPos: int, ghost writePos: int, rest: int)
    requires src != dst && 0 <= rest <= writePos <= readPos < src.Length && src.Length - readPos + rest <= dst.Length
    modifies dst
    ensures var q := View(src[..], readPos, writePos, false); var count := src.Length - readPos + rest;
      && count <= |q|
      && dst[..] == Overwrite(old(dst[..]), 0, q[..count])
      && View(src[..], rest, writePos, rest == writePos) == q[count..]
  {
    ghost var d, b := src[..], dst[..];
    var left := src.Length - readPos;
    TakeTwo(d, b, readPos, writePos, rest);
    assert src[readPos..readPos + left] == d[readPos..] && src[0..rest] == d[..rest];
    CopyItems(src, readPos, dst, 0, left);
    assert dst[..] == Overwrite(b, 0, d[readPos..]) && src[0..rest] == d[..rest];
    CopyItems(src, 0, dst, left, rest);
    assert src[..] == d;
  }

  function Min(a: int, b: int): int {
    if a < b then a else b
  }

  class PodCircularBuffer<T(0)> {
    const data: array<T>
    var readPos: int
    var writePos: int
    var isEmpty: bool
    var isFull: bool

    /** Equal positions mean empty or full, never both; otherwise neither. */
    ghost predicate Valid()
      reads this
    {
      && 0 <= readPos && 0 <= writePos
      && (data.Length == 0 ==> readPos == writePos == 0)
      && (data.Length > 0 ==> readPos < data.Length && writePos < data.Length)
      && !(isEmpty && isFull)
      && (readPos == writePos <==> isEmpty || isFull)
    }

    /** The queued items, oldest first. */
    ghost function Contents(): seq<T>
      reads this, data
      requires Valid()
    {
      View(data[..], readPos, writePos, isEmpty)
    }

    constructor (capacity: nat)
      ensures Valid() && fresh(data) && data.Length == capacity && Contents() == []
    {
      data := new T[capacity];
      readPos, writePos, isEmpty, isFull := 0, 0, true, false;
    }

    method Clear()
      requires Valid()
      modifies this
      ensures Valid() && Contents() == []
    {
      readPos, writePos, isEmpty, isFull := 0, 0, true, false;
    }

    function Size(): int
      reads this
    {
      if isEmpty then 0
      else if isFull then data.Length
      else if readPos < writePos then writePos - readPos
      else data.Length - readPos + writePos
    }

    /** `size()` is the length of the queue, at most the capacity; the flags tell the extremes. */
    lemma SizeIsLength()
      requires Valid()
      ensures Size() == |Contents()| <= data.Length
      ensures isEmpty ==> Contents() == []
      ensures isFull ==> |Contents()| == data.Length
      ensures data.Length > 0 ==> (isEmpty <==> Contents() == []) && (isFull <==> |Contents()| == data.Length)
    {
    }

    /** Queues the first items of `buf`, as many as there is room for. */
    method Write(buf: array<T>, count: int) returns (written: int)
      requires Valid() && buf != data && count <= buf.Length
      modifies this, data
      ensures Valid()
      ensures written == if count <= 0 then 0 else Min(count, data.Length - |old(Contents())|)
      ensures Contents() == old(Contents()) + buf[..written]
    {
      SizeIsLength();
      if count <= 0 {
        return 0;
      }
      if isFull {
        return 0;
      }
      if readPos == writePos {
        written := WriteToEmpty(buf, count);
      } else if readPos < writePos {
        written := WriteAround(buf, count);
      } else {
        written := WriteInGap(buf, count);
      }
    }

    /** The buffer is empty: up to the end of the memory, then from its start up to the read position. */
    method WriteToEmpty(buf: array<T>, count: int) returns (written: int)
      requires Valid() && buf != data && 0 < count <= buf.Length
      requires isEmpty
      modifies this, data
      ensures Valid()
      ensures written == Min(count, data.Length - |old(Contents())|)
      ensures Contents() == old(Contents()) + buf[..written]
    {
      isEmpty := false;
      var w := writePos;
      var leftCount := data.Length - writePos;
      if leftCount > count {
        PutStraight(buf, data, readPos, writePos, true, count);
        writePos := writePos + count;
        return count;
      } else {
        writePos := if readPos > count - leftCount then count - leftCount else writePos;
        if data.Length > 0 {
          PutWrapped(buf, data, readPos, w, true, writePos);
        }
        isFull := writePos == readPos;
        written := leftCount + writePos;
      }
    }

    /** The free space goes round the end of the memory. */
    method WriteAround(buf: array<T>, count: int) returns (written: int)
      requires Valid() && buf != data && 0 < count <= buf.Length
      requires readPos < writePos
      modifies this, data
      ensures Valid()
      ensures written == Min(count, data.Length - |old(Contents())|)
      ensures Contents() == old(Contents()) + buf[..written]
    {
      isEmpty := false;
      var w := writePos;
      var leftCount := data.Length - writePos;
      if leftCount > count {
        PutStraight(buf, data, readPos, writePos, false, count);
        writePos := writePos + count;
        isFull := readPos == writePos;
        return count;
      } else {
        writePos := if readPos >= count - leftCount then count - leftCount else readPos;
        PutWrapped(buf, data, readPos, w, false, writePos);
        isFull := readPos == writePos;
        written := leftCount + writePos;
      }
    }

    /** The free space lies between the two positions. */
    method WriteInGap(buf: array<T>, count: int) returns (written: int)
      requires Valid() && buf != data && 0 < count <= buf.Length
      requires writePos < readPos
      modifies this, data
      ensures Valid()
      ensures written == Min(count, data.Length - |old(Contents())|)
      ensures Contents() == old(Contents()) + buf[..written]
    {
      isEmpty := false;
      var leftCount := readPos - writePos;
      written := if leftCount > count then count else leftCount;
      PutStraight(buf, data, readPos, writePos, false, written);
      writePos := writePos + written;
      isFull := readPos == writePos;
    }

    /** Removes the oldest items, up to `count`, into the front of `buf`. */
    method Read(buf: array<T>, count: int) returns (taken: int)
      requires Valid() && buf != data && count <= buf.Length
      modifies this, buf
      ensures Valid()
      ensures taken == if count <= 0 then 0 else Min(count, |old(Contents())|)
      ensures buf[..] == Overwrite(old(buf[..]), 0, old(Contents())[..taken])
      ensures Contents() == old(Contents())[taken..]
    {
      if count <= 0 {
        return 0;
      }
      if isEmpty {
        return 0;
      }
      if readPos == writePos {
        taken := ReadFromFull(buf, count);
      } else if readPos < writePos {
        taken := ReadBetween(buf, count);
      } else {
        taken := ReadAround(buf, count);
      }
    }

    method ReadFromFull(buf: array<T>, count: int) returns (taken: int)
      requires Valid() && buf != data && 0 < count <= buf.Length && !isEmpty
      requires isFull
      modifies this, buf
      ensures Valid()
      ensures taken == Min(count, |old(Contents())|)
      ensures buf[..] == Overwrite(old(buf[..]), 0, old(Contents())[..taken])
      ensures Contents() == old(Contents())[taken..]
    {
      isFull := false;
      var r := readPos;
      var leftCount := data.Length - readPos;
      if leftCount > count {
        TakeStraight(data, buf, readPos, writePos, count);
        readPos := readPos + count;
        isEmpty := readPos == writePos;
        return count;
      } else {
        readPos := if writePos > count - leftCount then count - leftCount else writePos;
        if data.Length > 0 {
          TakeWrapped(data, buf, r, writePos, readPos);
        }
        isEmpty := readPos == writePos;
        taken := leftCount + readPos;
      }
    }

    method ReadBetween(buf: array<T>, count: int) returns (taken: int)
      requires Valid() && buf != data && 0 < count <= buf.Length && !isEmpty
      requires readPos < writePos
      modifies this, buf
      ensures Valid()
      ensures taken == Min(count, |old(Contents())|)
      ensures buf[..] == Overwrite(old(buf[..]), 0, old(Contents())[..taken])
      ensures Contents() == old(Contents())[taken..]
    {
      isFull := false;
      var leftCount := writePos - readPos;
      taken := if leftCount > count then count else leftCount;
      TakeStraight(data, buf, readPos, writePos, taken);
      readPos := readPos + taken;
      isEmpty := readPos == writePos;
    }

    method ReadAround(buf: array<T>, count: int) returns (taken: int)
      requires Valid() && buf != data && 0 < count <= buf.Length && !isEmpty
      requires writePos < readPos
      modifies this, buf
      ensures Valid()
      ensures taken == Min(count, |old(Contents())|)
      ensures buf[..] == Overwrite(old(buf[..]), 0, old(Contents())[..taken])
      ensures Contents() == old(Contents())[taken..]
    {
      isFull := false;
      var r := readPos;
      var leftCount := data.Length - readPos;
      if leftCount > count {
        TakeStraight(data, buf, readPos, writePos, count);
        readPos := readPos + count;
        isEmpty := readPos == writePos;
        return count;
      } else {
        readPos := if writePos >= count - leftCount then count - leftCount else writePos;
        TakeWrapped(data, buf, r, writePos, readPos);
        isEmpty := readPos == writePos;
        taken := leftCount + readPos;
      }
    }

    /** A caller that writes the items of a sequence, and tells which ones were accepted. */
    method PutItems(items: seq<T>) returns (accepted: seq<T>)
      requires Valid()
      modifies this, data
      ensures Valid()
      ensures accepted == items[..Min(|items|, data.Length - |old(Contents())|)]
      ensures Contents() == old(Contents()) + accepted
    {
      SizeIsLength();
      var buf := new T[|items|](k requires 0 <= k < |items| => items[k]);
      assert buf[..] == items;
      var written := Write(buf, buf.Length);
      accepted := buf[..written];
    }

    /** A caller that reads up to `count` items. */
    method GetItems(count: nat) returns (items: seq<T>)
      requires Valid()
      modifies this
      ensures Valid()
      ensures items == old(Contents())[..Min(count, |old(Contents())|)]
      ensures Contents() == old(Contents())[|items|..]
    {
      var buf := new T[count];
      var taken := Read(buf, count);
      items := buf[..taken];
    }

    /** Executes a sequence of calls on the buffer. */
    method Execute(calls: seq<Call<T>>) returns (accepted: seq<T>, returned: seq<T>)
      requires Valid()
      modifies this, data
      ensures Valid() && |old(Contents())| <= data.Length
      ensures Trace(Contents(), accepted, returned) == Calls(old(Contents()), calls, data.Length)
      ensures old(Contents()) + accepted == returned + Contents()
    {
      SizeIsLength();
      FifoOrder(Contents(), calls, data.Length);
      ghost var all := Calls(Contents(), calls, data.Length);
      accepted, returned := [], [];
      for i := 0 to |calls|
        invariant Valid() && |Contents()| <= data.Length
        invariant After(accepted, returned, Calls(Contents(), calls[i..], data.Length)) == all
      {
        ghost var rest := calls[i..];
        assert rest[0] == calls[i] && rest[1..] == calls[i + 1..];
        match calls[i]
        case Put(items) =>
          var more := PutItems(items);
          AfterPut(accepted, returned, more, Calls(Contents(), rest[1..], data.Length));
          accepted := accepted + more;
        case Get(count) =>
          var more := GetItems(count);
          AfterGet(accepted, returned, more, Calls(Contents(), rest[1..], data.Length));
          returned := returned + more;
      }
      assert calls[|calls|..] == [];
    }
  }

  // ----- Sequences of calls

  datatype Call<T> = Put(items: seq<T>) | Get(count: nat)

  /** The queue after some calls, what they accepted and what they returned: the contracts of Write and Read. */
  datatype Trace<T> = Trace(queue: seq<T>, accepted: seq<T>, returned: seq<T>)

  function Calls<T>(queue: seq<T>, calls: seq<Call<T>>, capacity: nat): Trace<T>
    requires |queue| <= capacity
    decreases |calls|
  {
    if calls == [] then Trace(queue, [], [])
    else
      match calls[0]
      case Put(items) =>
        var n := Min(|items|, capacity - |queue|);
        After(items[..n], [], Calls(queue + items[..n], calls[1..], capacity))
      case Get(count) =>
        var n := Min(count, |queue|);
        After([], queue[..n], Calls(queue[n..], calls[1..], capacity))
  }

  /** A trace with items accepted and returned before it. */
  function After<T>(accepted: seq<T>, returned: seq<T>, later: Trace<T>): Trace<T> {
    Trace(later.queue, accepted + later.accepted, returned + later.returned)
  }

  lemma AfterPut<T>(accepted: seq<T>, returned: seq<T>, more: seq<T>, later: Trace<T>)
    ensures After(accepted, returned, After(more, [], later)) == After(accepted + more, returned, later)
  {
    assert accepted + (more + later.accepted) == accepted + more + later.accepted;
  }

  lemma AfterGet<T>(accepted: seq<T>, returned: seq<T>, more: seq<T>, later: Trace<T>)
    ensures After(accepted, returned, After([], more, later)) == After(accepted, returned + more, later)
  {
    assert returned + (more + later.returned) == returned + more + later.returned;
  }

  /** Over every sequence of calls nothing is lost, invented or reordered: what was queued first, then what was
      accepted, is what was returned, then what is still queued. */
  lemma {:induction false} FifoOrder<T>(queue: seq<T>, calls: seq<Call<T>>, capacity: nat)
    requires |queue| <= capacity
    ensures var t := Calls(queue, calls, capacity);
      queue + t.accepted == t.returned + t.queue && |t.queue| <= capacity
    decreases |calls|
  {
    if calls != [] {
      match calls[0]
      case Put(items) =>
        var n := Min(|items|, capacity - |queue|);
        FifoOrder(queue + items[..n], calls[1..], capacity);
        var later := Calls(queue + items[..n], calls[1..], capacity);
        assert queue + (items[..n] + later.accepted) == queue + items[..n] + later.accepted;
      case Get(count) =>
        var n := Min(count, |queue|);
        FifoOrder(queue[n..], calls[1..], capacity);
        var later := Calls(queue[n..], calls[1..], capacity);
        assert queue[..n] + later.returned + later.queue == queue[..n] + (queue[n..] + later.accepted);
        assert queue == queue[..n] + queue[n..];
    }
  }
}
