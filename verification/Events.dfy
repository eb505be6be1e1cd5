/** The bounded event channel: a 64-slot ring that behaves as a FIFO, and its strided drain. */
module Events {
  import opened Machine
  import opened Bytes
  import opened Records
  import opened Layout

  const QUEUE_CAPACITY: nat := 64
  const EVENT_ALIGNMENT: nat := 8

  function Next(slot: nat): (next: nat)
    requires slot < QUEUE_CAPACITY
    ensures next < QUEUE_CAPACITY
  {
    (slot + 1) % QUEUE_CAPACITY
  }

  /** The queue a ring stands for: `count` entries from `head` on, wrapping at the end. */
  function RingContents(entries: seq<Event>, head: nat, count: nat): (q: seq<Event>)
    requires |entries| == QUEUE_CAPACITY && head < QUEUE_CAPACITY
    ensures |q| == count
    decreases count
  {
    if count == 0 then [] else [entries[head]] + RingContents(entries, Next(head), count - 1)
  }

  /** The slot i steps after `slot`, going round once at the end of the ring. */
  lemma NextSteps(slot: nat, i: nat)
    requires slot < QUEUE_CAPACITY && 0 < i
    ensures (Next(slot) + (i - 1)) % QUEUE_CAPACITY == (slot + i) % QUEUE_CAPACITY
  {
    if slot + 1 == QUEUE_CAPACITY {
      assert slot + i == QUEUE_CAPACITY + (i - 1);
    }
  }

  /** The slot to write next is not the oldest queued one. */
  lemma TailIsFree(head: nat, count: nat)
    requires head < QUEUE_CAPACITY && 0 < count < QUEUE_CAPACITY
    ensures (head + count) % QUEUE_CAPACITY != head
  {
    if head + count >= QUEUE_CAPACITY {
      assert (head + count) % QUEUE_CAPACITY == head + count - QUEUE_CAPACITY;
    }
  }

  /** The i-th queued event stands i slots after the head. */
  lemma {:induction false} RingAt(entries: seq<Event>, head: nat, count: nat, i: nat)
    requires |entries| == QUEUE_CAPACITY && head < QUEUE_CAPACITY && i < count
    ensures RingContents(entries, head, count)[i] == entries[(head + i) % QUEUE_CAPACITY]
    decreases i
  {
    if i > 0 {
      NextSteps(head, i);
      hide Next;
      RingAt(entries, Next(head), count - 1, i - 1);
    }
  }

  /** Writing the slot after the last entry appends, wherever the ring wraps. */
  lemma {:induction false} RingPush(entries: seq<Event>, head: nat, count: nat, tail: nat, event: Event)
    requires |entries| == QUEUE_CAPACITY && head < QUEUE_CAPACITY && count < QUEUE_CAPACITY
    requires tail == (head + count) % QUEUE_CAPACITY
    ensures RingContents(entries[tail := event], head, count + 1) == RingContents(entries, head, count) + [event]
    decreases count
  {
    if count > 0 {
      NextSteps(head, count);
      TailIsFree(head, count);
      hide Next;
      RingPush(entries, Next(head), count - 1, tail, event);
    }
  }

  // ---------- the caller's buffer ----------

  /** A buffer after `events` were written at the given stride. */
  function Scatter(buffer: seq<u8>, events: seq<Event>, stride: nat): (r: seq<u8>)
    ensures |r| == |buffer|
  {
    if events == [] then buffer
    else
      var n := |events| - 1;
      Place(Scatter(buffer, events[..n], stride), Offset(n, stride), EncodeEvent(events[n]))
  }

  function Place(buffer: seq<u8>, at: nat, bytes: seq<u8>): (r: seq<u8>)
    ensures |r| == |buffer|
  {
    if at + |bytes| <= |buffer| then buffer[..at] + bytes + buffer[at + |bytes|..] else buffer
  }

  /** Slot `i` of the buffer reads back as event `i`. */
  lemma {:induction false} ScatterHolds(buffer: seq<u8>, events: seq<Event>, stride: nat, i: nat)
    requires i < |events| && stride >= EVENT_SIZE && Covers(|buffer|, |events|, stride, EVENT_SIZE)
    ensures Window(Scatter(buffer, events, stride), Offset(i, stride), EVENT_SIZE) == EncodeEvent(events[i])
    ensures DecodeEvent(Window(Scatter(buffer, events, stride), Offset(i, stride), EVENT_SIZE)) == events[i]
  {
    EventRoundTrip(events[i]);
    var n := |events| - 1;
    var before := Scatter(buffer, events[..n], stride);
    if i < n {
      OffsetMonotone(i, n, stride);
      if n > 0 { OffsetMonotone(n - 1, n, stride); }
      ScatterHolds(buffer, events[..n], stride, i);
      WindowsAgree(before, Scatter(buffer, events, stride), Offset(i, stride), EVENT_SIZE);
    }
  }

  /** Byte `k` lies in one of the first `count` event slots. */
  ghost predicate InSlot(k: nat, count: nat, stride: nat) {
    exists i :: 0 <= i < count && Offset(i, stride) <= k < Offset(i, stride) + EVENT_SIZE
  }

  /** No byte outside the written slots changes: neither the gaps that a larger stride leaves
      nor anything after the last event. */
  lemma {:induction false} ScatterFootprint(buffer: seq<u8>, events: seq<Event>, stride: nat, k: nat)
    requires k < |buffer| && !InSlot(k, |events|, stride)
    ensures Scatter(buffer, events, stride)[k] == buffer[k]
  {
    if events != [] {
      var n := |events| - 1;
      assert !InSlot(k, n, stride);
      ScatterFootprint(buffer, events[..n], stride, k);
      assert !(Offset(n, stride) <= k < Offset(n, stride) + EVENT_SIZE);
    }
  }

  // ---------- polling as a function ----------

  predicate StrideIsValid(stride: u32) {
    stride >= EVENT_SIZE && stride % EVENT_ALIGNMENT == 0
  }

  /** `buffered` is: the events pointer is non-NULL and aligned. */
  function PollStatus(counted: bool, buffered: bool, capacity: usize, stride: u32): Status {
    if !counted then InvalidArgument
    else if capacity == 0 then Ok
    else if !buffered || !StrideIsValid(stride) || capacity > SIZE_MAX / stride then InvalidArgument
    else Ok
  }

  /** Exactly which polls are accepted: a 64-byte slot at an 8-byte aligned stride is enough. */
  lemma PollAccepts(counted: bool, buffered: bool, capacity: usize, stride: u32)
    ensures PollStatus(counted, buffered, capacity, stride) ==
      if counted && (capacity == 0 || (buffered && stride >= 64 && stride % 8 == 0 && capacity * stride <= SIZE_MAX))
      then Ok else InvalidArgument
  {
    if stride > 0 {
      DivisionBound(capacity, stride, SIZE_MAX);
    }
  }

  function Drained(queue: seq<Event>, status: Status, capacity: usize): seq<Event> {
    if status != Ok then [] else if capacity < |queue| then queue[..capacity] else queue
  }

  /** An accepted poll never computes an offset or an end that a size_t cannot hold. */
  lemma PollOffsetsFit(capacity: usize, stride: u32, index: nat)
    requires PollStatus(true, true, capacity, stride) == Ok && index < capacity
    ensures Offset(index, stride) == index * stride
    ensures index * stride + EVENT_SIZE <= capacity * stride <= SIZE_MAX
  {
    OffsetIsProduct(index, stride);
    OffsetIsProduct(capacity, stride);
    OffsetMonotone(index, capacity, stride);
    DivisionBound(capacity, stride, SIZE_MAX);
  }

  /** Polling for j and then for k events drains what polling for j + k does. */
  lemma PollComposes(queue: seq<Event>, j: usize, k: usize)
    requires j + k <= SIZE_MAX
    ensures
      var first := Drained(queue, Ok, j);
      var second := Drained(queue[|first|..], Ok, k);
      first + second == Drained(queue, Ok, j + k)
  {
  }

  lemma ScatterStep(buffer: seq<u8>, queue: seq<Event>, index: nat, stride: nat)
    requires index < |queue|
    ensures Scatter(buffer, queue[..index + 1], stride)
      == Place(Scatter(buffer, queue[..index], stride), Offset(index, stride), EncodeEvent(queue[index]))
  {
    assert queue[..index + 1][..index] == queue[..index];
  }

  /** `index * stride` for a slot of an accepted buffer, without wrap-around. */
  method EventOffset(index: usize, capacity: usize, stride: u32) returns (offset: usize)
    requires index < capacity && Offset(capacity, stride) <= SIZE_MAX
    ensures offset == Offset(index, stride)
  {
    OffsetIsProduct(index, stride);
    OffsetMonotone(index, capacity, stride);
    offset := index * stride;
  }

  // ---------- the ring ----------

  class EventQueue {
    const entries: array<Event>
    var head: usize
    var count: usize

    ghost predicate Valid()
      reads this
    {
      entries.Length == QUEUE_CAPACITY && head < QUEUE_CAPACITY && count <= QUEUE_CAPACITY
    }

    ghost function Contents(): (q: seq<Event>)
      reads this, entries
      requires Valid()
      ensures |q| == count
    {
      RingContents(entries[..], head, count)
    }

    /** What is queued, slot by slot of the ring. */
    lemma ContentsAt(i: nat)
      requires Valid() && i < count
      ensures |Contents()| == count && Contents()[i] == entries[(head + i) % 64]
    {
      RingAt(entries[..], head, count, i);
    }

    constructor ()
      ensures Valid() && Contents() == [] && fresh(entries)
    {
      entries := new Event[QUEUE_CAPACITY](_ => ZERO_EVENT);
      head, count := 0, 0;
    }

    predicate HasCapacity()
      reads this
    {
      count < QUEUE_CAPACITY
    }

    /** `solana_delivery_event_queue_push`: appends, or leaves a full ring alone. */
    method Push(event: Event) returns (status: Status)
      requires Valid()
      modifies this, entries
      ensures Valid()
      ensures status == if |old(Contents())| < QUEUE_CAPACITY then Ok else ResourceExhausted
      ensures Contents() == if status == Ok then old(Contents()) + [event] else old(Contents())
    {
      if !HasCapacity() {
        return ResourceExhausted;
      }
      var tail: usize := (head + count) % QUEUE_CAPACITY;
      RingPush(entries[..], head, count, tail, event);
      ghost var before := entries[..];
      entries[tail] := event;
      assert entries[..] == before[tail := event];
      count := count + 1;
      return Ok;
    }

    /** `solana_delivery_client_poll_events`. The buffer must hold the slots the caller declares. */
    method Poll(counted: bool, aligned: bool, events: array?<u8>, capacity: usize, stride: u32)
      returns (status: Status, drained: usize)
      requires Valid()
      requires PollStatus(counted, events != null && aligned, capacity, stride) == Ok && capacity > 0 ==>
        Covers(events.Length, capacity, stride, EVENT_SIZE)
      modifies this, events
      ensures Valid()
      ensures status == PollStatus(counted, events != null && aligned, capacity, stride)
      ensures
        var out := Drained(old(Contents()), status, capacity);
        && drained == |out|
        && old(Contents()) == out + Contents()
        && (events != null ==> events[..] == Scatter(old(events[..]), out, stride))
    {
      hide RingContents, Covers, Offset;
      drained := 0;
      if !counted {
        return InvalidArgument, 0;
      }
      if capacity == 0 {
        return Ok, 0;
      }
      if events == null || !aligned {
        return InvalidArgument, 0;
      }
      if stride < EVENT_SIZE || stride % EVENT_ALIGNMENT != 0 {
        return InvalidArgument, 0;
      }
      if capacity > SIZE_MAX / stride {
        return InvalidArgument, 0;
      }
      var copyCount: usize := count;
      if copyCount > capacity {
        copyCount := capacity;
      }
      DivisionBound(capacity, stride, SIZE_MAX);
      OffsetIsProduct(capacity, stride);
      Drain(events, copyCount, capacity, stride);
      if count == 0 {
        head := 0;
      }
      return Ok, copyCount;
    }

    /** The copying loop of the poll. */
    method Drain(events: array<u8>, copyCount: usize, capacity: usize, stride: u32)
      requires Valid() && copyCount <= count && copyCount <= capacity
      requires stride >= EVENT_SIZE && Offset(capacity, stride) <= SIZE_MAX
      requires Covers(events.Length, capacity, stride, EVENT_SIZE)
      modifies this, events
      ensures Valid() && Contents() == old(Contents())[copyCount..]
      ensures events[..] == Scatter(old(events[..]), old(Contents())[..copyCount], stride)
    {
      ghost var queue, buffer := Contents(), events[..];
      var index: usize := 0;
      while index < copyCount
        invariant index <= copyCount && Valid()
        invariant Contents() == queue[index..]
        invariant events[..] == Scatter(buffer, queue[..index], stride)
      {
        ElementInside(index, capacity, stride, EVENT_SIZE, events.Length);
        ScatterStep(buffer, queue, index, stride);
        var offset := EventOffset(index, capacity, stride);
        DrainOne(events, offset, queue, index);
        index := index + 1;
      }
    }

    /** One turn of the copying loop: event `index` moves from the ring to its slot. */
    method DrainOne(events: array<u8>, offset: usize, ghost queue: seq<Event>, ghost index: nat)
      requires Valid() && offset + EVENT_SIZE <= events.Length
      requires index < |queue| && Contents() == queue[index..]
      modifies this, events
      ensures Valid() && Contents() == queue[index + 1..]
      ensures events[..] == Place(old(events[..]), offset, EncodeEvent(queue[index]))
    {
      assert queue[index..] == [queue[index]] + queue[index + 1..];
      StoreEvent(events, offset, entries[head]);
      head := (head + 1) % QUEUE_CAPACITY;
      count := count - 1;
    }
  }

  /** The memcpy of one event record. */
  method StoreEvent(events: array<u8>, offset: usize, event: Event)
    requires offset + EVENT_SIZE <= events.Length
    modifies events
    ensures events[..] == Place(old(events[..]), offset, EncodeEvent(event))
  {
    var record := EncodeEvent(event);
    forall k | 0 <= k < EVENT_SIZE {
      events[offset + k] := record[k];
    }
  }
}
