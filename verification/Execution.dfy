/** An arbitrary caller: any sequence of operations on the concrete client, with its arguments
    laid out in caller memory, follows the abstract run step for step. */
module Execution {
  import opened Machine
  import opened Records
  import opened Hosting
  import opened Layout
  import opened Topology
  import Format
  import opened Ownership
  import opened Events
  import opened RequestLists
  import opened Delivery
  import opened Clients
  import opened Discovery
  import opened Runs

  /** The caller's part of the contract: memory behind what it declares, and nothing behind NULL. */
  predicate HonestTopology(t: TopologyInput) {
    && IsBacked(t)
    && (!t.validators.present ==> t.validators.bytes == []) && (!t.endpoints.present ==> t.endpoints.bytes == [])
    && (!t.associations.present ==> t.associations.bytes == []) && (!t.leaders.present ==> t.leaders.bytes == [])
  }

  predicate Honest(op: Op) {
    match op
    case InstallOp(t) => HonestTopology(t)
    case RefreshOp(o) => o.topology.Some? ==> HonestTopology(o.topology.value)
    case SubmitOp(r) => |r.transaction| <= SIZE_MAX && (!r.present ==> r.transaction == [])
    case PollOp(p) => true
  }

  /** No more is asked of a caller: every poll is honest, and so is every submission of a length a
      size_t can hold and every topology with memory up to its last record. */
  lemma HonestMeans(t: TopologyInput, r: Submission, p: PollRequest)
    ensures Honest(PollOp(p))
    ensures Honest(SubmitOp(r)) <==> |r.transaction| <= SIZE_MAX && (r.present || r.transaction == [])
    ensures
      && Holds(t.validators, 48, 4) && Holds(t.endpoints, 32, 4) && Holds(t.associations, 16, 4) && Holds(t.leaders, 32, 8)
      <==> Honest(InstallOp(t))
  {
    hide Format.Usable, Format.Inside, IsBacked;
    Format.BackedMeans(t);
  }

  /** No bytes behind NULL, and memory up to the last record of a usable array. */
  predicate Holds(a: Strided, size: nat, alignment: nat)
    requires alignment > 0
  {
    && (a.present || a.bytes == [])
    && (a.count > 0 && Format.Usable(a, size, alignment) ==> Format.Inside(a, a.count - 1, size))
  }

  method LayOutArray(a: Strided) returns (r: StridedArray)
    requires !a.present ==> a.bytes == []
    ensures r.View() == a && FreshOrNull(r.base)
  {
    if a.present {
      var base := new u8[|a.bytes|](i requires 0 <= i < |a.bytes| => a.bytes[i]);
      assert base[..] == a.bytes;
      r := StridedArray(base, a.aligned, a.count, a.stride);
    } else {
      r := StridedArray(null, a.aligned, a.count, a.stride);
    }
  }

  /** A caller topology in fresh caller memory. */
  method LayOut(t: TopologyInput) returns (view: TopologyView)
    requires HonestTopology(t)
    ensures view.Value() == t
  {
    var validators := LayOutArray(t.validators);
    var endpoints := LayOutArray(t.endpoints);
    var associations := LayOutArray(t.associations);
    var leaders := LayOutArray(t.leaders);
    view := TopologyView(t.addressable, t.structSize, t.reserved0, t.generation, t.currentSlot,
                         validators, endpoints, associations, leaders);
  }

  /** What a caller reads out of its buffer after a poll. */
  method ReadBack(buffer: array<u8>, count: usize, stride: u32, ghost before: seq<u8>, ghost events: seq<Event>)
    returns (read: seq<Event>)
    requires count == |events| && (count > 0 ==> stride >= EVENT_SIZE)
    requires Covers(buffer.Length, count, stride, EVENT_SIZE) && |before| == buffer.Length
    requires buffer[..] == Scatter(before, events, stride)
    ensures read == events
  {
    hide Scatter, DecodeEvent, Covers, Offset;
    read := [];
    var i: usize := 0;
    while i < count
      invariant i <= count && read == events[..i]
    {
      ElementInside(i, count, stride, EVENT_SIZE, buffer.Length);
      ScatterHolds(before, events, stride, i);
      var at := Offset(i, stride);
      read := read + [DecodeEvent(buffer[at..at + EVENT_SIZE])];
      i := i + 1;
    }
  }

  /** The client's blocks are those it had or were allocated by the call. */
  twostate predicate OnlyNewBlocks(client: Client)
    reads client.installed, client.requests
  {
    && (forall b :: b in client.installed.blocks && b !in old(client.installed.blocks) ==> FreshOrNull(b))
    && (forall b :: b in client.requests.blocks && b !in old(client.requests.blocks) ==> FreshOrNull(b))
  }

  method PerformInstall(client: Client, t: TopologyInput) returns (status: Status)
    requires client.Valid() && HonestTopology(t)
    modifies client.host, client.installed, client.installed.blocks
    ensures client.Valid() && client.Others() == old(client.Others()) && OnlyNewBlocks(client)
    ensures
      var i := Install(client.host.oracle, old(client.Abs()), t);
      client.Abs() == i.next && status == i.status
  {
    hide Install, SlotIs, ListIs, RingContents, IsBacked;
    var view := LayOut(t);
    HonestIsBacked(t);
    status := client.InstallTopology(view);
  }

  lemma HonestIsBacked(t: TopologyInput)
    requires HonestTopology(t)
    ensures IsBacked(t)
  {
  }

  method PerformRefresh(client: Client, o: Offer) returns (status: Status)
    requires client.Valid() && (o.topology.Some? ==> HonestTopology(o.topology.value))
    modifies client.host, client.installed, client.installed.blocks
    ensures client.Valid() && client.Others() == old(client.Others()) && OnlyNewBlocks(client)
    ensures
      var i := Refresh(client.host.oracle, old(client.Abs()), o);
      client.Abs() == i.next && status == i.status
  {
    hide Refresh, SlotIs, ListIs, RingContents, IsBacked;
    var topology: Option<TopologyView> := None;
    if o.topology.Some? {
      var view := LayOut(o.topology.value);
      HonestIsBacked(o.topology.value);
      topology := Some(view);
    }
    var provider := new Provider(o.addressable, o.structSize, o.flags, o.hasAcquire, o.hasRelease, o.acquired, topology);
    assert provider.Offered() == o;
    status := RefreshTopology(client, provider);
  }

  method PerformSubmit(client: Client, r: Submission) returns (status: Status, id: u64)
    requires client.Valid() && |r.transaction| <= SIZE_MAX && (!r.present ==> r.transaction == [])
    modifies client, client.host, client.queue, client.queue.entries, client.requests
    ensures client.Valid() && client.Others() == old(client.Others()) && OnlyNewBlocks(client)
    ensures
      var out := Submit(client.host.oracle, old(client.Abs()), r);
      client.Abs() == out.next && status == out.status && id == out.id
  {
    hide Submit, SlotIs, ListIs, RingContents;
    var transaction: array?<u8> := null;
    if r.present {
      transaction := new u8[|r.transaction|](i requires 0 <= i < |r.transaction| => r.transaction[i]);
      assert transaction[..|r.transaction|] == r.transaction;
    }
    status, id := client.SubmitTransaction(r.idOut, transaction, |r.transaction|, r.options);
  }

  /** A buffer of capacity * stride bytes holds the slots of an accepted poll, and of what it drains. */
  lemma BufferCovers(queue: seq<Event>, p: PollRequest)
    requires PollStatus(p.counted, p.buffered, p.capacity, p.stride) == Ok && p.capacity > 0
    ensures Covers(Offset(p.capacity, p.stride), p.capacity, p.stride, EVENT_SIZE)
    ensures Covers(Offset(p.capacity, p.stride), |Drained(queue, Ok, p.capacity)|, p.stride, EVENT_SIZE)
  {
    var n := |Drained(queue, Ok, p.capacity)|;
    OffsetMonotone(p.capacity - 1, p.capacity, p.stride);
    if 0 < n {
      ElementInside(n - 1, p.capacity, p.stride, EVENT_SIZE, Offset(p.capacity, p.stride));
    }
  }

  /** One poll into a fresh buffer, read back event by event. */
  method PerformPoll(client: Client, p: PollRequest) returns (status: Status, events: seq<Event>)
    requires client.Valid()
    modifies client.queue, client.queue.entries
    ensures client.Valid() && client.Others() == old(client.Others())
    ensures
      var r := Poll(old(client.Abs()), p);
      client.Abs() == r.next && status == r.status && events == r.events
  {
    hide SlotIs, ListIs, RingContents, Covers, Scatter, StrideIsValid;
    ghost var r := Poll(client.Abs(), p);
    if r.status == Ok && p.capacity > 0 {
      BufferCovers(client.Abs().queue, p);
    }
    var buffer := new u8[Offset(p.capacity, p.stride)](_ => 0);
    ghost var before := buffer[..];
    var drained;
    status, drained := client.PollEvents(p.counted, true, if p.buffered then buffer else null, p.capacity, p.stride);
    if status != Ok || drained == 0 {
      return status, [];
    }
    StrideOfAccepted(p);
    events := ReadBack(buffer, drained, p.stride, before, r.events);
  }

  lemma StrideOfAccepted(p: PollRequest)
    requires PollStatus(p.counted, p.buffered, p.capacity, p.stride) == Ok && p.capacity > 0
    ensures p.stride >= EVENT_SIZE && p.buffered
  {
  }

  /** A caller may overwrite its transaction buffer as soon as the call returns: the accepted
      request keeps the bytes that were submitted. */
  method SubmitThenOverwrite(client: Client, transaction: array<u8>, options: Option<Options>, junk: u8)
    returns (status: Status, id: u64)
    requires client.Valid() && transaction !in client.Owned() && transaction.Length <= SIZE_MAX
    modifies client, client.host, client.queue, client.queue.entries, client.requests, transaction
    ensures client.Valid()
    ensures
      var r := Submit(client.host.oracle, old(client.Abs()), Submission(true, true, old(transaction[..]), options));
      status == r.status && id == r.id && client.Abs() == r.next
  {
    hide SlotIs, ListIs, RingContents, Submit;
    assert transaction[..transaction.Length] == transaction[..];
    status, id := client.SubmitTransaction(true, transaction, transaction.Length, options);
    forall i | 0 <= i < transaction.Length {
      transaction[i] := junk;
    }
  }

  /** A caller may likewise reuse its topology arrays once the call returns: what is installed
      is what they held before. */
  method InstallThenOverwrite(client: Client, t: TopologyView, junk: u8) returns (status: Status)
    requires client.Valid() && IsBacked(t.Value())
    requires forall b :: b in t.Bases() && b in client.Owned() ==> b == null
    modifies client.host, client.installed, client.installed.blocks, t.Bases() - {null}
    ensures client.Valid()
    ensures
      var i := Install(client.host.oracle, old(client.Abs()), old(t.Value()));
      status == i.status && client.Abs() == i.next
  {
    hide SlotIs, ListIs, RingContents, Install, IsBacked, Client.Others;
    status := client.InstallTopology(t);
    OverwriteAll(t, junk);
  }

  method OverwriteAll(t: TopologyView, junk: u8)
    modifies t.Bases() - {null}
  {
    Overwrite(t.validators.base, junk);
    Overwrite(t.endpoints.base, junk);
    Overwrite(t.associations.base, junk);
    Overwrite(t.leaders.base, junk);
  }

  method Overwrite(memory: array?<u8>, junk: u8)
    modifies memory
  {
    if memory != null {
      forall i | 0 <= i < memory.Length {
        memory[i] := junk;
      }
    }
  }

  /** One operation, with everything its caller gets back. */
  method Perform(client: Client, op: Op, ghost h: History) returns (outcome: Outcome)
    requires client.Valid() && Honest(op) && client.Abs() == h.state
    modifies client, client.host, client.queue, client.queue.entries, client.requests
    modifies client.installed, client.installed.blocks
    ensures client.Valid() && client.Others() == old(client.Others()) && OnlyNewBlocks(client)
    ensures client.Abs() == Step(client.host.oracle, h, op).state
    ensures outcome == OutcomeOf(client.host.oracle, h.state, op)
  {
    hide SlotIs, ListIs, RingContents, Install, Refresh, Submit, HonestTopology;
    match op
    case InstallOp(t) =>
      var status := PerformInstall(client, t);
      outcome := Outcome(status, NO_REQUEST, []);
    case RefreshOp(o) =>
      var status := PerformRefresh(client, o);
      outcome := Outcome(status, NO_REQUEST, []);
    case SubmitOp(r) =>
      var status, id := PerformSubmit(client, r);
      outcome := Outcome(status, id, []);
    case PollOp(p) =>
      var status, events := PerformPoll(client, p);
      outcome := Outcome(status, NO_REQUEST, events);
  }

  /** Any sequence of operations on the concrete client is a run of the abstract one: the
      client ends in the run's state, every call returned what the abstract call returns, the
      events being those read out of the caller's buffers, no block of anybody else's was
      touched, and the live blocks are theirs, the client's one, one per non-empty table and
      three per accepted request. */
  method Execute(client: Client, ops: seq<Op>, ghost h: History) returns (outcomes: seq<Outcome>)
    requires client.Valid() && client.Abs() == h.state && forall op :: op in ops ==> Honest(op)
    modifies client, client.host, client.queue, client.queue.entries, client.requests
    modifies client.installed, client.installed.blocks
    ensures client.Valid() && client.Others() == old(client.Others()) && OnlyNewBlocks(client)
    ensures client.Abs() == Run(client.host.oracle, h, ops).state
    ensures outcomes == Outcomes(client.host.oracle, h, ops)
    ensures
      var s := Run(client.host.oracle, h, ops).state;
      && client.host.live == old(client.Others()) + client.Owned()
      && |client.Owned() - {null}| == 1 + TableBlocks(s.snapshot) + 3 * |s.requests|
  {
    hide SlotIs, ListIs, RingContents, Step, OutcomeOf, Honest, TableBlocks, Client.Others, Client.Owned;
    outcomes := [];
    var i := 0;
    while i < |ops|
      invariant i <= |ops| && client.Valid() && client.Others() == old(client.Others()) && OnlyNewBlocks(client)
      invariant client.Abs() == Run(client.host.oracle, h, ops[..i]).state
      invariant outcomes == Outcomes(client.host.oracle, h, ops[..i])
    {
      assert ops[..i + 1][..i] == ops[..i] && ops[..i + 1][i] == ops[i];
      assert ops[i] in ops;
      var outcome := Perform(client, ops[i], Run(client.host.oracle, h, ops[..i]));
      outcomes := outcomes + [outcome];
      i := i + 1;
    }
    assert ops[..i] == ops;
    client.HeapIsAccountedFor();
  }

  /** The rest of a client's life: afterwards only the blocks of others are live. */
  method UseAndDestroy(client: Client, ops: seq<Op>, ghost h: History) returns (outcomes: seq<Outcome>)
    requires client.Valid() && client.Abs() == h.state && forall op :: op in ops ==> Honest(op)
    modifies client, client.host, client.queue, client.queue.entries
    modifies client.requests, client.requests.blocks, client.installed, client.installed.blocks
    ensures client.host.Valid() && client.host.live == old(client.Others())
    ensures outcomes == Outcomes(client.host.oracle, h, ops)
  {
    hide SlotIs, ListIs, RingContents, Honest, Step, TableBlocks;
    outcomes := Execute(client, ops, h);
    client.Destroy();
  }

  /** A client's whole life: created, used by any honest caller, destroyed. Every call returns
      what its run says, and afterwards the heap is as it was. */
  method Lifetime(host: Host, ops: seq<Op>) returns (status: Status, outcomes: seq<Outcome>)
    requires host.Valid() && forall op :: op in ops ==> Honest(op)
    modifies host
    ensures host.Valid() && host.live == old(host.live)
    ensures status == if host.oracle.grants(old(host.allocations)) then Ok else ResourceExhausted
    ensures
      var h := Initial(old(host.allocations) + 1, old(host.samples));
      outcomes == if status == Ok then Outcomes(host.oracle, h, ops) else []
  {
    hide SlotIs, ListIs, RingContents, Honest, Step, TableBlocks;
    var client;
    outcomes := [];
    ghost var h := Initial(host.allocations + 1, host.samples);
    status, client := Client.Create(host);
    if status != Ok {
      return;
    }
    outcomes := UseAndDestroy(client, ops, h);
  }
}
