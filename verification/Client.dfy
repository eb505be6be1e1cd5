/** The delivery client: one mutable object over the heap, refining the abstract operations. */
module Clients {
  import opened Machine
  import opened Records
  import opened Hosting
  import opened Layout
  import opened Topology
  import opened Ownership
  import opened Resolution
  import opened Events
  import opened Delivery
  import opened Requests
  import opened RequestLists

  /** `solana_delivery_client_evaluate_submission_policy`: one clock sample, no other effect. */
  method EvaluateSubmissionPolicy(host: Host, hasTopology: bool, received: u64, maxAge: u64, limit: usize)
    returns (status: Status)
    requires host.Valid()
    modifies host
    ensures host.Valid() && host.allocations == old(host.allocations) && host.live == old(host.live)
    ensures
      if maxAge == 0 || limit == 0 then
        status == InvalidArgument && host.samples == old(host.samples)
      else if !hasTopology then
        status == TopologyUnavailable && host.samples == old(host.samples)
      else
        && status == AdmissionVerdict(host.oracle.clock(old(host.samples)), received, maxAge)
        && host.samples == old(host.samples) + 1
  {
    if maxAge == 0 || limit == 0 {
      return InvalidArgument;
    }
    if !hasTopology {
      return TopologyUnavailable;
    }
    var now;
    status, now := host.ReadClock();
    if status != Ok {
      return;
    }
    if now < received {
      return InternalError;
    }
    var age: u64 := now - received;
    if age > maxAge {
      return TopologyStale;
    }
    return Ok;
  }

  /** `validate_submit_options` */
  method ValidateSubmitOptions(options: Option<Options>) returns (status: Status)
    ensures status == OptionsVerdict(options)
    ensures status == Ok <==>
      && options.Some? && options.value.structSize >= OPTIONS_SIZE && options.value.flags == 0
      && options.value.reserved0 == 0 && options.value.maxAge > 0 && options.value.targetLimit > 0
    ensures status == Unsupported <==>
      options.Some? && options.value.structSize >= OPTIONS_SIZE && options.value.flags != 0
    ensures status in {Ok, Unsupported, InvalidArgument}
  {
    if options == None {
      return InvalidArgument;
    }
    var o := options.value;
    if o.structSize < OPTIONS_SIZE {
      return InvalidArgument;
    }
    if o.flags != 0 {
      return Unsupported;
    }
    if o.reserved0 != 0 || o.maxAge == 0 || o.targetLimit == 0 {
      return InvalidArgument;
    }
    return Ok;
  }

  /** The bytes a transaction argument denotes. */
  function TransactionBytes(transaction: array?<u8>, length: usize): seq<u8>
    reads transaction
  {
    if transaction == null || length > transaction.Length then [] else transaction[..length]
  }

  /** Trading the blocks `before` for `gained` leaves everybody else's blocks alone. */
  lemma Traded(live: set<object?>, kept: set<object?>, before: set<object?>, gained: set<object?>)
    requires null in live && kept + before <= live
    requires forall p :: p in gained && p in live ==> p == null
    requires forall p :: p in kept && p in before ==> p == null
    ensures live + gained - before + {null} - (kept + gained) + {null} == live - (kept + before) + {null}
    ensures kept + gained <= live + gained - before + {null}
  {
  }

  /** Giving back the scratch blocks of a submission, or all its blocks, leaves what it keeps. */
  lemma GivenBack(base: set<object?>, scratch: set<object?>, kept: set<object?>)
    requires null in base
    requires forall p :: p in scratch && (p in base || p in kept) ==> p == null
    requires forall p :: p in kept && p in base ==> p == null
    ensures base + (scratch + kept) - scratch + {null} == base + kept
    ensures base + (scratch + kept) - (scratch + kept) + {null} == base
  {
  }

  /** Blocks gained by their owner are none of anybody else's. */
  lemma OthersKept(base: set<object?>, owned: set<object?>, kept: set<object?>)
    requires forall p :: p in kept && p in base ==> p == null
    ensures base + kept - (owned + kept) + {null} == base - owned + {null}
  {
  }

  /** The client's struct members with an invariant of their own (ring, topology, request list)
      are objects of their own here, embedded by `const` references. */
  class Client {
    const host: Host
    const queue: EventQueue
    const installed: TopologySlot
    const requests: RequestList
    var nextRequestId: u64

    /** The objects that make up the client's own block. */
    ghost function Parts(): set<object?> {
      {this as object?, host as object?, queue as object?, queue.entries as object?,
       installed as object?, requests as object?}
    }

    /** The heap blocks the client must free: itself, its topology arrays and its requests'. */
    ghost function Owned(): set<object?>
      reads installed, requests
    {
      {this as object?} + installed.blocks + requests.blocks
    }

    /** The live blocks that are not this client's. */
    ghost function Others(): set<object?>
      reads installed, requests, host
    {
      host.live - Owned() + {null}
    }

    ghost predicate Apart(topologyBlocks: set<object?>, requestBlocks: set<object?>) {
      && Parts() !! topologyBlocks && Parts() !! requestBlocks
      && forall p :: p in topologyBlocks && p in requestBlocks ==> p == null
    }

    ghost predicate Valid()
      reads this, host, queue, installed, installed.blocks, requests, requests.blocks
    {
      && host.Valid() && queue.Valid() && installed.Valid() && requests.Valid()
      && Apart(installed.blocks, requests.blocks)
      && Owned() <= host.live
    }

    ghost function Abs(): State
      reads this, host, queue, queue.entries, installed, requests
      requires queue.Valid()
    {
      State(installed.snapshot, requests.log, nextRequestId, queue.Contents(), host.allocations, host.samples)
    }

    /** The zeroed client with its dependencies and its first id. */
    constructor (host: Host)
      ensures this.host == host && fresh(Parts() - {host})
      ensures queue.Valid() && installed.Valid() && requests.Valid()
      ensures installed.snapshot == None && installed.blocks == {null}
      ensures requests.log == [] && requests.blocks == {} && nextRequestId == 1 && queue.Contents() == []
    {
      hide SlotIs, ListIs, RingContents;
      this.host := host;
      queue := new EventQueue();
      installed := new TopologySlot();
      requests := new RequestList();
      nextRequestId := 1;
    }

    /** `solana_delivery_client_create_with_dependencies` */
    static method Create(host: Host) returns (status: Status, client: Client?)
      requires host.Valid()
      modifies host
      ensures host.Valid() && host.samples == old(host.samples) && host.allocations == old(host.allocations) + 1
      ensures status == if host.oracle.grants(old(host.allocations)) then Ok else ResourceExhausted
      ensures status == Ok ==>
        && client != null && client.Valid() && client.host == host && fresh(client.Parts() - {host})
        && client.Abs() == State(None, [], 1, [], host.allocations, host.samples)
        && client.Owned() == {client as object?, null}
        && host.live == old(host.live) + client.Owned()
      ensures status != Ok ==> client == null && host.live == old(host.live)
    {
      hide SlotIs, ListIs, RingContents;
      var granted := host.Grant();
      if !granted {
        return ResourceExhausted, null;
      }
      client := new Client(host);
      host.Adopt(client);
      return Ok, client;
    }

    /** `solana_delivery_client_poll_events` on the client's ring. */
    method PollEvents(counted: bool, aligned: bool, events: array?<u8>, capacity: usize, stride: u32)
      returns (status: Status, drained: usize)
      requires Valid() && (events == null || events !in Owned())
      requires PollStatus(counted, events != null && aligned, capacity, stride) == Ok && capacity > 0 ==>
        Covers(events.Length, capacity, stride, EVENT_SIZE)
      modifies queue, queue.entries, events
      ensures Valid() && Owned() == old(Owned())
      ensures
        var p := Poll(old(Abs()), PollRequest(counted, events != null && aligned, capacity, stride));
        && status == p.status && drained == |p.events| && Abs() == p.next
        && (events != null ==> events[..] == Scatter(old(events[..]), p.events, stride))
    {
      hide SlotIs, ListIs, RingContents, Scatter;
      ghost var q := queue.Contents();
      status, drained := queue.Poll(counted, aligned, events, capacity, stride);
      assert queue.Contents() == q[drained..];
    }

    /** New blocks are none of the client's. */
    twostate lemma NewBlocksApart(new gained: set<object?>)
      requires old(Valid()) && forall p :: p in gained ==> FreshOrNull(p) && (p in old(host.live) ==> p == null)
      ensures Apart(gained, old(requests.blocks)) && Apart(old(installed.blocks), gained)
    {
      hide SlotIs, ListIs;
      assert forall p :: p in old(Owned()) ==> p in old(host.live);
      assert forall p :: p in Parts() ==> p != null && !fresh(p);
    }

    /** `solana_delivery_client_install_topology`: all or nothing, and no block lost either way. */
    method InstallTopology(t: TopologyView) returns (status: Status)
      requires Valid() && IsBacked(t.Value())
      modifies host, installed, installed.blocks
      ensures Valid() && Others() == old(Others())
      ensures
        var i := Install(host.oracle, old(Abs()), old(t.Value()));
        status == i.status && Abs() == i.next
      ensures if status == Ok then host.live == old(host.live) - old(installed.blocks) + installed.blocks + {null}
              else host.live == old(host.live) && installed.blocks == old(installed.blocks)
      ensures status == Ok ==> forall b :: b in installed.blocks ==> FreshOrNull(b)
    {
      hide SlotIs, ListIs, Validate, IsBacked, InstallChecked;
      ghost var input := t.Value();
      status := ValidateTopology(t);
      if status != Ok {
        return;
      }
      SlotFacts(installed.has, installed.topology, installed.snapshot, installed.blocks);
      if installed.has && t.generation <= installed.topology.generation {
        return TopologyStale;
      }
      status := InstallValidated(t, input);
    }

    /** Building, stamping and swapping in a valid and newer topology. */
    method InstallValidated(t: TopologyView, ghost input: TopologyInput) returns (status: Status)
      requires Valid() && IsBacked(t.Value()) && input == t.Value() && Validate(input) == Ok
      modifies host, installed, installed.blocks
      ensures Valid() && Others() == old(Others())
      ensures
        var i := InstallChecked(host.oracle, old(Abs()), input);
        status == i.status && Abs() == i.next
      ensures if status == Ok then host.live == old(host.live) - old(installed.blocks) + installed.blocks + {null}
              else host.live == old(host.live) && installed.blocks == old(installed.blocks)
      ensures status == Ok ==> forall b :: b in installed.blocks ==> FreshOrNull(b)
    {
      hide SlotIs, ListIs, Validate, SnapshotOf, IsBacked, BuildSupply;
      var replacement;
      status, replacement := AcquireReplacement(host, t, input);
      if status == Ok {
        NewBlocksApart(replacement.Blocks());
        Swap(replacement, SnapshotOf(input, host.oracle.clock(old(host.samples)).time), old(host.live));
      }
    }

    /** The swap that ends an installation: `base` was live before the replacement was built. */
    method Swap(replacement: OwnedTopology, ghost s: Snapshot, ghost base: set<object?>)
      requires Valid() && SlotIs(true, replacement, Some(s), replacement.Blocks())
      requires null in base && Owned() <= base && host.live == base + replacement.Blocks()
      requires Apart(replacement.Blocks(), requests.blocks) && Apart(installed.blocks, replacement.Blocks())
      requires forall p :: p in replacement.Blocks() && p in base ==> p == null
      modifies host, installed, installed.blocks
      ensures Valid() && Abs() == old(Abs()).(snapshot := Some(s))
      ensures installed.blocks == replacement.Blocks() && Others() == base - old(Owned()) + {null}
      ensures host.live == base - old(installed.blocks) + installed.blocks + {null}
    {
      hide SlotIs, ListIs;
      SlotFacts(installed.has, installed.topology, installed.snapshot, installed.blocks);
      ghost var kept := {this as object?} + requests.blocks;
      assert Owned() == kept + installed.blocks;
      Traded(base, kept, installed.blocks, replacement.Blocks());
      var empty := ReleaseTopology(host, installed.topology);
      installed.Put(replacement, s);
      assert Owned() == kept + replacement.Blocks();
    }

    /** The last checks of a submission: a free event slot and a usable time stamp. */
    method StampRequest(received: u64) returns (status: Status, time: u64)
      requires host.Valid() && queue.Valid()
      modifies host
      ensures host.Valid() && host.live == old(host.live) && host.allocations == old(host.allocations)
      ensures
        if |queue.Contents()| >= QUEUE_CAPACITY then
          status == ResourceExhausted && host.samples == old(host.samples)
        else
          var sample := host.oracle.clock(old(host.samples));
          && status == StampVerdict(sample, received) && time == sample.time
          && host.samples == old(host.samples) + 1
    {
      if !queue.HasCapacity() {
        return ResourceExhausted, 0;
      }
      status, time := host.ReadClock();
      if status == Ok && time < received {
        status := InternalError;
      }
    }

    /** A filled request, pointing at the current head, that the client does not own yet. */
    ghost predicate Linkable(request: Request, a: Accepted)
      reads this, host, installed, requests, request, request.transaction, request.targets
    {
      && request.Holds(a) && request.next == requests.head && request.Distinct()
      && request.Blocks() <= host.live && request.Blocks() !! requests.blocks
      && Apart(installed.blocks, request.Blocks())
    }

    /** The commit: event, list and id move together. */
    method CommitRequest(request: Request, ghost a: Accepted, time: u64)
      requires Valid() && nextRequestId != NO_REQUEST && |queue.Contents()| < QUEUE_CAPACITY && Linkable(request, a)
      modifies this, queue, queue.entries, requests
      ensures Valid() && requests.blocks == old(requests.blocks) + request.Blocks()
      ensures Abs() == old(Abs()).(
        requests := old(requests.log) + [a],
        queue := old(queue.Contents()) + [AcceptedEvent(old(nextRequestId), time)],
        nextId := NextId(old(nextRequestId)))
    {
      hide SlotIs, ListIs, RingContents;
      var requestId := nextRequestId;
      var status := queue.Push(AcceptedEvent(requestId, time));
      if status != Ok {
        assert false;
      }
      requests.Prepend(request, a);
      if requestId == U64_MAX {
        nextRequestId := NO_REQUEST;
      } else {
        nextRequestId := requestId + 1;
      }
    }

    /** The capacity check, the time stamp and the commit. */
    method StampAndCommit(request: Request, ghost s: Snapshot, ghost bytes: seq<u8>, limit: u32, received: u64)
      returns (status: Status, id: u64)
      requires Valid() && nextRequestId != NO_REQUEST && received == s.received
      requires Linkable(request, RequestFrom(nextRequestId, s, bytes, limit))
      modifies this, host, queue, queue.entries, requests
      ensures Valid() && host.live == old(host.live)
      ensures
        var r := SubmitPrepared(host.oracle, old(Abs()), s, bytes, limit);
        status == r.status && id == r.id && Abs() == r.next
      ensures requests.blocks == old(requests.blocks) + if status == Ok then request.Blocks() else {}
      ensures request.Blocks() == old(request.Blocks())
    {
      hide SlotIs, ListIs, RingContents, RequestFrom, Request.Holds;
      id := NO_REQUEST;
      var time;
      status, time := StampRequest(received);
      if status == Ok {
        id := nextRequestId;
        CommitRequest(request, RequestFrom(id, s, bytes, limit), time);
      }
    }

    /** Prepared blocks that the client does not own yet. */
    ghost predicate Ready(p: Prepared, bytes: seq<u8>, limit: nat, s: Snapshot)
      reads this, installed, requests, p.transaction, p.targets, host
    {
      && installed.snapshot == Some(s) && p.Filled(bytes, ChosenTargets(s, limit))
      && p.Kept() <= host.live && Apart(installed.blocks, p.Kept()) && p.Kept() !! requests.blocks
    }

    /** The request's fields, written before anything can refer to it. */
    method FillRequest(p: Prepared, request: Request, ghost bytes: seq<u8>, limit: u32, ghost s: Snapshot)
      requires Valid() && Ready(p, bytes, limit, s) && request == p.request
      modifies request
      ensures Valid() && Abs() == old(Abs())
      ensures Linkable(request, RequestFrom(nextRequestId, s, bytes, limit)) && request.Blocks() == p.Kept()
    {
      hide SlotIs, ListIs, RingContents, ChosenTargets;
      SlotFacts(installed.has, installed.topology, installed.snapshot, installed.blocks);
      request.Fill(nextRequestId, installed.topology.generation, installed.topology.currentSlot,
                   p.transaction, p.targets, requests.head, RequestFrom(nextRequestId, s, bytes, limit));
    }

    /** From the choice of an id to the commit, with every block in hand. */
    method CommitPrepared(p: Prepared, ghost bytes: seq<u8>, limit: u32, ghost s: Snapshot)
      returns (status: Status, id: u64)
      requires Valid() && Ready(p, bytes, limit, s)
      modifies this, host, queue, queue.entries, requests, p.request
      ensures Valid() && host.live == old(host.live)
      ensures
        var r := SubmitPrepared(host.oracle, old(Abs()), s, bytes, limit);
        status == r.status && id == r.id && Abs() == r.next
      ensures requests.blocks == old(requests.blocks) + if status == Ok then p.Kept() else {}
    {
      hide SlotIs, ListIs, RingContents, ChosenTargets, RequestFrom, Request.Holds;
      SlotFacts(installed.has, installed.topology, installed.snapshot, installed.blocks);
      if nextRequestId == NO_REQUEST {
        return ResourceExhausted, NO_REQUEST;
      }
      var request := p.request;
      FillRequest(p, request, bytes, limit, s);
      status, id := StampAndCommit(request, s, bytes, limit, installed.topology.received);
    }

    /** Everything after admission, with the cleanup that ends every path. */
    method SubmitFresh(transaction: array<u8>, length: usize, limit: u32, ghost s: Snapshot, ghost bytes: seq<u8>)
      returns (status: Status, id: u64)
      requires Valid() && installed.snapshot == Some(s) && limit > 0
      requires 0 < length <= transaction.Length && bytes == transaction[..length]
      modifies this, host, queue, queue.entries, requests
      ensures Valid() && Others() == old(Others())
      ensures
        var r := SubmitAdmitted(host.oracle, old(Abs()), s, bytes, limit);
        status == r.status && id == r.id && Abs() == r.next
      ensures forall b :: b in requests.blocks && b !in old(requests.blocks) ==> FreshOrNull(b)
      ensures if status == Ok then old(requests.blocks) <= requests.blocks && host.live == old(host.live) + requests.blocks
              else host.live == old(host.live) && requests.blocks == old(requests.blocks)
    {
      hide SlotIs, ListIs, RingContents, ChosenTargets, SubmitPrepared, PrepareSupply, Coherent, Client.Gained;
      hide OwnedTopology.HasSchedule, OwnedTopology.HasContacts, Resolve, Routes;
      SlotFacts(installed.has, installed.topology, installed.snapshot, installed.blocks);
      ghost var base := host.live;
      var p;
      status, p := PrepareSubmission(host, installed.topology, installed.topology.currentSlot, transaction, length, limit, s);
      PreparedApart(p);
      status, id := FinishSubmission(status, p, bytes, limit, s, base);
    }

    /** The commit of a submission, if it was prepared. */
    method CommitIfPrepared(prepared: Status, p: Prepared, ghost bytes: seq<u8>, limit: u32, ghost s: Snapshot)
      returns (status: Status, id: u64)
      requires Valid() && (prepared == Ok ==> Ready(p, bytes, limit, s))
      modifies this, host, queue, queue.entries, requests, p.request
      ensures Valid() && host.live == old(host.live)
      ensures Owned() == old(Owned()) + if status == Ok then p.Kept() else {}
      ensures requests.blocks == old(requests.blocks) + if status == Ok then p.Kept() else {}
      ensures
        if prepared == Ok then
          var r := SubmitPrepared(host.oracle, old(Abs()), s, bytes, limit);
          status == r.status && id == r.id && Abs() == r.next
        else
          status == prepared && id == NO_REQUEST && Abs() == old(Abs())
    {
      hide SlotIs, ListIs, RingContents, ChosenTargets, SubmitPrepared, Client.Ready;
      status, id := prepared, NO_REQUEST;
      if prepared == Ok {
        status, id := CommitPrepared(p, bytes, limit, s);
      }
    }

    /** The cleanup: the blocks of the start are left, with those that an accepted request keeps,
        and the client does not depend on what is freed. */
    method Cleanup(p: Prepared, keep: bool, ghost base: set<object?>)
      requires Valid() && host.live == base + p.Blocks() && Gained(p, base)
      requires Owned() <= base + if keep then p.Kept() else {}
      modifies host, if keep then p.Scratch() else p.Blocks()
      ensures Valid() && Abs() == old(Abs()) && Owned() == old(Owned()) && requests.blocks == old(requests.blocks)
      ensures host.live == base + if keep then p.Kept() else {}
    {
      hide SlotIs, ListIs, RingContents;
      GivenBack(base, p.Scratch(), p.Kept());
      ReleasePrepared(host, p, keep);
    }

    /** The commit of a prepared submission, if it was prepared, and the cleanup. */
    method FinishSubmission(prepared: Status, p: Prepared, ghost bytes: seq<u8>, limit: u32, ghost s: Snapshot, ghost base: set<object?>)
      returns (status: Status, id: u64)
      requires Valid() && host.live == base + p.Blocks() && Owned() <= base && Gained(p, base)
      requires prepared == Ok ==> Ready(p, bytes, limit, s)
      modifies this, host, queue, queue.entries, requests, p.Blocks()
      ensures Valid() && Others() == base - old(Owned()) + {null}
      ensures
        if prepared == Ok then
          var r := SubmitPrepared(host.oracle, old(Abs()), s, bytes, limit);
          status == r.status && id == r.id && Abs() == r.next
        else
          status == prepared && id == NO_REQUEST && Abs() == old(Abs())
      ensures requests.blocks == old(requests.blocks) + if status == Ok then p.Kept() else {}
      ensures host.live == if status == Ok then base + requests.blocks else base
    {
      hide SlotIs, ListIs, RingContents, ChosenTargets, SubmitPrepared, Client.Ready;
      ghost var owned := Owned();
      status, id := CommitIfPrepared(prepared, p, bytes, limit, s);
      OthersKept(base, owned, p.Kept());
      Cleanup(p, status == Ok, base);
    }

    /** The blocks of a submission are different and were not live at its start. */
    ghost predicate Gained(p: Prepared, base: set<object?>) {
      && null in base && p.Distinct() && p.Blocks() == p.Scratch() + p.Kept()
      && (forall b :: b in p.Kept() && b in base ==> b == null)
      && (forall b :: b in p.Scratch() && (b in base || b in p.Kept()) ==> b == null)
    }

    /** The blocks of a running submission are none of the client's. */
    twostate lemma PreparedApart(new p: Prepared)
      requires old(Valid()) && p.Distinct()
      requires FreshOrNull(p.candidates) && FreshOrNull(p.routes)
      requires FreshOrNull(p.transaction) && FreshOrNull(p.targets) && FreshOrNull(p.request)
      ensures Gained(p, old(host.live)) && Apart(old(installed.blocks), p.Kept())
      ensures p.transaction != null && p.targets != null && p.request != null ==> p.Kept() !! old(requests.blocks)
      ensures forall b :: b in p.Kept() ==> FreshOrNull(b)
    {
      hide SlotIs, ListIs;
      NewBlocksApart(p.Blocks());
    }

    /** `solana_delivery_client_submit` */
    method SubmitTransaction(idOut: bool, transaction: array?<u8>, length: usize, options: Option<Options>)
      returns (status: Status, id: u64)
      requires Valid() && (transaction != null ==> length <= transaction.Length)
      modifies this, host, queue, queue.entries, requests
      ensures Valid() && Others() == old(Others())
      ensures
        var r := Submit(host.oracle, old(Abs()),
                        Submission(idOut, transaction != null, old(TransactionBytes(transaction, length)), options));
        status == r.status && id == r.id && Abs() == r.next
      ensures forall b :: b in requests.blocks && b !in old(requests.blocks) ==> FreshOrNull(b)
      ensures if status == Ok then old(requests.blocks) <= requests.blocks && host.live == old(host.live) + requests.blocks
              else host.live == old(host.live) && requests.blocks == old(requests.blocks)
    {
      hide SlotIs, ListIs, RingContents, SubmitChecked;
      id := NO_REQUEST;
      if !idOut {
        return InvalidArgument, NO_REQUEST;
      }
      if transaction == null || length == 0 {
        return InvalidArgument, NO_REQUEST;
      }
      status := ValidateSubmitOptions(options);
      if status != Ok {
        return;
      }
      status, id := SubmitWithPolicy(transaction, length, options.value, transaction[..length]);
    }

    /** The admission gate on this client's topology. */
    method Admit(options: Options) returns (status: Status)
      requires Valid() && OptionsVerdict(Some(options)) == Ok
      modifies host
      ensures Valid() && host.live == old(host.live)
      ensures
        if installed.snapshot == None then status == TopologyUnavailable && Abs() == old(Abs())
        else
          && status == AdmissionVerdict(host.oracle.clock(old(host.samples)), installed.snapshot.value.received, options.maxAge)
          && Abs() == old(Abs()).(samples := old(host.samples) + 1)
    {
      hide SlotIs, ListIs, RingContents, AdmissionVerdict, Coherent;
      SlotFacts(installed.has, installed.topology, installed.snapshot, installed.blocks);
      status := EvaluateSubmissionPolicy(host, installed.has, installed.topology.received, options.maxAge, options.targetLimit);
    }

    /** Admission and what follows it. */
    method SubmitWithPolicy(transaction: array<u8>, length: usize, options: Options, ghost bytes: seq<u8>)
      returns (status: Status, id: u64)
      requires Valid() && OptionsVerdict(Some(options)) == Ok
      requires 0 < length <= transaction.Length && bytes == transaction[..length]
      modifies this, host, queue, queue.entries, requests
      ensures Valid() && Others() == old(Others())
      ensures
        if old(Abs()).snapshot == None then
          status == TopologyUnavailable && id == NO_REQUEST && Abs() == old(Abs())
        else
          var r := SubmitChecked(host.oracle, old(Abs()), old(Abs()).snapshot.value, bytes, options);
          status == r.status && id == r.id && Abs() == r.next
      ensures forall b :: b in requests.blocks && b !in old(requests.blocks) ==> FreshOrNull(b)
      ensures if status == Ok then old(requests.blocks) <= requests.blocks && host.live == old(host.live) + requests.blocks
              else host.live == old(host.live) && requests.blocks == old(requests.blocks)
    {
      hide SlotIs, ListIs, RingContents, SubmitAdmitted, AdmissionVerdict, Coherent;
      id := NO_REQUEST;
      status := Admit(options);
      if status != Ok {
        return;
      }
      status, id := SubmitFresh(transaction, length, options.targetLimit, installed.snapshot.value, bytes);
    }

    /** free of the client's own block, and with it of every member it holds. */
    method FreeSelf()
      requires host.Valid() && this in host.live
      modifies host, this, queue, queue.entries, installed, requests
      ensures host.Valid() && host.live == old(host.live) - {this} + {null}
      ensures host.allocations == old(host.allocations) && host.samples == old(host.samples)
    {
      host.Free(this);
    }

    /** `solana_delivery_client_destroy`: frees every block the client owns, once, and no other. */
    method Destroy()
      requires Valid()
      modifies host, this, queue, queue.entries, installed, installed.blocks, requests, requests.blocks
      ensures host.Valid() && host.live == old(host.live) - old(Owned()) + {null}
      ensures host.allocations == old(host.allocations) && host.samples == old(host.samples)
    {
      hide SlotIs, ListIs, RingContents;
      SlotFacts(installed.has, installed.topology, installed.snapshot, installed.blocks);
      requests.Release(host);
      installed.topology := ReleaseTopology(host, installed.topology);
      FreeSelf();
    }

    /** How many heap blocks that is: the client, one per non-empty topology array, and three
        per accepted request. */
    lemma OwnedBlockCount()
      requires Valid()
      ensures |Owned() - {null}| == 1 + TableBlocks(installed.snapshot) + 3 * |requests.log|
    {
      SlotBlockCount(installed.has, installed.topology, installed.snapshot, installed.blocks);
      requests.CountBlocks();
      hide SlotIs, ListIs;
      var topologyBlocks := installed.blocks - {null};
      assert topologyBlocks !! requests.blocks && this !in topologyBlocks + requests.blocks;
      hide *;
      CountParts(this, topologyBlocks, requests.blocks, installed.blocks);
    }

    /** The whole heap: somebody else's blocks and the client's, of which there are one for the
        client, one per non-empty table and three per accepted request. */
    lemma HeapIsAccountedFor()
      requires Valid()
      ensures host.live == Others() + Owned()
      ensures |Owned() - {null}| == 1 + TableBlocks(Abs().snapshot) + 3 * |Abs().requests|
    {
      OwnedBlockCount();
      hide SlotIs, ListIs, RingContents;
    }

    static lemma CountParts(self: object, topologyBlocks: set<object?>, requestBlocks: set<object?>, slotBlocks: set<object?>)
      requires topologyBlocks == slotBlocks - {null} && null !in requestBlocks
      requires topologyBlocks !! requestBlocks && self !in topologyBlocks + requestBlocks
      ensures |{self as object?} + slotBlocks + requestBlocks - {null}| == 1 + |topologyBlocks| + |requestBlocks|
    {
      DisjointSize({self}, topologyBlocks);
      DisjointSize({self} + topologyBlocks, requestBlocks);
      assert {self as object?} + slotBlocks + requestBlocks - {null} == {self} + topologyBlocks + requestBlocks;
    }
  }
}
