/** The client's own copy of a topology: four packed byte arrays and their counts. */
module Ownership {
  import opened Machine
  import opened Records
  import opened Hosting
  import opened Layout
  import opened Topology

  /** A struct of pointers, copied by value; the owned strides are the record sizes. */
  datatype OwnedTopology = OwnedTopology(
    generation: u64, currentSlot: u64,
    validators: array?<u8>, validatorCount: u32,
    endpoints: array?<u8>, endpointCount: u32,
    associations: array?<u8>, associationCount: u32,
    leaders: array?<u8>, leaderCount: u32,
    received: u64)
  {
    /** Its heap blocks, and NULL where an array is empty. */
    ghost function Blocks(): set<object?> {
      {validators, endpoints, associations, leaders}
    }

    /** The four pointers denote different blocks of exactly the declared sizes. */
    ghost predicate Valid() {
      && Packed(validators, validatorCount, VALIDATOR_SIZE)
      && Packed(endpoints, endpointCount, ENDPOINT_SIZE)
      && Packed(associations, associationCount, ASSOCIATION_SIZE)
      && Packed(leaders, leaderCount, LEADER_SIZE)
      && Distinct()
    }

    ghost predicate Distinct() {
      && (validators == null || (validators != endpoints && validators != associations && validators != leaders))
      && (endpoints == null || (endpoints != associations && endpoints != leaders))
      && (associations == null || associations != leaders)
    }

    ghost function ValidatorRecords(): (r: seq<Validator>)
      reads validators
      ensures |r| == validatorCount
    {
      Mapped(DecodeValidator, Contents(validators), validatorCount, VALIDATOR_SIZE, VALIDATOR_SIZE)
    }

    ghost function EndpointRecords(): (r: seq<Endpoint>)
      reads endpoints
      ensures |r| == endpointCount
    {
      Mapped(DecodeEndpoint, Contents(endpoints), endpointCount, ENDPOINT_SIZE, ENDPOINT_SIZE)
    }

    ghost function AssociationRecords(): (r: seq<Association>)
      reads associations
      ensures |r| == associationCount
    {
      Mapped(DecodeAssociation, Contents(associations), associationCount, ASSOCIATION_SIZE, ASSOCIATION_SIZE)
    }

    ghost function LeaderRecords(): (r: seq<Leader>)
      reads leaders
      ensures |r| == leaderCount
    {
      Mapped(DecodeLeader, Contents(leaders), leaderCount, LEADER_SIZE, LEADER_SIZE)
    }

    /** The part of a snapshot that resolution reads. */
    ghost predicate HasSchedule(s: Snapshot)
      reads leaders, associations
    {
      s.leaders == LeaderRecords() && s.associations == AssociationRecords()
    }

    /** The part of a snapshot that targets are copied from. */
    ghost predicate HasContacts(s: Snapshot)
      reads validators, endpoints
    {
      s.validators == ValidatorRecords() && s.endpoints == EndpointRecords()
    }

    /** The owned copy as a topology that could be handed back to the library. */
    ghost function AsInput(): TopologyInput
      reads validators, endpoints, associations, leaders
    {
      TopologyInput(
        true, TOPOLOGY_SIZE, 0, generation, currentSlot,
        Strided(validators != null, true, Contents(validators), validatorCount, VALIDATOR_SIZE),
        Strided(endpoints != null, true, Contents(endpoints), endpointCount, ENDPOINT_SIZE),
        Strided(associations != null, true, Contents(associations), associationCount, ASSOCIATION_SIZE),
        Strided(leaders != null, true, Contents(leaders), leaderCount, LEADER_SIZE))
    }

    /** The snapshot the bytes stand for. */
    ghost function ToSnapshot(): Snapshot
      reads validators, endpoints, associations, leaders
    {
      Snapshot(generation, currentSlot, ValidatorRecords(), EndpointRecords(), AssociationRecords(), LeaderRecords(),
               received)
    }
  }

  const NO_TOPOLOGY := OwnedTopology(0, 0, null, 0, null, 0, null, 0, null, 0, 0)

  /** The allocations of one build, in order. */
  function BuildSupply(oracle: Oracle, position: nat, validators: u32, endpoints: u32, associations: u32, leaders: u32): Supply {
    var v := Serve(oracle, position, Demand(validators, VALIDATOR_SIZE));
    var e := Then(oracle, v, Demand(endpoints, ENDPOINT_SIZE));
    var a := Then(oracle, e, Demand(associations, ASSOCIATION_SIZE));
    Then(oracle, a, Demand(leaders, LEADER_SIZE))
  }

  /** Copying and then normalising an array keeps its records, with their sizes normalised. */
  lemma {:induction false} NormalizedRecords<T>(
    decode: seq<u8> -> T, normal: seq<u8> -> T,
    source: seq<u8>, stride: nat, owned: seq<u8>, count: nat, size: u32)
    requires Slices(owned, count, size, size) == Resized(Slices(source, count, stride, size), count, size)
    requires forall b: seq<u8> :: |b| == size ==> decode(WithSize(b, size)) == normal(b)
    ensures Mapped(decode, owned, count, size, size) == Mapped(normal, source, count, stride, size)
  {
    forall i | 0 <= i < count
      ensures Mapped(decode, owned, count, size, size)[i] == Mapped(normal, source, count, stride, size)[i]
    {
      SliceAt(owned, count, size, size, i);
      SliceAt(source, count, stride, size, i);
      ResizedAt(Slices(source, count, stride, size), count, size, i);
      MappedAt(decode, owned, count, size, size, i);
      MappedAt(normal, source, count, stride, size, i);
    }
  }

  /** The arrays hold what the source's arrays held when they were cloned, sizes normalised. */
  ghost predicate Normalized(a: array?<u8>, source: Strided, size: u32)
    reads a
  {
    Slices(Contents(a), source.count, size, size)
      == Resized(Slices(source.bytes, source.count, source.stride, size), source.count, size)
  }

  /** The owned copy means what the source meant. */
  lemma BuiltMeansSource(owned: OwnedTopology, t: TopologyInput)
    requires owned.generation == t.generation && owned.currentSlot == t.currentSlot
    requires owned.validatorCount == t.validators.count && owned.endpointCount == t.endpoints.count
    requires owned.associationCount == t.associations.count && owned.leaderCount == t.leaders.count
    requires Normalized(owned.validators, t.validators, VALIDATOR_SIZE)
    requires Normalized(owned.endpoints, t.endpoints, ENDPOINT_SIZE)
    requires Normalized(owned.associations, t.associations, ASSOCIATION_SIZE)
    requires Normalized(owned.leaders, t.leaders, LEADER_SIZE)
    ensures owned.ToSnapshot() == SnapshotOf(t, owned.received)
  {
    forall b: seq<u8> | |b| == VALIDATOR_SIZE ensures DecodeValidator(WithSize(b, VALIDATOR_SIZE)) == NormalValidator(b) {
      ResizedValidator(b, VALIDATOR_SIZE);
    }
    forall b: seq<u8> | |b| == ENDPOINT_SIZE ensures DecodeEndpoint(WithSize(b, ENDPOINT_SIZE)) == NormalEndpoint(b) {
      ResizedEndpoint(b, ENDPOINT_SIZE);
    }
    forall b: seq<u8> | |b| == ASSOCIATION_SIZE ensures DecodeAssociation(WithSize(b, ASSOCIATION_SIZE)) == NormalAssociation(b) {
      ResizedAssociation(b, ASSOCIATION_SIZE);
    }
    forall b: seq<u8> | |b| == LEADER_SIZE ensures DecodeLeader(WithSize(b, LEADER_SIZE)) == NormalLeader(b) {
      ResizedLeader(b, LEADER_SIZE);
    }
    NormalizedRecords(DecodeValidator, NormalValidator, t.validators.bytes, t.validators.stride,
                      Contents(owned.validators), t.validators.count, VALIDATOR_SIZE);
    NormalizedRecords(DecodeEndpoint, NormalEndpoint, t.endpoints.bytes, t.endpoints.stride,
                      Contents(owned.endpoints), t.endpoints.count, ENDPOINT_SIZE);
    NormalizedRecords(DecodeAssociation, NormalAssociation, t.associations.bytes, t.associations.stride,
                      Contents(owned.associations), t.associations.count, ASSOCIATION_SIZE);
    NormalizedRecords(DecodeLeader, NormalLeader, t.leaders.bytes, t.leaders.stride,
                      Contents(owned.leaders), t.leaders.count, LEADER_SIZE);
  }

  /** `owned_topology_release` */
  method ReleaseTopology(host: Host, owned: OwnedTopology) returns (empty: OwnedTopology)
    requires host.Valid() && owned.Blocks() <= host.live && owned.Distinct()
    modifies host, owned.validators, owned.endpoints, owned.associations, owned.leaders
    ensures host.Valid() && host.live == old(host.live) - owned.Blocks() + {null}
    ensures host.allocations == old(host.allocations) && host.samples == old(host.samples)
    ensures empty == NO_TOPOLOGY
  {
    host.Free(owned.validators);
    host.Free(owned.endpoints);
    host.Free(owned.associations);
    host.Free(owned.leaders);
    empty := NO_TOPOLOGY;
  }

  /** Two consecutive clones of `build_owned_topology`; a refused second leaves the first to
      the caller, who releases it. */
  method ClonePair(host: Host, a: StridedArray, aSize: u32, b: StridedArray, bSize: u32)
    returns (status: Status, x: array?<u8>, y: array?<u8>)
    requires host.Valid() && aSize > 0 && bSize > 0 && Readable(a, aSize) && Readable(b, bSize)
    modifies host
    ensures host.Valid() && host.samples == old(host.samples) && host.live == old(host.live) + {x, y}
    ensures
      var s := Serve(host.oracle, old(host.allocations), Demand(a.count, aSize));
      var t := Then(host.oracle, s, Demand(b.count, bSize));
      host.allocations == t.position && status == if t.granted then Ok else ResourceExhausted
    ensures FreshOrNull(x) && FreshOrNull(y) && (x != null ==> x != y)
    ensures status == Ok ==>
      && Packed(x, a.count, aSize) && Cloned(x, a, aSize)
      && Packed(y, b.count, bSize) && Cloned(y, b, bSize)
  {
    y := null;
    status, x := CloneArray(host, a, aSize);
    if status == Ok {
      status, y := CloneArray(host, b, bSize);
    }
  }

  /** The cloning part of `build_owned_topology`: four arrays or, after any refusal, none. */
  method CloneTopology(host: Host, source: TopologyView) returns (status: Status, owned: OwnedTopology)
    requires host.Valid() && RecordsReadable(source)
    modifies host
    ensures host.Valid() && host.samples == old(host.samples)
    ensures
      var s := BuildSupply(host.oracle, old(host.allocations), source.validators.count, source.endpoints.count,
                           source.associations.count, source.leaders.count);
      && host.allocations == s.position
      && status == (if s.granted then Ok else ResourceExhausted)
    ensures status != Ok ==> host.live == old(host.live) && owned == NO_TOPOLOGY
    ensures status == Ok ==>
      && host.live == old(host.live) + owned.Blocks()
      && FreshOrNull(owned.validators) && FreshOrNull(owned.endpoints)
      && FreshOrNull(owned.associations) && FreshOrNull(owned.leaders)
      && owned.Valid()
      && Describes(owned, source)
      && Cloned(owned.validators, source.validators, VALIDATOR_SIZE)
      && Cloned(owned.endpoints, source.endpoints, ENDPOINT_SIZE)
      && Cloned(owned.associations, source.associations, ASSOCIATION_SIZE)
      && Cloned(owned.leaders, source.leaders, LEADER_SIZE)
  {
    ghost var base := host.live;
    var validators, endpoints, associations, leaders: array?<u8> := null, null, null, null;
    label build: {
      status, validators, endpoints := ClonePair(host, source.validators, VALIDATOR_SIZE, source.endpoints, ENDPOINT_SIZE);
      if status != Ok { break build; }
      status, associations, leaders :=
        ClonePair(host, source.associations, ASSOCIATION_SIZE, source.leaders, LEADER_SIZE);
    }
    assert host.live == base + {validators, endpoints, associations, leaders};
    owned := OwnedTopology(
      source.generation, source.currentSlot, validators, source.validators.count, endpoints, source.endpoints.count,
      associations, source.associations.count, leaders, source.leaders.count, 0);
    if status != Ok {
      Undone(base, owned.Blocks());
      owned := ReleaseTopology(host, owned);
    }
  }

  /** Freeing exactly the blocks gained restores the live set. */
  lemma Undone(base: set<object?>, gained: set<object?>)
    requires null in base && forall p :: p in gained && p in base ==> p == null
    ensures base + gained - gained + {null} == base
  {
  }

  ghost predicate Describes(owned: OwnedTopology, source: TopologyView) {
    && owned.generation == source.generation && owned.currentSlot == source.currentSlot
    && owned.validatorCount == source.validators.count && owned.endpointCount == source.endpoints.count
    && owned.associationCount == source.associations.count && owned.leaderCount == source.leaders.count
    && owned.received == 0
  }

  /** What normalising does to one owned array. */
  twostate predicate SizesNormalized(a: array?<u8>, count: u32, size: u32)
    reads a
  {
    Slices(Contents(a), count, size, size) == Resized(old(Slices(Contents(a), count, size, size)), count, size)
  }

  /** `normalize_owned_struct_sizes` */
  method NormalizeOwnedSizes(owned: OwnedTopology)
    requires owned.Valid()
    modifies owned.validators, owned.endpoints, owned.associations, owned.leaders
    ensures SizesNormalized(owned.validators, owned.validatorCount, VALIDATOR_SIZE)
    ensures SizesNormalized(owned.endpoints, owned.endpointCount, ENDPOINT_SIZE)
    ensures SizesNormalized(owned.associations, owned.associationCount, ASSOCIATION_SIZE)
    ensures SizesNormalized(owned.leaders, owned.leaderCount, LEADER_SIZE)
  {
    NormalizeSizes(owned.validators, owned.validatorCount, VALIDATOR_SIZE);
    NormalizeSizes(owned.endpoints, owned.endpointCount, ENDPOINT_SIZE);
    NormalizeSizes(owned.associations, owned.associationCount, ASSOCIATION_SIZE);
    NormalizeSizes(owned.leaders, owned.leaderCount, LEADER_SIZE);
  }

  /** Normalising a clone of `t` makes it mean `t`. */
  method NormalizeBuilt(owned: OwnedTopology, source: TopologyView, ghost t: TopologyInput)
    requires owned.Valid() && Describes(owned, source) && t == source.Value()
    requires Cloned(owned.validators, source.validators, VALIDATOR_SIZE)
    requires Cloned(owned.endpoints, source.endpoints, ENDPOINT_SIZE)
    requires Cloned(owned.associations, source.associations, ASSOCIATION_SIZE)
    requires Cloned(owned.leaders, source.leaders, LEADER_SIZE)
    modifies owned.validators, owned.endpoints, owned.associations, owned.leaders
    ensures owned.ToSnapshot() == SnapshotOf(t, 0)
  {
    NormalizeOwnedSizes(owned);
    BuiltMeansSource(owned, t);
  }

  /** `build_owned_topology`: on Ok an owned copy that means what the source means, and
      otherwise nothing at all. */
  method BuildOwnedTopology(host: Host, source: TopologyView) returns (status: Status, owned: OwnedTopology)
    requires host.Valid() && RecordsReadable(source)
    modifies host
    ensures host.Valid() && host.samples == old(host.samples)
    ensures
      var s := BuildSupply(host.oracle, old(host.allocations), source.validators.count, source.endpoints.count,
                           source.associations.count, source.leaders.count);
      host.allocations == s.position && status == if s.granted then Ok else ResourceExhausted
    ensures status != Ok ==> host.live == old(host.live) && owned == NO_TOPOLOGY
    ensures status == Ok ==>
      && host.live == old(host.live) + owned.Blocks()
      && FreshOrNull(owned.validators) && FreshOrNull(owned.endpoints)
      && FreshOrNull(owned.associations) && FreshOrNull(owned.leaders)
      && owned.Valid() && Describes(owned, source)
      && owned.ToSnapshot() == SnapshotOf(old(source.Value()), 0)
  {
    status, owned := CloneTopology(host, source);
    if status == Ok {
      NormalizeBuilt(owned, source, old(source.Value()));
    }
  }

  /** The owned topology lies in `blocks` and stands for `snapshot`. */
  ghost predicate SlotIs(has: bool, topology: OwnedTopology, snapshot: Option<Snapshot>, blocks: set<object?>)
    reads blocks
  {
    && topology.Valid() && blocks == topology.Blocks()
    && if has then snapshot == Some(topology.ToSnapshot()) && Coherent(snapshot.value)
       else snapshot == None && topology == NO_TOPOLOGY
  }

  /** What holders of a slot need to know about it. */
  lemma SlotFacts(has: bool, topology: OwnedTopology, snapshot: Option<Snapshot>, blocks: set<object?>)
    requires SlotIs(has, topology, snapshot, blocks)
    ensures topology.Valid() && blocks == topology.Blocks() && has == snapshot.Some?
    ensures has ==>
      && Coherent(snapshot.value)
      && snapshot.value.generation == topology.generation && snapshot.value.currentSlot == topology.currentSlot
      && snapshot.value.received == topology.received
      && |snapshot.value.leaders| == topology.leaderCount
      && topology.HasSchedule(snapshot.value) && topology.HasContacts(snapshot.value)
  {
  }

  function TableBlocks(snapshot: Option<Snapshot>): nat {
    match snapshot
    case None => 0
    case Some(s) =>
      (if s.validators == [] then 0 else 1) + (if s.endpoints == [] then 0 else 1)
      + (if s.associations == [] then 0 else 1) + (if s.leaders == [] then 0 else 1)
  }

  /** A slot owns one block per non-empty table. */
  lemma SlotBlockCount(has: bool, topology: OwnedTopology, snapshot: Option<Snapshot>, blocks: set<object?>)
    requires SlotIs(has, topology, snapshot, blocks)
    ensures |blocks - {null}| == TableBlocks(snapshot)
  {
    var v, e, a, l := topology.validators, topology.endpoints, topology.associations, topology.leaders;
    PackedCounts(topology);
    CountFour(v, e, a, l);
  }

  lemma PackedCounts(topology: OwnedTopology)
    requires topology.Valid()
    ensures topology.validators == null <==> topology.validatorCount == 0
    ensures topology.endpoints == null <==> topology.endpointCount == 0
    ensures topology.associations == null <==> topology.associationCount == 0
    ensures topology.leaders == null <==> topology.leaderCount == 0
  {
  }

  lemma CountFour(a: object?, b: object?, c: object?, d: object?)
    requires Differ(a, b) && Differ(a, c) && Differ(a, d) && Differ(b, c) && Differ(b, d) && Differ(c, d)
    ensures |{a, b, c, d} - {null}| ==
      (if a == null then 0 else 1) + (if b == null then 0 else 1) + (if c == null then 0 else 1) + (if d == null then 0 else 1)
  {
    FourOnly(a, b, c, d);
    assert Only(a) !! Only(b) && Only(a) + Only(b) !! Only(c) && Only(a) + Only(b) + Only(c) !! Only(d);
    DisjointSize(Only(a), Only(b));
    DisjointSize(Only(a) + Only(b), Only(c));
    DisjointSize(Only(a) + Only(b) + Only(c), Only(d));
  }

  lemma FourOnly(a: object?, b: object?, c: object?, d: object?)
    ensures {a, b, c, d} - {null} == Only(a) + Only(b) + Only(c) + Only(d)
  {
    OnlyIs(a);
    OnlyIs(b);
    OnlyIs(c);
    OnlyIs(d);
    hide Only;
    FourSingletons(a, b, c, d);
    WithoutFromFour({a}, {b}, {c}, {d}, {null});
  }

  lemma OnlyIs(p: object?)
    ensures Only(p) == {p} - {null}
  {
  }

  lemma FourSingletons(a: object?, b: object?, c: object?, d: object?)
    ensures {a, b, c, d} == {a} + {b} + {c} + {d}
  {
  }

  lemma WithoutFromFour(a: set<object?>, b: set<object?>, c: set<object?>, d: set<object?>, n: set<object?>)
    ensures a + b + c + d - n == (a - n) + (b - n) + (c - n) + (d - n)
  {
  }

  /** The client's `topology` and `has_topology` fields. */
  class TopologySlot {
    var has: bool
    var topology: OwnedTopology

    /** What the owned bytes stand for, and the blocks they are in. */
    ghost var snapshot: Option<Snapshot>
    ghost var blocks: set<object?>

    ghost predicate Valid()
      reads this, blocks
    {
      SlotIs(has, topology, snapshot, blocks)
    }

    constructor ()
      ensures Valid() && snapshot == None && blocks == {null}
    {
      has, topology, snapshot, blocks := false, NO_TOPOLOGY, None, {null};
    }

    /** `topology = replacement; has_topology = true`. */
    method Put(replacement: OwnedTopology, ghost s: Snapshot)
      requires SlotIs(true, replacement, Some(s), replacement.Blocks()) && this !in replacement.Blocks()
      modifies this
      ensures Valid() && blocks == replacement.Blocks() && snapshot == Some(s) && has
    {
      hide SlotIs;
      ghost var gained := replacement.Blocks();
      has, topology := true, replacement;
      snapshot, blocks := Some(s), gained;
    }
  }

  /** A built topology, once its receipt time is set, fills a slot. */
  lemma Receipt(built: OwnedTopology, t: TopologyInput, received: u64)
    requires Validate(t) == Ok && built.Valid() && built.ToSnapshot() == SnapshotOf(t, 0)
    ensures
      var replacement := built.(received := received);
      && replacement.Blocks() == built.Blocks()
      && SlotIs(true, replacement, Some(SnapshotOf(t, received)), replacement.Blocks())
  {
    ValidatedIsCoherent(t, received);
    hide Validate, Coherent, Mapped, Packed;
  }

  lemma ValidatedReadable(t: TopologyView)
    requires Validate(t.Value()) == Ok && IsBacked(t.Value())
    ensures RecordsReadable(t)
  {
    CheckedRecordsReadable(t);
  }

  twostate lemma AllNew(host: Host, new built: OwnedTopology)
    requires FreshOrNull(built.validators) && FreshOrNull(built.endpoints)
    requires FreshOrNull(built.associations) && FreshOrNull(built.leaders)
    ensures forall p :: p in built.Blocks() ==> FreshOrNull(p) && (p in old(host.live) ==> p == null)
  {
  }

  /** Giving up a built topology restores the live set it was built from. */
  method DiscardBuilt(host: Host, built: OwnedTopology, ghost base: set<object?>) returns (empty: OwnedTopology)
    requires host.Valid() && built.Distinct() && null in base && host.live == base + built.Blocks()
    requires forall p :: p in built.Blocks() && p in base ==> p == null
    modifies host, built.validators, built.endpoints, built.associations, built.leaders
    ensures host.Valid() && host.live == base && empty == NO_TOPOLOGY
    ensures host.allocations == old(host.allocations) && host.samples == old(host.samples)
  {
    Undone(base, built.Blocks());
    empty := ReleaseTopology(host, built);
  }

  /** A complete replacement with its receipt time, or nothing: the part of an installation
      that runs before the client is touched. */
  method AcquireReplacement(host: Host, t: TopologyView, ghost input: TopologyInput)
    returns (status: Status, replacement: OwnedTopology)
    requires host.Valid() && IsBacked(t.Value()) && input == t.Value() && Validate(input) == Ok
    modifies host
    ensures host.Valid()
    ensures
      var supply := BuildSupply(host.oracle, old(host.allocations), input.validators.count, input.endpoints.count,
                                input.associations.count, input.leaders.count);
      var sample := host.oracle.clock(old(host.samples));
      && host.allocations == supply.position
      && host.samples == old(host.samples) + (if supply.granted then 1 else 0)
      && status == (if supply.granted then sample.status else ResourceExhausted)
      && (status == Ok ==>
            SlotIs(true, replacement, Some(SnapshotOf(input, sample.time)), replacement.Blocks()))
    ensures status == Ok ==>
      && host.live == old(host.live) + replacement.Blocks()
      && forall p :: p in replacement.Blocks() ==> FreshOrNull(p) && (p in old(host.live) ==> p == null)
    ensures status != Ok ==> host.live == old(host.live)
  {
    hide Validate, IsBacked, RecordsReadable, SnapshotOf, SlotIs, BuildSupply, Describes, OwnedTopology.ToSnapshot;
    ValidatedReadable(t);
    ghost var base := host.live;
    status, replacement := BuildOwnedTopology(host, t);
    if status != Ok {
      return;
    }
    AllNew(host, replacement);
    var received;
    status, received := host.ReadClock();
    if status != Ok {
      replacement := DiscardBuilt(host, replacement, base);
      return;
    }
    Receipt(replacement, input, received);
    replacement := replacement.(received := received);
  }
}
