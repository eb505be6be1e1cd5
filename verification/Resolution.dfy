/** Slot resolution: the join of leaders containing a slot with their validators' endpoints. */
module Resolution {
  import opened Machine
  import opened Records
  import opened Layout
  import opened Topology
  import opened Ownership

  datatype Candidate = Candidate(leaderIndex: u32, validatorIndex: u32, endpointIndex: u32)

  const CANDIDATE_SIZE: nat := 12
  const ZERO_CANDIDATE := Candidate(0, 0, 0)

  /** A leader index and an association index. */
  datatype Pair = Pair(leader: nat, association: nat)

  predicate ContainsSlot(leader: Leader, slot: u64) {
    leader.firstSlot <= slot <= leader.lastSlot
  }

  predicate Matches(leaders: seq<Leader>, associations: seq<Association>, slot: u64, p: Pair) {
    && p.leader < |leaders| && p.association < |associations|
    && ContainsSlot(leaders[p.leader], slot)
    && associations[p.association].validatorIndex == leaders[p.leader].validatorIndex
  }

  /** The matches that precede (leader, association) in lexicographic order. */
  function MatchesBefore(leaders: seq<Leader>, associations: seq<Association>, slot: u64, leader: nat, association: nat): seq<Pair>
    decreases leader, association
  {
    if association > 0 then
      var p := Pair(leader, association - 1);
      MatchesBefore(leaders, associations, slot, leader, association - 1)
        + if Matches(leaders, associations, slot, p) then [p] else []
    else if leader > 0 then
      MatchesBefore(leaders, associations, slot, leader - 1, |associations|)
    else []
  }

  function AllMatches(s: Snapshot, slot: u64): seq<Pair> {
    MatchesBefore(s.leaders, s.associations, slot, |s.leaders|, 0)
  }

  predicate Precedes(p: Pair, q: Pair) {
    p.leader < q.leader || (p.leader == q.leader && p.association < q.association)
  }

  ghost predicate Ascending(pairs: seq<Pair>) {
    forall i, j :: 0 <= i < j < |pairs| ==> Precedes(pairs[i], pairs[j])
  }

  lemma {:induction false} MatchesBeforeMembers(leaders: seq<Leader>, associations: seq<Association>, slot: u64, leader: nat, association: nat)
    requires association <= |associations|
    ensures forall p :: p in MatchesBefore(leaders, associations, slot, leader, association) <==>
      Matches(leaders, associations, slot, p) && Precedes(p, Pair(leader, association))
    decreases leader, association
  {
    if association > 0 {
      MatchesBeforeMembers(leaders, associations, slot, leader, association - 1);
    } else if leader > 0 {
      MatchesBeforeMembers(leaders, associations, slot, leader - 1, |associations|);
    }
  }

  lemma {:induction false} MatchesBeforeAscend(leaders: seq<Leader>, associations: seq<Association>, slot: u64, leader: nat, association: nat)
    requires association <= |associations|
    ensures Ascending(MatchesBefore(leaders, associations, slot, leader, association))
    decreases leader, association
  {
    if association > 0 {
      MatchesBeforeAscend(leaders, associations, slot, leader, association - 1);
      MatchesBeforeMembers(leaders, associations, slot, leader, association - 1);
      var m := MatchesBefore(leaders, associations, slot, leader, association - 1);
      assert forall i :: 0 <= i < |m| ==> m[i] in m;
    } else if leader > 0 {
      MatchesBeforeAscend(leaders, associations, slot, leader - 1, |associations|);
    }
  }

  /** The resolved sequence holds every match once, in lexicographic order, and nothing else: a
      match is a leader whose slot range contains the slot, with an association of its validator. */
  lemma ResolutionIsTheJoin(s: Snapshot, slot: u64)
    ensures Ascending(AllMatches(s, slot))
    ensures forall p :: p in AllMatches(s, slot) <==> Matches(s.leaders, s.associations, slot, p)
    ensures forall i, j :: 0 <= i < j < |AllMatches(s, slot)| ==>
      var p, q := AllMatches(s, slot)[i], AllMatches(s, slot)[j];
      p.leader < q.leader || (p.leader == q.leader && p.association < q.association)
    ensures forall p :: p in AllMatches(s, slot) <==>
      && p.leader < |s.leaders| && p.association < |s.associations|
      && s.leaders[p.leader].firstSlot <= slot <= s.leaders[p.leader].lastSlot
      && s.associations[p.association].validatorIndex == s.leaders[p.leader].validatorIndex
  {
    MatchesBeforeAscend(s.leaders, s.associations, slot, |s.leaders|, 0);
    MatchesBeforeMembers(s.leaders, s.associations, slot, |s.leaders|, 0);
  }

  /** Those two facts leave no freedom: any ascending list of exactly the matches is this one. */
  lemma {:induction false} AscendingIsUnique(a: seq<Pair>, b: seq<Pair>)
    requires Ascending(a) && Ascending(b)
    requires forall p :: p in a <==> p in b
    ensures a == b
  {
    assert (|a| > 0 ==> a[0] in a) && (|b| > 0 ==> b[0] in b);
    if |a| > 0 && |b| > 0 {
      assert a[0] in b && b[0] in a;
      assert a[0] == b[0];
      TailMembers(a);
      TailMembers(b);
      AscendingIsUnique(a[1..], b[1..]);
      assert a == [a[0]] + a[1..] && b == [b[0]] + b[1..];
    }
  }

  lemma TailMembers(a: seq<Pair>)
    requires |a| > 0 && Ascending(a)
    ensures Ascending(a[1..]) && forall p :: p in a[1..] <==> p in a && p != a[0]
  {
    forall p ensures p in a[1..] <==> p in a && p != a[0] {
      if p in a && p != a[0] {
        var i :| 0 <= i < |a| && a[i] == p;
        assert a[1..][i - 1] == p;
      }
    }
  }

  lemma {:induction false} MatchCountBound(leaders: seq<Leader>, associations: seq<Association>, slot: u64, leader: nat, association: nat)
    requires leader <= |leaders| && association <= |associations|
    ensures |MatchesBefore(leaders, associations, slot, leader, association)| <= leader * |associations| + association
    decreases leader, association
  {
    if association > 0 {
      MatchCountBound(leaders, associations, slot, leader, association - 1);
    } else if leader > 0 {
      MatchCountBound(leaders, associations, slot, leader - 1, |associations|);
      assert (leader - 1) * |associations| + |associations| == leader * |associations|;
    }
  }

  /** The overflow test of the counting pass never fires: below the scan position there are
      always fewer than SIZE_MAX matches, because both counts have 32 bits. */
  lemma CountNeverReachesLimit(leaders: seq<Leader>, associations: seq<Association>, slot: u64, leader: nat, association: nat)
    requires |leaders| <= U32_MAX && |associations| <= U32_MAX
    requires leader <= |leaders| && association <= |associations|
    requires association > 0 ==> leader < |leaders|
    ensures |MatchesBefore(leaders, associations, slot, leader, association)| < SIZE_MAX
  {
    MatchCountBound(leaders, associations, slot, leader, association);
    ProductBound(leader, |associations|, U32_MAX, U32_MAX);
  }

  function CandidateOf(s: Snapshot, p: Pair): (c: Candidate)
    requires p.leader < |s.leaders| && p.association < |s.associations|
  {
    Candidate(p.leader, s.leaders[p.leader].validatorIndex, s.associations[p.association].endpointIndex)
  }

  /** The candidates of a list of matches, in order; duplicates are kept. */
  function CandidatesOf(s: Snapshot, pairs: seq<Pair>): (r: seq<Candidate>)
    requires forall p :: p in pairs ==> p.leader < |s.leaders| && p.association < |s.associations|
    ensures |r| == |pairs|
    ensures forall i :: 0 <= i < |pairs| ==> r[i] == CandidateOf(s, pairs[i])
  {
    seq(|pairs|, i requires 0 <= i < |pairs| => CandidateOf(s, pairs[i]))
  }

  /** What resolving `slot` against a snapshot yields. */
  function Resolve(s: Snapshot, slot: u64): (r: seq<Candidate>)
    ensures |r| == |AllMatches(s, slot)|
  {
    ResolutionIsTheJoin(s, slot);
    CandidatesOf(s, AllMatches(s, slot))
  }

  /** Each candidate carries its leader's index and validator and its association's endpoint. */
  lemma CandidatesAre(s: Snapshot, slot: u64, i: nat)
    requires i < |Resolve(s, slot)|
    ensures
      var p, c := AllMatches(s, slot)[i], Resolve(s, slot)[i];
      && p.leader < |s.leaders| && p.association < |s.associations|
      && c.leaderIndex == p.leader && c.validatorIndex == s.leaders[p.leader].validatorIndex
      && c.endpointIndex == s.associations[p.association].endpointIndex
  {
    ResolutionIsTheJoin(s, slot);
    assert AllMatches(s, slot)[i] in AllMatches(s, slot);
  }

  /** Resolved candidates refer into a coherent snapshot. */
  lemma ResolvedIndicesValid(s: Snapshot, slot: u64)
    requires Coherent(s)
    ensures forall c :: c in Resolve(s, slot) ==>
      c.leaderIndex < |s.leaders| && c.validatorIndex < |s.validators| && c.endpointIndex < |s.endpoints|
  {
    var pairs := AllMatches(s, slot);
    ResolutionIsTheJoin(s, slot);
    forall i | 0 <= i < |pairs|
      ensures
        var c := Resolve(s, slot)[i];
        c.leaderIndex < |s.leaders| && c.validatorIndex < |s.validators| && c.endpointIndex < |s.endpoints|
    {
      assert pairs[i] in pairs;
      assert s.leaders[pairs[i].leader] in s.leaders;
      assert s.associations[pairs[i].association] in s.associations;
    }
  }

  // ---------- the resolver ----------

  /** `topology.leaders[index]` */
  method ReadLeader(owned: OwnedTopology, index: u32) returns (leader: Leader)
    requires owned.Valid() && index < owned.leaderCount
    ensures leader == owned.LeaderRecords()[index]
  {
    ElementInside(index, owned.leaderCount, LEADER_SIZE, LEADER_SIZE, owned.leaders.Length);
    MappedAt(DecodeLeader, Contents(owned.leaders), owned.leaderCount, LEADER_SIZE, LEADER_SIZE, index);
    var at := ElementOffset(index, LEADER_SIZE);
    leader := DecodeLeader(owned.leaders[at..at + LEADER_SIZE]);
  }

  /** `topology.validator_endpoints[index]` */
  method ReadAssociation(owned: OwnedTopology, index: u32) returns (association: Association)
    requires owned.Valid() && index < owned.associationCount
    ensures association == owned.AssociationRecords()[index]
  {
    ElementInside(index, owned.associationCount, ASSOCIATION_SIZE, ASSOCIATION_SIZE, owned.associations.Length);
    MappedAt(DecodeAssociation, Contents(owned.associations), owned.associationCount,
             ASSOCIATION_SIZE, ASSOCIATION_SIZE, index);
    var at := ElementOffset(index, ASSOCIATION_SIZE);
    association := DecodeAssociation(owned.associations[at..at + ASSOCIATION_SIZE]);
  }

  lemma {:induction false} SkippedLeader(leaders: seq<Leader>, associations: seq<Association>, slot: u64, leader: nat, association: nat)
    requires leader < |leaders| && association <= |associations|
    requires !ContainsSlot(leaders[leader], slot)
    ensures MatchesBefore(leaders, associations, slot, leader, association)
      == MatchesBefore(leaders, associations, slot, leader, 0)
  {
    if association > 0 {
      SkippedLeader(leaders, associations, slot, leader, association - 1);
    }
  }

  /** Matches met before the scan reaches (i, j): both passes' counter. */
  ghost function Met(s: Snapshot, slot: u64, i: nat, j: nat): nat {
    |MatchesBefore(s.leaders, s.associations, slot, i, j)|
  }

  lemma {:induction false} MatchesGrow(leaders: seq<Leader>, associations: seq<Association>, slot: u64, i: nat, j: nat)
    requires i <= |leaders| && j <= |associations| && (j > 0 ==> i < |leaders|)
    ensures MatchesBefore(leaders, associations, slot, i, j) <= MatchesBefore(leaders, associations, slot, |leaders|, 0)
    decreases |leaders| - i, |associations| - j
  {
    if i < |leaders| {
      if j < |associations| {
        MatchesGrow(leaders, associations, slot, i, j + 1);
      } else {
        MatchesGrow(leaders, associations, slot, i + 1, 0);
      }
    }
  }

  /** One step of the inner loop. A match is the next element of the final answer, which has
      fewer than SIZE_MAX elements; anything else changes nothing. */
  lemma ScanStep(s: Snapshot, slot: u64, i: nat, j: nat)
    requires i < |s.leaders| && j < |s.associations| && ContainsSlot(s.leaders[i], slot)
    ensures
      if s.associations[j].validatorIndex == s.leaders[i].validatorIndex then
        && Met(s, slot, i, j + 1) == Met(s, slot, i, j) + 1 <= |Resolve(s, slot)|
        && Met(s, slot, i, j) < SIZE_MAX
        && Resolve(s, slot)[Met(s, slot, i, j)]
           == Candidate(i, s.leaders[i].validatorIndex, s.associations[j].endpointIndex)
      else
        Met(s, slot, i, j + 1) == Met(s, slot, i, j)
  {
    MatchesGrow(s.leaders, s.associations, slot, i, j + 1);
    CountNeverReachesLimit(s.leaders, s.associations, slot, i, j);
  }

  /** Between rows. */
  lemma ScanRow(s: Snapshot, slot: u64, i: nat)
    requires i < |s.leaders|
    ensures Met(s, slot, i + 1, 0) == Met(s, slot, i, |s.associations|)
    ensures !ContainsSlot(s.leaders[i], slot) ==> Met(s, slot, i + 1, 0) == Met(s, slot, i, 0)
    ensures Met(s, slot, i + 1, 0) <= |Resolve(s, slot)|
  {
    MatchesGrow(s.leaders, s.associations, slot, i + 1, 0);
    if !ContainsSlot(s.leaders[i], slot) {
      SkippedLeader(s.leaders, s.associations, slot, i, |s.associations|);
    }
  }

  /** `count_slot_candidates` */
  method CountSlotCandidates(owned: OwnedTopology, slot: u64, ghost s: Snapshot) returns (status: Status, count: usize)
    requires owned.Valid() && owned.HasSchedule(s)
    ensures status == Ok && count == |Resolve(s, slot)|
  {
    count := 0;
    var i: u32 := 0;
    while i < owned.leaderCount
      invariant i <= owned.leaderCount && count == Met(s, slot, i, 0)
    {
      var leader := ReadLeader(owned, i);
      ScanRow(s, slot, i);
      if ContainsSlot(leader, slot) {
        count := CountRow(owned, slot, s, i, leader, count);
      }
      i := i + 1;
    }
    status := Ok;
  }

  /** The inner loop of the counting pass. */
  method CountRow(owned: OwnedTopology, slot: u64, ghost s: Snapshot, i: u32, leader: Leader, start: usize)
    returns (count: usize)
    requires owned.Valid() && s.associations == owned.AssociationRecords()
    requires i < |s.leaders| && leader == s.leaders[i] && ContainsSlot(leader, slot) && start == Met(s, slot, i, 0)
    ensures count == Met(s, slot, i, |s.associations|)
  {
    count := start;
    var j: u32 := 0;
    while j < owned.associationCount
      invariant j <= owned.associationCount && count == Met(s, slot, i, j)
    {
      var association := ReadAssociation(owned, j);
      ScanStep(s, slot, i, j);
      if association.validatorIndex == leader.validatorIndex {
        if count == SIZE_MAX {
          assert false;
        }
        count := count + 1;
      }
      j := j + 1;
    }
  }

  /** The filling pass has written the first `out` candidates and nothing beyond the last. */
  ghost predicate Filled(now: seq<Candidate>, was: seq<Candidate>, answer: seq<Candidate>, out: nat)
    requires |now| == |was|
  {
    && out <= |answer| <= |now|
    && (forall k :: 0 <= k < out ==> now[k] == answer[k])
    && (forall k :: |answer| <= k < |now| ==> now[k] == was[k])
  }

  lemma FilledStep(now: seq<Candidate>, was: seq<Candidate>, answer: seq<Candidate>, out: nat)
    requires |now| == |was| && Filled(now, was, answer, out) && out < |answer|
    ensures Filled(now[out := answer[out]], was, answer, out + 1)
  {
  }

  lemma FilledIs(now: seq<Candidate>, was: seq<Candidate>, answer: seq<Candidate>)
    requires |now| == |was| && Filled(now, was, answer, |answer|)
    ensures now == answer + was[|answer|..]
  {
  }

  /** The filling pass: as many writes as were counted, each in bounds. */
  method FillSlotCandidates(owned: OwnedTopology, slot: u64, candidates: array<Candidate>, ghost s: Snapshot)
    requires owned.Valid() && owned.HasSchedule(s) && |Resolve(s, slot)| <= candidates.Length
    modifies candidates
    ensures Filled(candidates[..], old(candidates[..]), Resolve(s, slot), |Resolve(s, slot)|)
  {
    ghost var was, answer := candidates[..], Resolve(s, slot);
    var out: usize := 0;
    var i: u32 := 0;
    while i < owned.leaderCount
      invariant i <= owned.leaderCount
      invariant owned.HasSchedule(s)
      invariant out == Met(s, slot, i, 0)
      invariant Filled(candidates[..], was, answer, out)
    {
      out := FillLeader(owned, slot, candidates, s, i, out, was, answer);
      i := i + 1;
    }
  }

  /** One leader of the filling pass, skipped unless it contains the slot. */
  method FillLeader(owned: OwnedTopology, slot: u64, candidates: array<Candidate>, ghost s: Snapshot,
                    i: u32, start: usize, ghost was: seq<Candidate>, ghost answer: seq<Candidate>)
    returns (out: usize)
    requires owned.Valid() && owned.HasSchedule(s)
    requires i < owned.leaderCount && start == Met(s, slot, i, 0) && answer == Resolve(s, slot)
    requires candidates.Length == |was| && Filled(candidates[..], was, answer, start)
    modifies candidates
    ensures out == Met(s, slot, i + 1, 0) && Filled(candidates[..], was, answer, out)
  {
    out := start;
    var leader := ReadLeader(owned, i);
    ScanRow(s, slot, i);
    if ContainsSlot(leader, slot) {
      out := FillRow(owned, slot, candidates, s, i, leader, out, was, answer);
    }
  }

  /** The inner loop of the filling pass. */
  method FillRow(owned: OwnedTopology, slot: u64, candidates: array<Candidate>, ghost s: Snapshot,
                 i: u32, leader: Leader, start: usize, ghost was: seq<Candidate>, ghost answer: seq<Candidate>)
    returns (out: usize)
    requires owned.Valid() && s.associations == owned.AssociationRecords()
    requires i < |s.leaders| && leader == s.leaders[i] && ContainsSlot(leader, slot)
    requires start == Met(s, slot, i, 0) && answer == Resolve(s, slot)
    requires candidates.Length == |was| && Filled(candidates[..], was, answer, start)
    modifies candidates
    ensures out == Met(s, slot, i, |s.associations|) && Filled(candidates[..], was, answer, out)
  {
    out := start;
    var j: u32 := 0;
    while j < owned.associationCount
      invariant j <= owned.associationCount && s.associations == owned.AssociationRecords()
      invariant out == Met(s, slot, i, j)
      invariant Filled(candidates[..], was, answer, out)
    {
      var association := ReadAssociation(owned, j);
      ScanStep(s, slot, i, j);
      if association.validatorIndex == leader.validatorIndex {
        ghost var before := candidates[..];
        candidates[out] := Candidate(i, leader.validatorIndex, association.endpointIndex);
        FilledStep(before, was, answer, out);
        assert candidates[..] == before[out := answer[out]];
        out := out + 1;
      }
      j := j + 1;
    }
  }

  /** `solana_delivery_client_resolve_slot` over the client's topology fields. */
  method ResolveSlot(hasTopology: bool, owned: OwnedTopology, slot: u64, candidates: array?<Candidate>, capacity: usize,
                     ghost s: Snapshot)
    returns (status: Status, count: usize)
    requires hasTopology ==> owned.Valid() && owned.HasSchedule(s)
    requires candidates != null ==> candidates.Length >= capacity
    modifies candidates
    ensures
      if capacity != 0 && candidates == null then
        status == InvalidArgument && count == 0
      else if !hasTopology then
        status == TopologyUnavailable && count == 0
      else
        var r := Resolve(s, slot);
        && count == |r|
        && status == (if r == [] then TopologyUnavailable else if capacity < |r| then ResourceExhausted else Ok)
    ensures status == Ok ==>
      && hasTopology && candidates != null && count <= candidates.Length
      && candidates[..] == Resolve(s, slot) + old(candidates[..])[count..]
    ensures status != Ok && candidates != null ==> candidates[..] == old(candidates[..])
  {
    if capacity != 0 && candidates == null {
      return InvalidArgument, 0;
    }
    if !hasTopology {
      return TopologyUnavailable, 0;
    }
    status, count := CountSlotCandidates(owned, slot, s);
    if status != Ok {
      assert false;
    }
    if count == 0 {
      return TopologyUnavailable, 0;
    }
    if capacity < count {
      return ResourceExhausted, count;
    }
    ghost var was := candidates[..];
    FillSlotCandidates(owned, slot, candidates, s);
    FilledIs(candidates[..], was, Resolve(s, slot));
    return Ok, count;
  }
}
