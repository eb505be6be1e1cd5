/** Route planning: first-occurrence deduplication and a bounded prefix. */
module Routing {
  import opened Machine
  import opened Resolution

  /** A route target has the fields of the candidate it was chosen from. */
  type RouteTarget = Candidate

  const ROUTE_SIZE: nat := 12

  /** The identity that suppresses duplicates; the leader index is not part of it. */
  datatype Target = Target(validator: u32, endpoint: u32)

  function TargetOf(c: Candidate): Target {
    Target(c.validatorIndex, c.endpointIndex)
  }

  function Targets(cs: seq<Candidate>): set<Target> {
    set c | c in cs :: TargetOf(c)
  }

  /** The candidates whose target occurs nowhere before them, in order. */
  function FirstOccurrences(cs: seq<Candidate>): (r: seq<Candidate>)
    ensures |r| <= |cs|
  {
    if cs == [] then []
    else
      var n := |cs| - 1;
      FirstOccurrences(cs[..n]) + if IsFirst(cs, n) then [cs[n]] else []
  }

  predicate IsFirst(cs: seq<Candidate>, index: nat)
    requires index < |cs|
  {
    forall p :: 0 <= p < index ==> TargetOf(cs[p]) != TargetOf(cs[index])
  }

  function Min(a: nat, b: nat): nat {
    if a < b then a else b
  }

  /** What planning means. */
  function Plan(cs: seq<Candidate>, limit: nat): seq<RouteTarget> {
    var unique := FirstOccurrences(cs);
    unique[..Min(|unique|, limit)]
  }

  // ---------- what a plan is ----------

  ghost predicate DistinctTargets(cs: seq<Candidate>) {
    forall i, j :: 0 <= i < j < |cs| ==> TargetOf(cs[i]) != TargetOf(cs[j])
  }

  /** Deduplication keeps every target, each exactly once. */
  lemma {:induction false} FirstOccurrencesCover(cs: seq<Candidate>)
    ensures Targets(FirstOccurrences(cs)) == Targets(cs)
    ensures DistinctTargets(FirstOccurrences(cs))
  {
    if cs != [] {
      var n := |cs| - 1;
      var shorter := FirstOccurrences(cs[..n]);
      FirstOccurrencesCover(cs[..n]);
      assert cs == cs[..n] + [cs[n]];
      assert Targets(cs) == Targets(cs[..n]) + {TargetOf(cs[n])};
      if IsFirst(cs, n) {
        assert TargetOf(cs[n]) !in Targets(cs[..n]);
        forall i | 0 <= i < n && i < |shorter| ensures TargetOf(shorter[i]) != TargetOf(cs[n]) {
          assert shorter[i] in shorter;
          assert TargetOf(shorter[i]) in Targets(shorter);
        }
        assert Targets(shorter + [cs[n]]) == Targets(shorter) + {TargetOf(cs[n])};
      } else {
        var p :| 0 <= p < n && TargetOf(cs[p]) == TargetOf(cs[n]);
        assert cs[p] == cs[..n][p] && cs[..n][p] in cs[..n];
      }
    }
  }

  lemma {:induction false} DistinctCount(cs: seq<Candidate>)
    requires DistinctTargets(cs)
    ensures |Targets(cs)| == |cs|
  {
    if cs != [] {
      var n := |cs| - 1;
      DistinctCount(cs[..n]);
      assert cs == cs[..n] + [cs[n]];
      assert Targets(cs) == Targets(cs[..n]) + {TargetOf(cs[n])};
      assert TargetOf(cs[n]) !in Targets(cs[..n]);
    } else {
      assert Targets(cs) == {};
    }
  }

  /** The unique count is the number of different (validator, endpoint) pairs. */
  lemma UniqueCountIsCardinality(cs: seq<Candidate>)
    ensures |FirstOccurrences(cs)| == |Targets(cs)|
    ensures Targets(cs) == set c | c in cs :: Target(c.validatorIndex, c.endpointIndex)
    ensures cs != [] ==> |FirstOccurrences(cs)| >= 1
  {
    FirstOccurrencesCover(cs);
    DistinctCount(FirstOccurrences(cs));
    if cs != [] {
      assert TargetOf(cs[0]) in Targets(cs);
    }
  }

  /** Where in `cs` each kept candidate stands: increasing positions of first occurrences. */
  function Positions(cs: seq<Candidate>): (r: seq<nat>)
    ensures |r| == |FirstOccurrences(cs)|
  {
    if cs == [] then []
    else
      var n := |cs| - 1;
      Positions(cs[..n]) + if IsFirst(cs, n) then [n] else []
  }

  lemma {:induction false} PositionsAscend(cs: seq<Candidate>)
    ensures forall i :: 0 <= i < |Positions(cs)| ==> Positions(cs)[i] < |cs|
    ensures forall i, j :: 0 <= i < j < |Positions(cs)| ==> Positions(cs)[i] < Positions(cs)[j]
  {
    hide IsFirst;
    if cs != [] {
      PositionsAscend(cs[..|cs| - 1]);
    }
  }

  lemma {:induction false} PositionsSelect(cs: seq<Candidate>, i: nat)
    requires i < |Positions(cs)|
    ensures Positions(cs)[i] < |cs| && FirstOccurrences(cs)[i] == cs[Positions(cs)[i]]
  {
    hide IsFirst;
    var n := |cs| - 1;
    if i < |Positions(cs[..n])| {
      PositionsSelect(cs[..n], i);
    }
  }

  lemma {:induction false} PositionsAreFirsts(cs: seq<Candidate>, p: nat)
    requires p < |cs|
    ensures IsFirst(cs, p) <==> p in Positions(cs)
  {
    var n := |cs| - 1;
    if p < n {
      PositionsAreFirsts(cs[..n], p);
      assert IsFirst(cs, p) <==> IsFirst(cs[..n], p);
    } else {
      PositionsAscend(cs[..n]);
    }
    hide IsFirst;
  }

  /** A target is its validator and its endpoint; the leader does not matter. */
  lemma FirstMeans(cs: seq<Candidate>)
    ensures forall p :: 0 <= p < |cs| ==> (IsFirst(cs, p) <==>
      forall q :: 0 <= q < p ==>
        cs[q].validatorIndex != cs[p].validatorIndex || cs[q].endpointIndex != cs[p].endpointIndex)
  {
  }

  /** Order and leader provenance: the kept candidates are those at the first occurrences, in
      the resolver's order, unchanged. */
  lemma {:induction false} PositionsAre(cs: seq<Candidate>)
    ensures forall i, j :: 0 <= i < j < |Positions(cs)| ==> Positions(cs)[i] < Positions(cs)[j]
    ensures forall i :: 0 <= i < |Positions(cs)| ==>
      Positions(cs)[i] < |cs| && FirstOccurrences(cs)[i] == cs[Positions(cs)[i]]
    ensures forall p :: 0 <= p < |cs| ==> (IsFirst(cs, p) <==> p in Positions(cs))
    ensures forall p :: 0 <= p < |cs| ==> (p in Positions(cs) <==>
      forall q :: 0 <= q < p ==>
        cs[q].validatorIndex != cs[p].validatorIndex || cs[q].endpointIndex != cs[p].endpointIndex)
  {
    FirstMeans(cs);
    hide IsFirst, FirstOccurrences, Positions;
    PositionsAscend(cs);
    forall i | 0 <= i < |Positions(cs)|
      ensures Positions(cs)[i] < |cs| && FirstOccurrences(cs)[i] == cs[Positions(cs)[i]]
    {
      PositionsSelect(cs, i);
    }
    forall p | 0 <= p < |cs| ensures IsFirst(cs, p) <==> p in Positions(cs) {
      PositionsAreFirsts(cs, p);
    }
  }

  /** A larger limit only extends the plan. */
  lemma PlanIsMonotone(cs: seq<Candidate>, limit: nat, larger: nat)
    requires limit <= larger
    ensures Plan(cs, limit) <= Plan(cs, larger)
  {
  }

  lemma {:induction false} DistinctUnchanged(cs: seq<Candidate>)
    requires DistinctTargets(cs)
    ensures FirstOccurrences(cs) == cs
  {
    if cs != [] {
      var n := |cs| - 1;
      DistinctUnchanged(cs[..n]);
      assert cs == cs[..n] + [cs[n]];
    }
  }

  /** Planning a plan again, with the same or a larger limit, changes nothing. */
  lemma PlanIsIdempotent(cs: seq<Candidate>, limit: nat, larger: nat)
    requires limit <= larger
    ensures Plan(Plan(cs, limit), larger) == Plan(cs, limit)
  {
    FirstOccurrencesCover(cs);
    DistinctUnchanged(Plan(cs, limit));
  }

  lemma DistinctPrefix(cs: seq<Candidate>, n: nat)
    requires DistinctTargets(cs) && n <= |cs|
    ensures DistinctTargets(cs[..n])
  {
  }

  lemma DistinctMeans(cs: seq<Candidate>)
    requires DistinctTargets(cs)
    ensures forall i, j :: 0 <= i < j < |cs| ==>
      cs[i].validatorIndex != cs[j].validatorIndex || cs[i].endpointIndex != cs[j].endpointIndex
  {
    forall i, j | 0 <= i < j < |cs|
      ensures cs[i].validatorIndex != cs[j].validatorIndex || cs[i].endpointIndex != cs[j].endpointIndex
    {
      assert TargetOf(cs[i]) != TargetOf(cs[j]);
    }
  }

  lemma KeptAreCandidates(cs: seq<Candidate>)
    ensures forall c :: c in FirstOccurrences(cs) ==> c in cs
  {
    hide FirstOccurrences, Positions, IsFirst;
    PositionsAre(cs);
    var unique := FirstOccurrences(cs);
    forall i | 0 <= i < |unique| ensures unique[i] in cs {
      assert unique[i] == cs[Positions(cs)[i]];
    }
  }

  /** A plan has pairwise different targets, at most `limit`, and all of them when they fit. */
  lemma PlanIsBounded(cs: seq<Candidate>, limit: nat)
    ensures forall i, j :: 0 <= i < j < |Plan(cs, limit)| ==>
      var a, b := Plan(cs, limit)[i], Plan(cs, limit)[j];
      a.validatorIndex != b.validatorIndex || a.endpointIndex != b.endpointIndex
    ensures DistinctTargets(Plan(cs, limit)) && Plan(cs, limit) <= FirstOccurrences(cs)
    ensures |Plan(cs, limit)| == if |Targets(cs)| < limit then |Targets(cs)| else limit
    ensures |Targets(cs)| <= limit ==> Targets(Plan(cs, limit)) == Targets(cs)
    ensures forall c :: c in Plan(cs, limit) ==> c in cs
  {
    hide FirstOccurrences, DistinctTargets, Targets;
    UniqueCountIsCardinality(cs);
    FirstOccurrencesCover(cs);
    var unique := FirstOccurrences(cs);
    var n := if |unique| < limit then |unique| else limit;
    assert unique[..|unique|] == unique;
    assert Plan(cs, limit) == unique[..n];
    DistinctPrefix(unique, n);
    DistinctMeans(unique[..n]);
    KeptAreCandidates(cs);
  }

  // ---------- the planner ----------

  /** `candidate_is_first_occurrence` */
  method CandidateIsFirstOccurrence(candidates: array<Candidate>, index: usize) returns (first: bool)
    requires index < candidates.Length
    ensures first == IsFirst(candidates[..], index)
    ensures first <==> forall p :: 0 <= p < index ==>
      candidates[p].validatorIndex != candidates[index].validatorIndex
      || candidates[p].endpointIndex != candidates[index].endpointIndex
  {
    var prior: usize := 0;
    while prior < index
      invariant prior <= index
      invariant forall p :: 0 <= p < prior ==> TargetOf(candidates[..][p]) != TargetOf(candidates[..][index])
    {
      assert candidates[..][prior] == candidates[prior] && candidates[..][index] == candidates[index];
      if TargetOf(candidates[prior]) == TargetOf(candidates[index]) {
        return false;
      }
      prior := prior + 1;
    }
    return true;
  }

  /** The first `n` candidates keep their own first occurrences. */
  lemma FirstOccurrencesStep(cs: seq<Candidate>, n: nat)
    requires n < |cs|
    ensures FirstOccurrences(cs[..n + 1]) ==
      FirstOccurrences(cs[..n]) + if IsFirst(cs, n) then [cs[n]] else []
  {
    assert cs[..n + 1][..n] == cs[..n];
    assert IsFirst(cs, n) <==> IsFirst(cs[..n + 1], n);
  }

  lemma {:induction false} FirstOccurrencesGrow(cs: seq<Candidate>, n: nat)
    requires n <= |cs|
    ensures FirstOccurrences(cs[..n]) <= FirstOccurrences(cs)
    decreases |cs| - n
  {
    if n < |cs| {
      FirstOccurrencesStep(cs, n);
      FirstOccurrencesGrow(cs, n + 1);
    } else {
      assert cs[..n] == cs;
    }
  }

  /** Later candidates do not matter to a first occurrence. */
  lemma FirstInPrefix(cs: seq<Candidate>, count: nat, index: nat)
    requires index < count <= |cs|
    ensures IsFirst(cs[..count], index) <==> IsFirst(cs, index)
  {
    assert forall p :: 0 <= p < count ==> cs[..count][p] == cs[p];
  }

  /** `count_unique_targets` */
  method CountUniqueTargets(candidates: array<Candidate>, count: usize) returns (unique: usize)
    requires count <= candidates.Length
    ensures unique == |FirstOccurrences(candidates[..count])|
  {
    ghost var cs := candidates[..count];
    unique := 0;
    var index: usize := 0;
    while index < count
      invariant index <= count && unique == |FirstOccurrences(cs[..index])|
    {
      FirstOccurrencesStep(cs, index);
      FirstInPrefix(candidates[..], count, index);
      var first := CandidateIsFirstOccurrence(candidates, index);
      if first {
        unique := unique + 1;
      }
      index := index + 1;
    }
    assert cs[..count] == cs;
  }

  /** One step of the filling loop: a first occurrence is the next element of the answer. */
  lemma RouteStep(cs: seq<Candidate>, n: nat)
    requires n < |cs|
    ensures
      var met := |FirstOccurrences(cs[..n])|;
      if IsFirst(cs, n) then
        && |FirstOccurrences(cs[..n + 1])| == met + 1
        && met < |FirstOccurrences(cs)| && FirstOccurrences(cs)[met] == cs[n]
      else
        |FirstOccurrences(cs[..n + 1])| == met
  {
    FirstOccurrencesStep(cs, n);
    FirstOccurrencesGrow(cs, n + 1);
  }

  /** The filling loop: it stops only when the selected number of targets is written. */
  method FillRoutes(candidates: array<Candidate>, count: usize, targets: array<RouteTarget>, selected: usize)
    requires count <= candidates.Length && candidates != targets
    requires selected <= |FirstOccurrences(candidates[..count])| && selected <= targets.Length
    modifies targets
    ensures targets[..] == FirstOccurrences(candidates[..count])[..selected] + old(targets[..])[selected..]
  {
    hide FirstOccurrences, IsFirst;
    ghost var cs, was := candidates[..count], targets[..];
    ghost var answer := FirstOccurrences(cs)[..selected];
    var out: usize := 0;
    var index: usize := 0;
    while index < count && out < selected
      invariant index <= count && cs == candidates[..count]
      invariant out == |FirstOccurrences(cs[..index])|
      invariant Filled(targets[..], was, answer, out)
    {
      RouteStep(cs, index);
      FirstInPrefix(candidates[..], count, index);
      var first := CandidateIsFirstOccurrence(candidates, index);
      if first {
        WriteRoute(candidates, index, targets, out, was, answer);
        out := out + 1;
      }
      index := index + 1;
    }
    assert index == count ==> cs[..index] == cs;
    FilledIs(targets[..], was, answer);
  }

  method WriteRoute(candidates: array<Candidate>, index: usize, targets: array<RouteTarget>, out: usize,
                    ghost was: seq<Candidate>, ghost answer: seq<Candidate>)
    requires index < candidates.Length && candidates != targets && targets.Length == |was|
    requires Filled(targets[..], was, answer, out) && out < |answer| && answer[out] == candidates[index]
    modifies targets
    ensures Filled(targets[..], was, answer, out + 1)
  {
    ghost var before := targets[..];
    targets[out] := candidates[index];
    FilledStep(before, was, answer, out);
    assert targets[..] == before[out := answer[out]];
  }

  /** `solana_delivery_plan_routes` on the first `count` candidates. */
  method PlanRoutes(candidates: array?<Candidate>, count: usize, limit: usize, targets: array?<RouteTarget>, capacity: usize)
    returns (status: Status, selected: usize, unique: usize)
    requires candidates != null ==> count <= candidates.Length
    requires targets != null ==> targets.Length >= capacity && targets != candidates
    modifies targets
    ensures
      if limit == 0 || (count != 0 && candidates == null) || (capacity != 0 && targets == null) then
        status == InvalidArgument && selected == 0 && unique == 0
      else if count == 0 then
        status == TopologyUnavailable && selected == 0 && unique == 0
      else
        && unique == |FirstOccurrences(candidates[..count])| && selected == |Plan(candidates[..count], limit)|
        && selected >= 1
        && status == if capacity < selected then ResourceExhausted else Ok
    ensures status == Ok ==>
      candidates != null && targets != null && selected <= targets.Length
      && targets[..] == Plan(candidates[..count], limit) + old(targets[..])[selected..]
    ensures status != Ok && targets != null ==> targets[..] == old(targets[..])
  {
    if limit == 0 || (count != 0 && candidates == null) || (capacity != 0 && targets == null) {
      return InvalidArgument, 0, 0;
    }
    if count == 0 {
      return TopologyUnavailable, 0, 0;
    }
    unique := CountUniqueTargets(candidates, count);
    UniqueCountIsCardinality(candidates[..count]);
    selected := if unique < limit then unique else limit;
    if capacity < selected {
      return ResourceExhausted, selected, unique;
    }
    FillRoutes(candidates, count, targets, selected);
    return Ok, selected, unique;
  }
}
