/** The allocator and the monotonic clock a client is created with. */
module Hosting {
  import opened Machine

  twostate predicate FreshOrNull(new p: object?) {
    p == null || fresh(p)
  }

  /** Different blocks, unless one is NULL. */
  ghost predicate Differ(p: object?, q: object?) {
    p == null || p != q
  }

  /** The one block a pointer denotes, or none. */
  ghost function Only(p: object?): (s: set<object?>)
    ensures |s| == if p == null then 0 else 1
  {
    if p == null then {} else {p}
  }

  lemma DisjointSize(a: set<object?>, b: set<object?>)
    requires a !! b
    ensures |a + b| == |a| + |b|
  {
  }

  /** Answers allocations and clock samples from its oracle, in order, and tracks which blocks
      are live. Only a live block may be freed, so a caller that verifies frees nothing twice.
      NULL counts as live for good: free accepts it any number of times. */
  class Host {
    const oracle: Oracle
    var allocations: nat
    var samples: nat
    ghost var live: set<object?>

    ghost predicate Valid()
      reads this
    {
      null in live
    }

    constructor (oracle: Oracle)
      ensures this.oracle == oracle
      ensures Valid() && allocations == 0 && samples == 0 && live == {null}
    {
      this.oracle := oracle;
      allocations, samples := 0, 0;
      live := {null};
    }

    /** The outcome of the next calloc; the caller adopts the block it then creates. */
    method Grant() returns (granted: bool)
      modifies this
      ensures granted == oracle.grants(old(allocations))
      ensures allocations == old(allocations) + 1 && samples == old(samples) && live == old(live)
    {
      granted := oracle.grants(allocations);
      allocations := allocations + 1;
    }

    ghost method Adopt(block: object)
      modifies this`live
      ensures live == old(live) + {block}
    {
      live := live + {block};
    }

    /** free: a no-op on NULL, and otherwise only for a live block. The block is in the frame and
        no postcondition mentions its fields: a caller knows nothing about them any more. */
    method Free(p: object?)
      requires Valid() && p in live
      modifies this, p
      ensures Valid() && live == old(live) - {p} + {null}
      ensures allocations == old(allocations) && samples == old(samples)
    {
      live := live - {p} + {null};
    }

    method ReadClock() returns (status: Status, time: u64)
      modifies this
      ensures Reading(status, time) == oracle.clock(old(samples))
      ensures samples == old(samples) + 1 && allocations == old(allocations) && live == old(live)
    {
      var reading := oracle.clock(samples);
      samples := samples + 1;
      status, time := reading.status, reading.time;
    }

    /** `allocate_array`: refuses a byte count that would overflow before asking the allocator.
        `length` is the block's length in elements of T, and `zero` what a zeroed T is. */
    method AllocateArray<T>(demand: Demand, length: nat, zero: T) returns (status: Status, p: array?<T>)
      requires Valid() && demand.size > 0
      modifies this
      ensures Valid() && samples == old(samples) && live == old(live) + {p}
      ensures
        var s := Serve(oracle, old(allocations), demand);
        && allocations == s.position
        && status == (if s.granted then Ok else ResourceExhausted)
        && (p != null <==> s.granted && demand.count > 0)
      ensures p != null ==> fresh(p) && p.Length == length
      ensures p != null ==> forall i :: 0 <= i < length ==> p[i] == zero
    {
      p := null;
      if demand.count == 0 {
        return Ok, null;
      }
      if Overflows(demand) {
        return ResourceExhausted, null;
      }
      var granted := Grant();
      if !granted {
        return ResourceExhausted, null;
      }
      p := new T[length](_ => zero);
      Adopt(p);
      return Ok, p;
    }
  }
}
