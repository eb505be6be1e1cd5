/** Fixed-width integers, status codes and the two foreign calls of the delivery client.

    Every unsigned C type is a subset type of `int`, so assigning a value to a variable of
    such a type obliges the verifier to prove that the C computation does not wrap. */
module Machine {
  const SIZE_MAX: nat := 0xFFFF_FFFF_FFFF_FFFF
  const U32_MAX: nat := 0xFFFF_FFFF
  const U64_MAX: nat := 0xFFFF_FFFF_FFFF_FFFF

  type u8 = x: int | 0 <= x < 0x100
  type u16 = x: int | 0 <= x < 0x1_0000
  type u32 = x: int | 0 <= x <= U32_MAX
  type u64 = x: int | 0 <= x <= U64_MAX
  type usize = x: int | 0 <= x <= SIZE_MAX
  /** A record array: its count field has 32 bits. */
  type Table<T> = s: seq<T> | |s| <= U32_MAX

  type i32 = x: int | -0x8000_0000 <= x < 0x8000_0000

  datatype Option<+T> = None | Some(value: T)

  /** `Foreign` stands for a code outside the public list, which only a callback can produce. */
  datatype Status =
    | Ok
    | InvalidArgument
    | Unsupported
    | ResourceExhausted
    | TopologyUnavailable
    | TopologyStale
    | InternalError
    | Foreign(code: u32)

  /** One answer of the monotonic clock callback; `time` matters only when `status` is Ok. */
  datatype Reading = Reading(status: Status, time: u64)

  /** What the environment will answer: the outcome of the n-th calloc and of the n-th clock
      sample. Theorems quantify over every oracle, so over every pattern of failures. */
  datatype Oracle = Oracle(grants: nat -> bool, clock: nat -> Reading)

  /** A request for `count * size` bytes, as `allocate_array` and `clone_array` state it. */
  datatype Demand = Demand(count: nat, size: nat)

  predicate Overflows(d: Demand)
    requires d.size > 0
  {
    d.count > SIZE_MAX / d.size
  }

  datatype Supply = Supply(granted: bool, position: nat)

  /** One allocation: an empty demand succeeds without a call, an overflowing one fails
      without a call, and any other asks the oracle. */
  function Serve(oracle: Oracle, position: nat, d: Demand): Supply
    requires d.size > 0
  {
    if d.count == 0 then Supply(true, position)
    else if Overflows(d) then Supply(false, position)
    else Supply(oracle.grants(position), position + 1)
  }

  /** The allocation after `s`: none once a refusal has happened. */
  function Then(oracle: Oracle, s: Supply, d: Demand): Supply
    requires d.size > 0
  {
    if s.granted then Serve(oracle, s.position, d) else s
  }
}
