/** Strided arrays in caller memory, and the byte loops that copy and normalise them. */
module Layout {
  import opened Machine
  import opened Bytes
  import opened Records
  import opened Hosting

  /** Byte offset of element `index`; OffsetIsProduct says it is index * stride. */
  function Offset(index: nat, stride: nat): nat {
    if index == 0 then 0 else Offset(index - 1, stride) + stride
  }

  lemma {:induction false} OffsetIsProduct(index: nat, stride: nat)
    ensures Offset(index, stride) == index * stride
  {
    if index > 0 {
      OffsetIsProduct(index - 1, stride);
    }
  }

  lemma {:induction false} OffsetMonotone(i: nat, j: nat, stride: nat)
    requires i < j
    ensures Offset(i, stride) + stride <= Offset(j, stride)
    decreases j
  {
    if i < j - 1 {
      OffsetMonotone(i, j - 1, stride);
    }
  }

  /** One array of a caller-supplied topology as a value: `present` is base != NULL, `bytes`
      the caller's memory from base on. */
  datatype Strided = Strided(present: bool, aligned: bool, bytes: seq<u8>, count: u32, stride: u32)

  /** The check made before any element is touched. */
  predicate LayoutIsValid(a: Strided, size: nat, alignment: nat)
    requires 0 < size <= SIZE_MAX && alignment > 0
  {
    a.count == 0 ||
    (&& a.present && a.stride >= size && a.aligned && a.stride % alignment == 0
     && a.count - 1 <= (SIZE_MAX - size) / a.stride)
  }

  /** The memory that an accepted layout lets the library read. */
  predicate Covers(length: nat, count: nat, stride: nat, size: nat) {
    count == 0 || Offset(count - 1, stride) + size <= length
  }

  /** What a caller owes: memory for every element of an array whose layout is accepted. */
  predicate Backed(a: Strided, size: nat, alignment: nat)
    requires 0 < size <= SIZE_MAX && alignment > 0
  {
    LayoutIsValid(a, size, alignment) ==> Covers(|a.bytes|, a.count, a.stride, size)
  }

  /** The division in the layout check says that the last byte of the last element, and so
      every byte the library reads, has an offset that a size_t can hold. */
  lemma LayoutBoundsEveryAccess(a: Strided, size: nat, alignment: nat, index: nat)
    requires 0 < size <= SIZE_MAX && alignment > 0
    requires index < a.count
    ensures LayoutIsValid(a, size, alignment) <==>
      && a.present && a.aligned && size <= a.stride && a.stride % alignment == 0
      && Offset(a.count - 1, a.stride) + size <= SIZE_MAX
    ensures LayoutIsValid(a, size, alignment) ==> index * a.stride + size <= SIZE_MAX
  {
    if a.stride >= size {
      OffsetIsProduct(a.count - 1, a.stride);
      DivisionBound(a.count - 1, a.stride, SIZE_MAX - size);
      OffsetIsProduct(index, a.stride);
      if index < a.count - 1 {
        OffsetMonotone(index, a.count - 1, a.stride);
      }
    }
  }

  lemma ProductBound(x: nat, y: nat, a: nat, b: nat)
    requires x <= a && y <= b
    ensures x * y <= a * b
  {
    assert x * y <= a * y;
    assert y * a <= b * a;
  }

  lemma DivisionBound(n: nat, d: nat, m: nat)
    requires d > 0
    ensures n <= m / d <==> n * d <= m
  {
    assert m == m / d * d + m % d;
    if n <= m / d {
      assert n * d <= m / d * d;
    } else {
      assert n * d >= (m / d + 1) * d;
    }
  }

  /** With 32-bit counts and strides and a 64-bit size_t the overflow test never rejects:
      a layout is valid exactly when the pointer, stride and alignment tests pass. */
  lemma OverflowTestNeverRejects(a: Strided, size: nat, alignment: nat)
    requires 0 < size <= 0x1_0000_0000 && alignment > 0
    ensures LayoutIsValid(a, size, alignment) <==>
      (a.count > 0 ==> a.present && a.stride >= size && a.aligned && a.stride % alignment == 0)
  {
    if a.count > 0 && a.stride >= size {
      DivisionBound(a.count - 1, a.stride, SIZE_MAX - size);
      ProductBound(a.count - 1, a.stride, U32_MAX - 1, U32_MAX);
    }
  }

  /** The leading `size` bytes of each of the first `count` elements. */
  function Slices(bytes: seq<u8>, count: nat, stride: nat, size: nat): (r: seq<seq<u8>>)
    ensures |r| == count
  {
    if count == 0 then []
    else Slices(bytes, count - 1, stride, size) + [Window(bytes, Offset(count - 1, stride), size)]
  }

  lemma {:induction false} SliceAt(bytes: seq<u8>, count: nat, stride: nat, size: nat, index: nat)
    requires index < count
    ensures Slices(bytes, count, stride, size)[index] == Window(bytes, Offset(index, stride), size)
  {
    if index < count - 1 {
      SliceAt(bytes, count - 1, stride, size, index);
    }
  }

  /** `f` applied to each slice: the records of an array, or their verdicts. */
  function Mapped<T>(f: seq<u8> -> T, bytes: seq<u8>, count: nat, stride: nat, size: nat): (r: seq<T>)
    ensures |r| == count
  {
    if count == 0 then []
    else Mapped(f, bytes, count - 1, stride, size) + [f(Window(bytes, Offset(count - 1, stride), size))]
  }

  lemma {:induction false} MappedAt<T>(f: seq<u8> -> T, bytes: seq<u8>, count: nat, stride: nat, size: nat, index: nat)
    requires index < count
    ensures Mapped(f, bytes, count, stride, size)[index] == f(Window(bytes, Offset(index, stride), size))
  {
    if index < count - 1 {
      MappedAt(f, bytes, count - 1, stride, size, index);
    }
  }

  /** memcpy */
  method CopyBytes(target: array<u8>, to: nat, source: array<u8>, from: nat, size: nat)
    requires target != source
    requires to + size <= target.Length && from + size <= source.Length
    modifies target
    ensures target[to..to + size] == source[from..from + size]
    ensures forall k :: 0 <= k < to || to + size <= k < target.Length ==> target[k] == old(target[k])
  {
    forall k | 0 <= k < size {
      target[to + k] := source[from + k];
    }
  }

  lemma WindowsAgree(a: seq<u8>, b: seq<u8>, at: nat, size: nat)
    requires |a| == |b|
    requires forall k :: at <= k < at + size && k < |a| ==> a[k] == b[k]
    ensures Window(a, at, size) == Window(b, at, size)
  {
    if at + size <= |a| {
      assert a[at..at + size] == b[at..at + size];
    }
  }

  /** Bytes from offset Offset(count, stride) on do not matter to the first `count` elements. */
  lemma {:induction false} SlicesAgree(a: seq<u8>, b: seq<u8>, count: nat, stride: nat, size: nat)
    requires |a| == |b| && size <= stride
    requires forall k :: 0 <= k < Offset(count, stride) && k < |a| ==> a[k] == b[k]
    ensures Slices(a, count, stride, size) == Slices(b, count, stride, size)
  {
    if count > 0 {
      SlicesAgree(a, b, count - 1, stride, size);
      WindowsAgree(a, b, Offset(count - 1, stride), size);
    }
  }

  /** A caller array by reference: the base pointer may be NULL. */
  datatype StridedArray = StridedArray(base: array?<u8>, aligned: bool, count: u32, stride: u32) {
    function View(): Strided
      reads base
    {
      Strided(base != null, aligned, if base == null then [] else base[..], count, stride)
    }
  }

  /** The elements lie inside the memory and are at least `size` bytes apart. */
  predicate Readable(a: StridedArray, size: nat) {
    a.count > 0 ==> a.base != null && size <= a.stride && Covers(a.base.Length, a.count, a.stride, size)
  }

  /** A checked layout over the memory its caller owes is readable. */
  lemma CheckedIsReadable(a: StridedArray, size: nat, alignment: nat)
    requires 0 < size <= SIZE_MAX && alignment > 0
    requires LayoutIsValid(a.View(), size, alignment) && Backed(a.View(), size, alignment)
    ensures Readable(a, size)
  {
  }

  function Contents(a: array?<u8>): seq<u8>
    reads a
  {
    if a == null then [] else a[..]
  }

  /** `array_element`: the byte offset of an element, which never wraps. */
  method ElementOffset(index: u32, stride: u32) returns (at: usize)
    ensures at == Offset(index, stride)
  {
    ProductBound(index, stride, U32_MAX, U32_MAX);
    OffsetIsProduct(index, stride);
    at := index * stride;
  }

  /** `clone_array`: an owned array that holds the known prefix of every source element, in
      order and packed. Either the one calloc it makes fails, or it succeeds. */
  method CloneArray(host: Host, source: StridedArray, size: u32) returns (status: Status, copy: array?<u8>)
    requires host.Valid() && size > 0 && Readable(source, size)
    modifies host
    ensures host.Valid() && host.samples == old(host.samples) && host.live == old(host.live) + {copy}
    ensures
      var s := Serve(host.oracle, old(host.allocations), Demand(source.count, size));
      host.allocations == s.position && status == if s.granted then Ok else ResourceExhausted
    ensures copy != null ==> fresh(copy)
    ensures status == Ok ==> Packed(copy, source.count, size) && Cloned(copy, source, size)
    ensures status != Ok ==> copy == null
  {
    var length := ElementOffset(source.count, size);
    status, copy := host.AllocateArray(Demand(source.count, size), length, 0);
    if status == Ok && source.count > 0 {
      CopyElements(copy, source.base, source.count, source.stride, size);
    }
  }

  /** An owned array: no block when empty, and otherwise one of exactly `count` records. */
  ghost predicate Packed(a: array?<u8>, count: u32, size: nat) {
    if a == null then count == 0 else count > 0 && a.Length == Offset(count, size)
  }

  ghost predicate Cloned(a: array?<u8>, source: StridedArray, size: u32)
    reads a, source.base
  {
    Slices(Contents(a), source.count, size, size)
      == Slices(Contents(source.base), source.count, source.stride, size)
  }

  /** The copying loop of `clone_array`. */
  method CopyElements(copy: array<u8>, source: array<u8>, count: u32, stride: u32, size: u32)
    requires 0 < size <= stride && copy != source
    requires Covers(source.Length, count, stride, size) && copy.Length == Offset(count, size)
    modifies copy
    ensures Slices(copy[..], count, size, size) == Slices(old(source[..]), count, stride, size)
  {
    ghost var bytes := source[..];
    var i: u32 := 0;
    while i < count
      invariant i <= count && source[..] == bytes
      invariant Slices(copy[..], i, size, size) == Slices(bytes, i, stride, size)
    {
      ElementInside(i, count, size, size, copy.Length);
      ElementInside(i, count, stride, size, source.Length);
      CopyElement(copy, source, i, stride, size);
      i := i + 1;
    }
  }

  /** One memcpy of `clone_array`: the copy gains the slice of the next source element. */
  method CopyElement(copy: array<u8>, source: array<u8>, index: u32, stride: u32, size: u32)
    requires copy != source && 0 < size <= stride
    requires Offset(index, size) + size <= copy.Length && Offset(index, stride) + size <= source.Length
    modifies copy
    ensures Slices(copy[..], index + 1, size, size)
      == Slices(old(copy[..]), index, size, size) + [Window(old(source[..]), Offset(index, stride), size)]
  {
    ghost var before := copy[..];
    var to := ElementOffset(index, size);
    var from := ElementOffset(index, stride);
    CopyBytes(copy, to, source, from, size);
    SlicesAgree(before, copy[..], index, size, size);
  }

  /** Element `index` of a covered array lies inside the array. */
  lemma ElementInside(index: nat, count: nat, stride: nat, size: nat, length: nat)
    requires index < count && size <= stride && Covers(length, count, stride, size)
    ensures Offset(index, stride) + size <= length
  {
    if index < count - 1 {
      OffsetMonotone(index, count - 1, stride);
    }
  }

  /** The first `count` slices, each with its leading size field overwritten. */
  function Resized(slices: seq<seq<u8>>, count: nat, size: u32): (r: seq<seq<u8>>)
    requires count <= |slices|
    ensures |r| == count
  {
    if count == 0 then [] else Resized(slices, count - 1, size) + [WithSize(slices[count - 1], size)]
  }

  lemma {:induction false} ResizedAt(slices: seq<seq<u8>>, count: nat, size: u32, index: nat)
    requires index < count <= |slices|
    ensures Resized(slices, count, size)[index] == WithSize(slices[index], size)
  {
    if index < count - 1 {
      ResizedAt(slices, count - 1, size, index);
    }
  }

  /** One loop of `normalize_owned_struct_sizes`. */
  method NormalizeSizes(a: array?<u8>, count: u32, size: u32)
    requires size >= 4 && |Contents(a)| == Offset(count, size)
    modifies a
    ensures Slices(Contents(a), count, size, size) == Resized(old(Slices(Contents(a), count, size, size)), count, size)
  {
    if count == 0 {
      return;
    }
    OffsetMonotone(0, count, size);
    NormalizeElements(a, count, size);
  }

  method NormalizeElements(a: array<u8>, count: u32, size: u32)
    requires size >= 4 && a.Length == Offset(count, size)
    modifies a
    ensures Slices(a[..], count, size, size) == Resized(Slices(old(a[..]), count, size, size), count, size)
  {
    ghost var was := Slices(a[..], count, size, size);
    forall j | 0 <= j < count ensures ElementIs(a[..], j, size, was[j]) {
      SliceAt(a[..], count, size, size, j);
    }
    var i: u32 := 0;
    while i < count
      invariant i <= count
      invariant forall j :: i <= j < count ==> ElementIs(a[..], j, size, was[j])
      invariant Slices(a[..], i, size, size) == Resized(was, i, size)
    {
      assert ElementIs(a[..], i, size, was[i]);
      NormalizeElement(a, i, count, size, was);
      i := i + 1;
    }
  }

  predicate ElementIs(bytes: seq<u8>, index: nat, size: nat, slice: seq<u8>) {
    Window(bytes, Offset(index, size), size) == slice
  }

  /** Sets the struct_size of one owned element. */
  method NormalizeElement(a: array<u8>, index: u32, count: u32, size: u32, ghost was: seq<seq<u8>>)
    requires size >= 4 && index < count == |was| && a.Length == Offset(count, size)
    requires forall j :: index <= j < count ==> ElementIs(a[..], j, size, was[j])
    modifies a
    ensures forall j :: index < j < count ==> ElementIs(a[..], j, size, was[j])
    ensures Slices(a[..], index + 1, size, size)
      == Slices(old(a[..]), index, size, size) + [WithSize(was[index], size)]
  {
    ghost var before := a[..];
    assert ElementIs(before, index, size, was[index]);
    OffsetMonotone(index, count, size);
    var at := ElementOffset(index, size);
    WriteSize(a, at, size);
    SlicesAgree(before, a[..], index, size, size);
    RewrittenElement(before, a[..], at, size);
    forall j | index < j < count ensures ElementIs(a[..], j, size, was[j]) {
      assert ElementIs(before, j, size, was[j]);
      OffsetMonotone(index, j, size);
      WindowsAgree(before, a[..], Offset(j, size), size);
    }
  }

  lemma RewrittenElement(before: seq<u8>, after: seq<u8>, at: nat, size: u32)
    requires |before| == |after| && 4 <= size && at + size <= |after|
    requires after[at..at + 4] == Le(size, 4)
    requires forall k :: at + 4 <= k < |after| ==> after[k] == before[k]
    ensures Window(after, at, size) == WithSize(Window(before, at, size), size)
  {
    assert after[at..at + size] == after[at..at + 4] + after[at + 4..at + size];
  }

  /** Stores `size` in the four bytes of a struct_size field. */
  method WriteSize(a: array<u8>, at: nat, size: u32)
    requires at + 4 <= a.Length
    modifies a
    ensures a[at..at + 4] == Le(size, 4)
    ensures forall k :: 0 <= k < at || at + 4 <= k < a.Length ==> a[k] == old(a[k])
  {
    var field := Le(size, 4);
    forall k | 0 <= k < 4 {
      a[at + k] := field[k];
    }
  }
}
