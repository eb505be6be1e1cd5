/** Little-endian integers inside byte sequences. */
module Bytes {
  import opened Machine

  function Pow256(n: nat): nat {
    if n == 0 then 1 else 256 * Pow256(n - 1)
  }

  /** The value of a little-endian byte string. */
  function Value(b: seq<u8>): (v: nat)
    ensures v < Pow256(|b|)
  {
    if b == [] then 0 else b[0] + 256 * Value(b[1..])
  }

  /** The low `width` bytes of `n`, least significant first. */
  function Le(n: nat, width: nat): (b: seq<u8>)
    ensures |b| == width
  {
    if width == 0 then [] else [n % 256] + Le(n / 256, width - 1)
  }

  lemma {:induction false} LeValue(n: nat, width: nat)
    requires n < Pow256(width)
    ensures Value(Le(n, width)) == n
  {
    if width > 0 {
      LeValue(n / 256, width - 1);
      assert Le(n, width)[1..] == Le(n / 256, width - 1);
    }
  }

  function U16At(b: seq<u8>, at: nat): u16
    requires at + 2 <= |b|
  {
    assert Pow256(2) == 0x1_0000;
    Value(b[at..at + 2])
  }

  function U32At(b: seq<u8>, at: nat): u32
    requires at + 4 <= |b|
  {
    assert Pow256(4) == 0x1_0000_0000;
    Value(b[at..at + 4])
  }

  function U64At(b: seq<u8>, at: nat): u64
    requires at + 8 <= |b|
  {
    assert Pow256(8) == 0x1_0000_0000_0000_0000;
    Value(b[at..at + 8])
  }

  /** Least significant byte first, spelled out for the three widths in use. */
  lemma U16Is(b: seq<u8>, at: nat)
    requires at + 2 <= |b|
    ensures U16At(b, at) == b[at] as int + 0x100 * b[at + 1] as int
  {
    var c := b[at..at + 2];
    var d := c[1..];
    assert d[1..] == [];
    assert Value(d) == c[1] as int;
  }

  lemma ValueOfFour(c: seq<u8>)
    requires |c| == 4
    ensures Value(c) == c[0] as int + 0x100 * c[1] as int + 0x1_0000 * c[2] as int + 0x100_0000 * c[3] as int
  {
    var d := c[1..];
    var e := d[1..];
    assert e[1..][1..] == [];
    assert Value(e) == c[2] as int + 0x100 * c[3] as int;
    assert Value(d) == c[1] + 0x100 * Value(e);
  }

  lemma U32Is(b: seq<u8>, at: nat)
    requires at + 4 <= |b|
    ensures U32At(b, at) ==
      b[at] as int + 0x100 * b[at + 1] as int + 0x1_0000 * b[at + 2] as int + 0x100_0000 * b[at + 3] as int
  {
    ValueOfFour(b[at..at + 4]);
  }

  lemma Rescale(p: nat, v: nat)
    ensures 256 * (p * v) == 256 * p * v
  {
  }

  lemma {:induction false} ValueJoins(a: seq<u8>, b: seq<u8>)
    ensures Value(a + b) == Value(a) + Pow256(|a|) * Value(b)
  {
    if a == [] {
      assert a + b == b;
    } else {
      ValueJoins(a[1..], b);
      assert (a + b)[1..] == a[1..] + b;
      Rescale(Pow256(|a| - 1), Value(b));
    }
  }

  lemma U64Is(b: seq<u8>, at: nat)
    requires at + 8 <= |b|
    ensures U64At(b, at) == U32At(b, at) + 0x1_0000_0000 * U32At(b, at + 4)
  {
    assert Pow256(4) == 0x1_0000_0000;
    hide Value;
    ValueJoins(b[at..at + 4], b[at + 4..at + 8]);
    assert b[at..at + 4] + b[at + 4..at + 8] == b[at..at + 8];
  }

  lemma LeU32(n: u32)
    ensures Value(Le(n, 4)) == n
  {
    assert Pow256(4) == 0x1_0000_0000;
    LeValue(n, 4);
  }

  lemma LeU64(n: u64)
    ensures Value(Le(n, 8)) == n
  {
    assert Pow256(8) == 0x1_0000_0000_0000_0000;
    LeValue(n, 8);
  }

  /** The `size` bytes from offset `at`. Every method proves that it reads inside the memory;
      making the value total (zeros elsewhere) only spares the specifications a side condition. */
  function Window(bytes: seq<u8>, at: nat, size: nat): (w: seq<u8>)
    ensures |w| == size
  {
    if at + size <= |bytes| then bytes[at..at + size] else Le(0, size)
  }

  lemma WholeWindow(b: seq<u8>)
    ensures Window(b, 0, |b|) == b
  {
    assert b[0..|b|] == b;
  }
}
