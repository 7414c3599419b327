/** Fixed-width integers on the wire. */
module Bytes {
  import opened Basics

  function Pow256(n: nat): nat {
    if n == 0 then 1 else 256 * Pow256(n - 1)
  }

  /** `to_le_bytes` */
  function LeBytes(v: nat, n: nat): (b: seq<byte>)
    ensures |b| == n
  {
    if n == 0 then [] else [v % 256] + LeBytes(v / 256, n - 1)
  }

  /** `from_le_bytes` */
  function LeValue(b: seq<byte>): nat {
    if b == [] then 0 else b[0] + 256 * LeValue(b[1..])
  }

  /** `to_be_bytes` */
  function BeBytes(v: nat, n: nat): (b: seq<byte>)
    ensures |b| == n
  {
    if n == 0 then [] else BeBytes(v / 256, n - 1) + [v % 256]
  }

  /** `from_be_bytes` */
  function BeValue(b: seq<byte>): nat {
    if b == [] then 0 else 256 * BeValue(b[..|b| - 1]) + b[|b| - 1]
  }

  lemma {:induction false} LeRoundTrip(v: nat, n: nat)
    requires v < Pow256(n)
    ensures LeValue(LeBytes(v, n)) == v
  {
    if n > 0 {
      LeRoundTrip(v / 256, n - 1);
      assert LeBytes(v, n)[1..] == LeBytes(v / 256, n - 1);
    }
  }

  lemma {:induction false} BeRoundTrip(v: nat, n: nat)
    requires v < Pow256(n)
    ensures BeValue(BeBytes(v, n)) == v
  {
    if n > 0 {
      BeRoundTrip(v / 256, n - 1);
      assert BeBytes(v, n)[..n - 1] == BeBytes(v / 256, n - 1);
    }
  }

  lemma {:induction false} BeValueRoundTrip(b: seq<byte>)
    ensures BeValue(b) < Pow256(|b|)
    ensures BeBytes(BeValue(b), |b|) == b
  {
    if b != [] {
      BeValueRoundTrip(b[..|b| - 1]);
    }
  }

  lemma {:induction false} LeValueRoundTrip(b: seq<byte>)
    ensures LeBytes(LeValue(b), |b|) == b
  {
    if b != [] {
      LeValueRoundTrip(b[1..]);
    }
  }

  /** Four bytes, the high one first. */
  lemma {:induction false} BeValueOfFour(b: seq<byte>)
    requires |b| == 4
    ensures BeValue(b) == 0x100_0000 * b[0] as nat + 0x1_0000 * b[1] as nat + 0x100 * b[2] as nat + b[3] as nat
  {
    BeUpTo(b, 1);
    BeUpTo(b, 2);
    BeUpTo(b, 3);
    BeUpTo(b, 4);
    assert b[..4] == b;
  }

  lemma {:induction false} BeUpTo(b: seq<byte>, k: nat)
    requires 0 < k <= |b|
    ensures BeValue(b[..k]) == 256 * BeValue(b[..k - 1]) + b[k - 1]
    ensures BeValue(b[..0]) == 0
  {
    assert b[..k][..k - 1] == b[..k - 1];
  }

  lemma {:induction false} LeValueBound(b: seq<byte>)
    ensures LeValue(b) < Pow256(|b|)
  {
    if b != [] {
      LeValueBound(b[1..]);
    }
  }

  // ----- byte by byte -----

  lemma {:induction false} BeTwo(v: nat)
    requires v <= U16_MAX
    ensures BeBytes(v, 2) == [v / 0x100, v % 0x100]
  {
    assert BeBytes(v / 0x100, 1) == [v / 0x100];
  }

  lemma {:induction false} BeFour(v: nat)
    requires v <= U32_MAX
    ensures BeBytes(v, 4) == [v / 0x100_0000, v / 0x1_0000 % 0x100, v / 0x100 % 0x100, v % 0x100]
  {
    var high := v / 0x1_0000;
    BeTwo(high);
    assert v / 0x100 / 0x100 == high;
    assert BeBytes(v / 0x100, 3) == BeBytes(high, 2) + [v / 0x100 % 0x100];
  }

  /** Eight bytes, the low one first. */
  lemma {:induction false} LeEight(b: seq<byte>)
    requires |b| == 8
    ensures LeValue(b) == b[0] as nat + 0x100 * b[1] as nat + 0x1_0000 * b[2] as nat + 0x100_0000 * b[3] as nat
                        + 0x1_0000_0000 * b[4] as nat + 0x100_0000_0000 * b[5] as nat
                        + 0x1_0000_0000_0000 * b[6] as nat + 0x100_0000_0000_0000 * b[7] as nat
  {
    LeFrom(b, 0);
    LeFrom(b, 1);
    LeFrom(b, 2);
    LeFrom(b, 3);
    LeFrom(b, 4);
    LeFrom(b, 5);
    LeFrom(b, 6);
    LeFrom(b, 7);
    assert b[0..] == b;
  }

  lemma {:induction false} LeFrom(b: seq<byte>, k: nat)
    requires k < |b|
    ensures LeValue(b[k..]) == b[k] + 256 * LeValue(b[k + 1..])
    ensures LeValue(b[|b|..]) == 0
  {
    assert b[k..][1..] == b[k + 1..];
  }

  lemma {:induction false} Widths()
    ensures Pow256(2) == U16_MAX + 1 && Pow256(4) == U32_MAX + 1 && Pow256(8) == U64_MAX + 1
  {
    assert Pow256(4) == 65536 * Pow256(2);
    assert Pow256(6) == 65536 * Pow256(4);
    assert Pow256(8) == 65536 * Pow256(6);
  }
}
