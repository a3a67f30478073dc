/** Routing a partition key to a partition.

    The key is hashed with the 31-multiplier polynomial string hash that
    `java.lang.String.hashCode` also uses, over the key's UTF-16 code units,
    with every intermediate value reduced to a signed 32-bit integer; the
    partition is the absolute value of the hash modulo the partition count. */
module Partitioner {

  const TwoTo32: int := 0x1_0000_0000
  const TwoTo31: int := 0x8000_0000

  /** The range of a signed 32-bit integer, which is what `x & x` yields. */
  predicate IsInt32(x: int) {
    -TwoTo31 <= x < TwoTo31
  }

  /** ToInt32: the signed 32-bit integer congruent to x modulo 2^32. */
  function Wrap32(x: int): (r: int)
    ensures IsInt32(r)
    ensures (x - r) % TwoTo32 == 0
  {
    var m := x % TwoTo32;
    if m < TwoTo31 then m else m - TwoTo32
  }

  /** Two integers congruent modulo 2^32 wrap to the same 32-bit value. */
  lemma Wrap32Congruent(x: int, y: int, k: int)
    requires x - y == TwoTo32 * k
    ensures Wrap32(x) == Wrap32(y)
  {
    assert x % TwoTo32 == y % TwoTo32;
  }

  /** A value already in the signed 32-bit range is left alone by Wrap32. */
  lemma Wrap32OfInt32(x: int)
    requires IsInt32(x)
    ensures Wrap32(x) == x
  {
    if x < 0 {
      assert x % TwoTo32 == x + TwoTo32;
    }
  }

  /** The UTF-16 code units of one character: one unit inside the Basic
      Multilingual Plane, a surrogate pair above it. */
  function CodeUnits(c: char): (u: seq<int>)
    ensures 1 <= |u| <= 2
    ensures forall i :: 0 <= i < |u| ==> 0 <= u[i] < 0x1_0000
    ensures |u| == 1 <==> (c as int) < 0x1_0000
  {
    var v := c as int;
    if v < 0x1_0000 then [v]
    else
      var w := v - 0x1_0000;
      [0xD800 + w / 0x400, 0xDC00 + w % 0x400]
  }

  /** The string as JavaScript sees it: its sequence of UTF-16 code units,
      which `charCodeAt` returns one at a time. */
  function Utf16(s: string): (u: seq<int>)
    ensures |u| >= |s|
    ensures forall i :: 0 <= i < |u| ==> 0 <= u[i] < 0x1_0000
  {
    if s == [] then [] else Utf16(s[..|s| - 1]) + CodeUnits(s[|s| - 1])
  }

  /** `hash << 5` on a 32-bit hash: the product with 32, wrapped. */
  function ShiftLeft5(h: int): int {
    Wrap32(h * 32)
  }

  /** One step of the loop exactly as written: `((hash << 5) - hash) + char`,
      then `hash & hash`. */
  function HashStep(h: int, unit: int): int {
    Wrap32(ShiftLeft5(h) - h + unit)
  }

  /** The hash after the loop has consumed `units`, a left fold of HashStep from 0. */
  function HashOf(units: seq<int>): int {
    if units == [] then 0 else HashStep(HashOf(units[..|units| - 1]), units[|units| - 1])
  }

  /** The step of `java.lang.String.hashCode`: 31 * h + c in 32-bit arithmetic. */
  function JavaStep(h: int, unit: int): int {
    Wrap32(31 * h + unit)
  }

  /** `java.lang.String.hashCode` over the same code units: a left fold of JavaStep from 0. */
  function JavaHash(units: seq<int>): int {
    if units == [] then 0 else JavaStep(JavaHash(units[..|units| - 1]), units[|units| - 1])
  }

  /** The unreduced polynomial sum of unit[i] * 31^(n-1-i). */
  function Polynomial(units: seq<int>): int {
    if units == [] then 0 else 31 * Polynomial(units[..|units| - 1]) + units[|units| - 1]
  }

  /** The shift-and-subtract step equals the Java step on every 32-bit hash. */
  lemma HashStepIsJavaStep(h: int, unit: int)
    requires IsInt32(h)
    ensures HashStep(h, unit) == JavaStep(h, unit)
  {
    var s := ShiftLeft5(h);
    var k := (h * 32 - s) / TwoTo32;
    assert (s - h + unit) - (31 * h + unit) == TwoTo32 * (-k);
    Wrap32Congruent(s - h + unit, 31 * h + unit, -k);
  }

  /** The loop computes exactly the Java string hash of the code units. */
  lemma {:induction false} HashIsJavaHash(units: seq<int>)
    ensures IsInt32(HashOf(units))
    ensures HashOf(units) == JavaHash(units)
  {
    if units != [] {
      HashIsJavaHash(units[..|units| - 1]);
      HashStepIsJavaStep(HashOf(units[..|units| - 1]), units[|units| - 1]);
    }
  }

  /** The Java step respects congruence modulo 2^32 of the running hash. */
  lemma JavaStepCongruent(h: int, p: int, unit: int, k: int)
    requires p - h == TwoTo32 * k
    ensures JavaStep(h, unit) == Wrap32(31 * p + unit)
  {
    assert (31 * p + unit) - (31 * h + unit) == TwoTo32 * (31 * k);
    Wrap32Congruent(31 * p + unit, 31 * h + unit, 31 * k);
  }

  /** The hash is the polynomial hash with multiplier 31, reduced once at the
      end: every intermediate wrap-around is invisible in the result. */
  lemma {:induction false} HashIsPolynomialMod32(units: seq<int>)
    ensures HashOf(units) == Wrap32(Polynomial(units))
  {
    if units == [] {
      Wrap32OfInt32(0);
    } else {
      var init := units[..|units| - 1];
      HashIsPolynomialMod32(init);
      HashIsJavaHash(units);
      HashIsJavaHash(init);
      var h := HashOf(init);
      var p := Polynomial(init);
      var k := (p - h) / TwoTo32;
      assert p - h == TwoTo32 * k;
      JavaStepCongruent(h, p, units[|units| - 1], k);
    }
  }

  /** `Math.abs` on the 32-bit hash; it reaches 2^31 for the hash -2^31. */
  function Abs(x: int): nat {
    if x < 0 then -x else x
  }

  /** The partition `getPartition` returns for a key. */
  function PartitionOf(key: string, partitions: nat): nat
    requires partitions >= 1
  {
    Abs(HashOf(Utf16(key))) % partitions
  }

  /** `getPartition`: hash the key's code units in one pass, then take the
      absolute value modulo the partition count (at least 1 in the source's
      user interface). */
  method GetPartition(key: string, partitions: nat) returns (p: nat)
    requires partitions >= 1
    ensures p < partitions
    ensures p == PartitionOf(key, partitions)
  {
    var units := Utf16(key);
    var hash := 0;
    var i := 0;
    while i < |units|
      invariant 0 <= i <= |units|
      invariant hash == HashOf(units[..i])
    {
      assert units[..i + 1][..i] == units[..i];
      hash := HashStep(hash, units[i]);
      i := i + 1;
    }
    assert units[..|units|] == units;
    p := Abs(hash) % partitions;
  }

  /** The partition is the 32-bit Java string hash of the key's UTF-16 code
      units, folded from 0, taken in absolute value modulo the partition count,
      and it lies in [0, partitions). */
  lemma PartitionIsJavaHash(key: string, partitions: nat)
    requires partitions >= 1
    ensures PartitionOf(key, partitions) < partitions
    ensures PartitionOf(key, partitions) == Abs(Wrap32(Polynomial(Utf16(key)))) % partitions
    ensures Abs(Wrap32(Polynomial(Utf16(key)))) <= TwoTo31
  {
    HashIsPolynomialMod32(Utf16(key));
  }
}
