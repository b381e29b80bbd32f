/** CRC-32 (reflected, polynomial 0xEDB88320): the table-driven form the firmware
    computes, against the bit-at-a-time form of section 8 of RFC 1952. */
module Crc32 {

  const INITIAL: bv32 := 0xFFFF_FFFF

  // ---- The bitwise form ----

  function Bit(x: bv32): bv32 {
    if x & 1 != 0 then (x >> 1) ^ 0xEDB88320 else x >> 1
  }

  function Iterate<T>(f: T -> T, x: T, n: nat): T
    decreases n
  {
    if n == 0 then x else Iterate(f, f(x), n - 1)
  }

  /** `n` applications of `Bit`. */
  function Bits(x: bv32, n: nat): bv32 {
    Iterate(Bit, x, n)
  }

  function Mix(crc: bv32, byte: bv8): bv32 {
    crc ^ (byte as bv32)
  }

  function Step(crc: bv32, byte: bv8): bv32 {
    Bits(Mix(crc, byte), 8)
  }

  /** Feeds a message one byte, and each byte one bit, at a time. */
  function Bitwise(crc: bv32, message: seq<bv8>): bv32
    decreases |message|
  {
    if message == [] then crc else Bitwise(Step(crc, message[0]), message[1..])
  }

  function Checksum(message: seq<bv8>): bv32 {
    Finish(Bitwise(INITIAL, message))
  }

  function Finish(crc: bv32): bv32 {
    crc ^ 0xFFFF_FFFF
  }

  /** Exclusive-or as a relation; naming the result keeps the bit-vector queries small. */
  predicate IsXor(x: bv32, y: bv32, z: bv32) {
    z == x ^ y
  }

  // ---- One bit is linear and loses nothing ----

  lemma BitLinearBothEven(x: bv32, y: bv32, z: bv32)
    requires IsXor(x, y, z) && x & 1 == 0 && y & 1 == 0
    ensures IsXor(Bit(x), Bit(y), Bit(z))
  {}

  lemma BitLinearOneOdd(x: bv32, y: bv32, z: bv32)
    requires IsXor(x, y, z) && x & 1 == 0 && y & 1 != 0
    ensures IsXor(Bit(x), Bit(y), Bit(z))
  {}

  lemma BitLinearBothOdd(x: bv32, y: bv32, z: bv32)
    requires IsXor(x, y, z) && x & 1 != 0 && y & 1 != 0
    ensures IsXor(Bit(x), Bit(y), Bit(z))
  {}

  lemma XorCommutes(x: bv32, y: bv32, z: bv32)
    requires IsXor(x, y, z)
    ensures IsXor(y, x, z)
  {}

  lemma BitLinear(x: bv32, y: bv32, z: bv32)
    requires IsXor(x, y, z)
    ensures IsXor(Bit(x), Bit(y), Bit(z))
  {
    if x & 1 == 0 {
      if y & 1 == 0 { BitLinearBothEven(x, y, z); } else { BitLinearOneOdd(x, y, z); }
    } else {
      if y & 1 == 0 {
        XorCommutes(x, y, z);
        BitLinearOneOdd(y, x, z);
        XorCommutes(Bit(y), Bit(x), Bit(z));
      } else {
        BitLinearBothOdd(x, y, z);
      }
    }
  }

  /** The top bit of the polynomial records which branch `Bit` took. */
  lemma BitInjective(x: bv32, y: bv32)
    requires Bit(x) == Bit(y)
    ensures x == y
  {}

  lemma {:induction false} IterateRelates<T(!new)>(f: T -> T, R: (T, T, T) -> bool, x: T, y: T, z: T, n: nat)
    requires forall a, b, c :: R(a, b, c) ==> R(f(a), f(b), f(c))
    requires R(x, y, z)
    ensures R(Iterate(f, x, n), Iterate(f, y, n), Iterate(f, z, n))
    decreases n
  {
    if n > 0 {
      IterateRelates(f, R, f(x), f(y), f(z), n - 1);
    }
  }

  lemma {:induction false} IterateInjective<T(!new)>(f: T -> T, x: T, y: T, n: nat)
    requires forall a, b :: f(a) == f(b) ==> a == b
    requires Iterate(f, x, n) == Iterate(f, y, n)
    ensures x == y
    decreases n
  {
    if n > 0 {
      IterateInjective(f, f(x), f(y), n - 1);
    }
  }

  lemma BitsLinear(x: bv32, y: bv32, z: bv32, n: nat)
    requires IsXor(x, y, z)
    ensures IsXor(Bits(x, n), Bits(y, n), Bits(z, n))
  {
    forall a, b, c | IsXor(a, b, c) ensures IsXor(Bit(a), Bit(b), Bit(c)) {
      BitLinear(a, b, c);
    }
    IterateRelates(Bit, IsXor, x, y, z, n);
  }

  lemma BitsInjective(x: bv32, y: bv32, n: nat)
    requires Bits(x, n) == Bits(y, n)
    ensures x == y
  {
    forall a, b ensures Bit(a) == Bit(b) ==> a == b {
      if Bit(a) == Bit(b) { BitInjective(a, b); }
    }
    IterateInjective(Bit, x, y, n);
  }

  // ---- A table step is eight bit steps ----

  /** Eight steps on a word whose low byte is clear only shift it. */
  lemma HighBytesShift(w: bv32)
    requires w & 0xFF == 0
    ensures Bits(w, 8) == w >> 8
  {
    var w1, w2, w3, w4 := w >> 1, w >> 2, w >> 3, w >> 4;
    var w5, w6, w7, w8 := w >> 5, w >> 6, w >> 7, w >> 8;
    assert Bit(w) == w1 && Bit(w1) == w2 && Bit(w2) == w3 && Bit(w3) == w4;
    assert Bit(w4) == w5 && Bit(w5) == w6 && Bit(w6) == w7 && Bit(w7) == w8;
    BitsUnroll(w, w1, w2, w3, w4, 4);
    BitsUnroll(w4, w5, w6, w7, w8, 0);
  }

  lemma BitsUnroll(a: bv32, b: bv32, c: bv32, d: bv32, e: bv32, n: nat)
    requires Bit(a) == b && Bit(b) == c && Bit(c) == d && Bit(d) == e
    ensures Bits(a, n + 4) == Bits(e, n)
  {
    assert Bits(a, n + 4) == Bits(b, n + 3);
    assert Bits(b, n + 3) == Bits(c, n + 2);
    assert Bits(c, n + 2) == Bits(d, n + 1);
  }

  function LowByte(v: bv32): bv32 { v & 0xFF }

  function HighBytes(v: bv32): bv32 { v & 0xFFFF_FF00 }

  lemma SplitWord(v: bv32)
    ensures IsXor(LowByte(v), HighBytes(v), v) && HighBytes(v) & 0xFF == 0
  {}

  lemma MixKeepsHighBytes(crc: bv32, byte: bv8)
    ensures HighBytes(Mix(crc, byte)) >> 8 == crc >> 8
  {}

  lemma HighBytesStep(crc: bv32, byte: bv8)
    ensures Bits(HighBytes(Mix(crc, byte)), 8) == crc >> 8
  {
    var high := HighBytes(Mix(crc, byte));
    assert high & 0xFF == 0;
    HighBytesShift(high);
    MixKeepsHighBytes(crc, byte);
  }

  lemma SplitStep(v: bv32, low: bv32, high: bv32, shifted: bv32)
    requires IsXor(low, high, v)
    requires Bits(high, 8) == shifted
    ensures IsXor(Bits(low, 8), shifted, Bits(v, 8))
  {
    BitsLinear(low, high, v, 8);
  }

  /** The table identity: the eight-step image of the low byte, combined with the
      shifted word, is what feeding the byte bit by bit gives. */
  lemma TableStep(crc: bv32, byte: bv8)
    ensures IsXor(Bits(LowByte(Mix(crc, byte)), 8), crc >> 8, Step(crc, byte))
  {
    var v := Mix(crc, byte);
    SplitWord(v);
    HighBytesStep(crc, byte);
    SplitStep(v, LowByte(v), HighBytes(v), crc >> 8);
  }

  // ---- Incremental use and error detection ----

  lemma {:induction false} BitwiseConcat(crc: bv32, first: seq<bv8>, second: seq<bv8>)
    ensures Bitwise(crc, first + second) == Bitwise(Bitwise(crc, first), second)
    decreases |first|
  {
    if first == [] {
      assert first + second == second;
    } else {
      assert (first + second)[1..] == first[1..] + second;
      BitwiseConcat(Step(crc, first[0]), first[1..], second);
    }
  }

  lemma {:induction false} BitwiseInjective(x: bv32, y: bv32, message: seq<bv8>)
    requires Bitwise(x, message) == Bitwise(y, message)
    ensures x == y
    decreases |message|
  {
    if message != [] {
      BitwiseInjective(Step(x, message[0]), Step(y, message[0]), message[1..]);
      StepInjective(x, y, message[0]);
    }
  }

  lemma StepInjective(x: bv32, y: bv32, byte: bv8)
    requires Step(x, byte) == Step(y, byte)
    ensures x == y
  {
    BitsInjective(Mix(x, byte), Mix(y, byte), 8);
    MixInjective(x, y, byte);
  }

  lemma MixInjective(x: bv32, y: bv32, byte: bv8)
    requires Mix(x, byte) == Mix(y, byte)
    ensures x == y
  {}

  // Up to four bytes act on the register as one word.

  function Shifted(w: bv32): bv32 { w << 8 }

  function Word(message: seq<bv8>): bv32
    decreases |message|
  {
    if message == [] then 0 else Mix(Shifted(Word(message[1..])), message[0])
  }

  lemma ShiftedStep(w: bv32)
    requires w & 0xFF00_0000 == 0
    ensures Bits(Shifted(w), 8) == w
  {
    ShiftBack(w);
    HighBytesShift(Shifted(w));
  }

  lemma ShiftBack(w: bv32)
    requires w & 0xFF00_0000 == 0
    ensures Shifted(w) & 0xFF == 0 && Shifted(w) >> 8 == w
  {}

  /** How many low bytes of a word may be non-zero. */
  predicate Fits(w: bv32, bytes: nat) {
    && (bytes < 4 ==> w & 0xFF00_0000 == 0)
    && (bytes < 3 ==> w & 0xFFFF_0000 == 0)
    && (bytes < 2 ==> w & 0xFFFF_FF00 == 0)
    && (bytes < 1 ==> w == 0)
  }

  lemma FitsGrow(w: bv32, byte: bv8, n: nat)
    requires Fits(w, n)
    ensures Fits(Mix(Shifted(w), byte), n + 1)
  {}

  lemma {:induction false} WordFits(message: seq<bv8>)
    ensures Fits(Word(message), |message|)
    decreases |message|
  {
    if message != [] {
      WordFits(message[1..]);
      FitsGrow(Word(message[1..]), message[0], |message| - 1);
    }
  }

  lemma {:induction false} IterateAdds<T>(f: T -> T, x: T, m: nat, n: nat)
    ensures Iterate(f, x, m + n) == Iterate(f, Iterate(f, x, m), n)
    decreases m
  {
    if m > 0 {
      IterateAdds(f, f(x), m - 1, n);
    }
  }

  lemma XorChain(crc: bv32, byte: bv8, shifted: bv32, z: bv32)
    requires IsXor(crc, Mix(shifted, byte), z)
    ensures IsXor(Mix(crc, byte), shifted, z)
  {}

  /** Feeding at most four bytes is one exclusive-or followed by bit steps. */
  lemma {:induction false} BitwiseWord(crc: bv32, message: seq<bv8>, z: bv32)
    requires |message| <= 4
    requires IsXor(crc, Word(message), z)
    ensures Bitwise(crc, message) == Bits(z, 8 * |message|)
    decreases |message|
  {
    if message == [] {
      XorZero(crc, z);
    } else {
      var rest := message[1..];
      var w := Word(rest);
      WordFits(rest);
      ShiftedStep(w);
      XorChain(crc, message[0], Shifted(w), z);
      BitsLinear(Mix(crc, message[0]), Shifted(w), z, 8);
      BitwiseWord(Step(crc, message[0]), rest, Bits(z, 8));
      IterateAdds(Bit, z, 8, 8 * |rest|);
    }
  }

  lemma XorZero(x: bv32, z: bv32)
    requires IsXor(x, 0, z)
    ensures x == z
  {}

  lemma {:induction false} WordInjective(m1: seq<bv8>, m2: seq<bv8>)
    requires |m1| == |m2| <= 4
    requires Word(m1) == Word(m2)
    ensures m1 == m2
    decreases |m1|
  {
    if m1 != [] {
      WordFits(m1[1..]);
      WordFits(m2[1..]);
      MixShiftInjective(Word(m1[1..]), m1[0], Word(m2[1..]), m2[0]);
      WordInjective(m1[1..], m2[1..]);
      assert m1 == [m1[0]] + m1[1..] && m2 == [m2[0]] + m2[1..];
    }
  }

  lemma MixShiftInjective(w1: bv32, b1: bv8, w2: bv32, b2: bv8)
    requires w1 & 0xFF00_0000 == 0 && w2 & 0xFF00_0000 == 0
    requires Mix(Shifted(w1), b1) == Mix(Shifted(w2), b2)
    ensures w1 == w2 && b1 == b2
  {}

  lemma XorBothSides(crc: bv32, w1: bv32, w2: bv32, z: bv32)
    requires IsXor(crc, w1, z) && IsXor(crc, w2, z)
    ensures w1 == w2
  {}

  lemma ShortMessageInjective(crc: bv32, m1: seq<bv8>, m2: seq<bv8>)
    requires |m1| == |m2| <= 4
    requires Bitwise(crc, m1) == Bitwise(crc, m2)
    ensures m1 == m2
  {
    var z1 := XorResult(crc, Word(m1));
    var z2 := XorResult(crc, Word(m2));
    BitwiseWord(crc, m1, z1);
    BitwiseWord(crc, m2, z2);
    BitsInjective(z1, z2, 8 * |m1|);
    XorBothSides(crc, Word(m1), Word(m2), z1);
    WordInjective(m1, m2);
  }

  lemma XorResult(x: bv32, y: bv32) returns (z: bv32)
    ensures IsXor(x, y, z)
  {
    z := x ^ y;
  }

  lemma FinishInjective(x: bv32, y: bv32)
    requires Finish(x) == Finish(y)
    ensures x == y
  {}

  /** Every corruption confined to four consecutive bytes changes the checksum. */
  lemma BurstDetected(before: seq<bv8>, burst1: seq<bv8>, burst2: seq<bv8>, after: seq<bv8>)
    requires |burst1| == |burst2| <= 4 && burst1 != burst2
    ensures Checksum(before + burst1 + after) != Checksum(before + burst2 + after)
  {
    if Checksum(before + burst1 + after) == Checksum(before + burst2 + after) {
      FinishInjective(Bitwise(INITIAL, before + burst1 + after), Bitwise(INITIAL, before + burst2 + after));
      var crc := Bitwise(INITIAL, before);
      BitwiseConcat(INITIAL, before + burst1, after);
      BitwiseConcat(INITIAL, before + burst2, after);
      BitwiseConcat(INITIAL, before, burst1);
      BitwiseConcat(INITIAL, before, burst2);
      BitwiseInjective(Bitwise(crc, burst1), Bitwise(crc, burst2), after);
      ShortMessageInjective(crc, burst1, burst2);
    }
  }

  /** In particular no single altered byte goes unnoticed. */
  lemma ByteChangeDetected(message: seq<bv8>, k: nat, byte: bv8)
    requires k < |message| && byte != message[k]
    ensures Checksum(message[k := byte]) != Checksum(message)
  {
    BurstDetected(message[..k], [message[k]], [byte], message[k + 1..]);
    assert message == message[..k] + [message[k]] + message[k + 1..];
    assert message[k := byte] == message[..k] + [byte] + message[k + 1..];
  }

  // ---- The firmware's table ----

  /** The word counted up to from zero; recursion keeps conversions out of the loops. */
  function WordOf(n: nat): bv32 {
    if n == 0 then 0 else WordOf(n - 1) + 1
  }

  lemma {:induction false} WordOfIndex(low: bv32)
    requires low < 256
    ensures 0 <= low as int < 256 && WordOf(low as int) == low
    decreases low as int
  {
    if low == 0 {
    } else {
      Predecessor(low);
      WordOfIndex(low - 1);
    }
  }

  lemma Predecessor(low: bv32)
    requires 0 < low < 256
    ensures 0 < low as int < 256 && (low - 1) as int == low as int - 1
  {}

  function TableEntry(index: nat): bv32 {
    Bits(WordOf(index), 8)
  }

  /** The inner loop of `build_table`. */
  method BuildEntry(index: bv32) returns (value: bv32)
    ensures value == Bits(index, 8)
  {
    value := index;
    var bit := 0;
    while bit < 8
      invariant 0 <= bit <= 8
      invariant Bits(value, 8 - bit) == Bits(index, 8)
    {
      value := Bit(value);
      bit := bit + 1;
    }
  }

  lemma LowByteSmall(v: bv32)
    ensures LowByte(v) < 256
  {}

  class Table {
    var entries: array<bv32>
    var ready: bool

    ghost predicate Valid()
      reads this, entries
    {
      entries.Length == 256 && (ready ==> Filled(256))
    }

    ghost predicate Filled(n: int)
      reads this, entries
    {
      entries.Length == 256 &&
      forall k :: 0 <= k < n && k < 256 ==> entries[k] == TableEntry(k)
    }

    constructor ()
      ensures Valid() && !ready && fresh(entries)
    {
      entries := new bv32[256];
      ready := false;
    }

    method Build()
      requires Valid()
      modifies this`ready, entries
      ensures Valid() && ready
    {
      var index, word: bv32 := 0, 0;
      while index < 256
        invariant 0 <= index <= 256 && Filled(index) && word == WordOf(index)
      {
        var value := BuildEntry(word);
        entries[index] := value;
        index, word := index + 1, word + 1;
      }
      ready := true;
    }

    method Lookup(low: bv32) returns (entry: bv32)
      requires Valid() && ready && low < 256
      ensures entry == Bits(low, 8)
    {
      WordOfIndex(low);
      entry := entries[low as int];
    }

    /** `app_crc32_update`: a null buffer leaves the register alone. */
    method Update(crc: bv32, data: array?<bv8>, length: nat) returns (r: bv32)
      requires Valid()
      requires data != null ==> length <= data.Length && data as object != entries as object
      modifies this`ready, entries
      ensures Valid()
      ensures data == null ==> r == crc
      ensures data != null ==> r == Bitwise(crc, data[..length])
    {
      if data == null {
        return crc;
      }
      if !ready {
        Build();
      }
      r := crc;
      var index := 0;
      while index < length
        invariant 0 <= index <= length
        invariant Valid() && ready
        invariant Bitwise(r, data[index..length]) == Bitwise(crc, data[..length])
      {
        var v := Mix(r, data[index]);
        TableStep(r, data[index]);
        LowByteSmall(v);
        var entry := Lookup(LowByte(v));
        assert data[index..length][1..] == data[index + 1..length];
        r := Combine(entry, r, Step(r, data[index]));
        index := index + 1;
      }
    }

    /** `app_crc32`: the whole checksum of a buffer, 0 for a null one. */
    method Compute(data: array?<bv8>, length: nat) returns (r: bv32)
      requires Valid()
      requires data != null ==> length <= data.Length && data as object != entries as object
      modifies this`ready, entries
      ensures Valid()
      ensures data == null ==> r == 0
      ensures data != null ==> r == Checksum(data[..length])
    {
      if data == null {
        return 0;
      }
      var crc := Update(INITIAL, data, length);
      r := Finish(crc);
    }
  }

  method Combine(entry: bv32, crc: bv32, ghost expected: bv32) returns (r: bv32)
    requires IsXor(entry, crc >> 8, expected)
    ensures r == expected
  {
    r := entry ^ (crc >> 8);
  }
}
