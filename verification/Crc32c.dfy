/** CRC32C (section 12.1 of RFC 3720): the table-driven update against the shift register it stands for. */
module Crc32c {
  import opened Bytes
  import opened Coding

  // ---- Words ----

  function Zeros(n: nat): (z: seq<bool>)
    ensures |z| == n && forall i :: 0 <= i < n ==> !z[i]
  {
    seq(n, _ => false)
  }

  /** A 32-bit register as its bits, lowest first. */
  type Word = w: seq<bool> | |w| == 32 witness Zeros(32)

  function Xor(a: Word, b: Word): (w: Word)
    ensures forall i :: 0 <= i < 32 ==> w[i] == (a[i] != b[i])
  {
    seq(32, i requires 0 <= i < 32 => a[i] != b[i])
  }

  function Not(a: Word): (w: Word)
    ensures forall i :: 0 <= i < 32 ==> w[i] == !a[i]
  {
    seq(32, i requires 0 <= i < 32 => !a[i])
  }

  /** Shifted right by `n`. */
  function ShiftRight(w: Word, n: nat): Word
    requires n <= 32
  {
    w[n..] + Zeros(n)
  }

  /** Widened to a word. */
  function Pad(bits: seq<bool>): Word
    requires |bits| <= 32
  {
    bits + Zeros(32 - |bits|)
  }

  /** The Castagnoli polynomial, reflected. */
  function Polynomial(): Word {
    ToBits(0x82F6_3B78, 32)
  }

  lemma {:induction false} TopBit(v: nat, n: nat)
    requires n > 0 && v < Pow2(n)
    ensures ToBits(v, n)[n - 1] <==> v >= Pow2(n - 1)
  {
    if n > 1 {
      TopBit(v / 2, n - 1);
      assert ToBits(v, n)[n - 1] == ToBits(v / 2, n - 1)[n - 2];
    } else {
      assert Pow2(1) == 2 * Pow2(0);
    }
  }

  lemma Pow2Word()
    ensures Pow2(31) == 0x8000_0000 && Pow2(32) == TWO_32
  {
    Pow2Seven(0);
    Pow2Seven(7);
    Pow2Seven(14);
    Pow2Seven(21);
    assert Pow2(32) == 2 * Pow2(31) == 4 * Pow2(30) == 8 * Pow2(29) == 16 * Pow2(28);
  }

  lemma PolynomialHasTopBit()
    ensures Polynomial()[31]
  {
    hide ToBits, Pow2;
    Pow2Word();
    TopBit(0x82F6_3B78, 32);
  }

  // ---- The shift register, a bit at a time ----

  /** Shifts one message bit in. */
  function BitStep(c: Word, bit: bool): Word {
    if c[0] != bit then Xor(ShiftRight(c, 1), Polynomial()) else ShiftRight(c, 1)
  }

  function FeedBits(c: Word, bits: seq<bool>): Word
    decreases |bits|
  {
    if bits == [] then c else FeedBits(BitStep(c, bits[0]), bits[1..])
  }

  function ByteBits(b: byte): (bits: seq<bool>)
    ensures |bits| == 8
  {
    ToBits(b, 8)
  }

  /** The register after a byte string, each byte lowest bit first. */
  function Register(c: Word, data: seq<byte>): Word
    decreases |data|
  {
    if data == [] then c else Register(FeedBits(c, ByteBits(data[0])), data[1..])
  }

  /** A checksum extended by more data: inverted before and after. */
  function Extend(crc: Word, data: seq<byte>): Word {
    Not(Register(Not(crc), data))
  }

  // ---- A byte at once ----

  /** One shift with no message bit. */
  function Step(c: Word): Word {
    if c[0] then Xor(ShiftRight(c, 1), Polynomial()) else ShiftRight(c, 1)
  }

  function Steps(c: Word, n: nat): Word
    decreases n
  {
    if n == 0 then c else Steps(Step(c), n - 1)
  }

  lemma {:induction false} StepIsLinear(x: Word, y: Word)
    ensures Step(Xor(x, y)) == Xor(Step(x), Step(y))
  {
    hide Polynomial;
  }

  lemma {:induction false} StepsAreLinear(x: Word, y: Word, n: nat)
    ensures Steps(Xor(x, y), n) == Xor(Steps(x, n), Steps(y, n))
    decreases n
  {
    hide Step, Xor;
    if n == 0 {
    } else {
      StepIsLinear(x, y);
      StepsAreLinear(Step(x), Step(y), n - 1);
    }
  }

  lemma {:induction false} BitStepIsStep(c: Word, bits: seq<bool>)
    requires 0 < |bits| <= 32
    ensures Step(Xor(c, Pad(bits))) == Xor(BitStep(c, bits[0]), Pad(bits[1..]))
  {
    hide Polynomial;
  }

  /** Shifting the bits in one by one is adding them first and shifting afterwards. */
  lemma {:induction false} FeedIsSteps(c: Word, bits: seq<bool>)
    requires |bits| <= 32
    ensures FeedBits(c, bits) == Steps(Xor(c, Pad(bits)), |bits|)
    decreases |bits|
  {
    hide Step, BitStep, Pad, Xor;
    if bits == [] {
      assert Xor(c, Pad([])) == c by { AddNothing(c); }
    } else {
      BitStepIsStep(c, bits);
      FeedIsSteps(BitStep(c, bits[0]), bits[1..]);
    }
  }

  lemma {:induction false} AddNothing(c: Word)
    ensures Xor(c, Pad([])) == c
  {
  }

  /** Shifts of a word whose low bits are zero just drop them. */
  lemma {:induction false} StepsOfHighBits(n: nat, t: seq<bool>)
    requires n + |t| == 32
    ensures Steps(Zeros(n) + t, n) == t + Zeros(n)
    decreases n
  {
    hide Polynomial;
    if n == 0 {
      assert Zeros(0) + t == t && t + Zeros(0) == t;
    } else {
      assert Step(Zeros(n) + t) == Zeros(n - 1) + (t + [false]);
      StepsOfHighBits(n - 1, t + [false]);
      assert t + [false] + Zeros(n - 1) == t + Zeros(n);
    }
  }

  /** The heart of the table: eight shifts split into a looked-up low byte and a shifted rest. */
  lemma {:induction false} TableStep(c: Word, bits: seq<bool>)
    requires |bits| == 8
    ensures FeedBits(c, bits) == Xor(Steps(Pad(Xor(c, Pad(bits))[..8]), 8), ShiftRight(c, 8))
  {
    hide Steps, FeedBits, Step;
    FeedIsSteps(c, bits);
    var x := Xor(c, Pad(bits));
    assert x == Xor(Pad(x[..8]), Zeros(8) + x[8..]);
    StepsAreLinear(Pad(x[..8]), Zeros(8) + x[8..], 8);
    StepsOfHighBits(8, x[8..]);
    assert x[8..] == c[8..];
  }

  // ---- The table-driven code ----

  predicate IsTable(t: seq<Word>) {
    |t| == 256 && forall i :: 0 <= i < 256 ==> t[i] == Steps(Pad(ToBits(i, 8)), 8)
  }

  method BuildTable() returns (t: array<Word>)
    ensures fresh(t) && IsTable(t[..])
  {
    hide Steps, ToBits, Xor, Pad;
    t := new Word[256](_ => Zeros(32));
    for i := 0 to 256
      invariant forall k :: 0 <= k < i ==> t[..][k] == Steps(Pad(ToBits(k, 8)), 8)
    {
      ghost var before := t[..];
      var crc := TableEntry(i);
      t[i] := crc;
      assert t[..] == before[i := crc];
    }
  }

  method TableEntry(i: nat) returns (crc: Word)
    ensures crc == Steps(Pad(ToBits(i, 8)), 8)
  {
    hide Steps, ToBits, Xor, Pad;
    crc := Pad(ToBits(i, 8));
    for j := 0 to 8
      invariant Steps(crc, 8 - j) == Steps(Pad(ToBits(i, 8)), 8)
    {
      StepsOnce(crc, 8 - j);
      if crc[0] {
        crc := Xor(ShiftRight(crc, 1), Polynomial());
      } else {
        crc := ShiftRight(crc, 1);
      }
    }
    StepsNone(crc);
  }

  lemma {:induction false} StepsOnce(c: Word, n: nat)
    requires n > 0
    ensures Steps(c, n) == Steps(Step(c), n - 1)
  {
  }

  lemma {:induction false} StepsNone(c: Word)
    ensures Steps(c, 0) == c
  {
  }

  /** The index that is looked up, and what is found there. */
  lemma {:induction false} TableLookup(t: seq<Word>, low: seq<bool>)
    requires IsTable(t) && |low| == 8
    ensures FromBits(low) < 256 && t[FromBits(low)] == Steps(Pad(low), 8)
  {
    hide Steps;
    Pow2Eight();
    BitsRoundTrip(low);
  }

  /** Table-driven, and equal to the bit-at-a-time register for every input. */
  method Crc32Extend(start: Word, data: seq<byte>) returns (r: Word)
    ensures r == Extend(start, data)
  {
    hide Steps, FeedBits, IsTable, Xor, Pad, ShiftRight, Not;
    var t := BuildTable();
    assert |t[..]| == 256 by { TableSize(t[..]); }
    ghost var table := t[..];
    var crc := Not(start);
    for i := 0 to |data|
      invariant t[..] == table
      invariant Register(crc, data[i..]) == Register(Not(start), data)
    {
      var x := Xor(crc, Pad(ByteBits(data[i])));
      TableStep(crc, ByteBits(data[i]));
      TableLookup(table, x[..8]);
      assert data[i..][1..] == data[i + 1..];
      crc := Xor(t[FromBits(x[..8])], ShiftRight(crc, 8));
    }
    r := Not(crc);
  }

  lemma {:induction false} TableSize(t: seq<Word>)
    requires IsTable(t)
    ensures |t| == 256
  {
  }

  // ---- Extending ----

  lemma {:induction false} RegisterConcat(c: Word, a: seq<byte>, b: seq<byte>)
    ensures Register(c, a + b) == Register(Register(c, a), b)
    decreases |a|
  {
    hide FeedBits, ByteBits;
    if a == [] {
      assert a + b == b;
    } else {
      RegisterConcat(FeedBits(c, ByteBits(a[0])), a[1..], b);
      assert (a + b)[1..] == a[1..] + b;
    }
  }

  /** Checksumming in two pieces is checksumming the whole, inversions and all. */
  lemma {:induction false} ExtendConcat(crc: Word, a: seq<byte>, b: seq<byte>)
    ensures Extend(Extend(crc, a), b) == Extend(crc, a + b)
  {
    hide Register;
    RegisterConcat(Not(crc), a, b);
    var x := Register(Not(crc), a);
    assert Not(Not(x)) == x;
  }

  // ---- Detecting a changed byte ----

  lemma {:induction false} StepIsInjective(x: Word, y: Word)
    requires Step(x) == Step(y)
    ensures x == y
  {
    hide Polynomial;
    PolynomialHasTopBit();
    assert Step(x)[31] == x[0] && Step(y)[31] == y[0];
    forall i | 0 <= i < 32 ensures x[i] == y[i] {
      if i > 0 { assert Step(x)[i - 1] == Step(y)[i - 1]; }
    }
  }

  lemma {:induction false} StepsAreInjective(x: Word, y: Word, n: nat)
    requires Steps(x, n) == Steps(y, n)
    ensures x == y
    decreases n
  {
    hide Step;
    if n == 0 {
    } else {
      StepsAreInjective(Step(x), Step(y), n - 1);
      StepIsInjective(x, y);
    }
  }

  lemma {:induction false} XorCancels(c: Word, d: Word, x: Word, y: Word)
    requires Xor(c, x) == Xor(d, y)
    ensures c == d <==> x == y
  {
    forall i | 0 <= i < 32 ensures c[i] == d[i] <==> x[i] == y[i] {
      assert Xor(c, x)[i] == Xor(d, y)[i];
    }
  }

  lemma {:induction false} PaddedBytesDiffer(a: byte, b: byte)
    requires Pad(ByteBits(a)) == Pad(ByteBits(b))
    ensures a == b
  {
    Pow2Eight();
    assert ByteBits(a) == Pad(ByteBits(a))[..8] && ByteBits(b) == Pad(ByteBits(b))[..8];
    NumberRoundTrip(a, 8);
    NumberRoundTrip(b, 8);
  }

  /** The update is injective in the register and in the byte. */
  lemma {:induction false} UpdateIsInjective(c: Word, d: Word, a: byte, b: byte)
    requires FeedBits(c, ByteBits(a)) == FeedBits(d, ByteBits(b))
    ensures c == d <==> a == b
  {
    hide Steps, FeedBits, ByteBits, Pad, Xor;
    FeedIsSteps(c, ByteBits(a));
    FeedIsSteps(d, ByteBits(b));
    var x, y := Pad(ByteBits(a)), Pad(ByteBits(b));
    StepsAreInjective(Xor(c, x), Xor(d, y), 8);
    XorCancels(c, d, x, y);
    if x == y { PaddedBytesDiffer(a, b); }
  }

  lemma {:induction false} RegisterIsInjective(c: Word, d: Word, data: seq<byte>)
    requires Register(c, data) == Register(d, data)
    ensures c == d
    decreases |data|
  {
    hide FeedBits, ByteBits;
    if data == [] {
    } else {
      var b := ByteBits(data[0]);
      RegisterIsInjective(FeedBits(c, b), FeedBits(d, b), data[1..]);
      UpdateIsInjective(c, d, data[0], data[0]);
    }
  }

  lemma {:induction false} RegisterCons(c: Word, b: byte, post: seq<byte>)
    ensures Register(c, [b] + post) == Register(FeedBits(c, ByteBits(b)), post)
  {
    hide FeedBits, ByteBits;
    assert ([b] + post)[1..] == post;
  }

  /** A changed byte changes the register, whatever follows. */
  lemma {:induction false} RegistersDiffer(c: Word, a: byte, b: byte, post: seq<byte>)
    requires a != b
    ensures Register(c, [a] + post) != Register(c, [b] + post)
  {
    hide FeedBits, ByteBits, Register;
    RegisterCons(c, a, post);
    RegisterCons(c, b, post);
    var x, y := FeedBits(c, ByteBits(a)), FeedBits(c, ByteBits(b));
    if x == y { UpdateIsInjective(c, c, a, b); }
    if Register(x, post) == Register(y, post) { RegisterIsInjective(x, y, post); }
  }

  /** Two strings that differ in exactly one byte have different checksums. */
  lemma {:induction false} OneByteIsDetected(crc: Word, a: seq<byte>, i: nat, b: byte)
    requires i < |a| && a[i] != b
    ensures Extend(crc, a) != Extend(crc, a[i := b])
  {
    hide Register;
    var pre, post := a[..i], a[i + 1..];
    assert a == pre + ([a[i]] + post) && a[i := b] == pre + ([b] + post);
    RegisterConcat(Not(crc), pre, [a[i]] + post);
    RegisterConcat(Not(crc), pre, [b] + post);
    RegistersDiffer(Register(Not(crc), pre), a[i], b, post);
    NotIsInjective(Register(Not(crc), a), Register(Not(crc), a[i := b]));
  }

  lemma {:induction false} NotIsInjective(x: Word, y: Word)
    ensures Not(x) == Not(y) ==> x == y
  {
    assert Not(Not(x)) == x && Not(Not(y)) == y;
  }

  // ---- As a number ----

  /** The checksum of a byte string as the unsigned number that is stored. */
  function Crc32(data: seq<byte>): nat {
    FromBits(Extend(Zeros(32), data))
  }

  lemma {:induction false} Crc32Fits(data: seq<byte>)
    ensures Crc32(data) < TWO_32
  {
    hide Pow2;
    Pow2Word();
  }

  lemma {:induction false} Crc32DetectsOneByte(a: seq<byte>, i: nat, b: byte)
    requires i < |a| && a[i] != b
    ensures Crc32(a) != Crc32(a[i := b])
  {
    hide Extend, FromBits, ToBits;
    OneByteIsDetected(Zeros(32), a, i, b);
    BitsRoundTrip(Extend(Zeros(32), a));
    BitsRoundTrip(Extend(Zeros(32), a[i := b]));
  }

  // ---- The polynomial and its terms ----

  lemma {:induction false} BitSplit(v: nat, n: nat)
    requires n >= 1
    ensures ToBits(v, n) == [v % 2 == 1] + ToBits(v / 2, n - 1)
  {
  }

  lemma {:induction false} PairSplit(v: nat, n: nat)
    requires n >= 2
    ensures ToBits(v, n) == [v % 2 == 1, v / 2 % 2 == 1] + ToBits(v / 4, n - 2)
  {
    hide ToBits;
    BitSplit(v, n);
    BitSplit(v / 2, n - 1);
    assert v / 2 / 2 == v / 4;
  }

  /** One hexadecimal digit at a time. */
  lemma {:induction false} DigitSplit(v: nat, n: nat)
    requires n >= 4
    ensures ToBits(v, n) == [v % 2 == 1, v / 2 % 2 == 1, v / 4 % 2 == 1, v / 8 % 2 == 1] + ToBits(v / 16, n - 4)
  {
    hide ToBits;
    PairSplit(v, n);
    PairSplit(v / 4, n - 2);
    assert v / 4 / 2 == v / 8 && v / 4 / 4 == v / 16;
  }

  lemma {:induction false} NoBits(v: nat)
    ensures ToBits(v, 0) == []
  {
  }

  /** Eight wires. */
  datatype Oct = Oct(b0: bool, b1: bool, b2: bool, b3: bool, b4: bool, b5: bool, b6: bool, b7: bool)

  function Wire(o: Oct, k: nat): bool {
    if k == 0 then o.b0 else if k == 1 then o.b1 else if k == 2 then o.b2 else if k == 3 then o.b3
    else if k == 4 then o.b4 else if k == 5 then o.b5 else if k == 6 then o.b6 else o.b7
  }

  function Seq8(o: Oct): (r: seq<bool>)
    ensures |r| == 8
  {
    seq(8, k requires 0 <= k < 8 => Wire(o, k))
  }

  /** The register as four groups of wires. */
  datatype Wires = Wires(o0: Oct, o1: Oct, o2: Oct, o3: Oct)

  function Word32(w: Wires): Word {
    Seq8(w.o0) + Seq8(w.o1) + Seq8(w.o2) + Seq8(w.o3)
  }

  function Part(w: Wires, j: nat): Oct {
    if j == 0 then w.o0 else if j == 1 then w.o1 else if j == 2 then w.o2 else w.o3
  }

  lemma {:induction false} WordAt(w: Wires, i: nat)
    requires i < 32
    ensures Word32(w)[i] == Wire(Part(w, i / 8), i % 8)
  {
    hide Wire;
    if i < 8 {
      assert Word32(w)[i] == Seq8(w.o0)[i];
    } else if i < 16 {
      assert Word32(w)[i] == Seq8(w.o1)[i - 8];
    } else if i < 24 {
      assert Word32(w)[i] == Seq8(w.o2)[i - 16];
    } else {
      assert Word32(w)[i] == Seq8(w.o3)[i - 24];
    }
  }

  lemma {:induction false} ByteSplit(v: nat, n: nat)
    requires n >= 8
    ensures ToBits(v, n)
         == Seq8(Oct(v % 2 == 1, v / 2 % 2 == 1, v / 4 % 2 == 1, v / 8 % 2 == 1,
                     v / 16 % 2 == 1, v / 32 % 2 == 1, v / 64 % 2 == 1, v / 128 % 2 == 1)) + ToBits(v / 256, n - 8)
  {
    hide ToBits;
    DigitSplit(v, n);
    DigitSplit(v / 16, n - 4);
    Sixteenths(v);
  }

  lemma {:induction false} Sixteenths(a: nat)
    ensures a / 16 / 2 == a / 32 && a / 16 / 4 == a / 64 && a / 16 / 8 == a / 128 && a / 16 / 16 == a / 256
  {
  }

  const TAPS: Wires := Wires(Oct(false, false, false, true, true, true, true, false),
                             Oct(true, true, false, true, true, true, false, false),
                             Oct(false, true, true, false, true, true, true, true),
                             Oct(false, true, false, false, false, false, false, true))

  lemma PolynomialBits()
    ensures Polynomial() == Word32(TAPS)
  {
    hide ToBits, Seq8;
    ByteSplit(0x82F6_3B78, 32);
    ByteSplit(0x82_F63B, 24);
    ByteSplit(0x82F6, 16);
    ByteSplit(0x82, 8);
    NoBits(0);
  }

  /** The terms of the Castagnoli polynomial below the 32nd, 0x1EDC6F41 in section 12.1 of RFC 3720: the
      reflected register holds the one with exponent `e` in bit 31 - e. */
  lemma {:induction false} PolynomialTerms(e: nat)
    requires e < 32
    ensures Polynomial()[31 - e] <==> e in {28, 27, 26, 25, 23, 22, 20, 19, 18, 14, 13, 11, 10, 9, 8, 6, 0}
  {
    hide Polynomial, Word32;
    PolynomialBits();
    WordAt(TAPS, 31 - e);
  }

  // ---- The register as a circuit, and a published check value ----

  /** One group shifted: the next group's lowest bit comes in, and the fed-back bit is added at the taps. */
  function ShiftOct(o: Oct, next: bool, back: bool, taps: Oct): Oct {
    Oct(o.b1 != (back && taps.b0), o.b2 != (back && taps.b1), o.b3 != (back && taps.b2), o.b4 != (back && taps.b3),
        o.b5 != (back && taps.b4), o.b6 != (back && taps.b5), o.b7 != (back && taps.b6), next != (back && taps.b7))
  }

  lemma {:induction false} ShiftOctAt(o: Oct, next: bool, back: bool, taps: Oct, k: nat)
    requires k < 8
    ensures Wire(ShiftOct(o, next, back, taps), k)
            ==> (if k < 7 then Wire(o, k + 1) else next) != (back && Wire(taps, k))
    ensures (if k < 7 then Wire(o, k + 1) else next) != (back && Wire(taps, k))
            ==> Wire(ShiftOct(o, next, back, taps), k)
  {
  }

  function Shift(w: Wires): Wires {
    var back := w.o0.b0;
    Wires(Oct(w.o0.b1, w.o0.b2, w.o0.b3, w.o0.b4 != back, w.o0.b5 != back, w.o0.b6 != back, w.o0.b7 != back, w.o1.b0),
          Oct(w.o1.b1 != back, w.o1.b2 != back, w.o1.b3, w.o1.b4 != back,
              w.o1.b5 != back, w.o1.b6 != back, w.o1.b7, w.o2.b0),
          Oct(w.o2.b1, w.o2.b2 != back, w.o2.b3 != back, w.o2.b4, w.o2.b5 != back,
              w.o2.b6 != back, w.o2.b7 != back, w.o3.b0 != back),
          Oct(w.o3.b1, w.o3.b2 != back, w.o3.b3, w.o3.b4, w.o3.b5, w.o3.b6, w.o3.b7, back))
  }

  lemma {:induction false} ShiftPart(w: Wires, j: nat)
    requires j < 4
    ensures Part(Shift(w), j)
         == ShiftOct(Part(w, j), if j < 3 then Part(w, j + 1).b0 else false, w.o0.b0, Part(TAPS, j))
  {
    if j == 0 { } else if j == 1 { } else if j == 2 { } else { }
  }

  lemma {:induction false} NextGroup(w: Wires, i: nat)
    requires i < 32
    ensures (if i < 31 then Word32(w)[i + 1] else false)
         == if i % 8 < 7 then Wire(Part(w, i / 8), i % 8 + 1) else i < 31 && Wire(Part(w, i / 8 + 1), 0)
  {
    hide Wire, Word32;
    if i < 31 { WordAt(w, i + 1); }
  }

  lemma {:induction false} LowestWire(o: Oct)
    ensures Wire(o, 0) == o.b0
  {
  }

  lemma {:induction false} ShiftAt(w: Wires, i: nat)
    requires i < 32
    ensures Word32(Shift(w))[i]
         == ((if i < 31 then Word32(w)[i + 1] else false) != (Word32(w)[0] && Word32(TAPS)[i]))
  {
    hide Word32, Wire, Shift;
    WordAt(Shift(w), i);
    WordAt(w, 0);
    WordAt(TAPS, i);
    NextGroup(w, i);
    var j := i / 8;
    var next := if j < 3 then Part(w, j + 1).b0 else false;
    ShiftPart(w, j);
    ShiftOctAt(Part(w, j), next, w.o0.b0, Part(TAPS, j), i % 8);
    LowestWire(w.o0);
    if j < 3 { LowestWire(Part(w, j + 1)); }
  }

  lemma {:induction false} ShiftIsStep(w: Wires)
    ensures Step(Word32(w)) == Word32(Shift(w))
  {
    hide Polynomial, Word32, Shift;
    PolynomialBits();
    forall i | 0 <= i < 32 ensures Step(Word32(w))[i] == Word32(Shift(w))[i] { ShiftAt(w, i); }
  }

  function AddOct(o: Oct, d: Oct): Oct {
    Oct(o.b0 != d.b0, o.b1 != d.b1, o.b2 != d.b2, o.b3 != d.b3,
        o.b4 != d.b4, o.b5 != d.b5, o.b6 != d.b6, o.b7 != d.b7)
  }

  /** The low byte with message bits added. */
  function Add(w: Wires, d: Oct): Wires {
    w.(o0 := AddOct(w.o0, d))
  }

  lemma {:induction false} AddAt(o: Oct, d: Oct, k: nat)
    requires k < 8
    ensures Wire(AddOct(o, d), k) ==> Wire(o, k) != Wire(d, k)
    ensures Wire(o, k) != Wire(d, k) ==> Wire(AddOct(o, d), k)
  {
  }

  lemma {:induction false} AddIsXor(w: Wires, d: Oct)
    ensures Xor(Word32(w), Pad(Seq8(d))) == Word32(Add(w, d))
  {
    hide Word32, Wire, AddOct;
    forall i | 0 <= i < 32 ensures Xor(Word32(w), Pad(Seq8(d)))[i] == Word32(Add(w, d))[i] {
      WordAt(w, i);
      WordAt(Add(w, d), i);
      if i < 8 {
        AddAt(w.o0, d, i);
        assert Pad(Seq8(d))[i] == Seq8(d)[i] == Wire(d, i);
      } else {
        assert !Pad(Seq8(d))[i];
      }
    }
  }

  function Shift8(w: Wires): Wires {
    Shift(Shift(Shift(Shift(Shift(Shift(Shift(Shift(w))))))))
  }

  lemma {:induction false} Shift8IsSteps(w: Wires)
    ensures Steps(Word32(w), 8) == Word32(Shift8(w))
  {
    hide Step, Steps, Shift, Word32;
    var a := w;
    StepsOnce(Word32(a), 8);
    ShiftIsStep(a);
    a := Shift(a);
    StepsOnce(Word32(a), 7);
    ShiftIsStep(a);
    a := Shift(a);
    StepsOnce(Word32(a), 6);
    ShiftIsStep(a);
    a := Shift(a);
    StepsOnce(Word32(a), 5);
    ShiftIsStep(a);
    a := Shift(a);
    StepsOnce(Word32(a), 4);
    ShiftIsStep(a);
    a := Shift(a);
    StepsOnce(Word32(a), 3);
    ShiftIsStep(a);
    a := Shift(a);
    StepsOnce(Word32(a), 2);
    ShiftIsStep(a);
    a := Shift(a);
    StepsOnce(Word32(a), 1);
    ShiftIsStep(a);
    a := Shift(a);
    StepsNone(Word32(a));
  }

  /** A byte goes into the register. */
  lemma {:induction false} FeedIsShift8(w: Wires, b: byte, d: Oct)
    requires ByteBits(b) == Seq8(d)
    ensures FeedBits(Word32(w), ByteBits(b)) == Word32(Shift8(Add(w, d)))
  {
    hide Steps, FeedBits, Word32, Shift8, Add, Xor, Pad;
    FeedIsSteps(Word32(w), ByteBits(b));
    AddIsXor(w, d);
    Shift8IsSteps(Add(w, d));
  }

  lemma {:induction false} ByteWires(b: byte)
    ensures ByteBits(b) == Seq8(Oct(b % 2 == 1, b / 2 % 2 == 1, b / 4 % 2 == 1, b / 8 % 2 == 1,
                                    b / 16 % 2 == 1, b / 32 % 2 == 1, b / 64 % 2 == 1, b / 128 % 2 == 1))
  {
    hide ToBits, Seq8;
    ByteSplit(b, 8);
    NoBits(b / 256);
  }

  const R0: Wires :=
    Wires(Oct(true, true, true, true, true, true, true, true),
          Oct(true, true, true, true, true, true, true, true),
          Oct(true, true, true, true, true, true, true, true),
          Oct(true, true, true, true, true, true, true, true))

  const R1: Wires :=
    Wires(Oct(false, false, true, true, true, false, false, false),
          Oct(false, true, true, false, false, true, true, false),
          Oct(false, true, false, true, false, false, false, false),
          Oct(true, true, true, true, false, true, true, false))

  const R2: Wires :=
    Wires(Oct(true, true, true, true, true, false, false, true),
          Oct(true, true, false, true, true, true, false, false),
          Oct(false, true, false, true, false, true, false, true),
          Oct(false, false, true, true, false, false, false, true))

  const R3: Wires :=
    Wires(Oct(true, false, true, true, false, false, true, false),
          Oct(false, false, false, false, true, false, true, true),
          Oct(false, false, true, false, false, false, false, true),
          Oct(true, true, true, true, false, true, true, true))

  const R4: Wires :=
    Wires(Oct(true, false, false, false, true, false, false, false),
          Oct(true, true, false, true, false, false, false, false),
          Oct(true, false, true, false, false, false, true, true),
          Oct(true, false, false, true, false, false, false, false))

  const R5: Wires :=
    Wires(Oct(false, true, false, true, false, false, true, true),
          Oct(false, false, true, true, true, false, true, true),
          Oct(false, true, true, true, false, true, false, false),
          Oct(true, true, true, false, false, true, true, true))

  const R6: Wires :=
    Wires(Oct(true, false, false, true, true, true, true, false),
          Oct(false, true, true, true, false, false, false, true),
          Oct(false, true, false, true, false, false, true, true),
          Oct(false, true, true, true, true, true, false, true))

  const R7: Wires :=
    Wires(Oct(true, false, true, false, true, false, false, false),
          Oct(false, false, false, true, false, true, true, false),
          Oct(true, false, true, true, true, true, false, true),
          Oct(true, false, true, true, false, true, true, true))

  const R8: Wires :=
    Wires(Oct(true, false, true, false, false, true, true, false),
          Oct(true, true, true, true, true, true, true, false),
          Oct(false, false, false, true, true, true, true, false),
          Oct(true, true, true, true, true, false, false, true))

  const R9: Wires :=
    Wires(Oct(false, false, true, true, true, true, true, false),
          Oct(true, false, true, true, false, true, true, false),
          Oct(true, false, false, true, true, true, true, true),
          Oct(false, false, true, true, true, false, false, false))

  lemma CheckByte0()
    ensures FeedBits(Word32(R0), ByteBits(49)) == Word32(R1)
  {
    hide FeedBits, Word32, ByteBits, Seq8;
    ByteWires(49);
    FeedIsShift8(R0, 49, Oct(true, false, false, false, true, true, false, false));
  }

  lemma CheckByte1()
    ensures FeedBits(Word32(R1), ByteBits(50)) == Word32(R2)
  {
    hide FeedBits, Word32, ByteBits, Seq8;
    ByteWires(50);
    FeedIsShift8(R1, 50, Oct(false, true, false, false, true, true, false, false));
  }

  lemma CheckByte2()
    ensures FeedBits(Word32(R2), ByteBits(51)) == Word32(R3)
  {
    hide FeedBits, Word32, ByteBits, Seq8;
    ByteWires(51);
    FeedIsShift8(R2, 51, Oct(true, true, false, false, true, true, false, false));
  }

  lemma CheckByte3()
    ensures FeedBits(Word32(R3), ByteBits(52)) == Word32(R4)
  {
    hide FeedBits, Word32, ByteBits, Seq8;
    ByteWires(52);
    FeedIsShift8(R3, 52, Oct(false, false, true, false, true, true, false, false));
  }

  lemma CheckByte4()
    ensures FeedBits(Word32(R4), ByteBits(53)) == Word32(R5)
  {
    hide FeedBits, Word32, ByteBits, Seq8;
    ByteWires(53);
    FeedIsShift8(R4, 53, Oct(true, false, true, false, true, true, false, false));
  }

  lemma CheckByte5()
    ensures FeedBits(Word32(R5), ByteBits(54)) == Word32(R6)
  {
    hide FeedBits, Word32, ByteBits, Seq8;
    ByteWires(54);
    FeedIsShift8(R5, 54, Oct(false, true, true, false, true, true, false, false));
  }

  lemma CheckByte6()
    ensures FeedBits(Word32(R6), ByteBits(55)) == Word32(R7)
  {
    hide FeedBits, Word32, ByteBits, Seq8;
    ByteWires(55);
    FeedIsShift8(R6, 55, Oct(true, true, true, false, true, true, false, false));
  }

  lemma CheckByte7()
    ensures FeedBits(Word32(R7), ByteBits(56)) == Word32(R8)
  {
    hide FeedBits, Word32, ByteBits, Seq8;
    ByteWires(56);
    FeedIsShift8(R7, 56, Oct(false, false, false, true, true, true, false, false));
  }

  lemma CheckByte8()
    ensures FeedBits(Word32(R8), ByteBits(57)) == Word32(R9)
  {
    hide FeedBits, Word32, ByteBits, Seq8;
    ByteWires(57);
    FeedIsShift8(R8, 57, Oct(true, false, false, true, true, true, false, false));
  }

  lemma CheckRegister()
    ensures Register(Word32(R0), [49, 50, 51, 52, 53, 54, 55, 56, 57]) == Word32(R9)
  {
    hide FeedBits, Register, ByteBits, Word32;
    CheckByte0();
    assert [49] + [50, 51, 52, 53, 54, 55, 56, 57] == [49, 50, 51, 52, 53, 54, 55, 56, 57];
    RegisterCons(Word32(R0), 49, [50, 51, 52, 53, 54, 55, 56, 57]);
    CheckByte1();
    assert [50] + [51, 52, 53, 54, 55, 56, 57] == [50, 51, 52, 53, 54, 55, 56, 57];
    RegisterCons(Word32(R1), 50, [51, 52, 53, 54, 55, 56, 57]);
    CheckByte2();
    assert [51] + [52, 53, 54, 55, 56, 57] == [51, 52, 53, 54, 55, 56, 57];
    RegisterCons(Word32(R2), 51, [52, 53, 54, 55, 56, 57]);
    CheckByte3();
    assert [52] + [53, 54, 55, 56, 57] == [52, 53, 54, 55, 56, 57];
    RegisterCons(Word32(R3), 52, [53, 54, 55, 56, 57]);
    CheckByte4();
    assert [53] + [54, 55, 56, 57] == [53, 54, 55, 56, 57];
    RegisterCons(Word32(R4), 53, [54, 55, 56, 57]);
    CheckByte5();
    assert [54] + [55, 56, 57] == [54, 55, 56, 57];
    RegisterCons(Word32(R5), 54, [55, 56, 57]);
    CheckByte6();
    assert [55] + [56, 57] == [55, 56, 57];
    RegisterCons(Word32(R6), 55, [56, 57]);
    CheckByte7();
    assert [56] + [57] == [56, 57];
    RegisterCons(Word32(R7), 56, [57]);
    CheckByte8();
    assert [57] + [] == [57];
    RegisterCons(Word32(R8), 57, []);
    RegisterNone(Word32(R9));
  }

  lemma {:induction false} RegisterNone(c: Word)
    ensures Register(c, []) == c
  {
  }

  const CHECK: Wires :=
    Wires(Oct(true, true, false, false, false, false, false, true),
          Oct(false, true, false, false, true, false, false, true),
          Oct(false, true, true, false, false, false, false, false),
          Oct(true, true, false, false, false, true, true, true))

  lemma CheckBits()
    ensures ToBits(0xE306_9283, 32) == Word32(CHECK)
  {
    hide ToBits, Seq8;
    ByteSplit(0xE306_9283, 32);
    ByteSplit(0xE3_0692, 24);
    ByteSplit(0xE306, 16);
    ByteSplit(0xE3, 8);
    NoBits(0);
  }

  lemma {:induction false} NumberOfWord(v: nat)
    requires v < TWO_32
    ensures FromBits(ToBits(v, 32)) == v
  {
    hide Pow2;
    Pow2Word();
    NumberRoundTrip(v, 32);
  }

  lemma Inversions()
    ensures Not(Zeros(32)) == Word32(R0) && Not(Word32(R9)) == ToBits(0xE306_9283, 32)
  {
    hide ToBits, Word32;
    CheckBits();
    forall i | 0 <= i < 32 ensures Not(Word32(R9))[i] == Word32(CHECK)[i] && Not(Zeros(32))[i] == Word32(R0)[i] {
      WordAt(R9, i);
      WordAt(CHECK, i);
      WordAt(R0, i);
    }
  }

  /** The published check value: the CRC32C of the digits "123456789". It pins the polynomial, the order of
      the bits and both inversions. */
  lemma CheckValue()
    ensures Crc32([49, 50, 51, 52, 53, 54, 55, 56, 57]) == 0xE306_9283
  {
    hide FromBits, ToBits, Register, Word32;
    CheckRegister();
    Inversions();
    NumberOfWord(0xE306_9283);
  }
}
