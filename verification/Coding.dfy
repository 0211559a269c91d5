/** Fixed-width and variable-length integers, and length-prefixed slices. */
module Coding {
  import opened Bytes

  const TWO_32: nat := 0x1_0000_0000
  const TWO_64: nat := 0x1_0000_0000_0000_0000

  // ---- Fixed width, little-endian ----

  /** The low `n` bytes of `v`, lowest first. */
  function LittleEndian(v: nat, n: nat): (b: seq<byte>)
    ensures |b| == n
  {
    if n == 0 then [] else [v % 256] + LittleEndian(v / 256, n - 1)
  }

  function FromLittleEndian(b: seq<byte>, n: nat): nat
    requires |b| >= n
  {
    if n == 0 then 0 else b[0] as nat + 256 * FromLittleEndian(b[1..], n - 1)
  }

  function Pow256(n: nat): (p: nat)
    ensures p >= 1
  {
    if n == 0 then 1 else 256 * Pow256(n - 1)
  }

  /** The lowest digit and the rest. */
  lemma {:induction false} Digit(lo: int, hi: int)
    requires 0 <= lo < 256
    ensures (lo + 256 * hi) % 256 == lo && (lo + 256 * hi) / 256 == hi
  {
  }

  lemma {:induction false} LittleEndianRoundTrip(v: nat, n: nat, suffix: seq<byte>)
    requires v < Pow256(n)
    ensures FromLittleEndian(LittleEndian(v, n) + suffix, n) == v
  {
    if n == 0 {
    } else {
      LittleEndianRoundTrip(v / 256, n - 1, suffix);
      assert (LittleEndian(v, n) + suffix)[1..] == LittleEndian(v / 256, n - 1) + suffix;
    }
  }

  lemma {:induction false} LittleEndianCons(lo: byte, hi: nat, n: nat)
    requires n > 0
    ensures LittleEndian(lo + 256 * hi, n) == [lo] + LittleEndian(hi, n - 1)
  {
    Digit(lo, hi);
  }

  lemma {:induction false} LittleEndianInverse(b: seq<byte>, n: nat)
    requires |b| == n
    ensures FromLittleEndian(b, n) < Pow256(n) && LittleEndian(FromLittleEndian(b, n), n) == b
  {
    hide LittleEndian;
    if n == 0 {
      LittleEndianNone();
    } else {
      LittleEndianInverse(b[1..], n - 1);
      LittleEndianCons(b[0], FromLittleEndian(b[1..], n - 1), n);
      assert b == [b[0]] + b[1..];
    }
  }

  lemma LittleEndianNone()
    ensures LittleEndian(0, 0) == []
  {
  }

  function Fixed32(v: nat): (b: seq<byte>)
    ensures |b| == 4
  {
    LittleEndian(v, 4)
  }

  function DecodeFixed32(b: seq<byte>): nat
    requires |b| >= 4
  {
    FromLittleEndian(b, 4)
  }

  function Fixed64(v: nat): (b: seq<byte>)
    ensures |b| == 8
  {
    LittleEndian(v, 8)
  }

  function DecodeFixed64(b: seq<byte>): nat
    requires |b| >= 8
  {
    FromLittleEndian(b, 8)
  }

  lemma {:induction false} Fixed32RoundTrip(v: nat, suffix: seq<byte>)
    requires v < TWO_32
    ensures DecodeFixed32(Fixed32(v) + suffix) == v
  {
    assert Pow256(4) == 256 * (256 * (256 * (256 * Pow256(0))));
    LittleEndianRoundTrip(v, 4, suffix);
  }

  /** Every four bytes are the encoding of what they decode to. */
  lemma {:induction false} Fixed32Inverse(b: seq<byte>)
    requires |b| == 4
    ensures DecodeFixed32(b) < TWO_32 && Fixed32(DecodeFixed32(b)) == b
  {
    assert Pow256(4) == 256 * (256 * (256 * (256 * Pow256(0))));
    LittleEndianInverse(b, 4);
  }

  lemma {:induction false} Fixed64RoundTrip(v: nat, suffix: seq<byte>)
    requires v < TWO_64
    ensures DecodeFixed64(Fixed64(v) + suffix) == v
  {
    assert Pow256(4) == 256 * (256 * (256 * (256 * Pow256(0))));
    assert Pow256(8) == 256 * (256 * (256 * (256 * Pow256(4))));
    LittleEndianRoundTrip(v, 8, suffix);
  }

  lemma {:induction false} Fixed64Inverse(b: seq<byte>)
    requires |b| == 8
    ensures DecodeFixed64(b) < TWO_64 && Fixed64(DecodeFixed64(b)) == b
  {
    assert Pow256(4) == 256 * (256 * (256 * (256 * Pow256(0))));
    assert Pow256(8) == 256 * (256 * (256 * (256 * Pow256(4))));
    LittleEndianInverse(b, 8);
  }

  /** The lowest byte comes first. */
  lemma {:induction false} FixedBytes(v: nat)
    ensures Fixed32(v) == [v % 256, v / 0x100 % 256, v / 0x1_0000 % 256, v / 0x100_0000 % 256]
    ensures Fixed64(v) == Fixed32(v) + Fixed32(v / TWO_32)
  {
    hide LittleEndian;
    FourBytes(v, 4);
    FourBytes(v, 8);
    FourBytes(v / TWO_32, 4);
    LittleEndianEmpty(v / TWO_32);
    LittleEndianEmpty(v / TWO_32 / TWO_32);
  }

  lemma {:induction false} FourBytes(v: nat, n: nat)
    requires n >= 4
    ensures LittleEndian(v, n)
         == [v % 256, v / 0x100 % 256, v / 0x1_0000 % 256, v / 0x100_0000 % 256] + LittleEndian(v / TWO_32, n - 4)
  {
    TwoBytes(v, n);
    TwoBytes(v / 0x1_0000, n - 2);
    hide LittleEndian;
    assert v / 0x1_0000 / 0x100 == v / 0x100_0000 && v / 0x1_0000 / 0x1_0000 == v / TWO_32;
  }

  lemma {:induction false} TwoBytes(v: nat, n: nat)
    requires n >= 2
    ensures LittleEndian(v, n) == [v % 256, v / 0x100 % 256] + LittleEndian(v / 0x1_0000, n - 2)
  {
    assert v / 256 / 256 == v / 0x1_0000;
    assert LittleEndian(v / 256, n - 1) == [v / 0x100 % 256] + LittleEndian(v / 256 / 256, n - 2);
  }

  lemma {:induction false} LittleEndianEmpty(v: nat)
    ensures LittleEndian(v, 0) == []
  {
  }

  // ---- Variable length ----

  /** Seven bits a byte, low bits first; the high bit says that more follow. */
  function Varint(v: nat): (b: seq<byte>)
    ensures |b| >= 1
  {
    if v < 128 then [v] else [v % 128 + 128] + Varint(v / 128)
  }

  method EncodeVarint(value: nat) returns (b: seq<byte>)
    ensures b == Varint(value)
  {
    b := [];
    var v := value;
    while v >= 128
      invariant b + Varint(v) == Varint(value)
      decreases v
    {
      assert Varint(v) == [v % 128 + 128] + Varint(v / 128);
      b := b + [v % 128 + 128];
      v := v / 128;
    }
    b := b + [v];
  }

  datatype Width = W32 | W64

  function Modulus(w: Width): nat {
    if w.W32? then TWO_32 else TWO_64
  }

  /** The last shift a decoder tries: at most 5 or 10 bytes are read. */
  function MaxShift(w: Width): nat {
    if w.W32? then 28 else 63
  }

  function Pow2(n: nat): (p: nat)
    ensures p >= 1
  {
    if n == 0 then 1 else 2 * Pow2(n - 1)
  }

  /** `v` shifted left. */
  function Shl(v: nat, shift: nat): nat {
    v * Pow2(shift)
  }

  datatype Decoded = Bad | Good(value: nat, next: nat)

  /** The decoder from position `at` on, with `result` gathered so far below bit `shift`. */
  function DecodeFrom(b: seq<byte>, at: nat, result: nat, shift: nat, w: Width): (d: Decoded)
    ensures d.Good? ==> at < d.next <= |b| && d.value < Modulus(w)
    decreases |b| - at
  {
    if at >= |b| || shift > MaxShift(w) then Bad
    else
      var r := (result + Shl(b[at] % 128, shift)) % Modulus(w);
      if b[at] < 128 then Good(r, at + 1) else DecodeFrom(b, at + 1, r, shift + 7, w)
  }

  function DecodeVarint(b: seq<byte>, w: Width): Decoded {
    DecodeFrom(b, 0, 0, 0, w)
  }

  /** The source's decoder: one byte taken at once, otherwise byte by byte. */
  method ReadVarint(b: seq<byte>, w: Width) returns (d: Decoded)
    ensures d == DecodeVarint(b, w)
  {
    if b == [] { return Bad; }
    if b[0] < 128 { return Good(b[0], 1); }
    var at, result: nat, shift := 0, 0, 0;
    while at < |b| && shift <= MaxShift(w)
      invariant at <= |b|
      invariant DecodeFrom(b, at, result, shift, w) == DecodeVarint(b, w)
      decreases |b| - at
    {
      result := (result + Shl(b[at] % 128, shift)) % Modulus(w);
      at := at + 1;
      if b[at - 1] < 128 { return Good(result, at); }
      shift := shift + 7;
    }
    return Bad;
  }

  lemma {:induction false} Pow2Seven(n: nat)
    ensures Pow2(n + 7) == 128 * Pow2(n)
  {
    assert Pow2(n + 7) == 2 * Pow2(n + 6) == 4 * Pow2(n + 5) == 8 * Pow2(n + 4);
    assert Pow2(n + 4) == 2 * Pow2(n + 3) == 4 * Pow2(n + 2) == 8 * Pow2(n + 1);
  }

  lemma {:induction false} Pow2Grows(m: nat, n: nat)
    requires m <= n
    ensures Pow2(m) <= Pow2(n)
  {
    if m < n { Pow2Grows(m, n - 1); }
  }

  lemma Pow2Limits()
    ensures Pow2(35) > TWO_32 && Pow2(70) > TWO_64
  {
    Pow2Seven(0);
    Pow2Seven(7);
    Pow2Seven(14);
    Pow2Seven(21);
    Pow2Seven(28);
    Pow2Seven(35);
    Pow2Seven(42);
    Pow2Seven(49);
    Pow2Seven(56);
    Pow2Seven(63);
  }

  lemma {:induction false} SplitProduct(lo: nat, hi: nat, p: nat)
    ensures (lo + 128 * hi) * p == lo * p + hi * (128 * p)
    ensures lo * p >= 0 && hi * (128 * p) >= 0
  {
  }

  /** Seven more bits move from the value to the result. */
  lemma {:induction false} MoveSevenBits(v: nat, shift: nat, result: nat, m: nat)
    requires result + Shl(v, shift) < m
    ensures result + Shl(v % 128, shift) + Shl(v / 128, shift + 7) == result + Shl(v, shift)
    ensures (result + Shl(v % 128, shift)) % m == result + Shl(v % 128, shift)
  {
    hide Pow2;
    Pow2Seven(shift);
    SplitProduct(v % 128, v / 128, Pow2(shift));
    SmallMod(result + Shl(v % 128, shift), m);
  }

  lemma {:induction false} SmallMod(x: nat, m: nat)
    requires x < m
    ensures x % m == x
  {
  }

  lemma {:induction false} DecodeOnce(b: seq<byte>, at: nat, result: nat, shift: nat, w: Width)
    requires at < |b| && shift <= MaxShift(w)
    ensures DecodeFrom(b, at, result, shift, w)
         == (var r := (result + Shl(b[at] % 128, shift)) % Modulus(w);
             if b[at] < 128 then Good(r, at + 1) else DecodeFrom(b, at + 1, r, shift + 7, w))
  {
    hide Shl, Modulus, MaxShift;
  }

  lemma {:induction false} DecodeFromEncoded(prefix: seq<byte>, v: nat, suffix: seq<byte>, result: nat, shift: nat,
                                             w: Width)
    requires shift % 7 == 0 && (shift == 0 || v >= 1)
    requires result + Shl(v, shift) < Modulus(w)
    ensures DecodeFrom(prefix + Varint(v) + suffix, |prefix|, result, shift, w)
         == Good(result + Shl(v, shift), |prefix| + |Varint(v)|)
    decreases v
  {
    hide Shl, Modulus, MaxShift, DecodeFrom;
    var b := prefix + Varint(v) + suffix;
    var at := |prefix|;
    ShiftAllowed(v, result, shift, w);
    assert b[at] == Varint(v)[0];
    DecodeOnce(b, at, result, shift, w);
    MoveSevenBits(v, shift, result, Modulus(w));
    if v >= 128 {
      var prefix' := prefix + [v % 128 + 128];
      assert b == prefix' + Varint(v / 128) + suffix;
      DecodeFromEncoded(prefix', v / 128, suffix, result + Shl(v % 128, shift), shift + 7, w);
    }
  }

  lemma {:induction false} GrowsBy(v: nat, p: nat)
    requires v >= 1
    ensures v * p >= p
  {
  }

  /** A value at `shift` that the width can hold means that the decoder still reads there. */
  lemma {:induction false} ShiftAllowed(v: nat, result: nat, shift: nat, w: Width)
    requires shift % 7 == 0 && (shift == 0 || v >= 1)
    requires result + Shl(v, shift) < Modulus(w)
    ensures shift <= MaxShift(w)
  {
    hide Pow2;
    Pow2Limits();
    if shift > 0 { GrowsBy(v, Pow2(shift)); }
    if shift > MaxShift(w) { Pow2Grows(if w.W32? then 35 else 70, shift); }
  }

  /** Every byte but the last says that more follow. */
  lemma {:induction false} VarintContinues(v: nat, i: nat)
    requires i < |Varint(v)|
    ensures Varint(v)[i] >= 128 <==> i < |Varint(v)| - 1
    decreases v
  {
    if v < 128 || i == 0 { } else { VarintContinues(v / 128, i - 1); }
  }

  /** The lowest seven bits come first: 300 is 0x02 above 0x2C. */
  lemma VarintExample()
    ensures Varint(300) == [0xAC, 0x02]
  {
    assert Varint(300) == [300 % 128 + 128] + Varint(300 / 128);
  }

  /** The bytes that a decoder of this width may read. */
  function MaxBytes(w: Width): nat {
    if w.W32? then 5 else 10
  }

  lemma {:induction false} RefusedFrom(b: seq<byte>, at: nat, result: nat, w: Width)
    requires at <= MaxBytes(w)
    ensures DecodeFrom(b, at, result, 7 * at, w).Bad? <==> forall i :: at <= i < |b| && i < MaxBytes(w) ==> b[i] >= 128
    decreases MaxBytes(w) - at
  {
    hide Shl;
    if at >= |b| || at == MaxBytes(w) {
    } else {
      RefusedFrom(b, at + 1, (result + Shl(b[at] % 128, 7 * at)) % Modulus(w), w);
    }
  }

  /** A decoder refuses exactly the bytes that do not end in time: cut off, or more than 5 or 10 long. */
  lemma {:induction false} VarintRefusedIff(b: seq<byte>, w: Width)
    ensures DecodeVarint(b, w).Bad? <==> forall i :: 0 <= i < |b| && i < (if w.W32? then 5 else 10) ==> b[i] >= 128
  {
    hide DecodeFrom;
    RefusedFrom(b, 0, 0, w);
  }

  /** Decoding undoes encoding, whatever follows, and consumes exactly the encoded bytes. */
  lemma {:induction false} VarintRoundTrip(v: nat, suffix: seq<byte>, w: Width)
    requires v < Modulus(w)
    ensures DecodeVarint(Varint(v) + suffix, w) == Good(v, |Varint(v)|)
  {
    assert Shl(v, 0) == v;
    DecodeFromEncoded([], v, suffix, 0, 0, w);
    assert [] + Varint(v) + suffix == Varint(v) + suffix;
  }

  /** A 32-bit decode looks at no more than five bytes. */
  lemma {:induction false} DecodeWindow(b: seq<byte>, m: nat, at: nat, result: nat, shift: nat)
    requires m <= |b| && (m >= 5 || m == |b|) && shift == 7 * at && at <= m
    ensures DecodeFrom(b[..m], at, result, shift, W32) == DecodeFrom(b, at, result, shift, W32)
    decreases |b| - at
  {
    hide Shl;
    if at < m && shift <= 28 && b[at] >= 128 {
      DecodeWindow(b, m, at + 1, (result + Shl(b[at] % 128, shift)) % Modulus(W32), shift + 7);
    }
  }

  lemma {:induction false} VarintLength(v: nat, n: nat)
    requires n >= 1 && v < Pow2(7 * n)
    ensures |Varint(v)| <= n
  {
    if v >= 128 {
      if n == 1 {
        Pow2Seven(0);
      } else {
        Pow2Seven(7 * (n - 1));
        VarintLength(v / 128, n - 1);
      }
    }
  }

  /** At most 5 bytes for 32 bits and 10 for 64. */
  lemma {:induction false} VarintFitsBuffer(v: nat, w: Width)
    requires v < Modulus(w)
    ensures |Varint(v)| <= if w.W32? then 5 else 10
  {
    Pow2Limits();
    VarintLength(v, if w.W32? then 5 else 10);
  }

  // ---- Bits, lowest first ----

  function ToBits(v: nat, n: nat): (b: seq<bool>)
    ensures |b| == n
  {
    if n == 0 then [] else [v % 2 == 1] + ToBits(v / 2, n - 1)
  }

  function FromBits(b: seq<bool>): (v: nat)
    ensures v < Pow2(|b|)
  {
    if b == [] then 0 else (if b[0] then 1 else 0) + 2 * FromBits(b[1..])
  }

  lemma {:induction false} BitsRoundTrip(b: seq<bool>)
    ensures ToBits(FromBits(b), |b|) == b
  {
    if b == [] {
    } else {
      BitsRoundTrip(b[1..]);
      assert b == [b[0]] + b[1..];
    }
  }

  lemma {:induction false} NumberRoundTrip(v: nat, n: nat)
    requires v < Pow2(n)
    ensures FromBits(ToBits(v, n)) == v
  {
    if n == 0 {
    } else {
      NumberRoundTrip(v / 2, n - 1);
      assert ToBits(v, n)[1..] == ToBits(v / 2, n - 1);
    }
  }

  lemma Pow2Eight()
    ensures Pow2(8) == 256
  {
    assert Pow2(8) == 2 * Pow2(7) == 4 * Pow2(6) == 8 * Pow2(5) == 16 * Pow2(4);
    assert Pow2(4) == 2 * Pow2(3) == 4 * Pow2(2) == 8 * Pow2(1) == 16 * Pow2(0);
  }

  // ---- Length-prefixed slices ----

  function PrefixedSlice(s: seq<byte>): seq<byte> {
    Varint(|s|) + s
  }

  datatype Slice = NoSlice | Taken(slice: seq<byte>, rest: seq<byte>)

  function GetPrefixedSlice(input: seq<byte>): Slice {
    match DecodeVarint(input, W32)
    case Bad => NoSlice
    case Good(n, next) =>
      if |input| - next < n then NoSlice
      else Taken(input[next..next + n], input[next + n..])
  }

  lemma {:induction false} PrefixedSliceRoundTrip(s: seq<byte>, suffix: seq<byte>)
    requires |s| < TWO_32
    ensures GetPrefixedSlice(PrefixedSlice(s) + suffix) == Taken(s, suffix)
  {
    VarintRoundTrip(|s|, s + suffix, W32);
    var b := PrefixedSlice(s) + suffix;
    assert b == Varint(|s|) + (s + suffix);
    assert b[|Varint(|s|)|..] == s + suffix;
  }

  function PrefixedSlices(list: seq<seq<byte>>): seq<byte> {
    if list == [] then [] else PrefixedSlice(list[0]) + PrefixedSlices(list[1..])
  }

  /** Reads slices until the input is used up; None when it is malformed. */
  function GetPrefixedSlices(input: seq<byte>): Option<seq<seq<byte>>>
    decreases |input|
  {
    if input == [] then Some([])
    else
      match GetPrefixedSlice(input)
      case NoSlice => None
      case Taken(s, rest) =>
        match GetPrefixedSlices(rest)
        case None => None
        case Some(list) => Some([s] + list)
  }

  /** Any list of slices reads back as itself. */
  lemma {:induction false} PrefixedSlicesRoundTrip(list: seq<seq<byte>>)
    requires forall s :: s in list ==> |s| < TWO_32
    ensures GetPrefixedSlices(PrefixedSlices(list)) == Some(list)
  {
    if list == [] {
    } else {
      PrefixedSlicesRoundTrip(list[1..]);
      assert list[0] in list;
      PrefixedSliceRoundTrip(list[0], PrefixedSlices(list[1..]));
      assert list == [list[0]] + list[1..];
    }
  }
}
