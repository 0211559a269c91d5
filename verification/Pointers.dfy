/** Machine-width numbers, value pointers, and reading a file at a position. */
module Pointers {
  import opened Bytes
  import opened Coding

  type u32 = n: nat | n < TWO_32
  type u64 = n: nat | n < TWO_64

  /** Any checksum will do. */
  type Checksum = seq<byte> -> u32

  // ---- Value pointers ----

  datatype Pointer = Pointer(file: u32, offset: u64, size: u32)

  function EncodePointer(p: Pointer): (b: seq<byte>)
    ensures |b| == 16
  {
    Fixed32(p.file) + Fixed64(p.offset) + Fixed32(p.size)
  }

  function DecodePointer(b: seq<byte>): Pointer
    requires |b| >= 16
  {
    FixedFits(b[..4], b[4..12], b[12..16]);
    Pointer(DecodeFixed32(b[..4]), DecodeFixed64(b[4..12]), DecodeFixed32(b[12..16]))
  }

  lemma {:induction false} FixedFits(a: seq<byte>, b: seq<byte>, c: seq<byte>)
    requires |a| == 4 && |b| == 8 && |c| == 4
    ensures DecodeFixed32(a) < TWO_32 && DecodeFixed64(b) < TWO_64 && DecodeFixed32(c) < TWO_32
  {
    Fixed32Inverse(a);
    Fixed64Inverse(b);
    Fixed32Inverse(c);
  }

  /** A pointer reads back as itself, whatever follows it. */
  lemma {:induction false} PointerRoundTrip(p: Pointer, suffix: seq<byte>)
    ensures DecodePointer(EncodePointer(p) + suffix) == p
  {
    hide DecodeFixed32, DecodeFixed64, Fixed32, Fixed64;
    var b := EncodePointer(p) + suffix;
    assert b[..4] == Fixed32(p.file) && b[4..12] == Fixed64(p.offset) && b[12..16] == Fixed32(p.size);
    Whole32(p.file);
    Whole64(p.offset);
    Whole32(p.size);
  }

  lemma {:induction false} Whole32(v: u32)
    ensures DecodeFixed32(Fixed32(v)) == v
  {
    Fixed32RoundTrip(v, []);
    assert Fixed32(v) + [] == Fixed32(v);
  }

  lemma {:induction false} Whole64(v: u64)
    ensures DecodeFixed64(Fixed64(v)) == v
  {
    Fixed64RoundTrip(v, []);
    assert Fixed64(v) + [] == Fixed64(v);
  }

  // ---- Files ----

  /** A positioned read: fewer bytes at the end of the file, none beyond it. */
  function ReadAt(file: seq<byte>, offset: nat, n: nat): (r: seq<byte>)
    ensures |r| <= n
  {
    if offset >= |file| then []
    else if offset + n <= |file| then file[offset..offset + n]
    else file[offset..]
  }

  lemma {:induction false} ReadAtMiddle(pre: seq<byte>, mid: seq<byte>, post: seq<byte>, i: nat, n: nat)
    requires i + n <= |mid|
    ensures ReadAt(pre + mid + post, |pre| + i, n) == mid[i..i + n]
  {
    var b := pre + mid + post;
    if n > 0 {
      assert b[|pre| + i..|pre| + i + n] == mid[i..i + n];
    }
  }

  /** A slice of the rest of a file is a slice of the file. */
  lemma {:induction false} Within(file: seq<byte>, offset: nat, a: nat, b: nat)
    requires a <= b && offset + b <= |file|
    ensures file[offset..][a..b] == file[offset + a..offset + b]
  {
  }

  /** Bytes of a value-log record: checksum, type, two lengths, key and value. */
  function RecordSize(key: seq<byte>, value: seq<byte>): nat {
    4 + 1 + 4 + |key| + 4 + |value|
  }
}
