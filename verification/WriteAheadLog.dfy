/** The write-ahead log: checksummed records and recovery up to the first damaged one. */
module WriteAheadLog {
  import opened Bytes
  import opened Coding
  import opened Pointers
  import opened Checksums

  // ---- Records ----

  const KIND_VALUE: byte := 1
  const KIND_DELETION: byte := 2

  datatype Record = Record(kind: byte, sn: u64, key: seq<byte>, ptr: Pointer)

  const NO_POINTER: Pointer := Pointer(0, 0, 0)

  /** What the log is asked to write: lengths fit their fields, and only values have a pointer. */
  predicate WellFormed(r: Record) {
    |r.key| + 29 < TWO_32 && (r.kind != KIND_VALUE ==> r.ptr == NO_POINTER)
  }

  /** Type, sequence number, key, and for a value its pointer. */
  function Inner(r: Record): (b: seq<byte>)
    ensures |b| == 13 + |r.key| + if r.kind == KIND_VALUE then 16 else 0
  {
    [r.kind] + Fixed64(r.sn) + Fixed32(|r.key|) + r.key + (if r.kind == KIND_VALUE then EncodePointer(r.ptr) else [])
  }

  /** The checksummed part: the length, then the content. */
  function Framed(inner: seq<byte>): (b: seq<byte>)
    ensures |b| == 4 + |inner|
  {
    Fixed32(|inner|) + inner
  }

  function Encode(r: Record, crc: Checksum): (b: seq<byte>)
    ensures |b| == 8 + |Inner(r)|
  {
    Fixed32(crc(Framed(Inner(r)))) + Framed(Inner(r))
  }

  function EncodeAll(rs: seq<Record>, crc: Checksum): seq<byte> {
    if rs == [] then [] else Encode(rs[0], crc) + EncodeAll(rs[1..], crc)
  }

  // ---- Recovery ----

  datatype Parsed = Damaged | Read(record: Record, size: nat)

  /** The content of a frame. */
  function ParseInner(b: seq<byte>): Option<Record> {
    if |b| < 13 then None
    else
      var n := DecodeFixed32(b[9..13]);
      if |b| < 13 + n then None
      else
        FixedFits(b[..4], b[1..9], b[9..13]);
        var key := b[13..13 + n];
        if b[0] == KIND_VALUE then
          if |b| < 13 + n + 16 then None
          else Some(Record(b[0], DecodeFixed64(b[1..9]), key, DecodePointer(b[13 + n..])))
        else Some(Record(b[0], DecodeFixed64(b[1..9]), key, NO_POINTER))
  }

  /** The record at the front of what is left of a log. */
  function ParseFirst(b: seq<byte>, crc: Checksum): (p: Parsed)
    ensures p.Read? ==> 0 < p.size <= |b|
  {
    if |b| < 8 then Damaged
    else
      var n := DecodeFixed32(b[4..8]);
      if n == 0 || |b| < 8 + n then Damaged
      else
        var inner := b[8..8 + n];
        if crc(Framed(inner)) != DecodeFixed32(b[..4]) then Damaged
        else
          match ParseInner(inner)
          case None => Damaged
          case Some(r) => Read(r, 8 + n)
  }

  /** Everything up to the first damage. */
  function RecoverAll(b: seq<byte>, crc: Checksum): seq<Record>
    decreases |b|
  {
    match ParseFirst(b, crc)
    case Damaged => []
    case Read(r, size) => [r] + RecoverAll(b[size..], crc)
  }

  method ReadRecord(file: seq<byte>, start: nat, crc: Checksum) returns (p: Parsed)
    requires start <= |file|
    ensures p == ParseFirst(file[start..], crc)
  {
    hide DecodeFixed32;
    if start + 8 > |file| { return Damaged; }
    Within(file, start, 0, 4);
    Within(file, start, 4, 8);
    var storedCrc := DecodeFixed32(file[start..start + 4]);
    var len := DecodeFixed32(file[start + 4..start + 8]);
    if len == 0 || start + 8 + len > |file| { return Damaged; }
    Within(file, start, 8, 8 + len);
    var inner := file[start + 8..start + 8 + len];
    var computed := crc(Framed(inner));
    if computed != storedCrc { return Damaged; }
    var r := ParseInner(inner);
    if r.None? { return Damaged; }
    return Read(r.value, 8 + len);
  }

  /** The recovery loop. */
  method Recover(file: seq<byte>, crc: Checksum) returns (records: seq<Record>)
    ensures records == RecoverAll(file, crc)
  {
    hide ParseFirst;
    records := [];
    var offset := 0;
    assert file[0..] == file;
    while offset < |file|
      invariant offset <= |file|
      invariant records + RecoverAll(file[offset..], crc) == RecoverAll(file, crc)
      decreases |file| - offset
    {
      var p := ReadRecord(file, offset, crc);
      if p.Damaged? { return; }
      assert file[offset..][p.size..] == file[offset + p.size..];
      records := records + [p.record];
      offset := offset + p.size;
    }
    NothingLeft(crc);
  }

  lemma {:induction false} NothingLeft(crc: Checksum)
    ensures RecoverAll([], crc) == []
  {
  }

  // ---- The torn tail ----

  lemma {:induction false} ParseInnerWhole(r: Record)
    requires WellFormed(r)
    ensures ParseInner(Inner(r)) == Some(r)
  {
    hide DecodeFixed32, DecodeFixed64, Fixed32, Fixed64, DecodePointer, EncodePointer;
    var b := Inner(r);
    assert b[0] == r.kind && b[1..9] == Fixed64(r.sn) && b[9..13] == Fixed32(|r.key|);
    Whole64(r.sn);
    Whole32(|r.key|);
    assert b[13..13 + |r.key|] == r.key;
    if r.kind == KIND_VALUE {
      assert b[13 + |r.key|..] == EncodePointer(r.ptr) + [];
      PointerRoundTrip(r.ptr, []);
    }
  }

  /** A whole record at the front is read back, whatever follows and whatever the checksum. */
  lemma {:induction false} ParseWhole(r: Record, suffix: seq<byte>, crc: Checksum)
    requires WellFormed(r)
    ensures ParseFirst(Encode(r, crc) + suffix, crc) == Read(r, |Encode(r, crc)|)
  {
    hide DecodeFixed32, Fixed32, Inner, ParseInner;
    var inner := Inner(r);
    var b := Encode(r, crc) + suffix;
    assert b[..4] == Fixed32(crc(Framed(inner))) && b[4..8] == Fixed32(|inner|) && b[8..8 + |inner|] == inner;
    Whole32(crc(Framed(inner)));
    Whole32(|inner|);
    ParseInnerWhole(r);
  }

  /** A cut record is noticed by its length alone. */
  lemma {:induction false} ParseCut(r: Record, n: nat, crc: Checksum)
    requires WellFormed(r) && n < |Encode(r, crc)|
    ensures ParseFirst(Encode(r, crc)[..n], crc) == Damaged
  {
    hide DecodeFixed32, Fixed32, Inner, ParseInner;
    var b := Encode(r, crc)[..n];
    if n >= 8 {
      assert b[4..8] == Fixed32(|Inner(r)|);
      Whole32(|Inner(r)|);
    }
  }

  /** How many of the records lie wholly within the first `n` bytes. */
  function WholeRecords(rs: seq<Record>, n: nat, crc: Checksum): (m: nat)
    ensures m <= |rs|
  {
    if rs == [] || n < |Encode(rs[0], crc)| then 0
    else 1 + WholeRecords(rs[1..], n - |Encode(rs[0], crc)|, crc)
  }

  /** It is the largest number of records whose encoding fits in `n` bytes. */
  lemma {:induction false} WholeRecordsIsLargest(rs: seq<Record>, n: nat, crc: Checksum, k: nat)
    requires k <= |rs|
    ensures k <= WholeRecords(rs, n, crc) <==> |EncodeAll(rs[..k], crc)| <= n
  {
    hide Encode;
    if k == 0 {
    } else {
      assert rs[..k][0] == rs[0] && rs[..k][1..] == rs[1..][..k - 1];
      if |Encode(rs[0], crc)| <= n {
        WholeRecordsIsLargest(rs[1..], n - |Encode(rs[0], crc)|, crc, k - 1);
      }
    }
  }

  /** THE TORN-TAIL THEOREM. From any byte prefix of a log, recovery returns exactly the records wholly
      contained in it, in order and with all their fields. */
  lemma {:induction false} TornTail(rs: seq<Record>, n: nat, crc: Checksum)
    requires (forall r :: r in rs ==> WellFormed(r)) && n <= |EncodeAll(rs, crc)|
    ensures RecoverAll(EncodeAll(rs, crc)[..n], crc) == rs[..WholeRecords(rs, n, crc)]
  {
    hide Encode, ParseFirst;
    if rs == [] {
      assert EncodeAll(rs, crc)[..n] == [];
      ParseNothing(crc);
    } else {
      assert rs[0] in rs;
      var first, rest := Encode(rs[0], crc), EncodeAll(rs[1..], crc);
      var b := EncodeAll(rs, crc)[..n];
      if n < |first| {
        assert b == first[..n];
        ParseCut(rs[0], n, crc);
      } else {
        assert b == first + rest[..n - |first|];
        ParseWhole(rs[0], rest[..n - |first|], crc);
        assert b[|first|..] == rest[..n - |first|];
        TornTail(rs[1..], n - |first|, crc);
        var m := WholeRecords(rs[1..], n - |first|, crc);
        assert [rs[0]] + rs[1..][..m] == rs[..1 + m];
      }
    }
  }

  lemma {:induction false} ParseNothing(crc: Checksum)
    ensures ParseFirst([], crc) == Damaged
  {
  }

  /** An undamaged log reads back as itself. */
  lemma {:induction false} LogRoundTrip(rs: seq<Record>, crc: Checksum)
    requires forall r :: r in rs ==> WellFormed(r)
    ensures RecoverAll(EncodeAll(rs, crc), crc) == rs
  {
    hide RecoverAll, EncodeAll, WholeRecords;
    var b := EncodeAll(rs, crc);
    TornTail(rs, |b|, crc);
    assert b[..|b|] == b && rs[..|rs|] == rs;
    WholeRecordsIsLargest(rs, |b|, crc, |rs|);
  }

  // ---- Damage ----

  /** The fields of a record in its bytes. */
  lemma {:induction false} RecordLayout(r: Record, crc: Checksum)
    ensures var b := Encode(r, crc);
            && b[..4] == Fixed32(crc(b[4..])) && b[4..8] == Fixed32(|b| - 8) && b[8] == r.kind
            && b[9..17] == Fixed64(r.sn) && b[17..21] == Fixed32(|r.key|) && b[21..21 + |r.key|] == r.key
            && b[21 + |r.key|..]
               == (if r.kind == 1 then Fixed32(r.ptr.file) + Fixed64(r.ptr.offset) + Fixed32(r.ptr.size) else [])
  {
    hide Fixed32, Fixed64;
    var b := Encode(r, crc);
    assert b[4..] == Framed(Inner(r));
  }

  /** The bytes of a record with one of them changed, its length field intact. */
  lemma {:induction false} DamagedFields(b: seq<byte>, q: nat, x: byte)
    requires q < |b| && |b| > 8 && b[q] != x && !(4 <= q < 8)
    ensures var c := b[q := x];
            && c[4..8] == b[4..8] && c[4..] == c[4..8] + c[8..]
            && (q < 4 ==> c[..4] != b[..4] && c[4..] == b[4..])
            && (q >= 8 ==> c[..4] == b[..4] && c[4..] == b[4..][q - 4 := x] && b[4..][q - 4] != x)
  {
    var c := b[q := x];
    if q < 4 { assert c[..4][q] != b[..4][q]; }
  }

  /** A record with one byte changed outside its length field stops the recovery. */
  lemma {:induction false} ParseDamaged(r: Record, suffix: seq<byte>, crc: Checksum, q: nat, x: byte)
    requires WellFormed(r) && DetectsOneByte(crc) && q < |Encode(r, crc)| && Encode(r, crc)[q] != x && !(4 <= q < 8)
    ensures ParseFirst(Encode(r, crc)[q := x] + suffix, crc) == Damaged
  {
    hide DecodeFixed32, Fixed32, Fixed64, Inner, ParseInner, Encode, DetectsOneByte;
    var b, c := Encode(r, crc), Encode(r, crc)[q := x];
    var all, n := c + suffix, |b| - 8;
    RecordLayout(r, crc);
    DamagedFields(b, q, x);
    Whole32(n);
    Whole32(crc(b[4..]));
    assert all[..4] == c[..4] && all[4..8] == c[4..8] && all[8..8 + n] == c[8..];
    assert Framed(c[8..]) == c[4..];
    if q < 4 {
      Fixed32Differs(c[..4], b[..4]);
    } else {
      ChecksumDiffers(crc, b[4..], q - 4, x);
    }
  }

  lemma {:induction false} RecoverNext(r: Record, rest: seq<byte>, crc: Checksum)
    requires WellFormed(r)
    ensures RecoverAll(Encode(r, crc) + rest, crc) == [r] + RecoverAll(rest, crc)
  {
    hide Encode, ParseFirst;
    ParseWhole(r, rest, crc);
    assert (Encode(r, crc) + rest)[|Encode(r, crc)|..] == rest;
  }

  lemma {:induction false} RecoverConcat(rs: seq<Record>, rest: seq<byte>, crc: Checksum)
    requires forall r :: r in rs ==> WellFormed(r)
    ensures RecoverAll(EncodeAll(rs, crc) + rest, crc) == rs + RecoverAll(rest, crc)
  {
    hide Encode, RecoverAll;
    if rs == [] {
      assert EncodeAll(rs, crc) + rest == rest;
    } else {
      assert rs[0] in rs;
      var first, tail := Encode(rs[0], crc), EncodeAll(rs[1..], crc);
      assert EncodeAll(rs, crc) + rest == first + (tail + rest);
      RecoverNext(rs[0], tail + rest, crc);
      RecoverConcat(rs[1..], rest, crc);
      assert rs == [rs[0]] + rs[1..];
    }
  }

  /** DAMAGE IS DETECTED. With a checksum that notices one changed byte, changing any byte of the i-th
      record outside its length field makes recovery return exactly the records before it. */
  lemma {:induction false} DamageStopsRecovery(rs: seq<Record>, i: nat, crc: Checksum, q: nat, x: byte)
    requires (forall r :: r in rs ==> WellFormed(r)) && DetectsOneByte(crc) && i < |rs|
    requires q < |Encode(rs[i], crc)| && Encode(rs[i], crc)[q] != x && !(4 <= q < 8)
    ensures RecoverAll(EncodeAll(rs[..i], crc) + Encode(rs[i], crc)[q := x] + EncodeAll(rs[i + 1..], crc), crc)
         == rs[..i]
  {
    hide Encode, EncodeAll, ParseFirst, DetectsOneByte;
    var pre, c, post := EncodeAll(rs[..i], crc), Encode(rs[i], crc)[q := x], EncodeAll(rs[i + 1..], crc);
    assert rs[i] in rs;
    assert pre + c + post == pre + (c + post);
    RecoverConcat(rs[..i], c + post, crc);
    ParseDamaged(rs[i], post, crc, q, x);
    assert RecoverAll(c + post, crc) == [];
  }

  /** The same for the checksum the log uses, with no assumption left. */
  lemma {:induction false} Crc32cStopsRecovery(rs: seq<Record>, i: nat, q: nat, x: byte)
    requires (forall r :: r in rs ==> WellFormed(r)) && i < |rs|
    requires q < |Encode(rs[i], Castagnoli)| && Encode(rs[i], Castagnoli)[q] != x && !(4 <= q < 8)
    ensures RecoverAll(EncodeAll(rs[..i], Castagnoli) + Encode(rs[i], Castagnoli)[q := x]
                       + EncodeAll(rs[i + 1..], Castagnoli), Castagnoli)
         == rs[..i]
  {
    hide Encode, EncodeAll, RecoverAll, DetectsOneByte, Castagnoli;
    CastagnoliDetectsOneByte();
    DamageStopsRecovery(rs, i, Castagnoli, q, x);
  }

  // ---- Writing ----

  lemma {:induction false} EncodeAllSnoc(rs: seq<Record>, r: Record, crc: Checksum)
    ensures EncodeAll(rs + [r], crc) == EncodeAll(rs, crc) + Encode(r, crc)
  {
    hide Encode;
    if rs == [] {
      assert rs + [r] == [r];
      assert [r][1..] == [];
    } else {
      EncodeAllSnoc(rs[1..], r, crc);
      assert (rs + [r])[0] == rs[0] && (rs + [r])[1..] == rs[1..] + [r];
    }
  }

  /** The log file that is being written. */
  class Log {
    const crc: Checksum
    var file: seq<byte>
    ghost var records: seq<Record>

    ghost predicate Valid()
      reads this
    {
      file == EncodeAll(records, crc) && forall r :: r in records ==> WellFormed(r)
    }

    constructor (crc: Checksum)
      ensures Valid() && records == [] && this.crc == crc
    {
      this.crc := crc;
      file, records := [], [];
    }

    method AddRecord(r: Record)
      requires Valid() && WellFormed(r)
      modifies this
      ensures Valid() && records == old(records) + [r]
      ensures file == old(file) + Encode(r, crc)
    {
      EncodeAllSnoc(records, r, crc);
      var inner := [r.kind] + Fixed64(r.sn) + Fixed32(|r.key|) + r.key;
      if r.kind == KIND_VALUE { inner := inner + EncodePointer(r.ptr); }
      assert inner == Inner(r);
      var checksummed := Fixed32(|inner|) + inner;
      file := file + (Fixed32(crc(checksummed)) + checksummed);
      records := records + [r];
    }
  }
}
