/** The value log: append-only segments of checksummed records, addressed by byte offset. */
module ValueLog {
  import opened Bytes
  import opened Coding
  import opened Pointers
  import opened Checksums

  datatype Record = Record(kind: byte, key: seq<byte>, value: seq<byte>)

  predicate WellFormed(r: Record) {
    13 + |r.key| + |r.value| < TWO_32
  }

  /** Type, key length, key, value length, value. */
  function Payload(r: Record): (b: seq<byte>)
    ensures |b| == 9 + |r.key| + |r.value|
  {
    [r.kind] + Fixed32(|r.key|) + r.key + Fixed32(|r.value|) + r.value
  }

  function Encode(r: Record, crc: Checksum): (b: seq<byte>)
    ensures |b| == 13 + |r.key| + |r.value|
  {
    Fixed32(crc(Payload(r))) + Payload(r)
  }

  function EncodeAll(rs: seq<Record>, crc: Checksum): seq<byte> {
    if rs == [] then [] else EncodeAll(rs[..|rs| - 1], crc) + Encode(rs[|rs| - 1], crc)
  }

  lemma {:induction false} EncodeAllConcat(a: seq<Record>, b: seq<Record>, crc: Checksum)
    ensures EncodeAll(a + b, crc) == EncodeAll(a, crc) + EncodeAll(b, crc)
  {
    hide Encode;
    if b == [] {
      assert a + b == a;
    } else {
      var n := |b| - 1;
      EncodeAllConcat(a, b[..n], crc);
      assert (a + b)[..|a + b| - 1] == a + b[..n];
    }
  }

  // ---- Reading one record ----

  datatype Result = Ok(key: seq<byte>, value: seq<byte>) | Corruption | Undefined

  /** A read through a pointer. The source computes the remaining length in 32 bits; where that wraps it
      goes on to read outside its buffer, and nothing is claimed. */
  function Read(file: seq<byte>, offset: nat, size: nat, crc: Checksum): Result {
    var header := ReadAt(file, offset, 9);
    if |header| < 9 then Corruption
    else
      var keyLen := DecodeFixed32(header[5..9]);
      if keyLen + 4 + size >= TWO_32 then Undefined
      else
        var data := ReadAt(file, offset + 9, keyLen + 4 + size);
        if |data| < keyLen + 4 + size then Corruption
        else if DecodeFixed32(data[keyLen..keyLen + 4]) != size then Corruption
        else if crc(header[4..9] + data) != DecodeFixed32(header[..4]) then Corruption
        else Ok(data[..keyLen], data[keyLen + 4..])
  }

  /** The pieces of a record that lies in a file. */
  lemma {:induction false} RecordLayout(r: Record, crc: Checksum)
    ensures var b := Encode(r, crc);
            && b[..4] == Fixed32(crc(Payload(r))) && b[4..] == Payload(r)
            && b[5..9] == Fixed32(|r.key|) && b[9..9 + |r.key|] == r.key
            && b[9 + |r.key|..13 + |r.key|] == Fixed32(|r.value|) && b[13 + |r.key|..] == r.value
  {
    hide Fixed32;
  }

  /** What a read makes of the bytes `c` of a record whose key length is `k`. */
  lemma {:induction false} ReadFields(pre: seq<byte>, c: seq<byte>, post: seq<byte>, k: nat, size: nat, crc: Checksum)
    requires |c| == 13 + k + size < TWO_32 && DecodeFixed32(c[5..9]) == k
    ensures Read(pre + c + post, |pre|, size, crc)
         == if DecodeFixed32(c[9 + k..13 + k]) != size || crc(c[4..]) != DecodeFixed32(c[..4]) then Corruption
            else Ok(c[9..9 + k], c[13 + k..])
  {
    hide DecodeFixed32, ReadAt;
    ReadAtMiddle(pre, c, post, 0, 9);
    ReadAtMiddle(pre, c, post, 9, |c| - 9);
    ReadPieces(c, k);
    assert c[0..9] == c[..9] && c[9..9 + (|c| - 9)] == c[9..] && |pre| + 0 == |pre|;
  }

  /** A record reads back through a pointer to it, wherever it lies and whatever the checksum. */
  lemma {:induction false} ReadBack(pre: seq<byte>, r: Record, post: seq<byte>, crc: Checksum)
    requires WellFormed(r)
    ensures Read(pre + Encode(r, crc) + post, |pre|, |r.value|, crc) == Ok(r.key, r.value)
  {
    hide DecodeFixed32, Fixed32, Payload, Encode, Read;
    RecordLayout(r, crc);
    Whole32(|r.key|);
    Whole32(|r.value|);
    Whole32(crc(Payload(r)));
    ReadFields(pre, Encode(r, crc), post, |r.key|, |r.value|, crc);
  }

  lemma {:induction false} ReadPieces(b: seq<byte>, k: nat)
    requires |b| >= 13 + k
    ensures b[..9][..4] == b[..4] && b[..9][5..9] == b[5..9] && b[..9][4..9] + b[9..] == b[4..]
    ensures b[9..][..k] == b[9..9 + k] && b[9..][k..k + 4] == b[9 + k..13 + k] && b[9..][k + 4..] == b[13 + k..]
  {
  }

  // ---- Corruption ----

  /** The file with one byte of the record at `pre` changed. */
  function Damaged(pre: seq<byte>, r: Record, post: seq<byte>, crc: Checksum, q: nat, x: byte): seq<byte>
    requires q < |Encode(r, crc)|
  {
    pre + Encode(r, crc)[q := x] + post
  }

  lemma {:induction false} DamagedFields(r: Record, crc: Checksum, q: nat, x: byte)
    requires q < |Encode(r, crc)| && Encode(r, crc)[q] != x && !(5 <= q < 9)
    ensures var b, c := Encode(r, crc), Encode(r, crc)[q := x];
            && c[5..9] == b[5..9]
            && (q < 4 ==> c[..4] != b[..4] && c[4..] == b[4..])
            && (q >= 4 ==> c[..4] == b[..4] && c[4..] == b[4..][q - 4 := x] && b[4..][q - 4] != x)
            && (9 + |r.key| <= q < 13 + |r.key| ==> c[9 + |r.key|..13 + |r.key|] != b[9 + |r.key|..13 + |r.key|])
            && (!(9 + |r.key| <= q < 13 + |r.key|) ==> c[9 + |r.key|..13 + |r.key|] == b[9 + |r.key|..13 + |r.key|])
  {
    hide Encode;
    var b, c := Encode(r, crc), Encode(r, crc)[q := x];
    if q < 4 { assert c[..4][q] != b[..4][q]; }
    var v := 9 + |r.key|;
    if v <= q < v + 4 { assert c[v..v + 4][q - v] != b[v..v + 4][q - v]; }
  }

  /** Any single changed byte of a record outside its key-length field makes a read fail. */
  lemma {:induction false} CorruptionIsDetected(pre: seq<byte>, r: Record, post: seq<byte>, crc: Checksum, q: nat,
                                                x: byte)
    requires WellFormed(r) && DetectsOneByte(crc)
    requires q < |Encode(r, crc)| && Encode(r, crc)[q] != x && !(5 <= q < 9)
    ensures Read(Damaged(pre, r, post, crc, q, x), |pre|, |r.value|, crc) == Corruption
  {
    hide DecodeFixed32, Fixed32, Payload, Encode, Read, DetectsOneByte;
    var b, c, k := Encode(r, crc), Encode(r, crc)[q := x], |r.key|;
    RecordLayout(r, crc);
    DamagedFields(r, crc, q, x);
    Whole32(|r.key|);
    Whole32(|r.value|);
    Whole32(crc(Payload(r)));
    ReadFields(pre, c, post, k, |r.value|, crc);
    if q < 4 {
      Fixed32Differs(c[..4], b[..4]);
    } else {
      ChecksumDiffers(crc, b[4..], q - 4, x);
    }
  }

  lemma {:induction false} Crc32cDetectsCorruption(pre: seq<byte>, r: Record, post: seq<byte>, q: nat, x: byte)
    requires WellFormed(r) && q < |Encode(r, Castagnoli)| && Encode(r, Castagnoli)[q] != x && !(5 <= q < 9)
    ensures Read(Damaged(pre, r, post, Castagnoli, q, x), |pre|, |r.value|, Castagnoli) == Corruption
  {
    hide Read, Encode;
    CastagnoliDetectsOneByte();
    CorruptionIsDetected(pre, r, post, Castagnoli, q, x);
  }

  /** A pointer whose size is not the record's is refused, whatever lies in the file. */
  lemma {:induction false} WrongSizeIsRefused(pre: seq<byte>, r: Record, post: seq<byte>, size: nat, crc: Checksum)
    requires WellFormed(r) && size != |r.value| && |r.key| + 4 + size < TWO_32
    ensures Read(pre + Encode(r, crc) + post, |pre|, size, crc) == Corruption
  {
    hide DecodeFixed32, Fixed32, Payload, Encode, ReadAt;
    var b, k := Encode(r, crc), |r.key|;
    var file := pre + b + post;
    RecordLayout(r, crc);
    Whole32(k);
    Whole32(|r.value|);
    ReadAtMiddle(pre, b, post, 0, 9);
    assert b[0..9] == b[..9] && |pre| + 0 == |pre|;
    assert b[..9][5..9] == b[5..9];
    var data := ReadAt(file, |pre| + 9, k + 4 + size);
    if |data| == k + 4 + size {
      assert file[|pre| + 9..][..k + 4 + size] == data by { ReadIsSlice(file, |pre| + 9, k + 4 + size); }
      assert data[k..k + 4] == file[|pre| + 9 + k..|pre| + 13 + k];
      assert file[|pre| + 9 + k..|pre| + 13 + k] == b[9 + k..13 + k];
    }
  }

  lemma {:induction false} ReadIsSlice(file: seq<byte>, offset: nat, n: nat)
    requires |ReadAt(file, offset, n)| == n && offset <= |file|
    ensures offset + n <= |file| && file[offset..][..n] == ReadAt(file, offset, n)
  {
  }

  /** A pointer to where no whole header lies is refused. */
  lemma {:induction false} TruncatedIsRefused(file: seq<byte>, offset: nat, size: nat, crc: Checksum)
    requires |file| < offset + 9
    ensures Read(file, offset, size, crc) == Corruption
  {
  }

  // ---- Scanning a segment ----

  datatype Parsed = Stop | Next(record: Record)

  /** The record at the front of what is left of a segment. */
  function ParseFirst(b: seq<byte>, crc: Checksum): (p: Parsed)
    ensures p.Next? ==> 13 + |p.record.key| + |p.record.value| <= |b|
  {
    if |b| < 9 then Stop
    else
      var k := DecodeFixed32(b[5..9]);
      if |b| < 13 + k then Stop
      else
        var v := DecodeFixed32(b[9 + k..13 + k]);
        if |b| < 13 + k + v then Stop
        else if crc(b[4..13 + k + v]) != DecodeFixed32(b[..4]) then Stop
        else Next(Record(b[4], b[9..9 + k], b[13 + k..13 + k + v]))
  }

  datatype Found = Found(record: Record, offset: nat)

  function SizeOf(r: Record): nat {
    RecordSize(r.key, r.value)
  }

  /** What a scan from `offset` on reports. */
  function ScanFrom(b: seq<byte>, offset: nat, crc: Checksum): seq<Found>
    decreases |b|
  {
    match ParseFirst(b, crc)
    case Stop => []
    case Next(r) => [Found(r, offset)] + ScanFrom(b[SizeOf(r)..], offset + SizeOf(r), crc)
  }

  /** The checksummed part of a record, piece by piece. */
  lemma {:induction false} PayloadPieces(b: seq<byte>, k: nat, v: nat)
    requires 13 + k + v <= |b|
    ensures b[4..13 + k + v] == [b[4]] + b[5..9] + b[9..9 + k] + b[9 + k..13 + k] + b[13 + k..13 + k + v]
  {
  }

  method ReadNext(file: seq<byte>, offset: nat, crc: Checksum) returns (p: Parsed)
    requires offset <= |file|
    ensures p == ParseFirst(file[offset..], crc)
  {
    hide DecodeFixed32;
    ghost var rest := file[offset..];
    if offset + 9 > |file| { return Stop; }
    Within(file, offset, 0, 4);
    Within(file, offset, 5, 9);
    var storedCrc := DecodeFixed32(file[offset..offset + 4]);
    var kind := file[offset + 4];
    var keyBytes := file[offset + 5..offset + 9];
    var keyLen := DecodeFixed32(keyBytes);
    if offset + 13 + keyLen > |file| { return Stop; }
    Within(file, offset, 9, 9 + keyLen);
    Within(file, offset, 9 + keyLen, 13 + keyLen);
    var key := file[offset + 9..offset + 9 + keyLen];
    var lenBytes := file[offset + 9 + keyLen..offset + 13 + keyLen];
    var valLen := DecodeFixed32(lenBytes);
    if offset + 13 + keyLen + valLen > |file| { return Stop; }
    Within(file, offset, 13 + keyLen, 13 + keyLen + valLen);
    var value := file[offset + 13 + keyLen..offset + 13 + keyLen + valLen];
    PayloadPieces(rest, keyLen, valLen);
    if crc([kind] + keyBytes + key + lenBytes + value) != storedCrc { return Stop; }
    return Next(Record(kind, key, value));
  }

  /** The scan loop: it hands every record and its offset to the callback, here a list. */
  method NewReader(file: seq<byte>, start: nat, crc: Checksum) returns (found: seq<Found>)
    ensures found == if start <= |file| then ScanFrom(file[start..], start, crc) else []
  {
    hide ParseFirst;
    found := [];
    if start > |file| { return; }
    var offset := start;
    while offset < |file|
      invariant start <= offset <= |file|
      invariant found + ScanFrom(file[offset..], offset, crc) == ScanFrom(file[start..], start, crc)
      decreases |file| - offset
    {
      var p := ReadNext(file, offset, crc);
      if p.Stop? { return; }
      assert file[offset..][SizeOf(p.record)..] == file[offset + SizeOf(p.record)..];
      found := found + [Found(p.record, offset)];
      offset := offset + SizeOf(p.record);
    }
    ScanNothing(offset, crc);
  }

  lemma {:induction false} ScanNothing(offset: nat, crc: Checksum)
    ensures ScanFrom([], offset, crc) == []
  {
  }

  lemma {:induction false} ParseWhole(r: Record, suffix: seq<byte>, crc: Checksum)
    requires WellFormed(r)
    ensures ParseFirst(Encode(r, crc) + suffix, crc) == Next(r)
  {
    hide DecodeFixed32, Fixed32;
    var k, v := |r.key|, |r.value|;
    var b := Encode(r, crc) + suffix;
    RecordLayout(r, crc);
    Whole32(k);
    Whole32(v);
    Whole32(crc(Payload(r)));
    assert b[..4] == Encode(r, crc)[..4] && b[5..9] == Encode(r, crc)[5..9];
    assert b[9 + k..13 + k] == Encode(r, crc)[9 + k..13 + k];
    assert b[4..13 + k + v] == Payload(r);
    assert b[4] == r.kind && b[9..9 + k] == r.key && b[13 + k..13 + k + v] == r.value;
  }

  lemma {:induction false} ParseCut(r: Record, n: nat, crc: Checksum)
    requires WellFormed(r) && n < |Encode(r, crc)|
    ensures ParseFirst(Encode(r, crc)[..n], crc) == Stop
  {
    hide DecodeFixed32, Fixed32, Encode, Payload;
    var b, k := Encode(r, crc)[..n], |r.key|;
    RecordLayout(r, crc);
    Whole32(k);
    Whole32(|r.value|);
    if n >= 9 {
      assert b[5..9] == Fixed32(k);
      if n >= 13 + k { assert b[9 + k..13 + k] == Fixed32(|r.value|); }
    }
  }

  /** A segment's records at their offsets. */
  function WithOffsets(rs: seq<Record>, offset: nat): seq<Found> {
    if rs == [] then [] else [Found(rs[0], offset)] + WithOffsets(rs[1..], offset + SizeOf(rs[0]))
  }

  /** How many of the records lie wholly within the first `n` bytes. */
  function WholeRecords(rs: seq<Record>, n: nat): (m: nat)
    ensures m <= |rs|
  {
    if rs == [] || n < SizeOf(rs[0]) then 0 else 1 + WholeRecords(rs[1..], n - SizeOf(rs[0]))
  }

  lemma {:induction false} EncodeAllCons(rs: seq<Record>, crc: Checksum)
    requires rs != []
    ensures EncodeAll(rs, crc) == Encode(rs[0], crc) + EncodeAll(rs[1..], crc)
  {
    EncodeAllConcat([rs[0]], rs[1..], crc);
    assert rs == [rs[0]] + rs[1..];
    assert [rs[0]][..0] == [];
  }

  /** A scan of any prefix of a segment reports exactly the whole records in it, in order, at their offsets. */
  lemma {:induction false} ScanIsExact(rs: seq<Record>, n: nat, offset: nat, crc: Checksum)
    requires (forall r :: r in rs ==> WellFormed(r)) && n <= |EncodeAll(rs, crc)|
    ensures ScanFrom(EncodeAll(rs, crc)[..n], offset, crc) == WithOffsets(rs[..WholeRecords(rs, n)], offset)
  {
    hide Encode, ParseFirst, EncodeAll;
    var b := EncodeAll(rs, crc)[..n];
    if rs == [] {
      assert EncodeAll(rs, crc) == [] by { NoRecords(crc); }
      assert b == [];
      ScanNothing(offset, crc);
    } else {
      assert rs[0] in rs;
      EncodeAllCons(rs, crc);
      var first, rest := Encode(rs[0], crc), EncodeAll(rs[1..], crc);
      if n < |first| {
        assert b == first[..n];
        ParseCut(rs[0], n, crc);
      } else {
        assert b == first + rest[..n - |first|];
        ParseWhole(rs[0], rest[..n - |first|], crc);
        assert b[|first|..] == rest[..n - |first|];
        ScanIsExact(rs[1..], n - |first|, offset + |first|, crc);
        var m := WholeRecords(rs[1..], n - |first|);
        assert rs[..1 + m][0] == rs[0] && rs[..1 + m][1..] == rs[1..][..m];
      }
    }
  }

  lemma {:induction false} NoRecords(crc: Checksum)
    ensures EncodeAll([], crc) == []
  {
  }

  // ---- A damaged segment ----

  /** A record with one byte changed outside its two length fields stops the scan. */
  lemma {:induction false} ParseDamaged(r: Record, suffix: seq<byte>, crc: Checksum, q: nat, x: byte)
    requires WellFormed(r) && DetectsOneByte(crc) && q < |Encode(r, crc)| && Encode(r, crc)[q] != x
    requires !(5 <= q < 9) && !(9 + |r.key| <= q < 13 + |r.key|)
    ensures ParseFirst(Encode(r, crc)[q := x] + suffix, crc) == Stop
  {
    hide DecodeFixed32, Fixed32, Payload, Encode, DetectsOneByte;
    var k, v := |r.key|, |r.value|;
    var b, c := Encode(r, crc), Encode(r, crc)[q := x];
    var all := c + suffix;
    RecordLayout(r, crc);
    DamagedFields(r, crc, q, x);
    Whole32(k);
    Whole32(v);
    Whole32(crc(Payload(r)));
    assert all[..4] == c[..4] && all[5..9] == c[5..9] && all[9 + k..13 + k] == c[9 + k..13 + k];
    assert all[4..13 + k + v] == c[4..];
    if q < 4 {
      Fixed32Differs(c[..4], b[..4]);
    } else {
      ChecksumDiffers(crc, b[4..], q - 4, x);
    }
  }

  lemma {:induction false} ScanConcat(rs: seq<Record>, rest: seq<byte>, offset: nat, crc: Checksum)
    requires forall r :: r in rs ==> WellFormed(r)
    ensures ScanFrom(EncodeAll(rs, crc) + rest, offset, crc)
         == WithOffsets(rs, offset) + ScanFrom(rest, offset + |EncodeAll(rs, crc)|, crc)
    decreases |rs|
  {
    hide Encode, ParseFirst, EncodeAll;
    if rs == [] {
      NoRecords(crc);
      assert EncodeAll(rs, crc) + rest == rest;
    } else {
      assert rs[0] in rs;
      EncodeAllCons(rs, crc);
      var first, tail := Encode(rs[0], crc), EncodeAll(rs[1..], crc);
      assert EncodeAll(rs, crc) + rest == first + (tail + rest);
      ParseWhole(rs[0], tail + rest, crc);
      assert (first + (tail + rest))[|first|..] == tail + rest;
      ScanConcat(rs[1..], rest, offset + |first|, crc);
    }
  }

  /** One changed byte of the i-th record, outside its length fields, makes a scan report exactly the first i. */
  lemma {:induction false} DamageStopsScan(rs: seq<Record>, i: nat, crc: Checksum, q: nat, x: byte)
    requires (forall r :: r in rs ==> WellFormed(r)) && DetectsOneByte(crc) && i < |rs|
    requires q < |Encode(rs[i], crc)| && Encode(rs[i], crc)[q] != x
    requires !(5 <= q < 9) && !(9 + |rs[i].key| <= q < 13 + |rs[i].key|)
    ensures ScanFrom(EncodeAll(rs[..i], crc) + Encode(rs[i], crc)[q := x] + EncodeAll(rs[i + 1..], crc), 0, crc)
         == WithOffsets(rs[..i], 0)
  {
    hide Encode, EncodeAll, ParseFirst, DetectsOneByte;
    var pre, c, post := EncodeAll(rs[..i], crc), Encode(rs[i], crc)[q := x], EncodeAll(rs[i + 1..], crc);
    assert rs[i] in rs;
    assert pre + c + post == pre + (c + post);
    ScanConcat(rs[..i], c + post, 0, crc);
    ParseDamaged(rs[i], post, crc, q, x);
    assert ScanFrom(c + post, 0 + |pre|, crc) == [];
  }
}
