/** The bytes of a sorted table: data block, sparse index, Bloom filter, footer. */
module TableFormat {
  import opened Bytes
  import opened Coding
  import opened Pointers

  datatype Entry = Entry(key: Key, kind: byte, sn: u64, ptr: Pointer)

  // ---- Entries ----

  function EncodeEntry(e: Entry): (b: seq<byte>)
    ensures |b| == |Varint(|e.key|)| + |e.key| + 25
  {
    Varint(|e.key|) + e.key + [e.kind] + Fixed64(e.sn) + EncodePointer(e.ptr)
  }

  datatype ParsedEntry = ParsedEntry(entry: Entry, size: nat)

  function ParseEntry(b: seq<byte>): (r: Option<ParsedEntry>)
    ensures r.Some? ==> 0 < r.value.size <= |b|
  {
    match DecodeVarint(b, W32)
    case Bad => None
    case Good(n, at) =>
      if |b| < at + n + 25 then None else Some(EntryFields(b, at, at + n))
  }

  lemma {:induction false} SequenceFits(b: seq<byte>)
    requires |b| == 8
    ensures DecodeFixed64(b) < TWO_64
  {
    Fixed64Inverse(b);
  }

  /** A read is a prefix of the rest of the file, and shorter than asked only at its end. */
  lemma {:induction false} ReadIsPrefix(file: seq<byte>, offset: nat, n: nat)
    requires offset <= |file|
    ensures var rest, buf := file[offset..], ReadAt(file, offset, n);
            |buf| == (if |rest| < n then |rest| else n) && buf == rest[..|buf|]
  {
  }

  /** The key length: the source tries 64 bytes first, then 128. */
  method ReadKeyLength(file: seq<byte>, offset: nat) returns (buf: seq<byte>, d: Decoded)
    requires offset <= |file|
    ensures d == DecodeVarint(file[offset..], W32)
    ensures |buf| <= |file[offset..]| && buf == file[offset..][..|buf|]
  {
    hide Varint, DecodeFrom, ReadAt;
    ghost var rest := file[offset..];
    ReadIsPrefix(file, offset, 64);
    ReadIsPrefix(file, offset, 128);
    buf := ReadAt(file, offset, 64);
    DecodeWindow(rest, |buf|, 0, 0, 0);
    d := ReadVarint(buf, W32);
    if d.Bad? {
      buf := ReadAt(file, offset, 128);
      DecodeWindow(rest, |buf|, 0, 0, 0);
      d := ReadVarint(buf, W32);
    }
  }

  /** Reads an entry: its key length first, then again if the first read was too short for the rest. */
  method ReadEntryAt(file: seq<byte>, offset: nat) returns (r: Option<ParsedEntry>)
    requires offset <= |file|
    ensures r == ParseEntry(file[offset..])
  {
    hide Varint, DecodePointer, DecodeFixed64, DecodeFrom, ReadAt, DecodeVarint;
    ghost var rest := file[offset..];
    var buf, d := ReadKeyLength(file, offset);
    if d.Bad? { return None; }
    var n, at := d.value, d.next;
    ReadIsPrefix(file, offset, at + n + 25);
    if |buf| < at + n + 25 { buf := ReadAt(file, offset, at + n + 25); }
    if |buf| < at + n + 25 { return None; }
    r := Some(EntryFields(buf, at, at + n));
    SameFields(buf, rest, at, at + n);
  }

  function EntryFields(b: seq<byte>, at: nat, q: nat): ParsedEntry
    requires at <= q && q + 25 <= |b|
  {
    SequenceFits(b[q + 1..q + 9]);
    ParsedEntry(Entry(b[at..q], b[q], DecodeFixed64(b[q + 1..q + 9]), DecodePointer(b[q + 9..])), q + 25)
  }

  lemma {:induction false} SameFields(a: seq<byte>, b: seq<byte>, at: nat, q: nat)
    requires at <= q && q + 25 <= |a| <= |b| && a == b[..|a|]
    ensures EntryFields(a, at, q) == EntryFields(b, at, q)
  {
    hide DecodePointer, DecodeFixed64;
    assert a[at..q] == b[at..q] && a[q + 1..q + 9] == b[q + 1..q + 9];
    PointerWindow(a[q + 9..], b[q + 9..]);
  }

  lemma {:induction false} PointerWindow(a: seq<byte>, b: seq<byte>)
    requires 16 <= |a| <= |b| && a == b[..|a|]
    ensures DecodePointer(a) == DecodePointer(b)
  {
    hide DecodeFixed32, DecodeFixed64;
    assert a[..4] == b[..4] && a[4..12] == b[4..12] && a[12..16] == b[12..16];
  }

  /** An entry reads back as itself, whatever follows. */
  lemma {:induction false} EntryRoundTrip(e: Entry, suffix: seq<byte>)
    requires |e.key| < TWO_32
    ensures ParseEntry(EncodeEntry(e) + suffix) == Some(ParsedEntry(e, |EncodeEntry(e)|))
  {
    hide Varint, DecodeVarint, DecodeFixed64, Fixed64, DecodePointer, EncodePointer;
    var b := EncodeEntry(e) + suffix;
    var v := Varint(|e.key|);
    var rest := e.key + [e.kind] + Fixed64(e.sn) + EncodePointer(e.ptr) + suffix;
    assert b == v + rest;
    VarintRoundTrip(|e.key|, rest, W32);
    var q := |v| + |e.key|;
    assert b[|v|..q] == e.key && b[q] == e.kind && b[q + 1..q + 9] == Fixed64(e.sn);
    assert b[q + 9..] == EncodePointer(e.ptr) + suffix;
    PointerRoundTrip(e.ptr, suffix);
    Whole64(e.sn);
  }

  // ---- The data block ----

  function DataBlock(es: seq<Entry>): seq<byte> {
    if es == [] then [] else DataBlock(es[..|es| - 1]) + EncodeEntry(es[|es| - 1])
  }

  /** Where the i-th entry starts. */
  function Offset(es: seq<Entry>, i: nat): nat
    requires i <= |es|
  {
    |DataBlock(es[..i])|
  }

  lemma {:induction false} DataBlockSnoc(es: seq<Entry>, e: Entry)
    ensures DataBlock(es + [e]) == DataBlock(es) + EncodeEntry(e)
  {
    assert (es + [e])[..|es|] == es;
  }

  lemma {:induction false} DataBlockSplit(es: seq<Entry>, i: nat) returns (tail: seq<byte>)
    requires i <= |es|
    ensures DataBlock(es) == DataBlock(es[..i]) + tail
  {
    hide EncodeEntry;
    if i == |es| {
      tail := [];
      assert es[..i] == es;
    } else {
      var n := |es| - 1;
      var t := DataBlockSplit(es[..n], i);
      assert es[..n][..i] == es[..i];
      tail := t + EncodeEntry(es[n]);
    }
  }

  /** Entry i lies at its offset. */
  lemma {:induction false} EntryAt(es: seq<Entry>, i: nat) returns (tail: seq<byte>)
    requires i < |es|
    ensures DataBlock(es) == DataBlock(es[..i]) + EncodeEntry(es[i]) + tail
    ensures Offset(es, i + 1) == Offset(es, i) + |EncodeEntry(es[i])|
  {
    hide EncodeEntry;
    tail := DataBlockSplit(es, i + 1);
    assert es[..i + 1] == es[..i] + [es[i]];
    DataBlockSnoc(es[..i], es[i]);
  }

  lemma {:induction false} OffsetsGrow(es: seq<Entry>, i: nat, j: nat)
    requires i < j <= |es|
    ensures Offset(es, i) < Offset(es, j)
  {
    hide EncodeEntry, DataBlock;
    var _ := EntryAt(es, j - 1);
    if i < j - 1 { OffsetsGrow(es, i, j - 1); }
  }

  /** Reading at an entry's offset in a file that starts with the data block yields the entry. */
  lemma {:induction false} ReadsEntry(file: seq<byte>, es: seq<Entry>, i: nat)
    requires DataBlock(es) <= file && i < |es| && |es[i].key| < TWO_32
    ensures Offset(es, i) < Offset(es, i + 1) <= |DataBlock(es)|
    ensures ParseEntry(file[Offset(es, i)..]) == Some(ParsedEntry(es[i], Offset(es, i + 1) - Offset(es, i)))
  {
    hide EncodeEntry, DataBlock, ParseEntry;
    var tail := EntryAt(es, i);
    var post := file[|DataBlock(es)|..];
    assert file == DataBlock(es) + post;
    assert file[Offset(es, i)..] == EncodeEntry(es[i]) + (tail + post);
    EntryRoundTrip(es[i], tail + post);
  }

  // ---- The sparse index ----

  datatype IndexEntry = IndexEntry(key: Key, offset: u64)

  function EncodeIndexEntry(x: IndexEntry): (b: seq<byte>)
    ensures |b| >= 9
  {
    Varint(|x.key|) + x.key + Fixed64(x.offset)
  }

  function EncodeIndex(xs: seq<IndexEntry>): seq<byte> {
    if xs == [] then [] else EncodeIndexEntry(xs[0]) + EncodeIndex(xs[1..])
  }

  datatype ParsedIndex = ParsedIndex(entry: IndexEntry, rest: seq<byte>)

  function ParseIndexEntry(b: seq<byte>): (r: Option<ParsedIndex>)
    ensures r.Some? ==> |r.value.rest| < |b|
  {
    match DecodeVarint(b, W32)
    case Bad => None
    case Good(n, at) =>
      if |b| < at + n + 8 then None
      else
        SequenceFits(b[at + n..at + n + 8]);
        Some(ParsedIndex(IndexEntry(b[at..at + n], DecodeFixed64(b[at + n..at + n + 8])), b[at + n + 8..]))
  }

  function ParseIndex(b: seq<byte>): Option<seq<IndexEntry>>
    decreases |b|
  {
    if b == [] then Some([])
    else
      match ParseIndexEntry(b)
      case None => None
      case Some(p) =>
        After([p.entry], ParseIndex(p.rest))
  }

  function After(index: seq<IndexEntry>, rest: Option<seq<IndexEntry>>): Option<seq<IndexEntry>> {
    if rest.None? then None else Some(index + rest.value)
  }

  lemma {:induction false} AfterNothing(rest: Option<seq<IndexEntry>>)
    ensures After([], rest) == rest
  {
    if rest.Some? { assert [] + rest.value == rest.value; }
  }

  lemma {:induction false} AfterOne(index: seq<IndexEntry>, x: IndexEntry, rest: Option<seq<IndexEntry>>)
    ensures After(index + [x], rest) == After(index, After([x], rest))
  {
    if rest.Some? { assert index + [x] + rest.value == index + ([x] + rest.value); }
  }

  /** The loading loop. */
  method LoadSparseIndex(buf: seq<byte>) returns (r: Option<seq<IndexEntry>>)
    ensures r == ParseIndex(buf)
  {
    hide ParseIndexEntry;
    var p := buf;
    var index: seq<IndexEntry> := [];
    AfterNothing(ParseIndex(buf));
    while p != []
      invariant ParseIndex(buf) == After(index, ParseIndex(p))
      decreases |p|
    {
      var next := ParseIndexEntry(p);
      if next.None? { return None; }
      AfterOne(index, next.value.entry, ParseIndex(next.value.rest));
      index, p := index + [next.value.entry], next.value.rest;
    }
    assert index + [] == index;
    r := Some(index);
  }

  lemma {:induction false} IndexEntryRoundTrip(x: IndexEntry, suffix: seq<byte>)
    requires |x.key| < TWO_32
    ensures ParseIndexEntry(EncodeIndexEntry(x) + suffix) == Some(ParsedIndex(x, suffix))
  {
    hide Varint, DecodeVarint, DecodeFixed64, Fixed64;
    var b := EncodeIndexEntry(x) + suffix;
    var v := Varint(|x.key|);
    assert b == v + (x.key + Fixed64(x.offset) + suffix);
    VarintRoundTrip(|x.key|, x.key + Fixed64(x.offset) + suffix, W32);
    var q := |v| + |x.key|;
    assert b[|v|..q] == x.key && b[q..q + 8] == Fixed64(x.offset) && b[q + 8..] == suffix;
    Whole64(x.offset);
  }

  lemma {:induction false} IndexRoundTrip(xs: seq<IndexEntry>)
    requires forall x :: x in xs ==> |x.key| < TWO_32
    ensures ParseIndex(EncodeIndex(xs)) == Some(xs)
  {
    hide EncodeIndexEntry, ParseIndexEntry;
    if xs == [] {
    } else {
      assert xs[0] in xs;
      IndexRoundTrip(xs[1..]);
      IndexEntryRoundTrip(xs[0], EncodeIndex(xs[1..]));
      assert xs == [xs[0]] + xs[1..];
    }
  }

  lemma {:induction false} EncodeIndexSnoc(xs: seq<IndexEntry>, x: IndexEntry)
    ensures EncodeIndex(xs + [x]) == EncodeIndex(xs) + EncodeIndexEntry(x)
  {
    hide EncodeIndexEntry;
    if xs == [] {
      assert xs + [x] == [x] && [x][1..] == [];
    } else {
      EncodeIndexSnoc(xs[1..], x);
      assert (xs + [x])[0] == xs[0] && (xs + [x])[1..] == xs[1..] + [x];
    }
  }

  // ---- The whole file ----

  const MAGIC: u64 := 0x5370_6C69_744B_5600

  function Footer(dataSize: nat, indexSize: nat, bloomSize: nat, count: nat): (b: seq<byte>)
    ensures |b| == 48
  {
    Fixed64(dataSize) + Fixed64(indexSize) + Fixed64(dataSize + indexSize) + Fixed64(bloomSize)
    + Fixed64(count) + Fixed64(MAGIC)
  }

  function TableFile(data: seq<byte>, index: seq<byte>, bloom: seq<byte>, count: nat): seq<byte> {
    data + index + bloom + Footer(|data|, |index|, |bloom|, count)
  }

  datatype Reader = Reader(file: seq<byte>, index: seq<IndexEntry>, bloom: seq<byte>, hashes: nat,
                           count: nat, dataEnd: nat)

  /** Opening: footer, index and filter; None is any error. */
  function OpenTable(file: seq<byte>): Option<Reader> {
    if |file| < 48 then None
    else
      var f := file[|file| - 48..];
      var dataSize, indexSize := DecodeFixed64(f[..8]), DecodeFixed64(f[8..16]);
      var bloomAt, bloomSize := DecodeFixed64(f[16..24]), DecodeFixed64(f[24..32]);
      if DecodeFixed64(f[40..48]) != MAGIC then None
      else
        var buf := ReadAt(file, dataSize, indexSize);
        match ParseIndex(buf)
        case None => None
        case Some(xs) =>
          var raw := ReadAt(file, bloomAt, bloomSize);
          if |raw| < 4 then Some(Reader(file, xs, [], 1, DecodeFixed64(f[32..40]), dataSize))
          else Some(Reader(file, xs, raw[4..], DecodeFixed32(raw[..4]), DecodeFixed64(f[32..40]), dataSize))
  }

  lemma {:induction false} FooterFields(d: u64, x: u64, b: u64, n: u64)
    requires d + x < TWO_64
    ensures var f := Footer(d, x, b, n);
            && DecodeFixed64(f[..8]) == d && DecodeFixed64(f[8..16]) == x && DecodeFixed64(f[16..24]) == d + x
            && DecodeFixed64(f[24..32]) == b && DecodeFixed64(f[32..40]) == n && DecodeFixed64(f[40..48]) == MAGIC
  {
    hide DecodeFixed64, Fixed64;
    var f := Footer(d, x, b, n);
    assert f[..8] == Fixed64(d) && f[8..16] == Fixed64(x) && f[16..24] == Fixed64(d + x);
    assert f[24..32] == Fixed64(b) && f[32..40] == Fixed64(n) && f[40..48] == Fixed64(MAGIC);
    Whole64(d);
    Whole64(x);
    Whole64(d + x);
    Whole64(b);
    Whole64(n);
    Whole64(MAGIC);
  }

  /** The bytes of the magic number: "\0VKtilpS", its text backwards. */
  lemma MagicBytes()
    ensures Fixed64(MAGIC) == [0x00, 0x56, 0x4B, 0x74, 0x69, 0x6C, 0x70, 0x53]
  {
    hide Fixed32, Fixed64;
    FixedBytes(MAGIC);
    FixedBytes(0x5370_6C69);
  }

  /** A file that does not end in the magic number does not open, and neither does one without a whole footer. */
  lemma {:induction false} WrongMagicIsRefused(file: seq<byte>)
    requires |file| < 48 || file[|file| - 8..] != Fixed64(MAGIC)
    ensures OpenTable(file) == None
  {
    hide Fixed64, DecodeFixed64, ParseIndex, ReadAt;
    if |file| >= 48 {
      assert file[|file| - 48..][40..48] == file[|file| - 8..];
      Fixed64Inverse(file[|file| - 8..]);
    }
  }

  /** Where the parts of an entry lie. */
  lemma {:induction false} EntryLayout(e: Entry)
    ensures var b := EncodeEntry(e);
            var n := |Varint(|e.key|)|;
            var q := n + |e.key|;
            && |b| == q + 25 && b[..n] == Varint(|e.key|) && b[n..q] == e.key && b[q] == e.kind
            && b[q + 1..q + 9] == Fixed64(e.sn) && b[q + 9..q + 13] == Fixed32(e.ptr.file)
            && b[q + 13..q + 21] == Fixed64(e.ptr.offset) && b[q + 21..] == Fixed32(e.ptr.size)
  {
    hide Varint, Fixed32, Fixed64;
  }

  /** Where the parts of a file lie, and what its footer says of them. */
  lemma {:induction false} FileLayout(data: seq<byte>, index: seq<byte>, bloom: seq<byte>, count: nat)
    ensures var file := TableFile(data, index, bloom, count);
            var p, q := |data| + |index|, |data| + |index| + |bloom|;
            && |file| == q + 48 && file[..|data|] == data && file[|data|..p] == index && file[p..q] == bloom
            && file[q..q + 8] == Fixed64(|data|) && file[q + 8..q + 16] == Fixed64(|index|)
            && file[q + 16..q + 24] == Fixed64(p) && file[q + 24..q + 32] == Fixed64(|bloom|)
            && file[q + 32..q + 40] == Fixed64(count) && file[q + 40..] == Fixed64(MAGIC)
  {
    hide Fixed64;
    var footer := Footer(|data|, |index|, |bloom|, count);
    var q := |data| + |index| + |bloom|;
    var file := TableFile(data, index, bloom, count);
    assert file == data + index + bloom + footer;
    forall i, j | 0 <= i <= j <= 48 ensures file[q + i..q + j] == footer[i..j] { }
    assert file[q + 0..q + 8] == footer[0..8] == Fixed64(|data|);
    assert file[q + 8..q + 16] == footer[8..16] == Fixed64(|index|);
    assert file[q + 16..q + 24] == footer[16..24] == Fixed64(|data| + |index|);
    assert file[q + 24..q + 32] == footer[24..32] == Fixed64(|bloom|);
    assert file[q + 32..q + 40] == footer[32..40] == Fixed64(count);
    assert file[q + 40..q + 48] == footer[40..48] == Fixed64(MAGIC);
  }

  /** A finished file opens with the index and the filter it was written with. */
  lemma {:induction false} OpenRoundTrip(data: seq<byte>, xs: seq<IndexEntry>, hashes: u32, bits: seq<byte>, count: u64)
    requires forall x :: x in xs ==> |x.key| < TWO_32
    requires |data| + |EncodeIndex(xs)| + |bits| + 4 < TWO_64
    ensures var file := TableFile(data, EncodeIndex(xs), Fixed32(hashes) + bits, count);
            OpenTable(file) == Some(Reader(file, xs, bits, hashes, count, |data|))
  {
    hide DecodeFixed64, Fixed64, DecodeFixed32, Fixed32, Footer, ParseIndex, EncodeIndex, ReadAt;
    var index, bloom := EncodeIndex(xs), Fixed32(hashes) + bits;
    var footer := Footer(|data|, |index|, |bloom|, count);
    var file := TableFile(data, index, bloom, count);
    FooterFields(|data|, |index|, |bloom|, count);
    assert file[|file| - 48..] == footer;
    assert file == data + index + (bloom + footer) && file == (data + index) + bloom + footer;
    ReadAtMiddle(data, index, bloom + footer, 0, |index|);
    ReadAtMiddle(data + index, bloom, footer, 0, |bloom|);
    assert |data| + 0 == |data| && index[0..|index|] == index && bloom[0..|bloom|] == bloom;
    IndexRoundTrip(xs);
    Whole32(hashes);
    assert bloom[..4] == Fixed32(hashes) && bloom[4..] == bits;
  }
}
