/** How the engine's values lie in files: its log in the write-ahead log, its tables in sorted tables,
    its value pointers as byte offsets. */
module Layers {
  import opened Bytes
  import opened Coding
  import opened Pointers
  import opened Lsm
  import E = Engine
  import W = WriteAheadLog
  import T = TableFormat
  import S = SSTables
  import V = ValueLog
  import M = MergeLoop

  // ---- Segments ----

  /** The bytes that torn records left, position by position; at whole records nothing. */
  type Gaps = seq<seq<byte>>

  function RecordOf(slot: E.Slot): V.Record
    requires slot.Rec?
  {
    V.Record(W.KIND_VALUE, slot.key, slot.value)
  }

  function SlotImage(slot: E.Slot, gap: seq<byte>, crc: Checksum): seq<byte> {
    if slot.Rec? then V.Encode(RecordOf(slot), crc) else gap
  }

  function SlotSize(slot: E.Slot, gap: seq<byte>): nat {
    if slot.Rec? then RecordSize(slot.key, slot.value) else |gap|
  }

  /** A segment's file: whole records, and between them what crashes left. */
  function Image(seg: seq<E.Slot>, gaps: Gaps, crc: Checksum): seq<byte>
    requires |gaps| == |seg|
  {
    if seg == [] then []
    else
      var n := |seg| - 1;
      Image(seg[..n], gaps[..n], crc) + SlotImage(seg[n], gaps[n], crc)
  }

  /** Where position `i` starts. */
  function OffsetOf(seg: seq<E.Slot>, gaps: Gaps, i: nat): nat
    requires |gaps| == |seg| && i <= |seg|
  {
    if i == 0 then 0 else OffsetOf(seg, gaps, i - 1) + SlotSize(seg[i - 1], gaps[i - 1])
  }

  /** Positions that exist keep their offsets when the segment grows. */
  lemma {:induction false} OffsetsStay(seg: seq<E.Slot>, gaps: Gaps, seg': seq<E.Slot>, gaps': Gaps, i: nat)
    requires |gaps| == |seg| && |gaps'| == |seg'| && seg <= seg' && gaps <= gaps' && i <= |seg|
    ensures OffsetOf(seg', gaps', i) == OffsetOf(seg, gaps, i)
  {
    if i == 0 {
    } else {
      OffsetsStay(seg, gaps, seg', gaps', i - 1);
    }
  }

  /** The file splits at a position's offset. */
  lemma {:induction false} ImageSplit(seg: seq<E.Slot>, gaps: Gaps, i: nat, crc: Checksum)
    returns (pre: seq<byte>, post: seq<byte>)
    requires |gaps| == |seg| && i < |seg|
    ensures Image(seg, gaps, crc) == pre + SlotImage(seg[i], gaps[i], crc) + post
    ensures |pre| == OffsetOf(seg, gaps, i)
  {
    hide SlotImage;
    var n := |seg| - 1;
    if i == n {
      pre, post := Image(seg[..n], gaps[..n], crc), [];
      ImageSize(seg[..n], gaps[..n], crc);
      OffsetsStay(seg[..n], gaps[..n], seg, gaps, n);
    } else {
      var tail;
      pre, tail := ImageSplit(seg[..n], gaps[..n], i, crc);
      OffsetsStay(seg[..n], gaps[..n], seg, gaps, i);
      post := tail + SlotImage(seg[n], gaps[n], crc);
    }
  }

  lemma {:induction false} ImageSize(seg: seq<E.Slot>, gaps: Gaps, crc: Checksum)
    requires |gaps| == |seg|
    ensures |Image(seg, gaps, crc)| == OffsetOf(seg, gaps, |seg|)
  {
    if seg == [] {
    } else {
      var n := |seg| - 1;
      ImageSize(seg[..n], gaps[..n], crc);
      OffsetsStay(seg[..n], gaps[..n], seg, gaps, n);
    }
  }

  /** An append to the file is an append to the segment. */
  lemma {:induction false} ImageSnoc(seg: seq<E.Slot>, gaps: Gaps, slot: E.Slot, gap: seq<byte>, crc: Checksum)
    requires |gaps| == |seg|
    ensures Image(seg + [slot], gaps + [gap], crc) == Image(seg, gaps, crc) + SlotImage(slot, gap, crc)
  {
    hide SlotImage;
    assert (seg + [slot])[..|seg|] == seg && (gaps + [gap])[..|gaps|] == gaps;
  }

  lemma {:induction false} OffsetsGrow(seg: seq<E.Slot>, gaps: Gaps, i: nat, j: nat)
    requires |gaps| == |seg| && i < j <= |seg| && seg[i].Rec?
    ensures OffsetOf(seg, gaps, i) < OffsetOf(seg, gaps, j)
  {
    if i < j - 1 { OffsetsGrow(seg, gaps, i, j - 1); }
  }

  lemma {:induction false} OffsetsOrdered(seg: seq<E.Slot>, gaps: Gaps, i: nat, j: nat)
    requires |gaps| == |seg| && i <= j <= |seg|
    ensures OffsetOf(seg, gaps, i) <= OffsetOf(seg, gaps, j)
  {
    if i == j {
    } else {
      OffsetsOrdered(seg, gaps, i, j - 1);
    }
  }

  /** Comparing byte offsets is comparing positions, tears or not, as the collector's liveness test needs. */
  lemma {:induction false} OffsetNamesPosition(seg: seq<E.Slot>, gaps: Gaps, i: nat, j: nat)
    requires |gaps| == |seg| && i < |seg| && j < |seg| && seg[i].Rec? && seg[j].Rec?
    ensures OffsetOf(seg, gaps, i) == OffsetOf(seg, gaps, j) <==> i == j
  {
    hide OffsetOf;
    if i < j { OffsetsGrow(seg, gaps, i, j); } else if j < i { OffsetsGrow(seg, gaps, j, i); }
  }

  /** Reading a segment's file at a position's offset yields the engine's record, whatever tears surround it. */
  lemma {:induction false} SlotReadsBack(seg: seq<E.Slot>, gaps: Gaps, i: nat, crc: Checksum)
    requires |gaps| == |seg| && i < |seg| && seg[i].Rec? && RecordSize(seg[i].key, seg[i].value) < TWO_32
    ensures V.Read(Image(seg, gaps, crc), OffsetOf(seg, gaps, i), |seg[i].value|, crc)
         == V.Ok(seg[i].key, seg[i].value)
  {
    hide V.Read, V.Encode, Image, OffsetOf;
    var pre, post := ImageSplit(seg, gaps, i, crc);
    V.ReadBack(pre, RecordOf(seg[i]), post, crc);
  }

  // ---- Value pointers ----

  /** Files, offsets and sizes that fit their fields. */
  predicate Addressable(v: E.VLog, gaps: map<nat, Gaps>) {
    forall f :: f in v ==>
      && f < TWO_32 && f in gaps && |gaps[f]| == |v[f]| && OffsetOf(v[f], gaps[f], |v[f]|) < TWO_64
      && forall i :: 0 <= i < |v[f]| && v[f][i].Rec? ==> RecordSize(v[f][i].key, v[f][i].value) < TWO_32
  }

  lemma {:induction false} AddressFits(v: E.VLog, gaps: map<nat, Gaps>, p: Ptr)
    requires Addressable(v, gaps) && E.Readable(v, p)
    ensures OffsetOf(v[p.file], gaps[p.file], p.index) < TWO_64
    ensures |v[p.file][p.index].value| < TWO_32
  {
    hide OffsetOf;
    OffsetsGrow(v[p.file], gaps[p.file], p.index, |v[p.file]|);
  }

  /** The byte pointer of a record. */
  function Address(v: E.VLog, gaps: map<nat, Gaps>, p: Ptr): Pointer
    requires Addressable(v, gaps) && E.Readable(v, p)
  {
    AddressFits(v, gaps, p);
    Pointer(p.file, OffsetOf(v[p.file], gaps[p.file], p.index), |v[p.file][p.index].value|)
  }

  /** The last of the first `n` positions that is a record starting at the offset. */
  function PositionAt(seg: seq<E.Slot>, gaps: Gaps, offset: nat, n: nat): nat
    requires |gaps| == |seg| && n <= |seg|
  {
    if n == 0 then 0
    else if seg[n - 1].Rec? && OffsetOf(seg, gaps, n - 1) == offset then n - 1
    else PositionAt(seg, gaps, offset, n - 1)
  }

  lemma {:induction false} PositionAtOffset(seg: seq<E.Slot>, gaps: Gaps, i: nat, n: nat)
    requires |gaps| == |seg| && i < n <= |seg| && seg[i].Rec?
    ensures PositionAt(seg, gaps, OffsetOf(seg, gaps, i), n) == i
  {
    hide OffsetOf;
    if i < n - 1 {
      if seg[n - 1].Rec? { OffsetNamesPosition(seg, gaps, i, n - 1); }
      PositionAtOffset(seg, gaps, i, n - 1);
    }
  }

  /** The translation and its inverse as functions on all pointers. */
  function ToPointer(v: E.VLog, gaps: map<nat, Gaps>): Ptr -> Pointer
    requires Addressable(v, gaps)
  {
    (p: Ptr) => if E.Readable(v, p) then Address(v, gaps, p) else W.NO_POINTER
  }

  function FromPointer(v: E.VLog, gaps: map<nat, Gaps>): Pointer -> Ptr
    requires Addressable(v, gaps)
  {
    (q: Pointer) =>
      Ptr(q.file, if q.file in v then PositionAt(v[q.file], gaps[q.file], q.offset, |v[q.file]|) else 0)
  }

  /** A byte pointer names its record. */
  lemma {:induction false} PointerNamesRecord(v: E.VLog, gaps: map<nat, Gaps>, p: Ptr)
    requires Addressable(v, gaps) && E.Readable(v, p)
    ensures FromPointer(v, gaps)(ToPointer(v, gaps)(p)) == p
  {
    hide OffsetOf, PositionAt;
    PositionAtOffset(v[p.file], gaps[p.file], p.index, |v[p.file]|);
  }

  // ---- The log ----

  /** A logged record, with value pointers translated by `addr`. */
  function ToRecord(x: KV, addr: Ptr -> Pointer): W.Record
    requires x.entry.sn < TWO_64
  {
    match x.entry
    case Put(sn, p) => W.Record(W.KIND_VALUE, sn, x.key, addr(p))
    case Del(sn) => W.Record(W.KIND_DELETION, sn, x.key, W.NO_POINTER)
  }

  /** What replay makes of a record: a put, a deletion, or nothing. */
  function FromRecord(r: W.Record, back: Pointer -> Ptr): seq<KV> {
    if r.kind == W.KIND_VALUE then [KV(r.key, Put(r.sn, back(r.ptr)))]
    else if r.kind == W.KIND_DELETION then [KV(r.key, Del(r.sn))]
    else []
  }

  predicate Loggable(x: KV, addr: Ptr -> Pointer, back: Pointer -> Ptr) {
    |x.key| + 29 < TWO_32 && (x.entry.Put? ==> back(addr(x.entry.ptr)) == x.entry.ptr)
  }

  predicate Numbered(log: seq<KV>) {
    forall i :: 0 <= i < |log| ==> log[i].entry.sn < TWO_64
  }

  predicate AllLoggable(log: seq<KV>, addr: Ptr -> Pointer, back: Pointer -> Ptr) {
    forall i :: 0 <= i < |log| ==> Loggable(log[i], addr, back)
  }

  function ToRecords(log: seq<KV>, addr: Ptr -> Pointer): (rs: seq<W.Record>)
    requires Numbered(log)
    ensures |rs| == |log| && forall i :: 0 <= i < |log| ==> rs[i] == ToRecord(log[i], addr)
  {
    seq(|log|, i requires 0 <= i < |log| => ToRecord(log[i], addr))
  }

  function Replay(rs: seq<W.Record>, back: Pointer -> Ptr): seq<KV> {
    if rs == [] then [] else Replay(rs[..|rs| - 1], back) + FromRecord(rs[|rs| - 1], back)
  }

  lemma {:induction false} ReplayUndoes(log: seq<KV>, addr: Ptr -> Pointer, back: Pointer -> Ptr)
    requires Numbered(log) && AllLoggable(log, addr, back)
    ensures Replay(ToRecords(log, addr), back) == log
  {
    if log == [] {
    } else {
      var n := |log| - 1;
      ReplayUndoes(log[..n], addr, back);
      assert log == log[..n] + [log[n]];
      assert ToRecords(log, addr)[..n] == ToRecords(log[..n], addr);
    }
  }

  /** A crash that leaves any byte prefix of the log leaves the engine a prefix of its records: those
      whose bytes are all there. */
  lemma {:induction false} CrashKeepsAPrefix(log: seq<KV>, n: nat, crc: Checksum, addr: Ptr -> Pointer,
                                             back: Pointer -> Ptr)
    returns (m: nat)
    requires Numbered(log) && AllLoggable(log, addr, back)
    requires n <= |W.EncodeAll(ToRecords(log, addr), crc)|
    ensures m <= |log| && Replay(W.RecoverAll(W.EncodeAll(ToRecords(log, addr), crc)[..n], crc), back) == log[..m]
    ensures forall k :: 0 <= k <= |log| ==> (k <= m <==> |W.EncodeAll(ToRecords(log[..k], addr), crc)| <= n)
  {
    hide W.EncodeAll, W.RecoverAll, W.WholeRecords, Replay;
    var rs := ToRecords(log, addr);
    forall r | r in rs ensures W.WellFormed(r) {
      var i :| 0 <= i < |rs| && rs[i] == r;
    }
    W.TornTail(rs, n, crc);
    m := W.WholeRecords(rs, n, crc);
    assert rs[..m] == ToRecords(log[..m], addr);
    ReplayUndoes(log[..m], addr, back);
    forall k | 0 <= k <= |log| ensures k <= m <==> |W.EncodeAll(ToRecords(log[..k], addr), crc)| <= n {
      assert rs[..k] == ToRecords(log[..k], addr);
      W.WholeRecordsIsLargest(rs, n, crc, k);
    }
  }

  // ---- Tables ----

  function ToEntry(x: KV, addr: Ptr -> Pointer): T.Entry
    requires x.entry.sn < TWO_64
  {
    match x.entry
    case Put(sn, p) => T.Entry(x.key, W.KIND_VALUE, sn, addr(p))
    case Del(sn) => T.Entry(x.key, W.KIND_DELETION, sn, W.NO_POINTER)
  }

  function ToEntries(es: seq<KV>, addr: Ptr -> Pointer): (r: seq<T.Entry>)
    requires Numbered(es)
    ensures |r| == |es| && forall i :: 0 <= i < |es| ==> r[i] == ToEntry(es[i], addr)
  {
    seq(|es|, i requires 0 <= i < |es| => ToEntry(es[i], addr))
  }

  /** The size by which a compaction cuts its tables is the size of their data blocks. */
  lemma {:induction false} DataBytesIsBlockSize(es: seq<KV>, addr: Ptr -> Pointer)
    requires Numbered(es)
    ensures M.DataBytes(es) == |T.DataBlock(ToEntries(es, addr))|
  {
    hide T.EncodeEntry, Varint;
    if es == [] {
    } else {
      var n := |es| - 1;
      DataBytesIsBlockSize(es[..n], addr);
      assert ToEntries(es, addr)[..n] == ToEntries(es[..n], addr);
    }
  }

  /** A table lookup finds what the engine's table holds: the entry of the key, or nothing. */
  lemma {:induction false} TableLookupIsFind(es: seq<KV>, k: Key, addr: Ptr -> Pointer)
    requires Ascending(es) && Numbered(es)
    ensures S.Ascending(ToEntries(es, addr))
    ensures k !in Data(es) ==> S.Lookup(ToEntries(es, addr), k) == None
    ensures k in Data(es) ==>
              KV(k, Data(es)[k]) in es && S.Lookup(ToEntries(es, addr), k) == Some(ToEntry(KV(k, Data(es)[k]), addr))
  {
    hide Data, Less, S.Lookup;
    var r := ToEntries(es, addr);
    if k in Data(es) {
      DataSource(es, k);
      var i :| 0 <= i < |es| && es[i] == KV(k, Data(es)[k]);
      S.LookupHit(r, i);
    } else {
      forall i | 0 <= i < |es| ensures r[i].key != k { AscendingData(es, i); }
      S.LookupMiss(r, k);
    }
  }
}
