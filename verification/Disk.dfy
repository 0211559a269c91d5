/** A lookup through the bytes: table files searched by filter, index and scan, and the value read from a
    segment file with whatever crashes left in it. It answers as the plain map does. */
module Disk {
  import opened Bytes
  import opened Coding
  import opened Pointers
  import opened Lsm
  import E = Engine
  import R = Refinement
  import St = Storage
  import Va = Values
  import W = WriteAheadLog
  import T = TableFormat
  import S = SSTables
  import V = ValueLog
  import B = Bloom
  import L = Layers

  /** Table files by table id and segment files by segment id. */
  datatype Files = Files(tables: map<nat, seq<byte>>, segments: map<nat, seq<byte>>)

  /** The table's file opens as a reader of exactly its entries. */
  ghost predicate TableOnDisk(d: Files, t: Table, addr: Ptr -> Pointer, hash: B.Hash) {
    && t.id in d.tables && L.Numbered(t.entries) && Ascending(t.entries)
    && T.OpenTable(d.tables[t.id]).Some?
    && exists at :: S.Reads(T.OpenTable(d.tables[t.id]).value, L.ToEntries(t.entries, addr), at, hash)
  }

  ghost predicate TablesOnDisk(d: Files, ts: seq<Table>, addr: Ptr -> Pointer, hash: B.Hash) {
    forall i :: 0 <= i < |ts| ==> TableOnDisk(d, ts[i], addr, hash)
  }

  /** The byte pointers in use lead where the engine's do. */
  ghost predicate SegmentsOnDisk(d: Files, v: E.VLog, gaps: map<nat, L.Gaps>, addr: Ptr -> Pointer, crc: Checksum) {
    && L.Addressable(v, gaps)
    && (forall f :: f in v ==> f in d.segments && d.segments[f] == L.Image(v[f], gaps[f], crc))
    && (forall p :: E.Readable(v, p) ==> addr(p) == L.Address(v, gaps, p))
  }

  /** The stored form of what a lookup finds. */
  predicate Codes(found: Option<T.Entry>, e: Option<Entry>, k: Key, addr: Ptr -> Pointer) {
    match e
    case None => found == None
    case Some(x) => x.sn < TWO_64 && found == Some(L.ToEntry(KV(k, x), addr))
  }

  // ---- Tables ----

  method TableGet(d: Files, t: Table, k: Key, addr: Ptr -> Pointer, hash: B.Hash) returns (found: Option<T.Entry>)
    requires TableOnDisk(d, t, addr, hash)
    ensures Codes(found, Find(Data(t.entries), k), k, addr)
  {
    hide S.Reads, Data, T.OpenTable, Ascending;
    var reader := T.OpenTable(d.tables[t.id]).value;
    ghost var es := L.ToEntries(t.entries, addr);
    ghost var at :| S.Reads(reader, es, at, hash);
    L.TableLookupIsFind(t.entries, k, addr);
    found := S.Get(reader, k, hash, es, at);
    if k in Data(t.entries) { EntryIsNumbered(t.entries, KV(k, Data(t.entries)[k])); }
  }

  lemma {:induction false} EntryIsNumbered(es: seq<KV>, x: KV)
    requires L.Numbered(es) && x in es
    ensures x.entry.sn < TWO_64
  {
  }

  /** Flushing or compacting puts a table on disk and leaves the other files alone. */
  method WriteTable(d: Files, t: Table, addr: Ptr -> Pointer, interval: nat, bitsPerKey: nat, hash: B.Hash)
    returns (d': Files)
    requires Ascending(t.entries) && L.Numbered(t.entries)
    requires forall i :: 0 <= i < |t.entries| ==> |t.entries[i].key| < TWO_32
    requires 2 * |T.DataBlock(L.ToEntries(t.entries, addr))| + B.FilterBytes(|t.entries|, bitsPerKey) + 4 < TWO_64
    ensures TableOnDisk(d', t, addr, hash)
    ensures d' == d.(tables := d'.tables) && d'.tables.Keys == d.tables.Keys + {t.id}
    ensures forall id :: id in d.tables && id != t.id ==> d'.tables[id] == d.tables[id]
  {
    hide S.Reads, T.OpenTable, T.DataBlock, B.FilterBytes, Less;
    ghost var es := L.ToEntries(t.entries, addr);
    var file, at := S.Store(L.ToEntries(t.entries, addr), interval, bitsPerKey, hash);
    d' := d.(tables := d.tables[t.id := file]);
    assert S.Reads(T.OpenTable(d'.tables[t.id]).value, es, at, hash);
  }

  method LevelZeroGet(d: Files, ts: seq<Table>, k: Key, addr: Ptr -> Pointer, hash: B.Hash)
    returns (found: Option<T.Entry>)
    requires TablesOnDisk(d, ts, addr, hash)
    ensures Codes(found, L0Hit(ts, k), k, addr)
  {
    hide Data, TableOnDisk;
    assert ts[..|ts|] == ts;
    found := None;
    for i := |ts| downto 0
      invariant found.None? && L0Hit(ts, k) == L0Hit(ts[..i], k)
    {
      assert ts[..i + 1][..i] == ts[..i];
      found := TableGet(d, ts[i], k, addr, hash);
      if found.Some? { return; }
    }
  }

  method LevelGet(d: Files, ts: seq<Table>, k: Key, addr: Ptr -> Pointer, hash: B.Hash)
    returns (found: Option<T.Entry>)
    requires ValidTables(ts) && TablesOnDisk(d, ts, addr, hash)
    ensures Codes(found, LevelHit(ts, k), k, addr)
  {
    hide Data, TableOnDisk, ValidTable;
    found := None;
    for i := 0 to |ts|
      invariant found.None? && LevelHit(ts, k) == LevelHit(ts[i..], k)
    {
      assert ts[i..][1..] == ts[i + 1..];
      if AtMost(Smallest(ts[i]), k) && AtMost(k, Largest(ts[i])) {
        found := TableGet(d, ts[i], k, addr, hash);
        if found.Some? { return; }
      } else if k in Data(ts[i].entries) {
        KeyInRange(ts[i], k);
      }
    }
  }

  method TablesGet(d: Files, levels: Levels, k: Key, addr: Ptr -> Pointer, hash: B.Hash)
    returns (found: Option<T.Entry>)
    requires levels != []
    requires forall l :: 0 <= l < |levels| ==> ValidTables(levels[l]) && TablesOnDisk(d, levels[l], addr, hash)
    ensures Codes(found, LevelsHit(levels, 0, k), k, addr)
  {
    hide Data, ValidTables, TablesOnDisk, L0Hit, LevelHit;
    found := LevelZeroGet(d, levels[0], k, addr, hash);
    if found.Some? { return; }
    for l := 1 to |levels|
      invariant found.None? && LevelsHit(levels, 0, k) == LevelsHit(levels, l, k)
    {
      found := LevelGet(d, levels[l], k, addr, hash);
      if found.Some? { return; }
    }
    found := None;
  }

  // ---- Values ----

  /** What the value read makes of an entry. */
  method ReadValue(d: Files, found: Option<T.Entry>, crc: Checksum, ghost v: E.VLog, ghost gaps: map<nat, L.Gaps>,
                   ghost addr: Ptr -> Pointer, ghost e: Option<Entry>, ghost k: Key)
    returns (r: E.Answer)
    requires SegmentsOnDisk(d, v, gaps, addr, crc) && Codes(found, e, k, addr)
    requires e.Some? && e.value.Put? ==> E.Readable(v, e.value.ptr)
    ensures r == if e.Some? && e.value.Put? then E.Found(v[e.value.ptr.file][e.value.ptr.index].value) else E.NotFound
  {
    hide L.Image, L.OffsetOf, V.Read;
    if found.None? || found.value.kind == W.KIND_DELETION { return E.NotFound; }
    ghost var p := e.value.ptr;
    L.SlotReadsBack(v[p.file], gaps[p.file], p.index, crc);
    var q := found.value.ptr;
    var x := V.Read(d.segments[q.file], q.offset, q.size, crc);
    r := if x.Ok? then E.Found(x.value) else E.Unreadable;
  }

  /** What an engine state promises about the entry a lookup selects. */
  lemma {:induction false} SelectedEntry(s: E.State, spec: map<Key, Value>, k: Key)
    requires R.Inv(s, spec) && s.status.Up? && L.Numbered(s.log)
    ensures var e := E.Visible(s, k);
            && (e.Some? ==> e.value.sn < TWO_64)
            && (e.Some? && e.value.Put? ==> E.Readable(s.vlog, e.value.ptr))
            && (E.SpecGet(spec, k) == if e.Some? && e.value.Put?
                                      then E.Found(s.vlog[e.value.ptr.file][e.value.ptr.index].value) else E.NotFound)
  {
    hide E.Visible, Data, St.StoreOk, St.FlushOk, St.CompactorOk, St.ReplayOk, Va.GcOk, Va.WriterOk;
    R.GetIsSpec(s, spec, k);
    assert Matches(E.Visible(s, k), St.Current(s, k));
    assert Va.ValueOk(s, spec, k);
    if k in Data(s.log) {
      DataSource(s.log, k);
      EntryIsNumbered(s.log, KV(k, Data(s.log)[k]));
    }
  }

  lemma {:induction false} LevelsAreValid(s: E.State, spec: map<Key, Value>)
    requires R.Inv(s, spec)
    ensures s.levels != [] && forall l :: 0 <= l < |s.levels| ==> ValidTables(s.levels[l])
  {
    hide St.LookupOk, St.FlushOk, St.CompactorOk, St.ReplayOk, Va.ValueInv, St.LevelsInLog, St.LastLevelLive,
         ValidTables,
         DistinctIds, Disjoint;
  }

  /** THE LOOKUP THROUGH BYTES. With the tables and segments of a serving engine on disk, looking a key up in
      the memtables, then in the table files, and reading its value from a segment file returns what the
      plain map holds. */
  method Get(s: E.State, d: Files, k: Key, addr: Ptr -> Pointer, hash: B.Hash, crc: Checksum,
             ghost gaps: map<nat, L.Gaps>, ghost spec: map<Key, Value>)
    returns (r: E.Answer)
    requires R.Inv(s, spec) && s.status.Up? && L.Numbered(s.log)
    requires forall l :: 0 <= l < |s.levels| ==> TablesOnDisk(d, s.levels[l], addr, hash)
    requires SegmentsOnDisk(d, s.vlog, gaps, addr, crc)
    ensures r == E.SpecGet(spec, k)
  {
    hide R.Inv, TablesOnDisk, SegmentsOnDisk, E.MemoryHit, LevelsHit, ValidTables, E.Readable;
    LevelsAreValid(s, spec);
    SelectedEntry(s, spec, k);
    var found: Option<T.Entry>;
    var m := E.MemoryHit(s, k);
    if m.Some? {
      found := Some(L.ToEntry(KV(k, m.value), addr));
    } else {
      found := TablesGet(d, s.levels, k, addr, hash);
    }
    r := ReadValue(d, found, crc, s.vlog, gaps, addr, E.Visible(s, k), k);
  }
}
