/** The database object. Its methods run the engine's steps one after another on memtables, tables,
    the value log and the write-ahead logs; what they promise is what a plain map would do. */
module Database {
  import opened Bytes
  import opened Lsm
  import opened Compaction
  import opened Engine
  import opened Storage
  import opened Values
  import opened Refinement
  import opened Operations
  import opened MemTables
  import opened Lookups
  import opened MergeLoop
  import opened FullCompaction
  import opened Lists
  import Pointers

  datatype BatchEntry = BatchPut(key: Key, value: Value) | BatchDelete(key: Key)

  /** What a batch means: its entries in order. */
  function ApplyBatch(m: map<Key, Value>, batch: seq<BatchEntry>): map<Key, Value> {
    if batch == [] then m
    else
      var n := |batch| - 1;
      var before := ApplyBatch(m, batch[..n]);
      match batch[n]
      case BatchPut(k, v) => before[k := v]
      case BatchDelete(k) => before - {k}
  }

  /** The last entry of a key decides. */
  lemma {:induction false} LastEntryWins(m: map<Key, Value>, batch: seq<BatchEntry>, i: nat)
    requires i < |batch| && forall j :: i < j < |batch| ==> batch[j].key != batch[i].key
    ensures var k := batch[i].key;
            var after := ApplyBatch(m, batch);
            if batch[i].BatchPut? then k in after && after[k] == batch[i].value else k !in after
    decreases |batch|
  {
    var n := |batch| - 1;
    if i == n { } else { LastEntryWins(m, batch[..n], i); }
  }

  lemma {:induction false} UnnamedKeyStays(m: map<Key, Value>, batch: seq<BatchEntry>, k: Key)
    requires forall j :: 0 <= j < |batch| ==> batch[j].key != k
    ensures var after := ApplyBatch(m, batch);
            (k in after <==> k in m) && (k in m ==> after[k] == m[k])
    decreases |batch|
  {
    if batch == [] { } else { UnnamedKeyStays(m, batch[..|batch| - 1], k); }
  }

  lemma {:induction false} BatchMeans(m: map<Key, Value>, batch: seq<BatchEntry>, after: map<Key, Value>)
    requires after == ApplyBatch(m, batch)
    ensures forall i :: 0 <= i < |batch| && (forall j :: i < j < |batch| ==> batch[j].key != batch[i].key) ==>
              if batch[i].BatchPut? then batch[i].key in after && after[batch[i].key] == batch[i].value
              else batch[i].key !in after
    ensures forall k :: (forall j :: 0 <= j < |batch| ==> batch[j].key != k) ==>
              (k in after <==> k in m) && (k in after ==> after[k] == m[k])
  {
    hide ApplyBatch;
    forall i | 0 <= i < |batch| && (forall j :: i < j < |batch| ==> batch[j].key != batch[i].key)
      ensures if batch[i].BatchPut? then batch[i].key in after && after[batch[i].key] == batch[i].value
              else batch[i].key !in after
    {
      LastEntryWins(m, batch, i);
    }
    forall k | forall j :: 0 <= j < |batch| ==> batch[j].key != k
      ensures (k in after <==> k in m) && (k in after ==> after[k] == m[k])
    {
      UnnamedKeyStays(m, batch, k);
    }
  }

  lemma NoLogs()
    ensures Concat([[]]) == []
  {
  }

  lemma {:induction false} IsInit(s: State, n: nat)
    requires s.status.Up? && s.mem == map[] && s.imm == [] && !s.flushed && s.levels == EmptyLevels(n) && s.nextId == 1
    requires s.manifest == Manifest(s.levels, 1) && s.vlog == map[1 := []] && s.file == 1
    requires s.log == [] && s.nextSn == 2
    requires s.writer.Free? && s.comp.NoCompaction? && s.gc.NoGc?
    ensures s == Init(n)
  {
  }

  lemma {:induction false} InvFacts(s: State, spec: map<Key, Value>)
    requires Inv(s, spec)
    ensures s.file in s.vlog && LevelsOk(s.levels) && s.levels != []
    ensures forall l :: 0 <= l < |s.levels| ==> ValidTables(s.levels[l]) && DistinctIds(s.levels[l])
    ensures s.manifest.levels != []
  {
    hide LookupOk, FlushOk, CompactorOk, ReplayOk, SpecOk, GcOk, WriterOk, LevelsInLog, LastLevelLive, DistinctIds,
         Disjoint, ValidTables;
  }

  /** With no writer in between, the lookup order reads the memtable itself. */
  lemma {:induction false} VisibleIs(s: State, k: Key)
    requires s.writer.Free?
    ensures Visible(s, k) == Or(Or(Find(s.mem, k), ImmHit(s.imm, k)), LevelsHit(s.levels, 0, k))
  {
    hide ImmHit, LevelsHit;
    assert Active(s) == s.mem;
  }

  lemma {:induction false} SnapshotPush(ms: seq<MemTable>, m: MemTable)
    ensures Snapshot(ms + [m]) == Snapshot(ms) + [m.contents]
  {
    assert (ms + [m])[..|ms|] == ms;
  }

  /** A put, field by field. */
  lemma {:induction false} PutDoneIs(s: State, k: Key, v: Value, rotate: bool, ptr: Ptr, t: State)
    requires s.file in s.vlog
    requires ptr == if rotate then Ptr(s.file + 1, 0) else Ptr(s.file, |s.vlog[s.file]|)
    requires t.file == if rotate then s.file + 1 else s.file
    requires t.vlog == if rotate then s.vlog[s.file + 1 := [Rec(k, v)]]
                       else s.vlog[s.file := s.vlog[s.file] + [Rec(k, v)]]
    requires t == s.(vlog := t.vlog, file := t.file, mem := s.mem[k := Put(s.nextSn, ptr)],
                     log := s.log + [KV(k, Put(s.nextSn, ptr))], nextSn := s.nextSn + 1)
    ensures t == PutDone(s, k, v, rotate)
  {
  }

  // ---- The inputs of a compaction ----

  method KeyRange(ts: seq<Table>) returns (lo: Key, hi: Key)
    requires ts != []
    ensures lo == Lo(ts) && hi == Hi(ts)
    ensures forall t :: t in ts ==> AtMost(lo, Smallest(t)) && AtMost(Largest(t), hi)
    ensures (exists t :: t in ts && Smallest(t) == lo) && (exists t :: t in ts && Largest(t) == hi)
  {
    hide Less, AtMost, Largest, Smallest;
    lo, hi := Smallest(ts[0]), Largest(ts[0]);
    for i := 1 to |ts|
      invariant lo == Lo(ts[..i]) && hi == Hi(ts[..i])
    {
      assert ts[..i + 1][..i] == ts[..i];
      if Less(Smallest(ts[i]), lo) { lo := Smallest(ts[i]); }
      if Less(hi, Largest(ts[i])) { hi := Largest(ts[i]); }
    }
    assert ts[..|ts|] == ts;
    RangeIsAttained(ts);
  }

  method FindOverlapping(ts: seq<Table>, lo: Key, hi: Key) returns (r: seq<Table>)
    ensures r == Overlapping(ts, lo, hi)
    ensures forall t :: t in r <==> t in ts && !Less(hi, Smallest(t)) && !Less(Largest(t), lo)
  {
    hide Overlaps;
    r := [];
    for i := 0 to |ts|
      invariant r == Overlapping(ts[..i], lo, hi)
    {
      assert ts[..i + 1][..i] == ts[..i];
      if Overlaps(ts[i], lo, hi) { r := r + [ts[i]]; }
    }
    assert ts[..|ts|] == ts;
    forall t: Table ensures Overlaps(t, lo, hi) <==> !Less(hi, Smallest(t)) && !Less(Largest(t), lo) {
      OverlapsIs(t, lo, hi);
    }
  }

  lemma {:induction false} OverlapsIs(t: Table, lo: Key, hi: Key)
    ensures Overlaps(t, lo, hi) <==> !Less(hi, Smallest(t)) && !Less(Largest(t), lo)
  {
  }

  lemma {:induction false} BothValid(levels: Levels, lvl: nat, overlap: seq<Table>, lo: Key, hi: Key)
    requires lvl + 1 < |levels| && ValidTables(levels[lvl]) && ValidTables(levels[lvl + 1])
    requires overlap == Overlapping(levels[lvl + 1], lo, hi)
    ensures ValidTables(levels[lvl] + overlap)
  {
    hide ValidTable, Overlapping;
    forall i | 0 <= i < |overlap| ensures ValidTable(overlap[i]) {
      assert overlap[i] in levels[lvl + 1];
    }
  }

  lemma {:induction false} InvLastLevel(s: State, spec: map<Key, Value>)
    requires Inv(s, spec)
    ensures LastLevelLive(s.levels) && OneVersionPerNumber(s.levels)
  {
    hide LookupOk, FlushOk, CompactorOk, ReplayOk, ValueInv, LevelsOk, LastLevelLive, OneVersionPerNumber, Increasing,
         LevelsInLog;
    LogGivesOneVersion(s.levels, s.log);
  }

  lemma {:induction false} NothingAbove(levels: Levels)
    ensures EmptyAbove(levels, 0) && KeepsNewest(levels, levels)
  {
    hide IsNewest;
  }

  lemma {:induction false} FullyCompactedIs(before: Levels, levels: Levels)
    requires FullyCompacted(before, levels) && LevelsOk(levels) && |levels| >= 2
    ensures forall l :: 0 <= l < |levels| - 1 ==> levels[l] == []
    ensures forall k, e :: HeldBy(levels[|levels| - 1], k, e) ==> IsNewest(before, k, e) && e.Put?
    ensures forall k, e :: IsNewest(before, k, e) && e.Put? ==> HeldBy(levels[|levels| - 1], k, e)
  {
    hide LevelHit, IsNewest, HeldBy, ValidTables, Disjoint;
    forall k, e ensures HeldBy(levels[|levels| - 1], k, e) <==> IsNewest(before, k, e) && e.Put? {
      HeldIsHit(levels[|levels| - 1], k, e);
      if LevelHit(levels[|levels| - 1], k) == Some(e) { assert IsNewest(before, k, e); }
    }
  }

  lemma {:induction false} EmptyBelow(levels: Levels, lvl: nat)
    requires EmptyAbove(levels, lvl) && lvl < |levels| && levels[lvl] == []
    ensures EmptyAbove(levels, lvl + 1)
  {
  }

  /** A compaction with nothing above it empties its level and keeps the newest versions. */
  lemma {:induction false} CompactionSinks(s: State, spec: map<Key, Value>, lvl: nat, next: seq<Table>,
                                           outs: seq<Table>,
                                           nextId: nat, start: Levels)
    requires Inv(s, spec) && CanCompact(s, lvl, next, outs, nextId)
    requires EmptyAbove(s.levels, lvl) && KeepsNewest(start, s.levels)
    ensures var after := Installed(s.levels, lvl, s.levels[lvl], next, outs);
            EmptyAbove(after, lvl + 1) && KeepsNewest(start, after)
  {
    hide Inv, KeepsNewest, EmptyAbove, IsMerge, LevelsOk, Overlapping, Lo, Hi, OneVersionPerNumber, LastLevelLive,
         Installed;
    InvFacts(s, spec);
    InvLastLevel(s, spec);
    IdsAreFresh(s, spec, lvl, next, outs, nextId);
    InstallEmpties(s.levels, lvl, next, outs);
    InstallKeepsNewest(s.levels, lvl, next, outs);
    KeepsNewestChains(start, s.levels, Installed(s.levels, lvl, s.levels[lvl], next, outs));
  }

  /** What a compaction leaves, table by table and version by version. */
  lemma {:induction false} CompactionMeans(s: State, spec: map<Key, Value>, lvl: nat, next: seq<Table>,
                                           outs: seq<Table>, nextId: nat)
    requires Inv(s, spec) && CanCompact(s, lvl, next, outs, nextId)
    ensures var levels := Installed(s.levels, lvl, s.levels[lvl], next, outs);
            && |levels| == |s.levels| && levels[lvl] == [] && nextId == s.nextId + |outs|
            && (forall l :: 0 <= l < |levels| && l != lvl && l != lvl + 1 ==> levels[l] == s.levels[l])
            && (forall t :: t in levels[lvl + 1] <==> t in outs || (t in s.levels[lvl + 1] && t !in next))
            && (forall t :: t in next <==> t in s.levels[lvl + 1] && Between(t, s.levels[lvl]))
            && (forall k, e :: HeldBy(outs, k, e) <==>
                  && HeldBy(s.levels[lvl] + next, k, e)
                  && (forall x :: HeldBy(s.levels[lvl] + next, k, x) ==> x.sn <= e.sn)
                  && (e.Put? || exists l, t :: lvl + 2 <= l < |s.levels| && t in s.levels[l] && k in Data(t.entries)))
  {
    hide Inv, LevelsOk, HeldBy, IsMerge, Overlapping, Lo, Hi, Between, Installed, OneVersionPerNumber;
    InvFacts(s, spec);
    InvLastLevel(s, spec);
    InstalledTables(s.levels, lvl, next, outs);
    forall t: Table ensures t in next <==> t in s.levels[lvl + 1] && Between(t, s.levels[lvl]) {
      PickedIsBetween(s.levels[lvl + 1], s.levels[lvl], next, t);
    }
    forall k, e
      ensures HeldBy(outs, k, e) <==>
                && HeldBy(s.levels[lvl] + next, k, e)
                && (forall x :: HeldBy(s.levels[lvl] + next, k, x) ==> x.sn <= e.sn)
                && (e.Put? || exists l, t :: lvl + 2 <= l < |s.levels| && t in s.levels[l] && k in Data(t.entries))
    {
      MergeHolds(s.levels, lvl, next, outs, k, e);
    }
  }

  lemma {:induction false} IdsAreFresh(s: State, spec: map<Key, Value>, lvl: nat, next: seq<Table>, outs: seq<Table>,
                                       nextId: nat)
    requires Inv(s, spec) && CanCompact(s, lvl, next, outs, nextId)
    ensures FreshIds(outs, s.levels[lvl + 1])
  {
    hide LookupOk, FlushOk, CompactorOk, ReplayOk, ValueInv, LevelsOk, LastLevelLive, Increasing, LevelsInLog,
         IsMerge, Overlapping, Lo, Hi;
    assert IdsBelow(s.levels[lvl + 1], s.nextId);
  }

  function TotalSize(ts: seq<Table>, size: Table -> nat): nat {
    if ts == [] then 0 else TotalSize(ts[..|ts| - 1], size) + size(ts[|ts| - 1])
  }

  function Power(base: nat, n: nat): nat {
    if n == 0 then 1 else base * Power(base, n - 1)
  }

  /** The limit grows by the same factor from level to level. */
  lemma {:induction false} PowersMultiply(base: nat, m: nat, n: nat)
    ensures Power(base, 1) == base && Power(base, m + n) == Power(base, m) * Power(base, n)
    decreases m
  {
    assert Power(base, 1) == base * Power(base, 0);
    if m == 0 {
    } else {
      PowersMultiply(base, m - 1, n);
      assert Power(base, m + n) == base * Power(base, m - 1 + n);
      Associates(base, Power(base, m - 1), Power(base, n));
    }
  }

  lemma {:induction false} Associates(a: nat, b: nat, c: nat)
    ensures a * (b * c) == (a * b) * c
  {
  }

  lemma {:induction false} TotalSizeIsAdditive(a: seq<Table>, b: seq<Table>, t: Table, size: Table -> nat)
    ensures TotalSize(a + b, size) == TotalSize(a, size) + TotalSize(b, size)
    ensures TotalSize([t], size) == size(t)
    decreases |b|
  {
    if b == [] {
      assert a + b == a;
    } else {
      var n := |b| - 1;
      assert (a + b)[..|a + b| - 1] == a + b[..n];
      TotalSizeIsAdditive(a, b[..n], t, size);
    }
  }

  /** Level 0 is over its limit with four tables, level n with more than 10 MB times ten to the n - 1. */
  predicate OverLimit(ts: seq<Table>, lvl: nat, size: Table -> nat) {
    if lvl == 0 then |ts| >= 4 else TotalSize(ts, size) > 10 * 1024 * 1024 * Power(10, lvl - 1)
  }

  lemma {:induction false} EmptyIsNotDue(lvl: nat, size: Table -> nat)
    ensures !OverLimit([], lvl, size)
  {
  }

  lemma {:induction false} LevelZeroLimit(ts: seq<Table>, size: Table -> nat)
    ensures OverLimit(ts, 0, size) <==> |ts| >= 4
  {
  }

  method NeedsCompaction(ts: seq<Table>, lvl: nat, size: Table -> nat) returns (due: bool)
    ensures due <==> if lvl == 0 then |ts| >= 4 else TotalSize(ts, size) > 10 * 1024 * 1024 * Power(10, lvl - 1)
    ensures due <==> OverLimit(ts, lvl, size)
  {
    if lvl == 0 { return |ts| >= 4; }
    var total := 0;
    for i := 0 to |ts|
      invariant total == TotalSize(ts[..i], size)
    {
      assert ts[..i + 1][..i] == ts[..i];
      total := total + size(ts[i]);
    }
    assert ts[..|ts|] == ts;
    var limit := 10 * 1024 * 1024;
    for i := 1 to lvl
      invariant limit == 10 * 1024 * 1024 * Power(10, i - 1)
    {
      limit := limit * 10;
    }
    due := total > limit;
  }

  /** Bytes of the whole records of a segment. */
  function SlotBytes(seg: seq<Slot>): nat {
    if seg == [] then 0
    else
      var n := |seg| - 1;
      SlotBytes(seg[..n]) + if seg[n].Rec? then Pointers.RecordSize(seg[n].key, seg[n].value) else 0
  }

  lemma NoSlotBytes()
    ensures SlotBytes([]) == 0
  {
  }

  lemma {:induction false} SlotBytesSnoc(seg: seq<Slot>, slot: Slot)
    ensures SlotBytes(seg + [slot])
         == SlotBytes(seg) + if slot.Rec? then Pointers.RecordSize(slot.key, slot.value) else 0
  {
    assert (seg + [slot])[..|seg|] == seg;
  }

  /** A segment is whole after an append exactly if it was before and the record is. */
  lemma {:induction false} StillTorn(seg: seq<Slot>, slot: Slot)
    ensures (forall i :: 0 <= i < |seg + [slot]| ==> (seg + [slot])[i].Rec?) <==>
              (slot.Rec? && forall i :: 0 <= i < |seg| ==> seg[i].Rec?)
  {
    var all := seg + [slot];
    assert all[|seg|] == slot;
    assert forall i :: 0 <= i < |seg| ==> all[i] == seg[i];
  }

  function LiveBytes(seg: seq<Slot>, live: seq<nat>): nat {
    if live == [] then 0
    else
      var n := |live| - 1;
      LiveBytes(seg, live[..n])
      + if live[n] < |seg| && seg[live[n]].Rec? then Pointers.RecordSize(seg[live[n]].key, seg[live[n]].value) else 0
  }

  /** Where a scan ends: the first torn record, or the end. */
  function ScanEnd(seg: seq<Slot>): (n: nat)
    ensures n <= |seg|
    ensures forall i :: 0 <= i < n ==> seg[i].Rec?
    ensures n < |seg| ==> seg[n].Torn?
  {
    if seg == [] || seg[0].Torn? then 0 else 1 + ScanEnd(seg[1..])
  }

  lemma {:induction false} ScanEndIs(seg: seq<Slot>, n: nat)
    requires n <= |seg| && (forall i :: 0 <= i < n ==> seg[i].Rec?) && (n < |seg| ==> seg[n].Torn?)
    ensures ScanEnd(seg) == n
  {
    if n == 0 {
    } else {
      ScanEndIs(seg[1..], n - 1);
    }
  }

  /** The first `n` records of a segment that are the newest version of their key. */
  function LiveIn(s: State, f: nat, n: nat): seq<nat> {
    if n == 0 then []
    else
      var p := Ptr(f, n - 1);
      LiveIn(s, f, n - 1)
      + if Readable(s.vlog, p) && PointsTo(Visible(s, s.vlog[f][n - 1].key), p) then [n - 1] else []
  }

  /** The record at a place of the value log is the newest version of its key. */
  ghost predicate IsLive(s: State, f: nat, i: nat)
    requires f in s.vlog && i < |s.vlog[f]| && s.vlog[f][i].Rec?
  {
    Visible(s, s.vlog[f][i].key).Some? && Visible(s, s.vlog[f][i].key).value.Put?
    && Visible(s, s.vlog[f][i].key).value.ptr == Ptr(f, i)
  }

  /** Bytes of those of the first `n` records of a segment that are garbage. */
  ghost function DeadBytes(s: State, f: nat, n: nat): nat
    requires f in s.vlog && n <= |s.vlog[f]| && forall i :: 0 <= i < n ==> s.vlog[f][i].Rec?
  {
    if n == 0 then 0
    else
      DeadBytes(s, f, n - 1)
      + if IsLive(s, f, n - 1) then 0 else Pointers.RecordSize(s.vlog[f][n - 1].key, s.vlog[f][n - 1].value)
  }

  lemma {:induction false} LiveInNext(s: State, f: nat, n: nat)
    requires f in s.vlog && n < |s.vlog[f]| && s.vlog[f][n].Rec?
    ensures LiveIn(s, f, n + 1) == LiveIn(s, f, n) + if IsLive(s, f, n) then [n] else []
  {
    hide Visible;
  }

  lemma {:induction false} DeadBytesNext(s: State, f: nat, n: nat)
    requires f in s.vlog && n < |s.vlog[f]| && forall i :: 0 <= i <= n ==> s.vlog[f][i].Rec?
    ensures var size := Pointers.RecordSize(s.vlog[f][n].key, s.vlog[f][n].value);
            DeadBytes(s, f, n + 1) == DeadBytes(s, f, n) + if IsLive(s, f, n) then 0 else size
  {
    hide IsLive;
  }

  lemma {:induction false} LiveOrDead(s: State, f: nat, n: nat)
    requires f in s.vlog && n <= |s.vlog[f]| && forall i :: 0 <= i < n ==> s.vlog[f][i].Rec?
    ensures SlotBytes(s.vlog[f][..n]) == LiveBytes(s.vlog[f], LiveIn(s, f, n)) + DeadBytes(s, f, n)
    ensures SlotBytes(s.vlog[f][..n]) >= 13 * n
  {
    hide IsLive, LiveIn, SlotBytes, LiveBytes;
    if n == 0 {
      ScanStart(s, f);
    } else {
      hide DeadBytes;
      LiveOrDead(s, f, n - 1);
      LiveInNext(s, f, n - 1);
      DeadBytesNext(s, f, n - 1);
      SlotBytesNext(s.vlog[f], n - 1);
      LiveBytesNext(s.vlog[f], LiveIn(s, f, n - 1), n - 1);
      assert LiveIn(s, f, n - 1) + [] == LiveIn(s, f, n - 1);
    }
  }

  lemma {:induction false} AllDead(s: State, f: nat, n: nat)
    requires f in s.vlog && n <= |s.vlog[f]| && forall i :: 0 <= i < n ==> s.vlog[f][i].Rec? && !IsLive(s, f, i)
    ensures DeadBytes(s, f, n) == SlotBytes(s.vlog[f][..n])
  {
    hide IsLive, SlotBytes;
    if n == 0 {
      ScanStart(s, f);
    } else {
      AllDead(s, f, n - 1);
      SlotBytesNext(s.vlog[f], n - 1);
    }
  }

  lemma {:induction false} AllLive(s: State, f: nat, n: nat)
    requires f in s.vlog && n <= |s.vlog[f]| && forall i :: 0 <= i < n ==> s.vlog[f][i].Rec? && IsLive(s, f, i)
    ensures DeadBytes(s, f, n) == 0
  {
    hide IsLive;
    if n == 0 { } else { AllLive(s, f, n - 1); }
  }

  /** The ratio that the code computes, cleared of its division. */
  lemma {:induction false} GarbageRatio(total: real, live: real, threshold: real)
    requires total > 0.0
    ensures 1.0 - live / total >= threshold <==> total - live >= threshold * total
  {
    var share := live / total;
    assert share * total == live;
    assert (1.0 - share - threshold) * total == total - live - threshold * total;
    ScalingKeepsSign(1.0 - share - threshold, total);
  }

  lemma {:induction false} ScalingKeepsSign(x: real, t: real)
    requires t > 0.0
    ensures x >= 0.0 <==> x * t >= 0.0
  {
    if x < 0.0 {
      assert (-x) * t > 0.0;
      assert x * t == -((-x) * t);
    }
  }

  /** The code's decision: enough of the scanned bytes is garbage. */
  lemma {:induction false} DecisionIs(s: State, f: nat, n: nat, total: nat, live: nat, threshold: real)
    requires f in s.vlog && n == ScanEnd(s.vlog[f])
    requires total == SlotBytes(s.vlog[f][..n]) && live == LiveBytes(s.vlog[f], LiveIn(s, f, n))
    ensures (total > 0 && 1.0 - live as real / total as real >= threshold)
       <==> (n > 0 && DeadBytes(s, f, n) as real >= threshold * total as real)
    ensures (forall i :: 0 <= i < n ==> !IsLive(s, f, i)) ==> DeadBytes(s, f, n) == total
    ensures (forall i :: 0 <= i < n ==> IsLive(s, f, i)) ==> DeadBytes(s, f, n) == 0
  {
    hide IsLive, SlotBytes, LiveBytes, LiveIn, DeadBytes, ScanEnd;
    LiveOrDead(s, f, n);
    if n == 0 {
      ScanStart(s, f);
    } else {
      GarbageRatio(total as real, live as real, threshold);
    }
    if forall i :: 0 <= i < n ==> !IsLive(s, f, i) { AllDead(s, f, n); }
    if forall i :: 0 <= i < n ==> IsLive(s, f, i) { AllLive(s, f, n); }
  }

  lemma {:induction false} NothingScanned(seg: seq<Slot>, n: nat)
    requires n <= |seg| && (forall i :: 0 <= i < n ==> seg[i].Rec?) && SlotBytes(seg[..n]) == 0
    ensures n == 0
  {
    hide SlotBytes;
    if n > 0 { SlotBytesNext(seg, n - 1); }
  }

  /** With records to judge, all garbage is enough for any threshold up to one, and none for no positive one. */
  lemma {:induction false} Extremes(total: nat, threshold: real)
    requires total > 0
    ensures threshold <= 1.0 ==> total as real >= threshold * total as real
    ensures threshold > 0.0 ==> 0.0 < threshold * total as real
  {
    var x := total as real;
    assert (1.0 - threshold) * x == x - threshold * x;
    if threshold <= 1.0 { assert (1.0 - threshold) * x >= 0.0; }
  }

  lemma {:induction false} ScanStart(s: State, f: nat)
    requires f in s.vlog
    ensures LiveIn(s, f, 0) == [] && SlotBytes(s.vlog[f][..0]) == 0 && LiveBytes(s.vlog[f], []) == 0
  {
  }

  lemma {:induction false} ScanStep(s: State, f: nat, pos: nat, live: seq<nat>, live': seq<nat>)
    requires f in s.vlog && pos < |s.vlog[f]| && s.vlog[f][pos].Rec? && live == LiveIn(s, f, pos)
    requires live' == if PointsTo(Visible(s, s.vlog[f][pos].key), Ptr(f, pos)) then live + [pos] else live
    ensures var seg := s.vlog[f];
            var size := Pointers.RecordSize(seg[pos].key, seg[pos].value);
            && live' == LiveIn(s, f, pos + 1)
            && SlotBytes(seg[..pos + 1]) == SlotBytes(seg[..pos]) + size
            && LiveBytes(seg, live') == LiveBytes(seg, live) + if live' != live then size else 0
  {
    hide Visible, PointsTo, SlotBytes, LiveBytes;
    SlotBytesNext(s.vlog[f], pos);
    LiveBytesNext(s.vlog[f], live, pos);
  }

  lemma {:induction false} SlotBytesNext(seg: seq<Slot>, pos: nat)
    requires pos < |seg| && seg[pos].Rec?
    ensures SlotBytes(seg[..pos + 1]) == SlotBytes(seg[..pos]) + Pointers.RecordSize(seg[pos].key, seg[pos].value)
  {
    assert seg[..pos + 1][..pos] == seg[..pos];
  }

  lemma {:induction false} LiveBytesNext(seg: seq<Slot>, live: seq<nat>, pos: nat)
    requires pos < |seg| && seg[pos].Rec?
    ensures LiveBytes(seg, live + [pos]) == LiveBytes(seg, live) + Pointers.RecordSize(seg[pos].key, seg[pos].value)
  {
    assert (live + [pos])[..|live|] == live;
  }

  lemma {:induction false} RelocateReady(s: State, spec: map<Key, Value>)
    requires Inv(s, spec) && s.gc.Rewriting? && s.gc.done < |s.gc.live|
    ensures HasNext(s) && s.gc.file < s.file
  {
    hide StorageInv, SpecOk;
  }

  lemma {:induction false} RelocateKeepsSegment(s: State, rotate: bool)
    requires HasNext(s) && s.gc.Rewriting? && s.file in s.vlog && s.gc.file < s.file
    ensures s.gc.file in RelocateDone(s, rotate).vlog
    ensures RelocateDone(s, rotate).vlog[s.gc.file] == s.vlog[s.gc.file]
  {
    hide Visible;
  }

  /** A relocation, field by field. */
  lemma {:induction false} RelocateDoneIs(s: State, rotate: bool, ptr: Ptr, moved: bool, t: State)
    requires HasNext(s) && s.gc.Rewriting? && s.file in s.vlog
    requires var slot := s.vlog[s.gc.file][s.gc.live[s.gc.done]];
             && moved == PointsTo(Visible(s, slot.key), Ptr(s.gc.file, s.gc.live[s.gc.done]))
             && ptr == (if rotate then Ptr(s.file + 1, 0) else Ptr(s.file, |s.vlog[s.file]|))
             && t.file == (if rotate then s.file + 1 else s.file)
             && t.vlog == (if rotate then s.vlog[s.file + 1 := [slot]] else s.vlog[s.file := s.vlog[s.file] + [slot]])
             && (!moved ==>
                   t == s.(vlog := t.vlog, file := t.file, gc := Rewriting(s.gc.file, s.gc.live, s.gc.done + 1)))
             && (moved ==> t == s.(vlog := t.vlog, file := t.file, gc := Rewriting(s.gc.file, s.gc.live, s.gc.done + 1),
                                   mem := s.mem[slot.key := Put(s.nextSn, ptr)],
                                   log := s.log + [KV(slot.key, Put(s.nextSn, ptr))], nextSn := s.nextSn + 1))
    ensures t == RelocateDone(s, rotate)
  {
    hide Visible;
  }

  lemma {:induction false} StartRewriting(s: State, spec: map<Key, Value>)
    requires Inv(s, spec) && s.status.Up? && s.gc.Scanning? && s.gc.file in s.vlog
    requires ScanEnded(s.vlog[s.gc.file], s.gc.pos) && s.gc.pos > 0
    ensures Inv(s.(gc := Rewriting(s.gc.file, s.gc.live, 0)), spec)
    ensures forall i :: 0 <= i < |s.gc.live| ==> s.gc.live[i] < s.gc.pos
  {
    assert Inv(s.(gc := Rewriting(s.gc.file, s.gc.live, 0)), spec) by {
      hide Inv;
      GcStepKeeps(s, GcDecide(true), spec);
    }
    hide StorageInv, SpecOk;
  }

  /** Which keys are hidden depends on the log and the value log alone. */
  lemma {:induction false} HiddenAlike(s: State, t: State, f: nat, k: Key)
    requires s.log == t.log && s.vlog == t.vlog
    ensures HiddenIn(s, f, k) <==> HiddenIn(t, f, k)
  {
    hide BehindTear, Data;
    forall j: nat ensures CurrentAt(s, k, f, j) == CurrentAt(t, k, f, j) { }
  }

  /** What the scan saw lies in front of every tear. */
  lemma {:induction false} ScannedBeforeTears(seg: seq<Slot>, j: nat)
    requires j < ScanEnd(seg)
    ensures !BehindTear(seg, j)
  {
    if j == 0 {
    } else {
      ScannedBeforeTears(seg[1..], j - 1);
      forall i | 0 <= i < j ensures seg[i].Rec? {
        if i > 0 { assert seg[1..][i - 1] == seg[i]; }
      }
    }
  }

  lemma {:induction false} CollectedIsOld(s: State, spec: map<Key, Value>)
    requires Inv(s, spec) && s.gc.Rewriting?
    ensures s.gc.file in s.vlog && s.gc.file < s.file
  {
    hide StorageInv, SpecOk;
  }

  /** The answers after a collection of segment `f`: keys hidden behind a tear are lost, others are as before. */
  ghost predicate Collected(before: State, f: nat, after: State, spec: map<Key, Value>) {
    forall k :: Engine.Get(after, k) == if HiddenIn(before, f, k) then Unreadable else SpecGet(spec, k)
  }

  lemma {:induction false} FinishCollecting(before: State, s: State, t: State, spec: map<Key, Value>)
    requires Inv(s, spec) && s.status.Up? && s.gc.Rewriting? && s.gc.done == |s.gc.live|
    requires forall k :: HiddenIn(s, s.gc.file, k) <==> HiddenIn(before, s.gc.file, k)
    requires t == s.(vlog := s.vlog - {s.gc.file}, gc := NoGc)
    ensures Collected(before, s.gc.file, t, spec)
    ensures Inv(t, spec) <==> NoneBehindTear(before, s.gc.file)
  {
    hide Inv, HiddenIn, Engine.Get;
    forall k ensures Engine.Get(t, k) == if HiddenIn(before, s.gc.file, k) then Unreadable else SpecGet(spec, k) {
      DeletedAnswers(s, spec, k);
    }
    if NoneBehindTear(before, s.gc.file) {
      GcStepKeeps(s, GcDelete, spec);
    } else if Inv(t, spec) {
      var k :| HiddenIn(before, s.gc.file, k);
      GetIsSpec(t, spec, k);
    }
  }

  /** A restart, field by field. */
  lemma {:induction false} RestartedIs(s: State, spec: map<Key, Value>, lost: seq<Table>, left: Remains, t: State)
    requires Inv(s, spec) && s.file in s.vlog && s.manifest.levels != []
    requires s.status.Up? && s.writer.Free? && s.comp.NoCompaction? && s.gc.NoGc?
    requires t.levels == Engine.Load(s.manifest.levels, lost) && t.levels != [] && !s.flushed
    requires t.vlog == Interrupted(s, left).vlog && t.file == Interrupted(s, left).file
    requires t == s.(status := Replaying(0, |t.levels[0]|), mem := map[], imm := [], levels := t.levels,
                     nextId := s.manifest.nextId, vlog := t.vlog, file := t.file, nextSn := 1)
    ensures Inv(t, spec)
  {
    hide Inv, Engine.Load;
    RestartStepKeeps(s, Crash(lost, left), spec);
    assert t == Restarted(s, lost, left);
  }

  /** A flush during a replay, field by field; an empty memtable leaves nothing behind. */
  lemma {:induction false} ReplayFlushIs(s: State, spec: map<Key, Value>, t: Table, u: State)
    requires Inv(s, spec) && s.status.Replaying? && s.levels != []
    requires s.mem == map[] ==> u == s
    requires s.mem != map[] ==>
               && TableOf(t, s.mem, s.nextId)
               && u == s.(mem := map[], levels := PushL0(s.levels, t), nextId := s.nextId + 1,
                          manifest := Manifest(PushL0(s.levels, t), s.nextId + 1))
    ensures Inv(u, spec)
  {
    hide Inv, TableOf;
    if s.mem != map[] {
      RestartStepKeeps(s, ReplayFlush(t), spec);
      StoreStepKeeps(ReplayFlushed(s, t), SaveManifest, spec);
      assert u == Saved(ReplayFlushed(s, t));
    }
  }

  /** Level 0 has at most got more tables, and the other levels are as they were. */
  predicate OnlyLevelZeroGrew(before: Levels, after: Levels) {
    && |after| == |before| && before != [] && before[0] <= after[0]
    && forall l :: 1 <= l < |after| ==> after[l] == before[l]
  }

  lemma {:induction false} SameLevels(levels: Levels)
    requires levels != []
    ensures OnlyLevelZeroGrew(levels, levels)
  {
  }

  lemma {:induction false} PushGrows(start: Levels, before: Levels, t: Table)
    requires OnlyLevelZeroGrew(start, before)
    ensures OnlyLevelZeroGrew(start, PushL0(before, t))
  {
  }

  /** Exactly the saved tables that still open are back. */
  lemma {:induction false} LoadedTables(saved: Levels, lost: seq<Table>, levels: Levels)
    requires OnlyLevelZeroGrew(Engine.Load(saved, lost), levels)
    ensures |levels| == |saved| && levels != []
    ensures forall l, t :: 0 <= l < |levels| && t in saved[l] && !HasId(lost, t.id) ==> t in levels[l]
    ensures forall l, t :: 1 <= l < |levels| && t in levels[l] ==> t in saved[l] && !HasId(lost, t.id)
  {
    hide RemoveIds;
  }

  lemma {:induction false} LoadLength(levels: Levels, lost: seq<Table>)
    ensures |Engine.Load(levels, lost)| == |levels|
  {
    hide RemoveIds;
  }

  lemma {:induction false} StartReplay(logs: seq<seq<KV>>)
    ensures Concat(logs[..0]) == [] && MaxSn([]) == 1
  {
  }

  lemma {:induction false} MaxSnNext(before: seq<KV>, file: seq<KV>, j: nat)
    requires j < |file|
    ensures var m := MaxSn(before + file[..j]);
            MaxSn(before + file[..j + 1]) == if file[j].entry.sn > m then file[j].entry.sn else m
  {
    var all := before + file[..j + 1];
    assert all[..|all| - 1] == before + file[..j];
  }

  lemma {:induction false} ReopenedIs(s: State, spec: map<Key, Value>, t: State)
    requires Inv(s, spec) && s.status.Replaying? && s.status.done == |s.log|
    requires t == s.(status := Up, nextSn := MaxSn(s.log) + 1)
    ensures Inv(t, spec)
    ensures forall i :: 0 <= i < |s.log| ==> s.log[i].entry.sn < t.nextSn
  {
    hide Inv;
    RestartStepKeeps(s, ReplayDone, spec);
    assert t == Reopened(s);
  }

  class DBImpl {
    const memtableLimit: nat
    const vlogLimit: nat
    const gcThreshold: real
    var memtable: MemTable
    var immutables: seq<MemTable>
    var levels: Levels
    var nextTableId: nat
    var manifest: Manifest
    var vlog: VLog
    var file: nat
    var offset: nat
    var logs: seq<seq<KV>>
    var sequence: nat
    ghost var gap: nat
    ghost var spec: map<Key, Value>
    ghost var repr: set<object>

    /** The memtables: `repr` is what they are made of, and they share nothing. */
    ghost predicate Heap()
      reads this`memtable, this`immutables, this`repr, repr
    {
      && this !in repr && memtable in repr && memtable in memtable.repr && memtable.repr <= repr && memtable.Valid()
      && (forall m :: m in immutables ==> m in repr && m in m.repr && m.repr <= repr)
      && (forall m :: m in immutables ==> m.repr !! memtable.repr && m.Valid())
    }

    lemma {:induction false} Apart()
      requires Heap()
      ensures this !in repr && memtable in repr && memtable.repr <= repr
      ensures forall m :: m in immutables ==> m in repr
    {
    }

    /** The offset counter is the size of the active segment, in which `gap` bytes belong to torn records. */
    ghost predicate Counted()
      reads this`vlog, this`file, this`offset, this`gap
    {
      && file in vlog && offset == SlotBytes(vlog[file]) + gap
      && ((forall i :: 0 <= i < |vlog[file]| ==> vlog[file][i].Rec?) <==> gap == 0)
    }

    lemma {:induction false} ActiveExists()
      requires Counted()
      ensures file in vlog
    {
    }

    /** The state of the engine that the object stands for, in a given phase. */
    ghost function At(status: Status, gc: Collector): State
      reads this, memtable, immutables
    {
      State(status, memtable.contents, Snapshot(immutables), false, levels, nextTableId, manifest, vlog, file,
            Concat(logs), sequence, Free, NoCompaction, gc)
    }

    ghost function View(): State
      reads this, memtable, immutables
    {
      At(Up, NoGc)
    }

    /** The object is well formed and holds exactly the map `spec`. */
    ghost predicate Valid()
      reads this, repr
    {
      Heap() && logs != [] && Counted() && Inv(View(), spec)
    }

    /** A fresh database. */
    constructor (n: nat, memtableLimit: nat, vlogLimit: nat, gcThreshold: real)
      requires n >= 1
      ensures Valid() && fresh(repr) && spec == map[]
      ensures |levels| == n
    {
      hide Inv, MemTable.Valid, EmptyLevels, Concat, Snapshot, Init;
      this.memtableLimit, this.vlogLimit, this.gcThreshold := memtableLimit, vlogLimit, gcThreshold;
      memtable := new MemTable(memtableLimit);
      immutables := [];
      var empty := EmptyLevels(n);
      levels, nextTableId, manifest := empty, 1, Manifest(empty, 1);
      vlog, file, offset, gap := map[1 := []], 1, 0, 0;
      logs, sequence := [[]], 2;
      spec := map[];
      new;
      repr := memtable.repr;
      NoLogs();
      InitInv(n);
      IsInit(View(), n);
    }

    // ---- Writing ----

    /** Appends a record to the value log, in a new segment if it would overflow the active one. */
    method Append(k: Key, v: Value) returns (ptr: Ptr, rotate: bool)
      requires Counted()
      modifies this`vlog, this`file, this`offset, this`gap
      ensures Counted()
      ensures rotate == (old(offset) + Pointers.RecordSize(k, v) > vlogLimit && old(offset) > 0)
      ensures ptr == if rotate then Ptr(old(file) + 1, 0) else Ptr(old(file), |old(vlog[file])|)
      ensures file == if rotate then old(file) + 1 else old(file)
      ensures vlog == if rotate then old(vlog)[old(file) + 1 := [Rec(k, v)]]
                      else old(vlog)[old(file) := old(vlog[file]) + [Rec(k, v)]]
    {
      hide SlotBytes;
      rotate := offset + Pointers.RecordSize(k, v) > vlogLimit && offset > 0;
      var segment := vlog[file];
      if rotate {
        file, offset, gap := file + 1, 0, 0;
        segment := [];
        NoSlotBytes();
      }
      ptr := Ptr(file, |segment|);
      assert rotate ==> segment + [Rec(k, v)] == [Rec(k, v)];
      SlotBytesSnoc(segment, Rec(k, v));
      StillTorn(segment, Rec(k, v));
      vlog := vlog[file := segment + [Rec(k, v)]];
      offset := offset + Pointers.RecordSize(k, v);
    }

    /** Logs a record and applies it to the memtable. */
    method Record(k: Key, e: Entry)
      requires Heap() && logs != []
      modifies this`logs, this`repr, memtable.repr
      ensures Heap() && logs != [] && fresh(repr - old(repr)) && fresh(memtable.repr - old(memtable.repr))
      ensures Concat(logs) == old(Concat(logs)) + [KV(k, e)]
      ensures memtable.contents == old(memtable.contents)[k := e]
      ensures Snapshot(immutables) == old(Snapshot(immutables))
    {
      hide MemTable.Valid, Snapshot, Concat;
      ConcatAppend(logs, KV(k, e));
      logs := logs[|logs| - 1 := logs[|logs| - 1] + [KV(k, e)]];
      memtable.Set(k, e);
      repr := repr + memtable.repr;
    }

    /** Draws a sequence number, appends the value and logs the put. */
    method LogValue(k: Key, v: Value) returns (ptr: Ptr, rotate: bool)
      requires Heap() && logs != [] && Counted()
      modifies this`sequence, this`vlog, this`file, this`offset, this`gap, this`logs, this`repr, memtable.repr
      ensures Heap() && logs != [] && Counted() && fresh(repr - old(repr))
      ensures old(file in vlog) && View() == PutDone(old(View()), k, v, rotate)
      ensures Concat(logs) == old(Concat(logs)) + [KV(k, Put(old(sequence), ptr))] && sequence == old(sequence) + 1
    {
      hide Heap, Counted, Snapshot, Concat, PutDone;
      ghost var s := View();
      Apart();
      assert file in vlog by { ActiveExists(); }
      var sn := sequence;
      sequence := sequence + 1;
      ptr, rotate := Append(k, v);
      Record(k, Put(sn, ptr));
      PutDoneIs(s, k, v, rotate, ptr, View());
    }

    method PutEntry(k: Key, v: Value) returns (ghost e: Entry)
      requires Valid()
      modifies this, repr
      ensures Valid() && fresh(repr - old(repr)) && spec == old(spec)[k := v]
      ensures memtable == old(memtable) && immutables == old(immutables)
      ensures e.Put? && e.sn == old(sequence) && sequence == old(sequence) + 1
      ensures Concat(logs) == old(Concat(logs)) + [KV(k, e)]
    {
      hide Inv, Heap, Counted, Snapshot, Concat, PutDone;
      ghost var s := View();
      Apart();
      InvFacts(s, spec);
      var ptr, rotate := LogValue(k, v);
      e := Put(s.nextSn, ptr);
      PutKeeps(s, spec, k, v, rotate);
      spec := spec[k := v];
    }

    method DeleteEntry(k: Key)
      requires Valid()
      modifies this, repr
      ensures Valid() && fresh(repr - old(repr)) && spec == old(spec) - {k}
      ensures memtable == old(memtable) && immutables == old(immutables)
      ensures sequence == old(sequence) + 1 && Concat(logs) == old(Concat(logs)) + [KV(k, Del(old(sequence)))]
    {
      hide Inv, Heap, Counted, Snapshot, Concat;
      ghost var s := View();
      Apart();
      var sn := sequence;
      sequence := sequence + 1;
      Record(k, Del(sn));
      DeleteWriteKeeps(s, spec, k);
      spec := spec - {k};
      assert View() == Wrote(s, k, Del(s.nextSn));
    }

    /** Makes the memtable immutable and starts an empty one with a new log. */
    method RotateMemtable()
      requires Heap() && logs != []
      modifies this`memtable, this`immutables, this`logs, this`repr
      ensures Heap() && logs != [] && fresh(repr - old(repr))
      ensures Snapshot(immutables) == old(Snapshot(immutables)) + [old(memtable.contents)]
      ensures memtable.contents == map[] && Concat(logs) == old(Concat(logs))
      ensures immutables == old(immutables) + [old(memtable)] && |logs| == |old(logs)| + 1
    {
      hide MemTable.Valid, Snapshot, Concat;
      ConcatNew(logs);
      SnapshotPush(immutables, memtable);
      immutables := immutables + [memtable];
      memtable := new MemTable(memtableLimit);
      logs := logs + [[]];
      repr := repr + memtable.repr;
    }

    /** Rotates exactly when the memtable is full. */
    method MaybeScheduleFlush()
      requires Valid()
      modifies this
      ensures Valid() && fresh(repr - old(repr)) && spec == old(spec)
      ensures Concat(logs) == old(Concat(logs)) && sequence == old(sequence)
      ensures old(memtable.Full()) ==>
                && immutables == old(immutables) + [old(memtable)] && memtable.contents == map[]
                && |logs| == |old(logs)| + 1
      ensures !old(memtable.Full()) ==> memtable == old(memtable) && immutables == old(immutables) && logs == old(logs)
    {
      hide Inv, MemTable.Valid, MemTable.Full, Snapshot, Concat;
      var full := memtable.ShouldFlush();
      if full {
        ghost var s := View();
        RotateMemtable();
        WriteStepKeeps(s, RotateMem, spec);
        assert View() == Rotated(s);
      }
    }

    /** Logs and applies one entry of a batch. */
    method WriteEntry(b: BatchEntry) returns (ghost e: Entry)
      requires Valid()
      modifies this, repr
      ensures Valid() && fresh(repr - old(repr))
      ensures spec == if b.BatchPut? then old(spec)[b.key := b.value] else old(spec) - {b.key}
      ensures e.sn == old(sequence) && sequence == old(sequence) + 1 && (e.Put? <==> b.BatchPut?)
      ensures Concat(logs) == old(Concat(logs)) + [KV(b.key, e)]
    {
      hide Inv, MemTable.Valid, Snapshot, Concat, Heap;
      match b {
        case BatchPut(k, v) => e := PutEntry(k, v);
        case BatchDelete(k) =>
          e := Del(sequence);
          DeleteEntry(k);
      }
    }

    /** Writes a batch. Of the entries that name a key the last one decides what the map then holds, other
        keys keep what they had, and the log grows by one record per entry, in order and numbered on. */
    method Write(batch: seq<BatchEntry>) returns (ghost added: seq<KV>)
      requires Valid()
      modifies this, repr
      ensures Valid() && fresh(repr - old(repr))
      ensures forall i :: 0 <= i < |batch| && (forall j :: i < j < |batch| ==> batch[j].key != batch[i].key) ==>
                if batch[i].BatchPut? then batch[i].key in spec && spec[batch[i].key] == batch[i].value
                else batch[i].key !in spec
      ensures forall k :: (forall j :: 0 <= j < |batch| ==> batch[j].key != k) ==>
                (k in spec <==> k in old(spec)) && (k in spec ==> spec[k] == old(spec)[k])
      ensures sequence == old(sequence) + |batch|
      ensures Concat(logs) == old(Concat(logs)) + added && |added| == |batch|
      ensures forall i :: 0 <= i < |batch| ==>
                && added[i].key == batch[i].key && added[i].entry.sn == old(sequence) + i
                && (added[i].entry.Put? <==> batch[i].BatchPut?)
    {
      hide Valid, MemTable.Full;
      added := [];
      for i := 0 to |batch|
        invariant Valid() && fresh(repr - old(repr)) && sequence == old(sequence) + i
        invariant spec == ApplyBatch(old(spec), batch[..i])
        invariant Concat(logs) == old(Concat(logs)) + added && |added| == i
        invariant forall j :: 0 <= j < i ==>
                    && added[j].key == batch[j].key && added[j].entry.sn == old(sequence) + j
                    && (added[j].entry.Put? <==> batch[j].BatchPut?)
      {
        assert batch[..i + 1][..i] == batch[..i];
        ghost var e := WriteEntry(batch[i]);
        added := added + [KV(batch[i].key, e)];
      }
      assert batch[..|batch|] == batch;
      MaybeScheduleFlush();
      BatchMeans(old(spec), batch, spec);
    }

    // ---- Reading ----

    /** The newest entry of a key: memtable, immutable memtables newest first, then the tables. */
    method FindLatest(k: Key) returns (r: Option<Entry>)
      requires Heap() && levels != [] && forall l :: 0 <= l < |levels| ==> ValidTables(levels[l])
      ensures r == Or(Or(Find(memtable.contents, k), ImmHit(Snapshot(immutables), k)), LevelsHit(levels, 0, k))
    {
      hide MemTable.Valid, Snapshot, ValidTables, LevelsHit, ImmHit;
      r := memtable.Get(k);
      if r.None? { r := ImmutableGet(immutables, k); }
      if r.None? { r := TablesGet(levels, k); }
    }

    /** A lookup answers as the map does. */
    method Get(k: Key) returns (r: Answer)
      requires Valid()
      ensures k in spec ==> r == Found(spec[k])
      ensures k !in spec ==> r == NotFound
    {
      hide Inv, MemTable.Valid, Snapshot, Concat, ValidTables, LevelsHit, ImmHit, LevelsOk;
      InvFacts(View(), spec);
      GetIsSpec(View(), spec, k);
      VisibleIs(View(), k);
      var e := FindLatest(k);
      match e
      case None => r := NotFound;
      case Some(Del(_)) => r := NotFound;
      case Some(Put(_, p)) =>
        r := if Readable(vlog, p) then Found(vlog[p.file][p.index].value) else Unreadable;
    }

    // ---- Flushing ----

    /** Writes a memtable as a table of level 0; an empty one leaves nothing behind. */
    method FlushMemTable(m: MemTable) returns (t: Table)
      requires m.Valid() && this !in m.repr && levels != []
      modifies this`levels, this`nextTableId, this`manifest
      ensures m.contents == map[] ==>
                levels == old(levels) && nextTableId == old(nextTableId) && manifest == old(manifest)
      ensures m.contents != map[] ==>
                && TableOf(t, m.contents, old(nextTableId)) && levels == PushL0(old(levels), t)
                && nextTableId == old(nextTableId) + 1 && manifest == Manifest(levels, nextTableId)
    {
      hide MemTable.Valid, Ascending;
      t := Table(0, []);
      var n := m.Count();
      if n == 0 { return; }
      var id := nextTableId;
      nextTableId := nextTableId + 1;
      var entries := m.GetSortedEntries();
      t := Table(id, entries);
      levels := PushL0(levels, t);
      manifest := Manifest(levels, nextTableId);
    }

    lemma {:induction false} ActiveOk()
      requires Heap()
      ensures memtable.Valid() && this !in memtable.repr
    {
      hide MemTable.Valid;
    }

    lemma {:induction false} OldestOk()
      requires Heap() && immutables != []
      ensures immutables[0].Valid() && this !in immutables[0].repr
    {
      hide MemTable.Valid;
      assert immutables[0] in immutables;
    }

    method PopOldest()
      requires Heap() && immutables != []
      modifies this`immutables
      ensures Heap() && immutables == old(immutables)[1..]
      ensures Snapshot(immutables) == old(Snapshot(immutables))[1..]
    {
      hide MemTable.Valid, Snapshot;
      immutables := immutables[1..];
    }

    /** Installs the oldest immutable memtable in level 0, then pops it. */
    method FlushOldest() returns (ghost t: Table)
      requires Valid()
      modifies this
      ensures Valid() && repr == old(repr) && spec == old(spec) && |levels| == |old(levels)|
      ensures memtable == old(memtable)
      ensures old(immutables) == [] ==> View() == old(View())
      ensures old(immutables) != [] ==>
                && immutables == old(immutables)[1..] && levels != []
                && (var m := old(immutables)[0].contents;
                    && (m == map[] || TableOf(t, m, old(nextTableId)))
                    && levels == (if m == map[] then old(levels) else PushL0(old(levels), t))
                    && (m != map[] ==> nextTableId == old(nextTableId) + 1
                                       && manifest == Manifest(levels, nextTableId)))
    {
      hide Inv, Heap, MemTable.Valid, Snapshot, Concat, TableOf, LevelsOk, PushL0;
      t := Table(0, []);
      if immutables == [] { return; }
      ghost var s := View();
      InvFacts(s, spec);
      var m := immutables[0];
      OldestOk();
      Apart();
      var table := FlushMemTable(m);
      t := table;
      PopOldest();
      FlushKeeps(s, spec, t);
      assert View() == FlushDone(s, t);
    }

    // ---- Compaction ----

    /** Merges a level that is not empty into the next: a legal compaction of the tables found there. */
    method MergeLevel(lvl: nat) returns (overlap: seq<Table>, tables: seq<Table>, nextId: nat)
      requires Valid() && lvl + 1 < |levels| && levels[lvl] != []
      ensures CanCompact(View(), lvl, overlap, tables, nextId)
    {
      hide Inv, Heap, Snapshot, Concat, IsMerge, Overlapping, Lo, Hi, LevelsOk, ValidTables, DistinctIds;
      InvFacts(View(), spec);
      var lo, hi := KeyRange(levels[lvl]);
      overlap := FindOverlapping(levels[lvl + 1], lo, hi);
      BothValid(levels, lvl, overlap, lo, hi);
      tables, nextId := MergeTables(levels[lvl] + overlap, levels, lvl + 2, memtableLimit, nextTableId);
    }

    /** Compacts a level and installs the result, which no lookup can tell. The level is empty afterwards, and
        in the next one the tables whose ranges it overlapped have given way to the merged ones. These hold of
        every key its newest merged version, and a tombstone only if a table further down holds the key. */
    method CompactLevel(lvl: int) returns (ok: bool, ghost next: seq<Table>, ghost outs: seq<Table>)
      requires Valid()
      modifies this`levels, this`nextTableId, this`manifest
      ensures Valid() && |levels| == |old(levels)|
      ensures ok <==> 0 <= lvl && lvl + 1 < |levels|
      ensures !ok || old(levels)[lvl] == [] ==> levels == old(levels)
      ensures ok ==> levels[lvl] == [] && forall l :: 0 <= l < |levels| && l != lvl && l != lvl + 1 ==>
                levels[l] == old(levels)[l]
      ensures ok && old(levels)[lvl] != [] ==>
                && CanCompact(old(View()), lvl, next, outs, nextTableId)
                && levels == Installed(old(levels), lvl, old(levels)[lvl], next, outs)
                && nextTableId == old(nextTableId) + |outs| && manifest == Manifest(levels, nextTableId)
                && (forall t :: t in levels[lvl + 1] <==> t in outs || (t in old(levels)[lvl + 1] && t !in next))
                && (forall t :: t in next <==> t in old(levels)[lvl + 1] && Between(t, old(levels)[lvl]))
                && (forall k, e :: HeldBy(outs, k, e) <==>
                      && HeldBy(old(levels)[lvl] + next, k, e)
                      && (forall x :: HeldBy(old(levels)[lvl] + next, k, x) ==> x.sn <= e.sn)
                      && (e.Put? || exists l, t ::
                            lvl + 2 <= l < |levels| && t in old(levels)[l] && k in Data(t.entries)))
    {
      hide Inv, Heap, Counted, Snapshot, Concat, RemoveIds, SortTables, CanCompact, LevelsOk, ValidTables, DistinctIds,
           HeldBy, Between, Data;
      ok, next, outs := 0 <= lvl && lvl + 1 < |levels|, [], [];
      if !ok || levels[lvl] == [] { return; }
      ghost var s := View();
      InvFacts(s, spec);
      Apart();
      var overlap, tables, nextId := MergeLevel(lvl);
      next, outs := overlap, tables;
      InstallMerge(lvl, overlap, tables, nextId);
      CompactKeeps(s, spec, lvl, next, outs, nextId);
      CompactionMeans(s, spec, lvl, next, outs, nextId);
    }

    /** Erases the inputs, adds the merged tables, sorts, and saves the manifest. */
    method InstallMerge(lvl: nat, overlap: seq<Table>, tables: seq<Table>, nextId: nat)
      requires Heap() && lvl + 1 < |levels|
      requires ValidTables(levels[lvl]) && DistinctIds(levels[lvl])
      requires ValidTables(levels[lvl + 1]) && DistinctIds(levels[lvl + 1])
      modifies this`levels, this`nextTableId, this`manifest
      ensures Heap() && View() == CompactDone(old(View()), lvl, overlap, tables, nextId)
    {
      hide Heap, Snapshot, Concat, RemoveIds, SortTables, ValidTables, DistinctIds;
      Apart();
      var here := EraseInputs(levels[lvl], levels[lvl]);
      var below := EraseInputs(levels[lvl + 1], overlap);
      levels := levels[lvl := here][lvl + 1 := SortTables(below + tables)];
      nextTableId := nextId;
      manifest := Manifest(levels, nextTableId);
    }

    /** Compacts every level in turn: afterwards the last level holds exactly the newest values. */
    method CompactRange()
      requires Valid()
      modifies this`levels, this`nextTableId, this`manifest
      ensures Valid() && |levels| == |old(levels)|
      ensures |levels| >= 2 ==>
                && (forall l :: 0 <= l < |levels| - 1 ==> levels[l] == [])
                && (forall k, e :: HeldBy(levels[|levels| - 1], k, e) ==> IsNewest(old(levels), k, e) && e.Put?)
                && (forall k, e :: IsNewest(old(levels), k, e) && e.Put? ==> HeldBy(levels[|levels| - 1], k, e))
    {
      hide Inv, Heap, Installed, LevelHit, KeepsNewest, FullyCompacted, EmptyAbove, CanCompact, LastLevelLive, LevelsOk,
           IsNewest, HeldBy, Between, Data;
      InvFacts(View(), spec);
      NothingAbove(levels);
      for lvl := 0 to |levels| - 1
        invariant Valid() && |levels| == |old(levels)|
        invariant EmptyAbove(levels, lvl) && KeepsNewest(old(levels), levels)
      {
        if levels[lvl] != [] {
          ghost var s := View();
          var ok, next, outs := CompactLevel(lvl);
          CompactionSinks(s, spec, lvl, next, outs, nextTableId, old(levels));
        } else {
          EmptyBelow(levels, lvl);
        }
      }
      InvFacts(View(), spec);
      InvLastLevel(View(), spec);
      if |levels| >= 2 {
        LastLevelIsNewest(old(levels), levels);
        FullyCompactedIs(old(levels), levels);
      }
    }

    /** One round of the background thread: flush the oldest immutable memtable, then compact every level
        that is over its limit, where `size` tells the size of a table's file. Afterwards no level but the last
        is over its limit. With nothing to flush it does nothing. */
    method FlushRound(size: Table -> nat)
      requires Valid()
      modifies this
      ensures Valid() && repr == old(repr) && spec == old(spec) && memtable == old(memtable)
      ensures old(immutables) == [] ==> View() == old(View())
      ensures old(immutables) != [] ==>
                && immutables == old(immutables)[1..]
                && forall l :: 0 <= l < |levels| - 1 ==> !OverLimit(levels[l], l, size)
    {
      hide Inv, Heap, Installed, CanCompact, LevelsOk, TableOf, PushL0, OverLimit;
      if immutables == [] { return; }
      var _ := FlushOldest();
      CompactDue(size);
    }

    /** Compacts every level that is over its limit: afterwards none but the last is. */
    method CompactDue(size: Table -> nat)
      requires Valid()
      modifies this`levels, this`nextTableId, this`manifest
      ensures Valid() && |levels| == |old(levels)|
      ensures forall l :: 0 <= l < |levels| - 1 ==> !OverLimit(levels[l], l, size)
      ensures (forall l :: 0 <= l < |levels| - 1 ==> !OverLimit(old(levels)[l], l, size)) ==> levels == old(levels)
      ensures |levels| >= 2 && |old(levels)[0]| >= 4 ==> levels[0] == []
    {
      hide Inv, Heap, Installed, CanCompact, LevelsOk, HeldBy, Between, Data, OverLimit;
      InvFacts(View(), spec);
      if |levels| >= 2 { LevelZeroLimit(levels[0], size); }
      for lvl := 0 to |levels| - 1
        invariant Valid() && |levels| == |old(levels)|
        invariant forall l :: 0 <= l < lvl ==> !OverLimit(levels[l], l, size)
        invariant (forall l :: 0 <= l < |levels| - 1 ==> !OverLimit(old(levels)[l], l, size)) ==> levels == old(levels)
        invariant lvl == 0 ==> levels == old(levels)
        invariant lvl > 0 && |old(levels)[0]| >= 4 ==> levels[0] == []
      {
        var due := NeedsCompaction(levels[lvl], lvl, size);
        if due { var _, _, _ := CompactLevel(lvl); }
        EmptyIsNotDue(lvl, size);
      }
    }

    // ---- Garbage collection ----

    /** The oldest segment that is not the active one. */
    method OldestSegment() returns (found: bool, f: nat)
      ensures found ==> f in vlog && f < file
      ensures found ==> forall g :: 0 <= g < f ==> g !in vlog
      ensures !found ==> forall g :: 0 <= g < file ==> g !in vlog
    {
      f := 0;
      while f < file && f !in vlog
        invariant f <= file && forall g :: 0 <= g < f ==> g !in vlog
      {
        f := f + 1;
      }
      found := f < file;
    }

    /** Is the record the newest version of its key? */
    method ScanOne(f: nat, pos: nat, live: seq<nat>) returns (live': seq<nat>)
      requires Heap() && f in vlog && pos < |vlog[f]| && vlog[f][pos].Rec?
      requires Inv(At(Up, Scanning(f, pos, live)), spec)
      ensures Inv(At(Up, Scanning(f, pos + 1, live')), spec)
      ensures live' == if PointsTo(Visible(View(), vlog[f][pos].key), Ptr(f, pos)) then live + [pos] else live
    {
      hide Inv, MemTable.Valid, Snapshot, Concat, ValidTables, LevelsHit, ImmHit, LevelsOk, Visible;
      ghost var s := At(Up, Scanning(f, pos, live));
      InvFacts(s, spec);
      VisibleIs(s, vlog[f][pos].key);
      VisibleIs(View(), vlog[f][pos].key);
      GcStepKeeps(s, GcScan, spec);
      var e := FindLatest(vlog[f][pos].key);
      live' := if PointsTo(e, Ptr(f, pos)) then live + [pos] else live;
      assert At(Up, Scanning(f, pos + 1, live')) == Next(s, GcScan);
    }

    /** Reads a segment from its start to its end or its first torn record, and notes what is live. */
    method ScanSegment(f: nat) returns (pos: nat, live: seq<nat>, total: nat, liveBytes: nat)
      requires Valid() && f in vlog && f < file
      ensures Inv(At(Up, Scanning(f, pos, live)), spec)
      ensures pos == ScanEnd(vlog[f]) && ScanEnded(vlog[f], pos) && live == LiveIn(View(), f, pos)
      ensures total == SlotBytes(vlog[f][..pos]) && liveBytes == LiveBytes(vlog[f], live)
    {
      hide Inv, Heap, Snapshot, Concat, Visible, PointsTo, SlotBytes, LiveBytes, LiveIn;
      ScanStart(View(), f);
      GcStepKeeps(View(), GcBegin(f), spec);
      pos, live, total, liveBytes := 0, [], 0, 0;
      while pos < |vlog[f]| && vlog[f][pos].Rec?
        invariant pos <= |vlog[f]| && forall i :: 0 <= i < pos ==> vlog[f][i].Rec?
        invariant Inv(At(Up, Scanning(f, pos, live)), spec) && live == LiveIn(View(), f, pos)
        invariant total == SlotBytes(vlog[f][..pos]) && liveBytes == LiveBytes(vlog[f], live)
      {
        var size := Pointers.RecordSize(vlog[f][pos].key, vlog[f][pos].value);
        var live' := ScanOne(f, pos, live);
        ScanStep(View(), f, pos, live, live');
        total := total + size;
        if live' != live { liveBytes := liveBytes + size; }
        live, pos := live', pos + 1;
      }
      ScanEndIs(vlog[f], pos);
    }

    /** The compare-and-swap: points the key at its copy if its newest entry still is the original. */
    method Swap(k: Key, from: Ptr, to: Ptr) returns (moved: bool)
      requires Heap() && logs != [] && levels != [] && forall l :: 0 <= l < |levels| ==> ValidTables(levels[l])
      modifies this`sequence, this`logs, this`repr, memtable.repr
      ensures Heap() && logs != [] && fresh(repr - old(repr)) && fresh(memtable.repr - old(memtable.repr))
      ensures moved == PointsTo(Or(old(Or(Find(memtable.contents, k), ImmHit(Snapshot(immutables), k))),
                                   LevelsHit(levels, 0, k)), from)
      ensures Snapshot(immutables) == old(Snapshot(immutables))
      ensures memtable.contents
           == if moved then old(memtable.contents)[k := Put(old(sequence), to)] else old(memtable.contents)
      ensures Concat(logs) == if moved then old(Concat(logs)) + [KV(k, Put(old(sequence), to))] else old(Concat(logs))
      ensures sequence == if moved then old(sequence) + 1 else old(sequence)
    {
      hide MemTable.Valid, Snapshot, Concat, ValidTables, LevelsHit, ImmHit;
      var e := FindLatest(k);
      moved := PointsTo(e, from);
      if moved {
        var sn := sequence;
        sequence := sequence + 1;
        Record(k, Put(sn, to));
      }
    }

    /** Copies the next live record to the end of the log and swaps its key over. */
    method RelocateOne(f: nat, live: seq<nat>, done: nat) returns (rotate: bool)
      requires Heap() && logs != [] && Counted() && done < |live| && Inv(At(Up, Rewriting(f, live, done)), spec)
      modifies this`vlog, this`file, this`offset, this`gap, this`sequence, this`logs, this`repr, memtable.repr
      ensures Heap() && logs != [] && Counted()
      ensures fresh(repr - old(repr)) && fresh(memtable.repr - old(memtable.repr))
      ensures old(HasNext(At(Up, Rewriting(f, live, done))) && file in vlog)
      ensures At(Up, Rewriting(f, live, done + 1)) == RelocateDone(old(At(Up, Rewriting(f, live, done))), rotate)
    {
      hide Inv, MemTable.Valid, Counted, Snapshot, Concat, ValidTables, LevelsHit, ImmHit, LevelsOk, RelocateDone,
           Visible,
           PointsTo;
      ghost var s := At(Up, Rewriting(f, live, done));
      InvFacts(s, spec);
      RelocateReady(s, spec);
      var r := vlog[f][live[done]];
      VisibleIs(s, r.key);
      var ptr;
      ptr, rotate := Append(r.key, r.value);
      var moved := Swap(r.key, Ptr(f, live[done]), ptr);
      RelocateDoneIs(s, rotate, ptr, moved, At(Up, Rewriting(f, live, done + 1)));
    }

    method DeleteSegment(f: nat)
      requires Counted() && f < file
      modifies this`vlog
      ensures Counted() && vlog == old(vlog) - {f}
    {
      hide SlotBytes;
      vlog := vlog - {f};
    }

    /** Rewrites the live records of a scanned segment and deletes it. */
    method Collect(f: nat, ghost pos: nat, live: seq<nat>)
      requires Heap() && logs != [] && Counted() && Inv(At(Up, Scanning(f, pos, live)), spec)
      requires f in vlog && pos == ScanEnd(vlog[f]) && ScanEnded(vlog[f], pos) && pos > 0
      modifies this`vlog, this`file, this`offset, this`gap, this`sequence, this`logs, this`repr, memtable.repr
      ensures Heap() && logs != [] && Counted() && fresh(repr - old(repr)) && f !in vlog && spec == old(spec)
      ensures Collected(old(View()), f, View(), spec)
      ensures Valid() <==> NoneBehindTear(old(View()), f)
    {
      hide Inv, MemTable.Valid, Snapshot, Concat, NoneBehindTear, HiddenIn, RelocateDone, HasNext, Collected,
           BehindTear,
           ScanEnd, Counted;
      ghost var before, seg := View(), vlog[f];
      StartRewriting(At(Up, Scanning(f, pos, live)), spec);
      forall k ensures HiddenIn(before, f, k) <==> HiddenIn(At(Up, Rewriting(f, live, 0)), f, k) {
        HiddenAlike(before, At(Up, Rewriting(f, live, 0)), f, k);
      }
      for done := 0 to |live|
        invariant Heap() && logs != [] && Counted() && fresh(repr - old(repr)) && spec == old(spec)
        invariant fresh(memtable.repr - old(memtable.repr))
        invariant Inv(At(Up, Rewriting(f, live, done)), spec) && f in vlog && vlog[f] == seg
        invariant forall k :: HiddenIn(At(Up, Rewriting(f, live, done)), f, k) <==> HiddenIn(before, f, k)
      {
        ghost var s := At(Up, Rewriting(f, live, done));
        CollectedIsOld(s, spec);
        ScannedBeforeTears(seg, live[done]);
        var rotate := RelocateOne(f, live, done);
        RelocateKeeps(s, spec, rotate);
        forall k ensures HiddenIn(RelocateDone(s, rotate), f, k) <==> HiddenIn(s, f, k) {
          RelocateKeepsHidden(s, spec, rotate, k);
        }
        RelocateKeepsSegment(s, rotate);
      }
      ghost var s := At(Up, Rewriting(f, live, |live|));
      CollectedIsOld(s, spec);
      DeleteSegment(f);
      FinishCollecting(before, s, View(), spec);
    }

    /** Scans a segment and decides whether enough of it is garbage. */
    method Judge(f: nat) returns (pos: nat, live: seq<nat>, worth: bool)
      requires Valid() && f in vlog && f < file
      ensures Inv(At(Up, Scanning(f, pos, live)), spec)
      ensures pos == ScanEnd(vlog[f]) && ScanEnded(vlog[f], pos)
      ensures worth <==> pos > 0 && DeadBytes(View(), f, pos) as real >= gcThreshold * SlotBytes(vlog[f][..pos]) as real
      ensures pos > 0 && gcThreshold <= 1.0 && (forall i :: 0 <= i < pos ==> !IsLive(View(), f, i)) ==> worth
      ensures gcThreshold > 0.0 && (forall i :: 0 <= i < pos ==> IsLive(View(), f, i)) ==> !worth
    {
      hide Valid, Inv, Snapshot, Concat, ScanEnd, LiveIn, SlotBytes, LiveBytes, DeadBytes, IsLive;
      var total, liveBytes;
      pos, live, total, liveBytes := ScanSegment(f);
      worth := total > 0 && 1.0 - liveBytes as real / total as real >= gcThreshold;
      DecisionIs(View(), f, pos, total, liveBytes, gcThreshold);
      if total > 0 { Extremes(total, gcThreshold); } else { NothingScanned(vlog[f], pos); }
    }

    /** Collects the oldest closed segment exactly if enough of what its scan sees is garbage: the bytes of the
        records that are not current are at least the threshold's share of all. Then the segment is gone, and
        a lookup finds what the map holds, except for the keys whose value lay behind a torn record, which are
        lost: so the collection keeps the database whole if and only if there was no such key. */
    method RunGC() returns (collected: bool, ghost found: bool, ghost f: nat)
      requires Valid()
      modifies this`vlog, this`file, this`offset, this`gap, this`sequence, this`logs, this`repr, memtable.repr
      ensures Heap() && logs != [] && Counted() && fresh(repr - old(repr)) && spec == old(spec)
      ensures found ==> f in old(vlog) && f < old(file) && forall g :: 0 <= g < f ==> g !in old(vlog)
      ensures !found ==> !collected && forall g :: 0 <= g < old(file) ==> g !in old(vlog)
      ensures found ==>
                var n := ScanEnd(old(vlog)[f]);
                && (collected <==> n > 0 && DeadBytes(old(View()), f, n) as real
                                            >= gcThreshold * SlotBytes(old(vlog)[f][..n]) as real)
                && (n > 0 && gcThreshold <= 1.0 && (forall i :: 0 <= i < n ==> !IsLive(old(View()), f, i)) ==>
                      collected)
                && (gcThreshold > 0.0 && (forall i :: 0 <= i < n ==> IsLive(old(View()), f, i)) ==> !collected)
      ensures !collected ==> Valid() && View() == old(View())
      ensures collected ==> f !in vlog && (Valid() <==> NoneBehindTear(old(View()), f))
      ensures collected ==> forall k ::
                Engine.Get(View(), k) == if HiddenIn(old(View()), f, k) then Unreadable else SpecGet(spec, k)
    {
      hide Inv, Heap, Counted, MemTable.Valid, Snapshot, Concat, NoneBehindTear, ScanEnd, LiveIn, SlotBytes, LiveBytes,
           DeadBytes, IsLive, Engine.Get, HiddenIn;
      collected := false;
      var some, oldest := OldestSegment();
      found, f := some, oldest;
      if !some { return; }
      var pos, live;
      pos, live, collected := Judge(oldest);
      Apart();
      if collected { Collect(oldest, pos, live); }
    }

    // ---- Crash and recovery ----

    /** Replaces the memtable by an empty one. */
    method FreshMemtable()
      requires Heap()
      modifies this`memtable, this`repr
      ensures Heap() && fresh(memtable.repr) && fresh(repr - old(repr))
      ensures memtable.contents == map[] && Snapshot(immutables) == old(Snapshot(immutables))
    {
      hide MemTable.Valid, Snapshot;
      memtable := new MemTable(memtableLimit);
      repr := repr + memtable.repr;
    }

    method DropMemtables()
      requires Heap()
      modifies this`memtable, this`immutables, this`repr
      ensures Heap() && fresh(memtable.repr) && fresh(repr - old(repr))
      ensures memtable.contents == map[] && Snapshot(immutables) == []
    {
      hide MemTable.Valid, Snapshot;
      immutables := [];
      FreshMemtable();
    }

    /** What an interrupted append leaves of the value log: of a torn record, its first `torn` bytes. */
    method Interrupt(left: Remains, torn: nat)
      requires Counted() && (left.TornTail? || left.TornSegment? ==> torn > 0)
      modifies this`vlog, this`file, this`offset, this`gap
      ensures Counted()
      ensures vlog == Interrupted(old(View()), left).vlog && file == Interrupted(old(View()), left).file
    {
      hide SlotBytes;
      NoSlotBytes();
      match left {
        case Clean =>
        case TornTail =>
          SlotBytesSnoc(vlog[file], Torn);
          StillTorn(vlog[file], Torn);
          vlog, offset, gap := vlog[file := vlog[file] + [Torn]], offset + torn, gap + torn;
        case EmptySegment =>
          vlog, file, offset, gap := vlog[file + 1 := []], file + 1, 0, 0;
        case TornSegment =>
          SlotBytesSnoc([], Torn);
          StillTorn([], Torn);
          assert [] + [Torn] == [Torn];
          vlog, file, offset, gap := vlog[file + 1 := [Torn]], file + 1, torn, torn;
      }
    }

    /** What a crash leaves and opening loads: the saved tables that still open, an empty memtable, and
        the value log, perhaps with the remains of the record that was being appended. */
    method Load(lost: seq<Table>, left: Remains, torn: nat)
      requires Valid() && (left.TornTail? || left.TornSegment? ==> torn > 0)
      modifies this`memtable, this`immutables, this`levels, this`nextTableId
      modifies this`vlog, this`file, this`offset, this`gap, this`sequence, this`repr
      ensures Heap() && Counted() && fresh(repr - old(repr)) && fresh(memtable.repr) && levels != []
      ensures Inv(At(Replaying(0, |levels[0]|), NoGc), spec)
      ensures memtable.contents == map[] && sequence == 1 && levels == Engine.Load(manifest.levels, lost)
    {
      hide Inv, MemTable.Valid, Snapshot, Concat, LevelsOk, Engine.Load, Interrupted, Heap, Counted;
      Apart();
      ghost var s := View();
      InvFacts(s, spec);
      Interrupt(left, torn);
      LoadManifest(lost);
      DropMemtables();
      RestartedIs(s, spec, lost, left, At(Replaying(0, |levels[0]|), NoGc));
    }

    /** The tables a saved manifest lists that still open; numbering starts anew. */
    method LoadManifest(lost: seq<Table>)
      requires Heap() && manifest.levels != []
      modifies this`levels, this`nextTableId, this`sequence
      ensures Heap() && levels == Engine.Load(manifest.levels, lost) && levels != []
      ensures nextTableId == manifest.nextId && sequence == 1
    {
      hide Heap, Engine.Load;
      Apart();
      LoadLength(manifest.levels, lost);
      levels, nextTableId, sequence := Engine.Load(manifest.levels, lost), manifest.nextId, 1;
    }

    /** Replays one record into the memtable. */
    method ReplayOne(r: KV, ghost done: nat, ghost base: nat)
      requires Heap() && Inv(At(Replaying(done, base), NoGc), spec)
      requires done < |Concat(logs)| && Concat(logs)[done] == r
      modifies this`repr, memtable.repr
      ensures Heap() && fresh(repr - old(repr)) && fresh(memtable.repr - old(memtable.repr)) && spec == old(spec)
      ensures logs == old(logs) && sequence == old(sequence)
      ensures Inv(At(Replaying(done + 1, base), NoGc), spec)
    {
      hide Inv, MemTable.Valid, Snapshot, Concat;
      ghost var s := At(Replaying(done, base), NoGc);
      RestartStepKeeps(s, ReplayRecord, spec);
      memtable.Set(r.key, r.entry);
      repr := repr + memtable.repr;
      assert At(Replaying(done + 1, base), NoGc) == Replayed(s);
    }

    /** Between two logs a full memtable goes to level 0. */
    method ReplayFlushIfFull(ghost done: nat, ghost base: nat) returns (ghost t: Table)
      requires Heap() && Inv(At(Replaying(done, base), NoGc), spec)
      modifies this`memtable, this`levels, this`nextTableId, this`manifest, this`repr
      ensures Heap() && fresh(repr - old(repr)) && (memtable == old(memtable) || fresh(memtable.repr))
      ensures Inv(At(Replaying(done, base), NoGc), spec)
      ensures old(memtable.Full()) ==> memtable.contents == map[]
      ensures !old(memtable.Full()) || old(memtable.contents) == map[] ==> levels == old(levels)
      ensures old(memtable.Full()) && old(memtable.contents) != map[] ==>
                && TableOf(t, old(memtable.contents), old(nextTableId)) && old(levels) != []
                && levels == PushL0(old(levels), t) && manifest == Manifest(levels, nextTableId)
    {
      hide Inv, Heap, MemTable.Valid, MemTable.Full, Snapshot, Concat, TableOf, LevelsOk, ReplayFlushed, PushL0;
      t := Table(0, []);
      Apart();
      ActiveOk();
      var full := memtable.ShouldFlush();
      if full {
        ghost var s := At(Replaying(done, base), NoGc);
        InvFacts(s, spec);
        var table := FlushMemTable(memtable);
        t := table;
        FreshMemtable();
        ReplayFlushIs(s, spec, t, At(Replaying(done, base), NoGc));
      }
    }

    /** Opens the database after a crash: loads the tables, replays every log in order and numbers on
        from the highest sequence seen. Nothing that was logged is lost, whatever `lost` and `left`. */
    method Recover(lost: seq<Table>, left: Remains, torn: nat)
      requires Valid() && (left.TornTail? || left.TornSegment? ==> torn > 0)
      modifies this
      ensures Valid() && fresh(repr - old(repr)) && spec == old(spec)
      ensures Concat(logs) == old(Concat(logs))
      ensures forall i :: 0 <= i < |Concat(logs)| ==> Concat(logs)[i].entry.sn < sequence
      ensures |levels| == |old(manifest).levels| && levels != []
      ensures forall l, t :: 0 <= l < |levels| && t in old(manifest).levels[l] && !HasId(lost, t.id) ==> t in levels[l]
      ensures forall l, t :: 1 <= l < |levels| && t in levels[l] ==> t in old(manifest).levels[l] && !HasId(lost, t.id)
    {
      hide Inv, Heap, Counted, Snapshot, Concat, MaxSn, OnlyLevelZeroGrew, Engine.Load, HasId;
      Apart();
      Load(lost, left, torn);
      ghost var base := |levels[0]|;
      Apart();
      var maxSn := ReplayLogs(base);
      ghost var reached := levels;
      Reopen(maxSn, base);
      LoadedTables(old(manifest).levels, lost, reached);
    }

    /** Numbers on from the highest sequence seen and starts a new log. */
    method Reopen(maxSn: nat, ghost base: nat)
      requires Heap() && Inv(At(Replaying(|Concat(logs)|, base), NoGc), spec) && maxSn == MaxSn(Concat(logs))
      modifies this`sequence, this`logs
      ensures Heap() && logs != [] && Inv(View(), spec) && Concat(logs) == old(Concat(logs))
      ensures forall i :: 0 <= i < |Concat(logs)| ==> Concat(logs)[i].entry.sn < sequence
    {
      hide Inv, Heap, Snapshot, Concat, MaxSn;
      Apart();
      ghost var s := At(Replaying(|Concat(logs)|, base), NoGc);
      sequence := maxSn + 1;
      ConcatNew(logs);
      logs := logs + [[]];
      ReopenedIs(s, spec, View());
    }

    /** Replays the log files in id order. */
    method ReplayLogs(ghost base: nat) returns (maxSn: nat)
      requires Heap() && Inv(At(Replaying(0, base), NoGc), spec) && sequence == 1
      modifies this`memtable, this`levels, this`nextTableId, this`manifest, this`repr, memtable.repr
      ensures Heap() && fresh(repr - old(repr)) && OnlyLevelZeroGrew(old(levels), levels)
      ensures Inv(At(Replaying(|Concat(logs)|, base), NoGc), spec) && maxSn == MaxSn(Concat(logs))
    {
      hide Inv, MemTable.Valid, MemTable.Full, Snapshot, Concat, MaxSn, PushL0, TableOf, OnlyLevelZeroGrew, LevelsOk;
      maxSn := sequence;
      StartReplay(logs);
      InvFacts(At(Replaying(0, base), NoGc), spec);
      SameLevels(levels);
      for i := 0 to |logs|
        invariant Heap() && fresh(repr - old(repr)) && (memtable == old(memtable) || fresh(memtable.repr))
        invariant fresh(memtable.repr - old(memtable.repr))
        invariant Inv(At(Replaying(|Concat(logs[..i])|, base), NoGc), spec)
        invariant maxSn == MaxSn(Concat(logs[..i])) && OnlyLevelZeroGrew(old(levels), levels)
      {
        ghost var before := levels;
        maxSn := ReplayLog(i, base, maxSn);
        ghost var t := ReplayFlushIfFull(|Concat(logs[..i + 1])|, base);
        PushGrows(old(levels), before, t);
      }
      assert logs[..|logs|] == logs;
    }

    /** Replays one log file. */
    method ReplayLog(i: nat, ghost base: nat, maxSn: nat) returns (m: nat)
      requires Heap() && i < |logs| && Inv(At(Replaying(|Concat(logs[..i])|, base), NoGc), spec)
      requires maxSn == MaxSn(Concat(logs[..i]))
      modifies this`repr, memtable.repr
      ensures Heap() && fresh(repr - old(repr)) && fresh(memtable.repr - old(memtable.repr)) && spec == old(spec)
      ensures logs == old(logs) && sequence == old(sequence)
      ensures Inv(At(Replaying(|Concat(logs[..i + 1])|, base), NoGc), spec)
      ensures m == MaxSn(Concat(logs[..i + 1]))
    {
      hide Inv, MemTable.Valid, Snapshot, Concat, MaxSn;
      m := maxSn;
      ghost var before := Concat(logs[..i]);
      ghost var logs0, spec0 := logs, spec;
      ghost var at := |before|;
      ConcatThrough(logs, i);
      assert before + logs[i][..0] == before;
      for j := 0 to |logs[i]|
        invariant Heap() && fresh(repr - old(repr)) && fresh(memtable.repr - old(memtable.repr))
        invariant logs == logs0 && spec == spec0 && sequence == old(sequence)
        invariant Inv(At(Replaying(at + j, base), NoGc), spec)
        invariant m == MaxSn(before + logs[i][..j])
      {
        var r := logs[i][j];
        ReplayOne(r, at + j, base);
        MaxSnNext(before, logs[i], j);
        if r.entry.sn > m { m := r.entry.sn; }
      }
      assert logs[i][..|logs[i]|] == logs[i];
    }
  }
}
