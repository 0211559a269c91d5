/** The storage invariant: whatever flushes, compactions, crashes and replays have done, a lookup
    finds for every key the last record logged for it. */
module Storage {
  import opened Bytes
  import opened Lsm
  import opened Compaction
  import opened Engine

  // ---- The log ----

  predicate Increasing(log: seq<KV>) {
    forall i, j :: 0 <= i < j < |log| ==> log[i].entry.sn < log[j].entry.sn
  }

  predicate LogOk(s: State) {
    && Increasing(s.log)
    && (s.status.Up? ==> forall i :: 0 <= i < |s.log| ==> s.log[i].entry.sn < s.nextSn)
  }

  /** The last record of a key is its newest, and no other record has its sequence number. */
  lemma {:induction false} LastIsNewest(log: seq<KV>, k: Key, e: Entry)
    requires Increasing(log) && KV(k, e) in log
    ensures k in Data(log) && (e == Data(log)[k] || e.sn < Data(log)[k].sn)
  {
    var n := |log| - 1;
    assert log == log[..n] + [log[n]];
    if KV(k, e) in log[..n] {
      LastIsNewest(log[..n], k, e);
      var i :| 0 <= i < n && log[i] == KV(k, e);
      assert log[i].entry.sn < log[n].entry.sn;
    }
  }

  // ---- Stored entries are logged entries ----

  predicate InLog(m: Source, log: seq<KV>) {
    forall k :: k in m ==> KV(k, m[k]) in log
  }

  predicate LevelsInLog(levels: Levels, log: seq<KV>) {
    forall l, t :: 0 <= l < |levels| && t in levels[l] ==> InLog(Data(t.entries), log)
  }

  /** With two or more levels the last one holds no tombstone. */
  predicate LastLevelLive(levels: Levels) {
    |levels| >= 2 ==>
      forall t, k :: t in levels[|levels| - 1] && k in Data(t.entries) ==> Data(t.entries)[k].Put?
  }

  predicate DiskOk(levels: Levels, nextId: nat, log: seq<KV>) {
    && LevelsOk(levels) && LevelsInLog(levels, log) && LastLevelLive(levels)
    && forall l :: 0 <= l < |levels| ==> IdsBelow(levels[l], nextId)
  }

  predicate StoreOk(s: State) {
    && InLog(Active(s), s.log)
    && (forall i :: 0 <= i < |s.imm| ==> InLog(s.imm[i], s.log))
    && DiskOk(s.levels, s.nextId, s.log)
    && DiskOk(s.manifest.levels, s.manifest.nextId, s.log)
  }

  // ---- Lookups answer from the log ----

  function Current(s: State, k: Key): Option<Entry> {
    Find(Data(s.log), k)
  }

  ghost predicate LookupOk(s: State) {
    s.status.Up? ==> forall k :: Matches(Visible(s, k), Current(s, k))
  }

  /** While the oldest immutable memtable is also in level 0, popping it hides nothing. */
  predicate PopOk(s: State, k: Key)
    requires s.imm != []
  {
    k in s.imm[0] && k !in Active(s) && ImmHit(s.imm[1..], k).None? ==>
      Matches(LevelsHit(s.levels, 0, k), Some(s.imm[0][k]))
  }

  ghost predicate FlushOk(s: State) {
    s.flushed ==> s.status.Up? && s.imm != [] && forall k :: PopOk(s, k)
  }

  ghost predicate CompactorOk(s: State) {
    match s.comp
    case NoCompaction => true
    case Picked(lvl, inputs, next) => IsPick(s.levels, lvl, inputs, next)
    case Merged(lvl, inputs, next, outs) =>
      && IsPick(s.levels, lvl, inputs, next)
      && IsMerge(outs, inputs + next, s.levels, lvl + 2)
      && FreshIds(outs, s.levels[lvl + 1]) && IdsBelow(outs, s.nextId)
  }

  /** During a replay the memtable and the tables flushed since the restart hold the replayed prefix. */
  ghost predicate ReplayOk(s: State) {
    s.status.Replaying? ==>
      && s.status.done <= |s.log|
      && s.levels != [] && s.status.base <= |s.levels[0]|
      && s.imm == [] && s.writer.Free? && s.comp.NoCompaction? && s.gc.NoGc?
      && forall k :: k in Data(s.log[..s.status.done]) ==>
           Or(Find(s.mem, k), L0Hit(s.levels[0][s.status.base..], k)) == Some(Data(s.log[..s.status.done])[k])
  }

  ghost predicate StorageInv(s: State) {
    LogOk(s) && StoreOk(s) && LookupOk(s) && FlushOk(s) && CompactorOk(s) && ReplayOk(s)
  }

  /** A table hit that is the key's last record is the newest version stored in any table. */
  lemma {:induction false} CurrentIsNewest(s: State, k: Key)
    requires LogOk(s) && StoreOk(s)
    requires LevelsHit(s.levels, 0, k).Some? ==> LevelsHit(s.levels, 0, k) == Current(s, k)
    ensures NewestFirst(s.levels, 0, k)
  {
    hide LevelsHit, LevelsOk, LastLevelLive, Increasing, ValidTable;
    forall l, t: Table | 0 <= l < |s.levels| && t in s.levels[l] && k in Data(t.entries)
      ensures LevelsHit(s.levels, 0, k).Some? ==>
                var e := Data(t.entries)[k];
                e == Current(s, k).value || e.sn < Current(s, k).value.sn
    {
      LastIsNewest(s.log, k, Data(t.entries)[k]);
    }
  }

  // ---- Writes ----

  lemma {:induction false} DiskOkGrows(levels: Levels, nextId: nat, log: seq<KV>, x: KV)
    requires DiskOk(levels, nextId, log)
    ensures DiskOk(levels, nextId, log + [x])
  {
    hide LevelsOk, LastLevelLive, Data;
    forall l, t: Table | 0 <= l < |levels| && t in levels[l] ensures InLog(Data(t.entries), log + [x]) {
      InLogGrows(Data(t.entries), log, x);
    }
  }

  lemma {:induction false} InLogGrows(m: Source, log: seq<KV>, x: KV)
    requires InLog(m, log)
    ensures InLog(m, log + [x])
  {
    assert forall y :: y in log ==> y in log + [x];
  }

  lemma {:induction false} CommitKeepsStore(s: State, k: Key, e: Entry)
    requires StoreOk(s) && !s.writer.Logged?
    ensures StoreOk(Commit(s, k, e))
  {
    hide DiskOk, Data;
    var t := Commit(s, k, e);
    assert Active(t) == Active(s)[k := e];
    DiskOkGrows(s.levels, s.nextId, s.log, KV(k, e));
    DiskOkGrows(s.manifest.levels, s.manifest.nextId, s.log, KV(k, e));
    InLogGrows(Active(s), s.log, KV(k, e));
    forall i | 0 <= i < |s.imm| ensures InLog(t.imm[i], t.log) { InLogGrows(s.imm[i], s.log, KV(k, e)); }
    assert KV(k, e) in t.log;
  }

  lemma {:induction false} CommitKeeps(s: State, k: Key, e: Entry)
    requires StorageInv(s) && s.status.Up? && !s.writer.Logged? && e.sn == s.nextSn
    ensures StorageInv(Commit(s, k, e))
  {
    hide StoreOk, LevelsHit, ImmHit, IsMerge, IsPick, FreshIds, Data;
    CommitKeepsStore(s, k, e);
    var t := Commit(s, k, e);
    DataSnoc(s.log, KV(k, e));
    assert Active(t) == Active(s)[k := e];
    forall x ensures Matches(Visible(t, x), Current(t, x)) {
      assert Matches(Visible(s, x), Current(s, x));
    }
    if s.flushed {
      forall x ensures PopOk(t, x) { assert PopOk(s, x); }
    }
  }

  lemma {:induction false} ApplyKeeps(s: State)
    requires StorageInv(s) && s.status.Up? && s.writer.Logged?
    ensures StorageInv(Applied(s))
  {
    hide DiskOk, LevelsHit, ImmHit, IsMerge, IsPick, FreshIds, Data;
    var t := Applied(s);
    assert Active(t) == Active(s);
    assert forall k :: Visible(t, k) == Visible(s, k);
    if s.flushed {
      forall x ensures PopOk(t, x) { assert PopOk(s, x); }
    }
  }

  lemma {:induction false} RotateKeepsHit(s: State, k: Key)
    requires s.writer.Free?
    ensures MemoryHit(Rotated(s), k) == MemoryHit(s, k)
  {
    assert Active(s) == s.mem && Active(Rotated(s)) == map[];
    assert Rotated(s).imm[..|s.imm|] == s.imm;
  }

  lemma {:induction false} RotateKeepsPop(s: State, k: Key)
    requires s.writer.Free? && s.imm != [] && PopOk(s, k)
    ensures PopOk(Rotated(s), k)
  {
    hide LevelsHit;
    var t := Rotated(s);
    assert Active(s) == s.mem && Active(t) == map[];
    assert t.imm[1..] == s.imm[1..] + [s.mem] && t.imm[1..][..|s.imm| - 1] == s.imm[1..];
  }

  lemma {:induction false} RotateKeeps(s: State)
    requires StorageInv(s) && s.status.Up? && s.writer.Free?
    ensures StorageInv(Rotated(s))
  {
    hide DiskOk, LevelsHit, ImmHit, IsMerge, IsPick, FreshIds, Data, PopOk, MemoryHit;
    var t := Rotated(s);
    assert Active(s) == s.mem && Active(t) == map[];
    forall k ensures Matches(Visible(t, k), Current(t, k)) {
      assert Matches(Visible(s, k), Current(s, k));
      RotateKeepsHit(s, k);
    }
    if s.flushed {
      forall k ensures PopOk(t, k) { RotateKeepsPop(s, k); }
    }
  }

  // ---- Flush: install in level 0, then pop ----

  lemma {:induction false} PushKeepsDisk(levels: Levels, nextId: nat, log: seq<KV>, t: Table)
    requires DiskOk(levels, nextId, log) && ValidTable(t) && t.id == nextId && InLog(Data(t.entries), log)
    ensures DiskOk(PushL0(levels, t), nextId + 1, log)
  {
    hide Data, Ascending;
    var after := PushL0(levels, t);
    forall l | 0 <= l < |after|
      ensures ValidTables(after[l]) && DistinctIds(after[l]) && IdsBelow(after[l], nextId + 1)
      ensures l >= 1 ==> Disjoint(after[l])
    {
      assert ValidTables(levels[l]) && DistinctIds(levels[l]) && IdsBelow(levels[l], nextId);
    }
  }

  /** A push into level 0 puts the table in front of everything else. */
  lemma {:induction false} PushHit(levels: Levels, t: Table, k: Key)
    requires levels != []
    ensures LevelsHit(PushL0(levels, t), 0, k) == Or(Find(Data(t.entries), k), LevelsHit(levels, 0, k))
  {
    var after := PushL0(levels, t);
    assert after[0][..|levels[0]|] == levels[0];
    SameTail(levels, after, 1, k);
  }

  lemma {:induction false} PushKeepsCompactor(s: State, u: State, t: Table)
    requires CompactorOk(s) && s.levels != [] && t.id == s.nextId
    requires u == s.(flushed := u.flushed, levels := PushL0(s.levels, t), nextId := s.nextId + 1)
    ensures CompactorOk(u)
  {
    hide Overlapping, LevelHit, Winner, LevelsHit;
    if s.comp.Merged? {
      var ts := s.comp.inputs + s.comp.next;
      forall k ensures LevelHit(s.comp.outs, k) == MergedEntry(ts, u.levels, s.comp.lvl + 2, k) {
        assert LevelHit(s.comp.outs, k) == MergedEntry(ts, s.levels, s.comp.lvl + 2, k);
        SameTail(s.levels, u.levels, s.comp.lvl + 2, k);
      }
    }
  }

  lemma {:induction false} FlushInstallKeeps(s: State, t: Table)
    requires StorageInv(s) && s.status.Up? && !s.flushed && s.imm != [] && s.levels != []
    requires s.imm[0] == map[] || TableOf(t, s.imm[0], s.nextId)
    ensures StorageInv(FlushInstalled(s, t))
  {
    hide DiskOk, LevelsHit, ImmHit, IsMerge, IsPick, FreshIds, Data, ValidTable;
    var u := FlushInstalled(s, t);
    if s.imm[0] == map[] {
      forall k ensures Matches(Visible(u, k), Current(u, k)) { assert Matches(Visible(s, k), Current(s, k)); }
      forall k ensures PopOk(u, k) { }
    } else {
      PushKeepsDisk(s.levels, s.nextId, s.log, t);
      PushKeepsCompactor(s, u, t);
      forall k ensures Matches(Visible(u, k), Current(u, k)) && PopOk(u, k) {
        assert Matches(Visible(s, k), Current(s, k));
        PushHit(s.levels, t, k);
        ImmHitFront(s.imm, k);
      }
    }
  }

  lemma {:induction false} PopKeeps(s: State)
    requires StorageInv(s) && s.status.Up? && s.flushed
    ensures StorageInv(Popped(s))
  {
    hide DiskOk, LevelsHit, ImmHit, IsMerge, IsPick, FreshIds, Data;
    var u := Popped(s);
    forall k ensures Matches(Visible(u, k), Current(u, k)) {
      assert Matches(Visible(s, k), Current(s, k));
      assert PopOk(s, k);
      ImmHitFront(s.imm, k);
    }
  }

  // ---- Compaction ----

  lemma {:induction false} PickKeeps(s: State, lvl: nat)
    requires StorageInv(s) && lvl + 1 < |s.levels| && s.levels[lvl] != []
    requires s.status.Up? && s.comp.NoCompaction?
    ensures StorageInv(PickedAt(s, lvl))
  {
    hide DiskOk, LevelsHit, ImmHit, Overlapping, Lo, Hi, Data;
    var u := PickedAt(s, lvl);
    forall k ensures Matches(Visible(u, k), Current(u, k)) { assert Matches(Visible(s, k), Current(s, k)); }
    if s.flushed { forall k ensures PopOk(u, k) { assert PopOk(s, k); } }
  }

  lemma {:induction false} DiskIdsGrow(levels: Levels, n: nat, m: nat, log: seq<KV>)
    requires DiskOk(levels, n, log) && n <= m
    ensures DiskOk(levels, m, log)
  {
    hide LevelsOk, LevelsInLog, LastLevelLive;
  }

  lemma {:induction false} MergeKeeps(s: State, outs: seq<Table>, nextId: nat)
    requires StorageInv(s) && s.comp.Picked? && Enabled(s, CompactMerge(outs, nextId))
    ensures StorageInv(MergedInto(s, outs, nextId))
  {
    hide LevelsHit, ImmHit, IsMerge, Overlapping, Lo, Hi, Data, LevelsInLog, LastLevelLive, Disjoint;
    var u := MergedInto(s, outs, nextId);
    DiskIdsGrow(s.levels, s.nextId, nextId, s.log);
    assert FreshIds(outs, s.levels[s.comp.lvl + 1]) by {
      assert IdsBelow(s.levels[s.comp.lvl + 1], s.nextId);
    }
    forall k ensures Matches(Visible(u, k), Current(u, k)) { assert Matches(Visible(s, k), Current(s, k)); }
    if s.flushed { forall k ensures PopOk(u, k) { assert PopOk(s, k); } }
  }

  /** Everything installed was stored before, so it is logged; and a tombstone reaches the last level
      only if a level below it holds the key, which there is none. */
  lemma {:induction false} InstallKeepsDisk(s: State)
    requires StoreOk(s) && CompactorOk(s) && s.comp.Merged?
    ensures s.comp.lvl + 1 < |s.levels|
    ensures DiskOk(InstalledInto(s).levels, s.nextId, s.log)
  {
    hide LevelsHit, LevelHit, Winner, Overlapping, Lo, Hi, Data, Disjoint, ValidTables, RemoveIds, SortTables;
    var c := s.comp;
    var after := InstalledInto(s).levels;
    InstallKeepsLevels(s.levels, c.lvl, c.inputs, c.next, c.outs);
    forall l, t: Table | 0 <= l < |after| && t in after[l] ensures InLog(Data(t.entries), s.log) {
      forall k | k in Data(t.entries) ensures KV(k, Data(t.entries)[k]) in s.log {
        var l0, t0 := InstalledFromStored(s.levels, c.lvl, c.inputs, c.next, c.outs, l, t, k);
        assert InLog(Data(t0.entries), s.log);
      }
    }
    InstallKeepsLastLevel(s);
    forall l | 0 <= l < |after| ensures IdsBelow(after[l], s.nextId) {
      forall i | 0 <= i < |after[l]| ensures after[l][i].id < s.nextId {
        assert IdsBelow(s.levels[l], s.nextId);
        assert after[l][i] in after[l];
        assert after[l][i] in s.levels[l] || after[l][i] in c.outs;
      }
    }
  }

  lemma {:induction false} InstallKeepsLastLevel(s: State)
    requires StoreOk(s) && CompactorOk(s) && s.comp.Merged?
    ensures s.comp.lvl + 1 < |s.levels|
    ensures LastLevelLive(InstalledInto(s).levels)
  {
    hide LevelHit, Winner, Overlapping, Lo, Hi, Data, Disjoint, ValidTables, RemoveIds, SortTables, LevelsInLog, Holds;
    var c := s.comp;
    var after := InstalledInto(s).levels;
    var last := |after| - 1;
    forall t: Table, k | t in after[last] && k in Data(t.entries) ensures Data(t.entries)[k].Put? {
      if t !in s.levels[last] {
        assert c.lvl + 1 == last && t in c.outs;
        LevelHitIs(c.outs, k, t);
        assert LevelHit(c.outs, k) == MergedEntry(c.inputs + c.next, s.levels, c.lvl + 2, k);
        assert LevelsHit(s.levels, c.lvl + 2, k).None?;
      }
    }
  }

  lemma {:induction false} InstallKeepsLookup(s: State, k: Key)
    requires StorageInv(s) && s.status.Up? && s.comp.Merged? && s.comp.lvl + 1 < |s.levels|
    ensures Matches(Visible(InstalledInto(s), k), Current(s, k))
  {
    hide StoreOk, FlushOk, CompactorOk, ReplayOk, LevelsHit, ImmHit, Data, Installed;
    assert Matches(Visible(s, k), Current(s, k));
    if MemoryHit(s, k).None? { InstallKeepsCurrentHit(s, k); }
  }

  lemma {:induction false} InstallKeepsPop(s: State, k: Key)
    requires StorageInv(s) && s.flushed && s.comp.Merged? && s.comp.lvl + 1 < |s.levels|
    requires s.imm != []
    ensures PopOk(InstalledInto(s), k)
  {
    hide StoreOk, CompactorOk, ReplayOk, LevelsHit, ImmHit, Data, Installed;
    assert PopOk(s, k);
    if k in s.imm[0] && k !in Active(s) && ImmHit(s.imm[1..], k).None? {
      ImmHitFront(s.imm, k);
      assert Matches(Visible(s, k), Current(s, k));
      InstallKeepsCurrentHit(s, k);
    }
  }

  lemma {:induction false} InstallKeeps(s: State)
    requires StorageInv(s) && s.status.Up? && s.comp.Merged?
    ensures s.comp.lvl + 1 < |s.levels| && StorageInv(InstalledInto(s))
  {
    hide DiskOk, LevelsHit, ImmHit, IsMerge, IsPick, FreshIds, Data, Installed, PopOk, Visible;
    InstallKeepsDisk(s);
    var u := InstalledInto(s);
    forall k ensures Matches(Visible(u, k), Current(u, k)) { InstallKeepsLookup(s, k); }
    if s.flushed {
      forall k ensures PopOk(u, k) { InstallKeepsPop(s, k); }
    }
  }

  lemma {:induction false} InstallKeepsCurrentHit(s: State, k: Key)
    requires StorageInv(s) && s.comp.Merged? && s.comp.lvl + 1 < |s.levels|
    requires Matches(LevelsHit(s.levels, 0, k), Current(s, k))
    ensures Matches(LevelsHit(InstalledInto(s).levels, 0, k), LevelsHit(s.levels, 0, k))
  {
    hide LevelsHit, ImmHit, IsMerge, Data, LevelsInLog, LastLevelLive, Installed;
    CurrentIsNewest(s, k);
    InstallKeepsHits(s.levels, s.comp.lvl, s.comp.inputs, s.comp.next, s.comp.outs, 0, k);
  }

  lemma {:induction false} SaveKeeps(s: State)
    requires StorageInv(s)
    ensures StorageInv(s.(manifest := Manifest(s.levels, s.nextId)))
  {
    hide DiskOk, LevelsHit, ImmHit, IsMerge, IsPick, FreshIds, Data, L0Hit;
    var u := s.(manifest := Manifest(s.levels, s.nextId));
    if s.status.Up? {
      forall k ensures Matches(Visible(u, k), Current(u, k)) { assert Matches(Visible(s, k), Current(s, k)); }
    }
    if s.flushed { forall k ensures PopOk(u, k) { assert PopOk(s, k); } }
  }

  // ---- Crash and recovery ----

  lemma {:induction false} LoadKeepsDisk(levels: Levels, nextId: nat, log: seq<KV>, lost: seq<Table>)
    requires DiskOk(levels, nextId, log)
    ensures DiskOk(Load(levels, lost), nextId, log)
  {
    hide ValidTables, Disjoint, DistinctIds, Data, InLog, RemoveIds;
    var after := Load(levels, lost);
    forall l | 0 <= l < |after|
      ensures ValidTables(after[l]) && DistinctIds(after[l]) && IdsBelow(after[l], nextId)
      ensures l >= 1 ==> Disjoint(after[l])
      ensures forall t: Table {:trigger t in after[l]} :: t in after[l] ==> t in levels[l]
    {
      assert after[l] == RemoveIds(levels[l], lost);
      RemoveKeepsOrder(levels[l], lost);
      if l >= 1 { RemoveKeepsDisjoint(levels[l], lost); }
      forall i | 0 <= i < |after[l]| ensures after[l][i].id < nextId {
        assert after[l][i] in RemoveIds(levels[l], lost);
        assert IdsBelow(levels[l], nextId);
      }
    }
  }

  lemma {:induction false} RestartKeeps(s: State, lost: seq<Table>, left: Remains)
    requires StorageInv(s) && s.file in s.vlog && s.manifest.levels != []
    ensures StorageInv(Restarted(s, lost, left))
  {
    hide LevelsHit, ImmHit, L0Hit, ValidTables, Disjoint, DistinctIds, LevelsInLog, LastLevelLive;
    LoadKeepsDisk(s.manifest.levels, s.manifest.nextId, s.log, lost);
    assert s.log[..0] == [];
  }

  lemma {:induction false} ReplayRecordKeeps(s: State)
    requires StorageInv(s) && s.status.Replaying? && s.status.done < |s.log|
    ensures StorageInv(Replayed(s))
  {
    hide DiskOk, L0Hit, Data, Increasing;
    var d := s.status.done;
    var r := s.log[d];
    var u := Replayed(s);
    assert s.log[..d + 1] == s.log[..d] + [r];
    DataSnoc(s.log[..d], r);
    assert StoreOk(u) by {
      assert Active(u) == Active(s)[r.key := r.entry];
      assert KV(r.key, r.entry) == r && r in s.log;
    }
    assert ReplayOk(u) by {
      hide StoreOk;
      forall k | k in Data(u.log[..d + 1])
        ensures Or(Find(u.mem, k), L0Hit(u.levels[0][u.status.base..], k)) == Some(Data(u.log[..d + 1])[k])
      {
        assert k != r.key ==> k in Data(s.log[..d]);
      }
    }
  }

  lemma {:induction false} ReplayFlushKeeps(s: State, t: Table)
    requires StorageInv(s) && s.status.Replaying? && s.levels != [] && TableOf(t, s.mem, s.nextId)
    ensures StorageInv(ReplayFlushed(s, t))
  {
    hide DiskOk, LevelsHit, ImmHit, IsMerge, IsPick, FreshIds, Data, ValidTable;
    var u := ReplayFlushed(s, t);
    var b := s.status.base;
    assert Active(s) == s.mem;
    PushKeepsDisk(s.levels, s.nextId, s.log, t);
    assert u.levels[0][b..] == s.levels[0][b..] + [t];
    assert u.levels[0][b..][..|s.levels[0][b..]|] == s.levels[0][b..];
  }

  lemma {:induction false} ReopenKeeps(s: State)
    requires StorageInv(s) && s.status.Replaying? && s.status.done == |s.log|
    ensures StorageInv(Reopened(s))
  {
    hide DiskOk, ImmHit, IsMerge, IsPick, FreshIds, L0Hit, MaxSn;
    var u := Reopened(s);
    assert s.log[..|s.log|] == s.log;
    assert Active(u) == s.mem;
    forall k ensures Matches(Visible(u, k), Current(u, k)) {
      if k in Data(s.log) {
        var b := s.status.base;
        assert s.levels[0] == s.levels[0][..b] + s.levels[0][b..];
        L0HitConcat(s.levels[0][..b], s.levels[0][b..], k);
      } else {
        NothingUnlogged(s, k);
      }
    }
  }

  lemma {:induction false} NothingUnlogged(s: State, k: Key)
    requires StorageInv(s) && s.imm == [] && k !in Data(s.log)
    ensures Visible(s, k).None?
  {
    hide LevelsOk, LastLevelLive, Data, LevelsHit;
    LevelsHitSource(s.levels, 0, k);
    if k in Active(s) {
      LastIsNewest(s.log, k, Active(s)[k]);
    } else if LevelsHit(s.levels, 0, k).Some? {
      var i, t :| 0 <= i < |s.levels| && t in s.levels[i] && Holds(t, k, LevelsHit(s.levels, 0, k).value);
      LastIsNewest(s.log, k, Data(t.entries)[k]);
    }
  }
}
