/** A table id names one table, so the files of a compaction's inputs can be deleted after it. */
module TableIds {
  import opened Lsm
  import opened Compaction
  import opened Engine
  import opened Storage
  import opened Refinement
  import opened FileRuns
  import opened Pointers
  import Disk
  import B = Bloom

  /** No two tables share an id, whatever levels they are in. */
  ghost predicate OneTablePerId(levels: Levels) {
    forall l, m, t, u :: 0 <= l < |levels| && 0 <= m < |levels| && t in levels[l] && u in levels[m] && t.id == u.id ==>
      l == m && t == u
  }

  ghost predicate OutsApart(s: State) {
    s.comp.Merged? ==>
      forall o, l, t :: o in s.comp.outs && 0 <= l < |s.levels| && t in s.levels[l] ==> t.id != o.id
  }

  ghost predicate IdInv(s: State) {
    OneTablePerId(s.levels) && OneTablePerId(s.manifest.levels) && OutsApart(s)
  }

  lemma {:induction false} IdsAreBelow(levels: Levels, nextId: nat, l: nat, t: Table)
    requires l < |levels| && t in levels[l] && IdsBelow(levels[l], nextId)
    ensures t.id < nextId
  {
  }

  lemma {:induction false} PushKeepsIds(s: State, t: Table)
    requires StoreOk(s) && t.id == s.nextId && OneTablePerId(s.levels)
    ensures s.levels != [] && OneTablePerId(PushL0(s.levels, t))
  {
    hide LevelsInLog, LastLevelLive, InLog, Data, ValidTables, Disjoint, DistinctIds;
    var after := PushL0(s.levels, t);
    forall l, u: Table | 0 <= l < |after| && u in after[l]
      ensures (u in s.levels[l] && u.id < s.nextId) || (l == 0 && u == t)
    {
      if u in s.levels[l] { IdsAreBelow(s.levels, s.nextId, l, u); }
    }
  }

  lemma {:induction false} PushKeepsIdInv(s: State, u: State, t: Table)
    requires StorageInv(s) && IdInv(s) && t.id == s.nextId && s.levels != []
    requires u.levels == PushL0(s.levels, t) && u.manifest == s.manifest && u.comp == s.comp
    ensures IdInv(u)
  {
    hide LogOk, LookupOk, FlushOk, ReplayOk, OneTablePerId, LevelsInLog, LastLevelLive, LevelsOk, IsPick, IsMerge,
         FreshIds;
    PushKeepsIds(s, t);
    if s.comp.Merged? { assert IdsBelow(s.comp.outs, s.nextId); }
  }

  lemma {:induction false} MergeKeepsIdInv(s: State, outs: seq<Table>, nextId: nat)
    requires StorageInv(s) && IdInv(s) && Enabled(s, CompactMerge(outs, nextId))
    ensures IdInv(MergedInto(s, outs, nextId))
  {
    hide LogOk, LookupOk, FlushOk, ReplayOk, OneTablePerId, LevelsInLog, LastLevelLive, LevelsOk, IsPick, IsMerge;
    forall o, l, t: Table | o in outs && 0 <= l < |s.levels| && t in s.levels[l] ensures t.id != o.id {
      assert IdsBelow(s.levels[l], s.nextId);
      IdsAreBelow(s.levels, s.nextId, l, t);
    }
  }

  /** What an install leaves at each level. */
  lemma {:induction false} InstalledAt(s: State, l: nat, t: Table)
    requires s.comp.Merged? && s.comp.lvl + 1 < |s.levels| && l < |s.levels| && t in InstalledInto(s).levels[l]
    ensures t in s.levels[l] || (l == s.comp.lvl + 1 && t in s.comp.outs)
    ensures t in s.levels[l] && t !in s.comp.outs && l == s.comp.lvl ==> !HasId(s.comp.inputs, t.id)
    ensures t in s.levels[l] && t !in s.comp.outs && l == s.comp.lvl + 1 ==> !HasId(s.comp.next, t.id)
  {
    hide RemoveIds, SortTables, HasId;
  }

  lemma {:induction false} InstallKeepsIdInv(s: State)
    requires StorageInv(s) && IdInv(s) && s.comp.Merged? && s.comp.lvl + 1 < |s.levels|
    ensures IdInv(InstalledInto(s))
  {
    hide LogOk, LookupOk, FlushOk, ReplayOk, StoreOk, IsPick, IsMerge, Installed, HasId;
    var after := InstalledInto(s).levels;
    assert |after| == |s.levels| by { InstalledSize(s); }
    forall l, m, t: Table, u: Table
      | 0 <= l < |after| && 0 <= m < |after| && t in after[l] && u in after[m] && t.id == u.id
      ensures l == m && t == u
    {
      InstalledAt(s, l, t);
      InstalledAt(s, m, u);
      if t in s.comp.outs && u in s.comp.outs { SameOut(s, t, u); }
    }
  }

  lemma {:induction false} InstalledSize(s: State)
    requires s.comp.Merged? && s.comp.lvl + 1 < |s.levels|
    ensures |InstalledInto(s).levels| == |s.levels|
  {
  }

  lemma {:induction false} SameOut(s: State, t: Table, u: Table)
    requires CompactorOk(s) && s.comp.Merged? && t in s.comp.outs && u in s.comp.outs && t.id == u.id
    ensures t == u
  {
    hide IsPick, IsMerge, HasId;
    assert DistinctIds(s.comp.outs);
  }

  lemma {:induction false} LoadKeepsIds(levels: Levels, lost: seq<Table>)
    requires OneTablePerId(levels)
    ensures OneTablePerId(Load(levels, lost))
  {
    hide RemoveIds, HasId;
    var after := Load(levels, lost);
    forall l, t: Table | 0 <= l < |after| && t in after[l] ensures t in levels[l] {
      assert after[l] == RemoveIds(levels[l], lost);
    }
  }

  predicate MovesTables(a: Step) {
    || a.FlushInstall? || a.ReplayFlush? || a.CompactMerge? || a.CompactInstall? || a.CompactPick?
    || a.Crash? || a.SaveManifest?
  }

  lemma {:induction false} OtherStepsMoveNothing(s: State, a: Step)
    requires Enabled(s, a) && !MovesTables(a)
    ensures Next(s, a).levels == s.levels && Next(s, a).manifest == s.manifest && Next(s, a).comp == s.comp
  {
    hide Visible, MaxSn;
  }

  lemma {:induction false} StepKeepsIdInv(s: State, a: Step)
    requires StorageInv(s) && IdInv(s) && Enabled(s, a)
    ensures IdInv(Next(s, a))
  {
    hide StorageInv, OneTablePerId, Installed;
    if !MovesTables(a) {
      hide Next, Enabled;
      OtherStepsMoveNothing(s, a);
    } else if a.FlushInstall? {
      hide TableOf;
      if s.imm[0] != map[] {
        assert a.table.id == s.nextId by { TableId(a.table, s.imm[0], s.nextId); }
        PushKeepsIdInv(s, Next(s, a), a.table);
      }
    } else if a.ReplayFlush? {
      PushKeepsIdInv(s, Next(s, a), a.table);
    } else if a.CompactMerge? {
      MergeKeepsIdInv(s, a.outs, a.nextId);
    } else if a.CompactInstall? {
      InstallKeepsIdInv(s);
    } else if a.Crash? {
      hide Load, Interrupted;
      LoadKeepsIds(s.manifest.levels, a.lost);
    }
  }

  lemma {:induction false} TableId(t: Table, m: Source, id: nat)
    requires TableOf(t, m, id)
    ensures t.id == id
  {
  }

  lemma {:induction false} RunIds(n: nat, steps: seq<Step>, states: seq<State>, i: nat)
    requires n >= 1 && IsRun(n, steps, states) && SafeRun(steps, states) && i <= |steps|
    ensures IdInv(states[i])
  {
    hide Next, Enabled, Safe, StorageInv, IdInv;
    if i == 0 {
      assert IdInv(Init(n)) by { StartsWithNoTables(n); }
    } else {
      RunIds(n, steps, states, i - 1);
      RunInv(n, steps, states, i - 1);
      StepKeepsIdInv(states[i - 1], steps[i - 1]);
    }
  }

  lemma {:induction false} StartsWithNoTables(n: nat)
    ensures IdInv(Init(n))
  {
    assert forall l :: 0 <= l < n ==> Init(n).levels[l] == [];
  }

  // ---- The inputs' files ----

  function InputIds(s: State): set<nat>
    requires s.comp.Merged?
  {
    set t | t in s.comp.inputs + s.comp.next :: t.id
  }

  /** After the install no table in use has the id of an input. */
  lemma {:induction false} InputsAreRetired(s: State, u: Table)
    requires StorageInv(s) && IdInv(s) && s.comp.Merged? && s.comp.lvl + 1 < |s.levels| && InUse(InstalledInto(s), u)
    ensures u.id !in InputIds(s)
  {
    hide LogOk, LookupOk, FlushOk, ReplayOk, StoreOk, IsMerge, Installed, HasId, Overlapping, FreshIds;
    InstalledSize(s);
    var after := InstalledInto(s).levels;
    var l: nat :| l < |after| && u in after[l];
    InstalledAt(s, l, u);
    forall t | t in s.comp.inputs + s.comp.next ensures t.id != u.id {
      InputLevel(s, t);
      if t.id == u.id && u in s.levels[l] { SameTable(s, l, t, u); }
    }
  }

  lemma {:induction false} InputLevel(s: State, t: Table)
    requires CompactorOk(s) && s.comp.Merged? && t in s.comp.inputs + s.comp.next
    ensures s.comp.lvl + 1 < |s.levels| && (t in s.comp.inputs ==> t in s.levels[s.comp.lvl])
    ensures t in s.comp.next ==> t in s.levels[s.comp.lvl + 1]
  {
    hide IsMerge, FreshIds, Lo, Hi;
  }

  lemma {:induction false} SameTable(s: State, l: nat, t: Table, u: Table)
    requires CompactorOk(s) && IdInv(s) && s.comp.Merged? && t in s.comp.inputs + s.comp.next && l < |s.levels|
    requires u in s.levels[l] && t.id == u.id
    ensures u == t && (t in s.comp.inputs ==> l == s.comp.lvl) && (t in s.comp.next ==> l == s.comp.lvl + 1)
    ensures (t in s.comp.inputs ==> HasId(s.comp.inputs, u.id)) && (t in s.comp.next ==> HasId(s.comp.next, u.id))
  {
    hide IsMerge, FreshIds, IsPick, OutsApart;
    InputLevel(s, t);
  }

  /** Deleting the inputs' files with the install disturbs no table in use. */
  lemma {:induction false} InputFilesMayGo(d: Disk.Files, s: State, addr: Ptr -> Pointer, hash: B.Hash)
    requires StorageInv(s) && IdInv(s) && Enabled(s, CompactInstall) && TablesOk(d, s, addr, hash)
    ensures TableStep(d, d.(tables := d.tables - InputIds(s)), s, CompactInstall, addr, hash)
  {
    hide StorageInv, IdInv, Disk.TableOnDisk, InstalledInto;
    var d' := d.(tables := d.tables - InputIds(s));
    forall t | InUse(s, t) && InUse(InstalledInto(s), t) ensures Kept(d, d', t.id) {
      InputsAreRetired(s, t);
      OnDiskHasFile(d, t, addr, hash);
    }
  }

  lemma {:induction false} OnDiskHasFile(d: Disk.Files, t: Table, addr: Ptr -> Pointer, hash: B.Hash)
    requires Disk.TableOnDisk(d, t, addr, hash)
    ensures t.id in d.tables
  {
  }
}
