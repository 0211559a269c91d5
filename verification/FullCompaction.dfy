/** Compacting every level in turn: the newest versions sink to the last level and nothing else stays. */
module FullCompaction {
  import opened Bytes
  import opened Lsm
  import opened Compaction
  import opened Storage

  /** Some table of some level holds this version of the key. */
  predicate Stored(levels: Levels, k: Key, e: Entry) {
    exists l, t :: 0 <= l < |levels| && t in levels[l] && Holds(t, k, e)
  }

  /** A sequence number names one version. */
  ghost predicate OneVersionPerNumber(levels: Levels) {
    forall k, a, b :: Stored(levels, k, a) && Stored(levels, k, b) && a.sn == b.sn ==> a == b
  }

  ghost predicate IsNewest(levels: Levels, k: Key, e: Entry) {
    Stored(levels, k, e) && forall x :: Stored(levels, k, x) ==> x == e || x.sn < e.sn
  }

  predicate EmptyAbove(levels: Levels, l: nat) {
    forall i :: 0 <= i < l && i < |levels| ==> levels[i] == []
  }

  /** The newest versions are those of `before`, except that newest tombstones may have gone. */
  ghost predicate KeepsNewest(before: Levels, after: Levels) {
    forall k, e ::
      && (IsNewest(after, k, e) ==> IsNewest(before, k, e))
      && (IsNewest(before, k, e) && e.Put? ==> IsNewest(after, k, e))
  }

  /** The last level alone holds data, and for every key exactly the newest version if that is a value. */
  ghost predicate FullyCompacted(before: Levels, after: Levels) {
    && |after| == |before| && after != [] && EmptyAbove(after, |after| - 1)
    && forall k, e :: LevelHit(after[|after| - 1], k) == Some(e) <==> e.Put? && IsNewest(before, k, e)
  }

  // ---- What a merge holds ----

  predicate HeldBy(ts: seq<Table>, k: Key, e: Entry) {
    exists t :: t in ts && Holds(t, k, e)
  }

  /** Some tables reach down to this one's range, and some reach up to it. */
  predicate Between(t: Table, ts: seq<Table>) {
    && (exists x :: x in ts && AtMost(Smallest(x), Largest(t)))
    && (exists y :: y in ts && AtMost(Smallest(t), Largest(y)))
  }

  lemma {:induction false} PickedIsBetween(below: seq<Table>, ts: seq<Table>, next: seq<Table>, t: Table)
    requires ts != [] && next == Overlapping(below, Lo(ts), Hi(ts))
    ensures t in next <==> t in below && Between(t, ts)
  {
    hide Lo, Hi, Smallest, Largest;
    RangeIsAttained(ts);
  }

  lemma {:induction false} RangeIsAttained(ts: seq<Table>)
    requires ts != []
    ensures (exists t :: t in ts && Smallest(t) == Lo(ts)) && (exists t :: t in ts && Largest(t) == Hi(ts))
  {
    hide Less, Largest, Smallest;
    var n := |ts| - 1;
    assert ts[n] in ts;
    if n == 0 {
    } else {
      RangeIsAttained(ts[..n]);
      assert forall t :: t in ts[..n] ==> t in ts;
    }
  }

  /** The merged tables hold of every key its newest version, and a tombstone only if a table further down
      holds the key. */
  lemma {:induction false} MergeHolds(levels: Levels, lvl: nat, next: seq<Table>, outs: seq<Table>, k: Key, e: Entry)
    requires lvl + 1 < |levels| && OneVersionPerNumber(levels) && forall t :: t in next ==> t in levels[lvl + 1]
    requires IsMerge(outs, levels[lvl] + next, levels, lvl + 2)
    ensures var ins := levels[lvl] + next;
            HeldBy(outs, k, e) <==>
              && HeldBy(ins, k, e)
              && (forall x :: HeldBy(ins, k, x) ==> x.sn <= e.sn)
              && (e.Put? || exists l, t :: lvl + 2 <= l < |levels| && t in levels[l] && k in Data(t.entries))
  {
    hide Data, LevelHit, LevelsHit, Winner;
    var ins := levels[lvl] + next;
    WinnerIsNewest(ins, k);
    LevelsHitSource(levels, lvl + 2, k);
    HeldIsHit(outs, k, e);
    assert LevelHit(outs, k) == MergedEntry(ins, levels, lvl + 2, k);
    var w := Winner(ins, k);
    if HeldBy(ins, k, e) && w.Some? && w.value.sn == e.sn {
      InputIsStored(levels, lvl, next, k, e);
      InputIsStored(levels, lvl, next, k, w.value);
    }
  }

  lemma {:induction false} HeldIsHit(ts: seq<Table>, k: Key, e: Entry)
    requires ValidTables(ts) && Disjoint(ts)
    ensures HeldBy(ts, k, e) <==> LevelHit(ts, k) == Some(e)
  {
    LevelHitSource(ts, k);
    if HeldBy(ts, k, e) {
      var t :| t in ts && Holds(t, k, e);
      LevelHitIs(ts, k, t);
    }
  }

  lemma {:induction false} InputIsStored(levels: Levels, lvl: nat, next: seq<Table>, k: Key, e: Entry)
    requires lvl + 1 < |levels| && HeldBy(levels[lvl] + next, k, e) && forall t :: t in next ==> t in levels[lvl + 1]
    ensures Stored(levels, k, e)
  {
    var t :| t in levels[lvl] + next && Holds(t, k, e);
    if t in levels[lvl] { } else { assert t in levels[lvl + 1]; }
  }

  /** The level is empty, the merged tables have replaced their inputs below, and nothing else has moved. */
  lemma {:induction false} InstalledTables(levels: Levels, lvl: nat, next: seq<Table>, outs: seq<Table>)
    requires LevelsOk(levels) && lvl + 1 < |levels| && forall t :: t in next ==> t in levels[lvl + 1]
    ensures var after := Installed(levels, lvl, levels[lvl], next, outs);
            && |after| == |levels| && after[lvl] == []
            && (forall l :: 0 <= l < |levels| && l != lvl && l != lvl + 1 ==> after[l] == levels[l])
            && (forall t :: t in after[lvl + 1] <==> t in outs || (t in levels[lvl + 1] && t !in next))
  {
    hide SortTables, ValidTables, Disjoint;
    RemovePrefix(levels[lvl], levels[lvl]);
    var after := Installed(levels, lvl, levels[lvl], next, outs);
    forall t: Table ensures t in after[lvl + 1] <==> t in outs || (t in levels[lvl + 1] && t !in next) {
      if t in levels[lvl + 1] { OnlyItself(levels[lvl + 1], next, t); }
    }
  }

  lemma {:induction false} OnlyItself(ts: seq<Table>, some: seq<Table>, t: Table)
    requires DistinctIds(ts) && t in ts && forall x :: x in some ==> x in ts
    ensures HasId(some, t.id) <==> t in some
  {
    forall x | x in some && x.id == t.id ensures x == t {
      var i :| 0 <= i < |ts| && ts[i] == x;
      var j :| 0 <= j < |ts| && ts[j] == t;
      assert i == j;
    }
  }

  /** Sequence numbers are unique because the log's are. */
  lemma {:induction false} LogGivesOneVersion(levels: Levels, log: seq<KV>)
    requires LevelsInLog(levels, log) && Increasing(log)
    ensures OneVersionPerNumber(levels)
  {
    hide Data;
    forall k, a, b | Stored(levels, k, a) && Stored(levels, k, b) && a.sn == b.sn ensures a == b {
      StoredIsLogged(levels, log, k, a);
      StoredIsLogged(levels, log, k, b);
      var i :| 0 <= i < |log| && log[i] == KV(k, a);
      var j :| 0 <= j < |log| && log[j] == KV(k, b);
      if i < j { assert log[i].entry.sn < log[j].entry.sn; } else if j < i { assert log[j].entry.sn < log[i].entry.sn; }
    }
  }

  lemma {:induction false} StoredIsLogged(levels: Levels, log: seq<KV>, k: Key, e: Entry)
    requires LevelsInLog(levels, log) && Stored(levels, k, e)
    ensures KV(k, e) in log
  {
    hide Data;
    var l, t :| 0 <= l < |levels| && t in levels[l] && Holds(t, k, e);
    assert InLog(Data(t.entries), log);
  }

  // ---- One undisturbed compaction ----

  /** A compaction of a whole level whose upper neighbours are empty. */
  ghost predicate Undisturbed(levels: Levels, lvl: nat, next: seq<Table>, outs: seq<Table>) {
    && LevelsOk(levels) && lvl + 1 < |levels| && EmptyAbove(levels, lvl)
    && IsPick(levels, lvl, levels[lvl], next)
    && IsMerge(outs, levels[lvl] + next, levels, lvl + 2)
    && FreshIds(outs, levels[lvl + 1])
  }

  lemma {:induction false} InstallEmpties(levels: Levels, lvl: nat, next: seq<Table>, outs: seq<Table>)
    requires Undisturbed(levels, lvl, next, outs)
    ensures EmptyAbove(Installed(levels, lvl, levels[lvl], next, outs), lvl + 1)
  {
    hide SortTables, IsMerge, Overlapping, RemoveIds, ValidTables, Disjoint, FreshIds, DistinctIds, Lo, Hi;
    RemovePrefix(levels[lvl], levels[lvl]);
  }

  lemma {:induction false} InstalledIsStored(levels: Levels, lvl: nat, next: seq<Table>, outs: seq<Table>, k: Key,
                                             e: Entry)
    requires Undisturbed(levels, lvl, next, outs)
    requires Stored(Installed(levels, lvl, levels[lvl], next, outs), k, e)
    ensures Stored(levels, k, e)
  {
    hide SortTables, IsMerge, Overlapping, Data, LevelsOk, RemoveIds;
    var after := Installed(levels, lvl, levels[lvl], next, outs);
    var l: nat, t :| l < |after| && t in after[l] && Holds(t, k, e);
    var l0, t0 := InstalledFromStored(levels, lvl, levels[lvl], next, outs, l, t, k);
  }

  /** A version survives outside the merged tables, or as the version the merge keeps. */
  lemma {:induction false} StoredSurvives(levels: Levels, lvl: nat, next: seq<Table>, outs: seq<Table>, k: Key,
                                          e: Entry)
    requires Undisturbed(levels, lvl, next, outs) && Stored(levels, k, e)
    ensures var after := Installed(levels, lvl, levels[lvl], next, outs);
            var w := Winner(levels[lvl] + next, k);
            || Stored(after, k, e)
            || (w.Some? && e.sn <= w.value.sn)
  {
    hide SortTables, IsMerge, Overlapping, Data, RemoveIds, Winner, ValidTables, DistinctIds, Disjoint, Lo, Hi;
    var after := Installed(levels, lvl, levels[lvl], next, outs);
    var l: nat, t :| l < |levels| && t in levels[l] && Holds(t, k, e);
    WinnerIsNewest(levels[lvl] + next, k);
    if t !in levels[lvl] + next {
      assert l != lvl;
      if l == lvl + 1 { NotMergedStays(levels, lvl, next, outs, t); }
      assert t in after[l];
    }
  }

  lemma {:induction false} NotMergedStays(levels: Levels, lvl: nat, next: seq<Table>, outs: seq<Table>, t: Table)
    requires Undisturbed(levels, lvl, next, outs) && t in levels[lvl + 1] && t !in next
    ensures t in Installed(levels, lvl, levels[lvl], next, outs)[lvl + 1]
  {
    hide Overlapping, IsMerge, Lo, Hi;
    assert DistinctIds(levels[lvl + 1]);
    forall x | x in next ensures x.id != t.id {
      assert x in levels[lvl + 1];
    }
    assert t in RemoveIds(levels[lvl + 1], next);
  }

  /** The version the merge keeps is stored in the next level. */
  lemma {:induction false} WinnerSurvives(levels: Levels, lvl: nat, next: seq<Table>, outs: seq<Table>, k: Key)
    requires Undisturbed(levels, lvl, next, outs) && MergedEntry(levels[lvl] + next, levels, lvl + 2, k).Some?
    ensures Stored(Installed(levels, lvl, levels[lvl], next, outs), k, Winner(levels[lvl] + next, k).value)
  {
    hide SortTables, IsMerge, Overlapping, Data, RemoveIds, Winner, ValidTables, DistinctIds, Disjoint, LevelsOk;
    var after := Installed(levels, lvl, levels[lvl], next, outs);
    NextLevelMerged(levels, lvl, levels[lvl], next, outs, k);
    LevelHitSource(after[lvl + 1], k);
  }

  /** Where the merge drops a tombstone, no older version is left to come back. */
  lemma {:induction false} DroppedLeavesNothing(levels: Levels, lvl: nat, next: seq<Table>, outs: seq<Table>, k: Key,
                                                e: Entry)
    requires Undisturbed(levels, lvl, next, outs)
    requires Winner(levels[lvl] + next, k).Some? && MergedEntry(levels[lvl] + next, levels, lvl + 2, k).None?
    ensures !Stored(Installed(levels, lvl, levels[lvl], next, outs), k, e)
  {
    hide SortTables, IsMerge, Overlapping, Data, RemoveIds, Winner, ValidTables, DistinctIds, Disjoint, LevelsOk;
    var after := Installed(levels, lvl, levels[lvl], next, outs);
    NextLevelMerged(levels, lvl, levels[lvl], next, outs, k);
    LevelHitSource(after[lvl + 1], k);
    LevelsHitSource(levels, lvl + 2, k);
    InstallEmpties(levels, lvl, next, outs);
    forall l, t: Table | 0 <= l < |after| && t in after[l] ensures !Holds(t, k, e) {
      if l >= lvl + 2 { assert after[l] == levels[l]; }
    }
  }

  /** One undisturbed compaction keeps the newest versions. */
  lemma {:induction false} InstallKeepsNewest(levels: Levels, lvl: nat, next: seq<Table>, outs: seq<Table>)
    requires Undisturbed(levels, lvl, next, outs) && OneVersionPerNumber(levels)
    ensures KeepsNewest(levels, Installed(levels, lvl, levels[lvl], next, outs))
  {
    hide Installed, Stored, MergedEntry, Winner, LevelsOk, EmptyAbove, IsPick, IsMerge, FreshIds, IsNewest;
    forall k, e
      ensures IsNewest(Installed(levels, lvl, levels[lvl], next, outs), k, e) ==> IsNewest(levels, k, e)
      ensures IsNewest(levels, k, e) && e.Put? ==> IsNewest(Installed(levels, lvl, levels[lvl], next, outs), k, e)
    {
      InstallKeepsNewestOf(levels, lvl, next, outs, k, e);
    }
  }

  lemma {:induction false} InstallKeepsNewestOf(levels: Levels, lvl: nat, next: seq<Table>, outs: seq<Table>, k: Key,
                                                e: Entry)
    requires Undisturbed(levels, lvl, next, outs) && OneVersionPerNumber(levels)
    ensures IsNewest(Installed(levels, lvl, levels[lvl], next, outs), k, e) ==> IsNewest(levels, k, e)
    ensures IsNewest(levels, k, e) && e.Put? ==> IsNewest(Installed(levels, lvl, levels[lvl], next, outs), k, e)
  {
    hide Installed, Stored, Winner, LevelsOk, EmptyAbove, IsPick, IsMerge, FreshIds;
    var after := Installed(levels, lvl, levels[lvl], next, outs);
    var w := Winner(levels[lvl] + next, k);
    forall x | Stored(after, k, x) ensures Stored(levels, k, x) {
      InstalledIsStored(levels, lvl, next, outs, k, x);
    }
    forall x | Stored(levels, k, x) ensures Stored(after, k, x) || (w.Some? && x.sn <= w.value.sn) {
      StoredSurvives(levels, lvl, next, outs, k, x);
    }
    if w.Some? {
      WinnerStored(levels, lvl, next, outs, k);
      if MergedEntry(levels[lvl] + next, levels, lvl + 2, k).Some? {
        WinnerSurvives(levels, lvl, next, outs, k);
      } else {
        forall x ensures !Stored(after, k, x) { DroppedLeavesNothing(levels, lvl, next, outs, k, x); }
      }
    }
  }

  lemma {:induction false} WinnerStored(levels: Levels, lvl: nat, next: seq<Table>, outs: seq<Table>, k: Key)
    requires Undisturbed(levels, lvl, next, outs) && Winner(levels[lvl] + next, k).Some?
    ensures Stored(levels, k, Winner(levels[lvl] + next, k).value)
  {
    hide Overlapping, Data, Winner, LevelsOk, IsMerge;
    WinnerIsNewest(levels[lvl] + next, k);
    var t :| t in levels[lvl] + next && Holds(t, k, Winner(levels[lvl] + next, k).value);
    assert t in levels[lvl] || t in levels[lvl + 1];
  }

  lemma {:induction false} KeepsNewestChains(a: Levels, b: Levels, c: Levels)
    requires KeepsNewest(a, b) && KeepsNewest(b, c)
    ensures KeepsNewest(a, c)
  {
    hide IsNewest;
  }

  // ---- The whole range ----

  lemma {:induction false} OnlyLastLevelStores(levels: Levels, k: Key, e: Entry)
    requires LevelsOk(levels) && |levels| >= 2 && EmptyAbove(levels, |levels| - 1)
    ensures Stored(levels, k, e) <==> LevelHit(levels[|levels| - 1], k) == Some(e)
  {
    hide Data, ValidTables, Disjoint, DistinctIds;
    var last := levels[|levels| - 1];
    LevelHitSource(last, k);
    if Stored(levels, k, e) {
      var l, t :| 0 <= l < |levels| && t in levels[l] && Holds(t, k, e);
      LevelHitIs(last, k, t);
    }
  }

  /** With every upper level empty, the last one holds exactly the newest values. */
  lemma {:induction false} LastLevelIsNewest(before: Levels, after: Levels)
    requires LevelsOk(after) && LastLevelLive(after) && |after| == |before| >= 2
    requires EmptyAbove(after, |after| - 1) && KeepsNewest(before, after)
    ensures FullyCompacted(before, after)
  {
    hide Data, LevelsOk, Stored, LevelHit;
    var last := after[|after| - 1];
    forall k, e ensures LevelHit(last, k) == Some(e) <==> e.Put? && IsNewest(before, k, e) {
      forall x ensures Stored(after, k, x) <==> LevelHit(last, k) == Some(x) { OnlyLastLevelStores(after, k, x); }
      LevelHitSource(last, k);
    }
  }
}
