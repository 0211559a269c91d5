/** A lookup reads the memtables under one lock and the tables under another, and anything may happen
    in between. It still answers as of some moment between its two halves. */
module TwoPhaseGet {
  import opened Bytes
  import opened Lsm
  import opened Compaction
  import opened Engine
  import opened Storage
  import opened Values
  import opened Refinement
  import Histories
  import Archive

  /** The entry selected: from memory in state `s`, else from the tables in the later state `t`. */
  function TwoPhase(s: State, t: State, k: Key): Option<Entry> {
    Or(MemoryHit(s, k), LevelsHit(t.levels, 0, k))
  }

  predicate Absent(e: Option<Entry>) {
    e.None? || e.value.Del?
  }

  predicate SameAnswer(a: Option<Entry>, b: Option<Entry>) {
    a == b || (Absent(a) && Absent(b))
  }

  /** The answer was the current one at some moment from `i` to `j`. */
  ghost predicate WasCurrent(states: seq<State>, i: nat, j: nat, k: Key, e: Option<Entry>)
    requires i <= j < |states|
  {
    exists m :: i <= m <= j && SameAnswer(e, Visible(states[m], k))
  }

  // ---- What the window between the halves keeps ----

  /** The memtables, oldest first. */
  function Memories(s: State): seq<Source> {
    s.imm + [Active(s)]
  }

  ghost predicate AboveTables(levels: Levels, k: Key, sn: nat) {
    forall l, t :: 0 <= l < |levels| && t in levels[l] && k in Data(t.entries) ==> Data(t.entries)[k].sn < sn
  }

  /** For a key that was in no memtable when the window opened: memtables hold newer versions the
      younger they are, all newer than the tables, whose first hit is their newest. */
  ghost predicate Ordered(s: State, k: Key) {
    var ms := Memories(s);
    && (forall a, b :: 0 <= a < b < |ms| && k in ms[a] && k in ms[b] ==> ms[a][k].sn < ms[b][k].sn)
    && (forall a :: (if s.flushed then 1 else 0) <= a < |ms| && k in ms[a] ==> AboveTables(s.levels, k, ms[a][k].sn))
    && NewestFirst(s.levels, 0, k)
  }

  /** Everything in memory or first in the tables was current at some moment of the window. */
  ghost predicate Remembered(states: seq<State>, i: nat, j: nat, k: Key)
    requires i <= j < |states|
  {
    && WasCurrent(states, i, j, k, LevelsHit(states[j].levels, 0, k))
    && forall a :: 0 <= a < |Memories(states[j])| && k in Memories(states[j])[a] ==>
         WasCurrent(states, i, j, k, Some(Memories(states[j])[a][k]))
  }

  lemma {:induction false} ImmHitNone(ms: seq<Source>, k: Key)
    requires ImmHit(ms, k).None?
    ensures forall a :: 0 <= a < |ms| ==> k !in ms[a]
  {
    if ms == [] {
    } else {
      var n := |ms| - 1;
      ImmHitNone(ms[..n], k);
      assert forall a :: 0 <= a < n ==> ms[a] == ms[..n][a];
    }
  }

  lemma {:induction false} WindowOpens(states: seq<State>, i: nat, k: Key, spec: map<Key, Value>)
    requires i < |states| && Inv(states[i], spec) && states[i].status.Up?
    requires MemoryHit(states[i], k).None?
    ensures Ordered(states[i], k) && Remembered(states, i, i, k)
  {
    hide Data, LevelsHit, ImmHit, StoreOk, FlushOk, CompactorOk, ReplayOk, ValueInv, NewestFirst;
    var s := states[i];
    ImmHitNone(s.imm, k);
    assert forall a :: 0 <= a < |Memories(s)| ==> k !in Memories(s)[a];
    assert Visible(s, k) == LevelsHit(s.levels, 0, k);
    assert Matches(Visible(s, k), Current(s, k));
    CurrentIsNewest(s, k);
    assert SameAnswer(LevelsHit(s.levels, 0, k), Visible(states[i], k));
  }

  // ---- Each step keeps it ----

  /** What a step does to memory and tables, for one key. */
  ghost predicate SameFor(s: State, t: State, k: Key) {
    && t.levels == s.levels && t.flushed == s.flushed && |t.imm| == |s.imm|
    && forall a :: 0 <= a < |Memories(s)| ==> Find(Memories(t)[a], k) == Find(Memories(s)[a], k)
  }

  lemma {:induction false} SameForKeeps(states: seq<State>, i: nat, j: nat, k: Key)
    requires i <= j && j + 1 < |states| && SameFor(states[j], states[j + 1], k)
    requires Ordered(states[j], k) && Remembered(states, i, j, k)
    ensures Ordered(states[j + 1], k) && Remembered(states, i, j + 1, k)
  {
    hide Data, LevelsHit, NewestFirst, AboveTables, Visible;
    Longer(states, i, j, k);
    var s, t := states[j], states[j + 1];
    assert forall a :: 0 <= a < |Memories(s)| ==> Find(Memories(t)[a], k) == Find(Memories(s)[a], k);
  }

  /** A longer window contains the moments of a shorter one. */
  lemma {:induction false} Longer(states: seq<State>, i: nat, j: nat, k: Key)
    requires i <= j && j + 1 < |states|
    ensures forall e :: WasCurrent(states, i, j, k, e) ==> WasCurrent(states, i, j + 1, k, e)
  {
    hide Visible;
  }

  /** Stored entries have smaller sequence numbers than the next one to be drawn. */
  lemma {:induction false} NextIsAbove(s: State, k: Key)
    requires StorageInv(s) && s.status.Up?
    ensures AboveTables(s.levels, k, s.nextSn)
    ensures forall a :: 0 <= a < |Memories(s)| && k in Memories(s)[a] ==> Memories(s)[a][k].sn < s.nextSn
  {
    hide Data, LevelsHit, LookupOk, FlushOk, CompactorOk, ReplayOk, LevelsOk, LastLevelLive;
    assert forall r :: r in s.log ==> r.entry.sn < s.nextSn;
    forall a | 0 <= a < |Memories(s)| && k in Memories(s)[a] ensures Memories(s)[a][k].sn < s.nextSn {
      assert InLog(Memories(s)[a], s.log);
      assert KV(k, Memories(s)[a][k]) in s.log;
    }
    forall l, t: Table | 0 <= l < |s.levels| && t in s.levels[l] && k in Data(t.entries)
      ensures Data(t.entries)[k].sn < s.nextSn
    {
      assert InLog(Data(t.entries), s.log);
      assert KV(k, Data(t.entries)[k]) in s.log;
    }
  }

  lemma {:induction false} CommitKeepsWindow(states: seq<State>, i: nat, j: nat, k: Key, e: Entry)
    requires i <= j && j + 1 < |states| && StorageInv(states[j]) && states[j].status.Up?
    requires !states[j].writer.Logged? && e.sn == states[j].nextSn
    requires states[j + 1].(gc := states[j].gc) == Commit(states[j], k, e)
    requires Ordered(states[j], k) && Remembered(states, i, j, k)
    ensures Ordered(states[j + 1], k) && Remembered(states, i, j + 1, k)
  {
    hide Data, LevelsHit, NewestFirst, StorageInv;
    var s, t := states[j], states[j + 1];
    NextIsAbove(s, k);
    Longer(states, i, j, k);
    assert Active(t) == Active(s)[k := e];
    assert forall a :: 0 <= a < |s.imm| ==> Memories(t)[a] == Memories(s)[a];
    assert SameAnswer(Some(e), Visible(states[j + 1], k));
  }

  lemma {:induction false} RotateKeepsWindow(states: seq<State>, i: nat, j: nat, k: Key)
    requires i <= j && j + 1 < |states| && states[j].writer.Free? && states[j + 1] == Rotated(states[j])
    requires Ordered(states[j], k) && Remembered(states, i, j, k)
    ensures Ordered(states[j + 1], k) && Remembered(states, i, j + 1, k)
  {
    hide Data, LevelsHit, NewestFirst, AboveTables, Visible;
    var s, t := states[j], states[j + 1];
    Longer(states, i, j, k);
    assert Active(s) == s.mem;
    assert Memories(t) == Memories(s) + [map[]];
  }

  lemma {:induction false} PopKeepsWindow(states: seq<State>, i: nat, j: nat, k: Key)
    requires i <= j && j + 1 < |states|
    requires states[j].flushed && states[j].imm != [] && states[j + 1] == Popped(states[j])
    requires Ordered(states[j], k) && Remembered(states, i, j, k)
    ensures Ordered(states[j + 1], k) && Remembered(states, i, j + 1, k)
  {
    hide Data, LevelsHit, NewestFirst, AboveTables, Visible;
    var s, t := states[j], states[j + 1];
    Longer(states, i, j, k);
    assert forall a :: 0 <= a < |Memories(t)| ==> Memories(t)[a] == Memories(s)[a + 1];
  }

  /** Installing the oldest memtable puts its version first in the tables, where it is the newest. */
  lemma {:induction false} FlushKeepsWindow(states: seq<State>, i: nat, j: nat, k: Key, x: Table)
    requires i <= j && j + 1 < |states|
    requires !states[j].flushed && states[j].imm != [] && states[j].levels != []
    requires states[j].imm[0] == map[] || TableOf(x, states[j].imm[0], states[j].nextId)
    requires states[j + 1] == FlushInstalled(states[j], x)
    requires Ordered(states[j], k) && Remembered(states, i, j, k)
    ensures Ordered(states[j + 1], k) && Remembered(states, i, j + 1, k)
  {
    hide Data, LevelsHit, Visible, ValidTable;
    var s, t := states[j], states[j + 1];
    Longer(states, i, j, k);
    if s.imm[0] != map[] {
      PushHit(s.levels, x, k);
      assert Memories(t) == Memories(s);
      assert Memories(s)[0] == s.imm[0];
      assert t.levels[0] == s.levels[0] + [x];
      forall l, y: Table | 0 <= l < |t.levels| && y in t.levels[l]
        ensures y == x || (l < |s.levels| && y in s.levels[l])
      {
      }
    }
  }

  lemma {:induction false} InstallKeepsWindow(states: seq<State>, i: nat, j: nat, k: Key)
    requires i <= j && j + 1 < |states| && StorageInv(states[j])
    requires states[j].comp.Merged? && states[j].comp.lvl + 1 < |states[j].levels|
    requires states[j + 1] == InstalledInto(states[j])
    requires Ordered(states[j], k) && Remembered(states, i, j, k)
    ensures Ordered(states[j + 1], k) && Remembered(states, i, j + 1, k)
  {
    hide Data, LevelsHit, Visible, NewestFirst, IsMerge, Installed, IsPick, FreshIds, LevelsOk;
    var s, t := states[j], states[j + 1];
    var c := s.comp;
    Longer(states, i, j, k);
    InstallKeepsHits(s.levels, c.lvl, c.inputs, c.next, c.outs, 0, k);
    InstallKeepsNewestFirst(s.levels, c.lvl, c.inputs, c.next, c.outs, 0, k);
    assert Memories(t) == Memories(s);
    InstallStoresLess(s, k);
  }

  lemma {:induction false} InstallStoresLess(s: State, k: Key)
    requires StorageInv(s) && s.comp.Merged? && s.comp.lvl + 1 < |s.levels|
    ensures forall sn: nat :: AboveTables(s.levels, k, sn) ==> AboveTables(InstalledInto(s).levels, k, sn)
  {
    hide Data, LevelsHit, Visible, NewestFirst, IsMerge, IsPick, FreshIds, LevelsOk;
    var c := s.comp;
    var after := InstalledInto(s).levels;
    forall l, x: Table | 0 <= l < |after| && x in after[l] && k in Data(x.entries)
      ensures exists l0, x0 :: 0 <= l0 < |s.levels| && x0 in s.levels[l0] && Holds(x0, k, Data(x.entries)[k])
    {
      var l0, x0 := InstalledFromStored(s.levels, c.lvl, c.inputs, c.next, c.outs, l, x, k);
    }
  }

  lemma {:induction false} CommitStepKeepsWindow(states: seq<State>, i: nat, j: nat, k: Key, x: Key, e: Entry)
    requires i <= j && j + 1 < |states| && StorageInv(states[j]) && states[j].status.Up?
    requires !states[j].writer.Logged? && e.sn == states[j].nextSn
    requires states[j + 1].(gc := states[j].gc) == Commit(states[j], x, e)
    requires Ordered(states[j], k) && Remembered(states, i, j, k)
    ensures Ordered(states[j + 1], k) && Remembered(states, i, j + 1, k)
  {
    hide Ordered, Remembered, StorageInv;
    if x == k {
      CommitKeepsWindow(states, i, j, k, e);
    } else {
      assert Active(states[j + 1]) == Active(states[j])[x := e];
      SameForKeeps(states, i, j, k);
    }
  }

  lemma {:induction false} StepKeepsWindow(states: seq<State>, i: nat, j: nat, k: Key, a: Step, spec: map<Key, Value>)
    requires i <= j && j + 1 < |states| && Inv(states[j], spec) && Enabled(states[j], a)
    requires states[j + 1] == Next(states[j], a) && states[j].status.Up? && states[j + 1].status.Up?
    requires Ordered(states[j], k) && Remembered(states, i, j, k)
    ensures Ordered(states[j + 1], k) && Remembered(states, i, j + 1, k)
  {
    hide Ordered, Remembered, StorageInv, ValueInv, Visible, IsMerge, Load, MaxSn, Data, Installed, Overlapping,
         SameFor, Interrupted;
    var s := states[j];
    match a
    case LogPut(x, v) => CommitStepKeepsWindow(states, i, j, k, x, Put(s.nextSn, s.writer.ptr));
    case LogDelete(x) => CommitStepKeepsWindow(states, i, j, k, x, Del(s.nextSn));
    case GcSwap =>
      var p := Ptr(s.gc.file, s.gc.live[s.gc.done]);
      var x := s.vlog[p.file][p.index].key;
      if PointsTo(Visible(s, x), p) {
        CommitStepKeepsWindow(states, i, j, k, x, Put(s.nextSn, s.gc.ptr));
      } else {
        UnchangedIsSame(s, states[j + 1], k);
        SameForKeeps(states, i, j, k);
      }
    case RotateMem => RotateKeepsWindow(states, i, j, k);
    case FlushPop => PopKeepsWindow(states, i, j, k);
    case FlushInstall(t) => FlushKeepsWindow(states, i, j, k, t);
    case CompactInstall => InstallKeepsWindow(states, i, j, k);
    case _ =>
      QuietStep(s, a, k);
      SameForKeeps(states, i, j, k);
  }

  lemma {:induction false} UnchangedIsSame(s: State, t: State, k: Key)
    requires t == s.(gc := t.gc)
    ensures SameFor(s, t, k)
  {
  }

  /** Steps that move no entry between memory and tables. */
  lemma {:induction false} QuietStep(s: State, a: Step, k: Key)
    requires Enabled(s, a) && s.status.Up? && Next(s, a).status.Up?
    requires !a.LogPut? && !a.LogDelete? && !a.GcSwap? && !a.RotateMem? && !a.FlushPop? && !a.FlushInstall?
    requires !a.CompactInstall?
    ensures SameFor(s, Next(s, a), k)
  {
    hide Visible, IsMerge, Load, MaxSn, Installed, Overlapping, Data, Interrupted, Swapped, Find;
    if a.ApplyLogged? { assert Active(Applied(s)) == Active(s); }
  }

  lemma {:induction false} WindowKeeps(n: nat, steps: seq<Step>, states: seq<State>, i: nat, j: nat, k: Key)
    requires n >= 1 && IsRun(n, steps, states) && SafeRun(steps, states) && i <= j <= |steps|
    requires forall m :: i <= m <= j ==> states[m].status.Up?
    requires MemoryHit(states[i], k).None?
    ensures Ordered(states[j], k) && Remembered(states, i, j, k)
  {
    hide Ordered, Remembered, Inv, Next, Enabled, Safe, MemoryHit;
    RunInv(n, steps, states, i);
    if i == j {
      WindowOpens(states, i, k, SpecAfter(steps[..i]));
    } else {
      WindowKeeps(n, steps, states, i, j - 1, k);
      RunInv(n, steps, states, j - 1);
      StepKeepsWindow(states, i, j - 1, k, steps[j - 1], SpecAfter(steps[..j - 1]));
    }
  }

  /** In a safe run the two-phase lookup is linearizable: whatever writes, rotations, flushes, compactions and
      collections run between its halves, the entry it selects was the key's current one at some
      moment from its first half to its second. */
  lemma {:induction false} TwoPhaseGetLinearizes(n: nat, steps: seq<Step>, states: seq<State>, i: nat, j: nat, k: Key)
    requires n >= 1 && IsRun(n, steps, states) && SafeRun(steps, states) && i <= j <= |steps|
    requires forall m :: i <= m <= j ==> states[m].status.Up?
    ensures var inMemory := MemoryHit(states[i], k);
            var e := if inMemory.Some? then inMemory else LevelsHit(states[j].levels, 0, k);
            exists m :: i <= m <= j &&
              (e == Visible(states[m], k)
               || ((e.None? || e.value.Del?) && (Visible(states[m], k).None? || Visible(states[m], k).value.Del?)))
  {
    hide Next, Enabled, Safe, LevelsHit, ImmHit, NewestFirst, AboveTables;
    if MemoryHit(states[i], k).Some? {
      assert TwoPhase(states[i], states[j], k) == Visible(states[i], k);
    } else {
      WindowKeeps(n, steps, states, i, j, k);
      assert WasCurrent(states, i, j, k, TwoPhase(states[i], states[j], k));
    }
  }

  // ---- The value is read last, with no lock at all ----

  lemma {:induction false} SegmentGrows(n: nat, steps: seq<Step>, states: seq<State>, i: nat, j: nat, f: nat)
    requires IsRun(n, steps, states) && i <= j <= |steps| && f in states[i].vlog && f in states[j].vlog
    ensures states[i].vlog[f] <= states[j].vlog[f]
  {
    hide Next, Enabled;
    if i == j {
    } else {
      Histories.RunFilesOk(n, steps, states, i);
      Histories.RunFilesOk(n, steps, states, j - 1);
      Histories.RunExtends(n, steps, states, i, j - 1);
      Histories.StepExtendsFiles(states[j - 1], steps[j - 1]);
      SegmentGrows(n, steps, states, i, j - 1, f);
      Archive.StepGrowsSegments(states[j - 1], steps[j - 1], f);
    }
  }

  /** What the map holds at a moment, read through the pointer that was current then, at any later moment. */
  lemma {:induction false} CurrentReadsLater(n: nat, steps: seq<Step>, states: seq<State>, m: nat, l: nat, k: Key)
    requires n >= 1 && IsRun(n, steps, states) && SafeRun(steps, states) && m <= l <= |steps| && states[m].status.Up?
    ensures var e := Visible(states[m], k);
            if e.None? || e.value.Del? then k !in SpecAfter(steps[..m])
            else k in SpecAfter(steps[..m])
                 && (e.value.ptr.file in states[l].vlog ==>
                       RecordAt(states[l].vlog, e.value.ptr, k, SpecAfter(steps[..m])[k]))
  {
    hide Next, Enabled, Safe, Visible, Data, Find, StoreOk, FlushOk, CompactorOk, ReplayOk, WriterOk, GcOk;
    RunInv(n, steps, states, m);
    assert Matches(Visible(states[m], k), Current(states[m], k));
    assert ValueOk(states[m], SpecAfter(steps[..m]), k);
    var e := Visible(states[m], k);
    if e.Some? && e.value.Put? && e.value.ptr.file in states[l].vlog {
      SegmentGrows(n, steps, states, m, l, e.value.ptr.file);
    }
  }

  /** THE CLIENT'S VIEW. Memtables are searched at moment `i`, tables at `j` and the value is read at `l`, with
      any steps in between. The answer is what the map held at some moment from `i` to `j`, unless the
      segment was collected before the value was read. */
  lemma {:induction false} TwoPhaseGetAnswers(n: nat, steps: seq<Step>, states: seq<State>,
                                              i: nat, j: nat, l: nat, k: Key)
    requires n >= 1 && IsRun(n, steps, states) && SafeRun(steps, states) && i <= j <= l <= |steps|
    requires forall m :: i <= m <= j ==> states[m].status.Up?
    ensures var inMemory := MemoryHit(states[i], k);
            var e := if inMemory.Some? then inMemory else LevelsHit(states[j].levels, 0, k);
            exists m :: i <= m <= j &&
              if e.None? || e.value.Del? then k !in SpecAfter(steps[..m])
              else k in SpecAfter(steps[..m])
                   && (e.value.ptr.file in states[l].vlog ==>
                         RecordAt(states[l].vlog, e.value.ptr, k, SpecAfter(steps[..m])[k]))
  {
    hide Next, Enabled, Safe, Visible, MemoryHit, LevelsHit, SpecAfter, RecordAt;
    TwoPhaseGetLinearizes(n, steps, states, i, j, k);
    var inMemory := MemoryHit(states[i], k);
    var e := if inMemory.Some? then inMemory else LevelsHit(states[j].levels, 0, k);
    var m :| i <= m <= j &&
      (e == Visible(states[m], k)
       || ((e.None? || e.value.Del?) && (Visible(states[m], k).None? || Visible(states[m], k).value.Del?)));
    CurrentReadsLater(n, steps, states, m, l, k);
  }
}
