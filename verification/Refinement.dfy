/** The invariant of all steps, and the refinement over every safe run of the engine. */
module Refinement {
  import opened Bytes
  import opened Lsm
  import opened Compaction
  import opened Engine
  import opened Storage
  import opened Values

  ghost predicate Inv(s: State, spec: map<Key, Value>) {
    StorageInv(s) && ValueInv(s, spec)
  }

  /** A segment may be deleted when nothing live lies behind a tear in it. */
  ghost predicate Safe(s: State, a: Step) {
    a.GcDelete? && s.gc.Rewriting? ==> NoneBehindTear(s, s.gc.file)
  }

  /** Steps that only touch the value log, the collector or a writer that has logged nothing. */
  lemma {:induction false} StorageFrame(s: State, t: State)
    requires StorageInv(s) && s.status.Up? && Pending(s.writer) == Pending(t.writer)
    requires t == s.(vlog := t.vlog, file := t.file, writer := t.writer, gc := t.gc)
    ensures StorageInv(t)
  {
    hide DiskOk, LevelsHit, ImmHit, IsMerge, IsPick, FreshIds, Data;
    forall k ensures Visible(t, k) == Visible(s, k) { }
    forall k ensures Matches(Visible(t, k), Current(t, k)) { assert Matches(Visible(s, k), Current(s, k)); }
    if s.flushed { forall k ensures PopOk(t, k) { assert PopOk(s, k); } }
  }

  /** And steps that touch none of these. */
  lemma {:induction false} ValueFrame(s: State, t: State, spec: map<Key, Value>)
    requires ValueInv(s, spec) && !t.writer.Valued?
    requires t.log == s.log && t.vlog == s.vlog && t.file == s.file && t.gc == s.gc
    ensures ValueInv(t, spec)
  {
    hide Data, Find;
    SpecOkFrame(s, t, spec);
    GcOkFrame(s, t);
  }

  lemma {:induction false} ValueFrameWithWriter(s: State, t: State, spec: map<Key, Value>)
    requires ValueInv(s, spec)
    requires t.log == s.log && t.vlog == s.vlog && t.file == s.file && t.gc == s.gc && t.writer == s.writer
    ensures ValueInv(t, spec)
  {
    hide Data, Find;
    SpecOkFrame(s, t, spec);
    GcOkFrame(s, t);
  }

  lemma {:induction false} InitInv(n: nat)
    requires n >= 1
    ensures Inv(Init(n), map[])
  {
    var s := Init(n);
    assert forall l :: 0 <= l < n ==> s.levels[l] == [];
    forall k ensures Matches(Visible(s, k), Current(s, k)) && ValueOk(s, map[], k) {
      LevelsHitSource(s.levels, 0, k);
    }
  }

  lemma {:induction false} WriteStepKeeps(s: State, a: Step, spec: map<Key, Value>)
    requires Inv(s, spec) && Enabled(s, a)
    requires a.AppendValue? || a.LogPut? || a.LogDelete? || a.ApplyLogged? || a.RotateMem?
    ensures Inv(Next(s, a), SpecStep(spec, a))
  {
    hide StorageInv, ValueInv;
    match a
    case AppendValue(k, v, rotate) =>
      AppendValueKeeps(s, spec, k, v, rotate);
      StorageFrame(s, Next(s, a));
    case LogPut(k, v) =>
      LogPutKeeps(s, spec);
      CommitKeeps(s, k, Put(s.nextSn, s.writer.ptr));
    case LogDelete(k) =>
      LogDeleteKeeps(s, spec, k);
      CommitKeeps(s, k, Del(s.nextSn));
    case ApplyLogged =>
      ApplyKeeps(s);
      ValueFrame(s, Applied(s), spec);
    case RotateMem =>
      RotateKeeps(s);
      ValueFrame(s, Rotated(s), spec);
  }

  lemma {:induction false} StoreStepKeeps(s: State, a: Step, spec: map<Key, Value>)
    requires Inv(s, spec) && Enabled(s, a)
    requires a.FlushInstall? || a.FlushPop? || a.CompactPick? || a.CompactMerge? || a.CompactInstall? || a.SaveManifest?
    ensures Inv(Next(s, a), SpecStep(spec, a))
  {
    hide StorageInv, ValueInv;
    match a {
      case FlushInstall(t) => FlushInstallKeeps(s, t);
      case FlushPop => PopKeeps(s);
      case CompactPick(lvl) => PickKeeps(s, lvl);
      case CompactMerge(outs, nextId) => MergeKeeps(s, outs, nextId);
      case CompactInstall => InstallKeeps(s);
      case SaveManifest => SaveKeeps(s);
    }
    ValueFrameWithWriter(s, Next(s, a), spec);
  }

  lemma {:induction false} GcStepKeeps(s: State, a: Step, spec: map<Key, Value>)
    requires Inv(s, spec) && Enabled(s, a) && Safe(s, a)
    requires a.GcBegin? || a.GcScan? || a.GcDecide? || a.GcCopy? || a.GcSwap? || a.GcDelete?
    ensures Inv(Next(s, a), SpecStep(spec, a))
  {
    hide StoreOk, FlushOk, CompactorOk, ReplayOk, LookupOk, Data, Find;
    match a
    case GcBegin(f) =>
      SpecOkFrame(s, Next(s, a), spec);
      StorageFrame(s, Next(s, a));
    case GcScan =>
      ScanKeeps(s, spec);
      StorageFrame(s, Next(s, a));
    case GcDecide(rewrite) =>
      DecideKeeps(s, spec, rewrite);
      StorageFrame(s, Next(s, a));
    case GcCopy(rotate) =>
      CopyKeeps(s, spec, rotate);
      StorageFrame(s, Next(s, a));
    case GcSwap => SwapStepKeeps(s, spec);
    case GcDelete =>
      DeleteKeeps(s, spec);
      StorageFrame(s, Next(s, a));
  }

  lemma {:induction false} SwapStepKeeps(s: State, spec: map<Key, Value>)
    requires Inv(s, spec) && Enabled(s, GcSwap)
    ensures Inv(Swapped(s), spec)
  {
    hide StoreOk, FlushOk, CompactorOk, ReplayOk, LookupOk, Data, Find, Visible;
    SwapKeeps(s, spec);
    var p := Ptr(s.gc.file, s.gc.live[s.gc.done]);
    var k := s.vlog[p.file][p.index].key;
    var t := s.(gc := Rewriting(s.gc.file, s.gc.live, s.gc.done + 1));
    StorageFrame(s, t);
    if PointsTo(Visible(s, k), p) { CommitKeeps(t, k, Put(s.nextSn, s.gc.ptr)); }
  }

  lemma {:induction false} RestartStepKeeps(s: State, a: Step, spec: map<Key, Value>)
    requires Inv(s, spec) && Enabled(s, a)
    requires a.Crash? || a.ReplayRecord? || a.ReplayFlush? || a.ReplayDone?
    ensures Inv(Next(s, a), SpecStep(spec, a))
  {
    hide StorageInv, ValueInv;
    match a
    case Crash(lost, left) =>
      RestartKeeps(s, lost, left);
      RestartKeepsValues(s, spec, lost, left);
    case ReplayRecord =>
      ReplayRecordKeeps(s);
      ValueFrameWithWriter(s, Replayed(s), spec);
    case ReplayFlush(t) =>
      ReplayFlushKeeps(s, t);
      ValueFrameWithWriter(s, ReplayFlushed(s, t), spec);
    case ReplayDone =>
      ReopenKeeps(s);
      ValueFrameWithWriter(s, Reopened(s), spec);
  }

  /** Every step keeps the invariant, and changes the map only as a write does. */
  lemma {:induction false} StepKeeps(s: State, a: Step, spec: map<Key, Value>)
    requires Inv(s, spec) && Enabled(s, a) && Safe(s, a)
    ensures Inv(Next(s, a), SpecStep(spec, a))
  {
    hide StorageInv, ValueInv, Safe, Next, Enabled;
    if a.AppendValue? || a.LogPut? || a.LogDelete? || a.ApplyLogged? || a.RotateMem? {
      WriteStepKeeps(s, a, spec);
    } else if a.GcBegin? || a.GcScan? || a.GcDecide? || a.GcCopy? || a.GcSwap? || a.GcDelete? {
      GcStepKeeps(s, a, spec);
    } else if a.Crash? || a.ReplayRecord? || a.ReplayFlush? || a.ReplayDone? {
      RestartStepKeeps(s, a, spec);
    } else {
      StoreStepKeeps(s, a, spec);
    }
  }

  /** In a state that keeps the invariant a lookup answers as the map does, and never meets an
      unreadable pointer. */
  lemma {:induction false} GetIsSpec(s: State, spec: map<Key, Value>, k: Key)
    requires Inv(s, spec) && s.status.Up?
    ensures Get(s, k) == SpecGet(spec, k)
  {
    hide Data, Find, Visible;
    assert Matches(Visible(s, k), Current(s, k));
    assert ValueOk(s, spec, k);
  }

  /** No deletion of the run loses a key hidden behind a tear. */
  ghost predicate SafeRun(steps: seq<Step>, states: seq<State>)
    requires |states| == |steps| + 1
  {
    forall i :: 0 <= i < |steps| ==> Safe(states[i], steps[i])
  }

  lemma {:induction false} RunInv(n: nat, steps: seq<Step>, states: seq<State>, i: nat)
    requires n >= 1 && IsRun(n, steps, states) && SafeRun(steps, states) && i <= |steps|
    ensures Inv(states[i], SpecAfter(steps[..i]))
  {
    hide Inv, Next, Enabled, Safe;
    if i == 0 {
      InitInv(n);
    } else {
      RunInv(n, steps, states, i - 1);
      assert steps[..i][..i - 1] == steps[..i - 1];
      StepKeeps(states[i - 1], steps[i - 1], SpecAfter(steps[..i - 1]));
    }
  }

  /** THE REFINEMENT. In every safe run, one that deletes no segment in which a key's last record lies
      behind a tear, however writes, rotations, flushes, compactions, collections, crashes and replays
      interleave, a lookup at any serving moment returns what a plain map holds after the writes logged
      so far. That no weaker condition will do is `Histories.EngineRefinesMapIff`. */
  lemma {:induction false} EngineRefinesMap(n: nat, steps: seq<Step>, states: seq<State>, i: nat, k: Key)
    requires n >= 1 && IsRun(n, steps, states) && SafeRun(steps, states)
    requires i <= |steps| && states[i].status.Up?
    ensures Get(states[i], k) == SpecGet(SpecAfter(steps[..i]), k)
  {
    RunInv(n, steps, states, i);
    GetIsSpec(states[i], SpecAfter(steps[..i]), k);
  }
}
