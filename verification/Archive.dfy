/** Every record ever logged points at a record of the value log as it was before any deletion, so the
    bytes of the log can be read back whatever has been collected since. */
module Archive {
  import opened Bytes
  import opened Coding
  import opened Pointers
  import opened Lsm
  import opened Compaction
  import opened Engine
  import opened Storage
  import opened Values
  import opened Refinement
  import Histories
  import W = WriteAheadLog
  import L = Layers

  /** All segments of a run up to a moment, deleted ones as they last were. */
  function Segments(states: seq<State>, i: nat): VLog
    requires i < |states|
  {
    if i == 0 then states[0].vlog else Segments(states, i - 1) + states[i].vlog
  }

  // ---- Steps ----

  /** A segment that stays only grows. */
  lemma {:induction false} StepGrowsSegments(s: State, a: Step, f: nat)
    requires Enabled(s, a) && VLogOk(s) && f in s.vlog && f in Next(s, a).vlog
    ensures s.vlog[f] <= Next(s, a).vlog[f]
  {
    if Histories.TouchesFiles(a) {
      hide Visible, Load;
    } else {
      hide Next, Enabled;
      Histories.StepKeepsFiles(s, a);
    }
  }

  /** The record that a pointer leads to, and whose it is. */
  predicate Owned(v: VLog, x: KV) {
    x.entry.Put? ==> Readable(v, x.entry.ptr) && v[x.entry.ptr.file][x.entry.ptr.index].key == x.key
  }

  ghost predicate LogsOne(s: State, a: Step, x: KV)
    requires Enabled(s, a)
  {
    Next(s, a).log == s.log + [x] && Next(s, a).vlog == s.vlog && Owned(s.vlog, x)
  }

  /** A step logs nothing, or one record that points at a record of its key. */
  lemma {:induction false} StepLogsOwned(s: State, a: Step, spec: map<Key, Value>)
    requires Inv(s, spec) && Enabled(s, a)
    ensures Next(s, a).log == s.log || exists x :: LogsOne(s, a, x)
  {
    if a.LogPut? {
      PutLogsOwned(s, a, spec);
    } else if a.GcSwap? {
      SwapLogsOwned(s, spec);
    } else if a.LogDelete? {
      hide Inv;
      assert LogsOne(s, a, KV(a.key, Del(s.nextSn)));
    } else {
      hide Inv, Next, Enabled;
      StepLogsNothing(s, a);
    }
  }

  lemma {:induction false} StepLogsNothing(s: State, a: Step)
    requires Enabled(s, a) && !a.LogPut? && !a.LogDelete? && !a.GcSwap?
    ensures Next(s, a).log == s.log
  {
    hide Visible, IsMerge, MaxSn, Load, Installed, Interrupted;
  }

  lemma {:induction false} PutLogsOwned(s: State, a: Step, spec: map<Key, Value>)
    requires Inv(s, spec) && Enabled(s, a) && a.LogPut?
    ensures exists x :: LogsOne(s, a, x)
  {
    hide StorageInv, SpecOk, GcOk;
    assert LogsOne(s, a, KV(a.key, Put(s.nextSn, s.writer.ptr)));
  }

  lemma {:induction false} SwapLogsOwned(s: State, spec: map<Key, Value>)
    requires Inv(s, spec) && Enabled(s, GcSwap)
    ensures Next(s, GcSwap).log == s.log || exists x :: LogsOne(s, GcSwap, x)
  {
    hide StorageInv, SpecOk, Visible, Positions, BehindTear;
    var p := Ptr(s.gc.file, s.gc.live[s.gc.done]);
    var k := s.vlog[p.file][p.index].key;
    if PointsTo(Visible(s, k), p) {
      assert LogsOne(s, GcSwap, KV(k, Put(s.nextSn, s.gc.ptr)));
    }
  }

  // ---- Runs ----

  ghost predicate ArchiveOk(s: State, v: VLog) {
    && (forall f :: f in s.vlog ==> f in v && v[f] == s.vlog[f])
    && (forall f :: f in v ==> f <= s.file)
    && (forall i :: 0 <= i < |s.log| ==> Owned(v, s.log[i]))
  }

  /** The archive after a step extends the one before it. */
  lemma {:induction false} StepExtendsArchive(s: State, a: Step, v: VLog, f: nat)
    requires Enabled(s, a) && VLogOk(s) && ArchiveOk(s, v) && f in v
    ensures var w := v + Next(s, a).vlog;
            f in w && v[f] <= w[f]
  {
    hide Next, Enabled;
    if f in Next(s, a).vlog {
      Histories.StepExtendsFiles(s, a);
      assert f in s.vlog;
      StepGrowsSegments(s, a, f);
    }
  }

  lemma {:induction false} OwnedStays(v: VLog, w: VLog, x: KV)
    requires Owned(v, x) && forall f :: f in v ==> f in w && v[f] <= w[f]
    ensures Owned(w, x)
  {
  }

  lemma {:induction false} StepKeepsArchive(s: State, a: Step, v: VLog, spec: map<Key, Value>)
    requires Inv(s, spec) && Enabled(s, a) && Safe(s, a) && ArchiveOk(s, v)
    ensures ArchiveOk(Next(s, a), v + Next(s, a).vlog)
  {
    hide Next, Enabled, Safe, StorageInv, SpecOk, WriterOk, GcOk, Owned, LogsOne;
    var t := Next(s, a);
    var w := v + t.vlog;
    StepKeeps(s, a, spec);
    Histories.StepExtendsFiles(s, a);
    forall f | f in v ensures f in w && v[f] <= w[f] { StepExtendsArchive(s, a, v, f); }
    forall i | 0 <= i < |s.log| ensures Owned(w, s.log[i]) { OwnedStays(v, w, s.log[i]); }
    StepLogsOwned(s, a, spec);
    if t.log != s.log {
      var x :| LogsOne(s, a, x);
      LoggedIsOwned(s, a, x, w);
    }
  }

  lemma {:induction false} LoggedIsOwned(s: State, a: Step, x: KV, w: VLog)
    requires Enabled(s, a) && LogsOne(s, a, x) && forall f :: f in s.vlog ==> f in w && s.vlog[f] <= w[f]
    ensures Next(s, a).log == s.log + [x] && Owned(w, x)
  {
    hide Next, Enabled;
    OwnedStays(s.vlog, w, x);
  }

  lemma {:induction false} RunArchive(n: nat, steps: seq<Step>, states: seq<State>, i: nat)
    requires n >= 1 && IsRun(n, steps, states) && SafeRun(steps, states) && i <= |steps|
    ensures ArchiveOk(states[i], Segments(states, i))
  {
    hide Next, Enabled, Safe, Inv, ArchiveOk;
    if i == 0 {
      assert ArchiveOk(Init(n), Init(n).vlog) by { StartArchive(n); }
    } else {
      RunArchive(n, steps, states, i - 1);
      RunInv(n, steps, states, i - 1);
      StepKeepsArchive(states[i - 1], steps[i - 1], Segments(states, i - 1), SpecAfter(steps[..i - 1]));
    }
  }

  lemma {:induction false} StartArchive(n: nat)
    ensures ArchiveOk(Init(n), Init(n).vlog)
  {
  }

  /** Segments only grow through a run, deleted ones included. */
  lemma {:induction false} SegmentsGrow(n: nat, steps: seq<Step>, states: seq<State>, i: nat, j: nat, f: nat)
    requires n >= 1 && IsRun(n, steps, states) && SafeRun(steps, states) && i <= j <= |steps|
    requires f in Segments(states, i)
    ensures f in Segments(states, j) && Segments(states, i)[f] <= Segments(states, j)[f]
  {
    hide Next, Enabled, Safe, ArchiveOk;
    if i == j {
    } else {
      SegmentsGrow(n, steps, states, i, j - 1, f);
      RunArchive(n, steps, states, j - 1);
      Histories.RunFilesOk(n, steps, states, j - 1);
      StepExtendsArchive(states[j - 1], steps[j - 1], Segments(states, j - 1), f);
    }
  }

  /** THE LOG ON DISK. In every safe run, the bytes of the log with real byte pointers, cut anywhere, replay to
      exactly the engine's records whose bytes are all there, whatever has been collected since. */
  lemma {:induction false} LogSurvivesCrash(n: nat, steps: seq<Step>, states: seq<State>, i: nat,
                                            gaps: map<nat, L.Gaps>, crc: Checksum, cut: nat)
    returns (m: nat)
    requires n >= 1 && IsRun(n, steps, states) && SafeRun(steps, states) && i <= |steps|
    requires L.Addressable(Segments(states, i), gaps) && L.Numbered(states[i].log)
    requires forall j :: 0 <= j < |states[i].log| ==> |states[i].log[j].key| + 29 < TWO_32
    requires cut <= |W.EncodeAll(L.ToRecords(states[i].log, L.ToPointer(Segments(states, i), gaps)), crc)|
    ensures var log, v := states[i].log, Segments(states, i);
            var bytes := W.EncodeAll(L.ToRecords(log, L.ToPointer(v, gaps)), crc);
            && m <= |log|
            && L.Replay(W.RecoverAll(bytes[..cut], crc), L.FromPointer(v, gaps)) == log[..m]
            && forall k :: 0 <= k <= |log| ==>
                 (k <= m <==> |W.EncodeAll(L.ToRecords(log[..k], L.ToPointer(v, gaps)), crc)| <= cut)
  {
    hide Next, Enabled, Safe, L.Addressable, L.ToPointer, L.FromPointer, W.EncodeAll, W.RecoverAll, L.Replay, Segments;
    var log, v := states[i].log, Segments(states, i);
    RunArchive(n, steps, states, i);
    forall j | 0 <= j < |log| ensures L.Loggable(log[j], L.ToPointer(v, gaps), L.FromPointer(v, gaps)) {
      if log[j].entry.Put? { L.PointerNamesRecord(v, gaps, log[j].entry.ptr); }
    }
    m := L.CrashKeepsAPrefix(log, cut, crc, L.ToPointer(v, gaps), L.FromPointer(v, gaps));
  }
}
