/** What whole runs guarantee besides the current answer: nothing comes back, recovery folds the log,
    and exactly when deleting a collected segment is safe. */
module Histories {
  import opened Bytes
  import opened Lsm
  import opened Compaction
  import opened Engine
  import opened Storage
  import opened Values
  import opened Refinement
  import opened Operations

  // ---- The map, by the writes alone: the last one wins ----

  lemma {:induction false} LastPutWins(steps: seq<Step>, i: nat, k: Key, v: Value)
    requires i < |steps| && steps[i] == LogPut(k, v)
    requires forall j :: i < j < |steps| ==> !(steps[j].LogPut? || steps[j].LogDelete?) || steps[j].key != k
    ensures k in SpecAfter(steps) && SpecAfter(steps)[k] == v
    decreases |steps|
  {
    var m := |steps| - 1;
    if i == m { } else { LastPutWins(steps[..m], i, k, v); }
  }

  lemma {:induction false} LastDeleteWins(steps: seq<Step>, i: nat, k: Key)
    requires i < |steps| && steps[i] == LogDelete(k)
    requires forall j :: i < j < |steps| ==> !(steps[j].LogPut? || steps[j].LogDelete?) || steps[j].key != k
    ensures k !in SpecAfter(steps)
    decreases |steps|
  {
    var m := |steps| - 1;
    if i == m { } else { LastDeleteWins(steps[..m], i, k); }
  }

  lemma {:induction false} UnwrittenIsAbsent(steps: seq<Step>, k: Key)
    requires forall j :: 0 <= j < |steps| ==> !(steps[j].LogPut? || steps[j].LogDelete?) || steps[j].key != k
    ensures k !in SpecAfter(steps)
    decreases |steps|
  {
    if steps == [] { } else { UnwrittenIsAbsent(steps[..|steps| - 1], k); }
  }

  /** At a serving moment of a safe run a lookup finds the value of the key's last logged write, whatever
      else has happened since. */
  lemma {:induction false} LastPutIsRead(n: nat, steps: seq<Step>, states: seq<State>, i: nat, j: nat, k: Key, v: Value)
    requires n >= 1 && IsRun(n, steps, states) && SafeRun(steps, states)
    requires i < j <= |steps| && states[j].status.Up? && steps[i] == LogPut(k, v)
    requires forall m :: i < m < j ==> !(steps[m].LogPut? || steps[m].LogDelete?) || steps[m].key != k
    ensures Get(states[j], k) == Found(v)
  {
    hide Next, Enabled, Safe, Get, SpecAfter;
    EngineRefinesMap(n, steps, states, j, k);
    LastPutWins(steps[..j], i, k, v);
  }

  /** A deleted key is not found until it is written again. */
  lemma {:induction false} DeletedStaysDeleted(n: nat, steps: seq<Step>, states: seq<State>, i: nat, j: nat, k: Key)
    requires n >= 1 && IsRun(n, steps, states) && SafeRun(steps, states)
    requires i < j <= |steps| && states[j].status.Up? && steps[i] == LogDelete(k)
    requires forall m :: i < m < j ==> !(steps[m].LogPut? || steps[m].LogDelete?) || steps[m].key != k
    ensures Get(states[j], k) == NotFound
  {
    hide Next, Enabled, Safe, Get, SpecAfter;
    EngineRefinesMap(n, steps, states, j, k);
    LastDeleteWins(steps[..j], i, k);
  }

  lemma {:induction false} UnwrittenIsNotFound(n: nat, steps: seq<Step>, states: seq<State>, j: nat, k: Key)
    requires n >= 1 && IsRun(n, steps, states) && SafeRun(steps, states) && j <= |steps| && states[j].status.Up?
    requires forall m :: 0 <= m < j ==> !(steps[m].LogPut? || steps[m].LogDelete?) || steps[m].key != k
    ensures Get(states[j], k) == NotFound
  {
    hide Next, Enabled, Safe, Get, SpecAfter;
    EngineRefinesMap(n, steps, states, j, k);
    UnwrittenIsAbsent(steps[..j], k);
  }

  // ---- Runs only add to the log, and never reuse a segment ----

  lemma {:induction false} StepExtendsLog(s: State, a: Step)
    requires Enabled(s, a)
    ensures s.log <= Next(s, a).log
  {
    hide Visible, IsMerge, MaxSn, Load, Installed, Interrupted;
  }

  predicate TouchesFiles(a: Step) {
    a.AppendValue? || a.GcCopy? || a.GcDelete? || a.Crash?
  }

  lemma {:induction false} StepKeepsFiles(s: State, a: Step)
    requires Enabled(s, a) && !TouchesFiles(a)
    ensures Next(s, a).vlog == s.vlog && Next(s, a).file == s.file
  {
    hide Visible, IsMerge, MaxSn, Load, Installed, Append, Interrupted;
  }

  /** The active segment is the last one, and the one being collected is older. */
  predicate FilesOk(s: State) {
    VLogOk(s) && (!s.gc.NoGc? ==> s.gc.file < s.file)
  }

  lemma {:induction false} StepExtendsFiles(s: State, a: Step)
    requires Enabled(s, a) && VLogOk(s)
    ensures s.file <= Next(s, a).file
    ensures forall f :: f !in s.vlog && f <= s.file ==> f !in Next(s, a).vlog
  {
    if TouchesFiles(a) {
      hide Visible, Load;
      assert Next(s, a).file == s.file || Next(s, a).file == s.file + 1;
    } else {
      hide Next, Enabled;
      StepKeepsFiles(s, a);
    }
  }

  lemma {:induction false} StepKeepsFilesOk(s: State, a: Step)
    requires Enabled(s, a) && FilesOk(s)
    ensures FilesOk(Next(s, a))
  {
    if TouchesFiles(a) {
      hide Visible, Load;
    } else {
      hide Next, Enabled;
      StepKeepsFiles(s, a);
      StepKeepsCollected(s, a);
    }
  }

  lemma {:induction false} StepKeepsCollected(s: State, a: Step)
    requires Enabled(s, a) && !TouchesFiles(a)
    ensures var gc := Next(s, a).gc;
            gc.NoGc? || (a.GcBegin? && gc.file < s.file) || (!s.gc.NoGc? && gc.file == s.gc.file)
  {
    hide Visible, IsMerge, MaxSn, Installed;
  }

  lemma {:induction false} RunFilesOk(n: nat, steps: seq<Step>, states: seq<State>, i: nat)
    requires IsRun(n, steps, states) && i <= |steps|
    ensures FilesOk(states[i])
  {
    hide Next, Enabled;
    if i == 0 {
    } else {
      RunFilesOk(n, steps, states, i - 1);
      StepKeepsFilesOk(states[i - 1], steps[i - 1]);
    }
  }

  lemma {:induction false} RunExtends(n: nat, steps: seq<Step>, states: seq<State>, i: nat, j: nat)
    requires IsRun(n, steps, states) && i <= j <= |steps|
    ensures states[i].log <= states[j].log && states[i].file <= states[j].file
    ensures forall f :: f !in states[i].vlog && f <= states[i].file ==> f !in states[j].vlog
  {
    hide Next, Enabled;
    if i == j {
    } else {
      RunExtends(n, steps, states, i, j - 1);
      RunFilesOk(n, steps, states, j - 1);
      StepExtendsLog(states[j - 1], steps[j - 1]);
      StepExtendsFiles(states[j - 1], steps[j - 1]);
    }
  }

  lemma {:induction false} LastOfExtension(a: seq<KV>, b: seq<KV>, k: Key)
    requires a <= b && k in Data(b)
    ensures KV(k, Data(b)[k]) in b[|a|..] || (k in Data(a) && Data(a)[k] == Data(b)[k])
  {
    if |a| < |b| {
      var m := |b| - 1;
      assert b[|a|..] == b[..m][|a|..] + [b[m]];
      if b[m].key != k {
        assert a <= b[..m];
        LastOfExtension(a, b[..m], k);
      }
    } else {
      assert a == b;
    }
  }

  /** NO RESURRECTION. Between two serving moments of a safe run the sequence number a lookup selects never falls;
      a key that reads as absent is brought back only by a record logged afterwards; and a pointer
      into a segment already deleted is never selected again. */
  lemma {:induction false} NoResurrection(n: nat, steps: seq<Step>, states: seq<State>, i: nat, j: nat, k: Key)
    requires n >= 1 && IsRun(n, steps, states) && SafeRun(steps, states) && i <= j <= |steps|
    requires states[i].status.Up? && states[j].status.Up? && Visible(states[j], k).Some?
    ensures states[i].log <= states[j].log
    ensures var before, after := Visible(states[i], k), Visible(states[j], k).value;
            && (before.Some? ==> before.value.sn <= after.sn)
            && (after.Put? && (before.None? || before.value.Del?) ==>
                  KV(k, after) in states[j].log[|states[i].log|..])
            && (after.Put? ==> after.ptr.file in states[j].vlog)
    ensures forall f :: f !in states[i].vlog && f <= states[i].file ==> f !in states[j].vlog
  {
    hide Next, Enabled, Safe, Visible, Data, StoreOk, FlushOk, CompactorOk, ReplayOk, WriterOk, GcOk, Increasing;
    RunInv(n, steps, states, i);
    RunInv(n, steps, states, j);
    RunExtends(n, steps, states, i, j);
    assert Matches(Visible(states[i], k), Current(states[i], k));
    assert Matches(Visible(states[j], k), Current(states[j], k));
    LastOfExtension(states[i].log, states[j].log, k);
    assert ValueOk(states[j], SpecAfter(steps[..j]), k);
    var before := Visible(states[i], k);
    if before.Some? {
      DataSource(states[i].log, k);
      assert KV(k, before.value) in states[j].log;
      LastIsNewest(states[j].log, k, before.value);
    }
  }

  // ---- Recovery ----

  lemma {:induction false} ReplayKeepsLog(steps: seq<Step>, states: seq<State>, n: nat, i: nat, j: nat)
    requires IsRun(n, steps, states) && i < j <= |steps| && steps[i].Crash?
    requires forall m :: i < m < j ==> states[m].status.Replaying? && !steps[m].Crash?
    ensures states[j].log == states[i].log
  {
    if i + 1 < j {
      ReplayKeepsLog(steps, states, n, i, j - 1);
      assert Enabled(states[j - 1], steps[j - 1]);
    } else {
      assert Enabled(states[i], steps[i]);
    }
  }

  /** RECOVERY. Whenever the process dies, whatever tables survive, and however the replay is cut by
      flushes, once the log is replayed every lookup finds the last complete record of its key, and
      the next sequence number is above every recovered one. */
  lemma {:induction false} RecoveryFoldsLog(n: nat, steps: seq<Step>, states: seq<State>, i: nat, j: nat, k: Key)
    requires n >= 1 && IsRun(n, steps, states) && SafeRun(steps, states) && i < j < |steps|
    requires steps[i].Crash? && steps[j].ReplayDone?
    requires forall m :: i < m <= j ==> states[m].status.Replaying? && !steps[m].Crash?
    ensures states[j + 1].log == states[i].log
    ensures Matches(Visible(states[j + 1], k), Find(Data(states[i].log), k))
    ensures forall r :: r in states[i].log ==> r.entry.sn < states[j + 1].nextSn
  {
    hide Visible, Data, StoreOk, FlushOk, CompactorOk, ReplayOk, ValueInv, Increasing, SafeRun;
    ReplayKeepsLog(steps, states, n, i, j);
    RunInv(n, steps, states, j + 1);
    assert Enabled(states[j], steps[j]);
    assert Matches(Visible(states[j + 1], k), Current(states[j + 1], k));
  }

  // ---- When a collected segment may be deleted ----

  /** Deleting the segment changes no answer exactly when no key's last record lies behind a torn
      record in it, where the scan did not look. */
  lemma {:induction false} DeleteIsSafeIff(s: State, spec: map<Key, Value>)
    requires Inv(s, spec) && Enabled(s, GcDelete)
    ensures NoneBehindTear(s, s.gc.file) <==> forall k :: Get(SegmentDeleted(s), k) == Get(s, k)
  {
    hide Visible, Data, StorageInv, BehindTear, Find;
    var t := SegmentDeleted(s);
    if NoneBehindTear(s, s.gc.file) {
      forall k ensures Get(t, k) == Get(s, k) {
        StepKeeps(s, GcDelete, spec);
        GetIsSpec(s, spec, k);
        GetIsSpec(t, spec, k);
      }
    } else {
      var k :| HiddenIn(s, s.gc.file, k);
      DeletedAnswers(s, spec, k);
      GetIsSpec(s, spec, k);
    }
  }

  /** The first deletion that is not safe. */
  lemma {:induction false} FirstUnsafe(steps: seq<Step>, states: seq<State>) returns (i: nat)
    requires |states| == |steps| + 1 && !SafeRun(steps, states)
    ensures i < |steps| && !Safe(states[i], steps[i]) && forall j :: 0 <= j < i ==> Safe(states[j], steps[j])
  {
    hide Safe;
    i := 0;
    while i < |steps| && Safe(states[i], steps[i])
      invariant i <= |steps| && forall j :: 0 <= j < i ==> Safe(states[j], steps[j])
    {
      i := i + 1;
    }
  }

  lemma {:induction false} PrefixIsRun(n: nat, steps: seq<Step>, states: seq<State>, i: nat)
    requires IsRun(n, steps, states) && i <= |steps|
    ensures IsRun(n, steps[..i], states[..i + 1])
  {
    hide Next, Enabled;
  }

  /** An unsafe deletion loses a key. */
  lemma {:induction false} UnsafeLosesAKey(s: State, spec: map<Key, Value>, a: Step) returns (k: Key)
    requires Inv(s, spec) && Enabled(s, a) && !Safe(s, a)
    ensures Next(s, a).status.Up? && Get(Next(s, a), k) == Unreadable && SpecStep(spec, a) == spec
  {
    hide Inv, HiddenIn, Get;
    k :| HiddenIn(s, s.gc.file, k);
    DeletedAnswers(s, spec, k);
  }

  /** THE REFINEMENT, BOTH WAYS. A run answers as the map at every serving moment if and only if it never
      deletes a segment in which a key's last record lies behind a tear. */
  lemma {:induction false} EngineRefinesMapIff(n: nat, steps: seq<Step>, states: seq<State>)
    requires n >= 1 && IsRun(n, steps, states)
    ensures SafeRun(steps, states)
       <==> forall i, k :: 0 <= i <= |steps| && states[i].status.Up? ==>
              Get(states[i], k) == SpecGet(SpecAfter(steps[..i]), k)
  {
    hide Next, Enabled, Safe, Get, SpecStep;
    if SafeRun(steps, states) {
      forall i, k | 0 <= i <= |steps| && states[i].status.Up?
        ensures Get(states[i], k) == SpecGet(SpecAfter(steps[..i]), k)
      {
        EngineRefinesMap(n, steps, states, i, k);
      }
    } else {
      var i := FirstUnsafe(steps, states);
      var front, reached := steps[..i], states[..i + 1];
      PrefixIsRun(n, steps, states, i);
      RunInv(n, front, reached, i);
      assert front[..i] == front && reached[i] == states[i];
      var k := UnsafeLosesAKey(states[i], SpecAfter(front), steps[i]);
      assert steps[..i + 1][..i] == front;
      assert SpecAfter(steps[..i + 1]) == SpecAfter(front) && states[i + 1] == Next(states[i], steps[i]);
      assert Get(states[i + 1], k) != SpecGet(SpecAfter(steps[..i + 1]), k);
    }
  }

  /** A one-level database whose tables are all empty. */
  function Small(status: Status, mem: Source, vlog: VLog, file: nat, log: seq<KV>, nextSn: nat,
                 writer: Writer, gc: Collector): State {
    State(status, mem, [], false, [[]], 1, Manifest([[]], 1), vlog, file, log, nextSn, writer, NoCompaction, gc)
  }

  const P2: KV := KV([2], Put(2, Ptr(1, 2)))
  const P3: KV := KV([3], Put(3, Ptr(2, 0)))
  const TORN_SEGMENT: seq<Slot> := [Rec([1], []), Torn, Rec([2], [])]

  const GARBAGE: VLog := map[1 := [Rec([1], [])]]
  const TEAR: VLog := map[1 := [Rec([1], []), Torn]]
  const BEHIND: VLog := map[1 := TORN_SEGMENT]
  const ROTATED: VLog := map[1 := TORN_SEGMENT, 2 := [Rec([3], [])]]
  const M2: Source := map[[2] := P2.entry]
  const M3: Source := map[[2] := P2.entry, [3] := P3.entry]

  /** A run of it that loses a value: a crash tears a record, a later put lands behind the tear, and
      the collector, whose scan stops at the tear, deletes the segment. */
  function LossyState(i: nat): State
    requires i <= 15
  {
    match i
    case 0 => Init(1)
    case 1 => Small(Up, map[], GARBAGE, 1, [], 2, Valued([1], [], Ptr(1, 0)), NoGc)
    case 2 => Small(Replaying(0, 0), map[], GARBAGE, 1, [], 1, Free, NoGc)
    case 3 => Small(Up, map[], GARBAGE, 1, [], 2, Free, NoGc)
    case 4 => Small(Replaying(0, 0), map[], TEAR, 1, [], 1, Free, NoGc)
    case 5 => Small(Up, map[], TEAR, 1, [], 2, Free, NoGc)
    case 6 => Small(Up, map[], BEHIND, 1, [], 2, Valued([2], [], Ptr(1, 2)), NoGc)
    case 7 => Small(Up, map[], BEHIND, 1, [P2], 3, Logged([2], P2.entry), NoGc)
    case 8 => Small(Up, M2, BEHIND, 1, [P2], 3, Free, NoGc)
    case 9 => Small(Up, M2, ROTATED, 2, [P2], 3, Valued([3], [], Ptr(2, 0)), NoGc)
    case 10 => Small(Up, M2, ROTATED, 2, [P2, P3], 4, Logged([3], P3.entry), NoGc)
    case 11 => Small(Up, M3, ROTATED, 2, [P2, P3], 4, Free, NoGc)
    case 12 => Small(Up, M3, ROTATED, 2, [P2, P3], 4, Free, Scanning(1, 0, []))
    case 13 => Small(Up, M3, ROTATED, 2, [P2, P3], 4, Free, Scanning(1, 1, []))
    case 14 => Small(Up, M3, ROTATED, 2, [P2, P3], 4, Free, Rewriting(1, [], 0))
    case _ => Small(Up, M3, ROTATED - {1}, 2, [P2, P3], 4, Free, NoGc)
  }

  function LossyStep(i: nat): Step
    requires i < 15
  {
    match i
    case 0 => AppendValue([1], [], false)
    case 1 => Crash([], Clean)
    case 2 => ReplayDone
    case 3 => Crash([], TornTail)
    case 4 => ReplayDone
    case 5 => AppendValue([2], [], false)
    case 6 => LogPut([2], [])
    case 7 => ApplyLogged
    case 8 => AppendValue([3], [], true)
    case 9 => LogPut([3], [])
    case 10 => ApplyLogged
    case 11 => GcBegin(1)
    case 12 => GcScan
    case 13 => GcDecide(true)
    case _ => GcDelete
  }

  ghost predicate LossyLink(i: nat)
    requires i < 15
  {
    Enabled(LossyState(i), LossyStep(i)) && Next(LossyState(i), LossyStep(i)) == LossyState(i + 1)
  }

  lemma LossyAppend()
    ensures LossyLink(0)
  {
    hide Load, MaxSn, Restarted, ReplayFlushed, Installed, Visible;
    assert Init(1).levels == [[]];
    assert [] + [Rec([1], [])] == [Rec([1], [])];
    assert LossyState(0).vlog[1 := [] + [Rec([1], [])]] == LossyState(1).vlog;
  }

  lemma LoadNothing()
    ensures Load([[]], []) == [[]]
  {
    RemovePrefix([], []);
  }

  lemma LossyCrash()
    ensures LossyLink(1)
  {
    hide Load, MaxSn, Visible, Installed;
    LoadNothing();
    assert Restarted(LossyState(1), [], Clean) == LossyState(2);
  }

  lemma LossyReplay()
    ensures LossyLink(2) && LossyLink(4)
  {
    hide Load, Visible, Installed;
  }

  lemma LossyTear()
    ensures LossyLink(3)
  {
    hide Load, MaxSn, Visible, Installed;
    var s := LossyState(3);
    LoadNothing();
    assert s.vlog[1] + [Torn] == [Rec([1], []), Torn];
    assert Interrupted(s, TornTail).vlog == TEAR;
    assert Restarted(s, [], TornTail) == LossyState(4);
  }

  lemma LossySecondAppend()
    ensures LossyLink(5)
  {
    hide Load, MaxSn, Visible, Installed;
    var s := LossyState(5);
    assert s.vlog[1] + [Rec([2], [])] == TORN_SEGMENT;
    assert s.vlog[1 := s.vlog[1] + [Rec([2], [])]] == BEHIND;
  }

  lemma LossyPut()
    ensures LossyLink(6)
  {
    hide Load, MaxSn, Visible, Installed;
    assert [] + [P2] == [P2];
  }

  lemma LossyApply()
    ensures LossyLink(7)
  {
    hide Load, MaxSn, Visible, Installed;
    assert Active(LossyState(7)) == M2;
  }

  lemma LossyRotate()
    ensures LossyLink(8)
  {
    hide Load, MaxSn, Visible, Installed;
    assert LossyState(8).vlog[2 := [Rec([3], [])]] == ROTATED;
  }

  lemma LossySecondPut()
    ensures LossyLink(9)
  {
    hide Load, MaxSn, Visible, Installed;
    assert [P2] + [P3] == [P2, P3];
  }

  lemma LossySecondApply()
    ensures LossyLink(10)
  {
    hide Load, MaxSn, Visible, Installed;
    assert Active(LossyState(10)) == M3;
  }

  lemma LossyBegin()
    ensures LossyLink(11)
  {
    hide Load, MaxSn, Visible, Installed;
  }

  lemma NothingSeen()
    ensures Visible(LossyState(12), [1]).None?
  {
    assert Active(LossyState(12)) == M3;
  }

  lemma LossyScan()
    ensures LossyLink(12)
  {
    hide Load, MaxSn, Installed, Visible;
    NothingSeen();
    assert Scanned(LossyState(12)) == LossyState(13);
  }

  lemma LossyDecide()
    ensures LossyLink(13)
  {
    hide Load, MaxSn, Visible, Installed;
  }

  lemma LossyDelete()
    ensures LossyLink(14)
  {
    hide Load, MaxSn, Visible, Installed;
    assert SegmentDeleted(LossyState(14)) == LossyState(15);
  }

  lemma {:induction false} SpecSkips(steps: seq<Step>, i: nat, j: nat)
    requires i <= j <= |steps| && forall m :: i <= m < j ==> !steps[m].LogPut? && !steps[m].LogDelete?
    ensures SpecAfter(steps[..j]) == SpecAfter(steps[..i])
  {
    if i < j {
      SpecSkips(steps, i, j - 1);
      assert steps[..j][..j - 1] == steps[..j - 1];
    }
  }

  /** The map still holds the value, and the engine can no longer read it. */
  lemma CollectingATornSegmentLosesAValue() returns (steps: seq<Step>, states: seq<State>)
    ensures |steps| == 15 && IsRun(1, steps, states) && states[15].status.Up?
    ensures SpecGet(SpecAfter(steps), [2]) == Found([]) && Get(states[15], [2]) == Unreadable
  {
    hide Next, Enabled, SpecAfter, LossyState;
    states := seq(16, i requires 0 <= i < 16 => LossyState(i));
    steps := seq(15, i requires 0 <= i < 15 => LossyStep(i));
    assert states[0] == Init(1) by { LossyEnds(); }
    forall i | 0 <= i < 15 ensures Enabled(states[i], steps[i]) && states[i + 1] == Next(states[i], steps[i]) {
      LossyLinks(i);
    }
    LossySpec(steps);
    LossyEnds();
  }

  lemma {:induction false} LossyLinks(i: nat)
    requires i < 15
    ensures LossyLink(i)
  {
    hide LossyLink;
    LossyAppend();
    LossyCrash();
    LossyReplay();
    LossyTear();
    LossySecondAppend();
    LossyPut();
    LossyApply();
    LossyRotate();
    LossySecondPut();
    LossySecondApply();
    LossyBegin();
    LossyScan();
    LossyDecide();
    LossyDelete();
  }

  lemma LossyEnds()
    ensures LossyState(0) == Init(1) && LossyState(15).status.Up? && Get(LossyState(15), [2]) == Unreadable
  {
    var s := LossyState(15);
    assert Active(s) == M3;
  }

  lemma {:induction false} LossySpec(steps: seq<Step>)
    requires |steps| == 15 && steps[6] == LogPut([2], []) && steps[9] == LogPut([3], [])
    requires forall m :: 7 <= m < 15 && m != 9 ==> !steps[m].LogPut? && !steps[m].LogDelete?
    ensures [2] in SpecAfter(steps) && SpecAfter(steps)[[2]] == []
  {
    assert steps[..7][..6] == steps[..6];
    SpecSkips(steps, 7, 9);
    assert steps[..10][..9] == steps[..9];
    SpecSkips(steps, 10, 15);
    assert steps[..15] == steps;
  }

  // ---- Without torn values no condition is needed ----

  predicate Untorn(v: VLog) {
    forall f, i :: f in v && 0 <= i < |v[f]| ==> v[f][i].Rec?
  }

  predicate TearsNothing(a: Step) {
    a.Crash? ==> !a.left.TornTail? && !a.left.TornSegment?
  }

  lemma {:induction false} StepKeepsUntorn(s: State, a: Step)
    requires Enabled(s, a) && Untorn(s.vlog) && TearsNothing(a)
    ensures Untorn(Next(s, a).vlog)
  {
    hide Visible, IsMerge, MaxSn, Load;
  }

  lemma {:induction false} UntornRunIsSafe(n: nat, steps: seq<Step>, states: seq<State>, i: nat)
    requires IsRun(n, steps, states) && i <= |steps|
    requires forall m :: 0 <= m < |steps| ==> TearsNothing(steps[m])
    ensures Untorn(states[i].vlog)
    ensures forall m :: 0 <= m < i ==> Safe(states[m], steps[m])
  {
    hide Next, Enabled;
    if i == 0 {
    } else {
      UntornRunIsSafe(n, steps, states, i - 1);
      StepKeepsUntorn(states[i - 1], steps[i - 1]);
    }
  }

  /** In every run in which no crash tears a value-log record, lookups answer as a plain map does. */
  lemma {:induction false} EngineRefinesMapUntorn(n: nat, steps: seq<Step>, states: seq<State>, i: nat, k: Key)
    requires n >= 1 && IsRun(n, steps, states) && i <= |steps| && states[i].status.Up?
    requires forall m :: 0 <= m < |steps| ==> TearsNothing(steps[m])
    ensures Get(states[i], k) == SpecGet(SpecAfter(steps[..i]), k)
  {
    hide Next, Enabled, Safe;
    UntornRunIsSafe(n, steps, states, |steps|);
    EngineRefinesMap(n, steps, states, i, k);
  }
}
