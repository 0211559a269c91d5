/** The engine as a state machine. Its steps are the critical sections of the source: what one thread
    does while it holds the locks is one step, and everything else may happen between two steps. */
module Engine {
  import opened Bytes
  import opened Lsm
  import opened Compaction

  /** One place of a value-log segment: a whole record, or the remains of one cut off by a crash. */
  datatype Slot = Rec(key: Key, value: Value) | Torn

  type VLog = map<nat, seq<Slot>>

  /** The holder of the memtable lock: nobody, a writer whose value is in the value log, or one whose
      record is in the write-ahead log and not yet in the memtable. */
  datatype Writer =
    | Free
    | Valued(key: Key, value: Value, ptr: Ptr)
    | Logged(key: Key, entry: Entry)

  datatype Compactor =
    | NoCompaction
    | Picked(lvl: nat, inputs: seq<Table>, next: seq<Table>)
    | Merged(lvl: nat, inputs: seq<Table>, next: seq<Table>, outs: seq<Table>)

  /** Garbage collection of a segment: `live` are the positions found live, `done` how many of them
      have been dealt with, `ptr` the copy just made of the next one. */
  datatype Collector =
    | NoGc
    | Scanning(file: nat, pos: nat, live: seq<nat>)
    | Rewriting(file: nat, live: seq<nat>, done: nat)
    | Copied(file: nat, live: seq<nat>, done: nat, ptr: Ptr)

  /** Serving, or replaying the log after a restart: `done` records are replayed, and level 0 held
      `base` tables when the replay began. */
  datatype Status = Up | Replaying(done: nat, base: nat)

  datatype Manifest = Manifest(levels: Levels, nextId: nat)

  /** `flushed` says that the oldest immutable memtable is in level 0 and not yet popped, `file` is the active
      segment, and `log` holds every record ever logged, as the source deletes no write-ahead log. */
  datatype State = State(
    status: Status,
    mem: Source,
    imm: seq<Source>,
    flushed: bool,
    levels: Levels,
    nextId: nat,
    manifest: Manifest,
    vlog: VLog,
    file: nat,
    log: seq<KV>,
    nextSn: nat,
    writer: Writer,
    comp: Compactor,
    gc: Collector
  )

  /** What an interrupted append leaves of the value log: nothing, a torn record at the end of the active
      segment, a new segment that is still empty, or a new segment with a torn record. */
  datatype Remains = Clean | TornTail | EmptySegment | TornSegment

  datatype Step =
    | AppendValue(key: Key, value: Value, rotate: bool)
    | LogPut(key: Key, value: Value)
    | LogDelete(key: Key)
    | ApplyLogged
    | RotateMem
    | FlushInstall(table: Table)
    | FlushPop
    | CompactPick(lvl: nat)
    | CompactMerge(outs: seq<Table>, nextId: nat)
    | CompactInstall
    | SaveManifest
    | GcBegin(file: nat)
    | GcScan
    | GcDecide(rewrite: bool)
    | GcCopy(rotate: bool)
    | GcSwap
    | GcDelete
    | Crash(lost: seq<Table>, left: Remains)
    | ReplayRecord
    | ReplayFlush(table: Table)
    | ReplayDone

  // ---- Reading ----

  function Pending(w: Writer): Source {
    if w.Logged? then map[w.key := w.entry] else map[]
  }

  /** The memtable as the next holder of its lock will find it. */
  function Active(s: State): Source {
    s.mem + Pending(s.writer)
  }

  function MemoryHit(s: State, k: Key): Option<Entry> {
    Or(Find(Active(s), k), ImmHit(s.imm, k))
  }

  /** The entry a lookup selects: memtable, immutable memtables newest first, level 0 newest first,
      then level by level. */
  function Visible(s: State, k: Key): Option<Entry> {
    Or(MemoryHit(s, k), LevelsHit(s.levels, 0, k))
  }

  datatype Answer = Found(value: Value) | NotFound | Unreadable

  predicate Readable(v: VLog, p: Ptr) {
    p.file in v && p.index < |v[p.file]| && v[p.file][p.index].Rec?
  }

  function Get(s: State, k: Key): Answer {
    match Visible(s, k)
    case None => NotFound
    case Some(Del(_)) => NotFound
    case Some(Put(_, p)) => if Readable(s.vlog, p) then Found(s.vlog[p.file][p.index].value) else Unreadable
  }

  predicate PointsTo(e: Option<Entry>, p: Ptr) {
    e.Some? && e.value.Put? && e.value.ptr == p
  }

  // ---- Steps ----

  function Append(s: State, slot: Slot, rotate: bool): State
    requires s.file in s.vlog
  {
    if rotate then s.(vlog := s.vlog[s.file + 1 := [slot]], file := s.file + 1)
    else s.(vlog := s.vlog[s.file := s.vlog[s.file] + [slot]])
  }

  /** Where that append puts the record. */
  function AppendPtr(s: State, rotate: bool): Ptr
    requires s.file in s.vlog
  {
    if rotate then Ptr(s.file + 1, 0) else Ptr(s.file, |s.vlog[s.file]|)
  }

  /** The write-ahead log record of a write; from here on the write is committed. */
  function Commit(s: State, k: Key, e: Entry): State {
    s.(log := s.log + [KV(k, e)], nextSn := s.nextSn + 1, writer := Logged(k, e))
  }

  function PushL0(levels: Levels, t: Table): (r: Levels)
    requires levels != []
    ensures |r| == |levels|
  {
    levels[0 := levels[0] + [t]]
  }

  /** The tables a manifest lists, without those whose files no longer open. */
  function Load(levels: Levels, lost: seq<Table>): Levels {
    seq(|levels|, i requires 0 <= i < |levels| => RemoveIds(levels[i], lost))
  }

  function MaxSn(log: seq<KV>): (m: nat)
    ensures m >= 1
    ensures forall i {:trigger log[i]} :: 0 <= i < |log| ==> log[i].entry.sn <= m
  {
    if log == [] then 1
    else
      var n := |log| - 1;
      assert forall i :: 0 <= i < n ==> log[i] == log[..n][i];
      if log[n].entry.sn > MaxSn(log[..n]) then log[n].entry.sn else MaxSn(log[..n])
  }

  predicate IdsBelow(ts: seq<Table>, n: nat) {
    forall i :: 0 <= i < |ts| ==> ts[i].id < n
  }

  predicate IdsFrom(ts: seq<Table>, n: nat) {
    forall i :: 0 <= i < |ts| ==> n <= ts[i].id
  }

  predicate TableOf(t: Table, m: Source, id: nat) {
    ValidTable(t) && t.id == id && Data(t.entries) == m
  }

  /** A scan stops at the end of the segment or at the first torn record. */
  predicate ScanEnded(seg: seq<Slot>, pos: nat) {
    pos == |seg| || (pos < |seg| && seg[pos].Torn?)
  }

  /** An append to the value log may be under way: a writer's before its value is there, or the collector's
      before its copy is. */
  predicate Appending(s: State) {
    s.status.Up? && (s.writer.Free? || s.gc.Rewriting?)
  }

  // The effect of each step.

  function Applied(s: State): State {
    s.(mem := Active(s), writer := Free)
  }

  function Rotated(s: State): State {
    s.(imm := s.imm + [s.mem], mem := map[])
  }

  function FlushInstalled(s: State, t: Table): State
    requires s.imm != [] && s.levels != []
  {
    if s.imm[0] == map[] then s.(flushed := true)
    else s.(flushed := true, levels := PushL0(s.levels, t), nextId := s.nextId + 1)
  }

  function Popped(s: State): State
    requires s.imm != []
  {
    s.(flushed := false, imm := s.imm[1..])
  }

  function PickedAt(s: State, lvl: nat): State
    requires lvl + 1 < |s.levels| && s.levels[lvl] != []
  {
    var inputs := s.levels[lvl];
    s.(comp := Picked(lvl, inputs, Overlapping(s.levels[lvl + 1], Lo(inputs), Hi(inputs))))
  }

  function MergedInto(s: State, outs: seq<Table>, nextId: nat): State
    requires s.comp.Picked?
  {
    s.(comp := Merged(s.comp.lvl, s.comp.inputs, s.comp.next, outs), nextId := nextId)
  }

  function InstalledInto(s: State): State
    requires s.comp.Merged? && s.comp.lvl + 1 < |s.levels|
  {
    s.(comp := NoCompaction,
       levels := Installed(s.levels, s.comp.lvl, s.comp.inputs, s.comp.next, s.comp.outs))
  }

  function Scanned(s: State): State
    requires s.gc.Scanning? && Readable(s.vlog, Ptr(s.gc.file, s.gc.pos))
  {
    var p := s.gc.pos;
    var live := PointsTo(Visible(s, s.vlog[s.gc.file][p].key), Ptr(s.gc.file, p));
    s.(gc := Scanning(s.gc.file, p + 1, if live then s.gc.live + [p] else s.gc.live))
  }

  predicate HasNext(s: State) {
    && (s.gc.Rewriting? || s.gc.Copied?) && s.gc.done < |s.gc.live|
    && Readable(s.vlog, Ptr(s.gc.file, s.gc.live[s.gc.done]))
  }

  function CopyMade(s: State, rotate: bool): State
    requires HasNext(s) && s.file in s.vlog
  {
    Append(s, s.vlog[s.gc.file][s.gc.live[s.gc.done]], rotate)
      .(gc := Copied(s.gc.file, s.gc.live, s.gc.done, AppendPtr(s, rotate)))
  }

  /** The compare-and-swap: relocate the key only if its newest entry still is the scanned record. */
  function Swapped(s: State): State
    requires HasNext(s) && s.gc.Copied?
  {
    var p := Ptr(s.gc.file, s.gc.live[s.gc.done]);
    var k := s.vlog[p.file][p.index].key;
    var t := s.(gc := Rewriting(s.gc.file, s.gc.live, s.gc.done + 1));
    if PointsTo(Visible(s, k), p) then Commit(t, k, Put(s.nextSn, s.gc.ptr)) else t
  }

  function SegmentDeleted(s: State): State
    requires s.gc.Rewriting?
  {
    s.(vlog := s.vlog - {s.gc.file}, gc := NoGc)
  }

  function Interrupted(s: State, left: Remains): State
    requires s.file in s.vlog
  {
    match left
    case Clean => s
    case TornTail => Append(s, Torn, false)
    case EmptySegment => s.(vlog := s.vlog[s.file + 1 := []], file := s.file + 1)
    case TornSegment => Append(s, Torn, true)
  }

  /** A process crash keeps the log, the value log and the last saved manifest; `lost` are the tables
      whose files no longer open. */
  function Restarted(s: State, lost: seq<Table>, left: Remains): State
    requires s.file in s.vlog && s.manifest.levels != []
  {
    var levels := Load(s.manifest.levels, lost);
    var log := Interrupted(s, left);
    State(Replaying(0, |levels[0]|), map[], [], false, levels, s.manifest.nextId, s.manifest, log.vlog, log.file,
          s.log, 1, Free, NoCompaction, NoGc)
  }

  function Replayed(s: State): State
    requires s.status.Replaying? && s.status.done < |s.log|
  {
    var r := s.log[s.status.done];
    s.(mem := s.mem[r.key := r.entry], status := s.status.(done := s.status.done + 1))
  }

  function ReplayFlushed(s: State, t: Table): State
    requires s.levels != []
  {
    s.(mem := map[], levels := PushL0(s.levels, t), nextId := s.nextId + 1)
  }

  function Reopened(s: State): State {
    s.(status := Up, nextSn := MaxSn(s.log) + 1)
  }

  ghost predicate Enabled(s: State, a: Step) {
    match a
    case AppendValue(_, _, _) => s.status.Up? && s.writer.Free? && s.file in s.vlog
    case LogPut(k, v) => s.status.Up? && s.writer.Valued? && s.writer.key == k && s.writer.value == v
    case LogDelete(_) => s.status.Up? && s.writer.Free?
    case ApplyLogged => s.status.Up? && s.writer.Logged?
    case RotateMem => s.status.Up? && s.writer.Free?
    case FlushInstall(t) =>
      && s.status.Up? && !s.flushed && s.imm != [] && s.levels != []
      && (s.imm[0] == map[] || TableOf(t, s.imm[0], s.nextId))
    case FlushPop => s.status.Up? && s.flushed && s.imm != []
    case CompactPick(lvl) =>
      s.status.Up? && s.comp.NoCompaction? && lvl + 1 < |s.levels| && s.levels[lvl] != []
    case CompactMerge(outs, nextId) =>
      && s.status.Up? && s.comp.Picked?
      && IsMerge(outs, s.comp.inputs + s.comp.next, s.levels, s.comp.lvl + 2)
      && DistinctIds(outs) && IdsFrom(outs, s.nextId) && IdsBelow(outs, nextId) && s.nextId <= nextId
    case CompactInstall => s.status.Up? && s.comp.Merged? && s.comp.lvl + 1 < |s.levels|
    case SaveManifest => true
    case GcBegin(f) => s.status.Up? && s.gc.NoGc? && f in s.vlog && f < s.file
    case GcScan =>
      s.status.Up? && s.gc.Scanning? && s.writer.Free? && Readable(s.vlog, Ptr(s.gc.file, s.gc.pos))
    case GcDecide(rewrite) =>
      && s.status.Up? && s.gc.Scanning? && s.gc.file in s.vlog
      && ScanEnded(s.vlog[s.gc.file], s.gc.pos) && (rewrite ==> s.gc.pos > 0)
    case GcCopy(_) => s.status.Up? && s.gc.Rewriting? && HasNext(s) && s.file in s.vlog
    case GcSwap => s.status.Up? && s.gc.Copied? && HasNext(s) && s.writer.Free?
    case GcDelete => s.status.Up? && s.gc.Rewriting? && s.gc.done == |s.gc.live|
    case Crash(_, left) => s.file in s.vlog && s.manifest.levels != [] && (left.Clean? || Appending(s))
    case ReplayRecord => s.status.Replaying? && s.status.done < |s.log|
    case ReplayFlush(t) => s.status.Replaying? && s.levels != [] && TableOf(t, s.mem, s.nextId)
    case ReplayDone => s.status.Replaying? && s.status.done == |s.log|
  }

  function Next(s: State, a: Step): State
    requires Enabled(s, a)
  {
    match a
    case AppendValue(k, v, rotate) =>
      Append(s, Rec(k, v), rotate).(writer := Valued(k, v, AppendPtr(s, rotate)))
    case LogPut(k, v) => Commit(s, k, Put(s.nextSn, s.writer.ptr))
    case LogDelete(k) => Commit(s, k, Del(s.nextSn))
    case ApplyLogged => Applied(s)
    case RotateMem => Rotated(s)
    case FlushInstall(t) => FlushInstalled(s, t)
    case FlushPop => Popped(s)
    case CompactPick(lvl) => PickedAt(s, lvl)
    case CompactMerge(outs, nextId) => MergedInto(s, outs, nextId)
    case CompactInstall => InstalledInto(s)
    case SaveManifest => s.(manifest := Manifest(s.levels, s.nextId))
    case GcBegin(f) => s.(gc := Scanning(f, 0, []))
    case GcScan => Scanned(s)
    case GcDecide(rewrite) => s.(gc := if rewrite then Rewriting(s.gc.file, s.gc.live, 0) else NoGc)
    case GcCopy(rotate) => CopyMade(s, rotate)
    case GcSwap => Swapped(s)
    case GcDelete => SegmentDeleted(s)
    case Crash(lost, left) => Restarted(s, lost, left)
    case ReplayRecord => Replayed(s)
    case ReplayFlush(t) => ReplayFlushed(s, t)
    case ReplayDone => Reopened(s)
  }

  function EmptyLevels(n: nat): (r: Levels)
    ensures |r| == n
  {
    seq(n, _ => [])
  }

  /** A fresh database with `n` levels, just opened. */
  function Init(n: nat): State {
    var levels := EmptyLevels(n);
    State(Up, map[], [], false, levels, 1, Manifest(levels, 1), map[1 := []], 1, [], 2, Free, NoCompaction, NoGc)
  }

  // ---- The specification: a plain map ----

  /** What a step means to a client: writes take effect when they are logged. */
  function SpecStep(m: map<Key, Value>, a: Step): map<Key, Value> {
    match a
    case LogPut(k, v) => m[k := v]
    case LogDelete(k) => m - {k}
    case _ => m
  }

  function SpecAfter(steps: seq<Step>): map<Key, Value> {
    if steps == [] then map[] else SpecStep(SpecAfter(steps[..|steps| - 1]), steps[|steps| - 1])
  }

  function SpecGet(m: map<Key, Value>, k: Key): Answer {
    if k in m then Found(m[k]) else NotFound
  }

  /** `states` is the run that `steps` drive from a fresh database with `n` levels. */
  ghost predicate IsRun(n: nat, steps: seq<Step>, states: seq<State>) {
    && |states| == |steps| + 1
    && states[0] == Init(n)
    && forall i :: 0 <= i < |steps| ==> Enabled(states[i], steps[i]) && states[i + 1] == Next(states[i], steps[i])
  }
}
