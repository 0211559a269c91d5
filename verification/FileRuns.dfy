/** The files of a run: how each step changes them, that they always hold the engine's tables and segments,
    and what a lookup through them answers. */
module FileRuns {
  import opened Bytes
  import opened Coding
  import opened Pointers
  import opened Lsm
  import opened Compaction
  import opened Engine
  import opened Storage
  import opened Values
  import opened Refinement
  import Histories
  import Archive
  import Disk
  import W = WriteAheadLog
  import V = ValueLog
  import B = Bloom
  import L = Layers

  // ---- Segment files ----

  /** The bytes a crash left at a position. */
  function GapAt(gaps: map<nat, L.Gaps>, f: nat, i: nat): seq<byte> {
    if f in gaps && i < |gaps[f]| then gaps[f][i] else []
  }

  function AppendBytes(files: map<nat, seq<byte>>, f: nat, rotate: bool, bytes: seq<byte>): map<nat, seq<byte>> {
    if rotate then files[f + 1 := bytes]
    else if f in files then files[f := files[f] + bytes]
    else files
  }

  /** What a step does to the segment files: an append adds the bytes of one record, a crash may add some
      bytes of one, a collection removes a file. */
  function SegmentStep(files: map<nat, seq<byte>>, s: State, a: Step, gaps: map<nat, L.Gaps>, crc: Checksum)
    : map<nat, seq<byte>>
    requires Enabled(s, a)
  {
    match a
    case AppendValue(k, v, rotate) => AppendBytes(files, s.file, rotate, V.Encode(L.RecordOf(Rec(k, v)), crc))
    case GcCopy(rotate) =>
      AppendBytes(files, s.file, rotate, V.Encode(L.RecordOf(s.vlog[s.gc.file][s.gc.live[s.gc.done]]), crc))
    case GcDelete => files - {s.gc.file}
    case Crash(_, TornTail) => AppendBytes(files, s.file, false, GapAt(gaps, s.file, |s.vlog[s.file]|))
    case Crash(_, EmptySegment) => files[s.file + 1 := []]
    case Crash(_, TornSegment) => AppendBytes(files, s.file, true, GapAt(gaps, s.file + 1, 0))
    case _ => files
  }

  /** Every segment's file is its image. */
  ghost predicate SegmentFiles(files: map<nat, seq<byte>>, v: VLog, gaps: map<nat, L.Gaps>, crc: Checksum) {
    forall f :: f in v ==>
      && f in gaps && |v[f]| <= |gaps[f]| && f in files
      && files[f] == L.Image(v[f], gaps[f][..|v[f]|], crc)
  }

  ghost predicate Covers(gaps: map<nat, L.Gaps>, v: VLog) {
    forall f :: f in v ==> f in gaps && |v[f]| <= |gaps[f]|
  }

  /** Appending a position to a segment appends its bytes to the file. */
  lemma {:induction false} AppendKeepsFiles(files: map<nat, seq<byte>>, s: State, slot: Slot, rotate: bool,
                                            gaps: map<nat, L.Gaps>, crc: Checksum)
    requires VLogOk(s) && SegmentFiles(files, s.vlog, gaps, crc) && Covers(gaps, Append(s, slot, rotate).vlog)
    ensures var p := AppendPtr(s, rotate);
            var bytes := L.SlotImage(slot, GapAt(gaps, p.file, p.index), crc);
            SegmentFiles(AppendBytes(files, s.file, rotate, bytes), Append(s, slot, rotate).vlog, gaps, crc)
  {
    hide L.Image, L.SlotImage;
    var t := Append(s, slot, rotate);
    var p := AppendPtr(s, rotate);
    var seg := if rotate then [] else s.vlog[s.file];
    var n := |seg|;
    assert t.vlog[p.file] == seg + [slot] && gaps[p.file][..n + 1] == gaps[p.file][..n] + [gaps[p.file][n]];
    L.ImageSnoc(seg, gaps[p.file][..n], slot, gaps[p.file][n], crc);
    if rotate { NoImage(crc); }
  }

  lemma NoImage(crc: Checksum)
    ensures L.Image([], [], crc) == []
  {
  }

  /** The pointer that an append returns starts where the file ended. */
  lemma {:induction false} AppendedAtTheEnd(files: map<nat, seq<byte>>, s: State, slot: Slot, rotate: bool,
                                            gaps: map<nat, L.Gaps>, crc: Checksum)
    requires VLogOk(s) && SegmentFiles(files, s.vlog, gaps, crc) && Covers(gaps, Append(s, slot, rotate).vlog)
    ensures (var t, p := Append(s, slot, rotate), AppendPtr(s, rotate);
             L.OffsetOf(t.vlog[p.file], gaps[p.file][..|t.vlog[p.file]|], p.index))
         == if rotate then 0 else |files[s.file]|
  {
    hide L.Image;
    var t, p := Append(s, slot, rotate), AppendPtr(s, rotate);
    if !rotate {
      var seg, g := s.vlog[s.file], gaps[s.file];
      L.ImageSize(seg, g[..|seg|], crc);
      L.OffsetsStay(seg, g[..|seg|], seg + [slot], g[..|seg| + 1], |seg|);
    }
  }

  lemma {:induction false} CrashKeepsSegmentFiles(files: map<nat, seq<byte>>, s: State, a: Step,
                                                  gaps: map<nat, L.Gaps>, crc: Checksum)
    requires Enabled(s, a) && a.Crash? && VLogOk(s) && SegmentFiles(files, s.vlog, gaps, crc)
    requires Covers(gaps, Next(s, a).vlog)
    ensures SegmentFiles(SegmentStep(files, s, a, gaps, crc), Next(s, a).vlog, gaps, crc)
  {
    hide L.Image, Load, SegmentFiles;
    match a.left {
      case Clean =>
      case TornTail => AppendKeepsFiles(files, s, Torn, false, gaps, crc);
      case EmptySegment => EmptyKeepsFiles(files, s, gaps, crc);
      case TornSegment => AppendKeepsFiles(files, s, Torn, true, gaps, crc);
    }
  }

  lemma {:induction false} EmptyKeepsFiles(files: map<nat, seq<byte>>, s: State, gaps: map<nat, L.Gaps>, crc: Checksum)
    requires VLogOk(s) && SegmentFiles(files, s.vlog, gaps, crc) && s.file + 1 in gaps
    ensures SegmentFiles(files[s.file + 1 := []], s.vlog[s.file + 1 := []], gaps, crc)
  {
    hide L.Image;
    NoImage(crc);
  }

  lemma {:induction false} StepKeepsSegmentFiles(files: map<nat, seq<byte>>, s: State, a: Step,
                                                 gaps: map<nat, L.Gaps>, crc: Checksum)
    requires Enabled(s, a) && VLogOk(s) && SegmentFiles(files, s.vlog, gaps, crc) && Covers(gaps, Next(s, a).vlog)
    ensures SegmentFiles(SegmentStep(files, s, a, gaps, crc), Next(s, a).vlog, gaps, crc)
  {
    if a.Crash? {
      hide *;
      CrashKeepsSegmentFiles(files, s, a, gaps, crc);
    } else if a.AppendValue? {
      hide L.Image, SegmentFiles;
      AppendKeepsFiles(files, s, Rec(a.key, a.value), a.rotate, gaps, crc);
    } else if a.GcCopy? {
      hide L.Image, SegmentFiles;
      AppendKeepsFiles(files, s, s.vlog[s.gc.file][s.gc.live[s.gc.done]], a.rotate, gaps, crc);
    } else if a.GcDelete? {
      hide L.Image;
    } else {
      hide Next, Enabled, SegmentFiles;
      Histories.StepKeepsFiles(s, a);
    }
  }

  // ---- Table files ----

  /** The tables a step writes. */
  function Written(s: State, a: Step): seq<Table> {
    match a
    case FlushInstall(t) => if s.imm != [] && s.imm[0] != map[] then [t] else []
    case ReplayFlush(t) => [t]
    case CompactMerge(outs, _) => outs
    case _ => []
  }

  /** A table of some level, or one a compaction has written and not yet installed. */
  ghost predicate InUse(s: State, t: Table) {
    (exists l :: 0 <= l < |s.levels| && t in s.levels[l]) || (s.comp.Merged? && t in s.comp.outs)
  }

  predicate Kept(d: Disk.Files, d': Disk.Files, id: nat) {
    id in d.tables && id in d'.tables && d'.tables[id] == d.tables[id]
  }

  /** What a step does to the table files: it writes its tables, changes no other file, and deletes at most
      files that no table in use has. A restart skips the tables whose files are missing. */
  ghost predicate TableStep(d: Disk.Files, d': Disk.Files, s: State, a: Step, addr: Ptr -> Pointer, hash: B.Hash)
    requires Enabled(s, a)
  {
    && (forall t :: t in Written(s, a) ==> Disk.TableOnDisk(d', t, addr, hash))
    && (forall t :: InUse(s, t) && InUse(Next(s, a), t) && !HasId(Written(s, a), t.id) ==> Kept(d, d', t.id))
    && (forall id :: id in d'.tables && !HasId(Written(s, a), id) ==> Kept(d, d', id))
    && (a.Crash? ==>
          && d'.tables == d.tables
          && forall l, t :: 0 <= l < |s.manifest.levels| && t in s.manifest.levels[l] && t.id !in d.tables ==>
               HasId(a.lost, t.id))
  }

  ghost predicate TablesOk(d: Disk.Files, s: State, addr: Ptr -> Pointer, hash: B.Hash) {
    && (forall t :: InUse(s, t) ==> Disk.TableOnDisk(d, t, addr, hash))
    && (forall l, t :: 0 <= l < |s.manifest.levels| && t in s.manifest.levels[l] && t.id in d.tables ==>
          Disk.TableOnDisk(d, t, addr, hash))
  }

  lemma {:induction false} KeptStaysOnDisk(d: Disk.Files, d': Disk.Files, t: Table, addr: Ptr -> Pointer, hash: B.Hash)
    requires Disk.TableOnDisk(d, t, addr, hash) && Kept(d, d', t.id)
    ensures Disk.TableOnDisk(d', t, addr, hash)
  {
  }

  /** Ids in use or in the manifest are below the ids a step writes. */
  lemma {:induction false} WritesFreshIds(s: State, a: Step, t: Table)
    requires StorageInv(s) && Enabled(s, a) && s.manifest.nextId <= s.nextId
    requires InUse(s, t) || exists l :: 0 <= l < |s.manifest.levels| && t in s.manifest.levels[l]
    ensures !HasId(Written(s, a), t.id)
  {
    hide LogOk, LookupOk, FlushOk, ReplayOk, LevelsOk, LevelsInLog, LastLevelLive, IsMerge, IsPick, FreshIds,
         ValidTable;
    assert t.id < s.nextId by { IdIsOld(s, t); }
    forall u | u in Written(s, a) ensures u.id >= s.nextId {
      if a.CompactMerge? { assert IdsFrom(a.outs, s.nextId); }
    }
  }

  lemma {:induction false} IdIsOld(s: State, t: Table)
    requires StorageInv(s) && s.manifest.nextId <= s.nextId
    requires InUse(s, t) || exists l :: 0 <= l < |s.manifest.levels| && t in s.manifest.levels[l]
    ensures t.id < s.nextId
  {
    hide LogOk, LookupOk, FlushOk, ReplayOk, LevelsOk, LevelsInLog, LastLevelLive, IsMerge, IsPick, FreshIds;
    if exists l :: 0 <= l < |s.levels| && t in s.levels[l] {
      var l :| 0 <= l < |s.levels| && t in s.levels[l];
      assert IdsBelow(s.levels[l], s.nextId);
    } else if s.comp.Merged? && t in s.comp.outs {
      assert IdsBelow(s.comp.outs, s.nextId);
    } else {
      var l :| 0 <= l < |s.manifest.levels| && t in s.manifest.levels[l];
      assert IdsBelow(s.manifest.levels[l], s.manifest.nextId);
    }
  }

  /** A table comes into use by being written, or at a restart. */
  lemma {:induction false} InUseFrom(s: State, a: Step, t: Table)
    requires Enabled(s, a) && !a.Crash? && InUse(Next(s, a), t)
    ensures InUse(s, t) || t in Written(s, a)
  {
    if a.CompactInstall? {
      hide RemoveIds, SortTables, HasId;
      InstalledFrom(s, t);
    } else if a.FlushInstall? || a.ReplayFlush? {
      hide TableOf;
      assert forall l :: 0 <= l < |s.levels| && t in Next(s, a).levels[l] ==> t in s.levels[l] || t in Written(s, a);
    } else {
      hide Visible, IsMerge, MaxSn, Append, TableOf;
    }
  }

  lemma {:induction false} InstalledFrom(s: State, t: Table)
    requires s.comp.Merged? && s.comp.lvl + 1 < |s.levels| && InUse(InstalledInto(s), t)
    ensures InUse(s, t)
  {
    hide RemoveIds, SortTables, HasId;
    var after := InstalledInto(s).levels;
    var l :| 0 <= l < |after| && t in after[l];
    assert t in s.levels[l] || t in s.comp.outs;
  }

  lemma {:induction false} RestartedFrom(s: State, a: Step, t: Table)
    requires Enabled(s, a) && a.Crash? && InUse(Next(s, a), t)
    ensures exists l :: 0 <= l < |s.manifest.levels| && t in s.manifest.levels[l]
    ensures !HasId(a.lost, t.id)
  {
    hide RemoveIds, HasId, Interrupted;
    var after := Load(s.manifest.levels, a.lost);
    var l :| 0 <= l < |after| && t in after[l];
    assert after[l] == RemoveIds(s.manifest.levels[l], a.lost);
  }

  lemma {:induction false} StepKeepsManifest(s: State, a: Step)
    requires Enabled(s, a) && s.manifest.nextId <= s.nextId
    ensures Next(s, a).manifest.nextId <= Next(s, a).nextId
    ensures Next(s, a).manifest == s.manifest || (a.SaveManifest? && Next(s, a) == s.(manifest := Next(s, a).manifest)
                                                   && Next(s, a).manifest.levels == s.levels)
  {
    hide Visible, IsMerge, MaxSn, Load, Installed, Interrupted, TableOf;
  }

  /** Every table in use stays on disk, and every saved one whose file is there is intact. */
  lemma {:induction false} StepKeepsTables(d: Disk.Files, d': Disk.Files, s: State, a: Step,
                                           addr: Ptr -> Pointer, hash: B.Hash)
    requires StorageInv(s) && Enabled(s, a) && s.manifest.nextId <= s.nextId
    requires TablesOk(d, s, addr, hash) && TableStep(d, d', s, a, addr, hash)
    ensures TablesOk(d', Next(s, a), addr, hash)
  {
    hide StorageInv, Next, Enabled, Disk.TableOnDisk, InUse, HasId, Written, Kept;
    var u := Next(s, a);
    StepKeepsManifest(s, a);
    forall t | InUse(u, t) ensures Disk.TableOnDisk(d', t, addr, hash) {
      if a.Crash? {
        RestartedFrom(s, a, t);
        SameTables(d, d', t, addr, hash);
      } else {
        InUseFrom(s, a, t);
        if InUse(s, t) {
          WritesFreshIds(s, a, t);
          KeptStaysOnDisk(d, d', t, addr, hash);
        }
      }
    }
    forall l, t: Table | 0 <= l < |u.manifest.levels| && t in u.manifest.levels[l] && t.id in d'.tables
      ensures Disk.TableOnDisk(d', t, addr, hash)
    {
      if u.manifest == s.manifest {
        WritesFreshIds(s, a, t);
        KeptOne(d, d', t.id);
        KeptStaysOnDisk(d, d', t, addr, hash);
      } else {
        LevelIsInUse(u, l, t);
      }
    }
  }

  lemma {:induction false} SameTables(d: Disk.Files, d': Disk.Files, t: Table, addr: Ptr -> Pointer, hash: B.Hash)
    requires Disk.TableOnDisk(d, t, addr, hash) && d'.tables == d.tables
    ensures Disk.TableOnDisk(d', t, addr, hash)
  {
  }

  lemma {:induction false} KeptOne(d: Disk.Files, d': Disk.Files, id: nat)
    requires Kept(d, d', id)
    ensures id in d.tables
  {
  }

  lemma {:induction false} LevelIsInUse(s: State, l: nat, t: Table)
    requires l < |s.levels| && t in s.levels[l]
    ensures InUse(s, t)
  {
  }

  // ---- Runs ----

  /** The files follow the run, starting from one empty segment. */
  ghost predicate IsFileRun(steps: seq<Step>, states: seq<State>, disks: seq<Disk.Files>, gaps: map<nat, L.Gaps>,
                            addr: Ptr -> Pointer, hash: B.Hash, crc: Checksum)
    requires |states| == |steps| + 1 && forall i :: 0 <= i < |steps| ==> Enabled(states[i], steps[i])
  {
    && |disks| == |states| && disks[0].segments == map[1 := []]
    && forall i :: 0 <= i < |steps| ==>
         && disks[i + 1].segments == SegmentStep(disks[i].segments, states[i], steps[i], gaps, crc)
         && TableStep(disks[i], disks[i + 1], states[i], steps[i], addr, hash)
  }

  ghost predicate OnDisk(d: Disk.Files, s: State, gaps: map<nat, L.Gaps>, addr: Ptr -> Pointer, hash: B.Hash,
                         crc: Checksum)
  {
    SegmentFiles(d.segments, s.vlog, gaps, crc) && TablesOk(d, s, addr, hash) && s.manifest.nextId <= s.nextId
  }

  /** The torn bytes of a run are given for every segment it ever has. */
  lemma {:induction false} GapsCover(n: nat, steps: seq<Step>, states: seq<State>, gaps: map<nat, L.Gaps>, i: nat)
    requires n >= 1 && IsRun(n, steps, states) && SafeRun(steps, states) && i <= |steps|
    requires L.Addressable(Archive.Segments(states, |steps|), gaps)
    ensures Covers(gaps, states[i].vlog)
  {
    hide Next, Enabled, Safe, L.OffsetOf, Archive.Owned;
    Archive.RunArchive(n, steps, states, i);
    forall f | f in states[i].vlog ensures f in gaps && |states[i].vlog[f]| <= |gaps[f]| {
      Archive.SegmentsGrow(n, steps, states, i, |steps|, f);
    }
  }

  lemma {:induction false} StartsOnDisk(n: nat, d: Disk.Files, gaps: map<nat, L.Gaps>, addr: Ptr -> Pointer,
                                        hash: B.Hash, crc: Checksum)
    requires d.segments == map[1 := []] && Covers(gaps, Init(n).vlog)
    ensures OnDisk(d, Init(n), gaps, addr, hash, crc)
  {
    hide Disk.TableOnDisk;
    NoImage(crc);
    assert gaps[1][..0] == [];
  }

  /** A safe run whose files follow it, with torn bytes given for every segment it ever has and the byte
      pointers that go with them. */
  ghost predicate IsRunWithFiles(n: nat, steps: seq<Step>, states: seq<State>, disks: seq<Disk.Files>,
                                 gaps: map<nat, L.Gaps>, addr: Ptr -> Pointer, hash: B.Hash, crc: Checksum)
  {
    && n >= 1 && IsRun(n, steps, states) && SafeRun(steps, states)
    && L.Addressable(Archive.Segments(states, |steps|), gaps)
    && addr == L.ToPointer(Archive.Segments(states, |steps|), gaps)
    && IsFileRun(steps, states, disks, gaps, addr, hash, crc)
  }

  /** THE FILES OF A RUN. At every moment of a safe run the files hold the engine's segments and tables. */
  lemma {:induction false} RunOnDisk(n: nat, steps: seq<Step>, states: seq<State>, disks: seq<Disk.Files>,
                                     gaps: map<nat, L.Gaps>, addr: Ptr -> Pointer, hash: B.Hash, crc: Checksum, i: nat)
    requires IsRunWithFiles(n, steps, states, disks, gaps, addr, hash, crc) && i <= |steps|
    ensures OnDisk(disks[i], states[i], gaps, addr, hash, crc)
  {
    hide Next, Enabled, Safe, StorageInv, ValueInv, L.Addressable, SegmentFiles, TablesOk, TableStep, SegmentStep,
         Covers;
    GapsCover(n, steps, states, gaps, i);
    if i == 0 {
      StartsOnDisk(n, disks[0], gaps, addr, hash, crc);
    } else {
      RunOnDisk(n, steps, states, disks, gaps, addr, hash, crc, i - 1);
      RunInv(n, steps, states, i - 1);
      Histories.RunFilesOk(n, steps, states, i - 1);
      var s, a := states[i - 1], steps[i - 1];
      StepKeepsSegmentFiles(disks[i - 1].segments, s, a, gaps, crc);
      StepKeepsTables(disks[i - 1], disks[i], s, a, addr, hash);
      StepKeepsManifest(s, a);
    }
  }

  // ---- Lookups ----

  /** The torn bytes of the part of the history that a state still has. */
  function GapsOf(v: VLog, gaps: map<nat, L.Gaps>): map<nat, L.Gaps> {
    map f | f in v :: if f in gaps && |v[f]| <= |gaps[f]| then gaps[f][..|v[f]|] else []
  }

  /** The pointers of the whole history are right for the segments that are left. */
  lemma {:induction false} PointersOfHistory(v: VLog, w: VLog, gaps: map<nat, L.Gaps>)
    requires L.Addressable(w, gaps) && forall f :: f in v ==> f in w && v[f] <= w[f]
    ensures L.Addressable(v, GapsOf(v, gaps))
    ensures forall p :: Readable(v, p) ==> L.ToPointer(w, gaps)(p) == L.Address(v, GapsOf(v, gaps), p)
  {
    hide L.OffsetOf;
    var g := GapsOf(v, gaps);
    forall f | f in v
      ensures forall i :: 0 <= i <= |v[f]| ==> L.OffsetOf(v[f], g[f], i) == L.OffsetOf(w[f], gaps[f], i)
      ensures L.OffsetOf(v[f], g[f], |v[f]|) < TWO_64
    {
      forall i | 0 <= i <= |v[f]| ensures L.OffsetOf(v[f], g[f], i) == L.OffsetOf(w[f], gaps[f], i) {
        L.OffsetsStay(v[f], g[f], w[f], gaps[f], i);
      }
      L.OffsetsOrdered(w[f], gaps[f], |v[f]|, |w[f]|);
    }
  }

  lemma {:induction false} SegmentsOnDiskInRun(n: nat, steps: seq<Step>, states: seq<State>, d: Disk.Files,
                                               gaps: map<nat, L.Gaps>, crc: Checksum, i: nat)
    requires n >= 1 && IsRun(n, steps, states) && SafeRun(steps, states) && i <= |steps|
    requires L.Addressable(Archive.Segments(states, |steps|), gaps)
    requires SegmentFiles(d.segments, states[i].vlog, gaps, crc)
    ensures Disk.SegmentsOnDisk(d, states[i].vlog, GapsOf(states[i].vlog, gaps),
                                L.ToPointer(Archive.Segments(states, |steps|), gaps), crc)
  {
    hide Next, Enabled, Safe, L.Addressable, L.Image, L.ToPointer, L.Address, Archive.Owned, Archive.Segments;
    var v, w := states[i].vlog, Archive.Segments(states, |steps|);
    Archive.RunArchive(n, steps, states, i);
    forall f | f in v ensures f in w && v[f] <= w[f] { Archive.SegmentsGrow(n, steps, states, i, |steps|, f); }
    PointersOfHistory(v, w, gaps);
  }

  /** The map after the writes logged by the first `i` steps. */
  function SpecAt(steps: seq<Step>, i: nat): map<Key, Value>
    requires i <= |steps|
  {
    SpecAfter(steps[..i])
  }

  /** THE LOOKUP THROUGH THE FILES OF A RUN. At every serving moment of a safe run, looking a key up in the
      memtables, the table files and the segment files, with the byte pointers of the run, returns what the
      plain map holds after the writes logged so far. */
  method GetInRun(s: State, d: Disk.Files, k: Key, addr: Ptr -> Pointer, hash: B.Hash, crc: Checksum,
                  ghost n: nat, ghost steps: seq<Step>, ghost states: seq<State>, ghost disks: seq<Disk.Files>,
                  ghost gaps: map<nat, L.Gaps>, ghost i: nat)
    returns (r: Answer)
    requires IsRunWithFiles(n, steps, states, disks, gaps, addr, hash, crc) && i <= |steps|
    requires s == states[i] && d == disks[i] && s.status.Up? && L.Numbered(s.log)
    ensures r == SpecGet(SpecAt(steps, i), k)
  {
    hide Next, Enabled, Safe, Inv, L.Addressable, L.ToPointer, SegmentFiles, IsFileRun, Disk.SegmentsOnDisk,
         Disk.TableOnDisk;
    RunInv(n, steps, states, i);
    RunOnDisk(n, steps, states, disks, gaps, addr, hash, crc, i);
    SegmentsOnDiskInRun(n, steps, states, d, gaps, crc, i);
    forall l | 0 <= l < |s.levels| ensures Disk.TablesOnDisk(d, s.levels[l], addr, hash) {
      forall j | 0 <= j < |s.levels[l]| ensures Disk.TableOnDisk(d, s.levels[l][j], addr, hash) {
        LevelIsInUse(s, l, s.levels[l][j]);
      }
    }
    r := Disk.Get(s, d, k, addr, hash, crc, GapsOf(s.vlog, gaps), SpecAfter(steps[..i]));
  }
}
