/** What whole operations of the database do to the engine's state: each is a run of its steps, so
    each keeps the invariant. */
module Operations {
  import opened Bytes
  import opened Lsm
  import opened Compaction
  import opened Engine
  import opened Storage
  import opened Values
  import opened Refinement

  // ---- Writes ----

  function Wrote(s: State, k: Key, e: Entry): State {
    s.(mem := s.mem[k := e], log := s.log + [KV(k, e)], nextSn := s.nextSn + 1)
  }

  function PutDone(s: State, k: Key, v: Value, rotate: bool): State
    requires s.file in s.vlog
  {
    Wrote(Append(s, Rec(k, v), rotate), k, Put(s.nextSn, AppendPtr(s, rotate)))
  }

  /** Logging and applying a value that is in the value log. */
  lemma {:induction false} ValuedKeeps(s: State, spec: map<Key, Value>)
    requires Inv(s, spec) && s.status.Up? && s.writer.Valued?
    ensures var w := s.writer;
            Inv(Wrote(s.(writer := Free), w.key, Put(s.nextSn, w.ptr)), spec[w.key := w.value])
  {
    hide Inv;
    var k, v := s.writer.key, s.writer.value;
    var b := Next(s, LogPut(k, v));
    WriteStepKeeps(s, LogPut(k, v), spec);
    WriteStepKeeps(b, ApplyLogged, spec[k := v]);
    assert Active(b) == s.mem[k := Put(s.nextSn, s.writer.ptr)];
    assert Next(b, ApplyLogged) == Wrote(s.(writer := Free), k, Put(s.nextSn, s.writer.ptr));
  }

  lemma {:induction false} PutKeeps(s: State, spec: map<Key, Value>, k: Key, v: Value, rotate: bool)
    requires Inv(s, spec) && s.status.Up? && s.writer.Free? && s.file in s.vlog
    ensures Inv(PutDone(s, k, v, rotate), spec[k := v])
  {
    hide Inv;
    var a := Next(s, AppendValue(k, v, rotate));
    WriteStepKeeps(s, AppendValue(k, v, rotate), spec);
    ValuedKeeps(a, spec);
    assert Wrote(a.(writer := Free), k, Put(a.nextSn, a.writer.ptr)) == PutDone(s, k, v, rotate);
  }

  lemma {:induction false} DeleteWriteKeeps(s: State, spec: map<Key, Value>, k: Key)
    requires Inv(s, spec) && s.status.Up? && s.writer.Free?
    ensures Inv(Wrote(s, k, Del(s.nextSn)), spec - {k})
  {
    hide Inv;
    var b := Next(s, LogDelete(k));
    WriteStepKeeps(s, LogDelete(k), spec);
    WriteStepKeeps(b, ApplyLogged, spec - {k});
    assert Active(b) == s.mem[k := Del(s.nextSn)];
    assert Next(b, ApplyLogged) == Wrote(s, k, Del(s.nextSn));
  }

  // ---- Flush and compaction ----

  function Saved(s: State): State {
    s.(manifest := Manifest(s.levels, s.nextId))
  }

  function FlushDone(s: State, t: Table): State
    requires s.imm != [] && s.levels != []
  {
    if s.imm[0] == map[] then s.(imm := s.imm[1..])
    else Saved(s.(imm := s.imm[1..], levels := PushL0(s.levels, t), nextId := s.nextId + 1))
  }

  lemma {:induction false} FlushKeeps(s: State, spec: map<Key, Value>, t: Table)
    requires Inv(s, spec) && s.status.Up? && !s.flushed && s.imm != [] && s.levels != []
    requires s.imm[0] == map[] || TableOf(t, s.imm[0], s.nextId)
    ensures Inv(FlushDone(s, t), spec)
  {
    hide Inv, TableOf;
    var a := Next(s, FlushInstall(t));
    StoreStepKeeps(s, FlushInstall(t), spec);
    if s.imm[0] == map[] {
      StoreStepKeeps(a, FlushPop, spec);
      assert Next(a, FlushPop) == FlushDone(s, t);
    } else {
      StoreStepKeeps(a, SaveManifest, spec);
      StoreStepKeeps(Saved(a), FlushPop, spec);
      assert Next(Saved(a), FlushPop) == FlushDone(s, t);
    }
  }

  function CompactDone(s: State, lvl: nat, next: seq<Table>, outs: seq<Table>, nextId: nat): State
    requires lvl + 1 < |s.levels|
  {
    Saved(s.(levels := Installed(s.levels, lvl, s.levels[lvl], next, outs), nextId := nextId))
  }

  /** An undisturbed compaction with the ids that the merge hands out. */
  ghost predicate CanCompact(s: State, lvl: nat, next: seq<Table>, outs: seq<Table>, nextId: nat) {
    && s.status.Up? && s.comp.NoCompaction? && lvl + 1 < |s.levels| && s.levels[lvl] != []
    && next == Overlapping(s.levels[lvl + 1], Lo(s.levels[lvl]), Hi(s.levels[lvl]))
    && IsMerge(outs, s.levels[lvl] + next, s.levels, lvl + 2)
    && nextId == s.nextId + |outs| && forall i :: 0 <= i < |outs| ==> outs[i].id == s.nextId + i
  }

  lemma {:induction false} CompactKeeps(s: State, spec: map<Key, Value>, lvl: nat, next: seq<Table>, outs: seq<Table>,
                                        nextId: nat)
    requires Inv(s, spec) && CanCompact(s, lvl, next, outs, nextId)
    ensures Inv(CompactDone(s, lvl, next, outs, nextId), spec)
  {
    hide Inv, IsMerge, Installed, Overlapping, Lo, Hi;
    var a := Next(s, CompactPick(lvl));
    StoreStepKeeps(s, CompactPick(lvl), spec);
    var b := Next(a, CompactMerge(outs, nextId));
    StoreStepKeeps(a, CompactMerge(outs, nextId), spec);
    var c := Next(b, CompactInstall);
    StoreStepKeeps(b, CompactInstall, spec);
    StoreStepKeeps(c, SaveManifest, spec);
    assert Next(c, SaveManifest) == CompactDone(s, lvl, next, outs, nextId);
  }

  // ---- Relocating one live record ----

  function RelocateDone(s: State, rotate: bool): State
    requires HasNext(s) && s.gc.Rewriting? && s.file in s.vlog
  {
    var p := Ptr(s.gc.file, s.gc.live[s.gc.done]);
    var slot := s.vlog[p.file][p.index];
    var t := Append(s, slot, rotate).(gc := Rewriting(s.gc.file, s.gc.live, s.gc.done + 1));
    if PointsTo(Visible(s, slot.key), p) then Wrote(t, slot.key, Put(s.nextSn, AppendPtr(s, rotate))) else t
  }

  /** The compare-and-swap with the memtable brought up to date. */
  function SwapDone(s: State): State
    requires HasNext(s) && s.gc.Copied?
  {
    var p := Ptr(s.gc.file, s.gc.live[s.gc.done]);
    var k := s.vlog[p.file][p.index].key;
    var t := s.(gc := Rewriting(s.gc.file, s.gc.live, s.gc.done + 1));
    if PointsTo(Visible(s, k), p) then Wrote(t, k, Put(s.nextSn, s.gc.ptr)) else t
  }

  lemma {:induction false} SwapDoneKeeps(s: State, spec: map<Key, Value>)
    requires Inv(s, spec) && Enabled(s, GcSwap)
    ensures Inv(SwapDone(s), spec)
  {
    hide Inv, Visible;
    SwapStepKeeps(s, spec);
    var b := Swapped(s);
    if b.writer.Logged? {
      WriteStepKeeps(b, ApplyLogged, spec);
      assert Active(b) == s.mem[b.writer.key := b.writer.entry];
      assert Next(b, ApplyLogged) == SwapDone(s);
    } else {
      assert b == SwapDone(s);
    }
  }

  lemma {:induction false} RelocateKeeps(s: State, spec: map<Key, Value>, rotate: bool)
    requires Inv(s, spec) && s.status.Up? && s.writer.Free? && s.gc.Rewriting? && HasNext(s) && s.file in s.vlog
    ensures Inv(RelocateDone(s, rotate), spec)
  {
    hide Inv, ImmHit, LevelsHit;
    var a := CopyMade(s, rotate);
    assert Inv(a, spec) by { GcStepKeeps(s, GcCopy(rotate), spec); }
    CopyReady(s, spec, rotate);
    SwapDoneKeeps(a, spec);
    forall k ensures Visible(a, k) == Visible(s, k) { }
    assert SwapDone(a) == RelocateDone(s, rotate);
  }

  lemma {:induction false} CopyReady(s: State, spec: map<Key, Value>, rotate: bool)
    requires Inv(s, spec) && s.status.Up? && s.writer.Free? && s.gc.Rewriting? && HasNext(s) && s.file in s.vlog
    ensures var a := CopyMade(s, rotate);
            && HasNext(a)
            && a.vlog[s.gc.file][s.gc.live[s.gc.done]] == s.vlog[s.gc.file][s.gc.live[s.gc.done]]
  {
    hide StorageInv, SpecOk;
  }

  /** A relocation of a record in front of every tear hides no key and brings none back. */
  lemma {:induction false} RelocateKeepsHidden(s: State, spec: map<Key, Value>, rotate: bool, x: Key)
    requires Inv(s, spec) && s.status.Up? && s.writer.Free? && s.gc.Rewriting? && HasNext(s) && s.file in s.vlog
    requires !BehindTear(s.vlog[s.gc.file], s.gc.live[s.gc.done])
    ensures HiddenIn(RelocateDone(s, rotate), s.gc.file, x) <==> HiddenIn(s, s.gc.file, x)
  {
    hide Data, Find, BehindTear, StoreOk, FlushOk, CompactorOk, ReplayOk, LogOk, Visible;
    var f := s.gc.file;
    var t := RelocateDone(s, rotate);
    assert t.vlog[f] == s.vlog[f];
    var k := s.vlog[f][s.gc.live[s.gc.done]].key;
    var e := Put(s.nextSn, AppendPtr(s, rotate));
    CommitMovesOne(s, k, e, x);
    assert Commit(s, k, e).log == s.log + [KV(k, e)];
    assert Matches(Visible(s, k), Current(s, k));
    forall j: nat | BehindTear(s.vlog[f], j) ensures CurrentAt(t, x, f, j) <==> CurrentAt(s, x, f, j) { }
  }

  /** What lookups answer once a rewritten segment is deleted: keys hidden behind a tear are lost, all
      others read as before. */
  lemma {:induction false} DeletedAnswers(s: State, spec: map<Key, Value>, k: Key)
    requires Inv(s, spec) && s.status.Up? && s.gc.Rewriting? && s.gc.done == |s.gc.live|
    ensures Get(SegmentDeleted(s), k) == if HiddenIn(s, s.gc.file, k) then Unreadable else SpecGet(spec, k)
  {
    hide Data, Find, BehindTear, StoreOk, FlushOk, CompactorOk, ReplayOk, LogOk, LevelsHit, ImmHit;
    GetIsSpec(s, spec, k);
    assert Visible(SegmentDeleted(s), k) == Visible(s, k);
    assert Matches(Visible(s, k), Current(s, k));
    var c := Current(s, k);
    if c.Some? && c.value.Put? {
      assert CurrentAt(s, k, c.value.ptr.file, c.value.ptr.index);
      assert s.gc.live[s.gc.done..] == [];
    }
  }
}
