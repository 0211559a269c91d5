/** The value invariant: the last record logged for a key points at the value a plain map would hold,
    under every interleaving of writers with the garbage collector. */
module Values {
  import opened Bytes
  import opened Lsm
  import opened Engine
  import opened Storage

  predicate VLogOk(s: State) {
    s.file in s.vlog && forall f :: f in s.vlog ==> f <= s.file
  }

  predicate RecordAt(v: VLog, p: Ptr, k: Key, x: Value) {
    Readable(v, p) && v[p.file][p.index] == Rec(k, x)
  }

  /** The key's last record points at its value, or it has none and the map has none either. */
  predicate ValueOk(s: State, spec: map<Key, Value>, k: Key) {
    var c := Current(s, k);
    if c.Some? && c.value.Put? then k in spec && RecordAt(s.vlog, c.value.ptr, k, spec[k])
    else k !in spec
  }

  ghost predicate SpecOk(s: State, spec: map<Key, Value>) {
    forall k :: ValueOk(s, spec, k)
  }

  predicate Collecting(s: State, f: nat) {
    !s.gc.NoGc? && s.gc.file == f
  }

  /** A value waiting for its log record is in its segment, and no scan of that segment has begun:
      the scan needs the lock that the writer holds. */
  predicate WriterOk(s: State) {
    s.writer.Valued? ==>
      && RecordAt(s.vlog, s.writer.ptr, s.writer.key, s.writer.value)
      && (Collecting(s, s.writer.ptr.file) ==> s.gc.Scanning? && s.gc.pos == 0)
  }

  // ---- Garbage collection ----

  predicate Positions(live: seq<nat>, seg: seq<Slot>) {
    && (forall i, j :: 0 <= i < j < |live| ==> live[i] < live[j])
    && forall i :: 0 <= i < |live| ==> live[i] < |seg| && seg[live[i]].Rec?
  }

  /** The key's last record points into the segment at position `j`. */
  predicate CurrentAt(s: State, k: Key, f: nat, j: nat) {
    PointsTo(Current(s, k), Ptr(f, j))
  }

  predicate BehindTear(seg: seq<Slot>, j: nat) {
    exists i :: 0 <= i < j && i < |seg| && seg[i].Torn?
  }

  ghost predicate ScanOk(s: State)
    requires s.gc.Scanning?
  {
    && s.gc.file in s.vlog && s.gc.file < s.file
    && Positions(s.gc.live, s.vlog[s.gc.file])
    && s.gc.pos <= |s.vlog[s.gc.file]|
    && (forall i :: 0 <= i < |s.gc.live| ==> s.gc.live[i] < s.gc.pos)
    && (forall k, j: nat :: j < s.gc.pos && CurrentAt(s, k, s.gc.file, j) ==> j in s.gc.live)
  }

  ghost predicate RewriteOk(s: State)
    requires s.gc.Rewriting? || s.gc.Copied?
  {
    && s.gc.file in s.vlog && s.gc.file < s.file
    && Positions(s.gc.live, s.vlog[s.gc.file])
    && s.gc.done <= |s.gc.live|
    && (forall k, j: nat :: CurrentAt(s, k, s.gc.file, j) ==>
          j in s.gc.live[s.gc.done..] || BehindTear(s.vlog[s.gc.file], j))
  }

  predicate CopyOk(s: State)
    requires s.gc.Copied?
  {
    && HasNext(s) && s.gc.ptr.file != s.gc.file && Readable(s.vlog, s.gc.ptr)
    && s.vlog[s.gc.ptr.file][s.gc.ptr.index] == s.vlog[s.gc.file][s.gc.live[s.gc.done]]
  }

  ghost predicate GcOk(s: State) {
    match s.gc
    case NoGc => true
    case Scanning(_, _, _) => ScanOk(s)
    case Rewriting(_, _, _) => RewriteOk(s)
    case Copied(_, _, _, _) => RewriteOk(s) && CopyOk(s)
  }

  ghost predicate ValueInv(s: State, spec: map<Key, Value>) {
    VLogOk(s) && SpecOk(s, spec) && WriterOk(s) && GcOk(s)
  }

  // ---- The value log only grows, except for the deleted segment ----

  lemma {:induction false} AppendKeepsRecords(s: State, slot: Slot, rotate: bool)
    requires VLogOk(s)
    ensures var t := Append(s, slot, rotate);
            && VLogOk(t) && s.file <= t.file
            && (forall p :: Readable(s.vlog, p) ==>
                  Readable(t.vlog, p) && t.vlog[p.file][p.index] == s.vlog[p.file][p.index])
            && (forall f :: f in s.vlog && f < s.file ==> f in t.vlog && t.vlog[f] == s.vlog[f])
    ensures slot.Rec? ==>
              var p := AppendPtr(s, rotate);
              var t := Append(s, slot, rotate);
              Readable(t.vlog, p) && t.vlog[p.file][p.index] == slot && s.file <= p.file
  {
  }

  /** Steps that leave the log alone and keep every record keep the values. */
  lemma {:induction false} SpecOkFrame(s: State, t: State, spec: map<Key, Value>)
    requires SpecOk(s, spec) && t.log == s.log
    requires forall p :: Readable(s.vlog, p) ==>
               Readable(t.vlog, p) && t.vlog[p.file][p.index] == s.vlog[p.file][p.index]
    ensures SpecOk(t, spec)
  {
    hide Data;
    forall k ensures ValueOk(t, spec, k) { assert ValueOk(s, spec, k); }
  }

  lemma {:induction false} GcOkFrame(s: State, t: State)
    requires GcOk(s) && t.log == s.log && t.gc == s.gc && s.file <= t.file
    requires forall p :: Readable(s.vlog, p) ==>
               Readable(t.vlog, p) && t.vlog[p.file][p.index] == s.vlog[p.file][p.index]
    requires forall f :: f in s.vlog && f < s.file ==> f in t.vlog && t.vlog[f] == s.vlog[f]
    ensures GcOk(t)
  {
    hide Data, Find;
    assert forall k, f: nat, j: nat :: CurrentAt(t, k, f, j) == CurrentAt(s, k, f, j);
  }

  lemma {:induction false} AppendValueKeeps(s: State, spec: map<Key, Value>, k: Key, v: Value, rotate: bool)
    requires ValueInv(s, spec) && s.writer.Free?
    ensures ValueInv(Append(s, Rec(k, v), rotate).(writer := Valued(k, v, AppendPtr(s, rotate))), spec)
  {
    hide SpecOk, GcOk;
    AppendKeepsRecords(s, Rec(k, v), rotate);
    var t := Append(s, Rec(k, v), rotate).(writer := Valued(k, v, AppendPtr(s, rotate)));
    SpecOkFrame(s, t, spec);
    GcOkFrame(s, t);
    GcFileIsOld(s);
  }

  lemma {:induction false} GcFileIsOld(s: State)
    requires GcOk(s)
    ensures !s.gc.NoGc? ==> s.gc.file < s.file && s.gc.file in s.vlog
  {
  }

  // ---- Commits ----

  /** A committed record moves one key and leaves the others. */
  lemma {:induction false} CommitMovesOne(s: State, k: Key, e: Entry, x: Key)
    ensures Current(Commit(s, k, e), x) == if x == k then Some(e) else Current(s, x)
  {
    DataSnoc(s.log, KV(k, e));
  }

  lemma {:induction false} CommitKeepsSpec(s: State, spec: map<Key, Value>, k: Key, e: Entry, spec': map<Key, Value>)
    requires SpecOk(s, spec)
    requires if e.Put? then k in spec' && RecordAt(s.vlog, e.ptr, k, spec'[k]) else k !in spec'
    requires forall x :: x != k ==> (x in spec <==> x in spec') && (x in spec ==> spec'[x] == spec[x])
    ensures SpecOk(Commit(s, k, e), spec')
  {
    hide Data;
    forall x ensures ValueOk(Commit(s, k, e), spec', x) {
      CommitMovesOne(s, k, e, x);
      assert ValueOk(s, spec, x);
    }
  }

  /** A commit whose pointer the collector has not passed keeps the collector's books. */
  lemma {:induction false} CommitKeepsGc(s: State, k: Key, e: Entry)
    requires GcOk(s)
    requires e.Put? && Collecting(s, e.ptr.file) ==> s.gc.Scanning? && s.gc.pos == 0
    ensures GcOk(Commit(s, k, e))
  {
    hide Data, Find;
    var t := Commit(s, k, e);
    forall x, f: nat, j: nat | CurrentAt(t, x, f, j)
      ensures x == k ==> e.Put? && e.ptr == Ptr(f, j)
      ensures x != k ==> CurrentAt(s, x, f, j)
    {
      CommitMovesOne(s, k, e, x);
    }
  }

  lemma {:induction false} LogPutKeeps(s: State, spec: map<Key, Value>)
    requires ValueInv(s, spec) && s.writer.Valued?
    ensures ValueInv(Commit(s, s.writer.key, Put(s.nextSn, s.writer.ptr)), spec[s.writer.key := s.writer.value])
  {
    hide SpecOk, GcOk;
    var e := Put(s.nextSn, s.writer.ptr);
    CommitKeepsSpec(s, spec, s.writer.key, e, spec[s.writer.key := s.writer.value]);
    CommitKeepsGc(s, s.writer.key, e);
  }

  lemma {:induction false} LogDeleteKeeps(s: State, spec: map<Key, Value>, k: Key)
    requires ValueInv(s, spec) && s.writer.Free?
    ensures ValueInv(Commit(s, k, Del(s.nextSn)), spec - {k})
  {
    hide SpecOk, GcOk;
    CommitKeepsSpec(s, spec, k, Del(s.nextSn), spec - {k});
    CommitKeepsGc(s, k, Del(s.nextSn));
  }

  // ---- Collector steps ----

  lemma {:induction false} ScanKeeps(s: State, spec: map<Key, Value>)
    requires ValueInv(s, spec) && LookupOk(s) && s.status.Up? && s.writer.Free?
    requires s.gc.Scanning? && Readable(s.vlog, Ptr(s.gc.file, s.gc.pos))
    ensures ValueInv(Scanned(s), spec)
  {
    hide Data, Find, Visible;
    var t := Scanned(s);
    SpecOkFrame(s, t, spec);
    var f, p := s.gc.file, s.gc.pos;
    var rk := s.vlog[f][p].key;
    forall k, j: nat | j < t.gc.pos && CurrentAt(t, k, f, j) ensures j in t.gc.live {
      assert CurrentAt(s, k, f, j);
      if j == p {
        assert ValueOk(s, spec, k);
        assert k == rk;
        assert Matches(Visible(s, k), Current(s, k));
        assert t.gc.live == s.gc.live + [p];
      }
    }
  }

  lemma {:induction false} DecideKeeps(s: State, spec: map<Key, Value>, rewrite: bool)
    requires ValueInv(s, spec) && s.gc.Scanning? && ScanEnded(s.vlog[s.gc.file], s.gc.pos)
    requires rewrite ==> s.gc.pos > 0
    ensures ValueInv(s.(gc := if rewrite then Rewriting(s.gc.file, s.gc.live, 0) else NoGc), spec)
  {
    hide Data, Find;
    var t := s.(gc := if rewrite then Rewriting(s.gc.file, s.gc.live, 0) else NoGc);
    SpecOkFrame(s, t, spec);
    if rewrite {
      var seg := s.vlog[s.gc.file];
      assert t.gc.live[0..] == s.gc.live;
      forall k, j: nat | CurrentAt(t, k, s.gc.file, j) ensures j in s.gc.live || BehindTear(seg, j) {
        assert CurrentAt(s, k, s.gc.file, j);
        assert ValueOk(s, spec, k);
        assert j < |seg| && seg[j].Rec?;
      }
    }
  }

  lemma {:induction false} CopyKeeps(s: State, spec: map<Key, Value>, rotate: bool)
    requires ValueInv(s, spec) && s.gc.Rewriting? && HasNext(s)
    ensures ValueInv(CopyMade(s, rotate), spec)
  {
    hide Data, Find, SpecOk, Positions;
    var slot := s.vlog[s.gc.file][s.gc.live[s.gc.done]];
    AppendKeepsRecords(s, slot, rotate);
    var t := CopyMade(s, rotate);
    SpecOkFrame(s, t, spec);
    assert forall k, f: nat, j: nat :: CurrentAt(t, k, f, j) == CurrentAt(s, k, f, j);
  }

  /** Whoever points at the record to be relocated owns it, and is what a lookup finds. */
  lemma {:induction false} RecordOwner(s: State, spec: map<Key, Value>, k: Key, p: Ptr)
    requires SpecOk(s, spec) && LookupOk(s) && s.status.Up?
    requires PointsTo(Current(s, k), p)
    ensures Readable(s.vlog, p) && s.vlog[p.file][p.index].key == k && PointsTo(Visible(s, k), p)
  {
    hide Data, Find, Visible;
    assert ValueOk(s, spec, k);
    assert Matches(Visible(s, k), Current(s, k));
  }

  lemma {:induction false} SwapKeepsBooks(s: State, spec: map<Key, Value>)
    requires ValueInv(s, spec) && LookupOk(s) && s.status.Up? && s.gc.Copied?
    ensures var p := Ptr(s.gc.file, s.gc.live[s.gc.done]);
            forall k, j: nat :: CurrentAt(s, k, s.gc.file, j) && !PointsTo(Visible(s, k), p) ==>
              j in s.gc.live[s.gc.done + 1..] || BehindTear(s.vlog[s.gc.file], j)
  {
    hide Data, Find, Visible, BehindTear;
    var live, done := s.gc.live, s.gc.done;
    var p := Ptr(s.gc.file, live[done]);
    assert live[done..] == [live[done]] + live[done + 1..];
    forall k, j: nat | CurrentAt(s, k, s.gc.file, j) && !PointsTo(Visible(s, k), p)
      ensures j in live[done + 1..] || BehindTear(s.vlog[s.gc.file], j)
    {
      if j == live[done] { RecordOwner(s, spec, k, p); }
    }
  }

  /** The compare-and-swap changes no value and never undoes a newer write. */
  lemma {:induction false} SwapKeeps(s: State, spec: map<Key, Value>)
    requires ValueInv(s, spec) && LookupOk(s) && s.status.Up? && s.gc.Copied? && s.writer.Free?
    ensures ValueInv(Swapped(s), spec)
  {
    hide Data, Find, Visible, BehindTear;
    SwapKeepsBooks(s, spec);
    var p := Ptr(s.gc.file, s.gc.live[s.gc.done]);
    var k := s.vlog[p.file][p.index].key;
    var t := s.(gc := Rewriting(s.gc.file, s.gc.live, s.gc.done + 1));
    SpecOkFrame(s, t, spec);
    if PointsTo(Visible(s, k), p) {
      var e := Put(s.nextSn, s.gc.ptr);
      assert Matches(Visible(s, k), Current(s, k));
      assert ValueOk(s, spec, k);
      CommitKeepsSpec(t, spec, k, e, spec);
      SwapCommitKeepsGc(s, spec, k, e);
    } else {
      forall x, j: nat | CurrentAt(t, x, t.gc.file, j)
        ensures j in t.gc.live[t.gc.done..] || BehindTear(t.vlog[t.gc.file], j)
      {
        assert CurrentAt(s, x, s.gc.file, j);
        if PointsTo(Visible(s, x), p) && x != k { SwapVictim(s, spec, x, p); }
      }
    }
  }

  /** A lookup that lands on the record belongs to the record's key. */
  lemma {:induction false} SwapVictim(s: State, spec: map<Key, Value>, x: Key, p: Ptr)
    requires SpecOk(s, spec) && LookupOk(s) && s.status.Up? && PointsTo(Visible(s, x), p)
    ensures Readable(s.vlog, p) && s.vlog[p.file][p.index].key == x
  {
    hide Data, Find, Visible;
    assert Matches(Visible(s, x), Current(s, x));
    RecordOwner(s, spec, x, p);
  }

  lemma {:induction false} SwapCommitKeepsGc(s: State, spec: map<Key, Value>, k: Key, e: Entry)
    requires ValueInv(s, spec) && LookupOk(s) && s.status.Up? && s.gc.Copied?
    requires k == s.vlog[s.gc.file][s.gc.live[s.gc.done]].key
    requires e.Put? && e.ptr == s.gc.ptr
    ensures RewriteOk(Commit(s.(gc := Rewriting(s.gc.file, s.gc.live, s.gc.done + 1)), k, e))
  {
    hide Data, Find, Visible, BehindTear;
    SwapKeepsBooks(s, spec);
    var p := Ptr(s.gc.file, s.gc.live[s.gc.done]);
    var t := s.(gc := Rewriting(s.gc.file, s.gc.live, s.gc.done + 1));
    var u := Commit(t, k, e);
    forall x, j: nat | CurrentAt(u, x, u.gc.file, j)
      ensures j in u.gc.live[u.gc.done..] || BehindTear(u.vlog[u.gc.file], j)
    {
      CommitMovesOne(t, k, e, x);
      assert x != k && CurrentAt(s, x, s.gc.file, j);
      if PointsTo(Visible(s, x), p) { SwapVictim(s, spec, x, p); }
    }
  }

  /** The key's last record lies behind a torn record of segment `f`, where a scan does not look. */
  ghost predicate HiddenIn(s: State, f: nat, k: Key) {
    f in s.vlog && exists j: nat :: CurrentAt(s, k, f, j) && BehindTear(s.vlog[f], j)
  }

  /** No key's last record does: the exact condition for collecting the segment. */
  ghost predicate NoneBehindTear(s: State, f: nat) {
    forall k :: !HiddenIn(s, f, k)
  }

  lemma {:induction false} DeleteKeeps(s: State, spec: map<Key, Value>)
    requires ValueInv(s, spec) && s.gc.Rewriting? && s.gc.done == |s.gc.live|
    requires NoneBehindTear(s, s.gc.file)
    ensures ValueInv(SegmentDeleted(s), spec)
  {
    hide Data, Find, BehindTear;
    var t := SegmentDeleted(s);
    forall k ensures ValueOk(t, spec, k) {
      assert ValueOk(s, spec, k);
      var c := Current(s, k);
      if c.Some? && c.value.Put? {
        var p := c.value.ptr;
        assert CurrentAt(s, k, p.file, p.index);
        assert !HiddenIn(s, s.gc.file, k);
      }
    }
  }

  lemma {:induction false} RestartKeepsValues(s: State, spec: map<Key, Value>, lost: seq<Table>, left: Remains)
    requires ValueInv(s, spec) && s.manifest.levels != []
    ensures ValueInv(Restarted(s, lost, left), spec)
  {
    hide SpecOk, Load;
    InterruptedKeepsRecords(s, left);
    SpecOkFrame(s, Restarted(s, lost, left), spec);
  }

  lemma {:induction false} InterruptedKeepsRecords(s: State, left: Remains)
    requires VLogOk(s)
    ensures var t := Interrupted(s, left);
            && VLogOk(t)
            && (forall p :: Readable(s.vlog, p) ==>
                  Readable(t.vlog, p) && t.vlog[p.file][p.index] == s.vlog[p.file][p.index])
  {
    AppendKeepsRecords(s, Torn, false);
    AppendKeepsRecords(s, Torn, true);
  }
}
