/** The compaction loop: a multi-way merge over table iterators, cut into tables by size. */
module MergeLoop {
  import opened Bytes
  import opened Lsm
  import opened Compaction
  import Coding

  // ---- Table sizes ----

  /** Bytes of one entry in a table's data block. */
  function EntryBytes(k: Key): nat {
    |Coding.Varint(|k|)| + |k| + 25
  }

  function DataBytes(es: seq<KV>): nat {
    if es == [] then 0 else DataBytes(es[..|es| - 1]) + EntryBytes(es[|es| - 1].key)
  }

  /** A table is closed by the first entry that brings it to the limit, and only then. */
  predicate CutBySize(outs: seq<Table>, limit: nat) {
    && (forall i :: 0 <= i < |outs| - 1 ==> DataBytes(outs[i].entries) >= limit)
    && (forall i :: 0 <= i < |outs| && |outs[i].entries| > 1 ==>
          DataBytes(outs[i].entries[..|outs[i].entries| - 1]) < limit)
  }

  // ---- A sorted run and its tables ----

  function Flatten(outs: seq<Table>): seq<KV> {
    if outs == [] then [] else Flatten(outs[..|outs| - 1]) + outs[|outs| - 1].entries
  }

  lemma {:induction false} FlattenMember(outs: seq<Table>, x: KV)
    ensures x in Flatten(outs) <==> exists t :: t in outs && x in t.entries
  {
    if outs == [] {
    } else {
      var n := |outs| - 1;
      FlattenMember(outs[..n], x);
      assert outs == outs[..n] + [outs[n]];
    }
  }

  predicate NonEmpty(outs: seq<Table>) {
    forall i :: 0 <= i < |outs| ==> outs[i].entries != []
  }

  lemma {:induction false} FlattenOrder(outs: seq<Table>)
    requires NonEmpty(outs) && Ascending(Flatten(outs))
    ensures ValidTables(outs) && Disjoint(outs)
  {
    hide Less;
    if outs == [] {
    } else {
      var n := |outs| - 1;
      var flat, front, last := Flatten(outs), Flatten(outs[..n]), outs[n].entries;
      assert forall i :: 0 <= i < |front| ==> flat[i] == front[i];
      assert forall i :: 0 <= i < |last| ==> flat[|front| + i] == last[i];
      FlattenOrder(outs[..n]);
      forall i | 0 <= i < n ensures Less(Largest(outs[i]), Smallest(outs[n])) {
        LastBeforeNext(outs, i);
      }
    }
  }

  lemma {:induction false} LastBeforeNext(outs: seq<Table>, i: nat)
    requires NonEmpty(outs) && Ascending(Flatten(outs)) && i < |outs| - 1
    ensures Less(Largest(outs[i]), Smallest(outs[|outs| - 1]))
  {
    hide Less;
    var n := |outs| - 1;
    var flat, front := Flatten(outs), Flatten(outs[..n]);
    var es := outs[i].entries;
    assert outs[i] in outs[..n];
    FlattenMember(outs[..n], es[|es| - 1]);
    var a :| 0 <= a < |front| && front[a] == es[|es| - 1];
    assert flat[a] == front[a] && flat[|front|] == outs[n].entries[0];
  }

  /** A run answers lookups as its concatenation does. */
  lemma {:induction false} FlattenHit(outs: seq<Table>, k: Key)
    requires NonEmpty(outs) && Ascending(Flatten(outs))
    ensures LevelHit(outs, k) == Find(Data(Flatten(outs)), k)
  {
    hide Ascending, Disjoint, LevelHit, Flatten;
    FlattenOrder(outs);
    var flat := Flatten(outs);
    var e := Find(Data(flat), k);
    if e.Some? {
      DataSource(flat, k);
      FlattenMember(outs, KV(k, e.value));
      var t :| t in outs && KV(k, e.value) in t.entries;
      AscendingHolds(t.entries, KV(k, e.value));
      assert Holds(t, k, e.value);
    } else {
      forall t | t in outs ensures k !in Data(t.entries) {
        if k in Data(t.entries) {
          DataSource(t.entries, k);
          FlattenMember(outs, KV(k, Data(t.entries)[k]));
          AscendingHolds(flat, KV(k, Data(t.entries)[k]));
        }
      }
    }
    LevelHitByMember(outs, k, e);
  }

  lemma {:induction false} AscendingHolds(es: seq<KV>, x: KV)
    requires Ascending(es) && x in es
    ensures x.key in Data(es) && Data(es)[x.key] == x.entry
  {
    var i :| 0 <= i < |es| && es[i] == x;
    AscendingData(es, i);
  }

  // ---- Iterators ----

  predicate HeadIs(t: Table, p: nat, k: Key) {
    p < |t.entries| && t.entries[p].key == k
  }

  function HeadEntry(t: Table, p: nat, k: Key): Option<Entry> {
    if HeadIs(t, p, k) then Some(t.entries[p].entry) else None
  }

  /** The iterator of `t` stands at `p`: what is behind it ranks at most `bound`, what is ahead more. */
  predicate StandsAt(t: Table, p: nat, bound: real) {
    && p <= |t.entries|
    && (forall a :: 0 <= a < p ==> Rank(t.entries[a].key) <= bound)
    && (forall a :: p <= a < |t.entries| ==> Rank(t.entries[a].key) > bound)
  }

  /** A key beyond the bound and not beyond the head is in the table exactly if it is the head. */
  lemma {:induction false} HeadIsHolding(t: Table, p: nat, bound: real, k: Key)
    requires ValidTable(t) && StandsAt(t, p, bound) && bound < Rank(k)
    requires p < |t.entries| ==> Rank(k) <= Rank(t.entries[p].key)
    ensures Find(Data(t.entries), k) == HeadEntry(t, p, k)
  {
    assert forall i :: p < i < |t.entries| ==> Less(t.entries[p].key, t.entries[i].key);
    if HeadIs(t, p, k) {
      AscendingData(t.entries, p);
    } else if k in Data(t.entries) {
      DataSource(t.entries, k);
    }
  }

  method FindMin(ts: seq<Table>, pos: array<nat>) returns (found: bool, k: Key)
    requires pos.Length == |ts| && forall i :: 0 <= i < |ts| ==> pos[i] <= |ts[i].entries|
    ensures !found ==> forall i :: 0 <= i < |ts| ==> pos[i] == |ts[i].entries|
    ensures found ==> exists i :: 0 <= i < |ts| && HeadIs(ts[i], pos[i], k)
    ensures found ==> forall i :: 0 <= i < |ts| && pos[i] < |ts[i].entries| ==>
                        Rank(k) <= Rank(ts[i].entries[pos[i]].key)
  {
    hide Rank;
    found, k := false, [];
    for i := 0 to |ts|
      invariant !found ==> forall a :: 0 <= a < i ==> pos[a] == |ts[a].entries|
      invariant found ==> exists a :: 0 <= a < i && HeadIs(ts[a], pos[a], k)
      invariant found ==> forall a :: 0 <= a < i && pos[a] < |ts[a].entries| ==>
                            Rank(k) <= Rank(ts[a].entries[pos[a]].key)
    {
      if pos[i] < |ts[i].entries| {
        var head := ts[i].entries[pos[i]].key;
        if !found || Less(head, k) {
          found, k := true, head;
          assert HeadIs(ts[i], pos[i], k);
        }
      }
    }
  }

  /** The newest version among the iterators that stand on the key; the first one wins a tie. */
  method FindWinner(ts: seq<Table>, pos: array<nat>, k: Key) returns (w: nat)
    requires pos.Length == |ts| && exists i :: 0 <= i < |ts| && HeadIs(ts[i], pos[i], k)
    requires forall i :: 0 <= i < |ts| ==> Find(Data(ts[i].entries), k) == HeadEntry(ts[i], pos[i], k)
    ensures w < |ts| && HeadIs(ts[w], pos[w], k)
    ensures Winner(ts, k) == Some(ts[w].entries[pos[w]].entry)
  {
    hide Data;
    var has, maxSn: nat := false, 0;
    w := 0;
    for i := 0 to |ts|
      invariant has <==> exists a :: 0 <= a < i && HeadIs(ts[a], pos[a], k)
      invariant has ==> w < i && HeadIs(ts[w], pos[w], k) && maxSn == ts[w].entries[pos[w]].entry.sn
      invariant Winner(ts[..i], k) == if has then Some(ts[w].entries[pos[w]].entry) else None
    {
      assert ts[..i + 1][..i] == ts[..i];
      if pos[i] < |ts[i].entries| && ts[i].entries[pos[i]].key == k {
        var sn := ts[i].entries[pos[i]].entry.sn;
        assert HeadIs(ts[i], pos[i], k);
        if !has || sn > maxSn {
          has, w, maxSn := true, i, sn;
        }
      }
    }
    assert ts[..|ts|] == ts;
  }

  /** Does any level from `deep` down hold the key? Tables are asked only within their key range. */
  method ExistsDeeper(levels: Levels, deep: nat, k: Key) returns (exists_: bool)
    requires deep >= 1 && forall l :: 0 <= l < |levels| ==> ValidTables(levels[l])
    ensures exists_ <==> LevelsHit(levels, deep, k).Some?
  {
    exists_ := false;
    var d := deep;
    while d < |levels| && !exists_
      invariant deep <= d
      invariant exists_ ==> LevelsHit(levels, deep, k).Some?
      invariant !exists_ ==> LevelsHit(levels, deep, k) == LevelsHit(levels, d, k)
      decreases |levels| - d, !exists_
    {
      exists_ := LevelHolds(levels[d], k);
      d := d + 1;
    }
  }

  method LevelHolds(ts: seq<Table>, k: Key) returns (holds: bool)
    requires ValidTables(ts)
    ensures holds <==> LevelHit(ts, k).Some?
  {
    hide LevelHit, Rank;
    LevelHitSource(ts, k);
    holds := false;
    for i := 0 to |ts|
      invariant !holds ==> forall a :: 0 <= a < i ==> k !in Data(ts[a].entries)
      invariant holds ==> LevelHit(ts, k).Some?
    {
      var t := ts[i];
      if k in Data(t.entries) { KeyInRange(t, k); }
      if AtMost(Smallest(t), k) && AtMost(k, Largest(t)) && Find(Data(t.entries), k).Some? {
        assert t in ts;
        holds := true;
        break;
      }
    }
  }

  method AdvanceAll(ts: seq<Table>, pos: array<nat>, k: Key)
    requires pos.Length == |ts|
    modifies pos
    ensures forall i :: 0 <= i < |ts| ==>
              pos[i] == if HeadIs(ts[i], old(pos[i]), k) then old(pos[i]) + 1 else old(pos[i])
  {
    for i := 0 to |ts|
      invariant forall a :: 0 <= a < i ==>
                  pos[a] == if HeadIs(ts[a], old(pos[a]), k) then old(pos[a]) + 1 else old(pos[a])
      invariant forall a :: i <= a < |ts| ==> pos[a] == old(pos[a])
    {
      if pos[i] < |ts[i].entries| && ts[i].entries[pos[i]].key == k {
        pos[i] := pos[i] + 1;
      }
    }
  }

  // ---- The merge ----

  /** What has been merged: every key up to the bound, in order, each as the merge decides. */
  ghost predicate Progress(ts: seq<Table>, levels: Levels, deep: nat, pos: seq<nat>, bound: real, done: seq<KV>) {
    && |pos| == |ts| && (forall i :: 0 <= i < |ts| ==> StandsAt(ts[i], pos[i], bound))
    && Ascending(done) && (forall i :: 0 <= i < |done| ==> Rank(done[i].key) <= bound)
    && (forall x :: Rank(x) <= bound ==> Find(Data(done), x) == MergedEntry(ts, levels, deep, x))
  }

  predicate IsMinHead(ts: seq<Table>, pos: seq<nat>, k: Key)
    requires |pos| == |ts|
  {
    && (exists i :: 0 <= i < |ts| && HeadIs(ts[i], pos[i], k))
    && (forall i :: 0 <= i < |ts| && pos[i] < |ts[i].entries| ==> Rank(k) <= Rank(ts[i].entries[pos[i]].key))
  }

  /** No table holds a key between the bound and the heads. */
  lemma {:induction false} GapIsEmpty(ts: seq<Table>, pos: seq<nat>, bound: real, x: Key, levels: Levels, deep: nat)
    requires ValidTables(ts) && |pos| == |ts|
    requires forall i :: 0 <= i < |ts| ==> StandsAt(ts[i], pos[i], bound)
    requires bound < Rank(x)
    requires forall i :: 0 <= i < |ts| && pos[i] < |ts[i].entries| ==> Rank(x) < Rank(ts[i].entries[pos[i]].key)
    ensures MergedEntry(ts, levels, deep, x).None?
  {
    hide Data, Rank, LevelsHit, Winner, Ascending;
    WinnerIsNewest(ts, x);
    forall t | t in ts ensures x !in Data(t.entries) {
      var i :| 0 <= i < |ts| && ts[i] == t;
      HeadIsHolding(t, pos[i], bound, x);
    }
  }

  lemma {:induction false} ProgressAnswers(ts: seq<Table>, levels: Levels, deep: nat, pos: seq<nat>, bound: real,
                                           done: seq<KV>,
                        k: Key, x: Key)
    requires ValidTables(ts) && Progress(ts, levels, deep, pos, bound, done) && IsMinHead(ts, pos, k)
    requires bound < Rank(k) && Rank(x) <= Rank(k)
    ensures var m := MergedEntry(ts, levels, deep, k);
            Find(Data(done + (if m.Some? then [KV(k, m.value)] else [])), x) == MergedEntry(ts, levels, deep, x)
  {
    hide Data, Rank, MergedEntry, Ascending, ValidTables;
    var m := MergedEntry(ts, levels, deep, k);
    if m.Some? { DataSnoc(done, KV(k, m.value)); } else { assert done + [] == done; }
    RankIsLexicographic(x, k);
    if bound < Rank(x) {
      assert x !in Data(done) by {
        if x in Data(done) { DataSource(done, x); }
      }
      if x != k { GapIsEmpty(ts, pos, bound, x, levels, deep); }
    }
  }

  lemma {:induction false} AdvanceStands(t: Table, p: nat, bound: real, k: Key)
    requires ValidTable(t) && StandsAt(t, p, bound) && bound < Rank(k)
    requires p < |t.entries| ==> Rank(k) <= Rank(t.entries[p].key)
    ensures StandsAt(t, if HeadIs(t, p, k) then p + 1 else p, Rank(k))
  {
    hide Rank;
    if p < |t.entries| {
      RankIsLexicographic(t.entries[p].key, k);
      assert forall a :: p < a < |t.entries| ==> Less(t.entries[p].key, t.entries[a].key);
    }
  }

  lemma {:induction false} AscendingSnoc(done: seq<KV>, bound: real, x: KV)
    requires Ascending(done) && (forall i :: 0 <= i < |done| ==> Rank(done[i].key) <= bound) && bound < Rank(x.key)
    ensures Ascending(done + [x])
  {
    hide Rank;
  }

  lemma {:induction false} ProgressStep(ts: seq<Table>, levels: Levels, deep: nat, pos: seq<nat>, bound: real,
                                        done: seq<KV>,
                     k: Key, pos': seq<nat>, done': seq<KV>)
    requires ValidTables(ts) && Progress(ts, levels, deep, pos, bound, done) && IsMinHead(ts, pos, k)
    requires |pos'| == |ts|
    requires forall i :: 0 <= i < |ts| ==> pos'[i] == if HeadIs(ts[i], pos[i], k) then pos[i] + 1 else pos[i]
    requires var m := MergedEntry(ts, levels, deep, k);
             done' == done + (if m.Some? then [KV(k, m.value)] else [])
    ensures bound < Rank(k) && Progress(ts, levels, deep, pos', Rank(k), done')
  {
    hide Data, Rank, MergedEntry, Ascending;
    BoundBelowHead(ts, pos, bound, k);
    assert forall i :: 0 <= i < |ts| ==> StandsAt(ts[i], pos'[i], Rank(k)) by {
      hide StandsAt;
      forall i | 0 <= i < |ts| ensures StandsAt(ts[i], pos'[i], Rank(k)) {
        AdvanceStands(ts[i], pos[i], bound, k);
      }
    }
    hide StandsAt;
    var m := MergedEntry(ts, levels, deep, k);
    if m.Some? { AscendingSnoc(done, bound, KV(k, m.value)); } else { assert done' == done; }
    forall x | Rank(x) <= Rank(k) ensures Find(Data(done'), x) == MergedEntry(ts, levels, deep, x) {
      ProgressAnswers(ts, levels, deep, pos, bound, done, k, x);
    }
  }

  lemma {:induction false} BoundBelowHead(ts: seq<Table>, pos: seq<nat>, bound: real, k: Key)
    requires |pos| == |ts| && IsMinHead(ts, pos, k)
    requires forall i :: 0 <= i < |ts| ==> StandsAt(ts[i], pos[i], bound)
    ensures bound < Rank(k)
  {
    hide Rank;
    var h :| 0 <= h < |ts| && HeadIs(ts[h], pos[h], k);
    assert StandsAt(ts[h], pos[h], bound);
  }

  /** With every iterator at its end, the run answers for every key. */
  lemma {:induction false} ProgressDone(ts: seq<Table>, levels: Levels, deep: nat, pos: seq<nat>, bound: real,
                                        done: seq<KV>, x: Key)
    requires ValidTables(ts) && Progress(ts, levels, deep, pos, bound, done)
    requires forall i :: 0 <= i < |ts| ==> pos[i] == |ts[i].entries|
    ensures Find(Data(done), x) == MergedEntry(ts, levels, deep, x)
  {
    hide Data, Rank, MergedEntry;
    if bound < Rank(x) {
      GapIsEmpty(ts, pos, bound, x, levels, deep);
      if x in Data(done) { DataSource(done, x); }
    }
  }

  // ---- Termination: the total of remaining entries falls ----

  function Remaining(ts: seq<Table>, pos: seq<nat>): int
    requires |pos| == |ts|
  {
    if ts == [] then 0
    else
      var n := |ts| - 1;
      Remaining(ts[..n], pos[..n]) + |ts[n].entries| - pos[n]
  }

  lemma {:induction false} RemainingFalls(ts: seq<Table>, pos: seq<nat>, pos': seq<nat>)
    requires |pos| == |pos'| == |ts|
    requires forall i :: 0 <= i < |ts| ==> pos[i] <= pos'[i] <= |ts[i].entries|
    ensures 0 <= Remaining(ts, pos') <= Remaining(ts, pos)
    ensures (exists i :: 0 <= i < |ts| && pos[i] < pos'[i]) ==> Remaining(ts, pos') < Remaining(ts, pos)
  {
    if ts == [] {
    } else {
      var n := |ts| - 1;
      RemainingFalls(ts[..n], pos[..n], pos'[..n]);
      assert forall i :: 0 <= i < n ==> pos[..n][i] == pos[i] && pos'[..n][i] == pos'[i];
    }
  }

  // ---- The writer side ----

  /** Closed tables are full, numbered in order and not empty; the open one is not full yet. */
  predicate Writing(outs: seq<Table>, current: seq<KV>, firstId: nat, nextId: nat, limit: nat) {
    && NonEmpty(outs) && CutBySize(outs, limit)
    && (forall i :: 0 <= i < |outs| ==> DataBytes(outs[i].entries) >= limit && outs[i].id == firstId + i)
    && (current != [] ==> DataBytes(current) < limit)
    && nextId == firstId + |outs| + (if current == [] then 0 else 1)
  }

  lemma {:induction false} FlattenSnoc(outs: seq<Table>, t: Table)
    ensures Flatten(outs + [t]) == Flatten(outs) + t.entries
  {
    assert (outs + [t])[..|outs|] == outs;
  }

  lemma {:induction false} CutSnoc(outs: seq<Table>, t: Table, limit: nat)
    requires CutBySize(outs, limit)
    requires forall i :: 0 <= i < |outs| ==> DataBytes(outs[i].entries) >= limit
    requires |t.entries| > 1 ==> DataBytes(t.entries[..|t.entries| - 1]) < limit
    ensures CutBySize(outs + [t], limit)
  {
    hide DataBytes;
    var r := outs + [t];
    assert forall i :: 0 <= i < |outs| ==> r[i] == outs[i];
    assert r[|outs|] == t;
  }

  lemma {:induction false} KeepsOpen(outs: seq<Table>, current: seq<KV>, nextId: nat, x: KV, limit: nat, firstId: nat)
    requires Writing(outs, current, firstId, nextId, limit) && DataBytes(current + [x]) < limit
    ensures Writing(outs, current + [x], firstId, if current == [] then nextId + 1 else nextId, limit)
  {
    hide DataBytes, CutBySize, NonEmpty;
  }

  /** An entry that fills the open table closes it. */
  lemma {:induction false} Closes(outs: seq<Table>, current: seq<KV>, nextId: nat, x: KV, limit: nat, firstId: nat)
    requires Writing(outs, current, firstId, nextId, limit) && DataBytes(current + [x]) >= limit
    ensures var id := if current == [] then nextId else nextId - 1;
            id >= 0 && Writing(outs + [Table(id, current + [x])], [], firstId, id + 1, limit)
  {
    hide DataBytes, CutBySize;
    var id := if current == [] then nextId else nextId - 1;
    var t := Table(id, current + [x]);
    assert (current + [x])[..|current|] == current;
    CutSnoc(outs, t, limit);
  }

  method AddEntry(outs: seq<Table>, current: seq<KV>, nextId: nat, x: KV, limit: nat, ghost firstId: nat)
    returns (outs': seq<Table>, current': seq<KV>, nextId': nat)
    requires Writing(outs, current, firstId, nextId, limit)
    ensures Writing(outs', current', firstId, nextId', limit)
    ensures Flatten(outs') + current' == Flatten(outs) + current + [x]
  {
    hide Flatten, Writing, DataBytes;
    nextId' := if current == [] then nextId + 1 else nextId;
    current' := current + [x];
    outs' := outs;
    assert Flatten(outs) + current + [x] == Flatten(outs) + (current + [x]);
    if DataBytes(current') >= limit {
      Closes(outs, current, nextId, x, limit, firstId);
      var t := Table(nextId' - 1, current');
      FlattenSnoc(outs, t);
      outs', current' := outs + [t], [];
    } else {
      KeepsOpen(outs, current, nextId, x, limit, firstId);
    }
  }

  method Finish(outs: seq<Table>, current: seq<KV>, ghost firstId: nat, nextId: nat, limit: nat)
    returns (outs': seq<Table>)
    requires Writing(outs, current, firstId, nextId, limit)
    ensures NonEmpty(outs') && CutBySize(outs', limit) && Flatten(outs') == Flatten(outs) + current
    ensures nextId == firstId + |outs'| && forall i :: 0 <= i < |outs'| ==> outs'[i].id == firstId + i
  {
    hide Flatten;
    outs' := outs;
    if current != [] {
      var t := Table(nextId - 1, current);
      CutSnoc(outs, t, limit);
      FlattenSnoc(outs, t);
      outs' := outs + [t];
    }
  }

  lemma {:induction false} StartsAtZero(ts: seq<Table>, levels: Levels, deep: nat, pos: seq<nat>, bound: real)
    requires |pos| == |ts| && bound < 0.0 && forall i :: 0 <= i < |ts| ==> pos[i] == 0
    ensures Progress(ts, levels, deep, pos, bound, [])
  {
  }

  lemma {:induction false} HeadsHold(ts: seq<Table>, pos: seq<nat>, bound: real, k: Key)
    requires ValidTables(ts) && |pos| == |ts| && IsMinHead(ts, pos, k)
    requires forall i :: 0 <= i < |ts| ==> StandsAt(ts[i], pos[i], bound)
    ensures forall i :: 0 <= i < |ts| ==> Find(Data(ts[i].entries), k) == HeadEntry(ts[i], pos[i], k)
  {
    hide Data, Rank, Find, HeadEntry, StandsAt;
    BoundBelowHead(ts, pos, bound, k);
    forall i | 0 <= i < |ts| ensures Find(Data(ts[i].entries), k) == HeadEntry(ts[i], pos[i], k) {
      HeadIsHolding(ts[i], pos[i], bound, k);
    }
  }

  /** What the merge keeps of the smallest key the iterators stand on. */
  method Decide(ts: seq<Table>, pos: array<nat>, levels: Levels, deep: nat, k: Key, ghost bound: real)
    returns (m: Option<Entry>)
    requires ValidTables(ts) && deep >= 1 && pos.Length == |ts| && IsMinHead(ts, pos[..], k)
    requires forall i :: 0 <= i < |ts| ==> StandsAt(ts[i], pos[i], bound)
    requires forall l :: 0 <= l < |levels| ==> ValidTables(levels[l])
    ensures m == MergedEntry(ts, levels, deep, k)
  {
    hide Data, Rank, Winner, LevelsHit, StandsAt, HeadEntry;
    HeadsHold(ts, pos[..], bound, k);
    assert exists i :: 0 <= i < |ts| && HeadIs(ts[i], pos[i], k) by {
      var h :| 0 <= h < |ts| && HeadIs(ts[h], pos[..][h], k);
    }
    var w := FindWinner(ts, pos, k);
    m := Some(ts[w].entries[pos[w]].entry);
    if m.value.Del? {
      var deeper := ExistsDeeper(levels, deep, k);
      if !deeper { m := None; }
    }
  }

  /** One round of the merge: the smallest key is kept or dropped and its iterators move on. */
  method MergeRound(ts: seq<Table>, pos: array<nat>, levels: Levels, deep: nat, limit: nat, k: Key,
                    outs: seq<Table>, current: seq<KV>, nextId: nat, ghost bound: real, ghost firstId: nat)
    returns (outs': seq<Table>, current': seq<KV>, nextId': nat)
    requires ValidTables(ts) && deep >= 1 && pos.Length == |ts|
    requires forall l :: 0 <= l < |levels| ==> ValidTables(levels[l])
    requires Progress(ts, levels, deep, pos[..], bound, Flatten(outs) + current) && IsMinHead(ts, pos[..], k)
    requires Writing(outs, current, firstId, nextId, limit)
    modifies pos
    ensures Progress(ts, levels, deep, pos[..], Rank(k), Flatten(outs') + current')
    ensures Writing(outs', current', firstId, nextId', limit)
    ensures 0 <= Remaining(ts, pos[..]) < Remaining(ts, old(pos[..]))
  {
    hide Data, Rank, MergedEntry, LevelHit, Ascending, Writing, Flatten, ValidTables, Remaining, IsMerge;
    ghost var pos0, done0 := pos[..], Flatten(outs) + current;
    assert forall i :: 0 <= i < |ts| ==> StandsAt(ts[i], pos0[i], bound);
    outs', current', nextId' := outs, current, nextId;
    var m := Decide(ts, pos, levels, deep, k, bound);
    if m.Some? {
      outs', current', nextId' := AddEntry(outs, current, nextId, KV(k, m.value), limit, firstId);
    }
    AdvanceAll(ts, pos, k);
    assert m.None? ==> done0 + [] == done0;
    ProgressStep(ts, levels, deep, pos0, bound, done0, k, pos[..], Flatten(outs') + current');
    RemainingFalls(ts, pos0, pos[..]);
  }

  /** Merges the tables, keeping for each key its newest version and dropping a tombstone that no
      deeper level needs, into tables of consecutive ids cut at the size limit. */
  method MergeTables(ts: seq<Table>, levels: Levels, deep: nat, limit: nat, firstId: nat)
    returns (outs: seq<Table>, nextId: nat)
    requires ValidTables(ts) && deep >= 1
    requires forall l :: 0 <= l < |levels| ==> ValidTables(levels[l])
    ensures IsMerge(outs, ts, levels, deep)
    ensures nextId == firstId + |outs| && forall i :: 0 <= i < |outs| ==> outs[i].id == firstId + i
    ensures forall i :: 0 <= i < |outs| - 1 ==> DataBytes(outs[i].entries) >= limit
    ensures forall i :: 0 <= i < |outs| && |outs[i].entries| > 1 ==>
              DataBytes(outs[i].entries[..|outs[i].entries| - 1]) < limit
  {
    hide Data, Rank, MergedEntry, LevelHit, Ascending, Writing, CutBySize, DataBytes, Flatten, ValidTables,
         Remaining, NonEmpty, IsMerge;
    var pos := new nat[|ts|](_ => 0);
    outs, nextId := [], firstId;
    var current: seq<KV> := [];
    ghost var bound := -1.0;
    StartsAtZero(ts, levels, deep, pos[..], bound);
    StartsWriting(firstId, limit);
    var more := true;
    while more
      invariant Progress(ts, levels, deep, pos[..], bound, Flatten(outs) + current)
      invariant Writing(outs, current, firstId, nextId, limit)
      invariant !more ==> forall i :: 0 <= i < |ts| ==> pos[i] == |ts[i].entries|
      decreases more, Remaining(ts, pos[..])
    {
      assert forall i :: 0 <= i < |ts| ==> StandsAt(ts[i], pos[..][i], bound);
      var found, k := FindMin(ts, pos);
      if found {
        assert IsMinHead(ts, pos[..], k);
        outs, current, nextId := MergeRound(ts, pos, levels, deep, limit, k, outs, current, nextId, bound, firstId);
        bound := Rank(k);
      } else {
        more := false;
      }
    }
    outs := Finish(outs, current, firstId, nextId, limit);
    RunIsMerge(ts, levels, deep, pos[..], bound, outs);
    CutIs(outs, limit);
  }

  lemma {:induction false} CutIs(outs: seq<Table>, limit: nat)
    requires CutBySize(outs, limit)
    ensures forall i :: 0 <= i < |outs| - 1 ==> DataBytes(outs[i].entries) >= limit
    ensures forall i :: 0 <= i < |outs| && |outs[i].entries| > 1 ==>
              DataBytes(outs[i].entries[..|outs[i].entries| - 1]) < limit
  {
    hide DataBytes;
  }

  lemma {:induction false} RunIsMerge(ts: seq<Table>, levels: Levels, deep: nat, pos: seq<nat>, bound: real,
                                      outs: seq<Table>)
    requires ValidTables(ts) && NonEmpty(outs) && Progress(ts, levels, deep, pos, bound, Flatten(outs))
    requires forall i :: 0 <= i < |ts| ==> pos[i] == |ts[i].entries|
    ensures IsMerge(outs, ts, levels, deep)
  {
    hide Data, MergedEntry, LevelHit, Flatten, Ascending;
    forall x ensures LevelHit(outs, x) == MergedEntry(ts, levels, deep, x) {
      ProgressDone(ts, levels, deep, pos, bound, Flatten(outs), x);
      FlattenHit(outs, x);
    }
    FlattenOrder(outs);
  }

  lemma {:induction false} StartsWriting(firstId: nat, limit: nat)
    ensures Writing([], [], firstId, firstId, limit) && Flatten([]) + [] == []
  {
  }
}
