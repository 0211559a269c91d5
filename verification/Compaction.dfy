/** Compaction of one level into the next: what it reads, what it may produce, what it installs,
    and why no lookup can tell. */
module Compaction {
  import opened Bytes
  import opened Lsm

  // ---- Choosing the inputs ----

  /** Smallest and largest key over a non-empty list of tables. */
  function Lo(ts: seq<Table>): (k: Key)
    requires ts != []
    ensures forall t :: t in ts ==> AtMost(k, Smallest(t))
  {
    if |ts| == 1 then Smallest(ts[0])
    else
      var n := |ts| - 1;
      assert ts == ts[..n] + [ts[n]];
      if Less(Smallest(ts[n]), Lo(ts[..n])) then Smallest(ts[n]) else Lo(ts[..n])
  }

  function Hi(ts: seq<Table>): (k: Key)
    requires ts != []
    ensures forall t :: t in ts ==> AtMost(Largest(t), k)
  {
    if |ts| == 1 then Largest(ts[0])
    else
      var n := |ts| - 1;
      assert ts == ts[..n] + [ts[n]];
      if Less(Hi(ts[..n]), Largest(ts[n])) then Largest(ts[n]) else Hi(ts[..n])
  }

  predicate Overlaps(t: Table, lo: Key, hi: Key) {
    AtMost(Smallest(t), hi) && AtMost(lo, Largest(t))
  }

  function Overlapping(ts: seq<Table>, lo: Key, hi: Key): (r: seq<Table>)
    ensures forall t :: t in r <==> t in ts && Overlaps(t, lo, hi)
  {
    if ts == [] then []
    else
      var n := |ts| - 1;
      assert ts == ts[..n] + [ts[n]];
      Overlapping(ts[..n], lo, hi) + (if Overlaps(ts[n], lo, hi) then [ts[n]] else [])
  }

  // ---- What a merge keeps ----

  /** The version with the highest sequence number; the earliest table wins a tie. */
  function Winner(ts: seq<Table>, k: Key): Option<Entry> {
    if ts == [] then None
    else
      var n := |ts| - 1;
      var w := Winner(ts[..n], k);
      var c := Find(Data(ts[n].entries), k);
      if c.Some? && (w.None? || c.value.sn > w.value.sn) then c else w
  }

  lemma {:induction false} WinnerIsNewest(ts: seq<Table>, k: Key)
    ensures Winner(ts, k).Some? ==> exists t :: t in ts && Holds(t, k, Winner(ts, k).value)
    ensures forall t :: t in ts && k in Data(t.entries) ==>
              Winner(ts, k).Some? && Data(t.entries)[k].sn <= Winner(ts, k).value.sn
  {
    if ts == [] {
    } else {
      var n := |ts| - 1;
      WinnerIsNewest(ts[..n], k);
      assert ts == ts[..n] + [ts[n]];
      if k in Data(ts[n].entries) {
        assert Holds(ts[n], k, Data(ts[n].entries)[k]);
      }
    }
  }

  /** A tombstone survives only while some level from `deep` down still holds the key. */
  function MergedEntry(ts: seq<Table>, levels: Levels, deep: nat, k: Key): Option<Entry> {
    var w := Winner(ts, k);
    if w.Some? && w.value.Del? && LevelsHit(levels, deep, k).None? then None else w
  }

  /** `outs` is a sorted run of tables that holds exactly the merged entries. */
  ghost predicate IsMerge(outs: seq<Table>, ts: seq<Table>, levels: Levels, deep: nat) {
    && ValidTables(outs) && Disjoint(outs)
    && forall k :: LevelHit(outs, k) == MergedEntry(ts, levels, deep, k)
  }

  // ---- Installing the result ----

  predicate HasId(ts: seq<Table>, id: nat) {
    exists t {:trigger t in ts} :: t in ts && t.id == id
  }

  function RemoveIds(ts: seq<Table>, gone: seq<Table>): (r: seq<Table>)
    ensures forall t {:trigger t in r} {:trigger t in ts} :: t in r <==> t in ts && !HasId(gone, t.id)
  {
    if ts == [] then []
    else
      var n := |ts| - 1;
      assert ts == ts[..n] + [ts[n]];
      RemoveIds(ts[..n], gone) + (if HasId(gone, ts[n].id) then [] else [ts[n]])
  }

  function Insert(t: Table, ts: seq<Table>): (r: seq<Table>)
    ensures forall x :: x in r <==> x == t || x in ts
  {
    if ts == [] then [t]
    else if Less(Smallest(t), Smallest(ts[0])) then [t] + ts
    else
      assert ts == [ts[0]] + ts[1..];
      [ts[0]] + Insert(t, ts[1..])
  }

  /** Ordered by smallest key. */
  function SortTables(ts: seq<Table>): (r: seq<Table>)
    ensures forall x :: x in r <==> x in ts
  {
    if ts == [] then []
    else
      var n := |ts| - 1;
      assert ts == ts[..n] + [ts[n]];
      Insert(ts[n], SortTables(ts[..n]))
  }

  function Installed(levels: Levels, lvl: nat, inputs: seq<Table>, next: seq<Table>, outs: seq<Table>): Levels
    requires lvl + 1 < |levels|
  {
    levels[lvl := RemoveIds(levels[lvl], inputs)]
          [lvl + 1 := SortTables(RemoveIds(levels[lvl + 1], next) + outs)]
  }

  /** The inputs a compaction of `lvl` works on: a snapshot of the level, to which level 0 may have
      appended since, and the tables of the next level that overlap its key range. */
  predicate IsPick(levels: Levels, lvl: nat, inputs: seq<Table>, next: seq<Table>) {
    && lvl + 1 < |levels|
    && inputs != [] && inputs <= levels[lvl]
    && (lvl > 0 ==> inputs == levels[lvl])
    && next == Overlapping(levels[lvl + 1], Lo(inputs), Hi(inputs))
  }

  predicate FreshIds(outs: seq<Table>, ts: seq<Table>) {
    DistinctIds(outs) && forall t {:trigger t in outs} :: t in outs ==> !HasId(ts, t.id)
  }

  // ---- Removing and sorting ----

  lemma {:induction false} RemoveAll(ts: seq<Table>, gone: seq<Table>)
    requires forall i :: 0 <= i < |ts| ==> HasId(gone, ts[i].id)
    ensures RemoveIds(ts, gone) == []
  {
    if ts == [] {
    } else {
      RemoveAll(ts[..|ts| - 1], gone);
    }
  }

  lemma {:induction false} LastIsNotInput(ts: seq<Table>, inputs: seq<Table>)
    requires DistinctIds(ts) && inputs < ts
    ensures !HasId(inputs, ts[|ts| - 1].id)
  {
    forall t | t in inputs ensures t.id != ts[|ts| - 1].id {
      var i :| 0 <= i < |inputs| && inputs[i] == t;
      assert ts[i] == t;
    }
  }

  lemma {:induction false} RemovePrefix(ts: seq<Table>, inputs: seq<Table>)
    requires DistinctIds(ts) && inputs <= ts
    ensures RemoveIds(ts, inputs) == ts[|inputs|..]
  {
    if inputs == ts {
      forall i | 0 <= i < |ts| ensures HasId(inputs, ts[i].id) { assert ts[i] in inputs; }
      RemoveAll(ts, inputs);
    } else {
      var n := |ts| - 1;
      LastIsNotInput(ts, inputs);
      calc {
        RemoveIds(ts, inputs);
        RemoveIds(ts[..n], inputs) + [ts[n]];
        { assert inputs <= ts[..n]; assert DistinctIds(ts[..n]); RemovePrefix(ts[..n], inputs); }
        ts[..n][|inputs|..] + [ts[n]];
        ts[|inputs|..];
      }
    }
  }

  lemma {:induction false} RemoveKeepsOrder(ts: seq<Table>, gone: seq<Table>)
    requires ValidTables(ts) && DistinctIds(ts)
    ensures ValidTables(RemoveIds(ts, gone)) && DistinctIds(RemoveIds(ts, gone))
  {
    if ts == [] {
    } else {
      var n := |ts| - 1;
      var r := RemoveIds(ts[..n], gone);
      RemoveKeepsOrder(ts[..n], gone);
      forall i | 0 <= i < |r| ensures r[i].id != ts[n].id {
        assert r[i] in ts[..n];
      }
    }
  }

  lemma {:induction false} RemoveKeepsDisjoint(ts: seq<Table>, gone: seq<Table>)
    requires Disjoint(ts)
    ensures Disjoint(RemoveIds(ts, gone))
  {
    if ts == [] {
    } else {
      var n := |ts| - 1;
      var r := RemoveIds(ts[..n], gone);
      assert Disjoint(ts[..n]);
      RemoveKeepsDisjoint(ts[..n], gone);
      forall i | 0 <= i < |r| ensures Less(Largest(r[i]), Smallest(ts[n])) {
        assert r[i] in ts[..n];
        var j :| 0 <= j < n && ts[..n][j] == r[i];
        assert Less(Largest(ts[j]), Smallest(ts[n]));
      }
    }
  }

  predicate Apart(a: Table, b: Table) {
    Less(Largest(a), Smallest(b)) || Less(Largest(b), Smallest(a))
  }

  predicate PairwiseApart(ts: seq<Table>) {
    forall i, j :: 0 <= i < j < |ts| ==> Apart(ts[i], ts[j])
  }

  lemma {:induction false} TableSpan(t: Table)
    requires ValidTable(t)
    ensures AtMost(Smallest(t), Largest(t))
    ensures Smallest(t) in Data(t.entries) && Largest(t) in Data(t.entries)
  {
    AscendingData(t.entries, 0);
    AscendingData(t.entries, |t.entries| - 1);
  }

  /** Putting a table in front of a sorted run. */
  lemma {:induction false} ConsSorted(t: Table, ts: seq<Table>)
    requires ValidTable(t) && ValidTables(ts) && Disjoint(ts) && DistinctIds(ts)
    requires forall x :: x in ts ==> Less(Largest(t), Smallest(x)) && x.id != t.id
    ensures ValidTables([t] + ts) && Disjoint([t] + ts) && DistinctIds([t] + ts)
  {
    var r := [t] + ts;
    forall i, j | 0 <= i < j < |r| ensures Less(Largest(r[i]), Smallest(r[j])) && r[i].id != r[j].id {
      assert r[j] in ts;
      if i > 0 { assert r[i] == ts[i - 1] && r[j] == ts[j - 1]; }
    }
  }

  lemma {:induction false} InsertSorted(t: Table, ts: seq<Table>)
    requires ValidTable(t) && ValidTables(ts) && Disjoint(ts) && DistinctIds(ts)
    requires forall x :: x in ts ==> Apart(t, x) && x.id != t.id
    ensures ValidTables(Insert(t, ts)) && Disjoint(Insert(t, ts)) && DistinctIds(Insert(t, ts))
  {
    if ts == [] {
    } else if Less(Smallest(t), Smallest(ts[0])) {
      forall x | x in ts ensures Less(Largest(t), Smallest(x)) {
        var i :| 0 <= i < |ts| && ts[i] == x;
        assert i > 0 ==> Less(Largest(ts[0]), Smallest(ts[i]));
        TableSpan(ts[0]);
        TableSpan(x);
        TableSpan(t);
      }
      ConsSorted(t, ts);
    } else {
      InsertSorted(t, ts[1..]);
      forall x | x in Insert(t, ts[1..]) ensures Less(Largest(ts[0]), Smallest(x)) && x.id != ts[0].id {
        assert ts[0] in ts;
        TableSpan(t);
        if x != t {
          var j :| 0 <= j < |ts[1..]| && ts[1..][j] == x;
          assert ts[j + 1] == x;
        }
      }
      ConsSorted(ts[0], Insert(t, ts[1..]));
    }
  }

  lemma {:induction false} SortSorted(ts: seq<Table>)
    requires ValidTables(ts) && DistinctIds(ts) && PairwiseApart(ts)
    ensures ValidTables(SortTables(ts)) && Disjoint(SortTables(ts)) && DistinctIds(SortTables(ts))
  {
    if ts == [] {
    } else {
      var n := |ts| - 1;
      SortSorted(ts[..n]);
      forall x | x in SortTables(ts[..n]) ensures Apart(ts[n], x) && x.id != ts[n].id {
        var i :| 0 <= i < n && ts[i] == x;
      }
      InsertSorted(ts[n], SortTables(ts[..n]));
    }
  }

  // ---- The next level stays sorted ----

  /** Every merged key comes from an input table. */
  lemma {:induction false} MergedKeyHasInput(outs: seq<Table>, ts: seq<Table>, levels: Levels, deep: nat, o: Table,
                                             k: Key)
    returns (x: Table)
    requires IsMerge(outs, ts, levels, deep) && o in outs && k in Data(o.entries)
    ensures x in ts && k in Data(x.entries)
  {
    LevelHitSource(outs, k);
    assert LevelHit(outs, k) == MergedEntry(ts, levels, deep, k);
    WinnerIsNewest(ts, k);
    x :| x in ts && Holds(x, k, Winner(ts, k).value);
  }

  /** A next-level table that is not an input lies wholly below or wholly above every merged key,
      although the inputs of that level may reach outside the compacted range. */
  lemma {:induction false} KeptApart(levels: Levels, lvl: nat, inputs: seq<Table>, next: seq<Table>, t: Table,
                                     x: Table, k: Key)
    requires LevelsOk(levels) && IsPick(levels, lvl, inputs, next)
    requires t in levels[lvl + 1] && t !in next
    requires x in inputs + next && k in Data(x.entries)
    ensures Less(Largest(t), Lo(inputs)) ==> Less(Largest(t), k)
    ensures !Less(Largest(t), Lo(inputs)) ==> Less(k, Smallest(t))
  {
    assert ValidTables(levels[lvl]) && ValidTables(levels[lvl + 1]);
    TableSpan(t);
    if x in inputs {
      assert x in levels[lvl];
      KeyInRange(x, k);
    } else {
      assert x in next && x in levels[lvl + 1];
      KeyInRange(x, k);
      var i :| 0 <= i < |levels[lvl + 1]| && levels[lvl + 1][i] == t;
      var j :| 0 <= j < |levels[lvl + 1]| && levels[lvl + 1][j] == x;
      TableSpan(x);
      assert i != j;
      if i < j {
        assert Less(Largest(levels[lvl + 1][i]), Smallest(levels[lvl + 1][j]));
      } else {
        assert Less(Largest(levels[lvl + 1][j]), Smallest(levels[lvl + 1][i]));
      }
    }
  }

  lemma {:induction false} KeptApartFromOut(levels: Levels, lvl: nat, inputs: seq<Table>, next: seq<Table>,
                                            outs: seq<Table>,
                         t: Table, o: Table)
    requires LevelsOk(levels) && IsPick(levels, lvl, inputs, next)
    requires IsMerge(outs, inputs + next, levels, lvl + 2)
    requires t in levels[lvl + 1] && t !in next && o in outs
    ensures Apart(t, o)
  {
    TableSpan(o);
    var x := MergedKeyHasInput(outs, inputs + next, levels, lvl + 2, o, Smallest(o));
    var y := MergedKeyHasInput(outs, inputs + next, levels, lvl + 2, o, Largest(o));
    KeptApart(levels, lvl, inputs, next, t, x, Smallest(o));
    KeptApart(levels, lvl, inputs, next, t, y, Largest(o));
  }

  lemma {:induction false} KeptAndOutsApart(levels: Levels, lvl: nat, inputs: seq<Table>, next: seq<Table>,
                                            outs: seq<Table>)
    requires LevelsOk(levels) && IsPick(levels, lvl, inputs, next)
    requires IsMerge(outs, inputs + next, levels, lvl + 2)
    requires FreshIds(outs, levels[lvl + 1])
    ensures var all := RemoveIds(levels[lvl + 1], next) + outs;
            PairwiseApart(all) && DistinctIds(all) && ValidTables(all)
  {
    var kept := RemoveIds(levels[lvl + 1], next);
    RemoveKeepsOrder(levels[lvl + 1], next);
    RemoveKeepsDisjoint(levels[lvl + 1], next);
    forall a, b | a in kept && b in outs ensures Apart(a, b) && a.id != b.id {
      assert a in levels[lvl + 1] && !HasId(next, a.id);
      KeptApartFromOut(levels, lvl, inputs, next, outs, a, b);
      assert !HasId(levels[lvl + 1], b.id);
    }
    var all := kept + outs;
    forall i, j | 0 <= i < j < |all| ensures Apart(all[i], all[j]) && all[i].id != all[j].id {
      if i < |kept| <= j {
        assert all[i] in kept && all[j] in outs;
      }
    }
  }

  /** Every level from 1 down stays sorted with disjoint ranges through an install. */
  lemma {:induction false} InstallKeepsLevels(levels: Levels, lvl: nat, inputs: seq<Table>, next: seq<Table>,
                                              outs: seq<Table>)
    requires LevelsOk(levels) && IsPick(levels, lvl, inputs, next)
    requires IsMerge(outs, inputs + next, levels, lvl + 2)
    requires FreshIds(outs, levels[lvl + 1])
    ensures LevelsOk(Installed(levels, lvl, inputs, next, outs))
  {
    RemoveKeepsOrder(levels[lvl], inputs);
    if lvl > 0 { RemoveKeepsDisjoint(levels[lvl], inputs); }
    KeptAndOutsApart(levels, lvl, inputs, next, outs);
    SortSorted(RemoveIds(levels[lvl + 1], next) + outs);
  }

  // ---- No lookup can tell ----

  /** The first hit from level `i` down is the newest version that those levels store. */
  ghost predicate NewestFirst(levels: Levels, i: nat, k: Key) {
    var hit := LevelsHit(levels, i, k);
    hit.Some? ==>
      forall l, t :: i <= l < |levels| && t in levels[l] && k in Data(t.entries) ==>
        Data(t.entries)[k] == hit.value || Data(t.entries)[k].sn < hit.value.sn
  }

  lemma {:induction false} SameTail(a: Levels, b: Levels, l: nat, k: Key)
    requires |a| == |b| && 0 < l && forall i :: l <= i < |a| ==> a[i] == b[i]
    ensures LevelsHit(a, l, k) == LevelsHit(b, l, k)
    decreases |a| - l
  {
    if l < |a| { SameTail(a, b, l + 1, k); }
  }

  /** What a sorted level answers depends only on which of its tables holds the key. */
  lemma {:induction false} LevelHitByMember(ts: seq<Table>, k: Key, e: Option<Entry>)
    requires ValidTables(ts) && Disjoint(ts)
    requires e.Some? ==> exists t :: t in ts && Holds(t, k, e.value)
    requires e.None? ==> forall t :: t in ts ==> k !in Data(t.entries)
    ensures LevelHit(ts, k) == e
  {
    LevelHitSource(ts, k);
    if e.Some? {
      var t :| t in ts && Holds(t, k, e.value);
      LevelHitIs(ts, k, t);
    }
  }

  /** The level being compacted answers from what arrived after the snapshot, then from the inputs. */
  lemma {:induction false} InputHit(levels: Levels, lvl: nat, inputs: seq<Table>, next: seq<Table>, outs: seq<Table>,
                                    k: Key)
    returns (hit: Option<Entry>)
    requires LevelsOk(levels) && IsPick(levels, lvl, inputs, next)
    ensures HitAt(levels, lvl, k) == Or(HitAt(Installed(levels, lvl, inputs, next, outs), lvl, k), hit)
    ensures hit.Some? ==> exists t :: t in inputs && Holds(t, k, hit.value)
    ensures hit.None? ==> forall t :: t in inputs ==> k !in Data(t.entries)
  {
    hide ValidTables, Disjoint, Winner, SortTables;
    RemovePrefix(levels[lvl], inputs);
    if lvl == 0 {
      hit := L0Hit(inputs, k);
      L0HitSource(inputs, k);
      L0HitConcat(inputs, levels[0][|inputs|..], k);
      assert levels[0] == inputs + levels[0][|inputs|..];
    } else {
      hit := LevelHit(inputs, k);
      LevelHitSource(inputs, k);
      assert levels[lvl][|inputs|..] == [];
    }
  }

  /** The next level after the install holds the merged entry where the inputs held the key ... */
  lemma {:induction false} NextLevelMerged(levels: Levels, lvl: nat, inputs: seq<Table>, next: seq<Table>,
                                           outs: seq<Table>, k: Key)
    requires LevelsOk(levels) && IsPick(levels, lvl, inputs, next)
    requires IsMerge(outs, inputs + next, levels, lvl + 2)
    requires FreshIds(outs, levels[lvl + 1])
    requires Winner(inputs + next, k).Some?
    ensures LevelHit(Installed(levels, lvl, inputs, next, outs)[lvl + 1], k)
         == MergedEntry(inputs + next, levels, lvl + 2, k)
  {
    hide ValidTables, Disjoint, DistinctIds, LevelHit, Winner, RemoveIds, SortTables, LevelsHit, Overlapping;
    InstallKeepsLevels(levels, lvl, inputs, next, outs);
    var kept := RemoveIds(levels[lvl + 1], next);
    var now := SortTables(kept + outs);
    assert Installed(levels, lvl, inputs, next, outs)[lvl + 1] == now;
    assert forall t :: t in now ==> t in kept || t in outs;
    var m := MergedEntry(inputs + next, levels, lvl + 2, k);
    assert LevelHit(outs, k) == m;
    WinnerIsNewest(inputs + next, k);
    var x :| x in inputs + next && Holds(x, k, Winner(inputs + next, k).value);
    assert forall t :: t in kept ==> k !in Data(t.entries) by {
      forall t | t in kept ensures k !in Data(t.entries) {
        KeptHoldsNoMergedKey(levels, lvl, inputs, next, t, x, k);
      }
    }
    LevelHitSource(outs, k);
    assert m.Some? ==> exists t :: t in now && Holds(t, k, m.value);
    LevelHitByMember(now, k, m);
  }

  lemma {:induction false} KeptHoldsNoMergedKey(levels: Levels, lvl: nat, inputs: seq<Table>, next: seq<Table>,
                             t: Table, x: Table, k: Key)
    requires LevelsOk(levels) && IsPick(levels, lvl, inputs, next)
    requires t in RemoveIds(levels[lvl + 1], next)
    requires x in inputs + next && k in Data(x.entries)
    ensures k !in Data(t.entries)
  {
    hide Disjoint, DistinctIds, RemoveIds, Overlapping;
    assert t in levels[lvl + 1] && !HasId(next, t.id);
    KeptApart(levels, lvl, inputs, next, t, x, k);
    if k in Data(t.entries) { KeyInRange(t, k); }
  }

  /** ... and answers as before elsewhere. */
  lemma {:induction false} NextLevelKept(levels: Levels, lvl: nat, inputs: seq<Table>, next: seq<Table>,
                                         outs: seq<Table>, k: Key)
    requires LevelsOk(levels) && IsPick(levels, lvl, inputs, next)
    requires IsMerge(outs, inputs + next, levels, lvl + 2)
    requires FreshIds(outs, levels[lvl + 1])
    requires Winner(inputs + next, k).None?
    ensures LevelHit(Installed(levels, lvl, inputs, next, outs)[lvl + 1], k) == LevelHit(levels[lvl + 1], k)
  {
    hide ValidTables, Disjoint, DistinctIds, LevelHit, Winner, RemoveIds, SortTables, LevelsHit, Overlapping;
    InstallKeepsLevels(levels, lvl, inputs, next, outs);
    var kept := RemoveIds(levels[lvl + 1], next);
    var now := SortTables(kept + outs);
    assert Installed(levels, lvl, inputs, next, outs)[lvl + 1] == now;
    assert forall t :: t in now ==> t in kept || t in outs;
    assert LevelHit(outs, k) == MergedEntry(inputs + next, levels, lvl + 2, k);
    LevelHitSource(outs, k);
    LevelHitSource(levels[lvl + 1], k);
    var e := LevelHit(levels[lvl + 1], k);
    if e.Some? {
      var t :| t in levels[lvl + 1] && Holds(t, k, e.value);
      NotInNext(levels, lvl, inputs, next, t, k);
      assert t in kept;
      assert t in now;
    }
    LevelHitByMember(now, k, e);
  }

  lemma {:induction false} NotInNext(levels: Levels, lvl: nat, inputs: seq<Table>, next: seq<Table>, t: Table, k: Key)
    requires LevelsOk(levels) && IsPick(levels, lvl, inputs, next)
    requires t in levels[lvl + 1] && k in Data(t.entries) && Winner(inputs + next, k).None?
    ensures !HasId(next, t.id)
  {
    hide ValidTables, Disjoint, Winner, Overlapping;
    WinnerIsNewest(inputs + next, k);
    forall x | x in next ensures x.id != t.id {
      assert x in inputs + next;
      assert x in levels[lvl + 1];
    }
  }

  /** The heart of compaction: at the compacted level the first hit survives the install,
      except that a tombstone with nothing below it may go. */
  lemma {:induction false} InstallHitAtLevel(levels: Levels, lvl: nat, inputs: seq<Table>, next: seq<Table>,
                                             outs: seq<Table>, k: Key)
    requires LevelsOk(levels) && IsPick(levels, lvl, inputs, next)
    requires IsMerge(outs, inputs + next, levels, lvl + 2)
    requires FreshIds(outs, levels[lvl + 1])
    requires NewestFirst(levels, lvl, k)
    ensures Matches(LevelsHit(Installed(levels, lvl, inputs, next, outs), lvl, k), LevelsHit(levels, lvl, k))
  {
    hide ValidTables, Disjoint, DistinctIds, LevelHit, L0Hit, Winner, RemoveIds, SortTables, Overlapping, Lo, Hi,
         Data, Ascending;
    var after := Installed(levels, lvl, inputs, next, outs);
    var hit := InputHit(levels, lvl, inputs, next, outs, k);
    SameTail(levels, after, lvl + 2, k);
    assert LevelsHit(levels, lvl + 1, k) == Or(LevelHit(levels[lvl + 1], k), LevelsHit(levels, lvl + 2, k));
    assert LevelsHit(after, lvl + 1, k) == Or(LevelHit(after[lvl + 1], k), LevelsHit(after, lvl + 2, k));
    if HitAt(after, lvl, k).None? {
      if Winner(inputs + next, k).Some? {
        NextLevelMerged(levels, lvl, inputs, next, outs, k);
        WinnerIsFirstHit(levels, lvl, inputs, next, hit, k);
      } else {
        NextLevelKept(levels, lvl, inputs, next, outs, k);
        WinnerIsNewest(inputs + next, k);
        assert forall t :: t in inputs ==> t in inputs + next;
      }
    }
  }

  lemma {:induction false} WinnerIsFirstHit(levels: Levels, lvl: nat, inputs: seq<Table>, next: seq<Table>,
                         hit: Option<Entry>, k: Key)
    requires LevelsOk(levels) && IsPick(levels, lvl, inputs, next)
    requires hit.Some? ==> exists t :: t in inputs && Holds(t, k, hit.value)
    requires hit.None? ==> forall t :: t in inputs ==> k !in Data(t.entries)
    requires Winner(inputs + next, k).Some?
    requires LevelsHit(levels, lvl, k) == Or(hit, LevelsHit(levels, lvl + 1, k))
    requires NewestFirst(levels, lvl, k)
    ensures LevelsHit(levels, lvl, k) == Winner(inputs + next, k)
  {
    WinnerIsNewest(inputs + next, k);
    var w := Winner(inputs + next, k).value;
    var x :| x in inputs + next && Holds(x, k, w);
    if hit.Some? {
      var t :| t in inputs && Holds(t, k, hit.value);
      assert t in inputs + next;
      assert x in levels[lvl] || x in levels[lvl + 1];
    } else {
      assert x in levels[lvl + 1];
      LevelHitIs(levels[lvl + 1], k, x);
    }
  }

  /** Nothing new is stored by an install. */
  lemma {:induction false} InstalledFromStored(levels: Levels, lvl: nat, inputs: seq<Table>, next: seq<Table>,
                                               outs: seq<Table>,
                            l: nat, t: Table, k: Key)
    returns (l0: nat, t0: Table)
    requires LevelsOk(levels) && IsPick(levels, lvl, inputs, next)
    requires IsMerge(outs, inputs + next, levels, lvl + 2)
    requires l < |levels| && t in Installed(levels, lvl, inputs, next, outs)[l] && k in Data(t.entries)
    ensures l0 < |levels| && t0 in levels[l0] && Holds(t0, k, Data(t.entries)[k])
    ensures l0 == l || (l == lvl + 1 && l0 == lvl)
  {
    hide Disjoint, DistinctIds, LevelHit, Winner, RemoveIds, SortTables;
    l0, t0 := l, t;
    if l == lvl + 1 && t !in levels[lvl + 1] {
      assert t in outs;
      LevelHitIs(outs, k, t);
      assert LevelHit(outs, k) == MergedEntry(inputs + next, levels, lvl + 2, k);
      WinnerIsNewest(inputs + next, k);
      t0 :| t0 in inputs + next && Holds(t0, k, Winner(inputs + next, k).value);
      l0 := if t0 in inputs then lvl else lvl + 1;
    }
  }

  /** Seen from any level at or above it, an install changes no answer. */
  lemma {:induction false} InstallKeepsHits(levels: Levels, lvl: nat, inputs: seq<Table>, next: seq<Table>,
                                            outs: seq<Table>, i: nat, k: Key)
    requires LevelsOk(levels) && IsPick(levels, lvl, inputs, next)
    requires IsMerge(outs, inputs + next, levels, lvl + 2)
    requires FreshIds(outs, levels[lvl + 1])
    requires i <= lvl && NewestFirst(levels, i, k)
    ensures Matches(LevelsHit(Installed(levels, lvl, inputs, next, outs), i, k), LevelsHit(levels, i, k))
    decreases lvl - i
  {
    hide ValidTables, Disjoint, DistinctIds, LevelHit, L0Hit, Winner, RemoveIds, SortTables, Overlapping, Lo, Hi,
         Data, Ascending;
    if i == lvl {
      InstallHitAtLevel(levels, lvl, inputs, next, outs, k);
    } else if HitAt(levels, i, k).None? {
      assert NewestFirst(levels, i + 1, k);
      InstallKeepsHits(levels, lvl, inputs, next, outs, i + 1, k);
    }
  }

  lemma {:induction false} InstallKeepsNewestFirst(levels: Levels, lvl: nat, inputs: seq<Table>, next: seq<Table>,
                                outs: seq<Table>, i: nat, k: Key)
    requires LevelsOk(levels) && IsPick(levels, lvl, inputs, next)
    requires IsMerge(outs, inputs + next, levels, lvl + 2)
    requires FreshIds(outs, levels[lvl + 1])
    requires i <= lvl && NewestFirst(levels, i, k)
    ensures NewestFirst(Installed(levels, lvl, inputs, next, outs), i, k)
  {
    InstallKeepsHits(levels, lvl, inputs, next, outs, i, k);
    var after := Installed(levels, lvl, inputs, next, outs);
    var hit := LevelsHit(after, i, k);
    if hit.Some? {
      forall l, t: Table | i <= l < |after| && t in after[l] && k in Data(t.entries)
        ensures Data(t.entries)[k] == hit.value || Data(t.entries)[k].sn < hit.value.sn
      {
        var l0, t0 := InstalledFromStored(levels, lvl, inputs, next, outs, l, t, k);
      }
    }
  }
}
