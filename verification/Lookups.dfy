/** The lookup loops, each proved to find the first hit in lookup order. */
module Lookups {
  import opened Bytes
  import opened Lsm
  import opened MemTables

  /** What the immutable memtables hold, oldest first. */
  ghost function Snapshot(ms: seq<MemTable>): (r: seq<Source>)
    reads ms
    ensures |r| == |ms| && forall i :: 0 <= i < |ms| ==> r[i] == ms[i].contents
  {
    if ms == [] then [] else Snapshot(ms[..|ms| - 1]) + [ms[|ms| - 1].contents]
  }

  /** Newest first. */
  method ImmutableGet(ms: seq<MemTable>, k: Key) returns (r: Option<Entry>)
    requires forall m :: m in ms ==> m.Valid()
    ensures r == ImmHit(Snapshot(ms), k)
  {
    hide MemTable.Valid, Snapshot, ImmHit;
    r := None;
    ghost var all := Snapshot(ms);
    assert all[..|ms|] == all;
    for i := |ms| downto 0
      invariant r.None? && ImmHit(all, k) == ImmHit(all[..i], k)
    {
      ImmHitAt(all, i, k);
      assert ms[i] in ms;
      r := ms[i].Get(k);
      if r.Some? { return; }
    }
    NoImmutables(k);
  }

  lemma {:induction false} ImmHitAt(all: seq<Source>, i: nat, k: Key)
    requires i < |all|
    ensures ImmHit(all[..i + 1], k) == Or(Find(all[i], k), ImmHit(all[..i], k))
  {
    assert all[..i + 1][..i] == all[..i];
  }

  lemma {:induction false} NoImmutables(k: Key)
    ensures ImmHit([], k) == None
  {
  }

  /** Newest first: every table of level 0 may hold the key. */
  method LevelZeroGet(ts: seq<Table>, k: Key) returns (r: Option<Entry>)
    ensures r == L0Hit(ts, k)
  {
    hide Data;
    assert ts[..|ts|] == ts;
    r := None;
    for i := |ts| downto 0
      invariant r.None? && L0Hit(ts, k) == L0Hit(ts[..i], k)
    {
      assert ts[..i + 1][..i] == ts[..i];
      r := Find(Data(ts[i].entries), k);
      if r.Some? { return; }
    }
  }

  /** A table is asked only if the key lies in its range; outside it cannot hold the key. */
  method LevelGet(ts: seq<Table>, k: Key) returns (r: Option<Entry>)
    requires ValidTables(ts)
    ensures r == LevelHit(ts, k)
  {
    hide Data, ValidTable;
    r := None;
    for i := 0 to |ts|
      invariant r.None? && LevelHit(ts, k) == LevelHit(ts[i..], k)
    {
      assert ts[i..][1..] == ts[i + 1..];
      if AtMost(Smallest(ts[i]), k) && AtMost(k, Largest(ts[i])) {
        r := Find(Data(ts[i].entries), k);
        if r.Some? { return; }
      } else if k in Data(ts[i].entries) {
        KeyInRange(ts[i], k);
      }
    }
  }

  method TablesGet(levels: Levels, k: Key) returns (r: Option<Entry>)
    requires levels != [] && forall l :: 0 <= l < |levels| ==> ValidTables(levels[l])
    ensures r == LevelsHit(levels, 0, k)
  {
    hide Data, ValidTables, L0Hit, LevelHit;
    r := LevelZeroGet(levels[0], k);
    if r.Some? { return; }
    for l := 1 to |levels|
      invariant r.None? && LevelsHit(levels, 0, k) == LevelsHit(levels, l, k)
    {
      r := LevelGet(levels[l], k);
      if r.Some? { return; }
    }
    r := None;
  }
}
