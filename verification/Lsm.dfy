/** Entries, sorted tables, levels, and the order in which a lookup visits them. */
module Lsm {
  import opened Bytes

  type Value = seq<byte>

  /** A place in the value log: a segment and the position of a record in it. */
  datatype Ptr = Ptr(file: nat, index: nat)

  /** An InternalEntry: sequence number, and either a value pointer or a tombstone. */
  datatype Entry = Put(sn: nat, ptr: Ptr) | Del(sn: nat)

  datatype KV = KV(key: Key, entry: Entry)

  type Source = map<Key, Entry>

  datatype Table = Table(id: nat, entries: seq<KV>)

  type Levels = seq<seq<Table>>

  /** The map a list of entries builds when applied in order: what a memtable holds after a replay,
      and what a table holds. */
  function Data(es: seq<KV>): Source {
    if es == [] then map[]
    else
      var n := |es| - 1;
      Data(es[..n])[es[n].key := es[n].entry]
  }

  /** What the map holds was in the list. */
  lemma {:induction false} DataSource(es: seq<KV>, k: Key)
    requires k in Data(es)
    ensures KV(k, Data(es)[k]) in es
  {
    var n := |es| - 1;
    assert es == es[..n] + [es[n]];
    if k != es[n].key { DataSource(es[..n], k); }
  }

  lemma {:induction false} DataSnoc(es: seq<KV>, x: KV)
    ensures Data(es + [x]) == Data(es)[x.key := x.entry]
  {
    assert (es + [x])[..|es|] == es;
  }

  predicate Ascending(es: seq<KV>) {
    forall i, j :: 0 <= i < j < |es| ==> Less(es[i].key, es[j].key)
  }

  /** In an ascending list no entry shadows another. */
  lemma {:induction false} AscendingData(es: seq<KV>, i: nat)
    requires Ascending(es) && i < |es|
    ensures es[i].key in Data(es) && Data(es)[es[i].key] == es[i].entry
  {
    var n := |es| - 1;
    if i < n {
      AscendingData(es[..n], i);
      assert Less(es[i].key, es[n].key);
      assert es[..n][i] == es[i];
    }
  }

  predicate ValidTable(t: Table) {
    t.entries != [] && Ascending(t.entries)
  }

  function Smallest(t: Table): Key {
    if t.entries == [] then [] else t.entries[0].key
  }

  function Largest(t: Table): Key {
    if t.entries == [] then [] else t.entries[|t.entries| - 1].key
  }

  lemma {:induction false} KeyInRange(t: Table, k: Key)
    requires ValidTable(t) && k in Data(t.entries)
    ensures AtMost(Smallest(t), k) && AtMost(k, Largest(t))
  {
    DataSource(t.entries, k);
    var i :| 0 <= i < |t.entries| && t.entries[i] == KV(k, Data(t.entries)[k]);
  }

  // ---- Lookup ----

  function Find(m: Source, k: Key): Option<Entry> {
    if k in m then Some(m[k]) else None
  }

  function Or(a: Option<Entry>, b: Option<Entry>): Option<Entry> {
    if a.Some? then a else b
  }

  /** Newest first: immutable memtables are pushed at the back. */
  function ImmHit(ms: seq<Source>, k: Key): (r: Option<Entry>)
    ensures r.Some? ==> exists i :: 0 <= i < |ms| && k in ms[i] && ms[i][k] == r.value
  {
    if ms == [] then None
    else
      var n := |ms| - 1;
      Or(Find(ms[n], k), ImmHit(ms[..n], k))
  }

  /** Newest first: level 0 is in arrival order. */
  function L0Hit(ts: seq<Table>, k: Key): Option<Entry> {
    if ts == [] then None
    else
      var n := |ts| - 1;
      Or(Find(Data(ts[n].entries), k), L0Hit(ts[..n], k))
  }

  /** In key order: level 1 and below. */
  function LevelHit(ts: seq<Table>, k: Key): Option<Entry> {
    if ts == [] then None
    else Or(Find(Data(ts[0].entries), k), LevelHit(ts[1..], k))
  }

  function HitAt(levels: Levels, l: nat, k: Key): Option<Entry>
    requires l < |levels|
  {
    if l == 0 then L0Hit(levels[0], k) else LevelHit(levels[l], k)
  }

  /** The first hit at level `l` or below. */
  function LevelsHit(levels: Levels, l: nat, k: Key): Option<Entry>
    decreases |levels| - l
  {
    if l >= |levels| then None
    else Or(HitAt(levels, l, k), LevelsHit(levels, l + 1, k))
  }

  /** A deletion reads the same as nothing at all. */
  predicate Matches(seen: Option<Entry>, current: Option<Entry>) {
    seen == current || (seen.None? && current.value.Del?)
  }

  lemma {:induction false} ImmHitFront(ms: seq<Source>, k: Key)
    requires ms != []
    ensures ImmHit(ms, k) == Or(ImmHit(ms[1..], k), Find(ms[0], k))
  {
    var n := |ms| - 1;
    if n > 0 {
      ImmHitFront(ms[..n], k);
      var tail := ms[1..];
      assert ms[..n][1..] == tail[..n - 1] && tail[n - 1] == ms[n] && ms[..n][0] == ms[0];
    } else {
      assert ms[..n] == [] && ms[1..] == [];
    }
  }

  lemma {:induction false} L0HitConcat(a: seq<Table>, b: seq<Table>, k: Key)
    ensures L0Hit(a + b, k) == Or(L0Hit(b, k), L0Hit(a, k))
  {
    if b == [] {
      assert a + b == a;
    } else {
      var n := |b| - 1;
      L0HitConcat(a, b[..n], k);
      assert (a + b)[..|a + b| - 1] == a + b[..n];
    }
  }

  predicate Holds(t: Table, k: Key, e: Entry) {
    k in Data(t.entries) && Data(t.entries)[k] == e
  }

  /** A hit comes from some table of the level, and a miss means that no table holds the key. */
  lemma {:induction false} HitAtSource(levels: Levels, l: nat, k: Key)
    requires l < |levels|
    ensures HitAt(levels, l, k).Some? ==> exists t :: t in levels[l] && Holds(t, k, HitAt(levels, l, k).value)
    ensures HitAt(levels, l, k).None? ==> forall t :: t in levels[l] ==> k !in Data(t.entries)
  {
    if l == 0 { L0HitSource(levels[0], k); } else { LevelHitSource(levels[l], k); }
  }

  lemma {:induction false} L0HitSource(ts: seq<Table>, k: Key)
    ensures L0Hit(ts, k).Some? ==> exists t :: t in ts && Holds(t, k, L0Hit(ts, k).value)
    ensures L0Hit(ts, k).None? ==> forall t :: t in ts ==> k !in Data(t.entries)
  {
    if ts == [] {
    } else {
      var n := |ts| - 1;
      L0HitSource(ts[..n], k);
      assert ts == ts[..n] + [ts[n]];
      if k in Data(ts[n].entries) {
        assert Holds(ts[n], k, L0Hit(ts, k).value);
      }
    }
  }

  lemma {:induction false} LevelHitSource(ts: seq<Table>, k: Key)
    ensures LevelHit(ts, k).Some? ==> exists t :: t in ts && Holds(t, k, LevelHit(ts, k).value)
    ensures LevelHit(ts, k).None? ==> forall t :: t in ts ==> k !in Data(t.entries)
  {
    if ts == [] {
    } else {
      LevelHitSource(ts[1..], k);
      assert ts == [ts[0]] + ts[1..];
      if k in Data(ts[0].entries) {
        assert Holds(ts[0], k, LevelHit(ts, k).value);
      }
    }
  }

  /** The same over all levels from `l` down. */
  lemma {:induction false} LevelsHitSource(levels: Levels, l: nat, k: Key)
    ensures LevelsHit(levels, l, k).Some? ==>
              exists i, t :: l <= i < |levels| && t in levels[i] && Holds(t, k, LevelsHit(levels, l, k).value)
    ensures LevelsHit(levels, l, k).None? ==>
              forall i, t :: l <= i < |levels| && t in levels[i] ==> k !in Data(t.entries)
    decreases |levels| - l
  {
    if l < |levels| {
      HitAtSource(levels, l, k);
      LevelsHitSource(levels, l + 1, k);
    }
  }

  // ---- Sorted levels ----

  predicate ValidTables(ts: seq<Table>) {
    forall i :: 0 <= i < |ts| ==> ValidTable(ts[i])
  }

  /** Sorted by smallest key, with pairwise disjoint key ranges. */
  predicate Disjoint(ts: seq<Table>) {
    forall i, j :: 0 <= i < j < |ts| ==> Less(Largest(ts[i]), Smallest(ts[j]))
  }

  predicate DistinctIds(ts: seq<Table>) {
    forall i, j :: 0 <= i < j < |ts| ==> ts[i].id != ts[j].id
  }

  predicate LevelsOk(levels: Levels) {
    && |levels| >= 1
    && (forall l :: 0 <= l < |levels| ==> ValidTables(levels[l]) && DistinctIds(levels[l]))
    && (forall l :: 1 <= l < |levels| ==> Disjoint(levels[l]))
  }

  /** At most one table of a sorted level can hold a key, so which one is asked first is immaterial. */
  lemma {:induction false} LevelHitIs(ts: seq<Table>, k: Key, t: Table)
    requires ValidTables(ts) && Disjoint(ts)
    requires t in ts && k in Data(t.entries)
    ensures LevelHit(ts, k) == Some(Data(t.entries)[k])
  {
    if t != ts[0] {
      var j :| 1 <= j < |ts| && ts[j] == t;
      assert ts[1..][j - 1] == t;
      LevelHitIs(ts[1..], k, t);
      assert k !in Data(ts[0].entries) by {
        KeyInRange(t, k);
        assert Less(Largest(ts[0]), Smallest(ts[j]));
        if k in Data(ts[0].entries) {
          KeyInRange(ts[0], k);
        }
      }
    }
  }
}
