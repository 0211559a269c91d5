/** Erasing tables from a level, and the records of a list of log files. */
module Lists {
  import opened Lsm
  import opened Compaction

  /** Erases the first table with the id. */
  function EraseId(ts: seq<Table>, id: nat): seq<Table> {
    if ts == [] then []
    else if ts[0].id == id then ts[1..]
    else [ts[0]] + EraseId(ts[1..], id)
  }

  lemma {:induction false} RemoveConcat(a: seq<Table>, b: seq<Table>, gone: seq<Table>)
    ensures RemoveIds(a + b, gone) == RemoveIds(a, gone) + RemoveIds(b, gone)
  {
    hide HasId;
    if b == [] {
      assert a + b == a;
    } else {
      var n := |b| - 1;
      RemoveConcat(a, b[..n], gone);
      assert (a + b)[..|a + b| - 1] == a + b[..n];
    }
  }

  lemma {:induction false} RemoveOne(t: Table, gone: seq<Table>)
    ensures RemoveIds([t], gone) == if HasId(gone, t.id) then [] else [t]
  {
    hide HasId;
    assert [t][..0] == [];
  }

  lemma {:induction false} HasIdOne(x: Table, id: nat)
    ensures HasId([x], id) <==> x.id == id
  {
    assert x in [x];
  }

  /** With distinct ids, erasing one table is removing its id. */
  lemma {:induction false} EraseIsRemove(ts: seq<Table>, x: Table)
    requires DistinctIds(ts)
    ensures EraseId(ts, x.id) == RemoveIds(ts, [x])
  {
    hide RemoveIds, HasId;
    if ts == [] {
      RemoveKeepsAll([], [x]);
    } else {
      assert ts == [ts[0]] + ts[1..];
      RemoveConcat([ts[0]], ts[1..], [x]);
      RemoveOne(ts[0], [x]);
      HasIdOne(x, ts[0].id);
      if ts[0].id == x.id {
        forall i | 0 <= i < |ts[1..]| ensures !HasId([x], ts[1..][i].id) { HasIdOne(x, ts[1..][i].id); }
        RemoveKeepsAll(ts[1..], [x]);
      } else {
        EraseIsRemove(ts[1..], x);
      }
    }
  }

  lemma {:induction false} RemoveKeepsAll(ts: seq<Table>, gone: seq<Table>)
    requires forall i :: 0 <= i < |ts| ==> !HasId(gone, ts[i].id)
    ensures RemoveIds(ts, gone) == ts
  {
    hide HasId;
    if ts == [] {
    } else {
      RemoveKeepsAll(ts[..|ts| - 1], gone);
    }
  }

  lemma {:induction false} RemoveSnoc(ts: seq<Table>, t: Table, gone: seq<Table>)
    ensures RemoveIds(ts + [t], gone) == if HasId(gone, t.id) then RemoveIds(ts, gone) else RemoveIds(ts, gone) + [t]
  {
    hide HasId;
    assert (ts + [t])[..|ts|] == ts;
  }

  lemma {:induction false} RemoveMore(ts: seq<Table>, gone: seq<Table>, x: Table)
    ensures RemoveIds(RemoveIds(ts, gone), [x]) == RemoveIds(ts, gone + [x])
  {
    hide HasId, RemoveIds;
    if ts == [] {
      RemoveKeepsAll([], gone);
      RemoveKeepsAll([], [x]);
      RemoveKeepsAll([], gone + [x]);
    } else {
      var n := |ts| - 1;
      RemoveMore(ts[..n], gone, x);
      assert ts == ts[..n] + [ts[n]];
      RemoveSnoc(ts[..n], ts[n], gone);
      RemoveSnoc(ts[..n], ts[n], gone + [x]);
      RemoveSnoc(RemoveIds(ts[..n], gone), ts[n], [x]);
      HasIdMore(gone, x, ts[n].id);
    }
  }

  lemma {:induction false} HasIdMore(gone: seq<Table>, x: Table, id: nat)
    ensures HasId(gone + [x], id) <==> HasId(gone, id) || HasId([x], id)
  {
    assert forall t :: t in gone + [x] <==> t in gone || t in [x];
  }

  /** Erases the inputs one by one. */
  method EraseInputs(ts: seq<Table>, gone: seq<Table>) returns (r: seq<Table>)
    requires ValidTables(ts) && DistinctIds(ts)
    ensures r == RemoveIds(ts, gone)
  {
    hide RemoveIds, EraseId, ValidTables, DistinctIds;
    r := ts;
    RemoveNone(ts);
    for i := 0 to |gone|
      invariant r == RemoveIds(ts, gone[..i])
    {
      RemoveKeepsOrder(ts, gone[..i]);
      EraseIsRemove(r, gone[i]);
      RemoveMore(ts, gone[..i], gone[i]);
      assert gone[..i + 1] == gone[..i] + [gone[i]];
      r := EraseId(r, gone[i].id);
    }
    assert gone[..|gone|] == gone;
  }

  lemma {:induction false} RemoveNone(ts: seq<Table>)
    ensures RemoveIds(ts, []) == ts
  {
    RemoveKeepsAll(ts, []);
  }

  // ---- Log files ----

  /** The records of all write-ahead logs, in id order. */
  function Concat(logs: seq<seq<KV>>): seq<KV> {
    if logs == [] then [] else Concat(logs[..|logs| - 1]) + logs[|logs| - 1]
  }

  lemma {:induction false} ConcatAppend(logs: seq<seq<KV>>, x: KV)
    requires logs != []
    ensures var n := |logs| - 1;
            Concat(logs[n := logs[n] + [x]]) == Concat(logs) + [x]
  {
    var n := |logs| - 1;
    var after := logs[n := logs[n] + [x]];
    assert after[..n] == logs[..n];
    assert Concat(logs[..n]) + (logs[n] + [x]) == Concat(logs[..n]) + logs[n] + [x];
  }

  lemma {:induction false} ConcatNew(logs: seq<seq<KV>>)
    ensures Concat(logs + [[]]) == Concat(logs)
  {
    assert (logs + [[]])[..|logs|] == logs;
  }

  lemma {:induction false} ConcatPrefix(logs: seq<seq<KV>>, i: nat)
    requires i < |logs|
    ensures Concat(logs[..i + 1]) == Concat(logs[..i]) + logs[i]
    ensures Concat(logs[..i + 1]) <= Concat(logs)
    decreases |logs|
  {
    var n := |logs| - 1;
    if i == n {
      assert logs[..i + 1] == logs;
    } else {
      ConcatPrefix(logs[..n], i);
      assert logs[..n][..i + 1] == logs[..i + 1] && logs[..n][..i] == logs[..i];
      assert Concat(logs) == Concat(logs[..n]) + logs[n];
    }
  }

  /** The records of file `i` stand, in order, behind those of the files before it. */
  lemma {:induction false} ConcatThrough(logs: seq<seq<KV>>, i: nat)
    requires i < |logs|
    ensures Concat(logs[..i + 1]) == Concat(logs[..i]) + logs[i] && Concat(logs[..i + 1]) <= Concat(logs)
    ensures forall j :: 0 <= j < |logs[i]| ==>
              |Concat(logs[..i])| + j < |Concat(logs)| && Concat(logs)[|Concat(logs[..i])| + j] == logs[i][j]
  {
    hide Concat;
    ConcatPrefix(logs, i);
    var before, through := Concat(logs[..i]), Concat(logs[..i + 1]);
    forall j | 0 <= j < |logs[i]| ensures through[|before| + j] == logs[i][j] { }
  }
}
