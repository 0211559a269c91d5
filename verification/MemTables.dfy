/** The memtable: the tree with its memory accounting. */
module MemTables {
  import opened Bytes
  import opened Lsm
  import opened AvlTree
  import M = AvlModel

  /** sizeof(InternalEntry) and the estimate for the rest of a node. */
  const ENTRY_SIZE: nat := 40
  const NODE_OVERHEAD: nat := 48

  function EntryMemory(k: Key): nat {
    |k| + ENTRY_SIZE + NODE_OVERHEAD
  }

  /** The memory charged for a list of entries: every key once. */
  function Footprint(es: seq<KV>): nat {
    if es == [] then 0 else EntryMemory(es[0].key) + Footprint(es[1..])
  }

  lemma {:induction false} FootprintConcat(a: seq<KV>, b: seq<KV>)
    ensures Footprint(a + b) == Footprint(a) + Footprint(b)
  {
    if a == [] {
      assert a + b == b;
    } else {
      FootprintConcat(a[1..], b);
      assert (a + b)[1..] == a[1..] + b;
    }
  }

  /** A new key is charged, an overwritten one is not charged again. */
  lemma {:induction false} FootprintInsert(es: seq<KV>, x: KV)
    requires Ascending(es)
    ensures Footprint(M.ListInsert(es, x)) == Footprint(es) + if x.key in Data(es) then 0 else EntryMemory(x.key)
  {
    hide Less, Ascending, Data, M.ListInsert, M.ListRemove, Footprint;
    var a, mid, b := M.ListSplit(es, x);
    M.NotInSides(a, b, x.key);
    FootprintConcat(a + mid, b);
    FootprintConcat(a, mid);
    FootprintConcat(a + [x], b);
    FootprintConcat(a, [x]);
    FootprintOne(x);
    if mid == [] {
      FootprintNone();
      assert a + mid == a;
    } else {
      FootprintOne(mid[0]);
      assert mid == [mid[0]];
      M.DataMiddle(a, mid[0], b);
    }
  }

  lemma {:induction false} FootprintOne(x: KV)
    ensures Footprint([x]) == |x.key| + 88
  {
  }

  /** The lengths of the keys, added up. */
  function KeyBytes(es: seq<KV>): nat {
    if es == [] then 0 else KeyBytes(es[..|es| - 1]) + |es[|es| - 1].key|
  }

  /** Every key costs its length and 88 bytes. */
  lemma {:induction false} FootprintIs(es: seq<KV>)
    ensures Footprint(es) == KeyBytes(es) + 88 * |es|
  {
    hide Footprint;
    if es == [] {
      FootprintNone();
    } else {
      var n := |es| - 1;
      assert es == es[..n] + [es[n]];
      FootprintConcat(es[..n], [es[n]]);
      FootprintOne(es[n]);
      FootprintIs(es[..n]);
    }
  }

  lemma FootprintNone()
    ensures Footprint([]) == 0
  {
  }

  class MemTable {
    const sizeLimit: nat
    const tree: Tree
    var memoryUsage: nat
    ghost var contents: Source
    ghost var repr: set<object>

    ghost predicate Valid()
      reads this, repr
    {
      && this in repr && tree in repr && (tree.root != null ==> tree.root in repr)
      && tree.Repr() <= repr && this !in tree.Repr()
      && tree.Valid() && contents == tree.Contents() && memoryUsage == Footprint(tree.Entries())
    }

    constructor (limit: nat)
      ensures Valid() && this in repr && fresh(repr) && contents == map[] && sizeLimit == limit
    {
      sizeLimit := limit;
      tree := new Tree();
      memoryUsage := 0;
      contents := map[];
      new;
      repr := {this} + tree.Repr();
    }

    /** Inserts or overwrites; the tree is asked first whether the key is there. */
    method Set(k: Key, e: Entry)
      requires Valid()
      modifies repr
      ensures Valid() && this in repr && fresh(repr - old(repr))
      ensures contents == old(contents)[k := e]
    {
      hide Node.Valid, Data, Ascending, M.ListInsert, M.InOrder, M.Balanced, Footprint;
      FootprintInsert(tree.Entries(), KV(k, e));
      var found := tree.Find(k);
      tree.Insert(k, e);
      if found.None? { memoryUsage := memoryUsage + EntryMemory(k); }
      contents := tree.Contents();
      repr := {this} + tree.Repr();
    }

    method Put(k: Key, ptr: Ptr, sn: nat)
      requires Valid()
      modifies repr
      ensures Valid() && this in repr && fresh(repr - old(repr))
      ensures contents == old(contents)[k := Entry.Put(sn, ptr)]
    {
      Set(k, Entry.Put(sn, ptr));
    }

    method Delete(k: Key, sn: nat)
      requires Valid()
      modifies repr
      ensures Valid() && this in repr && fresh(repr - old(repr))
      ensures contents == old(contents)[k := Del(sn)]
    {
      Set(k, Del(sn));
    }

    method Get(k: Key) returns (r: Option<Entry>)
      requires Valid()
      ensures r == Find(contents, k)
    {
      r := tree.Find(k);
    }

    /** Full when the distinct keys cost as much as the limit. */
    ghost predicate Full()
      requires Valid()
      reads this, repr
    {
      Footprint(tree.Entries()) >= sizeLimit
    }

    /** Full when the lengths of the distinct keys and 88 bytes for each of them reach the limit. */
    method ShouldFlush() returns (full: bool)
      requires Valid()
      ensures full <==> Full()
      ensures full <==> KeyBytes(tree.Entries()) + 88 * |contents| >= sizeLimit
    {
      hide Footprint, Node.Valid, Ascending, M.InOrder, M.Balanced;
      FootprintIs(tree.Entries());
      M.DataSize(tree.Entries());
      full := memoryUsage >= sizeLimit;
    }

    method Count() returns (n: nat)
      requires Valid()
      ensures n == |contents|
    {
      M.DataSize(tree.Entries());
      n := tree.size;
    }

    /** The memtable's map as the strictly sorted list that a table writer requires. */
    method GetSortedEntries() returns (es: seq<KV>)
      requires Valid()
      ensures Ascending(es) && Data(es) == contents
    {
      es := Walk(tree);
    }
  }
}
