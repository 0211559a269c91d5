/** Sorted tables: the writer, point lookups and the iterator, against the list of entries written. */
module SSTables {
  import opened Bytes
  import opened Coding
  import opened Pointers
  import opened TableFormat
  import Bloom

  predicate Ascending(es: seq<Entry>) {
    forall i, j :: 0 <= i < j < |es| ==> Less(es[i].key, es[j].key)
  }

  /** Lookup in a list: the reference for the table's. */
  function Lookup(es: seq<Entry>, k: Key): Option<Entry> {
    if es == [] then None
    else if es[0].key == k then Some(es[0])
    else Lookup(es[1..], k)
  }

  lemma {:induction false} LookupHit(es: seq<Entry>, i: nat)
    requires Ascending(es) && i < |es|
    ensures Lookup(es, es[i].key) == Some(es[i])
  {
    hide Rank;
    if i == 0 {
    } else {
      assert Less(es[0].key, es[i].key);
      assert es[1..][i - 1] == es[i];
      LookupHit(es[1..], i - 1);
    }
  }

  lemma {:induction false} LookupMiss(es: seq<Entry>, k: Key)
    requires forall i :: 0 <= i < |es| ==> es[i].key != k
    ensures Lookup(es, k) == None
  {
    if es == [] {
    } else {
      LookupMiss(es[1..], k);
    }
  }

  // ---- The sparse index ----

  /** Index entry j is the key and offset of entry `at[j]`; the first entry is indexed. */
  ghost predicate IsIndex(xs: seq<IndexEntry>, es: seq<Entry>, at: seq<nat>) {
    && |xs| == |at| && (es != [] ==> |at| > 0 && at[0] == 0) && (es == [] ==> at == [])
    && (forall j :: 0 <= j < |at| ==>
          at[j] < |es| && xs[j].key == es[at[j]].key && xs[j].offset == Offset(es, at[j]))
    && (forall i, j :: 0 <= i < j < |at| ==> at[i] < at[j])
  }

  /** Every `step`-th entry. */
  predicate EveryStep(at: seq<nat>, step: nat, count: nat) {
    && (forall j :: 0 <= j < |at| - 1 ==> at[j + 1] == at[j] + step)
    && (at != [] ==> at[|at| - 1] < count <= at[|at| - 1] + step)
  }

  // ---- An opened table ----

  ghost predicate Fits(es: seq<Entry>) {
    forall i :: 0 <= i < |es| ==> |es[i].key| < TWO_32
  }

  function Keys(es: seq<Entry>): (ks: seq<Key>)
    ensures |ks| == |es| && forall i :: 0 <= i < |es| ==> ks[i] == es[i].key
  {
    seq(|es|, i requires 0 <= i < |es| => es[i].key)
  }

  ghost predicate FilterOk(bloom: seq<byte>, es: seq<Entry>, hashes: nat, hash: Bloom.Hash) {
    if es == [] then bloom == [] else Bloom.IsFilter(bloom, Keys(es), hashes, hash)
  }

  /** The reader stands for the list `es`. */
  ghost predicate Reads(r: Reader, es: seq<Entry>, at: seq<nat>, hash: Bloom.Hash) {
    && Ascending(es) && Fits(es)
    && DataBlock(es) <= r.file && r.dataEnd == |DataBlock(es)|
    && IsIndex(r.index, es, at) && FilterOk(r.bloom, es, r.hashes, hash)
  }

  // ---- Lookup ----

  /** Key and index separate the list at block `b`: the key can only lie in that block. */
  ghost predicate Separates(xs: seq<IndexEntry>, b: nat, k: Key) {
    && b < |xs|
    && (b > 0 ==> AtMost(xs[b].key, k))
    && (b + 1 < |xs| ==> Less(k, xs[b + 1].key))
  }

  ghost predicate SortedIndex(xs: seq<IndexEntry>) {
    forall i, j :: 0 <= i < j < |xs| ==> Less(xs[i].key, xs[j].key)
  }

  lemma {:induction false} IndexIsSorted(xs: seq<IndexEntry>, es: seq<Entry>, at: seq<nat>)
    requires Ascending(es) && IsIndex(xs, es, at)
    ensures SortedIndex(xs)
  {
    hide Less, Offset;
    forall i, j | 0 <= i < j < |xs| ensures Less(xs[i].key, xs[j].key) {
      assert at[i] < at[j];
    }
  }

  /** The binary search picks the only block that could hold the key. */
  method FindBlock(xs: seq<IndexEntry>, k: Key) returns (block: nat)
    requires xs != [] && SortedIndex(xs)
    ensures Separates(xs, block, k)
  {
    hide Rank;
    var left, right := 0, |xs| - 1;
    block := 0;
    while left <= right
      invariant 0 <= left <= right + 1 <= |xs|
      invariant block == if left == 0 then 0 else left - 1
      invariant left > 0 ==> Less(xs[left - 1].key, k)
      invariant right + 1 < |xs| ==> Less(k, xs[right + 1].key)
      decreases right - left
    {
      var mid := left + (right - left) / 2;
      if xs[mid].key == k {
        block := mid;
        assert mid + 1 < |xs| ==> Less(xs[mid].key, xs[mid + 1].key);
        return;
      } else if Less(xs[mid].key, k) {
        block, left := mid, mid + 1;
      } else {
        RankIsLexicographic(xs[mid].key, k);
        right := mid - 1;
      }
    }
  }

  /** Where block `b` ends in the list. */
  function BlockEnd(es: seq<Entry>, at: seq<nat>, b: nat): nat
    requires b < |at|
  {
    if b + 1 < |at| then at[b + 1] else |es|
  }

  lemma {:induction false} OnlyInBlock(xs: seq<IndexEntry>, es: seq<Entry>, at: seq<nat>, b: nat, k: Key, i: nat)
    requires Ascending(es) && IsIndex(xs, es, at) && Separates(xs, b, k) && i < |es| && es[i].key == k
    ensures at[b] <= i < BlockEnd(es, at, b)
  {
    hide Rank, Offset;
    BelowBlock(xs, es, at, b, k);
    AboveBlock(xs, es, at, b, k);
  }

  lemma {:induction false} BelowBlock(xs: seq<IndexEntry>, es: seq<Entry>, at: seq<nat>, b: nat, k: Key)
    requires Ascending(es) && IsIndex(xs, es, at) && Separates(xs, b, k)
    ensures forall i :: 0 <= i < at[b] ==> Less(es[i].key, k)
  {
    hide Rank, Offset;
    forall i | 0 <= i < at[b] ensures Less(es[i].key, k) {
      assert Less(es[i].key, es[at[b]].key);
    }
  }

  lemma {:induction false} AboveBlock(xs: seq<IndexEntry>, es: seq<Entry>, at: seq<nat>, b: nat, k: Key)
    requires Ascending(es) && IsIndex(xs, es, at) && Separates(xs, b, k)
    ensures forall i :: BlockEnd(es, at, b) <= i < |es| ==> Less(k, es[i].key)
  {
    hide Rank, Offset;
    forall i | BlockEnd(es, at, b) <= i < |es| ensures Less(k, es[i].key) {
      assert i > at[b + 1] ==> Less(es[at[b + 1]].key, es[i].key);
    }
  }

  /** Reads the i-th entry at its offset. */
  method ReadNth(r: Reader, ghost es: seq<Entry>, ghost i: nat, offset: nat) returns (e: Entry, next: nat)
    requires DataBlock(es) <= r.file && Fits(es) && i < |es| && offset == Offset(es, i)
    ensures e == es[i] && next == Offset(es, i + 1)
  {
    hide DataBlock, ParseEntry;
    ReadsEntry(r.file, es, i);
    var p := ReadEntryAt(r.file, offset);
    e, next := p.value.entry, offset + p.value.size;
  }

  /** The linear scan of one block. */
  method ScanBlock(r: Reader, ghost es: seq<Entry>, ghost first: nat, ghost last: nat, start: nat, end: nat, k: Key)
    returns (found: Option<Entry>)
    requires Ascending(es) && Fits(es) && DataBlock(es) <= r.file && first <= last <= |es|
    requires start == Offset(es, first) && end == Offset(es, last)
    requires forall i :: 0 <= i < |es| && es[i].key == k ==> first <= i < last
    ensures found == Lookup(es, k)
  {
    hide Rank, DataBlock, ParseEntry, Offset;
    var offset := start;
    ghost var i := first;
    while offset < end
      invariant first <= i <= last && offset == Offset(es, i)
      invariant forall j :: first <= j < i ==> es[j].key != k
      decreases last - i
    {
      if i == last { assert false; }
      var e, next := ReadNth(r, es, i, offset);
      if e.key == k {
        LookupHit(es, i);
        return Some(e);
      }
      if Less(k, e.key) {
        assert forall j :: i < j < |es| ==> Less(es[i].key, es[j].key);
        LookupMiss(es, k);
        return None;
      }
      offset, i := next, i + 1;
    }
    if i < last { OffsetsGrow(es, i, last); }
    LookupMiss(es, k);
    return None;
  }

  /** A table lookup is lookup in the list it was written from. */
  method Get(r: Reader, k: Key, hash: Bloom.Hash, ghost es: seq<Entry>, ghost at: seq<nat>)
    returns (found: Option<Entry>)
    requires Reads(r, es, at, hash)
    ensures found == Lookup(es, k)
  {
    hide Rank, DataBlock, Bloom.IsFilter, Bloom.Passes, SortedIndex;
    if r.bloom != [] {
      var may := Bloom.MayContain(r.bloom, k, r.hashes, hash);
      if !may {
        RejectedIsAbsent(r, k, hash, es, at);
        return None;
      }
    }
    if r.index == [] {
      return None;
    }
    IndexIsSorted(r.index, es, at);
    var block := FindBlock(r.index, k);
    var end := if block + 1 < |r.index| then r.index[block + 1].offset else r.dataEnd;
    ghost var last := BlockEnd(es, at, block);
    forall i | 0 <= i < |es| && es[i].key == k ensures at[block] <= i < last {
      OnlyInBlock(r.index, es, at, block, k, i);
    }
    assert es[..|es|] == es;
    found := ScanBlock(r, es, at[block], last, r.index[block].offset, end, k);
  }

  lemma {:induction false} RejectedIsAbsent(r: Reader, k: Key, hash: Bloom.Hash, es: seq<Entry>, at: seq<nat>)
    requires Reads(r, es, at, hash) && r.bloom != [] && !Bloom.Passes(r.bloom, k, r.hashes, hash)
    ensures Lookup(es, k) == None
  {
    hide Bloom.IsFilter, Bloom.Passes, DataBlock;
    forall i | 0 <= i < |es| ensures es[i].key != k {
      if es[i].key == k {
        assert Keys(es)[i] == k;
        Bloom.NoFalseNegatives(r.bloom, Keys(es), r.hashes, hash, k);
      }
    }
    LookupMiss(es, k);
  }

  // ---- The writer ----

  lemma {:induction false} OffsetStays(es: seq<Entry>, e: Entry, i: nat)
    requires i <= |es|
    ensures Offset(es + [e], i) == Offset(es, i)
  {
    hide DataBlock;
    assert (es + [e])[..i] == es[..i];
  }

  lemma {:induction false} IndexStays(xs: seq<IndexEntry>, es: seq<Entry>, at: seq<nat>, e: Entry)
    requires IsIndex(xs, es, at) && es != []
    ensures IsIndex(xs, es + [e], at)
  {
    hide DataBlock, Offset;
    forall j | 0 <= j < |at| ensures Offset(es + [e], at[j]) == Offset(es, at[j]) { OffsetStays(es, e, at[j]); }
  }

  /** A new entry may be indexed at the end of the block written so far. */
  lemma {:induction false} IndexGrows(xs: seq<IndexEntry>, es: seq<Entry>, at: seq<nat>, e: Entry, offset: u64)
    requires IsIndex(xs, es, at) && offset == |DataBlock(es)|
    ensures IsIndex(xs + [IndexEntry(e.key, offset)], es + [e], at + [|es|])
  {
    hide DataBlock, Offset;
    forall j | 0 <= j < |at| ensures Offset(es + [e], at[j]) == Offset(es, at[j]) { OffsetStays(es, e, at[j]); }
    assert Offset(es + [e], |es|) == offset by { WholeOffset(es, e); }
  }

  lemma {:induction false} WholeOffset(es: seq<Entry>, e: Entry)
    ensures Offset(es + [e], |es|) == |DataBlock(es)|
  {
    hide DataBlock;
    assert (es + [e])[..|es|] == es;
  }

  /** The index of the entries written so far, `since` of them since the last indexed one. */
  ghost predicate Indexed(xs: seq<IndexEntry>, es: seq<Entry>, at: seq<nat>, interval: nat, since: nat) {
    && IsIndex(xs, es, at) && EveryStep(at, Step(interval), |es|)
    && (es != [] ==> since == |es| - at[|at| - 1])
  }

  function Step(interval: nat): nat {
    if interval == 0 then 1 else interval
  }

  lemma {:induction false} IndexNew(xs: seq<IndexEntry>, es: seq<Entry>, at: seq<nat>, interval: nat, since: nat,
                                    e: Entry, offset: u64)
    requires Indexed(xs, es, at, interval, since) && offset == |DataBlock(es)| && (es == [] || since >= interval)
    ensures Indexed(xs + [IndexEntry(e.key, offset)], es + [e], at + [|es|], interval, 1)
  {
    hide DataBlock, Offset;
    IndexGrows(xs, es, at, e, offset);
  }

  lemma {:induction false} IndexOld(xs: seq<IndexEntry>, es: seq<Entry>, at: seq<nat>, interval: nat, since: nat,
                                    e: Entry)
    requires Indexed(xs, es, at, interval, since) && es != [] && since < interval
    ensures Indexed(xs, es + [e], at, interval, since + 1)
  {
    hide DataBlock, Offset;
    IndexStays(xs, es, at, e);
  }

  class Writer {
    const interval: nat
    const bitsPerKey: nat
    const hash: Bloom.Hash
    var file: seq<byte>
    var count: nat
    var dataOffset: nat
    var smallest: Key
    var largest: Key
    var index: seq<IndexEntry>
    var sinceIndex: nat
    var keys: seq<Key>
    var finished: bool
    ghost var entries: seq<Entry>
    ghost var at: seq<nat>

    ghost predicate Valid()
      reads this
    {
      && (!finished ==> file == DataBlock(entries)) && dataOffset == |DataBlock(entries)| < TWO_64
      && keys == Keys(entries) && count == |entries| && Fits(entries)
      && Indexed(index, entries, at, interval, sinceIndex)
      && (count > 0 ==> smallest == entries[0].key && largest == entries[count - 1].key)
    }

    constructor (interval: nat, bitsPerKey: nat, hash: Bloom.Hash)
      ensures Valid() && entries == [] && !finished
      ensures this.interval == interval && this.bitsPerKey == bitsPerKey && this.hash == hash
    {
      this.interval, this.bitsPerKey, this.hash := interval, bitsPerKey, hash;
      file, count, dataOffset, smallest, largest := [], 0, 0, [], [];
      index, sinceIndex, keys, finished := [], 0, [], false;
      entries, at := [], [];
    }

    /** Indexes the entry if it is the first or the interval-th since the last indexed one. */
    method NoteEntry(e: Entry)
      requires Indexed(index, entries, at, interval, sinceIndex) && dataOffset == |DataBlock(entries)| < TWO_64
      requires count == |entries|
      modifies this`index, this`at, this`sinceIndex
      ensures Indexed(index, entries + [e], at, interval, sinceIndex)
    {
      hide DataBlock, Indexed;
      if count == 0 || sinceIndex >= interval {
        IndexNew(index, entries, at, interval, sinceIndex, e, dataOffset);
        index, at := index + [IndexEntry(e.key, dataOffset)], at + [|entries|];
        sinceIndex := 0;
      } else {
        IndexOld(index, entries, at, interval, sinceIndex, e);
      }
      sinceIndex := sinceIndex + 1;
    }

    /** Appends an entry. A finished table takes no more. */
    method Add(e: Entry) returns (ok: bool)
      requires Valid() && |e.key| < TWO_32 && dataOffset + |EncodeEntry(e)| < TWO_64
      modifies this
      ensures Valid() && ok == !old(finished) && finished == old(finished)
      ensures entries == if ok then old(entries) + [e] else old(entries)
    {
      hide DataBlock, EncodeEntry, Indexed, Keys;
      if finished { return false; }
      DataBlockSnoc(entries, e);
      KeysSnoc(entries, e);
      keys := keys + [e.key];
      if count == 0 { smallest := e.key; }
      largest := e.key;
      NoteEntry(e);
      var buf := EncodeEntry(e);
      file := file + buf;
      dataOffset := dataOffset + |buf|;
      count := count + 1;
      entries := entries + [e];
      ok := true;
    }

    /** Writes index, filter and footer. The file then opens as the table of exactly these entries. */
    method Finish() returns (ok: bool)
      requires Valid()
      requires dataOffset + |EncodeIndex(index)| + Bloom.FilterBytes(count, bitsPerKey) + 4 < TWO_64
      modifies this
      ensures Valid() && ok == !old(finished) && finished && entries == old(entries) && at == old(at)
      ensures ok && Ascending(entries) ==>
                OpenTable(file).Some? && Reads(OpenTable(file).value, entries, at, hash)
                && OpenTable(file).value.count == |entries|
    {
      hide DataBlock, EncodeIndex, OpenTable, Fixed32, Bloom.IsFilter, Bloom.FilterBytes, Bloom.NumHashes, Indexed,
           Ascending, Reads, TableFile;
      if finished { return false; }
      var indexBytes := EncodeIndex(index);
      var bits := Bloom.CreateFilter(keys, bitsPerKey, hash);
      var hashes := Bloom.NumHashes(bitsPerKey);
      var bloom := Fixed32(hashes) + bits;
      IndexedIsIndex(index, entries, at, interval, sinceIndex);
      if Ascending(entries) { FinishedOpens(entries, index, at, bits, hashes, hash); }
      file := TableFile(file, indexBytes, bloom, count);
      finished, ok := true, true;
    }
  }

  /** A file with these parts opens as the table of the entries. */
  lemma {:induction false} FinishedOpens(es: seq<Entry>, xs: seq<IndexEntry>, at: seq<nat>, bits: seq<byte>,
                                         hashes: u32, hash: Bloom.Hash)
    requires Ascending(es) && Fits(es) && IsIndex(xs, es, at) && FilterOk(bits, es, hashes, hash)
    requires |DataBlock(es)| + |EncodeIndex(xs)| + |bits| + 4 < TWO_64
    ensures var r := OpenTable(TableFile(DataBlock(es), EncodeIndex(xs), Fixed32(hashes) + bits, |es|));
            r.Some? && Reads(r.value, es, at, hash) && r.value.count == |es|
  {
    hide DataBlock, Offset, EncodeIndex, OpenTable, Fixed32, Less, FilterOk, TableFile;
    CountFits(es);
    IndexKeysFit(xs, es, at);
    OpenRoundTrip(DataBlock(es), xs, hashes, bits, |es|);
    FileStarts(DataBlock(es), EncodeIndex(xs), Fixed32(hashes) + bits, |es|);
  }

  lemma {:induction false} KeysSnoc(es: seq<Entry>, e: Entry)
    ensures Keys(es + [e]) == Keys(es) + [e.key]
  {
  }

  lemma {:induction false} CountFits(es: seq<Entry>)
    ensures |es| <= |DataBlock(es)|
  {
    if es == [] {
    } else {
      CountFits(es[..|es| - 1]);
    }
  }

  lemma {:induction false} IndexKeysFit(xs: seq<IndexEntry>, es: seq<Entry>, at: seq<nat>)
    requires IsIndex(xs, es, at) && Fits(es)
    ensures forall x :: x in xs ==> |x.key| < TWO_32
  {
    hide DataBlock, Offset;
    forall x | x in xs ensures |x.key| < TWO_32 {
      var j :| 0 <= j < |xs| && xs[j] == x;
    }
  }

  lemma {:induction false} FileStarts(data: seq<byte>, index: seq<byte>, bloom: seq<byte>, count: nat)
    ensures data <= TableFile(data, index, bloom, count)
  {
    hide Footer;
  }

  /** The index is never larger than the data it indexes. */
  lemma {:induction false} IndexIsSmall(xs: seq<IndexEntry>, es: seq<Entry>, at: seq<nat>, n: nat)
    requires IsIndex(xs, es, at) && n <= |xs|
    ensures |EncodeIndex(xs[..n])| <= if n == 0 then 0 else Offset(es, at[n - 1] + 1)
  {
    hide DataBlock, EncodeIndex, Offset, EncodeEntry, EncodeIndexEntry;
    if n == 0 {
      assert |EncodeIndex([])| == 0 by { NoIndex(); }
    } else {
      var j := n - 1;
      IndexIsSmall(xs, es, at, j);
      assert xs[..n] == xs[..j] + [xs[j]];
      EncodeIndexSnoc(xs[..j], xs[j]);
      IndexEntryIsSmall(xs[j], es[at[j]]);
      var _ := EntryAt(es, at[j]);
      if j > 0 { OffsetsOrdered(es, at[j - 1] + 1, at[j]); }
    }
  }

  lemma NoIndex()
    ensures EncodeIndex([]) == []
  {
  }

  lemma {:induction false} IndexEntryIsSmall(x: IndexEntry, e: Entry)
    requires x.key == e.key
    ensures |EncodeIndexEntry(x)| <= |EncodeEntry(e)|
  {
  }

  lemma {:induction false} OffsetsOrdered(es: seq<Entry>, i: nat, j: nat)
    requires i <= j <= |es|
    ensures Offset(es, i) <= Offset(es, j)
  {
    hide DataBlock;
    if i < j { OffsetsGrow(es, i, j); }
  }

  lemma {:induction false} IndexFits(xs: seq<IndexEntry>, es: seq<Entry>, at: seq<nat>)
    requires IsIndex(xs, es, at)
    ensures |EncodeIndex(xs)| <= |DataBlock(es)|
  {
    hide DataBlock, EncodeIndex;
    IndexIsSmall(xs, es, at, |xs|);
    assert xs[..|xs|] == xs && es[..|es|] == es;
    if xs != [] { OffsetsOrdered(es, at[|xs| - 1] + 1, |es|); }
  }

  lemma {:induction false} StepsAdd(at: seq<nat>, step: nat, count: nat, j: nat)
    requires j < |at| && at[0] == 0 && EveryStep(at, step, count)
    ensures at[j] == j * step
  {
    if j == 0 {
      assert 0 * step == 0;
    } else {
      StepsAdd(at, step, count, j - 1);
      assert at[j - 1 + 1] == at[j - 1] + step;
      assert j * step == (j - 1) * step + step;
    }
  }

  /** Exactly every `interval`-th entry is indexed, an interval of 0 counting as 1. */
  lemma {:induction false} IndexedPositions(xs: seq<IndexEntry>, es: seq<Entry>, at: seq<nat>, interval: nat,
                                            since: nat)
    requires Indexed(xs, es, at, interval, since)
    ensures var step := if interval == 0 then 1 else interval;
            && (forall j :: 0 <= j < |at| ==> at[j] == j * step)
            && (es != [] ==> (|at| - 1) * step < |es| <= |at| * step)
  {
    hide DataBlock, Offset;
    var step := Step(interval);
    forall j | 0 <= j < |at| ensures at[j] == j * step { StepsAdd(at, step, |es|, j); }
    if es != [] { assert |at| * step == (|at| - 1) * step + step; }
  }

  /** Writes a sorted list as a table: the file opens as a reader that stands for exactly that list. */
  method Store(es: seq<Entry>, interval: nat, bitsPerKey: nat, hash: Bloom.Hash)
    returns (file: seq<byte>, ghost at: seq<nat>)
    requires Ascending(es) && Fits(es) && 2 * |DataBlock(es)| + Bloom.FilterBytes(|es|, bitsPerKey) + 4 < TWO_64
    ensures OpenTable(file).Some? && Reads(OpenTable(file).value, es, at, hash)
    ensures OpenTable(file).value.count == |es|
    ensures var step := if interval == 0 then 1 else interval;
            && (forall j :: 0 <= j < |at| ==> at[j] == j * step)
            && (es != [] ==> (|at| - 1) * step < |es| <= |at| * step)
  {
    hide DataBlock, EncodeEntry, Indexed, Less, OpenTable, Reads, Bloom.FilterBytes, EncodeIndex;
    var w := new Writer(interval, bitsPerKey, hash);
    for i := 0 to |es|
      invariant w.Valid() && !w.finished && w.entries == es[..i] && fresh(w) && w.interval == interval
    {
      StillFits(es, i);
      assert es[..i + 1] == es[..i] + [es[i]];
      var ok := w.Add(es[i]);
    }
    assert es[..|es|] == es;
    assert |EncodeIndex(w.index)| <= |DataBlock(es)| by {
      IndexedIsIndex(w.index, w.entries, w.at, w.interval, w.sinceIndex);
      IndexFits(w.index, es, w.at);
    }
    IndexedPositions(w.index, w.entries, w.at, interval, w.sinceIndex);
    var ok := w.Finish();
    file, at := w.file, w.at;
  }

  lemma {:induction false} IndexedIsIndex(xs: seq<IndexEntry>, es: seq<Entry>, at: seq<nat>, interval: nat, since: nat)
    requires Indexed(xs, es, at, interval, since)
    ensures IsIndex(xs, es, at)
  {
  }

  lemma {:induction false} StillFits(es: seq<Entry>, i: nat)
    requires i < |es|
    ensures |DataBlock(es[..i])| + |EncodeEntry(es[i])| <= |DataBlock(es)|
  {
    hide DataBlock, EncodeEntry;
    var _ := EntryAt(es, i);
  }

  // ---- The iterator ----

  class Iterator {
    const reader: Reader
    var current: Entry
    var currentOffset: nat
    var valid: bool
    ghost var es: seq<Entry>
    ghost var pos: nat

    /** Valid means standing on entry `pos`, ready to read the next. */
    ghost predicate Ok()
      reads this
    {
      && Ascending(es) && Fits(es) && DataBlock(es) <= reader.file && reader.dataEnd == |DataBlock(es)|
      && (valid ==> pos < |es| && current == es[pos] && currentOffset == Offset(es, pos + 1))
    }

    constructor (reader: Reader, ghost es: seq<Entry>)
      requires Ascending(es) && Fits(es) && DataBlock(es) <= reader.file && reader.dataEnd == |DataBlock(es)|
      ensures Ok() && !valid && this.es == es && this.reader == reader
    {
      this.reader, this.es, pos := reader, es, 0;
      current, currentOffset, valid := Entry([], 0, 0, Pointer(0, 0, 0)), 0, false;
    }

    /** Reads the entry at an offset, or finds the end of the data. */
    method ReadEntry(offset: nat, ghost i: nat)
      requires Ok() && i <= |es| && offset == Offset(es, i)
      modifies this`current, this`currentOffset, this`valid, this`pos
      ensures Ok() && pos == i && valid == (i < |es|)
      ensures !valid ==> currentOffset == old(currentOffset)
    {
      hide DataBlock, ParseEntry, Less;
      AtEnd(es, i);
      pos := i;
      if offset >= reader.dataEnd {
        valid := false;
        return;
      }
      current, currentOffset := ReadNth(reader, es, i, offset);
      valid := true;
    }

    method SeekToFirst()
      requires Ok()
      modifies this`current, this`currentOffset, this`valid, this`pos
      ensures Ok() && valid == (es != []) && pos == 0
    {
      hide DataBlock, ParseEntry, Less;
      StartsAtZero(es);
      currentOffset := 0;
      valid := false;
      ReadEntry(0, 0);
    }

    method Next()
      requires Ok()
      modifies this`current, this`currentOffset, this`valid, this`pos
      ensures Ok() && (!old(valid) ==> !valid)
      ensures old(valid) ==> pos == old(pos) + 1 && valid == (pos < |es|)
    {
      hide DataBlock, ParseEntry, Less;
      if !valid { return; }
      ReadEntry(currentOffset, pos + 1);
    }

    /** Moves to the first entry whose key is not below the target. */
    method Seek(target: Key, ghost at: seq<nat>)
      requires Ok() && IsIndex(reader.index, es, at)
      modifies this`current, this`currentOffset, this`valid, this`pos
      ensures Ok()
      ensures valid ==> AtMost(target, es[pos].key) && forall i :: 0 <= i < pos ==> Less(es[i].key, target)
      ensures !valid ==> forall i :: 0 <= i < |es| ==> Less(es[i].key, target)
    {
      hide DataBlock, ParseEntry, Rank, SortedIndex;
      valid := false;
      if reader.index == [] { return; }
      IndexIsSorted(reader.index, es, at);
      var block := FindBlock(reader.index, target);
      currentOffset := reader.index[block].offset;
      ghost var i := at[block];
      BelowBlock(reader.index, es, at, block, target);
      while currentOffset < reader.dataEnd
        invariant Ok() && i <= |es| && currentOffset == Offset(es, i)
        invariant forall j :: 0 <= j < i ==> Less(es[j].key, target)
        decreases |es| - i
      {
        AtEnd(es, i);
        ReadEntry(currentOffset, i);
        if AtMost(target, current.key) { return; }
        i := i + 1;
      }
      AtEnd(es, i);
      valid := false;
    }
  }

  lemma {:induction false} StartsAtZero(es: seq<Entry>)
    ensures Offset(es, 0) == 0
  {
  }

  /** An offset is the end of the data exactly at the end of the list. */
  lemma {:induction false} AtEnd(es: seq<Entry>, i: nat)
    requires i <= |es|
    ensures Offset(es, i) >= |DataBlock(es)| <==> i == |es|
  {
    hide DataBlock;
    assert es[..|es|] == es;
    if i < |es| { OffsetsGrow(es, i, |es|); }
  }

  /** The iterator visits exactly the list. */
  method ReadAll(r: Reader, ghost es: seq<Entry>) returns (all: seq<Entry>)
    requires Ascending(es) && Fits(es) && DataBlock(es) <= r.file && r.dataEnd == |DataBlock(es)|
    ensures all == es
  {
    hide DataBlock, Less;
    var it := new Iterator(r, es);
    it.SeekToFirst();
    all := [];
    while it.valid
      invariant it.Ok() && it.es == es && it.reader == r
      invariant it.pos <= |es| && it.valid == (it.pos < |es|) && all == es[..it.pos]
      decreases |es| - it.pos
    {
      all := all + [it.current];
      it.Next();
    }
    assert es[..|es|] == es;
  }
}
