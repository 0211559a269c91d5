/** The value log as a whole: appends and rotations over any run, and the object that performs them. */
module SegmentedLog {
  import opened Bytes
  import opened Pointers
  import opened ValueLog

  /** Which records each segment holds. */
  datatype State = State(segments: map<nat, seq<Record>>, file: nat)

  datatype Place = Place(file: nat, offset: nat, size: nat)

  function Size(rs: seq<Record>): nat {
    if rs == [] then 0 else Size(rs[..|rs| - 1]) + SizeOf(rs[|rs| - 1])
  }

  lemma {:induction false} SizeIsBytes(rs: seq<Record>, crc: Checksum)
    ensures |EncodeAll(rs, crc)| == Size(rs)
  {
    if rs == [] {
    } else {
      SizeIsBytes(rs[..|rs| - 1], crc);
    }
  }

  lemma {:induction false} SizeSnoc(rs: seq<Record>, r: Record)
    ensures Size(rs + [r]) == Size(rs) + SizeOf(r)
  {
    assert (rs + [r])[..|rs|] == rs;
  }

  lemma {:induction false} SizeGrows(rs: seq<Record>, i: nat)
    requires i < |rs|
    ensures Size(rs[..i]) < Size(rs)
  {
    var n := |rs| - 1;
    if i < n {
      SizeGrows(rs[..n], i);
      assert rs[..n][..i] == rs[..i];
    }
  }

  // ---- Appending ----

  predicate Rotates(s: State, r: Record, limit: nat)
    requires s.file in s.segments
  {
    Size(s.segments[s.file]) + SizeOf(r) > limit && Size(s.segments[s.file]) > 0
  }

  function Appended(s: State, r: Record, limit: nat): State
    requires s.file in s.segments
  {
    if Rotates(s, r, limit) then State(s.segments[s.file + 1 := [r]], s.file + 1)
    else State(s.segments[s.file := s.segments[s.file] + [r]], s.file)
  }

  function NewPlace(s: State, r: Record, limit: nat): Place
    requires s.file in s.segments
  {
    if Rotates(s, r, limit) then Place(s.file + 1, 0, |r.value|)
    else Place(s.file, Size(s.segments[s.file]), |r.value|)
  }

  function Run(s: State, rs: seq<Record>, limit: nat): (t: State)
    requires s.file in s.segments
    ensures t.file in t.segments
  {
    if rs == [] then s else Appended(Run(s, rs[..|rs| - 1], limit), rs[|rs| - 1], limit)
  }

  /** The pointers that a run of appends returns. */
  function RunPlaces(s: State, rs: seq<Record>, limit: nat): (ps: seq<Place>)
    requires s.file in s.segments
    ensures |ps| == |rs|
  {
    if rs == [] then []
    else
      var n := |rs| - 1;
      RunPlaces(s, rs[..n], limit) + [NewPlace(Run(s, rs[..n], limit), rs[n], limit)]
  }

  // ---- Pointers stay ----

  predicate StartsAt(seg: seq<Record>, i: nat, offset: nat, r: Record) {
    i < |seg| && seg[i] == r && offset == Size(seg[..i])
  }

  /** The pointer leads to the record. */
  ghost predicate LeadsTo(s: State, p: Place, r: Record) {
    p.size == |r.value| && p.file in s.segments && exists i: nat :: StartsAt(s.segments[p.file], i, p.offset, r)
  }

  /** The pointer lies before the end of the log. */
  predicate Before(s: State, p: Place)
    requires s.file in s.segments
  {
    p.file < s.file || (p.file == s.file && p.offset < Size(s.segments[s.file]))
  }

  predicate Ordered(s: State) {
    s.file in s.segments && forall f :: f in s.segments ==> f <= s.file
  }

  lemma {:induction false} LeadsBefore(s: State, p: Place, r: Record)
    requires Ordered(s) && LeadsTo(s, p, r)
    ensures Before(s, p)
  {
    var seg := s.segments[p.file];
    var i: nat :| StartsAt(seg, i, p.offset, r);
    SizeGrows(seg, i);
  }

  /** One append: the new pointer is new and leads to the record, and every old one still leads where it led. */
  lemma {:induction false} AppendKeeps(s: State, r: Record, limit: nat)
    requires Ordered(s)
    ensures var t, p := Appended(s, r, limit), NewPlace(s, r, limit);
            Ordered(t) && LeadsTo(t, p, r) && Before(t, p) && !Before(s, p)
  {
    var t, p := Appended(s, r, limit), NewPlace(s, r, limit);
    SizeSnoc(s.segments[s.file], r);
    var seg := t.segments[t.file];
    assert seg[..|seg| - 1] == if Rotates(s, r, limit) then [] else s.segments[s.file];
    assert StartsAt(seg, |seg| - 1, p.offset, r);
    assert [r][..0] == [];
  }

  lemma {:induction false} AppendKeepsPlace(s: State, r: Record, limit: nat, p: Place, x: Record)
    requires Ordered(s) && LeadsTo(s, p, x)
    ensures LeadsTo(Appended(s, r, limit), p, x)
  {
    hide Size;
    var t := Appended(s, r, limit);
    var i: nat :| StartsAt(s.segments[p.file], i, p.offset, x);
    assert p.file < s.file + 1;
    assert t.segments[p.file][..i] == s.segments[p.file][..i];
    assert StartsAt(t.segments[p.file], i, p.offset, x);
  }

  lemma {:induction false} AppendKeepsBefore(s: State, r: Record, limit: nat, p: Place)
    requires Ordered(s) && Before(s, p)
    ensures Before(Appended(s, r, limit), p)
  {
    SizeSnoc(s.segments[s.file], r);
  }

  /** THE APPEND-ONLY LAW. Over any run of appends and rotations every returned pointer is unique, also
      among those of earlier runs, and at the end leads to the record it was returned for; and so do all
      older pointers. */
  lemma {:induction false} AppendOnly(s: State, rs: seq<Record>, limit: nat)
    requires Ordered(s)
    ensures var t, ps := Run(s, rs, limit), RunPlaces(s, rs, limit);
            && Ordered(t)
            && (forall i :: 0 <= i < |rs| ==> LeadsTo(t, ps[i], rs[i]))
            && (forall i, j :: 0 <= i < j < |rs| ==> ps[i] != ps[j])
            && (forall i :: 0 <= i < |rs| ==> Before(t, ps[i]) && !Before(s, ps[i]))
            && (forall p, x :: LeadsTo(s, p, x) ==> LeadsTo(t, p, x))
            && (forall i, p, x :: 0 <= i < |rs| && LeadsTo(s, p, x) ==> ps[i] != p)
            && (forall p :: Before(s, p) ==> Before(t, p))
  {
    hide LeadsTo, Before, Appended, NewPlace;
    if rs == [] {
    } else {
      var n := |rs| - 1;
      var m, ms := Run(s, rs[..n], limit), RunPlaces(s, rs[..n], limit);
      AppendOnly(s, rs[..n], limit);
      AppendKeeps(m, rs[n], limit);
      var t, ps := Run(s, rs, limit), RunPlaces(s, rs, limit);
      assert forall i :: 0 <= i < n ==> ps[i] == ms[i] && rs[i] == rs[..n][i];
      assert ps[n] == NewPlace(m, rs[n], limit);
      forall p, x | LeadsTo(m, p, x) ensures LeadsTo(t, p, x) { AppendKeepsPlace(m, rs[n], limit, p, x); }
      forall p | Before(m, p) ensures Before(t, p) { AppendKeepsBefore(m, rs[n], limit, p); }
    }
    forall p, x | LeadsTo(s, p, x) ensures Before(s, p) { LeadsBefore(s, p, x); }
  }

  /** A pointer that leads to a record reads it back from the segment's bytes. */
  lemma {:induction false} PlaceReadsBack(s: State, p: Place, r: Record, crc: Checksum)
    requires LeadsTo(s, p, r) && WellFormed(r)
    ensures Read(EncodeAll(s.segments[p.file], crc), p.offset, p.size, crc) == Ok(r.key, r.value)
  {
    hide Read, Encode;
    var seg := s.segments[p.file];
    var i: nat :| StartsAt(seg, i, p.offset, r);
    var pre, post := EncodeAll(seg[..i], crc), EncodeAll(seg[i + 1..], crc);
    assert seg == seg[..i] + [r] + seg[i + 1..];
    EncodeAllConcat(seg[..i] + [r], seg[i + 1..], crc);
    EncodeAllConcat(seg[..i], [r], crc);
    EncodeOne(r, crc);
    SizeIsBytes(seg[..i], crc);
    ReadBack(pre, r, post, crc);
  }

  lemma {:induction false} EncodeOne(r: Record, crc: Checksum)
    ensures EncodeAll([r], crc) == Encode(r, crc)
  {
    hide Encode;
    assert [r][..0] == [];
  }

  // ---- Segment sizes ----

  /** Every segment is within the limit, or holds one record. */
  predicate SizesOk(s: State, limit: nat) {
    forall f :: f in s.segments ==> Size(s.segments[f]) <= limit || |s.segments[f]| == 1
  }

  lemma {:induction false} RunKeepsSizes(s: State, rs: seq<Record>, limit: nat)
    requires Ordered(s) && SizesOk(s, limit)
    ensures var t := Run(s, rs, limit);
            forall f :: f in t.segments ==> Size(t.segments[f]) <= limit || |t.segments[f]| == 1
  {
    hide Size;
    RunSizesOk(s, rs, limit);
  }

  lemma {:induction false} RunSizesOk(s: State, rs: seq<Record>, limit: nat)
    requires Ordered(s) && SizesOk(s, limit)
    ensures SizesOk(Run(s, rs, limit), limit)
  {
    hide Size, SizesOk, Appended;
    if rs == [] {
    } else {
      var n := |rs| - 1;
      RunSizesOk(s, rs[..n], limit);
      AppendKeepsSizes(Run(s, rs[..n], limit), rs[n], limit);
    }
  }

  lemma {:induction false} AppendKeepsSizes(s: State, r: Record, limit: nat)
    requires s.file in s.segments && SizesOk(s, limit)
    ensures SizesOk(Appended(s, r, limit), limit)
  {
    var seg := s.segments[s.file];
    SizeSnoc(seg, r);
    if seg != [] { SizeGrows(seg, 0); }
    assert |seg + [r]| == |seg| + 1;
  }

  /** Segments are numbered from 1 on, and none was closed early: the first record of the next one would have
      overflowed it. */
  ghost predicate Packed(s: State, limit: nat) {
    && (forall f :: f in s.segments <==> 1 <= f <= s.file) && s.file >= 1
    && (s.file > 1 ==> s.segments[s.file] != [])
    && forall f, g :: f in s.segments && g in s.segments && g == f + 1 ==>
         s.segments[f] != [] && s.segments[g] != [] && Size(s.segments[f]) + SizeOf(s.segments[g][0]) > limit
  }

  lemma {:induction false} AppendKeepsPacked(s: State, r: Record, limit: nat)
    requires Packed(s, limit)
    ensures Packed(Appended(s, r, limit), limit)
  {
    hide Size;
    var t := Appended(s, r, limit);
    SizeOne(r);
    forall f, g | f in t.segments && g in t.segments && g == f + 1
      ensures t.segments[f] != [] && t.segments[g] != [] && Size(t.segments[f]) + SizeOf(t.segments[g][0]) > limit
    {
      if g <= s.file { assert f in s.segments && g in s.segments; }
    }
  }

  /** Over any run from a fresh log segments are packed. */
  lemma {:induction false} RunPacks(rs: seq<Record>, limit: nat)
    ensures var t := Run(State(map[1 := []], 1), rs, limit);
            && (forall f :: f in t.segments <==> 1 <= f <= t.file)
            && forall f, g :: f in t.segments && g in t.segments && g == f + 1 ==>
                 t.segments[g] != [] && Size(t.segments[f]) + SizeOf(t.segments[g][0]) > limit
  {
    RunIsPacked(rs, limit);
  }

  lemma {:induction false} RunIsPacked(rs: seq<Record>, limit: nat)
    ensures Packed(Run(State(map[1 := []], 1), rs, limit), limit)
  {
    hide Size, Appended;
    if rs == [] {
    } else {
      var n := |rs| - 1;
      RunIsPacked(rs[..n], limit);
      AppendKeepsPacked(Run(State(map[1 := []], 1), rs[..n], limit), rs[n], limit);
    }
  }

  // ---- The object ----

  class VLog {
    const limit: nat
    const crc: Checksum
    var files: map<nat, seq<byte>>
    var currentFile: nat
    var currentOffset: nat
    ghost var state: State

    ghost predicate Valid()
      reads this
    {
      && Ordered(state) && SizesOk(state, limit) && state.file == currentFile
      && files.Keys == state.segments.Keys
      && (forall f :: f in files ==> files[f] == EncodeAll(state.segments[f], crc))
      && (forall f, i :: f in files && 0 <= i < |state.segments[f]| ==> WellFormed(state.segments[f][i]))
      && currentOffset == Size(state.segments[currentFile])
    }

    constructor (limit: nat, crc: Checksum)
      ensures Valid() && state == State(map[1 := []], 1) && this.limit == limit && this.crc == crc
    {
      this.limit, this.crc := limit, crc;
      files, currentFile, currentOffset := map[1 := []], 1, 0;
      state := State(map[1 := []], 1);
    }

    method RotateFile()
      modifies this`files, this`currentFile, this`currentOffset
      ensures currentFile == old(currentFile) + 1 && currentOffset == 0 && files == old(files)[currentFile := []]
    {
      currentFile, currentOffset := currentFile + 1, 0;
      files := files[currentFile := []];
    }

    method Append(r: Record) returns (p: Place)
      requires Valid() && WellFormed(r)
      modifies this
      ensures Valid()
      ensures state == old(Appended(state, r, limit)) && p == old(NewPlace(state, r, limit))
    {
      hide EncodeAll, Size, Encode;
      ghost var s := state;
      AppendKeeps(s, r, limit);
      AppendKeepsSizes(s, r, limit);
      SizeSnoc(s.segments[s.file], r);
      EncodeAllConcat(s.segments[s.file], [r], crc);
      EncodeOne(r, crc);
      if currentOffset + SizeOf(r) > limit && currentOffset > 0 {
        RotateFile();
      }
      p := Place(currentFile, currentOffset, |r.value|);
      var bytes := Encode(r, crc);
      assert [] + bytes == bytes;
      files := files[currentFile := files[currentFile] + bytes];
      currentOffset := currentOffset + |bytes|;
      state := Appended(s, r, limit);
      SizeOne(r);
    }

    /** A pointer that leads to a record returns its key and value. */
    method ReadAt(p: Place) returns (result: Result)
      requires Valid() && p.file in files
      ensures result == Read(files[p.file], p.offset, p.size, crc)
      ensures forall r :: LeadsTo(state, p, r) ==> result == Ok(r.key, r.value)
    {
      hide Read, EncodeAll, Size;
      result := Read(files[p.file], p.offset, p.size, crc);
      forall r | LeadsTo(state, p, r) ensures result == Ok(r.key, r.value) {
        PlaceReadsBack(state, p, r, crc);
      }
    }

    /** A scan of a segment reports exactly its records, in order, at their offsets. */
    method Scan(f: nat) returns (found: seq<Found>)
      requires Valid() && f in files
      ensures found == WithOffsets(state.segments[f], 0)
    {
      hide EncodeAll, ScanFrom;
      found := NewReader(files[f], 0, crc);
      var rs := state.segments[f];
      ScanIsExact(rs, |files[f]|, 0, crc);
      assert files[f][0..] == files[f] && files[f][..|files[f]|] == files[f];
      SizeIsBytes(rs, crc);
      AllWhole(rs);
      assert rs[..|rs|] == rs;
    }
  }

  lemma {:induction false} SizeOne(r: Record)
    ensures Size([r]) == SizeOf(r) && Size([]) == 0
  {
    assert [r][..0] == [];
  }

  lemma {:induction false} AllWhole(rs: seq<Record>)
    ensures WholeRecords(rs, Size(rs)) == |rs|
  {
    if rs == [] {
    } else {
      SizeCons(rs);
      AllWhole(rs[1..]);
    }
  }

  lemma {:induction false} SizeCons(rs: seq<Record>)
    requires rs != []
    ensures Size(rs) == SizeOf(rs[0]) + Size(rs[1..])
  {
    var n := |rs| - 1;
    if n == 0 {
    } else {
      SizeCons(rs[..n]);
      assert rs[..n][1..] == rs[1..][..n - 1];
    }
  }
}
