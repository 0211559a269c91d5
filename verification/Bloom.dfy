/** The Bloom filter: a double-hashed bit array over an arbitrary hash function. */
module Bloom {
  import opened Bytes
  import opened Coding
  import opened Pointers

  /** Key and seed to hash value. */
  type Hash = (seq<byte>, nat) -> u32

  const SEED_ONE: nat := 0xbc9f1d34
  const SEED_TWO: nat := 0xef017832

  /** About `bits * ln 2` hash functions, at least 1 and at most 30. */
  function NumHashes(bitsPerKey: nat): (k: nat)
    ensures 1 <= k <= 30
  {
    var k := (bitsPerKey as real * 0.6931471805599453).Floor;
    if k < 1 then 1 else if k > 30 then 30 else k
  }

  /** The i-th position of a key; the cast to 32 bits is the source's. */
  function BitPos(key: seq<byte>, i: nat, bits: nat, hash: Hash): (p: nat)
    requires bits > 0
    ensures p < bits
  {
    (hash(key, SEED_ONE) + i * hash(key, SEED_TWO)) % bits % TWO_32
  }

  /** Double hashing: the seeds, and the step from one position to the next. */
  lemma {:induction false} DoubleHashing(key: seq<byte>, i: nat, bits: nat, hash: Hash)
    requires 0 < bits <= TWO_32
    ensures BitPos(key, 0, bits, hash) == hash(key, 0xbc9f1d34) % bits
    ensures BitPos(key, i + 1, bits, hash) == (BitPos(key, i, bits, hash) + hash(key, 0xef017832)) % bits
  {
    hide BitPos;
    var a, b := hash(key, SEED_ONE), hash(key, SEED_TWO);
    PositionIs(key, 0, bits, hash, a, b);
    PositionIs(key, i, bits, hash, a, b);
    PositionIs(key, i + 1, bits, hash, a, b);
    NextPosition(a, b, i, bits);
  }

  lemma {:induction false} PositionIs(key: seq<byte>, i: nat, bits: nat, hash: Hash, a: nat, b: nat)
    requires 0 < bits <= TWO_32 && a == hash(key, SEED_ONE) && b == hash(key, SEED_TWO)
    ensures BitPos(key, i, bits, hash) == (a + i * b) % bits
  {
    var p := (a + i * b) % bits;
    assert p % TWO_32 == p;
  }

  lemma {:induction false} NextPosition(a: nat, b: nat, i: nat, m: nat)
    requires m > 0
    ensures (a + 0 * b) % m == a % m && (a + (i + 1) * b) % m == ((a + i * b) % m + b) % m
  {
    var x := a + i * b;
    assert a + (i + 1) * b == x + b;
    AddMod(x, b, m);
  }

  lemma {:induction false} AddMod(x: nat, y: nat, m: nat)
    requires m > 0
    ensures (x + y) % m == (x % m + y) % m
  {
    var z := x % m + y;
    DivMod(x, m);
    DivMod(z, m);
    DivMod(x + y, m);
    Distributes(m, x / m, z / m);
    OneRemainder(m, (x + y) / m, (x + y) % m, x / m + z / m, z % m);
  }

  lemma {:induction false} DivMod(x: nat, m: nat)
    requires m > 0
    ensures x == m * (x / m) + x % m && x / m >= 0 && 0 <= x % m < m
  {
  }

  lemma {:induction false} Distributes(m: nat, a: int, b: int)
    ensures m * (a + b) == m * a + m * b
  {
  }

  lemma {:induction false} Below(m: nat, p: nat, r: nat, q: nat, t: nat)
    requires p < q && r < m
    ensures m * p + r < m * q + t
  {
    Distributes(m, p, q - p);
    Distributes(m, 1, q - p - 1);
    assert m * (q - p - 1) >= 0;
  }

  lemma {:induction false} OneRemainder(m: nat, p: nat, r: nat, q: nat, t: nat)
    requires r < m && t < m && m * p + r == m * q + t
    ensures r == t
  {
    if p < q {
      Below(m, p, r, q, t);
    } else if q < p {
      Below(m, q, t, p, r);
    }
  }

  /** The default of 10 bits a key, and the bounds. */
  lemma HashCounts()
    ensures NumHashes(0) == 1 && NumHashes(10) == 6 && NumHashes(16) == 11 && NumHashes(100) == 30
    ensures FilterBytes(1, 10) == 8 && FilterBytes(100, 10) == 125 && FilterBytes(7, 11) == 10
  {
  }

  // ---- Bits of a byte string ----

  predicate Bit(b: byte, i: nat)
    requires i < 8
  {
    ToBits(b, 8)[i]
  }

  /** The byte with one more bit set. */
  function SetBit(b: byte, i: nat): byte
    requires i < 8
  {
    Pow2Eight();
    FromBits(ToBits(b, 8)[i := true])
  }

  predicate Marked(data: seq<byte>, pos: nat)
    requires pos < 8 * |data|
  {
    Bit(data[pos / 8], pos % 8)
  }

  function Mark(data: seq<byte>, pos: nat): (r: seq<byte>)
    requires pos < 8 * |data|
    ensures |r| == |data|
  {
    data[pos / 8 := SetBit(data[pos / 8], pos % 8)]
  }

  lemma {:induction false} MarkMarks(data: seq<byte>, pos: nat, q: nat)
    requires pos < 8 * |data| && q < 8 * |data|
    ensures Marked(Mark(data, pos), q) <==> q == pos || Marked(data, q)
  {
    hide ToBits, FromBits;
    var b := data[pos / 8];
    BitsRoundTrip(ToBits(b, 8)[pos % 8 := true]);
    if q / 8 == pos / 8 && q % 8 == pos % 8 { assert q == pos; }
  }

  // ---- What a filter holds ----

  predicate Hits(key: seq<byte>, n: nat, bits: nat, hash: Hash, pos: nat)
    requires bits > 0
  {
    exists i :: 0 <= i < n && BitPos(key, i, bits, hash) == pos
  }

  /** Exactly the positions of the keys are marked. */
  ghost predicate IsFilter(data: seq<byte>, keys: seq<seq<byte>>, n: nat, hash: Hash) {
    data != [] && forall pos: nat :: pos < 8 * |data| ==>
      (Marked(data, pos) <==> exists a :: 0 <= a < |keys| && Hits(keys[a], n, 8 * |data|, hash, pos))
  }

  predicate Passes(data: seq<byte>, key: seq<byte>, n: nat, hash: Hash)
    requires data != []
  {
    forall i :: 0 <= i < n ==> Marked(data, BitPos(key, i, 8 * |data|, hash))
  }

  /** The filter never rejects a key it was built from. */
  lemma {:induction false} NoFalseNegatives(data: seq<byte>, keys: seq<seq<byte>>, n: nat, hash: Hash, k: seq<byte>)
    requires IsFilter(data, keys, n, hash) && k in keys
    ensures Passes(data, k, n, hash)
  {
    hide Marked, BitPos;
    var a :| 0 <= a < |keys| && keys[a] == k;
    forall i | 0 <= i < n ensures Marked(data, BitPos(k, i, 8 * |data|, hash)) {
      assert Hits(keys[a], n, 8 * |data|, hash, BitPos(k, i, 8 * |data|, hash));
    }
  }

  // ---- The loops ----

  method AddKey(data: array<byte>, key: seq<byte>, n: nat, hash: Hash)
    requires data.Length > 0
    modifies data
    ensures forall q: nat :: q < 8 * data.Length ==>
              (Marked(data[..], q) <==> old(Marked(data[..], q)) || Hits(key, n, 8 * data.Length, hash, q))
  {
    hide Marked, BitPos, Mark;
    var bits := 8 * data.Length;
    ghost var before := data[..];
    for i := 0 to n
      invariant forall q: nat :: q < bits ==>
                  (Marked(data[..], q) <==> Marked(before, q) || Hits(key, i, bits, hash, q))
    {
      ghost var now := data[..];
      var pos := BitPos(key, i, bits, hash);
      data[pos / 8] := SetBit(data[pos / 8], pos % 8);
      assert data[..] == Mark(now, pos) by { MarkIs(now, pos); }
      forall q: nat | q < bits ensures Marked(data[..], q) <==> Marked(before, q) || Hits(key, i + 1, bits, hash, q) {
        MarkMarks(now, pos, q);
        HitsNext(key, i, bits, hash, q);
      }
    }
  }

  lemma {:induction false} MarkIs(data: seq<byte>, pos: nat)
    requires pos < 8 * |data|
    ensures Mark(data, pos) == data[pos / 8 := SetBit(data[pos / 8], pos % 8)]
  {
  }

  lemma {:induction false} HitsNext(key: seq<byte>, i: nat, bits: nat, hash: Hash, q: nat)
    requires bits > 0
    ensures Hits(key, i + 1, bits, hash, q) <==> Hits(key, i, bits, hash, q) || BitPos(key, i, bits, hash) == q
  {
    hide BitPos;
  }

  /** At least 64 bits, rounded up to whole bytes. */
  function FilterBytes(numKeys: nat, bitsPerKey: nat): (n: nat)
    ensures n >= 8
  {
    var bits := numKeys * bitsPerKey;
    ((if bits < 64 then 64 else bits) + 7) / 8
  }

  method CreateFilter(keys: seq<seq<byte>>, bitsPerKey: nat, hash: Hash) returns (data: seq<byte>)
    ensures keys == [] ==> data == []
    ensures keys != [] ==> |data| == FilterBytes(|keys|, bitsPerKey)
    ensures keys != [] ==> IsFilter(data, keys, NumHashes(bitsPerKey), hash)
  {
    hide Marked, Hits, FilterBytes, NumHashes;
    if keys == [] { return []; }
    var n := NumHashes(bitsPerKey);
    var size := FilterBytes(|keys|, bitsPerKey);
    var bytes := new byte[size](_ => 0);
    NothingMarked(bytes[..]);
    for a := 0 to |keys|
      invariant forall q: nat :: q < 8 * size ==>
                  (Marked(bytes[..], q) <==> exists b :: 0 <= b < a && Hits(keys[b], n, 8 * size, hash, q))
    {
      AddKey(bytes, keys[a], n, hash);
    }
    data := bytes[..];
  }

  lemma {:induction false} NothingMarked(data: seq<byte>)
    requires forall i :: 0 <= i < |data| ==> data[i] == 0
    ensures forall q: nat :: q < 8 * |data| ==> !Marked(data, q)
  {
    hide ToBits;
    forall q: nat | q < 8 * |data| ensures !Marked(data, q) { ZeroBits(8, q % 8); }
  }

  lemma {:induction false} ZeroBits(n: nat, i: nat)
    requires i < n
    ensures !ToBits(0, n)[i]
  {
    if i == 0 {
    } else {
      ZeroBits(n - 1, i - 1);
    }
  }

  method MayContain(data: seq<byte>, key: seq<byte>, n: nat, hash: Hash) returns (r: bool)
    ensures r <==> data != [] && Passes(data, key, n, hash)
  {
    hide Marked, BitPos;
    if data == [] { return false; }
    for i := 0 to n
      invariant forall j :: 0 <= j < i ==> Marked(data, BitPos(key, j, 8 * |data|, hash))
    {
      if !Marked(data, BitPos(key, i, 8 * |data|, hash)) { return false; }
    }
    return true;
  }
}
