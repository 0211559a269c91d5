/** Bytes, keys and the order in which every sorted structure of the engine keeps its keys. */
module Bytes {

  datatype Option<+T> = None | Some(value: T)

  type byte = b: int | 0 <= b < 256

  type Key = seq<byte>

  /** std::string comparison: byte by byte, unsigned, a proper prefix first. */
  predicate LexLess(a: Key, b: Key) {
    if b == [] then false
    else if a == [] then true
    else a[0] < b[0] || (a[0] == b[0] && LexLess(a[1..], b[1..]))
  }

  /** The first difference decides: the strings agree up to some place, where one ends or its byte is smaller. */
  lemma {:induction false} FirstDifferenceDecides(a: Key, b: Key)
    ensures LexLess(a, b) <==>
              exists n {:trigger a[..n]} :: 0 <= n <= |a| && n < |b| && a[..n] == b[..n] && (n == |a| || a[n] < b[n])
  {
    if LexLess(a, b) { var _ := FindDifference(a, b); }
    forall n: nat | n <= |a| && n < |b| && a[..n] == b[..n] && (n == |a| || a[n] < b[n]) ensures LexLess(a, b) {
      DifferenceDecides(a, b, n);
    }
  }

  lemma {:induction false} DifferenceDecides(a: Key, b: Key, n: nat)
    requires n <= |a| && n < |b| && a[..n] == b[..n] && (n == |a| || a[n] < b[n])
    ensures LexLess(a, b)
    decreases n
  {
    if n == 0 {
    } else {
      assert a[0] == a[..n][0] == b[..n][0] == b[0];
      assert a[1..][..n - 1] == a[..n][1..] == b[..n][1..] == b[1..][..n - 1];
      DifferenceDecides(a[1..], b[1..], n - 1);
    }
  }

  lemma {:induction false} FindDifference(a: Key, b: Key) returns (n: nat)
    requires LexLess(a, b)
    ensures n <= |a| && n < |b| && a[..n] == b[..n] && (n == |a| || a[n] < b[n])
  {
    if a == [] || a[0] < b[0] {
      n := 0;
    } else {
      var m := FindDifference(a[1..], b[1..]);
      n := m + 1;
      assert a[..n] == [a[0]] + a[1..][..m] == [b[0]] + b[1..][..m] == b[..n];
    }
  }

  /** An embedding of byte strings into the reals that carries the key order: with it, chains of
      key comparisons are linear arithmetic. */
  function Rank(k: Key): (r: real)
    ensures 0.0 <= r < 1.0
  {
    if k == [] then 0.0 else (k[0] as real + 1.0 + Rank(k[1..])) / 257.0
  }

  predicate Less(a: Key, b: Key) {
    Rank(a) < Rank(b)
  }

  predicate AtMost(a: Key, b: Key) {
    Rank(a) <= Rank(b)
  }

  /** Comparing ranks is comparing strings, and equal ranks are equal strings. */
  lemma {:induction false} RankIsLexicographic(a: Key, b: Key)
    ensures Less(a, b) <==> LexLess(a, b)
    ensures Rank(a) == Rank(b) <==> a == b
  {
    if a != [] && b != [] {
      RankIsLexicographic(a[1..], b[1..]);
      if a[0] == b[0] && a[1..] == b[1..] {
        assert a == [a[0]] + a[1..] == b;
      }
    }
  }

  /** The order is total: keys that are not less either way are equal. */
  lemma {:induction false} LessIsTotal(a: Key, b: Key)
    ensures Less(a, b) || Less(b, a) || a == b
  {
    RankIsLexicographic(a, b);
  }
}
