/** Checksums that notice a changed byte. */
module Checksums {
  import opened Bytes
  import opened Coding
  import opened Pointers
  import Crc32c

  function Changed(a: seq<byte>, i: nat, x: byte): seq<byte> {
    if i < |a| then a[i := x] else a
  }

  ghost predicate DetectsOneByte(crc: Checksum) {
    forall a: seq<byte>, i: nat, x: byte :: i < |a| && a[i] != x ==> crc(a) != crc(Changed(a, i, x))
  }

  lemma {:induction false} ChecksumDiffers(crc: Checksum, a: seq<byte>, i: nat, x: byte)
    requires DetectsOneByte(crc) && i < |a| && a[i] != x
    ensures crc(a) != crc(a[i := x])
  {
    assert Changed(a, i, x) == a[i := x];
  }

  /** CRC32C is such a checksum. */
  function Castagnoli(data: seq<byte>): u32 {
    Crc32c.Crc32Fits(data);
    Crc32c.Crc32(data)
  }

  lemma CastagnoliDetectsOneByte()
    ensures DetectsOneByte(Castagnoli)
  {
    forall a: seq<byte>, i: nat, x: byte | i < |a| && a[i] != x
      ensures Castagnoli(a) != Castagnoli(Changed(a, i, x))
    {
      Crc32c.Crc32DetectsOneByte(a, i, x);
    }
  }

  lemma {:induction false} Fixed32Differs(a: seq<byte>, b: seq<byte>)
    requires |a| == |b| == 4 && a != b
    ensures DecodeFixed32(a) != DecodeFixed32(b)
  {
    hide DecodeFixed32, Fixed32;
    Fixed32Inverse(a);
    Fixed32Inverse(b);
  }
}
