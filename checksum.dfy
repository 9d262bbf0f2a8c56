/** The payload checksum `ThinkGearProtocol._chksum`
    (thinkgear/thinkgear.py:78-80). */
module Checksum {
  import opened Base

  /** The sum of the byte values of a payload. */
  function Sum(p: seq<byte>): (s: int)
    ensures 0 <= s <= 0xFF * |p|
  {
    if p == [] then 0 else p[0] + Sum(p[1..])
  }

  /** `~sum(ord(c) for c in packet) & 0xff`. Python's `~x` is `-x - 1`, and
      `& 0xff` on a Python integer keeps its residue modulo 256, which Dafny's
      `%` gives for a positive divisor. The result is the one's complement of
      the low byte of the sum. */
  function Chksum(p: seq<byte>): (c: byte)
    ensures c == 0xFF - Sum(p) % 0x100
    ensures (Sum(p) + c) % 0x100 == 0xFF
  {
    (-Sum(p) - 1) % 0x100
  }

  lemma {:induction false} SumAppend(p: seq<byte>, q: seq<byte>)
    ensures Sum(p + q) == Sum(p) + Sum(q)
    decreases |p|
  {
    if p == [] {
      assert p + q == q;
    } else {
      assert (p + q)[1..] == p[1..] + q;
      SumAppend(p[1..], q);
    }
  }

  /** Removing the byte at position k takes exactly its value off the sum. */
  lemma SumRemove(p: seq<byte>, k: nat)
    requires k < |p|
    ensures Sum(p) == p[k] + Sum(p[..k] + p[k + 1..])
  {
    var a, b := p[..k], p[k + 1..];
    assert a + p[k..] == p;
    SumAppend(a, p[k..]);
    assert p[k..][1..] == b;
    SumAppend(a, b);
  }

  lemma MultisetRemove(p: seq<byte>, k: nat)
    requires k < |p|
    ensures multiset(p[..k] + p[k + 1..]) == multiset(p) - multiset{p[k]}
  {
    assert p == p[..k] + [p[k]] + p[k + 1..];
  }

  /** The sum counts every byte with its multiplicity and nothing else:
      payloads holding the same bytes in any order have the same sum. */
  lemma {:induction false} SumPermutation(p: seq<byte>, q: seq<byte>)
    requires multiset(p) == multiset(q)
    ensures Sum(p) == Sum(q)
    decreases |p|
  {
    if p != [] {
      assert p[0] in multiset(q);
      var k :| 0 <= k < |q| && q[k] == p[0];
      var q' := q[..k] + q[k + 1..];
      MultisetRemove(q, k);
      MultisetRemove(p, 0);
      assert p[..0] + p[1..] == p[1..];
      SumPermutation(p[1..], q');
      SumRemove(q, k);
    } else {
      assert |multiset(q)| == 0;
    }
  }

  /** The checksum depends only on the multiset of payload bytes. */
  lemma ChksumPermutation(p: seq<byte>, q: seq<byte>)
    requires multiset(p) == multiset(q)
    ensures Chksum(p) == Chksum(q)
  {
    SumPermutation(p, q);
  }

  /** Changing any one payload byte to a different value changes the
      checksum, so a frame with one corrupted payload byte and its original
      checksum is always rejected. */
  lemma SingleByteChangeDetected(p: seq<byte>, k: nat, x: byte)
    requires k < |p| && x != p[k]
    ensures Chksum(p[k := x]) != Chksum(p)
  {
    var p' := p[k := x];
    SumRemove(p, k);
    SumRemove(p', k);
    assert p'[..k] + p'[k + 1..] == p[..k] + p[k + 1..];
  }

  /** The empty payload has checksum 0xFF; the Attention example payload
      04 32 has checksum 0xC9. */
  lemma ChksumExamples()
    ensures Chksum([]) == 0xFF
    ensures Chksum([0x04, 0x32]) == 0xC9
  {
    assert Sum([0x04, 0x32]) == 0x36 by {
      assert [0x04, 0x32][1..] == [0x32];
    }
  }
}
