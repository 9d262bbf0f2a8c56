/** The pushback scheme of `ThinkGearProtocol._read` and `_deread`
    (thinkgear/thinkgear.py:82-106), seen from outside the session: the
    unread bytes of the `preread` buffer in front of the unread bytes of the
    device. */
module Pushback {
  import opened Base

  /** `buffered` is what `preread` still holds after its read position
      (empty whenever `io` is the serial port); `device` is what the device
      has not yet delivered. */
  datatype Input = Input(buffered: seq<byte>, device: seq<byte>)

  /** Every byte the session will read, in the order it will read them. */
  function Pending(i: Input): seq<byte>
  {
    i.buffered + i.device
  }

  /** `_read(n)`: a read of `preread` that comes up short empties the buffer
      and tops the result up from the device; the result is short only when
      the device runs out too. */
  function Read(i: Input, n: nat): (r: (seq<byte>, Input))
    ensures |r.0| <= n
  {
    if n <= |i.buffered| then
      (i.buffered[..n], Input(i.buffered[n..], i.device))
    else
      var k := Min(n - |i.buffered|, |i.device|);
      (i.buffered + i.device[..k], Input([], i.device[k..]))
  }

  /** The buffer is transparent: a read returns the next bytes of what is
      pending, as many as asked for while there are any, and removes them. */
  lemma ReadTakesPrefix(i: Input, n: nat)
    ensures |Read(i, n).0| == Min(n, |Pending(i)|)
    ensures Read(i, n).0 == Pending(i)[..Min(n, |Pending(i)|)]
    ensures Pending(Read(i, n).1) == Pending(i)[Min(n, |Pending(i)|)..]
  {
    if n > |i.buffered| {
      var k := Min(n - |i.buffered|, |i.device|);
      assert Pending(i)[|i.buffered| + k..] == i.device[k..];
    }
  }

  /** A read of at least what the buffer holds leaves it empty. */
  lemma ReadPastBuffer(i: Input, n: nat)
    requires |i.buffered| <= n
    ensures Read(i, n).1.buffered == []
  {
    if n == |i.buffered| {
      assert i.buffered[n..] == [];
    }
  }

  /** `_deread(b)`: `b` goes after whatever `preread` has not yet replayed. */
  function Deread(i: Input, b: seq<byte>): (r: Input)
    ensures Pending(r) == i.buffered + b + i.device
    ensures r.device == i.device
  {
    Input(i.buffered + b, i.device)
  }

  /** Reading in pieces is reading at once: two consecutive reads return
      the bytes of one read of the combined size and leave the same state. */
  lemma ReadChunking(i: Input, a: nat, b: nat)
    ensures Read(i, a).0 + Read(Read(i, a).1, b).0 == Read(i, a + b).0
    ensures Read(Read(i, a).1, b).1 == Read(i, a + b).1
  {
    if a + b <= |i.buffered| {
      ChunkWithinBuffer(i, a, b);
    } else if a <= |i.buffered| {
      ChunkLeavingBuffer(i, a, b);
    } else if b > 0 {
      ChunkFromDevice(i, a, b);
    }
  }

  /** The state half of `ReadChunking`. */
  lemma ReadsCompose(i: Input, a: nat, b: nat)
    ensures Read(Read(i, a).1, b).1 == Read(i, a + b).1
  {
    ReadChunking(i, a, b);
  }

  /** `ReadsCompose` for a read of `n` bytes split after the first `a`. */
  lemma ReadsRest(i: Input, a: nat, n: nat)
    requires a <= n
    ensures Read(Read(i, a).1, n - a).1 == Read(i, n).1
  {
    ReadsCompose(i, a, n - a);
  }

  lemma ChunkWithinBuffer(i: Input, a: nat, b: nat)
    requires a + b <= |i.buffered|
    ensures Read(i, a).0 + Read(Read(i, a).1, b).0 == Read(i, a + b).0
    ensures Read(Read(i, a).1, b).1 == Read(i, a + b).1
  {
    assert Read(i, a) == (i.buffered[..a], Input(i.buffered[a..], i.device));
    assert i.buffered[..a] + i.buffered[a..][..b] == i.buffered[..a + b];
    assert i.buffered[a..][b..] == i.buffered[a + b..];
  }

  lemma ChunkLeavingBuffer(i: Input, a: nat, b: nat)
    requires a <= |i.buffered| < a + b
    ensures Read(i, a).0 + Read(Read(i, a).1, b).0 == Read(i, a + b).0
    ensures Read(Read(i, a).1, b).1 == Read(i, a + b).1
  {
    var u := i.buffered;
    assert Read(i, a) == (u[..a], Input(u[a..], i.device));
    var k := Min(a + b - |u|, |i.device|);
    assert Read(Input(u[a..], i.device), b) == (u[a..] + i.device[..k], Input([], i.device[k..]));
    assert u[..a] + (u[a..] + i.device[..k]) == u + i.device[..k];
  }

  lemma ChunkFromDevice(i: Input, a: nat, b: nat)
    requires |i.buffered| < a && b > 0
    ensures Read(i, a).0 + Read(Read(i, a).1, b).0 == Read(i, a + b).0
    ensures Read(Read(i, a).1, b).1 == Read(i, a + b).1
  {
    var u, d := i.buffered, i.device;
    var k1 := Min(a - |u|, |d|);
    var k2 := Min(b, |d| - k1);
    assert Read(i, a) == (u + d[..k1], Input([], d[k1..]));
    DeviceRead(d[k1..], b);
    assert Min(b, |d[k1..]|) == k2;
    assert Min(a + b - |u|, |d|) == k1 + k2;
    assert Read(i, a + b) == (u + d[..k1 + k2], Input([], d[k1 + k2..]));
    SplitDevice(u, d, k1, k2);
  }

  lemma SplitDevice(u: seq<byte>, d: seq<byte>, k1: nat, k2: nat)
    requires k1 + k2 <= |d|
    ensures (u + d[..k1]) + d[k1..][..k2] == u + d[..k1 + k2]
    ensures d[k1..][k2..] == d[k1 + k2..]
  {
    assert d[..k1] + d[k1..][..k2] == d[..k1 + k2];
  }

  lemma DeviceRead(d: seq<byte>, n: nat)
    requires n > 0
    ensures Read(Input([], d), n) == (d[..Min(n, |d|)], Input([], d[Min(n, |d|)..]))
  {
    assert [] + d[..Min(n, |d|)] == d[..Min(n, |d|)];
  }

  /** After `_deread(b)`, reading back the previously unread buffer and `b`
      returns them in that order and leaves the device untouched. */
  lemma DereadReplaysBeforeDevice(i: Input, b: seq<byte>)
    ensures Pending(Deread(i, b)) == i.buffered + b + i.device
    ensures Read(Deread(i, b), |i.buffered| + |b|) == (i.buffered + b, Input([], i.device))
  {
    var v := i.buffered + b;
    assert v[..|v|] == v;
    assert v[|v|..] == [];
  }

  /** Bytes pushed back after a read that emptied the buffer are the next
      ones read. */
  lemma ReplayComesNext(i: Input, n: nat, b: seq<byte>)
    requires |i.buffered| <= n
    ensures Pending(Deread(Read(i, n).1, b)) == b + Pending(Read(i, n).1)
  {
    ReadPastBuffer(i, n);
  }

  /** Pushed-back bytes come first whenever nothing is left in the buffer;
      otherwise they are replayed after the older buffered ones, as the
      buffered 01 and pushed-back 02 show. */
  lemma DereadPrependsOnEmptyBuffer(i: Input, b: seq<byte>)
    ensures i.buffered == [] ==> Pending(Deread(i, b)) == b + Pending(i)
    ensures Pending(Deread(Input([0x01], []), [0x02])) == [0x01, 0x02]
  {
  }
}
