/** What `get_packets` (thinkgear/thinkgear.py:108-130) does with the byte
    streams it meets: well-formed frames, noise before them, bogus length
    bytes, corrupted frames and the replay of pushed-back bytes. */
module Sync {
  import opened Base
  import opened Values
  import opened Registry
  import opened Payload
  import opened Checksum
  import opened Pushback
  import opened Protocol

  /** No byte of `s` is the sync byte. */
  predicate SyncFree(s: seq<byte>)
  {
    forall k :: 0 <= k < |s| ==> s[k] != SYNC
  }

  /** The window does not end in half a sync pair. */
  predicate Clean(w: seq<byte>)
  {
    w == [] || w[|w| - 1] != SYNC
  }

  /** The window after shifting in every byte of `s`. */
  function Slide(w: seq<byte>, s: seq<byte>): seq<byte>
    decreases |s|
  {
    if s == [] then w else Slide(Shift(w, s[0]), s[1..])
  }

  /** Reading one byte off an input whose pending bytes start with `x`. */
  lemma ReadOne(i: Input, x: byte, rest: seq<byte>)
    requires Pending(i) == [x] + rest
    ensures Read(i, 1).0 == [x]
    ensures Pending(Read(i, 1).1) == rest
  {
    ReadTakesPrefix(i, 1);
  }

  /** A non-sync byte that does not complete a sync pair is shifted into the
      window and nothing else happens. */
  lemma StepShiftsNonSync(w: seq<byte>, i: Input, x: byte, rest: seq<byte>)
    requires Pending(i) == [x] + rest
    requires Shift(w, x) != [SYNC, SYNC]
    ensures Step(w, i) == Continue(Shift(w, x), Read(i, 1).1)
  {
    ReadOne(i, x, rest);
  }

  /** A sync byte after a window ending in one completes the sync pair. */
  lemma StepCompletesSync(w: seq<byte>, i: Input, rest: seq<byte>)
    requires |w| > 0 && w[|w| - 1] == SYNC
    requires Pending(i) == [SYNC] + rest
    ensures Pending(Read(i, 1).1) == rest
    ensures Step(w, i) == AfterSync(Read(i, 1).1)
  {
    ReadOne(i, SYNC, rest);
    assert Shift(w, SYNC) == [SYNC, SYNC];
  }

  /** After the sync pair, a proper length `|p|`, the payload `p` and a
      checksum byte `c`: with the right checksum the pass stops with the
      decoded payload, otherwise `p + [c]` is pushed back and the window is
      emptied. Either way exactly `|p| + 2` bytes are consumed first. */
  lemma AfterSyncFrame(i: Input, p: seq<byte>, c: byte, t: seq<byte>)
    requires |p| < SYNC as int
    requires Pending(i) == [|p| as byte] + p + [c] + t
    ensures Pending(Read(i, |p| + 2).1) == t
    ensures AfterSync(i) == if c == Chksum(p) then Stop(FrameOutcome(p), Read(i, |p| + 2).1)
                            else Continue([], Deread(Read(i, |p| + 2).1, p + [c]))
  {
    var i2 := Read(i, 1).1;
    ReadOne(i, |p| as byte, p + [c] + t);
    var i3 := Read(i2, |p|).1;
    ReadTakesPrefix(i2, |p|);
    assert (p + [c] + t)[..|p|] == p;
    assert (p + [c] + t)[|p|..] == [c] + t;
    ReadsCompose(i, 1, |p|);
    ReadOne(i3, c, t);
    ReadsCompose(i, 1 + |p|, 1);
  }

  /** Once the window ends in a sync byte, a second sync byte and a frame's
      length, payload and checksum byte: the whole frame's remaining
      `|p| + 3` bytes are consumed, and the pass stops or pushes back as
      the checksum decides. */
  lemma SyncedFrame(w: seq<byte>, i: Input, p: seq<byte>, c: byte, t: seq<byte>)
    requires |w| > 0 && w[|w| - 1] == SYNC
    requires |p| < SYNC as int
    requires Pending(i) == [SYNC, |p| as byte] + p + [c] + t
    ensures Pending(Read(i, |p| + 3).1) == t
    ensures Step(w, i) == if c == Chksum(p) then Stop(FrameOutcome(p), Read(i, |p| + 3).1)
                          else Continue([], Deread(Read(i, |p| + 3).1, p + [c]))
  {
    var rest := [|p| as byte] + p + [c] + t;
    assert Pending(i) == [SYNC] + rest;
    StepCompletesSync(w, i, rest);
    AfterSyncFrame(Read(i, 1).1, p, c, t);
    ReadsCompose(i, 1, |p| + 2);
  }

  /** Unfolding one pass of a resumption that goes round again. */
  lemma ScanContinues(w: seq<byte>, i: Input)
    requires Step(w, i).Continue?
    ensures Scan(w, i) == Scan(Step(w, i).window, Step(w, i).input)
  {
  }

  /** Unfolding the pass that ends a resumption. */
  lemma ScanStops(w: seq<byte>, i: Input)
    requires Step(w, i).Stop?
    ensures Scan(w, i) == (Step(w, i).outcome, Step(w, i).input)
  {
  }

  /** A sync byte after a clean window is the first half of a sync pair. */
  lemma StepFirstSync(w: seq<byte>, i: Input, rest: seq<byte>)
    requires Clean(w)
    requires Pending(i) == [SYNC] + rest
    ensures Pending(Read(i, 1).1) == rest
    ensures |Shift(w, SYNC)| > 0 && Shift(w, SYNC)[|Shift(w, SYNC)| - 1] == SYNC
    ensures Step(w, i) == Continue(Shift(w, SYNC), Read(i, 1).1)
  {
    if w != [] {
      assert Shift(w, SYNC)[0] == w[|w| - 1];
    }
    ReadOne(i, SYNC, rest);
  }

  /** The frame round trip: from a window that does not end in a sync byte,
      the bytes `AA AA |p| p Chksum(p)` yield the decoding of `p`, consume
      exactly `|p| + 4` bytes, and leave the rest of the input untouched. */
  lemma FrameYieldsDecodedPayload(w: seq<byte>, i: Input, p: seq<byte>, t: seq<byte>)
    requires Clean(w)
    requires |p| < SYNC as int
    requires Pending(i) == [SYNC, SYNC, |p| as byte] + p + [Chksum(p)] + t
    ensures Scan(w, i) == (FrameOutcome(p), Read(i, |p| + 4).1)
    ensures Pending(Scan(w, i).1) == t
  {
    var rest := [SYNC, |p| as byte] + p + [Chksum(p)] + t;
    assert Pending(i) == [SYNC] + rest;
    StepFirstSync(w, i, rest);
    var i1, w1 := Read(i, 1).1, Shift(w, SYNC);
    ScanContinues(w, i);
    assert Scan(w, i) == Scan(w1, i1);
    SyncedFrame(w1, i1, p, Chksum(p), t);
    var i2 := Read(i1, |p| + 3).1;
    assert Step(w1, i1) == Stop(FrameOutcome(p), i2);
    ScanStops(w1, i1);
    assert Scan(w1, i1) == (FrameOutcome(p), i2);
    ReadsCompose(i, 1, |p| + 3);
    assert i2 == Read(i, |p| + 4).1;
  }

  /** A wrong checksum yields nothing: the payload and checksum bytes are
      pushed back, the window is emptied, and when the buffer held no more
      than the frame those bytes are the very next ones read. */
  lemma ChecksumMismatchPushesBack(w: seq<byte>, i: Input, p: seq<byte>, c: byte, t: seq<byte>)
    requires |w| > 0 && w[|w| - 1] == SYNC
    requires |p| < SYNC as int && c != Chksum(p)
    requires Pending(i) == [SYNC, |p| as byte] + p + [c] + t
    ensures Step(w, i) == Continue([], Deread(Read(i, |p| + 3).1, p + [c]))
    ensures Pending(Read(i, |p| + 3).1) == t
    ensures |i.buffered| <= |p| + 3 ==> Pending(Step(w, i).input) == p + [c] + t
  {
    SyncedFrame(w, i, p, c, t);
    if |i.buffered| <= |p| + 3 {
      ReplayComesNext(i, |p| + 3, p + [c]);
    }
  }

  /** A length byte of 0xAA or more right after a sync pair is discarded
      without reading a payload, and the window becomes that sync byte
      followed by the length byte instead of being emptied. */
  lemma BogusLengthSlidesWindow(w: seq<byte>, i: Input, plen: byte, t: seq<byte>)
    requires |w| > 0 && w[|w| - 1] == SYNC
    requires plen >= SYNC
    requires Pending(i) == [SYNC, plen] + t
    ensures Step(w, i) == Continue([SYNC, plen], Read(i, 2).1)
    ensures Pending(Read(i, 2).1) == t
  {
    StepCompletesSync(w, i, [plen] + t);
    var i1 := Read(i, 1).1;
    ReadOne(i1, plen, t);
    ReadsCompose(i, 1, 1);
  }

  /** Noise without sync bytes is shifted through the window one byte per
      pass, and the window never ends in a sync byte meanwhile. */
  lemma NoiseIsSkipped(w: seq<byte>, i: Input, junk: seq<byte>, rest: seq<byte>)
    requires Clean(w) && SyncFree(junk)
    requires Pending(i) == junk + rest
    ensures Clean(Slide(w, junk))
    ensures Pending(Read(i, |junk|).1) == rest
    ensures Scan(w, i) == Scan(Slide(w, junk), Read(i, |junk|).1)
  {
    NoiseSteps(w, i, junk, rest);
    ScanSteps(w, i, |junk|);
  }

  /** `n` passes of the loop, as long as none of them stops. */
  function Steps(w: seq<byte>, i: Input, n: nat): StepResult
    decreases n
  {
    if n == 0 then Continue(w, i)
    else
      match Step(w, i)
      case Stop(o, i2) => Stop(o, i2)
      case Continue(w2, i2) => Steps(w2, i2, n - 1)
  }

  /** A resumption that goes round `n` times resumes where those passes end. */
  lemma {:induction false} ScanSteps(w: seq<byte>, i: Input, n: nat)
    requires Steps(w, i, n).Continue?
    ensures Scan(w, i) == Scan(Steps(w, i, n).window, Steps(w, i, n).input)
    decreases n
  {
    if n == 0 {
      assert Steps(w, i, n) == Continue(w, i);
    } else {
      StepsUnfold(w, i, n);
      var w2, i2 := Step(w, i).window, Step(w, i).input;
      ScanContinues(w, i);
      ScanSteps(w2, i2, n - 1);
      var r := Steps(w2, i2, n - 1);
      assert Steps(w, i, n) == r;
      assert Scan(w, i) == Scan(w2, i2) == Scan(r.window, r.input);
    }
  }

  /** The first of `n` passes that all go round. */
  lemma StepsUnfold(w: seq<byte>, i: Input, n: nat)
    requires n > 0 && Steps(w, i, n).Continue?
    ensures Step(w, i).Continue?
    ensures Steps(w, i, n) == Steps(Step(w, i).window, Step(w, i).input, n - 1)
  {
  }

  /** The passes over the noise, one byte each. */
  lemma {:induction false} NoiseSteps(w: seq<byte>, i: Input, junk: seq<byte>, rest: seq<byte>)
    requires Clean(w) && SyncFree(junk)
    requires Pending(i) == junk + rest
    ensures Clean(Slide(w, junk))
    ensures Pending(Read(i, |junk|).1) == rest
    ensures Steps(w, i, |junk|) == Continue(Slide(w, junk), Read(i, |junk|).1)
    decreases |junk|
  {
    if junk == [] {
      assert Read(i, 0).1 == i;
    } else {
      var x := junk[0];
      assert Pending(i) == [x] + (junk[1..] + rest);
      NoiseByte(w, i, x, junk[1..] + rest);
      SyncFreeTail(junk);
      NoiseSteps(Shift(w, x), Read(i, 1).1, junk[1..], rest);
      ReadsRest(i, 1, |junk|);
      assert Slide(w, junk) == Slide(Shift(w, x), junk[1..]);
      assert Steps(w, i, |junk|) == Steps(Shift(w, x), Read(i, 1).1, |junk| - 1);
    }
  }

  /** One noise byte keeps a clean window clean and is shifted into it. */
  lemma NoiseByte(w: seq<byte>, i: Input, x: byte, rest: seq<byte>)
    requires Clean(w) && x != SYNC
    requires Pending(i) == [x] + rest
    ensures Clean(Shift(w, x))
    ensures Pending(Read(i, 1).1) == rest
    ensures Step(w, i) == Continue(Shift(w, x), Read(i, 1).1)
  {
    if w != [] {
      assert Shift(w, x)[0] == w[|w| - 1];
    }
    StepShiftsNonSync(w, i, x, rest);
    ReadOne(i, x, rest);
  }

  lemma SyncFreeTail(s: seq<byte>)
    requires s != [] && SyncFree(s)
    ensures SyncFree(s[1..])
  {
    forall k | 0 <= k < |s[1..]| ensures s[1..][k] != SYNC {
      assert s[1..][k] == s[k + 1];
    }
  }

  /** Noise without sync bytes in front of a well-formed frame is skipped and
      the frame's payload is yielded. */
  lemma FrameAfterNoise(w: seq<byte>, i: Input, junk: seq<byte>, p: seq<byte>, t: seq<byte>)
    requires Clean(w) && SyncFree(junk)
    requires |p| < SYNC as int
    requires Pending(i) == junk + [SYNC, SYNC, |p| as byte] + p + [Chksum(p)] + t
    ensures Scan(w, i).0 == FrameOutcome(p)
    ensures Pending(Scan(w, i).1) == t
  {
    var frame := [SYNC, SYNC, |p| as byte] + p + [Chksum(p)] + t;
    assert Pending(i) == junk + frame;
    NoiseIsSkipped(w, i, junk, frame);
    FrameYieldsDecodedPayload(Slide(w, junk), Read(i, |junk|).1, p, t);
  }

  /** A frame that fails its checksum, met from a clean window: its payload
      and checksum byte are pushed back and hunting restarts from an empty
      window. */
  lemma MismatchFromCleanWindow(w: seq<byte>, i: Input, p: seq<byte>, c: byte, t: seq<byte>)
    requires Clean(w)
    requires |p| < SYNC as int && c != Chksum(p)
    requires Pending(i) == [SYNC, SYNC, |p| as byte] + p + [c] + t
    ensures Pending(Read(i, |p| + 4).1) == t
    ensures Scan(w, i) == Scan([], Deread(Read(i, |p| + 4).1, p + [c]))
  {
    var rest := [SYNC, |p| as byte] + p + [c] + t;
    assert Pending(i) == [SYNC] + rest;
    StepFirstSync(w, i, rest);
    ScanContinues(w, i);
    var i1 := Read(i, 1).1;
    ChecksumMismatchPushesBack(Shift(w, SYNC), i1, p, c, t);
    ScanContinues(Shift(w, SYNC), i1);
    ReadsCompose(i, 1, |p| + 3);
  }

  /** A frame that fails its checksum and carries no sync byte in its
      payload or checksum is dropped, and a good frame right behind it is
      still found, whatever the window was. */
  lemma MismatchedFrameThenGoodFrame(w: seq<byte>, i: Input, p: seq<byte>, c: byte, q: seq<byte>, t: seq<byte>)
    requires Clean(w)
    requires |p| < SYNC as int && c != Chksum(p) && SyncFree(p + [c])
    requires |q| < SYNC as int
    requires |i.buffered| <= |p| + 4
    requires Pending(i) == [SYNC, SYNC, |p| as byte] + p + [c] + ([SYNC, SYNC, |q| as byte] + q + [Chksum(q)] + t)
    ensures Scan(w, i).0 == FrameOutcome(q)
    ensures Pending(Scan(w, i).1) == t
  {
    var good := [SYNC, SYNC, |q| as byte] + q + [Chksum(q)] + t;
    MismatchFromCleanWindow(w, i, p, c, good);
    ReadPastBuffer(i, |p| + 4);
    ReplayedNoiseThenFrame(Read(i, |p| + 4).1, p + [c], q, t);
  }

  /** Pushed-back bytes without a sync byte, replayed from an otherwise
      empty buffer, are noise in front of the frame that follows them. */
  lemma ReplayedNoiseThenFrame(j: Input, junk: seq<byte>, q: seq<byte>, t: seq<byte>)
    requires j.buffered == [] && SyncFree(junk) && |q| < SYNC as int
    requires Pending(j) == [SYNC, SYNC, |q| as byte] + q + [Chksum(q)] + t
    ensures Scan([], Deread(j, junk)).0 == FrameOutcome(q)
    ensures Pending(Scan([], Deread(j, junk)).1) == t
  {
    var i2 := Deread(j, junk);
    assert Pending(i2) == junk + ([SYNC, SYNC, |q| as byte] + q + [Chksum(q)] + t);
    assert junk + ([SYNC, SYNC, |q| as byte] + q + [Chksum(q)] + t)
        == junk + [SYNC, SYNC, |q| as byte] + q + [Chksum(q)] + t;
    FrameAfterNoise([], i2, junk, q, t);
  }

  /** A frame whose payload has one byte corrupted in transit is rejected
      and its bytes are pushed back. */
  lemma CorruptedPayloadIsPushedBack(w: seq<byte>, i: Input, p: seq<byte>, k: nat, x: byte, t: seq<byte>)
    requires |w| > 0 && w[|w| - 1] == SYNC
    requires |p| < SYNC as int && k < |p| && x != p[k]
    requires Pending(i) == [SYNC, |p| as byte] + p[k := x] + [Chksum(p)] + t
    ensures Step(w, i) == Continue([], Deread(Read(i, |p| + 3).1, p[k := x] + [Chksum(p)]))
  {
    SingleByteChangeDetected(p, k, x);
    ChecksumMismatchPushesBack(w, i, p[k := x], Chksum(p), t);
  }

  /** `f` starts with the length byte of a frame whose length is below 0xAA
      and whose payload is complete, passed its checksum and decodes to
      `els`; `rest` follows the frame. */
  ghost predicate ChecksummedFrame(f: seq<byte>, els: seq<DataElement>, rest: seq<byte>)
  {
    |f| >= 2 && f[0] < SYNC && |f| >= f[0] as int + 2 &&
    f[f[0] as int + 1] == Chksum(f[1..f[0] as int + 1]) &&
    Decoding(Builtin, f[1..f[0] as int + 1]) == Ok(els) &&
    rest == f[f[0] as int + 2..]
  }

  /** Conversely, a pass yields a packet only right after a sync pair, from
      a length below 0xAA, a complete payload and a matching checksum. */
  lemma StepPacketIsChecked(w: seq<byte>, i: Input)
    requires Step(w, i).Stop? && Step(w, i).outcome.Packet?
    ensures |w| > 0 && w[|w| - 1] == SYNC && |Pending(i)| > 0 && Pending(i)[0] == SYNC
    ensures ChecksummedFrame(Pending(i)[1..], Step(w, i).outcome.elements, Pending(Step(w, i).input))
  {
    ReadTakesPrefix(i, 1);
    var b, i1 := Read(i, 1).0, Read(i, 1).1;
    assert b != [] && Shift(w, b[0]) == [SYNC, SYNC];
    assert |Shift(w, b[0])| == if |w| == 0 then 1 else 2;
    assert Shift(w, b[0])[0] == w[|w| - 1] && Shift(w, b[0])[1] == b[0];
    assert Step(w, i) == AfterSync(i1);
    AfterSyncPacketIsChecked(i1);
  }

  lemma AfterSyncPacketIsChecked(i: Input)
    requires AfterSync(i).Stop? && AfterSync(i).outcome.Packet?
    ensures ChecksummedFrame(Pending(i), AfterSync(i).outcome.elements, Pending(AfterSync(i).input))
  {
    ReadTakesPrefix(i, 1);
    var plen, i2 := Read(i, 1).0, Read(i, 1).1;
    assert plen != [] && plen[0] < SYNC;
    var n := plen[0] as int;
    assert AfterSync(i) == FrameBody(i2, n);
    FrameBodyPacketIsChecked(i2, n);
    var f := Pending(i);
    assert f == plen + Pending(i2);
    assert f[0] as int == n;
    assert f[1..n + 1] == Pending(i2)[..n];
    assert f[n + 1] == Pending(i2)[n];
    assert f[n + 2..] == Pending(i2)[n + 1..];
  }

  lemma FrameBodyPacketIsChecked(i: Input, n: nat)
    requires FrameBody(i, n).Stop? && FrameBody(i, n).outcome.Packet?
    ensures |Pending(i)| > n
    ensures Pending(i)[n] == Chksum(Pending(i)[..n])
    ensures Decoding(Builtin, Pending(i)[..n]) == Ok(FrameBody(i, n).outcome.elements)
    ensures Pending(FrameBody(i, n).input) == Pending(i)[n + 1..]
  {
    ReadTakesPrefix(i, n);
    var packet, i3 := Read(i, n).0, Read(i, n).1;
    ReadTakesPrefix(i3, 1);
    var checksum := Read(i3, 1).0;
    assert checksum != [] && checksum[0] == Chksum(packet);
    assert |packet| == n;
    assert Pending(i)[n..] == Pending(i3);
    assert Pending(i)[n + 1..] == Pending(i3)[1..];
  }

  /** A pass that starts from window `w` with `p` pending and yields `els`:
      the window ends in a sync byte, the next byte completes the pair, and a
      checksummed frame that decodes to `els` follows, with `rest` after it. */
  ghost predicate YieldingPass(w: seq<byte>, p: seq<byte>, els: seq<DataElement>, rest: seq<byte>)
  {
    |w| > 0 && w[|w| - 1] == SYNC && |p| > 0 && p[0] == SYNC &&
    ChecksummedFrame(p[1..], els, rest)
  }

  /** Every packet a resumption yields comes from one of its passes: after
      some number `n` of passes that go round, the window ends in a sync
      byte and what is pending is a sync byte and a checksummed frame that
      decodes to the packet, followed by what the resumption leaves. */
  lemma {:induction false} ScanPacketIsChecked(w: seq<byte>, i: Input)
    requires Scan(w, i).0.Packet?
    ensures exists n: nat :: Steps(w, i, n).Continue? &&
              YieldingPass(Steps(w, i, n).window, Pending(Steps(w, i, n).input),
                           Scan(w, i).0.elements, Pending(Scan(w, i).1))
    decreases |Pending(i)|
  {
    var els, rest := Scan(w, i).0.elements, Pending(Scan(w, i).1);
    match Step(w, i)
    case Stop(o, i2) =>
      StepPacketIsChecked(w, i);
      assert Steps(w, i, 0) == Continue(w, i);
      assert YieldingPass(w, Pending(i), els, rest);
    case Continue(w2, i2) =>
      assert Scan(w, i) == Scan(w2, i2);
      ScanPacketIsChecked(w2, i2);
      var m: nat :| Steps(w2, i2, m).Continue? &&
                    YieldingPass(Steps(w2, i2, m).window, Pending(Steps(w2, i2, m).input), els, rest);
      assert Steps(w, i, m + 1) == Steps(w2, i2, m);
  }

  /** When a sync byte comes where the length should, it is consumed as a
      bogus length and the sync byte before it is lost with it: the bytes
      `AA AA AA x` leave the window at `AA x`, so a frame starting at the
      second sync byte is not recognised. */
  lemma ThirdSyncConsumedAsLength(w: seq<byte>, i: Input, x: byte, t: seq<byte>)
    requires Clean(w) && x != SYNC
    requires Pending(i) == [SYNC, SYNC, SYNC, x] + t
    ensures Pending(Read(i, 4).1) == t
    ensures Scan(w, i) == Scan([SYNC, x], Read(i, 4).1)
  {
    var rest := [SYNC, SYNC, x] + t;
    assert Pending(i) == [SYNC] + rest;
    StepFirstSync(w, i, rest);
    ScanContinues(w, i);
    SyncAsLength(Shift(w, SYNC), Read(i, 1).1, x, t);
    ReadsCompose(i, 1, 3);
  }

  lemma SyncAsLength(w: seq<byte>, i: Input, x: byte, t: seq<byte>)
    requires |w| > 0 && w[|w| - 1] == SYNC && x != SYNC
    requires Pending(i) == [SYNC, SYNC, x] + t
    ensures Pending(Read(i, 3).1) == t
    ensures Scan(w, i) == Scan([SYNC, x], Read(i, 3).1)
  {
    assert Pending(i) == [SYNC, SYNC] + ([x] + t);
    ScanBogusLength(w, i, SYNC, [x] + t);
    assert Shift([SYNC, SYNC], x) == [SYNC, x];
    ScanShiftsNonSync([SYNC, SYNC], Read(i, 2).1, x, t);
    ReadsCompose(i, 2, 1);
  }

  lemma ScanBogusLength(w: seq<byte>, i: Input, plen: byte, t: seq<byte>)
    requires |w| > 0 && w[|w| - 1] == SYNC
    requires plen >= SYNC
    requires Pending(i) == [SYNC, plen] + t
    ensures Scan(w, i) == Scan([SYNC, plen], Read(i, 2).1)
    ensures Pending(Read(i, 2).1) == t
  {
    BogusLengthSlidesWindow(w, i, plen, t);
    ScanContinues(w, i);
  }

  lemma ScanShiftsNonSync(w: seq<byte>, i: Input, x: byte, rest: seq<byte>)
    requires Pending(i) == [x] + rest
    requires Shift(w, x) != [SYNC, SYNC]
    ensures Scan(w, i) == Scan(Shift(w, x), Read(i, 1).1)
    ensures Pending(Read(i, 1).1) == rest
  {
    StepShiftsNonSync(w, i, x, rest);
    ScanContinues(w, i);
    ReadOne(i, x, rest);
  }

  /** Once nothing is pending, the next read comes back empty. */
  lemma ScanAtEnd(w: seq<byte>, i: Input)
    requires Pending(i) == []
    ensures Scan(w, i) == (EndOfInput, Input([], []))
  {
    assert i.buffered == [] && i.device == [];
    assert Read(i, 1) == ([], Input([], []));
    ScanStops(w, i);
  }

  /** An input with nothing pending holds nothing at all. */
  lemma NothingBuffered(i: Input)
    requires Pending(i) == []
    ensures i == Input([], [])
  {
    assert |i.buffered| + |i.device| == 0;
  }

  /** The Attention frame `AA AA 02 04 32 C9`, wherever its bytes are
      waiting, yields Attention 50 and consumes the whole input. */
  lemma AttentionFrameExample(i: Input)
    requires Pending(i) == [0xAA, 0xAA, 0x02, 0x04, 0x32, 0xC9]
    ensures Scan([], i) == (Packet([DataElement(Attention, 0, 0x04, Byte(50))]), Input([], []))
  {
    ChksumExamples();
    AttentionDecodeExample();
    assert Pending(i) == [SYNC, SYNC, |[0x04, 0x32]| as byte] + [0x04, 0x32] + [Chksum([0x04, 0x32])] + [];
    FrameYieldsDecodedPayload([], i, [0x04, 0x32], []);
    NothingBuffered(Scan([], i).1);
  }

  /** With one extra sync byte in front of that frame, the third sync byte
      is taken for a bogus length and the frame is lost: the session reaches
      the end of the input without yielding anything. */
  lemma TripleSyncMissesFrame()
    ensures Scan([], Input([], [0xAA, 0xAA, 0xAA, 0x02, 0x04, 0x32, 0xC9])) == (EndOfInput, Input([], []))
  {
    var bad := Input([], [0xAA, 0xAA, 0xAA, 0x02, 0x04, 0x32, 0xC9]);
    assert Pending(bad) == [SYNC, SYNC, SYNC, 0x02] + [0x04, 0x32, 0xC9];
    ThirdSyncConsumedAsLength([], bad, 0x02, [0x04, 0x32, 0xC9]);
    var j := Read(bad, 4).1;
    TailIsNoise(j);
  }

  lemma TailIsNoise(j: Input)
    requires Pending(j) == [0x04, 0x32, 0xC9]
    ensures Scan([SYNC, 0x02], j) == (EndOfInput, Input([], []))
  {
    assert Pending(j) == [0x04, 0x32, 0xC9] + [];
    assert SyncFree([0x04, 0x32, 0xC9]);
    NoiseIsSkipped([SYNC, 0x02], j, [0x04, 0x32, 0xC9], []);
    ScanAtEnd(Slide([SYNC, 0x02], [0x04, 0x32, 0xC9]), Read(j, 3).1);
  }

  /** The payload of the eight-byte frame at the head of `SplicedStream`. */
  const SplicedPayload: seq<byte> := [0xAA, 0xAA, 0x01, 0x32, 0xC9, 0xAA, 0xAA, 0x02]

  /** `AA AA 08 AA AA 01 32 C9 AA AA 02 04`: a stream in which the bytes 04
      and 32 never occur next to each other. */
  const SplicedStream: seq<byte> := [SYNC, SYNC, 0x08] + SplicedPayload + [0x04]

  lemma SplicedStreamHasNoAttentionPair()
    ensures SplicedStream == [0xAA, 0xAA, 0x08, 0xAA, 0xAA, 0x01, 0x32, 0xC9, 0xAA, 0xAA, 0x02, 0x04]
    ensures forall k :: 0 <= k < |SplicedStream| - 1 ==> !(SplicedStream[k] == 0x04 && SplicedStream[k + 1] == 0x32)
  {
  }

  /** Because pushed-back bytes go after the unread rest of the buffer, a
      second checksum failure while replaying reorders the stream: the
      eight-byte frame fails its checksum, its replay holds a one-byte frame
      `01 32 C9` that fails too, and `32 C9` is replayed after `AA AA 02 04`,
      completing a frame `AA AA 02 04 32 C9` that never occurred. */
  lemma ReplayOutOfOrderYieldsSplicedFrame(i: Input)
    requires i == Input([], SplicedStream)
    ensures Scan([], i) == (Packet([DataElement(Attention, 0, 0x04, Byte(50))]), Input([], []))
  {
    var j := Input(SplicedPayload + [0x04], []);
    var k := Input([0xAA, 0xAA, 0x02, 0x04, 0x32, 0xC9], []);
    FirstFrameFails(i, j);
    SecondFrameFails(j, k);
    AttentionFrameExample(k);
  }

  /** The sum of two payload bytes. */
  lemma SumPair(x: byte, y: byte)
    ensures Sum([x, y]) == x + y
  {
    assert [x, y][1..] == [y];
  }

  /** The eight payload bytes sum to 934, so their checksum is 0x59. */
  lemma SplicedPayloadChecksum()
    ensures Chksum(SplicedPayload) == 0x59
  {
    var p := SplicedPayload;
    assert p == [0xAA, 0xAA] + [0x01, 0x32] + ([0xC9, 0xAA] + [0xAA, 0x02]);
    SumPair(0xAA, 0xAA);
    SumPair(0x01, 0x32);
    SumPair(0xC9, 0xAA);
    SumPair(0xAA, 0x02);
    SumAppend([0xC9, 0xAA], [0xAA, 0x02]);
    SumAppend([0x01, 0x32], [0xC9, 0xAA] + [0xAA, 0x02]);
    SumAppend([0xAA, 0xAA], [0x01, 0x32] + ([0xC9, 0xAA] + [0xAA, 0x02]));
  }

  lemma FirstFrameFails(i: Input, j: Input)
    requires i == Input([], SplicedStream)
    requires j == Input(SplicedPayload + [0x04], [])
    ensures Scan([], i) == Scan([], j)
  {
    var p := SplicedPayload;
    SplicedPayloadChecksum();
    assert Pending(i) == [SYNC, SYNC, |p| as byte] + p + [0x04] + [];
    MismatchFromCleanWindow([], i, p, 0x04, []);
    NothingBuffered(Read(i, |p| + 4).1);
    assert [] + (p + [0x04]) == p + [0x04];
    assert Deread(Read(i, |p| + 4).1, p + [0x04]) == j;
  }

  lemma SecondFrameFails(j: Input, k: Input)
    requires j == Input(SplicedPayload + [0x04], [])
    requires k == Input([0xAA, 0xAA, 0x02, 0x04, 0x32, 0xC9], [])
    ensures Scan([], j) == Scan([], k)
  {
    var p: seq<byte>, c: byte, t: seq<byte> := [0x32], 0xC9, [0xAA, 0xAA, 0x02, 0x04];
    SecondFrameBytes(j, k, p, c, t);
    MismatchFromCleanWindow([], j, p, c, t);
  }

  /** The bytes of the replayed one-byte frame and what its pushback leaves. */
  lemma SecondFrameBytes(j: Input, k: Input, p: seq<byte>, c: byte, t: seq<byte>)
    requires j == Input(SplicedPayload + [0x04], [])
    requires k == Input([0xAA, 0xAA, 0x02, 0x04, 0x32, 0xC9], [])
    requires p == [0x32] && c == 0xC9 && t == [0xAA, 0xAA, 0x02, 0x04]
    ensures |p| < SYNC as int && c != Chksum(p)
    ensures Pending(j) == [SYNC, SYNC, |p| as byte] + p + [c] + t
    ensures Deread(Read(j, |p| + 4).1, p + [c]) == k
  {
    assert Sum(p) == 0x32 by {
      assert p[1..] == [];
    }
    assert Read(j, |p| + 4).1 == Input(t, []);
    assert t + (p + [c]) == [0xAA, 0xAA, 0x02, 0x04, 0x32, 0xC9];
  }
}
