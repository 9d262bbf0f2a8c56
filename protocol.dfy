/** The receiving session `ThinkGearProtocol` (thinkgear/thinkgear.py:56-169):
    the pushback reads, and the `get_packets` synchronizer that hunts for
    the `AA AA` sync pair, reads a length, a payload and a checksum, and
    either yields the decoded payload or pushes the bytes back and resumes
    hunting. */
module Protocol {
  import opened Base
  import opened Values
  import opened Registry
  import opened Payload
  import opened Checksum
  import opened Pushback

  const SYNC: byte := 0xAA

  /** Why the Python generator would raise instead of yielding. */
  datatype Fault =
    | MissingLength                 // `ord('')` on an empty length read
    | MissingChecksum               // `ord('')` on an empty checksum read
    | Undecodable(error: DecodeError) // a value decoder rejects its bytes

  /** What one resumption of `get_packets` ends with. */
  datatype Outcome =
    | Packet(elements: seq<DataElement>)
    | EndOfInput
    | Raised(fault: Fault)

  /** One pass of the `while True` body: either go round again with a new
      window and input, or stop with an outcome. */
  datatype StepResult =
    | Continue(window: seq<byte>, input: Input)
    | Stop(outcome: Outcome, input: Input)

  /** `last_two[-1:] + (x,)`: the new byte, after the last byte of the old
      window if there was one. */
  function Shift(w: seq<byte>, x: byte): (r: seq<byte>)
    ensures |r| == if w == [] then 1 else 2
    ensures r[|r| - 1] == x
    ensures w != [] ==> r[0] == w[|w| - 1]
  {
    (if |w| == 0 then [] else [w[|w| - 1]]) + [x]
  }

  /** The outcome of a frame whose checksum matched: the packet when every
      element decodes, otherwise the decoder's exception. */
  function FrameOutcome(packet: seq<byte>): (o: Outcome)
    ensures !o.EndOfInput?
    ensures o.Packet? <==> Decoding(Builtin, packet).Ok?
    ensures o.Packet? ==> Decoding(Builtin, packet) == Ok(o.elements)
    ensures o.Raised? ==> o.fault == Undecodable(Decoding(Builtin, packet).error)
  {
    match Decoding(Builtin, packet)
    case Ok(els) => Packet(els)
    case Err(e) => Raised(Undecodable(e))
  }

  /** One pass of the loop at thinkgear/thinkgear.py:110-130. A pass that goes
      round again has consumed input and keeps a window of at most two bytes. */
  function Step(w: seq<byte>, i: Input): (r: StepResult)
    ensures r.Continue? ==> |Pending(r.input)| < |Pending(i)| && |r.window| <= 2
  {
    ReadTakesPrefix(i, 1);
    var (b, i1) := Read(i, 1);
    if b == [] then Stop(EndOfInput, i1)
    else
      var w1 := Shift(w, b[0]);
      if w1 != [SYNC, SYNC] then Continue(w1, i1) else AfterSync(i1)
  }

  /** The rest of a pass once `last_two` is the sync pair
      (thinkgear/thinkgear.py:113-118): a length byte, then either a bogus
      length that slides the window, or a frame of that length. */
  function AfterSync(i: Input): (r: StepResult)
    ensures r.Continue? ==> |Pending(r.input)| < |Pending(i)| && |r.window| <= 2
  {
    ReadTakesPrefix(i, 1);
    var (plen, i2) := Read(i, 1);
    if plen == [] then Stop(Raised(MissingLength), i2)
    else if plen[0] >= SYNC then Continue(Shift([SYNC, SYNC], plen[0]), i2)
    else FrameBody(i2, plen[0])
  }

  /** A payload of `n` bytes and its checksum byte
      (thinkgear/thinkgear.py:120-130): yield the decoding when the checksum
      matches, otherwise push both back and empty the window. */
  function FrameBody(i: Input, n: nat): (r: StepResult)
    ensures r.Continue? ==> |Pending(r.input)| == |Pending(i)| && r.window == []
  {
    ReadTakesPrefix(i, n);
    var (packet, i3) := Read(i, n);
    ReadTakesPrefix(i3, 1);
    var (checksum, i4) := Read(i3, 1);
    if checksum == [] then Stop(Raised(MissingChecksum), i4)
    else if checksum[0] == Chksum(packet) then Stop(FrameOutcome(packet), i4)
    else Continue([], Deread(i4, packet + checksum))
  }

  /** Passes of the loop from window `w` until one stops. A resumption
      never adds input, and it ends for lack of input only once nothing is
      pending. */
  function Scan(w: seq<byte>, i: Input): (r: (Outcome, Input))
    ensures |Pending(r.1)| <= |Pending(i)|
    ensures r.0.EndOfInput? ==> Pending(r.1) == []
    ensures Pending(i) == [] ==> r.0 == EndOfInput
    decreases |Pending(i)|
  {
    StepStops(w, i);
    match Step(w, i)
    case Stop(o, i2) => (o, i2)
    case Continue(w2, i2) => Scan(w2, i2)
  }

  /** A pass that stops has not added input, and it stops for lack of
      input exactly when nothing is pending. */
  lemma StepStops(w: seq<byte>, i: Input)
    ensures Step(w, i).Stop? ==> |Pending(Step(w, i).input)| <= |Pending(i)|
    ensures Step(w, i).Stop? && Step(w, i).outcome.EndOfInput? <==> Pending(i) == []
  {
    ReadTakesPrefix(i, 1);
    if Pending(i) != [] {
      AfterSyncStops(Read(i, 1).1);
    }
  }

  lemma AfterSyncStops(i: Input)
    ensures AfterSync(i).Stop? ==> |Pending(AfterSync(i).input)| <= |Pending(i)|
    ensures AfterSync(i).Stop? ==> !AfterSync(i).outcome.EndOfInput?
  {
    ReadTakesPrefix(i, 1);
    var plen, i2 := Read(i, 1).0, Read(i, 1).1;
    if plen != [] && plen[0] < SYNC {
      FrameBodyStops(i2, plen[0] as int);
    }
  }

  lemma FrameBodyStops(i: Input, n: nat)
    ensures FrameBody(i, n).Stop? ==> |Pending(FrameBody(i, n).input)| <= |Pending(i)|
    ensures FrameBody(i, n).Stop? ==> !FrameBody(i, n).outcome.EndOfInput?
  {
    ReadTakesPrefix(i, n);
    ReadTakesPrefix(Read(i, n).1, 1);
  }

  /** The session. The device is the finite sequence of bytes the serial
      port will deliver, `cursor` of them already delivered; `preread` and
      `pos` are the pushback buffer's contents and read position, and
      `fromPreread` says whether `io` is the buffer rather than the port. */
  class ThinkGearProtocol {
    const device: seq<byte>
    var cursor: nat
    var preread: seq<byte>
    var pos: nat
    var fromPreread: bool

    ghost predicate Valid()
      reads this
    {
      cursor <= |device| && pos <= |preread| &&
      (!fromPreread ==> preread == [] && pos == 0)
    }

    ghost function AsInput(): Input
      reads this
      requires Valid()
    {
      Input(preread[pos..], device[cursor..])
    }

    /** `__init__`: an empty buffer, reading from the port. */
    constructor (device: seq<byte>)
      ensures Valid()
      ensures this.device == device && cursor == 0
      ensures preread == [] && pos == 0 && !fromPreread
      ensures AsInput() == Input([], device)
    {
      this.device := device;
      cursor := 0;
      preread := [];
      pos := 0;
      fromPreread := false;
    }

    /** `self.serial.read(n)`: up to `n` further device bytes. */
    method ReadSerial(n: nat) returns (buf: seq<byte>)
      requires Valid()
      modifies this
      ensures Valid()
      ensures buf == old(device[cursor..])[..Min(n, |old(device[cursor..])|)]
      ensures cursor == old(cursor) + |buf|
      ensures preread == old(preread) && pos == old(pos) && fromPreread == old(fromPreread)
    {
      var k := Min(n, |device| - cursor);
      buf := device[cursor..cursor + k];
      cursor := cursor + k;
    }

    /** `_read(n)`. */
    method Read(n: nat) returns (buf: seq<byte>)
      requires Valid()
      modifies this
      ensures Valid()
      ensures (buf, AsInput()) == Pushback.Read(old(AsInput()), n)
      ensures old(fromPreread) && old(pos) + n <= old(|preread|) ==>
                preread == old(preread) && pos == old(pos) + n && fromPreread && cursor == old(cursor)
      ensures old(fromPreread) && old(pos) + n > old(|preread|) ==>
                preread == [] && pos == 0 && !fromPreread
      ensures !old(fromPreread) ==> preread == [] && pos == 0 && !fromPreread
    {
      ghost var u, d := preread[pos..], device[cursor..];
      if fromPreread {
        var k := Min(n, |preread| - pos);
        buf := preread[pos..pos + k];
        pos := pos + k;
        if |buf| < n {
          assert buf == u;
          preread := [];
          pos := 0;
          fromPreread := false;
          var more := ReadSerial(n - |buf|);
          buf := buf + more;
        } else {
          assert buf == u[..n] && preread[pos..] == u[n..];
        }
      } else {
        buf := ReadSerial(n);
        assert u == [] && buf == [] + d[..Min(n, |d|)];
      }
    }

    /** `_deread(b)`: write `b` at the end of the buffer, keep the read
        position, and read from the buffer from now on. */
    method Deread(b: seq<byte>)
      requires Valid()
      modifies this
      ensures Valid()
      ensures AsInput() == Pushback.Deread(old(AsInput()), b)
      ensures preread == old(preread) + b && pos == old(pos) && fromPreread
      ensures cursor == old(cursor)
    {
      preread := preread + b;
      fromPreread := true;
    }

    /** One resumption of `get_packets`, from the empty window the generator
        holds at its start and after every yield, until it yields a packet,
        would raise, or the device runs dry. */
    method NextPacket() returns (out: Outcome)
      requires Valid()
      modifies this
      ensures Valid()
      ensures (out, AsInput()) == Scan([], old(AsInput()))
    {
      var lastTwo: seq<byte> := [];
      while true
        invariant Valid()
        invariant Scan(lastTwo, AsInput()) == Scan([], old(AsInput()))
        decreases |Pending(AsInput())|
      {
        ghost var w0, i0 := lastTwo, AsInput();
        var b := Read(1);
        if b == [] {
          out := EndOfInput;
          return;
        }
        lastTwo := Shift(lastTwo, b[0]);
        if lastTwo == [SYNC, SYNC] {
          var plen := Read(1);
          if plen == [] {
            out := Raised(MissingLength);
            return;
          }
          if plen[0] >= SYNC {
            lastTwo := Shift(lastTwo, plen[0]);
          } else {
            lastTwo := [];
            var packet := Read(plen[0]);
            var checksum := Read(1);
            if checksum == [] {
              out := Raised(MissingChecksum);
              return;
            }
            if checksum[0] == Chksum(packet) {
              var decoded := Decode(Builtin, packet);
              out := if decoded.Ok? then Packet(decoded.value) else Raised(Undecodable(decoded.error));
              return;
            }
            Deread(packet + checksum);
          }
        }
        assert Step(w0, i0) == Continue(lastTwo, AsInput());
      }
    }
  }
}
