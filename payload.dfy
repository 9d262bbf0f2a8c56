/** The TLV payload decoder `ThinkGearProtocol._decode`
    (thinkgear/thinkgear.py:135-169). */
module Payload {
  import opened Base
  import opened Values
  import opened Registry

  /** The extension-prefix byte. */
  const EXCODE: byte := 0x55

  /** One element as it stands on the wire, before dispatch. */
  datatype RawElement = RawElement(level: nat, code: byte, value: seq<byte>)

  /** The elements of a payload, in wire order, from the point where `level`
      prefix bytes have already been stripped: strip further 0x55 bytes, stop
      when fewer than two bytes are left, take one value byte after a code
      below 0x80, otherwise a length byte and that many value bytes (stopping
      when they are not all there). */
  function Parse(level: nat, q: seq<byte>): (r: seq<RawElement>)
    ensures 2 * |r| <= |q|
    decreases |q|
  {
    if |q| > 0 && q[0] == EXCODE then Parse(level + 1, q[1..])
    else if |q| < 2 then []
    else if q[0] < 0x80 then [RawElement(level, q[0], q[1..2])] + Parse(0, q[2..])
    else if |q| < 2 + q[1] as int then []
    else [RawElement(level, q[0], q[2..2 + q[1] as int])] + Parse(0, q[2 + q[1] as int..])
  }

  /** The elements of a payload. */
  function Elements(packet: seq<byte>): (r: seq<RawElement>)
    ensures 2 * |r| <= |packet|
  {
    Parse(0, packet)
  }

  /** `ok` prepended to the result of the rest of a decode. */
  function Prepend(ok: seq<DataElement>, r: Result<seq<DataElement>, DecodeError>): Result<seq<DataElement>, DecodeError>
  {
    match r
    case Ok(els) => Ok(ok + els)
    case Err(e) => Err(e)
  }

  /** Every raw element resolved in turn; the first decoder that raises ends
      the decode with its exception. */
  function ResolveAll(reg: DataTypes, raws: seq<RawElement>): (r: Result<seq<DataElement>, DecodeError>)
    ensures r.Ok? ==> |r.value| == |raws|
  {
    if raws == [] then Ok([])
    else
      match Resolve(reg, raws[0].level, raws[0].code, raws[0].value)
      case Err(e) => Err(e)
      case Ok(el) => Prepend([el], ResolveAll(reg, raws[1..]))
  }

  /** What `_decode` returns for a payload. */
  function Decoding(reg: DataTypes, packet: seq<byte>): (r: Result<seq<DataElement>, DecodeError>)
    ensures r.Ok? ==> |r.value| == |Elements(packet)| && 2 * |r.value| <= |packet|
  {
    ResolveAll(reg, Elements(packet))
  }

  /** Every element of a successful decode keeps the level and code it had
      on the wire, and its value is in the range of its class. */
  lemma {:induction false} ResolvedInRange(reg: DataTypes, raws: seq<RawElement>)
    requires ResolveAll(reg, raws).Ok?
    ensures forall k :: 0 <= k < |raws| ==>
              && ResolveAll(reg, raws).value[k].level == raws[k].level
              && ResolveAll(reg, raws).value[k].code == raws[k].code
              && InRange(ResolveAll(reg, raws).value[k].kind, ResolveAll(reg, raws).value[k].value)
    decreases |raws|
  {
    if raws != [] {
      ResolvedInRange(reg, raws[1..]);
      var els := ResolveAll(reg, raws).value;
      assert els == [els[0]] + ResolveAll(reg, raws[1..]).value;
    }
  }

  lemma PrependEmpty(r: Result<seq<DataElement>, DecodeError>)
    ensures Prepend([], r) == r
  {
    if r.Ok? {
      assert [] + r.value == r.value;
    }
  }

  lemma PrependNothing(a: seq<DataElement>)
    ensures Prepend(a, Ok([])) == Ok(a)
  {
    assert a + [] == a;
  }

  lemma PrependTwice(a: seq<DataElement>, b: seq<DataElement>, r: Result<seq<DataElement>, DecodeError>)
    ensures Prepend(a, Prepend(b, r)) == Prepend(a + b, r)
  {
    if r.Ok? {
      assert a + (b + r.value) == (a + b) + r.value;
    }
  }

  /** `_decode`: strip prefixes, split off one element, dispatch it through
      the registry, repeat while payload bytes remain. */
  method Decode(reg: DataTypes, packet0: seq<byte>) returns (r: Result<seq<DataElement>, DecodeError>)
    ensures r == Decoding(reg, packet0)
  {
    var packet := packet0;
    var decoded: seq<DataElement> := [];
    PrependEmpty(Decoding(reg, packet0));
    while |packet| > 0
      invariant Decoding(reg, packet0) == Prepend(decoded, Decoding(reg, packet))
      decreases |packet|
    {
      ghost var start := packet;
      var level: nat := 0;
      while |packet| > 0 && packet[0] == EXCODE
        invariant Parse(0, start) == Parse(level, packet)
        decreases |packet|
      {
        level := level + 1;
        packet := packet[1..];
      }
      if |packet| < 2 {
        PrependNothing(decoded);
        break;
      }
      var code := packet[0];
      var value: seq<byte>;
      if code < 0x80 {
        value := packet[1..2];
        packet := packet[2..];
      } else {
        var vlen := packet[1] as int;
        if |packet| < 2 + vlen {
          PrependNothing(decoded);
          break;
        }
        value := packet[2..2 + vlen];
        packet := packet[2 + vlen..];
      }
      assert Parse(0, start) == [RawElement(level, code, value)] + Parse(0, packet);
      var data := Resolve(reg, level, code, value);
      DecodingFirst(reg, start, RawElement(level, code, value), packet);
      match data {
        case Err(e) =>
          return Err(e);
        case Ok(el) =>
          PrependTwice(decoded, [el], Decoding(reg, packet));
          decoded := decoded + [el];
      }
    }
    PrependNothing(decoded);
    r := Ok(decoded);
  }

  /** Decoding a payload whose first element is `e` is resolving `e`, then
      decoding the rest. */
  lemma DecodingFirst(reg: DataTypes, start: seq<byte>, e: RawElement, rest: seq<byte>)
    requires Elements(start) == [e] + Elements(rest)
    ensures Decoding(reg, start) == match Resolve(reg, e.level, e.code, e.value)
              case Err(err) => Err(err)
              case Ok(el) => Prepend([el], Decoding(reg, rest))
  {
    assert Elements(start)[0] == e && Elements(start)[1..] == Elements(rest);
  }

  /** `k` extension-prefix bytes. */
  function ExtendedPrefix(k: nat): seq<byte>
  {
    if k == 0 then [] else [EXCODE] + ExtendedPrefix(k - 1)
  }

  /** The wire form of one element: its prefixes, its code, and either its
      single value byte or its length byte and value (the length byte only
      means the length for a well-formed element). */
  function Encode(e: RawElement): seq<byte>
  {
    ExtendedPrefix(e.level) + [e.code] + (if e.code < 0x80 then e.value else [|e.value| % 0x100] + e.value)
  }

  /** An element that has a wire form which decodes back to it: its code is
      not the prefix byte, and its value has the length the code implies. */
  predicate WellFormed(e: RawElement)
  {
    && e.code != EXCODE
    && (e.code < 0x80 ==> |e.value| == 1)
    && |e.value| < 0x100
  }

  /** The wire form of a sequence of elements, one after the other. */
  function Flatten(els: seq<RawElement>): seq<byte>
  {
    if els == [] then [] else Encode(els[0]) + Flatten(els[1..])
  }

  /** Stripping `k` prefix bytes adds `k` to the level of the next element. */
  lemma {:induction false} ParsePrefix(level: nat, k: nat, q: seq<byte>)
    ensures Parse(level, ExtendedPrefix(k) + q) == Parse(level + k, q)
    decreases k
  {
    if k > 0 {
      var q' := ExtendedPrefix(k) + q;
      assert q' == [EXCODE] + (ExtendedPrefix(k - 1) + q);
      assert q'[1..] == ExtendedPrefix(k - 1) + q;
      assert |q'| > 0 && q'[0] == EXCODE;
      assert Parse(level, q') == Parse(level + 1, q'[1..]);
      ParsePrefix(level + 1, k - 1, q);
    } else {
      assert ExtendedPrefix(k) + q == q;
    }
  }

  /** One encoded element in front of any bytes parses as that element
      followed by the elements of those bytes: its level is the number of
      prefixes, a code below 0x80 takes exactly two bytes, any other code
      takes two bytes plus its value. */
  lemma ParseOne(e: RawElement, rest: seq<byte>)
    requires WellFormed(e)
    ensures Elements(Encode(e) + rest) == [e] + Elements(rest)
  {
    var body := if e.code < 0x80 then e.value else [|e.value|] + e.value;
    var q := [e.code] + body + rest;
    assert Encode(e) + rest == ExtendedPrefix(e.level) + q;
    ParsePrefix(0, e.level, q);
    if e.code < 0x80 {
      assert q[1..2] == e.value && q[2..] == rest;
    } else {
      assert q[1] == |e.value|;
      assert q[2..2 + q[1] as int] == e.value && q[2 + q[1] as int..] == rest;
    }
  }

  /** Elements come out in wire order: decoding concatenated encodings, with
      any bytes after them, gives those elements followed by the elements of
      the bytes after them. */
  lemma {:induction false} ParseFlatten(els: seq<RawElement>, tail: seq<byte>)
    requires forall k :: 0 <= k < |els| ==> WellFormed(els[k])
    ensures Elements(Flatten(els) + tail) == els + Elements(tail)
  {
    if els != [] {
      assert Flatten(els) + tail == Encode(els[0]) + (Flatten(els[1..]) + tail);
      ParseOne(els[0], Flatten(els[1..]) + tail);
      ParseFlatten(els[1..], tail);
      assert els == [els[0]] + els[1..];
    } else {
      assert Flatten(els) + tail == tail;
    }
  }

  /** The bytes the parser leaves unread, with the prefixes it stripped
      before the element it could not complete. */
  ghost function Leftover(level: nat, q: seq<byte>): seq<byte>
    decreases |q|
  {
    if |q| > 0 && q[0] == EXCODE then Leftover(level + 1, q[1..])
    else if |q| < 2 then ExtendedPrefix(level) + q
    else if q[0] < 0x80 then Leftover(0, q[2..])
    else if |q| < 2 + q[1] as int then ExtendedPrefix(level) + q
    else Leftover(0, q[2 + q[1] as int..])
  }

  /** Every element the parser produces is well formed. */
  lemma {:induction false} ParsedWellFormed(level: nat, q: seq<byte>)
    ensures forall k :: 0 <= k < |Parse(level, q)| ==> WellFormed(Parse(level, q)[k])
    decreases |q|
  {
    if |q| > 0 && q[0] == EXCODE {
      ParsedWellFormed(level + 1, q[1..]);
    } else if |q| < 2 || (q[0] >= 0x80 && |q| < 2 + q[1] as int) {
    } else {
      var n := if q[0] < 0x80 then 2 else 2 + q[1] as int;
      ParsedWellFormed(0, q[n..]);
    }
  }

  /** The payload is the re-encoding of its elements followed by the bytes
      the parser left unread. */
  lemma {:induction false} ParseLeftover(level: nat, q: seq<byte>)
    ensures ExtendedPrefix(level) + q == Flatten(Parse(level, q)) + Leftover(level, q)
    decreases |q|, 1
  {
    if |q| > 0 && q[0] == EXCODE {
      ParseLeftover(level + 1, q[1..]);
      PrefixStep(level, q);
    } else if |q| < 2 || (q[0] >= 0x80 && |q| < 2 + q[1] as int) {
      assert Flatten(Parse(level, q)) == [];
    } else {
      ParseLeftoverElement(level, q);
    }
  }

  lemma {:induction false} ParseLeftoverElement(level: nat, q: seq<byte>)
    requires !(|q| > 0 && q[0] == EXCODE)
    requires !(|q| < 2 || (q[0] >= 0x80 && |q| < 2 + q[1] as int))
    ensures ExtendedPrefix(level) + q == Flatten(Parse(level, q)) + Leftover(level, q)
    decreases |q|, 0
  {
    var n := if q[0] < 0x80 then 2 else 2 + q[1] as int;
    var e := RawElement(level, q[0], if q[0] < 0x80 then q[1..2] else q[2..n]);
    ParseElementStep(level, q, n, e);
    ParseLeftover(0, q[n..]);
    if q[0] < 0x80 {
      EncodeShort(e, level, q);
    } else {
      EncodeLong(e, level, q, n);
    }
    Reassemble(ExtendedPrefix(level), q, n, e, Parse(0, q[n..]), Leftover(0, q[n..]));
  }

  lemma Reassemble(a: seq<byte>, q: seq<byte>, n: nat, e: RawElement, rest: seq<RawElement>, left: seq<byte>)
    requires n <= |q| && Encode(e) == a + q[..n] && q[n..] == Flatten(rest) + left
    ensures a + q == Flatten([e] + rest) + left
  {
    FlattenCons(e, rest);
    assert q == q[..n] + q[n..];
  }

  lemma ParseElementStep(level: nat, q: seq<byte>, n: nat, e: RawElement)
    requires !(|q| > 0 && q[0] == EXCODE)
    requires !(|q| < 2 || (q[0] >= 0x80 && |q| < 2 + q[1] as int))
    requires n == if q[0] < 0x80 then 2 else 2 + q[1] as int
    requires e == RawElement(level, q[0], if q[0] < 0x80 then q[1..2] else q[2..n])
    ensures Parse(level, q) == [e] + Parse(0, q[n..])
    ensures Leftover(level, q) == Leftover(0, q[n..])
  {
  }

  lemma FlattenCons(e: RawElement, rest: seq<RawElement>)
    ensures Flatten([e] + rest) == Encode(e) + Flatten(rest)
  {
    assert ([e] + rest)[1..] == rest;
  }

  lemma EncodeShort(e: RawElement, level: nat, q: seq<byte>)
    requires 2 <= |q| && q[0] < 0x80 && e == RawElement(level, q[0], q[1..2])
    ensures Encode(e) == ExtendedPrefix(level) + q[..2]
  {
  }

  lemma EncodeLong(e: RawElement, level: nat, q: seq<byte>, n: nat)
    requires 2 <= n <= |q| && q[0] >= 0x80 && n == 2 + q[1] as int && e == RawElement(level, q[0], q[2..n])
    ensures Encode(e) == ExtendedPrefix(level) + q[..n]
  {
    assert q[..n] == [q[0], q[1]] + q[2..n];
  }

  /** What the parser leaves unread yields no element. */
  lemma {:induction false} LeftoverYieldsNothing(level: nat, q: seq<byte>)
    ensures Elements(Leftover(level, q)) == []
    decreases |q|
  {
    if |q| > 0 && q[0] == EXCODE {
      LeftoverYieldsNothing(level + 1, q[1..]);
    } else if |q| < 2 || (q[0] >= 0x80 && |q| < 2 + q[1] as int) {
      ParsePrefix(0, level, q);
    } else {
      var n := if q[0] < 0x80 then 2 else 2 + q[1] as int;
      LeftoverYieldsNothing(0, q[n..]);
    }
  }

  /** Every payload splits into the encodings of its elements, in wire
      order, followed by a tail that yields no element. */
  lemma ParseIsPrefix(packet: seq<byte>)
    ensures forall k :: 0 <= k < |Elements(packet)| ==> WellFormed(Elements(packet)[k])
    ensures packet == Flatten(Elements(packet)) + Leftover(0, packet)
    ensures Elements(Leftover(0, packet)) == []
  {
    ParsedWellFormed(0, packet);
    ParseLeftover(0, packet);
    LeftoverYieldsNothing(0, packet);
  }

  lemma PrefixStep(level: nat, q: seq<byte>)
    requires |q| > 0 && q[0] == EXCODE
    ensures ExtendedPrefix(level + 1) + q[1..] == ExtendedPrefix(level) + q
  {
    PrefixSnoc(level);
    assert ExtendedPrefix(level) + q == ExtendedPrefix(level) + [EXCODE] + q[1..];
  }

  lemma {:induction false} PrefixSnoc(k: nat)
    ensures ExtendedPrefix(k + 1) == ExtendedPrefix(k) + [EXCODE]
    decreases k
  {
    if k > 0 {
      PrefixSnoc(k - 1);
    }
  }

  /** A tail of prefixes and fewer than two further bytes ends the payload
      without error: the elements before it are kept. */
  lemma ShortTailDropped(els: seq<RawElement>, k: nat, rest: seq<byte>)
    requires forall j :: 0 <= j < |els| ==> WellFormed(els[j])
    requires |rest| < 2 && (rest == [] || rest[0] != EXCODE)
    ensures Elements(Flatten(els) + (ExtendedPrefix(k) + rest)) == els
  {
    ParseFlatten(els, ExtendedPrefix(k) + rest);
    ParsePrefix(0, k, rest);
  }

  /** A long code whose value is cut short ends the payload without error:
      the elements before it are kept. */
  lemma TruncatedValueDropped(els: seq<RawElement>, k: nat, code: byte, vlen: byte, v: seq<byte>)
    requires forall j :: 0 <= j < |els| ==> WellFormed(els[j])
    requires code >= 0x80 && |v| < vlen
    ensures Elements(Flatten(els) + (ExtendedPrefix(k) + [code, vlen] + v)) == els
  {
    var q := [code, vlen] + v;
    var tail := ExtendedPrefix(k) + q;
    assert ExtendedPrefix(k) + [code, vlen] + v == tail;
    ParseFlatten(els, tail);
    ParsePrefix(0, k, q);
    ParseTruncated(k, code, vlen, v);
    assert Elements(tail) == [];
    assert els + Elements(tail) == els;
  }

  lemma ParseTruncated(level: nat, code: byte, vlen: byte, v: seq<byte>)
    requires code >= 0x80 && |v| < vlen
    ensures Parse(level, [code, vlen] + v) == []
  {
    var q := [code, vlen] + v;
    assert q[0] == code && q[1] == vlen && |q| < 2 + vlen as int;
  }

  /** The decode resolves every element, one data element each, in order;
      it is Ok exactly when no decoder raises. */
  lemma {:induction false} ResolveAllPointwise(reg: DataTypes, raws: seq<RawElement>, els: seq<DataElement>)
    ensures ResolveAll(reg, raws) == Ok(els)
        <==> (|els| == |raws| &&
              forall k :: 0 <= k < |raws| ==> Resolve(reg, raws[k].level, raws[k].code, raws[k].value) == Ok(els[k]))
    decreases |raws|
  {
    if raws != [] {
      ResolveAllCons(reg, raws, els);
      if |els| == |raws| {
        ResolveAllPointwise(reg, raws[1..], els[1..]);
        PointwiseTail(reg, raws, els);
      }
    }
  }

  /** A decode of at least one element is its first element followed by the
      decode of the rest. */
  lemma ResolveAllCons(reg: DataTypes, raws: seq<RawElement>, els: seq<DataElement>)
    requires raws != []
    ensures ResolveAll(reg, raws) == Ok(els)
        <==> (els != [] && Resolve(reg, raws[0].level, raws[0].code, raws[0].value) == Ok(els[0]) &&
              ResolveAll(reg, raws[1..]) == Ok(els[1..]))
  {
    if els != [] {
      assert els == [els[0]] + els[1..];
    }
  }

  lemma PointwiseTail(reg: DataTypes, raws: seq<RawElement>, els: seq<DataElement>)
    requires |els| == |raws| > 0
    ensures (forall k :: 0 <= k < |raws| ==> Resolve(reg, raws[k].level, raws[k].code, raws[k].value) == Ok(els[k]))
        <==> (Resolve(reg, raws[0].level, raws[0].code, raws[0].value) == Ok(els[0]) &&
              forall k :: 0 <= k < |raws[1..]| ==>
                Resolve(reg, raws[1..][k].level, raws[1..][k].code, raws[1..][k].value) == Ok(els[1..][k]))
  {
    if Resolve(reg, raws[0].level, raws[0].code, raws[0].value) == Ok(els[0]) &&
       forall k :: 0 <= k < |raws[1..]| ==>
         Resolve(reg, raws[1..][k].level, raws[1..][k].code, raws[1..][k].value) == Ok(els[1..][k]) {
      forall k | 1 <= k < |raws|
        ensures Resolve(reg, raws[k].level, raws[k].code, raws[k].value) == Ok(els[k])
      {
        assert raws[1..][k - 1] == raws[k] && els[1..][k - 1] == els[k];
      }
    }
  }

  /** Attention 50: the one-byte element 04 32. A trailing 80 02 is an
      element whose two value bytes are missing and is dropped. */
  lemma AttentionDecodeExample()
    ensures Decoding(Builtin, [0x04, 0x32]) == Ok([DataElement(Attention, 0, 0x04, Byte(50))])
    ensures Decoding(Builtin, [0x04, 0x32, 0x80, 0x02]) == Ok([DataElement(Attention, 0, 0x04, Byte(50))])
  {
    var a := RawElement(0, 0x04, [0x32]);
    assert Encode(a) == [0x04, 0x32];
    ParseOne(a, []);
    ParseOne(a, [0x80, 0x02]);
    assert Elements([0x80, 0x02]) == [];
    assert Encode(a) + [] == [0x04, 0x32];
    assert [a] + [] == [a];
    assert Elements([0x04, 0x32]) == [a];
    assert [a][1..] == [];
    assert Resolve(Builtin, 0, 0x04, [0x32]) == Ok(DataElement(Attention, 0, 0x04, Byte(50)));
    assert [DataElement(Attention, 0, 0x04, Byte(50))] + [] == [DataElement(Attention, 0, 0x04, Byte(50))];
    assert [0x04, 0x32] + [0x80, 0x02] == [0x04, 0x32, 0x80, 0x02];
    assert Elements([0x04, 0x32, 0x80, 0x02]) == [a];
    assert ResolveAll(Builtin, [a]) == Ok([DataElement(Attention, 0, 0x04, Byte(50))]);
  }

  /** Raw wave -1: the multi-byte element 80 02 FF FF. */
  lemma RawWaveDecodeExample()
    ensures Decoding(Builtin, [0x80, 0x02, 0xFF, 0xFF]) == Ok([DataElement(RawWave, 0, 0x80, Int16(-1))])
  {
    var w := RawElement(0, 0x80, [0xFF, 0xFF]);
    assert Encode(w) == [0x80, 0x02, 0xFF, 0xFF];
    ParseOne(w, []);
    assert Encode(w) + [] == [0x80, 0x02, 0xFF, 0xFF];
    assert [w] + [] == [w];
    assert Elements([0x80, 0x02, 0xFF, 0xFF]) == [w];
    assert [w][1..] == [];
    assert Resolve(Builtin, 0, 0x80, [0xFF, 0xFF]) == Ok(DataElement(RawWave, 0, 0x80, Int16(-1)));
    assert [DataElement(RawWave, 0, 0x80, Int16(-1))] + [] == [DataElement(RawWave, 0, 0x80, Int16(-1))];
    assert ResolveAll(Builtin, [w]) == Ok([DataElement(RawWave, 0, 0x80, Int16(-1))]);
  }

  /** One prefix byte before the Attention code gives unknown data of level 1. */
  lemma ExtendedDecodeExample()
    ensures Decoding(Builtin, [0x55, 0x04, 0x32]) == Ok([DataElement(Unknown, 1, 0x04, Bytes([0x32]))])
  {
    var u := RawElement(1, 0x04, [0x32]);
    assert Encode(u) == [0x55, 0x04, 0x32];
    ParseOne(u, []);
    assert Encode(u) + [] == [0x55, 0x04, 0x32];
    assert [u] + [] == [u];
    assert Elements([0x55, 0x04, 0x32]) == [u];
    assert [u][1..] == [];
    assert Resolve(Builtin, 1, 0x04, [0x32]) == Ok(DataElement(Unknown, 1, 0x04, Bytes([0x32])));
    assert [DataElement(Unknown, 1, 0x04, Bytes([0x32]))] + [] == [DataElement(Unknown, 1, 0x04, Bytes([0x32]))];
    assert ResolveAll(Builtin, [u]) == Ok([DataElement(Unknown, 1, 0x04, Bytes([0x32]))]);
  }
}
