/** Element kinds of the ThinkGear protocol and the value decoders of the
    ThinkGearData subclasses (thinkgear/thinkgear.py). */
module Values {
  import opened Base

  /** The ThinkGearData subclass an element is decoded as. */
  datatype Kind = PoorSignal | Attention | Meditation | RawWave | EegPower | Unknown

  /** The eight band powers of ThinkGearEEGPowerData, in wire order. */
  datatype EegBands = EegBands(delta: int, theta: int, lowAlpha: int, highAlpha: int,
                               lowBeta: int, highBeta: int, lowGamma: int, midGamma: int)

  /** The decoded `value` attribute of a data element. */
  datatype Value = Byte(byte: int) | Int16(sample: int) | Bands(bands: EegBands) | Bytes(raw: seq<byte>)

  /** A decoded data element: the class it was decoded as, its
      extended_code_level, its code byte and its decoded value. */
  datatype DataElement = DataElement(kind: Kind, level: nat, code: byte, value: Value)

  /** What Python raises when a decoder is handed a value of the wrong length:
      TypeError from `ord`, struct.error from `struct.unpack`. */
  datatype DecodeError = WrongLength(kind: Kind, length: nat)

  /** Python's clipping slice `v[lo:hi]`. */
  function Slice(v: seq<byte>, lo: nat, hi: nat): (r: seq<byte>)
    requires lo <= hi
    ensures |r| == Min(hi, |v|) - Min(lo, |v|)
    ensures hi <= |v| ==> r == v[lo..hi]
    ensures lo >= |v| ==> r == []
  {
    v[Min(lo, |v|)..Min(hi, |v|)]
  }

  /** struct.unpack('>h', v): a signed big-endian 16-bit integer. */
  function Int16BE(v: seq<byte>): (r: int)
    requires |v| == 2
    ensures -0x8000 <= r <= 0x7FFF
    ensures r < 0 <==> v[0] >= 0x80
  {
    var u := v[0] as int * 0x100 + v[1] as int;
    if u >= 0x8000 then u - 0x1_0000 else u
  }

  /** One big-endian unsigned 32-bit word, the `L` of struct.unpack('>8L', ...). */
  function U32BE(b: seq<byte>): (r: int)
    requires |b| == 4
    ensures 0 <= r < 0x1_0000_0000
    ensures b[0] == 0 ==> r < 0x100_0000
  {
    b[0] as int * 0x100_0000 + b[1] as int * 0x1_0000 + b[2] as int * 0x100 + b[3] as int
  }

  /** ''.join('\x00' + v[o:o+3] for o in xrange(3 * g, 24, 3)). */
  function ZeroExtended(v: seq<byte>, g: nat): (r: seq<byte>)
    ensures g <= 8 ==> |r| <= 4 * (8 - g)
    ensures g < 8 ==> |r| > 0 && r[0] == 0
    decreases 8 - g
  {
    if g >= 8 then [] else [0] + Slice(v, 3 * g, 3 * g + 3) + ZeroExtended(v, g + 1)
  }

  /** The eight words of a 32-byte string, struct.unpack('>8L', w). */
  function Unpack8(w: seq<byte>): (r: EegBands)
    requires |w| == 32
    ensures 0 <= r.delta < 0x1_0000_0000 && 0 <= r.theta < 0x1_0000_0000
    ensures 0 <= r.lowAlpha < 0x1_0000_0000 && 0 <= r.highAlpha < 0x1_0000_0000
    ensures 0 <= r.lowBeta < 0x1_0000_0000 && 0 <= r.highBeta < 0x1_0000_0000
    ensures 0 <= r.lowGamma < 0x1_0000_0000 && 0 <= r.midGamma < 0x1_0000_0000
  {
    EegBands(U32BE(w[0..4]), U32BE(w[4..8]), U32BE(w[8..12]), U32BE(w[12..16]),
             U32BE(w[16..20]), U32BE(w[20..24]), U32BE(w[24..28]), U32BE(w[28..32]))
  }

  /** A big-endian unsigned 24-bit group. */
  function Be24(v: seq<byte>, g: nat): int
    requires 3 * g + 3 <= |v|
  {
    v[3 * g] as int * 0x1_0000 + v[3 * g + 1] as int * 0x100 + v[3 * g + 2] as int
  }

  /** The value a decoder of this kind may produce. */
  predicate InRange(kind: Kind, value: Value)
  {
    match kind
    case PoorSignal | Attention | Meditation => value.Byte? && 0 <= value.byte <= 0xFF
    case RawWave => value.Int16? && -0x8000 <= value.sample <= 0x7FFF
    case EegPower =>
      value.Bands? &&
      var b := value.bands;
      && 0 <= b.delta < 0x100_0000 && 0 <= b.theta < 0x100_0000
      && 0 <= b.lowAlpha < 0x100_0000 && 0 <= b.highAlpha < 0x100_0000
      && 0 <= b.lowBeta < 0x100_0000 && 0 <= b.highBeta < 0x100_0000
      && 0 <= b.lowGamma < 0x100_0000 && 0 <= b.midGamma < 0x100_0000
    case Unknown => value.Bytes?
  }

  /** The value lengths a decoder of this kind accepts without raising. */
  predicate AcceptsLength(kind: Kind, n: nat)
  {
    match kind
    case PoorSignal | Attention | Meditation => n == 1
    case RawWave => n == 2
    case EegPower => n >= 24
    case Unknown => true
  }

  /** The `_decode` static method of each ThinkGearData subclass: `ord` for the
      one-byte kinds, the struct.unpack lambdas for raw wave and EEG power, and
      the identity for unknown data. */
  function DecodeValue(kind: Kind, v: seq<byte>): (r: Result<Value, DecodeError>)
    ensures r.Ok? <==> AcceptsLength(kind, |v|)
    ensures r.Ok? ==> InRange(kind, r.value)
    ensures r.Err? ==> r.error == WrongLength(kind, |v|)
    ensures kind == Unknown ==> r == Ok(Bytes(v))
  {
    match kind
    case PoorSignal | Attention | Meditation =>
      if |v| == 1 then Ok(Byte(v[0])) else Err(WrongLength(kind, |v|))
    case RawWave =>
      if |v| == 2 then Ok(Int16(Int16BE(v))) else Err(WrongLength(kind, |v|))
    case EegPower => DecodeEegPower(v)
    case Unknown => Ok(Bytes(v))
  }

  /** The `_decode` of ThinkGearEEGPowerData: join a zero byte and each
      clipped 3-byte slice, then unpack eight big-endian words, which raises
      unless the joined string is 32 bytes long. */
  function DecodeEegPower(v: seq<byte>): (r: Result<Value, DecodeError>)
    ensures r.Ok? <==> |v| >= 24
    ensures r.Ok? ==> InRange(EegPower, r.value)
    ensures r.Err? ==> r.error == WrongLength(EegPower, |v|)
  {
    var joined := ZeroExtended(v, 0);
    JoinedLength(v, 0);
    if |joined| == 32 then
      JoinedGroups(v);
      Ok(Bands(Unpack8(joined)))
    else Err(WrongLength(EegPower, |v|))
  }

  /** The joined string has one zero byte per group plus the bytes the
      clipped slices pick up, so it is 32 bytes long exactly when |v| >= 24. */
  lemma {:induction false} JoinedLength(v: seq<byte>, g: nat)
    requires g <= 8
    ensures |ZeroExtended(v, g)| == (8 - g) + Min(24, |v|) - Min(3 * g, |v|)
    ensures g == 0 ==> (|ZeroExtended(v, 0)| == 32 <==> |v| >= 24)
    decreases 8 - g
  {
    if g < 8 {
      JoinedLength(v, g + 1);
    }
  }

  /** Each 4-byte word of the joined string is a zero byte followed by one
      3-byte group of v. */
  lemma {:induction false} JoinedWord(v: seq<byte>, g: nat, k: nat)
    requires |v| >= 24 && g + k < 8
    ensures |ZeroExtended(v, g)| == 4 * (8 - g)
    ensures ZeroExtended(v, g)[4 * k..4 * k + 4] == [0] + v[3 * (g + k)..3 * (g + k) + 3]
    decreases k
  {
    JoinedHead(v, g);
    if k > 0 {
      JoinedWord(v, g + 1, k - 1);
    }
    WordOfJoin(ZeroExtended(v, g), ZeroExtended(v, g + 1), v, g, k);
  }

  /** Word k of a zero byte, group g, and words for the later groups. */
  lemma WordOfJoin(z: seq<byte>, rest: seq<byte>, v: seq<byte>, g: nat, k: nat)
    requires |v| >= 24 && g + k < 8
    requires |rest| == 4 * (7 - g) && z == ([0] + v[3 * g..3 * g + 3]) + rest
    requires k > 0 ==> rest[4 * (k - 1)..4 * (k - 1) + 4]
                       == [0] + v[3 * (g + 1 + (k - 1))..3 * (g + 1 + (k - 1)) + 3]
    ensures z[4 * k..4 * k + 4] == [0] + v[3 * (g + k)..3 * (g + k) + 3]
  {
    WordAt([0] + v[3 * g..3 * g + 3], rest, k);
    if k > 0 {
      assert g + 1 + (k - 1) == g + k;
    }
  }

  /** The joined string from group g on is a zero byte, group g, and the
      joined string from group g + 1 on. */
  lemma JoinedHead(v: seq<byte>, g: nat)
    requires |v| >= 24 && g < 8
    ensures |ZeroExtended(v, g)| == 4 * (8 - g)
    ensures |ZeroExtended(v, g + 1)| == 4 * (7 - g)
    ensures ZeroExtended(v, g) == ([0] + v[3 * g..3 * g + 3]) + ZeroExtended(v, g + 1)
  {
    JoinedLength(v, g);
    JoinedLength(v, g + 1);
    assert Slice(v, 3 * g, 3 * g + 3) == v[3 * g..3 * g + 3];
  }

  /** Word k of a 4-byte word followed by more words. */
  lemma WordAt(a: seq<byte>, rest: seq<byte>, k: nat)
    requires |a| == 4 && 4 * k + 4 <= 4 + |rest|
    ensures k == 0 ==> (a + rest)[0..4] == a
    ensures k > 0 ==> (a + rest)[4 * k..4 * k + 4] == rest[4 * (k - 1)..4 * (k - 1) + 4]
  {
  }

  /** The g-th band is the g-th big-endian 24-bit group of v. */
  lemma JoinedBand(v: seq<byte>, g: nat)
    requires |v| >= 24 && g < 8
    ensures |ZeroExtended(v, 0)| == 32
    ensures U32BE(ZeroExtended(v, 0)[4 * g..4 * g + 4]) == Be24(v, g)
    ensures 0 <= Be24(v, g) < 0x100_0000
  {
    JoinedWord(v, 0, g);
    WordValue(ZeroExtended(v, 0)[4 * g..4 * g + 4], v, g);
  }

  /** A zero byte and group g, read as a big-endian word, is group g. */
  lemma WordValue(w: seq<byte>, v: seq<byte>, g: nat)
    requires 3 * g + 3 <= |v| && w == [0] + v[3 * g..3 * g + 3]
    ensures |w| == 4 && U32BE(w) == Be24(v, g)
    ensures 0 <= Be24(v, g) < 0x100_0000
  {
    assert w[1] == v[3 * g] && w[2] == v[3 * g + 1] && w[3] == v[3 * g + 2];
  }

  lemma JoinedGroups(v: seq<byte>)
    requires |v| >= 24
    ensures |ZeroExtended(v, 0)| == 32
    ensures Unpack8(ZeroExtended(v, 0))
         == EegBands(Be24(v, 0), Be24(v, 1), Be24(v, 2), Be24(v, 3),
                     Be24(v, 4), Be24(v, 5), Be24(v, 6), Be24(v, 7))
  {
    JoinedBand(v, 0); JoinedBand(v, 1); JoinedBand(v, 2); JoinedBand(v, 3);
    JoinedBand(v, 4); JoinedBand(v, 5); JoinedBand(v, 6); JoinedBand(v, 7);
  }

  /** The eight big-endian 24-bit groups of v, delta first. */
  function Groups(v: seq<byte>): EegBands
    requires |v| >= 24
  {
    EegBands(Be24(v, 0), Be24(v, 1), Be24(v, 2), Be24(v, 3),
             Be24(v, 4), Be24(v, 5), Be24(v, 6), Be24(v, 7))
  }

  /** The EEG power decoder reads the first 24 value bytes as eight
      big-endian 24-bit groups, delta first. */
  lemma EegPowerGroups(v: seq<byte>)
    requires |v| >= 24
    ensures DecodeValue(EegPower, v) == Ok(Bands(Groups(v)))
  {
    JoinedLength(v, 0);
    assert DecodeValue(EegPower, v) == Ok(Bands(Unpack8(ZeroExtended(v, 0))));
    JoinedGroups(v);
  }

  /** Value bytes beyond the 24th are ignored by the EEG power decoder. */
  lemma EegPowerIgnoresTail(v: seq<byte>)
    requires |v| >= 24
    ensures DecodeValue(EegPower, v) == DecodeValue(EegPower, v[..24])
  {
    EegPowerGroups(v);
    EegPowerGroups(v[..24]);
    forall g | 0 <= g < 8
      ensures Be24(v, g) == Be24(v[..24], g)
    {
    }
  }

  /** The two-byte two's-complement encoding that `struct.pack('>h', x)` would give. */
  function EncodeInt16(x: int): seq<byte>
    requires -0x8000 <= x <= 0x7FFF
  {
    var u := if x < 0 then x + 0x1_0000 else x;
    [(u / 0x100), (u % 0x100)]
  }

  /** Raw wave decoding and two's-complement encoding are inverse bijections. */
  lemma Int16RoundTrip(x: int, v: seq<byte>)
    requires -0x8000 <= x <= 0x7FFF
    requires |v| == 2
    ensures Int16BE(EncodeInt16(x)) == x
    ensures EncodeInt16(Int16BE(v)) == v
  {
  }

  /** Three big-endian bytes of a 24-bit natural. */
  function EncodeBe24(n: int): seq<byte>
    requires 0 <= n < 0x100_0000
  {
    [(n / 0x1_0000), (n / 0x100 % 0x100), (n % 0x100)]
  }

  /** The band powers as a list, in wire order. */
  function BandList(b: EegBands): seq<int>
  {
    [b.delta, b.theta, b.lowAlpha, b.highAlpha, b.lowBeta, b.highBeta, b.lowGamma, b.midGamma]
  }

  /** Each 24-bit natural as three big-endian bytes, one after the other. */
  function EncodeGroups(ns: seq<int>): (r: seq<byte>)
    requires forall k :: 0 <= k < |ns| ==> 0 <= ns[k] < 0x100_0000
    ensures |r| == 3 * |ns|
  {
    if ns == [] then [] else EncodeBe24(ns[0]) + EncodeGroups(ns[1..])
  }

  lemma BandListInRange(b: EegBands)
    requires InRange(EegPower, Bands(b))
    ensures |BandList(b)| == 8
    ensures forall k :: 0 <= k < |BandList(b)| ==> 0 <= BandList(b)[k] < 0x100_0000
  {
    var ns := BandList(b);
    forall k | 0 <= k < 8
      ensures 0 <= ns[k] < 0x100_0000
    {
      if k < 4 {
        assert k == 0 || k == 1 || k == 2 || k == 3;
      } else {
        assert k == 4 || k == 5 || k == 6 || k == 7;
      }
    }
  }

  /** The 24-byte value that the EEG power decoder reads back as the given bands. */
  function EncodeBands(b: EegBands): seq<byte>
    requires InRange(EegPower, Bands(b))
  {
    EncodeGroups(BandList(b))
  }

  /** Group g of an encoded list, whatever follows it, is the g-th natural. */
  lemma {:induction false} GroupsRoundTrip(ns: seq<int>, extra: seq<byte>, g: nat)
    requires forall k :: 0 <= k < |ns| ==> 0 <= ns[k] < 0x100_0000
    requires g < |ns|
    ensures Be24(EncodeGroups(ns) + extra, g) == ns[g]
  {
    var rest := EncodeGroups(ns[1..]) + extra;
    assert EncodeGroups(ns) + extra == EncodeBe24(ns[0]) + rest;
    if g > 0 {
      GroupsRoundTrip(ns[1..], extra, g - 1);
    }
  }

  /** Decoding an encoded set of band powers, followed by any extra bytes,
      gives back those band powers. */
  lemma EegPowerRoundTrip(b: EegBands, extra: seq<byte>)
    requires InRange(EegPower, Bands(b))
    ensures DecodeValue(EegPower, EncodeBands(b) + extra) == Ok(Bands(b))
  {
    var ns := BandList(b);
    BandListInRange(b);
    var v := EncodeBands(b) + extra;
    EegPowerGroups(v);
    GroupsRoundTrip(ns, extra, 0); GroupsRoundTrip(ns, extra, 1);
    GroupsRoundTrip(ns, extra, 2); GroupsRoundTrip(ns, extra, 3);
    GroupsRoundTrip(ns, extra, 4); GroupsRoundTrip(ns, extra, 5);
    GroupsRoundTrip(ns, extra, 6); GroupsRoundTrip(ns, extra, 7);
  }

  /** Two's complement examples: FF FF is -1, 80 00 the minimum, 7F FF the maximum. */
  lemma RawWaveExamples()
    ensures DecodeValue(RawWave, [0xFF, 0xFF]) == Ok(Int16(-1))
    ensures DecodeValue(RawWave, [0x80, 0x00]) == Ok(Int16(-0x8000))
    ensures DecodeValue(RawWave, [0x7F, 0xFF]) == Ok(Int16(0x7FFF))
    ensures DecodeValue(RawWave, [0xFF]).Err?
  {
  }
}
