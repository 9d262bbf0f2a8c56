/** The `data_types` registry filled in by ThinkGearMetaClass, and the
    dispatch of a (level, code, value) triple to a data element
    (thinkgear/thinkgear.py). */
module Registry {
  import opened Base
  import opened Values

  /** A registry key: a bare code, or an (extended_code_level, code) pair. */
  datatype Key = Bare(code: byte) | Extended(level: nat, code: byte)

  type DataTypes = map<Key, Kind>

  /** What the metaclass does when a class with attribute `code` (0 when the
      class has none) and `extended_code_level` (0 when it has none) is
      created: a falsy code registers nothing, any other code registers the
      bare key, and a truthy level registers the pair key as well. */
  function Register(reg: DataTypes, kind: Kind, code: byte, level: nat): (r: DataTypes)
    ensures code == 0 ==> r == reg
    ensures code != 0 ==> Bare(code) in r && r[Bare(code)] == kind
    ensures code != 0 && level != 0 ==> Extended(level, code) in r && r[Extended(level, code)] == kind
    ensures forall k :: k in r && k != Bare(code) && k != Extended(level, code) ==> k in reg && r[k] == reg[k]
    ensures forall k :: k in reg && k != Bare(code) && k != Extended(level, code) ==> k in r && r[k] == reg[k]
    ensures level == 0 ==> forall k :: k in r && k.Extended? ==> k in reg
  {
    if code == 0 then reg
    else
      var bare := reg[Bare(code) := kind];
      if level != 0 then bare[Extended(level, code) := kind] else bare
  }

  /** The registry once every built-in subclass of thinkgear/thinkgear.py
      has been defined: none of them declares an extended code level. */
  const Builtin: DataTypes :=
    map[Bare(0x02) := PoorSignal, Bare(0x04) := Attention, Bare(0x05) := Meditation,
        Bare(0x80) := RawWave, Bare(0x83) := EegPower]

  /** The built-in registry is what the metaclass builds from the class
      definitions, in their order in the file; ThinkGearData and
      ThinkGearUnknownData have no code and register nothing. */
  lemma BuiltinIsRegistered()
    ensures Builtin
         == Register(Register(Register(Register(Register(Register(Register(
              map[], Unknown, 0, 0), Unknown, 0, 0), PoorSignal, 0x02, 0), Attention, 0x04, 0),
              Meditation, 0x05, 0), RawWave, 0x80, 0), EegPower, 0x83, 0)
    ensures forall k :: k in Builtin ==> k.Bare?
  {
  }

  /** The class `_decode` looks up: the bare code at level 0, otherwise the
      pair key, otherwise ThinkGearUnknownData. */
  function Lookup(reg: DataTypes, level: nat, code: byte): (r: Kind)
    ensures r == Unknown || r in reg.Values
    ensures !(level == 0 && Bare(code) in reg) && Extended(level, code) !in reg ==> r == Unknown
    ensures level != 0 && Extended(level, code) in reg ==> r == reg[Extended(level, code)]
  {
    if level == 0 && Bare(code) in reg then reg[Bare(code)]
    else if Extended(level, code) in reg then reg[Extended(level, code)]
    else Unknown
  }

  /** At a nonzero level only the pair key is consulted: two registries
      that agree on it resolve alike whatever their bare keys are. */
  lemma ExtendedLevelIgnoresBareKeys(reg1: DataTypes, reg2: DataTypes, level: nat, code: byte)
    requires level > 0
    requires Extended(level, code) in reg1 <==> Extended(level, code) in reg2
    requires Extended(level, code) in reg1 ==> reg1[Extended(level, code)] == reg2[Extended(level, code)]
    ensures Lookup(reg1, level, code) == Lookup(reg2, level, code)
  {
  }

  /** At level 0 a registry built by the metaclass, which never registers a
      pair key of level 0, is consulted by bare code only. */
  lemma LevelZeroUsesBareCode(reg: DataTypes, code: byte)
    requires forall k :: k in reg && k.Extended? ==> k.level > 0
    ensures Lookup(reg, 0, code) == if Bare(code) in reg then reg[Bare(code)] else Unknown
  {
  }

  /** A triple turned into a data element: the looked-up class decodes the
      value and keeps the level and code; a miss gives unknown data carrying
      the raw value bytes. Err is the exception the decoder raises. */
  function Resolve(reg: DataTypes, level: nat, code: byte, value: seq<byte>): (r: Result<DataElement, DecodeError>)
    ensures r.Ok? <==> AcceptsLength(Lookup(reg, level, code), |value|)
    ensures r.Ok? ==> r.value.kind == Lookup(reg, level, code)
    ensures r.Ok? ==> r.value.level == level && r.value.code == code
    ensures r.Ok? ==> InRange(r.value.kind, r.value.value)
    ensures Lookup(reg, level, code) == Unknown ==> r == Ok(DataElement(Unknown, level, code, Bytes(value)))
  {
    var kind := Lookup(reg, level, code);
    match DecodeValue(kind, value)
    case Ok(v) => Ok(DataElement(kind, level, code, v))
    case Err(e) => Err(e)
  }

  /** With the built-in registry every element of a nonzero level is unknown
      data, even when its code is that of a known class. */
  lemma BuiltinExtendedIsUnknown(level: nat, code: byte, value: seq<byte>)
    requires level > 0
    ensures Resolve(Builtin, level, code, value) == Ok(DataElement(Unknown, level, code, Bytes(value)))
  {
    BuiltinLookup(level, code);
  }

  /** With the built-in registry decoding raises exactly for a level-0
      element of a known code whose value has the wrong length. */
  lemma BuiltinRaisesOnlyOnBadLength(level: nat, code: byte, value: seq<byte>)
    ensures Resolve(Builtin, level, code, value).Err?
        <==> level == 0 && ((code in {0x02, 0x04, 0x05} && |value| != 1)
                            || (code == 0x80 && |value| != 2)
                            || (code == 0x83 && |value| < 24))
  {
    BuiltinLookup(level, code);
  }

  /** The class the built-in registry dispatches each (level, code) to. */
  lemma BuiltinLookup(level: nat, code: byte)
    ensures Lookup(Builtin, level, code)
         == if level != 0 then Unknown
            else if code == 0x02 then PoorSignal
            else if code == 0x04 then Attention
            else if code == 0x05 then Meditation
            else if code == 0x80 then RawWave
            else if code == 0x83 then EegPower
            else Unknown
  {
    assert Extended(level, code) !in Builtin;
  }

  /** The one-byte classes give the byte's value, 0 to 255. */
  lemma BuiltinByteCodes(code: byte, b: byte)
    requires code in {0x02, 0x04, 0x05}
    ensures Resolve(Builtin, 0, code, [b]).Ok?
    ensures Resolve(Builtin, 0, code, [b]).value.value == Byte(b)
    ensures Resolve(Builtin, 0, code, [b]).value.kind
         == if code == 0x02 then PoorSignal else if code == 0x04 then Attention else Meditation
  {
  }
}
