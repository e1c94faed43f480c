/**
 * Provenance encoding: the table that numbers image names in the order
 * they are registered, and the packing of such a number together with a
 * voxel value into one unsigned 32-bit sample.
 *
 * The Java class keeps its table in static fields; here it is one object
 * that the grid sources share.
 */
module SourceNames {
  import opened Common

  /** `UnsignedIntType` holds 32 bits: `set(long)` keeps the low 32. */
  const Unsigned32: int := 0x1_0000_0000

  /** `getValue` masks with the literal `0x0000FFFF`. */
  const ValueRange: int := 0x1_0000

  const DefaultValueBits: int := 16

  function Pow2(n: nat): (p: int)
    ensures p >= 1
  {
    if n == 0 then 1 else 2 * Pow2(n - 1)
  }

  lemma {:induction false} Pow2Add(a: nat, b: nat)
    ensures Pow2(a + b) == Pow2(a) * Pow2(b)
    decreases a
  {
    if a > 0 {
      Pow2Add(a - 1, b);
      assert Pow2(a + b) == 2 * Pow2(a - 1 + b);
    }
  }

  /** Java masks the distance of a `long` shift to its low six bits. */
  function ShiftDistance(valueBits: int): nat
  {
    valueBits % 64
  }

  /**
   * `encodeName` on the sample: add the id shifted up by valueBits to the
   * value (an addition, not an or); the sample keeps the low 32 bits.
   */
  function Encode(value: int, id: int, valueBits: int): (stored: int)
    ensures 0 <= stored < Unsigned32
  {
    (value + id * Pow2(ShiftDistance(valueBits))) % Unsigned32
  }

  /** `getName`'s image index: the sample shifted right by valueBits. */
  function DecodeId(stored: int, valueBits: int): int
  {
    stored / Pow2(ShiftDistance(valueBits))
  }

  /** `getValue`: the low 16 bits of the sample, whatever valueBits is. */
  function DecodeValue(stored: int): (value: int)
    ensures 0 <= value < ValueRange
  {
    stored % ValueRange
  }

  /**
   * Round trip: when the value fits in the 16 bits that `getValue` masks,
   * valueBits is at least 16 and the packed id still fits in 32 bits,
   * decoding gives back both the id and the value. With the default
   * valueBits of 16 this is every id and value below 2^16.
   */
  lemma RoundTrip(value: int, id: int, valueBits: int)
    requires 0 <= value < ValueRange && 0 <= id
    requires 16 <= valueBits < 64
    requires value + id * Pow2(valueBits) < Unsigned32
    ensures DecodeId(Encode(value, id, valueBits), valueBits) == id
    ensures DecodeValue(Encode(value, id, valueBits)) == value
  {
    var p := Pow2(valueBits);
    var rest := Pow2(valueBits - 16);
    var stored := value + id * p;
    assert ShiftDistance(valueBits) == valueBits;
    SplitPower(id, valueBits);
    assert 0 <= stored;
    DivUnique(stored, Unsigned32, 0, stored);
    assert Encode(value, id, valueBits) == stored;
    DivUnique(stored, p, id, value);
    DivUnique(stored, ValueRange, id * rest, value);
  }

  /** 2^valueBits is 2^16 times 2^(valueBits - 16), so an id shifted that far is a multiple of 2^16. */
  lemma SplitPower(id: int, valueBits: int)
    requires 0 <= id && 16 <= valueBits
    ensures Pow2(valueBits) >= ValueRange
    ensures id * Pow2(valueBits) == (id * Pow2(valueBits - 16)) * ValueRange
    ensures id * Pow2(valueBits) >= 0
  {
    var rest := Pow2(valueBits - 16);
    Pow2Add(16, valueBits - 16);
    Pow2Sixteen();
    assert Pow2(valueBits) == ValueRange * rest;
    MultiplyMonotonic(1, rest, ValueRange);
    assert id * (ValueRange * rest) == (id * rest) * ValueRange;
  }

  lemma Pow2Sixteen()
    ensures Pow2(16) == 0x1_0000
  {
    assert Pow2(4) == 16;
    assert Pow2(8) == 256 by { Pow2Add(4, 4); }
    Pow2Add(8, 8);
  }

  /** With the default valueBits every id and value below 2^16 survive the round trip. */
  lemma DefaultRoundTrip(value: int, id: int)
    requires 0 <= value < ValueRange && 0 <= id < ValueRange
    ensures DecodeId(Encode(value, id, DefaultValueBits), DefaultValueBits) == id
    ensures DecodeValue(Encode(value, id, DefaultValueBits)) == value
  {
    Pow2Sixteen();
    assert value + id * ValueRange < Unsigned32 by {
      assert id * ValueRange <= (ValueRange - 1) * ValueRange;
    }
    RoundTrip(value, id, DefaultValueBits);
  }

  /**
   * Because `getValue` masks 16 bits no matter what valueBits says, a
   * narrower valueBits leaks the id into the decoded value: id 1 on value 0
   * decodes to the value 2^valueBits.
   */
  lemma NarrowValueBitsBreakGetValue(valueBits: int)
    requires 0 <= valueBits < 16
    ensures DecodeValue(Encode(0, 1, valueBits)) == Pow2(valueBits) != 0
  {
    var p := Pow2(valueBits);
    NarrowPowerFits(valueBits);
    DivUnique(valueBits, 64, 0, valueBits);
    assert ShiftDistance(valueBits) == valueBits;
    assert Encode(0, 1, valueBits) == p % Unsigned32;
    DivUnique(p, Unsigned32, 0, p);
    DivUnique(p, ValueRange, 0, p);
  }

  lemma NarrowPowerFits(valueBits: int)
    requires 0 <= valueBits < 16
    ensures Pow2(valueBits) < ValueRange
  {
    Pow2Increasing(valueBits, 16);
    Pow2Sixteen();
  }

  lemma {:induction false} Pow2Increasing(a: nat, b: nat)
    requires a < b
    ensures Pow2(a) < Pow2(b)
    decreases b
  {
    if b > a + 1 {
      Pow2Increasing(a, b - 1);
    }
  }

  /** The name table as a value: `nameToLong`, `longToName` and `count`. */
  datatype Table = Table(nameToLong: map<string, int>, longToName: map<int, string>, count: int)

  /**
   * The table is dense and two-way: ids are exactly 0 .. count - 1 and the
   * two maps are inverse to each other.
   */
  ghost predicate TableValid(t: Table)
  {
    && t.count >= 0
    && (forall id :: id in t.longToName <==> 0 <= id < t.count)
    && (forall name :: name in t.nameToLong ==>
          t.nameToLong[name] in t.longToName && t.longToName[t.nameToLong[name]] == name)
    && (forall id :: id in t.longToName ==>
          t.longToName[id] in t.nameToLong && t.nameToLong[t.longToName[id]] == id)
  }

  const EmptyTable := Table(map[], map[], 0)

  /** `addName` on the table. */
  function AddToTable(t: Table, name: string): Table
  {
    if name in t.nameToLong then t
    else Table(t.nameToLong[name := t.count], t.longToName[t.count := name], t.count + 1)
  }

  /** `addNames`: `addName` for each name in iteration order. */
  function AddAllToTable(t: Table, names: seq<string>): Table
    decreases |names|
  {
    if |names| == 0 then t else AddAllToTable(AddToTable(t, names[0]), names[1..])
  }

  /**
   * `addName` keeps the table dense and two-way; a known name leaves it as
   * it was; a new name gets the current count as its id and the count
   * grows by one; no earlier entry changes.
   */
  lemma AddToTableProperties(t: Table, name: string)
    requires TableValid(t)
    ensures var t' := AddToTable(t, name);
      && TableValid(t')
      && (name in t.nameToLong ==> t' == t)
      && (name !in t.nameToLong ==> t'.nameToLong[name] == t.count && t'.count == t.count + 1)
      && name in t'.nameToLong
      && (forall n :: n in t.nameToLong ==> n in t'.nameToLong && t'.nameToLong[n] == t.nameToLong[n])
      && AddToTable(t', name) == t'
  {
    if name !in t.nameToLong {
      var t' := AddToTable(t, name);
      assert t.count !in t.longToName;
      forall n | n in t'.nameToLong
        ensures t'.nameToLong[n] in t'.longToName && t'.longToName[t'.nameToLong[n]] == n
      {
        if n != name {
          assert t'.nameToLong[n] == t.nameToLong[n] < t.count;
        }
      }
      forall id | id in t'.longToName
        ensures t'.longToName[id] in t'.nameToLong && t'.nameToLong[t'.longToName[id]] == id
      {
        if id != t.count {
          assert t.longToName[id] != name;
        }
      }
    }
  }

  /**
   * `addNames` registers every name, keeps the table valid, never changes
   * an id already given, and numbers new names from the old count upward.
   */
  lemma {:induction false} AddAllToTableProperties(t: Table, names: seq<string>)
    requires TableValid(t)
    ensures var t' := AddAllToTable(t, names);
      && TableValid(t')
      && t'.count >= t.count
      && (forall i :: 0 <= i < |names| ==> names[i] in t'.nameToLong)
      && (forall n :: n in t.nameToLong ==> n in t'.nameToLong && t'.nameToLong[n] == t.nameToLong[n])
      && (forall n :: n in t'.nameToLong && n !in t.nameToLong ==> t.count <= t'.nameToLong[n])
    decreases |names|
  {
    if |names| > 0 {
      var t1 := AddToTable(t, names[0]);
      AddToTableProperties(t, names[0]);
      AddAllToTableProperties(t1, names[1..]);
      var t' := AddAllToTable(t, names);
      assert t' == AddAllToTable(t1, names[1..]);
      forall i | 0 <= i < |names|
        ensures names[i] in t'.nameToLong
      {
        if i > 0 {
          assert names[i] == names[1..][i - 1];
        }
      }
      forall n | n in t'.nameToLong && n !in t.nameToLong
        ensures t.count <= t'.nameToLong[n]
      {
        if n in t1.nameToLong {
          assert n == names[0];
        }
      }
    }
  }

  class SourceNameEncoder {
    var nameToLong: map<string, int>
    var longToName: map<int, string>
    var count: int
    var valueBits: int

    function AsTable(): Table
      reads this
    {
      Table(nameToLong, longToName, count)
    }

    ghost predicate Valid()
      reads this
    {
      TableValid(AsTable())
    }

    /** The static initial state: empty maps, count 0, valueBits 16. */
    constructor ()
      ensures Valid()
      ensures AsTable() == EmptyTable && valueBits == DefaultValueBits
    {
      nameToLong, longToName, count := map[], map[], 0;
      valueBits := DefaultValueBits;
    }

    /** `addName`: register a name unless it is already known. */
    method AddName(name: string)
      requires Valid()
      modifies this
      ensures Valid()
      ensures AsTable() == AddToTable(old(AsTable()), name)
      ensures valueBits == old(valueBits)
    {
      AddToTableProperties(AsTable(), name);
      if name !in nameToLong {
        nameToLong := nameToLong[name := count];
        longToName := longToName[count := name];
        count := count + 1;
      }
    }

    /** `addNames`: `addName` for each name, in order. */
    method AddNames(names: seq<string>)
      requires Valid()
      modifies this
      ensures Valid()
      ensures AsTable() == AddAllToTable(old(AsTable()), names)
      ensures valueBits == old(valueBits)
    {
      for i := 0 to |names|
        invariant Valid()
        invariant AddAllToTable(AsTable(), names[i..]) == AddAllToTable(old(AsTable()), names)
        invariant valueBits == old(valueBits)
      {
        assert names[i..] == [names[i]] + names[i + 1..];
        AddName(names[i]);
      }
    }

    /** The id `nameToLong.get(name)` would give, if any. */
    function IdOf(name: string): (id: Option<int>)
      reads this
      requires Valid()
      ensures id.Some? <==> name in nameToLong
      ensures id.Some? ==> 0 <= id.value < count && longToName[id.value] == name
    {
      if name in nameToLong then Some(nameToLong[name]) else None
    }

    /**
     * `encodeName`: pack the name's id above the value. An unregistered
     * name has no id; Java fails unboxing the null.
     */
    function EncodeName(value: int, name: string): (r: Result<int>)
      reads this
      requires Valid()
      ensures r.Err? <==> name !in nameToLong
      ensures r.Err? ==> r.error == NullPointer
      ensures r.Ok? ==> 0 <= r.value < Unsigned32
    {
      match IdOf(name)
      case None => Err(NullPointer)
      case Some(id) => Ok(Encode(value, id, valueBits))
    }

    /** `getName`: the name whose id is above valueBits in the sample; null for an unknown id. */
    function GetName(stored: int): (name: Option<string>)
      reads this
      requires Valid()
      ensures name.Some? <==> 0 <= DecodeId(stored, valueBits) < count
      ensures name.Some? ==> name.value in nameToLong && nameToLong[name.value] == DecodeId(stored, valueBits)
    {
      var id := DecodeId(stored, valueBits);
      if id in longToName then Some(longToName[id]) else None
    }

    /**
     * A sample encoded for a registered name decodes to that name and to the
     * original value, given the default valueBits and 16-bit value and id.
     */
    lemma EncodeNameRoundTrip(value: int, name: string)
      requires Valid() && valueBits == DefaultValueBits
      requires 0 <= value < ValueRange
      requires name in nameToLong && nameToLong[name] < ValueRange
      ensures EncodeName(value, name).Ok?
      ensures GetName(EncodeName(value, name).value) == Some(name)
      ensures DecodeValue(EncodeName(value, name).value) == value
    {
      DefaultRoundTrip(value, nameToLong[name]);
    }
  }
}
