/** What the generator emits for the structs of the C++ broker, read as an
    interpreter over a struct's fields (qpid/cpp/rubygen/framing.0-10/structs.rb),
    and its agreement with the two Python codecs. */
module Layout {
  import opened Wrappers
  import opened Sequences
  import opened Octets
  import Codec010
  import Codec08

  /** A field's wire type: a flag, a number of SizeMap's sizes, or a string behind
      a length of StringSizeMap's sizes. */
  datatype Kind = BitField | Fixed(size: nat) | Text(prefix: nat)

  datatype CppValue = On(on: bool) | Num(n: nat) | Txt(octets: seq<Octet>)

  predicate Typed(k: Kind, v: CppValue)
  {
    match k
    case BitField => v.On?
    case Fixed(size) => v.Num? && v.n < Pow256(size)
    case Text(prefix) => v.Txt? && |v.octets| < Pow256(prefix)
  }

  ghost predicate AllTyped(kinds: seq<Kind>, values: seq<CppValue>)
  {
    |kinds| == |values| && forall i :: 0 <= i < |kinds| ==> Typed(kinds[i], values[i])
  }

  function FieldOctets(k: Kind, v: CppValue): seq<Octet>
    requires Typed(k, v) && !k.BitField?
  {
    if k.Fixed? then Pack(v.n, k.size) else Pack(|v.octets|, k.prefix) + v.octets
  }

  /** `buffer.get...`; None when the buffer has not that many octets. */
  function FieldValue(k: Kind, b: seq<Octet>): Option<(CppValue, seq<Octet>)>
    requires !k.BitField?
  {
    var width := if k.Fixed? then k.size else k.prefix;
    if |b| < width then None
    else
      var n, rest := Unpack(b[..width]), b[width..];
      if k.Fixed? then Some((Num(n), rest))
      else if |rest| < n then None
      else Some((Txt(rest[..n]), rest[n..]))
  }

  /** `generate_size`. */
  function FieldSize(k: Kind, v: CppValue): nat
    requires Typed(k, v) && !k.BitField?
  {
    if k.Fixed? then k.size else k.prefix + |v.octets|
  }

  lemma FieldReturns(k: Kind, v: CppValue, rest: seq<Octet>)
    requires Typed(k, v) && !k.BitField?
    ensures FieldValue(k, FieldOctets(k, v) + rest) == Some((v, rest))
    ensures |FieldOctets(k, v)| == FieldSize(k, v)
  {
    if k.Fixed? {
      ReadNumber(v.n, k.size, rest);
    } else {
      Associate(Pack(|v.octets|, k.prefix), v.octets, rest);
      ReadNumber(|v.octets|, k.prefix, v.octets + rest);
      assert (v.octets + rest)[..|v.octets|] == v.octets && (v.octets + rest)[|v.octets|..] == rest;
    }
  }

  /** A buffer that ends within a field is refused, and so is one that ends within the
      text whose length it gives. */
  lemma FieldsAreWhole(k: Kind, b: seq<Octet>)
    requires !k.BitField?
    ensures k.Fixed? ==>
      FieldValue(k, b) == if |b| < k.size then None else Some((Num(Unpack(b[..k.size])), b[k.size..]))
    ensures k.Text? && |b| < k.prefix ==> FieldValue(k, b).None?
    ensures k.Text? && |b| >= k.prefix ==>
      var n := k.prefix + Unpack(b[..k.prefix]);
      FieldValue(k, b) == if |b| < n then None else Some((Txt(b[k.prefix..n]), b[n..]))
  {
    if k.Text? && |b| >= k.prefix {
      var n := k.prefix + Unpack(b[..k.prefix]);
      if |b| >= n {
        assert b[k.prefix..][..n - k.prefix] == b[k.prefix..n] && b[k.prefix..][n - k.prefix..] == b[n..];
      }
    }
  }

  lemma SizeOfOctets(k: Kind, v: CppValue)
    requires Typed(k, v) && !k.BitField?
    ensures |FieldOctets(k, v)| == FieldSize(k, v)
  {
    FieldReturns(k, v, []);
  }

  // ----- Packed structs: the flags -----

  /** The exponent in `flag_mask`. */
  function Position(pack: nat, i: nat): nat
    requires i < 8 * pack
  {
    pack * 8 - 8 - i / 8 * 8 + i % 8
  }

  /** `flags |= flag_mask` for each of the first `n` fields that is present. */
  function Mask(pack: nat, present: seq<bool>, n: nat): nat
    requires n <= |present| <= 8 * pack
  {
    if n == 0 then 0
    else if present[n - 1] then SetBit(Mask(pack, present, n - 1), Position(pack, n - 1))
    else Mask(pack, present, n - 1)
  }

  /** Octets in reverse order, bits in order within each. */
  lemma PositionParts(pack: nat, i: nat)
    requires i < 8 * pack
    ensures i == 8 * (i / 8) + i % 8 && Position(pack, i) == 8 * (pack - 1 - i / 8) + i % 8
  {
  }

  lemma SameParts(a: nat, r: nat, b: nat, s: nat)
    requires 8 * a + r == 8 * b + s && r < 8 && s < 8
    ensures a == b && r == s
  {
  }

  lemma PositionsDiffer(pack: nat, i: nat, j: nat)
    requires i < 8 * pack && j < 8 * pack && Position(pack, i) == Position(pack, j)
    ensures i == j
  {
    PositionParts(pack, i);
    PositionParts(pack, j);
    SameParts(pack - 1 - i / 8, i % 8, pack - 1 - j / 8, j % 8);
  }

  /** Every field has a mask bit of its own. */
  lemma {:induction false} MaskHas(pack: nat, present: seq<bool>, n: nat, i: nat)
    requires n <= |present| <= 8 * pack && i < 8 * pack
    ensures Bit(Mask(pack, present, n), Position(pack, i)) <==> i < n && present[i]
  {
    if n == 0 {
      BitOfZero(Position(pack, i));
    } else {
      MaskHas(pack, present, n - 1, i);
      if present[n - 1] {
        BitOfSetBit(Mask(pack, present, n - 1), Position(pack, n - 1), Position(pack, i));
        if Position(pack, n - 1) == Position(pack, i) {
          PositionsDiffer(pack, n - 1, i);
        }
      }
    }
  }

  lemma OctetsByBits(a: Octet, b: Octet)
    requires forall j {:trigger Bit(a, j)} :: 0 <= j < 8 ==> (Bit(a, j) <==> Bit(b, j))
    ensures a == b
  {
    assert Pow2(8) == 256 by { Pow2Eight(0); }
    SameBits(a, b, 8);
  }

  lemma PositionOf(pack: nat, k: nat, j: nat)
    requires k < pack && j < 8
    ensures 8 * k + j < 8 * pack && Position(pack, 8 * k + j) == 8 * (pack - 1 - k) + j
  {
    assert (8 * k + j) / 8 == k && (8 * k + j) % 8 == j;
  }

  lemma FlagBit(pack: nat, present: seq<bool>, k: nat, j: nat)
    requires |present| <= 8 * pack && k < pack && j < 8
    ensures Bit(Pack(Mask(pack, present, |present|), pack)[k], j) <==> Bit(LittleOctets(FromBits(present), pack)[k], j)
  {
    var flags := Mask(pack, present, |present|);
    PackReversesLittle(flags, pack, k);
    BitOfLittle(flags, pack, pack - 1 - k, j);
    PositionOf(pack, k, j);
    MaskHas(pack, present, |present|, 8 * k + j);
    BitOfBits(present, 8 * k + j);
    BitOfLittle(FromBits(present), pack, k, j);
  }

  /** Two implementations, one layout: the generator's flags in network byte order
      are the octets that Python writes low flags first. */
  lemma FlagOctetsAgree(pack: nat, present: seq<bool>)
    requires |present| <= 8 * pack
    ensures Pack(Mask(pack, present, |present|), pack) == LittleOctets(FromBits(present), pack)
  {
    var cpp, python := Pack(Mask(pack, present, |present|), pack), LittleOctets(FromBits(present), pack);
    forall k | 0 <= k < pack
      ensures cpp[k] == python[k]
    {
      forall j | 0 <= j < 8
        ensures Bit(cpp[k], j) <==> Bit(python[k], j)
      {
        FlagBit(pack, present, k, j);
      }
      OctetsByBits(cpp[k], python[k]);
    }
  }

  /** The flags of the first `n` fields. */
  function FlagsOf(pack: nat, flags: nat, n: nat): (on: seq<bool>)
    requires n <= 8 * pack
    ensures |on| == n
  {
    seq(n, i requires 0 <= i < n => Bit(flags, Position(pack, i)))
  }

  lemma MaskFlags(pack: nat, present: seq<bool>)
    requires |present| <= 8 * pack
    ensures FlagsOf(pack, Mask(pack, present, |present|), |present|) == present
  {
    forall i | 0 <= i < |present|
      ensures FlagsOf(pack, Mask(pack, present, |present|), |present|)[i] == present[i]
    {
      MaskHas(pack, present, |present|, i);
    }
  }

  // ----- Packed structs: the fields -----

  /** The fields from number `i` on whose flags are set; a bit field is its flag. */
  function PackedFrom(kinds: seq<Kind>, on: seq<bool>, values: seq<CppValue>, i: nat): seq<Octet>
    requires |on| == |kinds| && AllTyped(kinds, values) && i <= |kinds|
    decreases |kinds| - i
  {
    if i == |kinds| then []
    else
      (if !kinds[i].BitField? && on[i] then FieldOctets(kinds[i], values[i]) else [])
      + PackedFrom(kinds, on, values, i + 1)
  }

  function Packed(kinds: seq<Kind>, pack: nat, flags: nat, values: seq<CppValue>): seq<Octet>
    requires |kinds| <= 8 * pack && AllTyped(kinds, values)
  {
    Pack(flags, pack) + PackedFrom(kinds, FlagsOf(pack, flags, |kinds|), values, 0)
  }

  function UnpackedFrom(kinds: seq<Kind>, on: seq<bool>, values: seq<CppValue>, i: nat, b: seq<Octet>):
      Option<(seq<CppValue>, seq<Octet>)>
    requires |values| == |on| == |kinds| && i <= |kinds|
    decreases |kinds| - i
  {
    if i == |kinds| then Some((values, b))
    else if kinds[i].BitField? || !on[i] then UnpackedFrom(kinds, on, values, i + 1, b)
    else
      var v := FieldValue(kinds[i], b);
      if v.None? then None else UnpackedFrom(kinds, on, values[i := v.value.0], i + 1, v.value.1)
  }

  /** The first `n` fields whose flags are set take the new values. */
  function Merged(kinds: seq<Kind>, on: seq<bool>, was: seq<CppValue>, values: seq<CppValue>, n: nat): seq<CppValue>
    requires |was| == |values| == |on| == |kinds|
  {
    seq(|kinds|, i requires 0 <= i < |kinds| => if i < n && !kinds[i].BitField? && on[i] then values[i] else was[i])
  }

  lemma MergedStep(kinds: seq<Kind>, on: seq<bool>, was: seq<CppValue>, values: seq<CppValue>, i: nat)
    requires |was| == |values| == |on| == |kinds| && i < |kinds|
    ensures Merged(kinds, on, was, values, i + 1)
            == if !kinds[i].BitField? && on[i] then Merged(kinds, on, was, values, i)[i := values[i]]
               else Merged(kinds, on, was, values, i)
  {
  }

  lemma FieldStep(kinds: seq<Kind>, on: seq<bool>, v: CppValue, got: seq<CppValue>, i: nat, tail: seq<Octet>)
    requires |on| == |got| == |kinds| && i < |kinds| && Typed(kinds[i], v)
    ensures UnpackedFrom(kinds, on, got, i, (if !kinds[i].BitField? && on[i] then FieldOctets(kinds[i], v) else [])
        + tail)
            == UnpackedFrom(kinds, on, if !kinds[i].BitField? && on[i] then got[i := v] else got, i + 1, tail)
  {
    if !kinds[i].BitField? && on[i] {
      FieldReturns(kinds[i], v, tail);
    } else {
      assert [] + tail == tail;
    }
  }

  lemma {:induction false} FieldsReturn(kinds: seq<Kind>, on: seq<bool>, values: seq<CppValue>, was: seq<CppValue>,
                                        i: nat, rest: seq<Octet>)
    requires |on| == |kinds| && AllTyped(kinds, values) && |was| == |kinds| && i <= |kinds|
    ensures UnpackedFrom(kinds, on, Merged(kinds, on, was, values, i), i, PackedFrom(kinds, on, values, i) + rest)
            == Some((Merged(kinds, on, was, values, |kinds|), rest))
    decreases |kinds| - i
  {
    if i == |kinds| {
      assert [] + rest == rest;
    } else {
      var field := if !kinds[i].BitField? && on[i] then FieldOctets(kinds[i], values[i]) else [];
      var more := PackedFrom(kinds, on, values, i + 1);
      MergedStep(kinds, on, was, values, i);
      FieldsReturn(kinds, on, values, was, i + 1, rest);
      Associate(field, more, rest);
      FieldStep(kinds, on, values[i], Merged(kinds, on, was, values, i), i, more + rest);
    }
  }

  lemma FlagRaised(pack: nat, flags: nat, i: nat)
    requires i < 8 * pack
    ensures forall j :: 0 <= j < 8 * pack ==>
      (Bit(SetBit(flags, Position(pack, i)), Position(pack, j)) <==> j == i || Bit(flags, Position(pack, j)))
  {
    forall j | 0 <= j < 8 * pack
      ensures Bit(SetBit(flags, Position(pack, i)), Position(pack, j)) <==> j == i || Bit(flags, Position(pack, j))
    {
      BitOfSetBit(flags, Position(pack, i), Position(pack, j));
    }
  }

  lemma FlagLowered(pack: nat, flags: nat, i: nat)
    requires i < 8 * pack
    ensures forall j :: 0 <= j < 8 * pack ==>
      (Bit(ClearBit(flags, Position(pack, i)), Position(pack, j)) <==> j != i && Bit(flags, Position(pack, j)))
  {
    forall j | 0 <= j < 8 * pack
      ensures Bit(ClearBit(flags, Position(pack, i)), Position(pack, j)) <==> j != i && Bit(flags, Position(pack, j))
    {
      BitOfClearBit(flags, Position(pack, i), Position(pack, j));
    }
  }

  /** The emitted class. Its buffers are sequences of octets. */
  class PackedStruct {
    const kinds: seq<Kind>
    const pack: nat
    var flags: nat
    var values: seq<CppValue>

    ghost predicate Valid()
      reads this
    {
      |kinds| <= 8 * pack && |values| == |kinds| && flags < Pow256(pack)
    }

    /** `has...` for a field, `get...` for a bit field. */
    predicate Has(i: nat)
      requires i < 8 * pack
      reads this
    {
      Bit(flags, Position(pack, i))
    }

    constructor (kinds: seq<Kind>, pack: nat, values: seq<CppValue>)
      requires |values| == |kinds| <= 8 * pack
      ensures Valid() && this.kinds == kinds && this.pack == pack && this.values == values
      ensures forall i :: 0 <= i < 8 * pack ==> !Has(i)
    {
      this.kinds, this.pack, this.values, flags := kinds, pack, values, 0;
      new;
      forall i | 0 <= i < 8 * pack ensures !Has(i) {
        BitOfZero(Position(pack, i));
      }
    }

    /** The value and the flag are set before the length is checked; `ok` is false
        when the check throws. */
    method Set(i: nat, v: CppValue) returns (ok: bool)
      requires Valid() && i < |kinds| && !kinds[i].BitField?
      modifies this
      ensures Valid() && values == old(values)[i := v]
      ensures forall j :: 0 <= j < 8 * pack ==> (Has(j) <==> j == i || old(Has(j)))
      ensures ok <==> !(kinds[i].Text? && kinds[i].prefix < 4 && v.Txt? && |v.octets| >= Pow256(kinds[i].prefix))
    {
      values := values[i := v];
      Raise(i);
      ok := !(kinds[i].Text? && kinds[i].prefix < 4 && v.Txt? && |v.octets| >= Pow256(kinds[i].prefix));
    }

    method Raise(i: nat)
      requires Valid() && i < |kinds|
      modifies this`flags
      ensures Valid()
      ensures forall j :: 0 <= j < 8 * pack ==> (Has(j) <==> j == i || old(Has(j)))
    {
      ghost var was := flags;
      flags := SetBit(flags, Position(pack, i));
      SetBitFits(was, Position(pack, i), pack);
      FlagRaised(pack, was, i);
    }

    /** Setting a bit field, or clearing the flag of another field. */
    method Lower(i: nat)
      requires Valid() && i < |kinds|
      modifies this`flags
      ensures Valid()
      ensures forall j :: 0 <= j < 8 * pack ==> (Has(j) <==> j != i && old(Has(j)))
    {
      ghost var was := flags;
      flags := ClearBit(flags, Position(pack, i));
      FlagLowered(pack, was, i);
    }

    method Encode() returns (buffer: seq<Octet>)
      requires Valid() && AllTyped(kinds, values)
      ensures buffer == Packed(kinds, pack, flags, values)
    {
      ghost var on := FlagsOf(pack, flags, |kinds|);
      buffer := Pack(flags, pack);
      for i := 0 to |kinds|
        invariant buffer + PackedFrom(kinds, on, values, i) == Packed(kinds, pack, flags, values)
      {
        ghost var rest := PackedFrom(kinds, on, values, i + 1);
        assert [] + rest == rest && on[i] == Has(i);
        if !kinds[i].BitField? {
          if Has(i) {
            Associate(buffer, FieldOctets(kinds[i], values[i]), rest);
            buffer := buffer + FieldOctets(kinds[i], values[i]);
          }
        }
      }
    }

    /** The size announced for the buffer is the number of octets put into it. */
    method BodySize() returns (total: nat)
      requires Valid() && AllTyped(kinds, values)
      ensures total == |Packed(kinds, pack, flags, values)|
    {
      ghost var on := FlagsOf(pack, flags, |kinds|);
      total := pack;
      for i := 0 to |kinds|
        invariant total + |PackedFrom(kinds, on, values, i)| == |Packed(kinds, pack, flags, values)|
      {
        if !kinds[i].BitField? {
          if Bit(flags, Position(pack, i)) {
            SizeOfOctets(kinds[i], values[i]);
            total := total + FieldSize(kinds[i], values[i]);
          }
        }
      }
    }

    /** None when the buffer ends too early. */
    method Decode(buffer: seq<Octet>) returns (rest: Option<seq<Octet>>)
      requires Valid()
      modifies this
      ensures |buffer| < pack ==> rest.None?
      ensures |buffer| >= pack ==>
        var r := UnpackedFrom(kinds, FlagsOf(pack, Unpack(buffer[..pack]), |kinds|), old(values), 0, buffer[pack..]);
        if r.None? then rest.None?
        else Valid() && flags == Unpack(buffer[..pack]) && values == r.value.0 && rest == Some(r.value.1)
    {
      if |buffer| < pack {
        return None;
      }
      flags := Unpack(buffer[..pack]);
      ghost var on := FlagsOf(pack, flags, |kinds|);
      var b := buffer[pack..];
      for i := 0 to |kinds|
        invariant Valid() && flags == Unpack(buffer[..pack])
        invariant UnpackedFrom(kinds, on, values, i, b) == UnpackedFrom(kinds, on, old(values), 0, buffer[pack..])
      {
        if !kinds[i].BitField? {
          if Bit(flags, Position(pack, i)) {
            var v := FieldValue(kinds[i], b);
            if v.None? {
              return None;
            }
            values := values[i := v.value.0];
            b := v.value.1;
          }
        }
      }
      rest := Some(b);
    }
  }

  /** Decoding into any object takes over the flags, and the values they announce. */
  lemma PackedReturns(kinds: seq<Kind>, pack: nat, flags: nat, values: seq<CppValue>, was: seq<CppValue>,
      rest: seq<Octet>)
    requires |kinds| <= 8 * pack && AllTyped(kinds, values) && |was| == |kinds| && flags < Pow256(pack)
    ensures var b := Packed(kinds, pack, flags, values) + rest;
            && |b| >= pack && Unpack(b[..pack]) == flags
            && var on := FlagsOf(pack, flags, |kinds|);
               UnpackedFrom(kinds, on, was, 0, b[pack..]) == Some((Merged(kinds, on, was, values, |kinds|), rest))
  {
    var on := FlagsOf(pack, flags, |kinds|);
    var fields := PackedFrom(kinds, on, values, 0);
    Associate(Pack(flags, pack), fields, rest);
    ReadNumber(flags, pack, fields + rest);
    assert Merged(kinds, on, was, values, 0) == was;
    FieldsReturn(kinds, on, values, was, 0, rest);
  }

  // ----- The same octets as the Python codec of 0-10 -----

  function PythonField(k: Kind): Codec010.FieldType
  {
    match k
    case BitField => Codec010.Plain(Codec010.BitFlag)
    case Fixed(size) => Codec010.Plain(Codec010.Unsigned(size))
    case Text(prefix) => Codec010.Plain(Codec010.Bin(prefix))
  }

  function PythonFields(kinds: seq<Kind>): (fields: seq<Codec010.FieldType>)
    ensures |fields| == |kinds|
  {
    seq(|kinds|, i requires 0 <= i < |kinds| => PythonField(kinds[i]))
  }

  function PythonValue(k: Kind, v: CppValue, present: bool): Codec010.Value
    requires Typed(k, v)
  {
    if k.BitField? then Codec010.Flag(present)
    else if !present then Codec010.Null
    else if k.Fixed? then Codec010.Number(v.n) else Codec010.Bytes(v.octets)
  }

  function PythonValues(kinds: seq<Kind>, values: seq<CppValue>, present: seq<bool>): (r: seq<Codec010.Value>)
    requires AllTyped(kinds, values) && |present| == |kinds|
    ensures |r| == |kinds|
  {
    seq(|kinds|, i requires 0 <= i < |kinds| => PythonValue(kinds[i], values[i], present[i]))
  }

  lemma PythonPresence(kinds: seq<Kind>, values: seq<CppValue>, present: seq<bool>)
    requires AllTyped(kinds, values) && |present| == |kinds|
    ensures Codec010.Present(PythonFields(kinds), PythonValues(kinds, values, present)) == present
  {
    forall i | 0 <= i < |kinds|
      ensures Codec010.Present(PythonFields(kinds), PythonValues(kinds, values, present))[i] == present[i]
    {
      assert Typed(kinds[i], values[i]);
    }
  }

  lemma PythonFieldOctets(t: Codec010.Tables, k: Kind, v: CppValue)
    requires Typed(k, v) && !k.BitField?
    ensures Codec010.WriteField(t, PythonField(k), PythonValue(k, v, true)) == Some(FieldOctets(k, v))
  {
  }

  function PythonOctets(t: Codec010.Tables, kinds: seq<Kind>, values: seq<CppValue>,
      present: seq<bool>): Option<seq<Octet>>
    requires AllTyped(kinds, values) && |present| == |kinds|
  {
    Codec010.WriteFields(t, PythonFields(kinds), PythonValues(kinds, values, present))
  }

  lemma PythonStep(t: Codec010.Tables, kinds: seq<Kind>, values: seq<CppValue>, present: seq<bool>)
    requires AllTyped(kinds, values) && |present| == |kinds| && kinds != []
    ensures PythonOctets(t, kinds, values, present)
            == Glue(Some(if !kinds[0].BitField? && present[0] then FieldOctets(kinds[0], values[0]) else []),
                             PythonOctets(t, kinds[1..], values[1..], present[1..]))
  {
    var rest := PythonOctets(t, kinds[1..], values[1..], present[1..]);
    assert PythonFields(kinds)[1..] == PythonFields(kinds[1..]);
    assert PythonValues(kinds, values, present)[1..] == PythonValues(kinds[1..], values[1..], present[1..]);
    assert rest.Some? ==> [] + rest.value == rest.value;
    var f, v := PythonField(kinds[0]), PythonValue(kinds[0], values[0], present[0]);
    assert Codec010.IsPresent(f, v) == present[0];
    if kinds[0].BitField? {
      assert present[0] ==> Codec010.WriteField(t, f, v) == Some([]);
    } else if present[0] {
      PythonFieldOctets(t, kinds[0], values[0]);
    }
  }

  lemma {:induction false} PythonWrites(t: Codec010.Tables, kinds: seq<Kind>, values: seq<CppValue>,
      present: seq<bool>, i: nat)
    requires AllTyped(kinds, values) && |present| == |kinds| && i <= |kinds|
    ensures PythonOctets(t, kinds[i..], values[i..], present[i..]) == Some(PackedFrom(kinds, present, values, i))
    decreases |kinds| - i
  {
    if i < |kinds| {
      PythonStep(t, kinds[i..], values[i..], present[i..]);
      assert kinds[i..][1..] == kinds[i + 1..] && values[i..][1..] == values[i + 1..];
      assert present[i..][1..] == present[i + 1..];
      PythonWrites(t, kinds, values, present, i + 1);
    }
  }

  /** For every packed struct of flags, numbers and strings, whatever is present:
      the emitted C++ and the Python codec put the same octets on the wire. */
  lemma OneLayout(t: Codec010.Tables, code: Option<Short>, size: nat, kinds: seq<Kind>, pack: nat,
                  values: seq<CppValue>, present: seq<bool>)
    requires |kinds| <= 8 * pack && AllTyped(kinds, values) && |present| == |kinds|
    ensures var v := Codec010.Record(Codec010.Struct(code, size, pack, PythonFields(kinds)),
                                     PythonValues(kinds, values, present));
            Codec010.WriteRecord(t, v) == Some(Packed(kinds, pack, Mask(pack, present, |present|), values))
  {
    PythonPresence(kinds, values, present);
    FlagOctetsAgree(pack, present);
    MaskFlags(pack, present);
    assert kinds[0..] == kinds && values[0..] == values && present[0..] == present;
    PythonWrites(t, kinds, values, present, 0);
  }

  // ----- Structs without flags: runs of bits -----

  /** One yield of `process_fields`: a field, or a run of bit fields that share an
      octet. */
  datatype Part = One(i: nat) | Bits(i: nat, count: nat)

  /** How many of the next `limit` fields from `i` on are bits before another kind. */
  function Run(kinds: seq<Kind>, i: nat, limit: nat): (n: nat)
    ensures n <= limit && (i + n <= |kinds| || n == 0)
    decreases |kinds| - i
  {
    if limit == 0 || i >= |kinds| || !kinds[i].BitField? then 0 else 1 + Run(kinds, i + 1, limit - 1)
  }

  lemma {:induction false} RunOfBits(kinds: seq<Kind>, i: nat, limit: nat)
    ensures forall j :: i <= j < i + Run(kinds, i, limit) ==> j < |kinds| && kinds[j].BitField?
    ensures limit > 0 && i < |kinds| && kinds[i].BitField? ==> Run(kinds, i, limit) > 0
    decreases limit
  {
    var n := Run(kinds, i, limit);
    if n > 0 {
      RunOfBits(kinds, i + 1, limit - 1);
      assert n == 1 + Run(kinds, i + 1, limit - 1);
      forall j | i <= j < i + n
        ensures j < |kinds| && kinds[j].BitField?
      {
        assert j == i || i + 1 <= j < i + 1 + Run(kinds, i + 1, limit - 1);
      }
    }
  }

  /** How many fields the next part covers: bits go eight at a time. */
  function Covered(kinds: seq<Kind>, i: nat): (count: nat)
    requires i < |kinds|
    ensures 0 < count <= 8 && i + count <= |kinds|
    ensures kinds[i].BitField? ==> forall j :: i <= j < i + count ==> kinds[j].BitField?
  {
    RunOfBits(kinds, i, 8);
    if kinds[i].BitField? then Run(kinds, i, 8) else 1
  }

  predicate Fits(kinds: seq<Kind>, part: Part)
  {
    match part
    case One(i) => i < |kinds| && !kinds[i].BitField?
    case Bits(i, count) =>
      && 1 <= count <= 8 && i + count <= |kinds|
      && forall j :: i <= j < i + count ==> kinds[j].BitField?
  }

  function NextPart(kinds: seq<Kind>, i: nat): (part: Part)
    requires i < |kinds|
    ensures Fits(kinds, part)
  {
    if kinds[i].BitField? then Bits(i, Covered(kinds, i)) else One(i)
  }

  function Parts(kinds: seq<Kind>, i: nat): (parts: seq<Part>)
    requires i <= |kinds|
    decreases |kinds| - i
  {
    if i == |kinds| then [] else [NextPart(kinds, i)] + Parts(kinds, i + Covered(kinds, i))
  }

  lemma {:induction false} RunGrows(kinds: seq<Kind>, i: nat, count: nat, limit: nat)
    requires i + count <= |kinds| && count <= limit && forall j :: i <= j < i + count ==> kinds[j].BitField?
    ensures Run(kinds, i, limit) >= count
    ensures count < limit && (i + count == |kinds| || !kinds[i + count].BitField?) ==> Run(kinds, i, limit) == count
    ensures count == limit ==> Run(kinds, i, limit) == count
    decreases limit
  {
    if count > 0 {
      RunGrows(kinds, i + 1, count - 1, limit - 1);
    }
  }

  predicate AllBits(kinds: seq<Kind>, i: nat, next: nat)
  {
    i <= next <= |kinds| && forall j :: i <= j < next ==> kinds[j].BitField?
  }

  /** A run that is full or at its end is the next part. */
  lemma YieldRun(kinds: seq<Kind>, parts: seq<Part>, i: nat, count: nat)
    requires 0 < count <= 8 && AllBits(kinds, i, i + count)
    requires count == 8 || i + count == |kinds| || !kinds[i + count].BitField?
    ensures (parts + [Bits(i, count)]) + Parts(kinds, i + count) == parts + Parts(kinds, i)
  {
    RunGrows(kinds, i, count, 8);
    Associate(parts, [Bits(i, count)], Parts(kinds, i + count));
  }

  lemma YieldOne(kinds: seq<Kind>, parts: seq<Part>, i: nat)
    requires i < |kinds| && !kinds[i].BitField?
    ensures (parts + [One(i)]) + Parts(kinds, i + 1) == parts + Parts(kinds, i)
  {
    Associate(parts, [One(i)], Parts(kinds, i + 1));
  }

  /** Where the loop of `process_fields` stands before field `f`: `last` is the number
      of the field before, unless a run of bits from `begin` on is still open; then it
      is `begin`, and `count` bits have joined it. */
  ghost predicate Pending(kinds: seq<Kind>, last: Option<nat>, count: nat, begin: nat, f: nat)
  {
    && AllBits(kinds, begin, f)
    && if begin < f then last == Some(begin) && count == f - begin - 1 <= 7
       else count == 0 && (last.Some? ==> last.value < f && !kinds[last.value].BitField?)
  }

  predicate InRun(kinds: seq<Kind>, last: Option<nat>)
  {
    last.Some? && last.value < |kinds| && kinds[last.value].BitField?
  }

  lemma {:induction false} OpenRun(kinds: seq<Kind>, last: Option<nat>, count: nat, begin: nat, f: nat)
    requires Pending(kinds, last, count, begin, f)
    ensures last.Some? ==> last.value < f
    ensures if InRun(kinds, last) then last.value == begin && begin + count + 1 == f && count <= 7
            else begin == f && count == 0
    ensures InRun(kinds, last) && f < |kinds| && kinds[f].BitField? && count < 7 ==>
      Pending(kinds, last, count + 1, begin, f + 1)
    ensures f < |kinds| ==>
      Pending(kinds, Some(f), 0, if kinds[f].BitField? then f else f + 1, f + 1)
  {
  }

  /** The loop of `process_fields`. */
  method ProcessFields(kinds: seq<Kind>) returns (parts: seq<Part>)
    ensures parts == Parts(kinds, 0)
  {
    var last: Option<nat> := None;
    var count := 0;
    parts := [];
    ghost var begin := 0;      // where the part that has not been yielded begins
    ghost var all := Parts(kinds, begin);
    for f := 0 to |kinds|
      invariant Pending(kinds, last, count, begin, f)
      invariant parts + Parts(kinds, begin) == all
    {
      OpenRun(kinds, last, count, begin, f);
      if last.Some? && kinds[last.value].BitField? && kinds[f].BitField? && count < 7 {
        count := count + 1;
      } else {
        if last.Some? && kinds[last.value].BitField? {
          YieldRun(kinds, parts, last.value, count + 1);
          parts := parts + [Bits(last.value, count + 1)];
          count := 0;
          begin := f;
        }
        if !kinds[f].BitField? {
          YieldOne(kinds, parts, f);
          parts := parts + [One(f)];
          begin := f + 1;
        }
        last := Some(f);
      }
    }
    OpenRun(kinds, last, count, begin, |kinds|);
    if last.Some? && kinds[last.value].BitField? {
      YieldRun(kinds, parts, last.value, count + 1);
      parts := parts + [Bits(last.value, count + 1)];
    }
    assert parts + [] == parts;
  }

  ghost predicate AllFit(kinds: seq<Kind>, parts: seq<Part>)
  {
    parts != [] ==> Fits(kinds, parts[0]) && AllFit(kinds, parts[1..])
  }

  lemma {:induction false} PartsFit(kinds: seq<Kind>, i: nat)
    requires i <= |kinds|
    ensures AllFit(kinds, Parts(kinds, i))
    decreases |kinds| - i
  {
    if i < |kinds| {
      var next := i + Covered(kinds, i);
      PartsFit(kinds, next);
      assert ([NextPart(kinds, i)] + Parts(kinds, next))[1..] == Parts(kinds, next);
    }
  }

  function OnBits(values: seq<CppValue>): (bits: seq<bool>)
    ensures |bits| == |values|
  {
    seq(|values|, j requires 0 <= j < |values| => values[j] == On(true))
  }

  /** The first bit of a run stands in the lowest place. */
  ghost function PartOctets(kinds: seq<Kind>, values: seq<CppValue>, part: Part): seq<Octet>
    requires AllTyped(kinds, values) && Fits(kinds, part)
  {
    if part.One? then FieldOctets(kinds[part.i], values[part.i])
    else
      Codec08.OctetFits(OnBits(values[part.i..part.i + part.count]));
      [FromBits(OnBits(values[part.i..part.i + part.count]))]
  }

  ghost function Plain(kinds: seq<Kind>, values: seq<CppValue>, parts: seq<Part>): seq<Octet>
    requires AllTyped(kinds, values) && AllFit(kinds, parts)
  {
    if parts == [] then [] else PartOctets(kinds, values, parts[0]) + Plain(kinds, values, parts[1..])
  }

  ghost function PlainSize(kinds: seq<Kind>, values: seq<CppValue>, parts: seq<Part>): nat
    requires AllTyped(kinds, values) && AllFit(kinds, parts)
  {
    if parts == [] then 0
    else
      (if parts[0].Bits? then 1 else FieldSize(kinds[parts[0].i], values[parts[0].i]))
      + PlainSize(kinds, values, parts[1..])
  }

  lemma {:induction false} PlainSizeIsLength(kinds: seq<Kind>, values: seq<CppValue>, parts: seq<Part>)
    requires AllTyped(kinds, values) && AllFit(kinds, parts)
    ensures PlainSize(kinds, values, parts) == |Plain(kinds, values, parts)|
  {
    if parts != [] {
      PlainSizeIsLength(kinds, values, parts[1..]);
      if parts[0].One? {
        FieldReturns(kinds[parts[0].i], values[parts[0].i], []);
      }
    }
  }

  /** Reading one part into the object. */
  ghost function ReadPart(kinds: seq<Kind>, values: seq<CppValue>, part: Part, b: seq<Octet>): Option<(seq<CppValue>,
      seq<Octet>)>
    requires |values| == |kinds| && Fits(kinds, part)
  {
    if part.One? then
      var v := FieldValue(kinds[part.i], b);
      if v.None? then None else Some((values[part.i := v.value.0], v.value.1))
    else if b == [] then None
    else
      var bits := seq(part.count, j requires 0 <= j < part.count => On(Bit(b[0], j)));
      Some((values[..part.i] + bits + values[part.i + part.count..], b[1..]))
  }

  ghost function ReadPlain(kinds: seq<Kind>, values: seq<CppValue>, parts: seq<Part>,
      b: seq<Octet>): Option<(seq<CppValue>, seq<Octet>)>
    requires |values| == |kinds| && AllFit(kinds, parts)
    decreases |parts|
  {
    if parts == [] then Some((values, b))
    else
      var r := ReadPart(kinds, values, parts[0], b);
      if r.None? then None else ReadPlain(kinds, r.value.0, parts[1..], r.value.1)
  }

  lemma BitsReturn(kinds: seq<Kind>, values: seq<CppValue>, i: nat, count: nat)
    requires AllTyped(kinds, values) && Fits(kinds, Bits(i, count))
    ensures var o := FromBits(OnBits(values[i..i + count]));
            seq(count, j requires 0 <= j < count => On(Bit(o, j))) == values[i..i + count]
  {
    var bits := OnBits(values[i..i + count]);
    forall j | 0 <= j < count
      ensures On(Bit(FromBits(bits), j)) == values[i..i + count][j]
    {
      BitOfBits(bits, j);
      assert Typed(kinds[i + j], values[i + j]);
    }
  }

  lemma PartReturns(kinds: seq<Kind>, values: seq<CppValue>, was: seq<CppValue>, i: nat, rest: seq<Octet>)
    requires AllTyped(kinds, values) && |was| == |kinds| && i < |kinds|
    ensures var count, part := Covered(kinds, i), NextPart(kinds, i);
            ReadPart(kinds, was, part, PartOctets(kinds, values, part) + rest)
            == Some((was[..i] + values[i..i + count] + was[i + count..], rest))
  {
    if kinds[i].BitField? {
      BitsReturn(kinds, values, i, Covered(kinds, i));
    } else {
      FieldReturns(kinds[i], values[i], rest);
      assert was[i := values[i]] == was[..i] + values[i..i + 1] + was[i + 1..];
    }
  }

  /** Reading what these parts wrote turns the object `was` into `goal`. */
  ghost predicate IsRead(kinds: seq<Kind>, values: seq<CppValue>, was: seq<CppValue>, goal: seq<CppValue>,
                         parts: seq<Part>, rest: seq<Octet>)
    requires AllTyped(kinds, values)
  {
    && |was| == |kinds| && AllFit(kinds, parts)
    && ReadPlain(kinds, was, parts, Plain(kinds, values, parts) + rest) == Some((goal, rest))
  }

  lemma {:induction false} NothingToRead(kinds: seq<Kind>, values: seq<CppValue>, was: seq<CppValue>, rest: seq<Octet>)
    requires AllTyped(kinds, values) && |was| == |kinds|
    ensures IsRead(kinds, values, was, was, [], rest)
  {
    assert [] + rest == rest;
  }

  lemma {:induction false} OnePartMore(kinds: seq<Kind>, values: seq<CppValue>, was: seq<CppValue>, now: seq<CppValue>,
                    goal: seq<CppValue>, part: Part, parts: seq<Part>, rest: seq<Octet>)
    requires AllTyped(kinds, values) && |was| == |kinds| && Fits(kinds, part)
    requires IsRead(kinds, values, now, goal, parts, rest)
    requires ReadPart(kinds, was, part, PartOctets(kinds, values, part) + (Plain(kinds, values, parts) + rest))
             == Some((now, Plain(kinds, values, parts) + rest))
    ensures IsRead(kinds, values, was, goal, [part] + parts, rest)
  {
    assert ([part] + parts)[1..] == parts;
    Associate(PartOctets(kinds, values, part), Plain(kinds, values, parts), rest);
  }

  lemma {:induction false} AllAreRead(kinds: seq<Kind>, values: seq<CppValue>, was: seq<CppValue>, i: nat,
      rest: seq<Octet>)
    requires AllTyped(kinds, values) && |was| == |kinds| && i <= |kinds|
    ensures IsRead(kinds, values, was, was[..i] + values[i..], Parts(kinds, i), rest)
    decreases |kinds| - i
  {
    if i == |kinds| {
      assert was[..i] + values[i..] == was;
      NothingToRead(kinds, values, was, rest);
    } else {
      var next := i + Covered(kinds, i);
      var now := was[..i] + values[i..next] + was[next..];
      AllAreRead(kinds, values, now, next, rest);
      Filled(was, values, i, next);
      PartReturns(kinds, values, was, i, Plain(kinds, values, Parts(kinds, next)) + rest);
      OnePartMore(kinds, values, was, now, was[..i] + values[i..], NextPart(kinds, i), Parts(kinds, next), rest);
    }
  }

  /** Decoding what was encoded fills in every field from number `i` on. */
  lemma {:induction false} PlainReturns(kinds: seq<Kind>, values: seq<CppValue>, was: seq<CppValue>, i: nat,
      rest: seq<Octet>)
    requires AllTyped(kinds, values) && |was| == |kinds| && i <= |kinds|
    ensures AllFit(kinds, Parts(kinds, i))
    ensures ReadPlain(kinds, was, Parts(kinds, i), Plain(kinds, values, Parts(kinds, i)) + rest)
            == Some((was[..i] + values[i..], rest))
  {
    AllAreRead(kinds, values, was, i, rest);
  }

  lemma Filled<T>(was: seq<T>, values: seq<T>, i: nat, next: nat)
    requires |was| == |values| && i <= next <= |was|
    ensures (was[..i] + values[i..next] + was[next..])[..next] + values[next..] == was[..i] + values[i..]
  {
  }

  lemma {:induction false} PlainStep(kinds: seq<Kind>, values: seq<CppValue>, i: nat)
    requires AllTyped(kinds, values) && i < |kinds|
    ensures var next := i + Covered(kinds, i);
            && AllFit(kinds, Parts(kinds, i)) && AllFit(kinds, Parts(kinds, next))
            && Plain(kinds, values, Parts(kinds, i))
               == PartOctets(kinds, values, NextPart(kinds, i)) + Plain(kinds, values, Parts(kinds, next))
  {
    var next := i + Covered(kinds, i);
    PartsFit(kinds, i);
    PartsFit(kinds, next);
    assert ([NextPart(kinds, i)] + Parts(kinds, next))[1..] == Parts(kinds, next);
  }

  // ----- The same octets as the lazily packed bits of the 0-8 codec -----

  /** The fields that both know: strings there have lengths of one or four octets. */
  predicate KnownTo08(k: Kind)
  {
    k.Text? ==> k.prefix == 1 || k.prefix == 4
  }

  function OldType(k: Kind): Codec08.Type
  {
    match k
    case BitField => Codec08.BitType
    case Fixed(size) => Codec08.Unsigned(size)
    case Text(prefix) => if prefix == 1 then Codec08.ShortStr else Codec08.LongStr
  }

  function OldValue(v: CppValue): Codec08.Value
  {
    match v
    case On(on) => Codec08.Flag(on)
    case Num(n) => Codec08.Number(n)
    case Txt(s) => Codec08.Str(s)
  }

  function OldTypes(kinds: seq<Kind>): seq<Codec08.Type>
  {
    seq(|kinds|, i requires 0 <= i < |kinds| => OldType(kinds[i]))
  }

  function OldValues(values: seq<CppValue>): seq<Codec08.Value>
  {
    seq(|values|, i requires 0 <= i < |values| => OldValue(values[i]))
  }

  function OldItems(kinds: seq<Kind>, values: seq<CppValue>, i: nat, pending: seq<bool>): Option<Codec08.Emitted>
    requires |kinds| == |values| && i <= |kinds|
  {
    Codec08.EncodedItems(OldTypes(kinds)[i..], OldValues(values)[i..], pending)
  }

  lemma OldStep(kinds: seq<Kind>, values: seq<CppValue>, i: nat, pending: seq<bool>)
    requires |kinds| == |values| && i < |kinds|
    ensures var e := Codec08.Encoded(OldType(kinds[i]), OldValue(values[i]), pending);
            var rest := if e.None? then None else OldItems(kinds, values, i + 1, e.value.bits);
            OldItems(kinds, values, i, pending)
            == if rest.None? then None
               else Some(Codec08.Emitted(e.value.octets + rest.value.octets, rest.value.bits))
  {
    assert OldTypes(kinds)[i..][1..] == OldTypes(kinds)[i + 1..];
    assert OldValues(values)[i..][1..] == OldValues(values)[i + 1..];
  }

  /** A run of bits only adds to what is pending. */
  lemma {:induction false} OldRun(kinds: seq<Kind>, values: seq<CppValue>, i: nat, count: nat, pending: seq<bool>)
    requires AllTyped(kinds, values) && i + count <= |kinds|
    requires forall j :: i <= j < i + count ==> kinds[j].BitField?
    ensures OldItems(kinds, values, i, pending)
            == OldItems(kinds, values, i + count, pending + OnBits(values[i..i + count]))
    decreases count
  {
    if count == 0 {
      assert pending + OnBits(values[i..i]) == pending;
    } else {
      assert Typed(kinds[i], values[i]);
      OldStep(kinds, values, i, pending);
      var b := values[i].on;
      OldRun(kinds, values, i + 1, count - 1, pending + [b]);
      var bits := OnBits(values[i + 1..i + count]);
      assert OnBits(values[i..i + count]) == [b] + bits;
      Associate(pending, [b], bits);
      var r := OldItems(kinds, values, i + 1, pending + [b]);
      assert r.Some? ==> [] + r.value.octets == r.value.octets;
    }
  }

  lemma {:induction false} FullOctetsStay(p: seq<bool>, q: seq<bool>)
    requires |p| % 8 == 0 && 0 < |q| <= 8
    ensures FromBits(q) < 256 && Codec08.BitOctets(p + q) == Codec08.BitOctets(p) + [FromBits(q)]
    decreases |p|
  {
    if p == [] {
      assert p + q == q;
      Codec08.OneOctet(q);
    } else {
      assert (p + q)[..8] == p[..8] && (p + q)[8..] == p[8..] + q;
      FullOctetsStay(p[8..], q);
    }
  }

  lemma OldField(k: Kind, v: CppValue, pending: seq<bool>)
    requires Typed(k, v) && !k.BitField? && KnownTo08(k)
    ensures Codec08.Encoded(OldType(k), OldValue(v), pending) == Some(Codec08.Put(pending, FieldOctets(k, v)))
  {
  }

  /** From the start of any part, with only full octets of bits pending. */
  lemma {:induction false} OldCodecAgrees(kinds: seq<Kind>, values: seq<CppValue>, i: nat, p: seq<bool>)
    requires AllTyped(kinds, values) && i <= |kinds| && forall j :: 0 <= j < |kinds| ==> KnownTo08(kinds[j])
    requires |p| % 8 == 0 || i == |kinds| || !kinds[i].BitField?
    ensures AllFit(kinds, Parts(kinds, i)) && OldItems(kinds, values, i, p).Some?
    ensures var e := OldItems(kinds, values, i, p).value;
            e.octets + Codec08.BitOctets(e.bits) == Codec08.BitOctets(p) + Plain(kinds, values, Parts(kinds, i))
    decreases |kinds| - i
  {
    PartsFit(kinds, i);
    if i == |kinds| {
      assert Codec08.BitOctets(p) + [] == [] + Codec08.BitOctets(p);
    } else if kinds[i].BitField? {
      OldCodecOnRun(kinds, values, i, p);
    } else {
      PlainStep(kinds, values, i);
      OldStep(kinds, values, i, p);
      OldField(kinds[i], values[i], p);
      OldCodecAgrees(kinds, values, i + 1, []);
      var octets, rest := FieldOctets(kinds[i], values[i]), Plain(kinds, values, Parts(kinds, i + 1));
      assert [] + rest == rest;
      Associate(Codec08.BitOctets(p), octets, rest);
      var e := OldItems(kinds, values, i + 1, []).value;
      Associate(Codec08.BitOctets(p) + octets, e.octets, Codec08.BitOctets(e.bits));
    }
  }

  lemma {:induction false} OldCodecOnRun(kinds: seq<Kind>, values: seq<CppValue>, i: nat, p: seq<bool>)
    requires AllTyped(kinds, values) && i < |kinds| && forall j :: 0 <= j < |kinds| ==> KnownTo08(kinds[j])
    requires |p| % 8 == 0 && kinds[i].BitField?
    ensures AllFit(kinds, Parts(kinds, i)) && OldItems(kinds, values, i, p).Some?
    ensures var e := OldItems(kinds, values, i, p).value;
            e.octets + Codec08.BitOctets(e.bits) == Codec08.BitOctets(p) + Plain(kinds, values, Parts(kinds, i))
    decreases |kinds| - i, 0
  {
    var count := Covered(kinds, i);
    var bits := OnBits(values[i..i + count]);
    RunStops(kinds, i, 8);
    OldRun(kinds, values, i, count, p);
    FullOctetsStay(p, bits);
    OldCodecAgrees(kinds, values, i + count, p + bits);
    RunOctets(kinds, values, i);
    Associate(Codec08.BitOctets(p), [FromBits(bits)], Plain(kinds, values, Parts(kinds, i + count)));
  }

  lemma RunOctets(kinds: seq<Kind>, values: seq<CppValue>, i: nat)
    requires AllTyped(kinds, values) && i < |kinds| && kinds[i].BitField?
    ensures AllFit(kinds, Parts(kinds, i)) && AllFit(kinds, Parts(kinds, i + Covered(kinds, i)))
    ensures var bits := OnBits(values[i..i + Covered(kinds, i)]);
            && FromBits(bits) < 256
            && Plain(kinds, values, Parts(kinds, i)) == [FromBits(bits)]
                + Plain(kinds, values, Parts(kinds, i + Covered(kinds, i)))
  {
    PlainStep(kinds, values, i);
    Codec08.OctetFits(OnBits(values[i..i + Covered(kinds, i)]));
  }

  lemma {:induction false} RunStops(kinds: seq<Kind>, i: nat, limit: nat)
    requires i <= |kinds|
    ensures var n := Run(kinds, i, limit); n == limit || i + n == |kinds| || !kinds[i + n].BitField?
    decreases limit
  {
    if limit > 0 && i < |kinds| && kinds[i].BitField? {
      RunStops(kinds, i + 1, limit - 1);
    }
  }

  /** The octets shared by runs of at most eight bits, as `process_fields` groups
      them, are those of the codec that holds bits back until something else is
      written. */
  lemma SameOctetsAsLazyBits(kinds: seq<Kind>, values: seq<CppValue>)
    requires AllTyped(kinds, values) && forall j :: 0 <= j < |kinds| ==> KnownTo08(kinds[j])
    ensures AllFit(kinds, Parts(kinds, 0))
    ensures var e := Codec08.EncodedItems(OldTypes(kinds), OldValues(values), []);
            e.Some? && e.value.octets + Codec08.BitOctets(e.value.bits) == Plain(kinds, values, Parts(kinds, 0))
  {
    assert OldTypes(kinds)[0..] == OldTypes(kinds) && OldValues(values)[0..] == OldValues(values);
    OldCodecAgrees(kinds, values, 0, []);
    assert [] + Plain(kinds, values, Parts(kinds, 0)) == Plain(kinds, values, Parts(kinds, 0));
  }
}
