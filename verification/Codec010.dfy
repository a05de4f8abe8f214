/** The typed values of AMQP 0-10 and their octets (qpid/python/qpid/codec010.py).
    The type tables loaded from the protocol definition are a parameter. */
module Codec010 {
  import opened Wrappers
  import opened Sequences
  import opened Octets
  import opened Serials
  import opened RangedSets

  datatype Prim =
    | Void | BitFlag | Boolean
    | Unsigned(width: nat) | Signed(width: nat)
    | DateTime | Floating(width: nat) | Uuid128
    | Bin(width: nat) | Utf(width: nat)         // vbin8/16/32 and str8/16
    | Character | Fixed128                      // char and bin128
    | SequenceSet | List | Map | Array | Struct32

  /** The class of a compound value: its code, the width of its size, the number
      of flag octets, and its fields. */
  datatype Struct = Struct(code: Option<Short>, size: nat, pack: nat, fields: seq<FieldType>)

  datatype FieldType = Plain(prim: Prim) | Nested(struct: Struct)

  /** PRIMITIVE, looked up by code and by name, COMPOUND, and which octets the utf8
      decoder takes. */
  datatype Tables = Tables(
    prims: map<Octet, Prim>, codes: map<Prim, Octet>, compounds: map<Short, Struct>, utf8: seq<Octet> -> bool)

  datatype Value =
    | Null
    | Flag(on: bool)
    | Number(n: int)
    | Time(t: int)                              // timestamp
    | Real(octets: seq<Octet>)                  // float
    | Uuid(octets: seq<Octet>)
    | Chars(octets: seq<Octet>)                 // unicode, by its utf8 encoding
    | Bytes(octets: seq<Octet>)                 // str
    | Buffer(octets: seq<Octet>)
    | Ids(ranges: seq<Range>)                   // RangedSet
    | Items(items: seq<Value>)                  // list or tuple
    | Table(entries: seq<Entry>)                // dict, in iteration order
    | Record(struct: Struct, values: seq<Value>)

  datatype Entry = Entry(key: seq<Octet>, value: Value)

  predicate Ascii(s: seq<Octet>)
  {
    forall i :: 0 <= i < |s| ==> s[i] < 0x80
  }

  /** The primitive chosen for a value by its Python type. */
  function EncodingOf(v: Value): Option<Prim>
  {
    match v
    case Null => Some(Void)
    case Flag(_) => Some(Boolean)
    case Number(_) => Some(Signed(8))
    case Time(_) => Some(DateTime)
    case Real(_) => Some(Floating(8))
    case Uuid(_) => Some(Uuid128)
    case Chars(_) => Some(Utf(2))
    case Bytes(s) => Some(if Ascii(s) then Utf(2) else Bin(2))
    case Buffer(_) => Some(Bin(4))
    case Ids(_) => None
    case Items(_) => Some(List)
    case Table(_) => Some(Map)
    case Record(_, _) => Some(Struct32)
  }

  // ----- Writing; None stands for a raised exception -----

  function WriteNumber(n: int, w: nat): Option<seq<Octet>>
  {
    if 0 <= n < Pow256(w) then Some(Pack(n, w)) else None
  }

  /** Two's complement. */
  function WriteSigned(n: int, w: nat): Option<seq<Octet>>
  {
    if 2 * n + Pow256(w) < 0 || 2 * n >= Pow256(w) then None
    else WriteNumber(if n < 0 then n + Pow256(w) else n, w)
  }

  function WriteBin(s: seq<Octet>, w: nat): Option<seq<Octet>>
  {
    Glue(WriteNumber(|s|, w), Some(s))
  }

  /** `struct.pack` with a fixed length: zeros are added, or the end is cut off. */
  function Padded(s: seq<Octet>, n: nat): (p: seq<Octet>)
    ensures |p| == n
  {
    if |s| >= n then s[..n] else s + seq(n - |s|, i => 0)
  }

  function WriteRanges(rs: seq<Range>): seq<Octet>
  {
    if rs == [] then [] else Pack(rs[0].lower, 4) + Pack(rs[0].upper, 4) + WriteRanges(rs[1..])
  }

  function WriteSet(rs: seq<Range>): Option<seq<Octet>>
  {
    Glue(WriteNumber(8 * |rs|, 2), Some(WriteRanges(rs)))
  }

  function WriteCode(t: Tables, p: Option<Prim>): Option<seq<Octet>>
  {
    if p.Some? && p.value in t.codes then Some([t.codes[p.value]]) else None
  }

  function Write(t: Tables, p: Prim, v: Value): Option<seq<Octet>>
    decreases v, 2
  {
    match p
    case Void => if v.Null? then Some([]) else None
    case BitFlag => if v == Flag(true) then Some([]) else None
    case Boolean => if v.Flag? then WriteNumber(if v.on then 1 else 0, 1) else None
    case Unsigned(w) => if v.Number? then WriteNumber(v.n, w) else None
    case Signed(w) => if v.Number? then WriteSigned(v.n, w) else None
    case DateTime => if v.Time? then WriteNumber(v.t, 8) else None
    case Floating(w) => if v.Real? && |v.octets| == w then Some(v.octets) else None
    case Uuid128 =>
      if v.Bytes? then Some(Padded(v.octets, 16))
      else if v.Uuid? && |v.octets| == 16 then Some(v.octets) else None
    case Bin(w) => if v.Bytes? || v.Buffer? || (v.Chars? && w == 4) then WriteBin(v.octets, w) else None
    case Utf(w) => if v.Chars? || (v.Bytes? && Ascii(v.octets)) then WriteBin(v.octets, w) else None
    case Character => if v.Bytes? && |v.octets| == 1 then Some(v.octets) else None
    case Fixed128 => if v.Bytes? then Some(Padded(v.octets, 16)) else None
    case SequenceSet => if v.Ids? then WriteSet(v.ranges) else None
    case List =>
      var body := if v.Null? then Some([])
                  else if v.Items? then Glue(WriteNumber(|v.items|, 4), WriteItems(t, v.items)) else None;
      if body.None? then None else WriteBin(body.value, 4)
    case Map =>
      var body := if v.Null? then Some([])
                  else if v.Table? then Glue(WriteNumber(|v.entries|, 4), WriteEntries(t, v.entries)) else None;
      if body.None? then None else WriteBin(body.value, 4)
    case Array =>
      var body := if v.Null? then Some([])
                  else if v.Items? then
                    var element := if v.items == [] then Some(Void) else EncodingOf(v.items[0]);
                    Glue(Glue(WriteCode(t, element), WriteNumber(|v.items|, 4)),
                         if element.Some? then WriteElements(t, element.value, v.items) else None)
                  else None;
      if body.None? then None else WriteBin(body.value, 4)
    case Struct32 => if v.Record? then WriteCompound(t, v) else None
  }

  function WriteItems(t: Tables, vs: seq<Value>): Option<seq<Octet>>
    decreases vs, 0
  {
    if vs == [] then Some([])
    else
      var p := EncodingOf(vs[0]);
      if p.None? then None
      else Glue(Glue(WriteCode(t, p), Write(t, p.value, vs[0])), WriteItems(t, vs[1..]))
  }

  function WriteElements(t: Tables, p: Prim, vs: seq<Value>): Option<seq<Octet>>
    decreases vs, 0
  {
    if vs == [] then Some([]) else Glue(Write(t, p, vs[0]), WriteElements(t, p, vs[1..]))
  }

  function WriteEntry(t: Tables, e: Entry): Option<seq<Octet>>
    decreases e, 0
  {
    var p := EncodingOf(e.value);
    assert e.value < e;
    if p.None? then None else Glue(Glue(WriteBin(e.key, 1), WriteCode(t, p)), Write(t, p.value, e.value))
  }

  function WriteEntries(t: Tables, kvs: seq<Entry>): Option<seq<Octet>>
    decreases kvs, 0
  {
    if kvs == [] then Some([]) else Glue(WriteEntry(t, kvs[0]), WriteEntries(t, kvs[1..]))
  }

  /** A bit field is its own flag; other fields are present unless they are None. */
  predicate IsPresent(f: FieldType, v: Value)
  {
    if f == Plain(BitFlag) then v == Flag(true) else !v.Null?
  }

  function Present(fields: seq<FieldType>, vs: seq<Value>): (flags: seq<bool>)
    requires |fields| == |vs|
    ensures |flags| == |fields|
  {
    seq(|vs|, i requires 0 <= i < |vs| => IsPresent(fields[i], vs[i]))
  }

  function WriteField(t: Tables, f: FieldType, v: Value): Option<seq<Octet>>
    decreases v, 3
  {
    if f.Plain? then Write(t, f.prim, v) else if v.Record? then WriteCompound(t, v) else None
  }

  function WriteFields(t: Tables, fields: seq<FieldType>, vs: seq<Value>): Option<seq<Octet>>
    requires |fields| == |vs|
    decreases vs, 0
  {
    if vs == [] then Some([])
    else
      var rest := WriteFields(t, fields[1..], vs[1..]);
      if IsPresent(fields[0], vs[0]) then Glue(WriteField(t, fields[0], vs[0]), rest) else rest
  }

  /** The flags and the fields. Values beyond or short of the class's fields stand
      for no object. */
  function WriteRecord(t: Tables, v: Value): Option<seq<Octet>>
    requires v.Record?
    decreases v, 0
  {
    if |v.values| != |v.struct.fields| then None
    else
      Glue(Some(LittleOctets(FromBits(Present(v.struct.fields, v.values)), v.struct.pack)),
           WriteFields(t, v.struct.fields, v.values))
  }

  /** A size of width 0 is not written. */
  function WriteSize(n: nat, w: nat): Option<seq<Octet>>
  {
    if w == 0 then Some([]) else WriteNumber(n, w)
  }

  function CodeOctets(s: Struct): seq<Octet>
  {
    if s.code.Some? then Pack(s.code.value, 2) else []
  }

  /** A compound is written by its own class, whatever class was expected. */
  function WriteCompound(t: Tables, v: Value): Option<seq<Octet>>
    requires v.Record?
    decreases v, 1
  {
    var body := Glue(Some(CodeOctets(v.struct)), WriteRecord(t, v));
    if body.None? then None else Glue(WriteSize(|body.value|, v.struct.size), body)
  }

  // ----- Reading; None stands for a raised exception -----

  function TakeNumber(b: seq<Octet>, w: nat): Option<(nat, seq<Octet>)>
  {
    if |b| < w then None else Some((Unpack(b[..w]), b[w..]))
  }

  /** A slice past the end is just shorter. */
  function Slice(b: seq<Octet>, n: nat): (seq<Octet>, seq<Octet>)
  {
    if n <= |b| then (b[..n], b[n..]) else (b, [])
  }

  function ReadBin(b: seq<Octet>, w: nat): Option<(seq<Octet>, seq<Octet>)>
  {
    var n := TakeNumber(b, w);
    if n.None? then None else Some(Slice(n.value.1, n.value.0))
  }

  /** A string of octets that is decoded to text. */
  function ReadText(t: Tables, b: seq<Octet>, w: nat): Option<(seq<Octet>, seq<Octet>)>
  {
    var s := ReadBin(b, w);
    if s.None? || !t.utf8(s.value.0) then None else s
  }

  function ReadCode(t: Tables, b: seq<Octet>): Option<(Prim, seq<Octet>)>
  {
    if b == [] || b[0] !in t.prims then None else Some((t.prims[b[0]], b[1..]))
  }

  function SignedValue(n: nat, w: nat): int
  {
    if 2 * n >= Pow256(w) then n - Pow256(w) else n
  }

  function ReadRanges(count: nat, b: seq<Octet>, sofar: seq<Range>): Option<(seq<Range>, seq<Octet>)>
    ensures var r := ReadRanges(count, b, sofar);
            r.Some? ==> |r.value.1| <= |b|
    decreases count
  {
    if count == 0 then Some((sofar, b))
    else if |b| < 8 then None
    else
      PowFour();
      ReadRanges(count - 1, b[8..], Insert(sofar, Range(Unpack(b[..4]), Unpack(b[4..8]))))
  }

  function ReadSet(b: seq<Octet>): (r: Option<(seq<Range>, seq<Octet>)>)
    ensures r.Some? ==> |r.value.1| <= |b|
  {
    var n := TakeNumber(b, 2);
    if n.None? then None else ReadRanges(n.value.0 / 8, n.value.1, [])
  }

  lemma PowFour()
    ensures Pow256(4) == MODULUS && Pow256(2) == 65536 && Pow256(1) == 256
  {
    assert Pow256(4) == 256 * Pow256(3) && Pow256(3) == 256 * Pow256(2) && Pow256(2) == 256 * Pow256(1);
    assert Pow256(1) == 256 * Pow256(0);
  }

  function Put(entries: seq<Entry>, k: seq<Octet>, v: Value): seq<Entry>
  {
    if entries == [] then [Entry(k, v)]
    else if entries[0].key == k then [Entry(k, v)] + entries[1..]
    else [entries[0]] + Put(entries[1..], k, v)
  }

  function Depth(s: Struct): (d: nat)
    ensures d > 0
    decreases s
  {
    1 + DepthOf(s.fields)
  }

  function DepthOf(fs: seq<FieldType>): nat
    decreases fs
  {
    if fs == [] then 0
    else
      var f := fs[0];
      var first := if f.Plain? then 0 else (assert f.struct < f; Depth(f.struct));
      var rest := DepthOf(fs[1..]);
      if first > rest then first else rest
  }

  lemma {:induction false} FieldIsShallower(fs: seq<FieldType>, i: nat)
    requires i < |fs|
    ensures fs[i].Nested? ==> Depth(fs[i].struct) <= DepthOf(fs)
  {
    if i > 0 {
      FieldIsShallower(fs[1..], i - 1);
    }
  }

  type Reading = Option<(Value, seq<Octet>)>

  /** Reading always ends: what is nested is read from fewer octets, or is a
      shallower class, or a later element. */
  function Read(t: Tables, p: Prim, b: seq<Octet>): (r: Reading)
    ensures r.Some? ==> |r.value.1| <= |b|
    decreases |b|, 0, 0, 0
  {
    match p
    case Void => Some((Null, b))
    case BitFlag => Some((Flag(true), b))
    case Boolean => var n := TakeNumber(b, 1); if n.None? then None else Some((Flag(n.value.0 != 0), n.value.1))
    case Unsigned(w) => var n := TakeNumber(b, w); if n.None? then None else Some((Number(n.value.0), n.value.1))
    case Signed(w) =>
      var n := TakeNumber(b, w); if n.None? then None else Some((Number(SignedValue(n.value.0, w)), n.value.1))
    case DateTime => var n := TakeNumber(b, 8); if n.None? then None else Some((Time(n.value.0), n.value.1))
    case Floating(w) => if |b| < w then None else Some((Real(b[..w]), b[w..]))
    case Uuid128 => if |b| < 16 then None else Some((Uuid(b[..16]), b[16..]))
    case Bin(w) => var s := ReadBin(b, w); if s.None? then None else Some((Bytes(s.value.0), s.value.1))
    case Utf(w) => var s := ReadText(t, b, w); if s.None? then None else Some((Chars(s.value.0), s.value.1))
    case Character => if |b| < 1 then None else Some((Bytes(b[..1]), b[1..]))
    case Fixed128 => if |b| < 16 then None else Some((Bytes(b[..16]), b[16..]))
    case SequenceSet =>
      var rs := ReadSet(b); if rs.None? then None else Some((Ids(rs.value.0), rs.value.1))
    case List =>
      var s := ReadBin(b, 4);
      if s.None? then None
      else if s.value.0 == [] then Some((Null, s.value.1))
      else
        var n := TakeNumber(s.value.0, 4);
        if n.None? then None
        else
          var vs := ReadItems(t, n.value.0, n.value.1);
          if vs.None? then None else Some((Items(vs.value), s.value.1))
    case Map =>
      var s := ReadBin(b, 4);
      if s.None? then None
      else if s.value.0 == [] then Some((Null, s.value.1))
      else
        var n := TakeNumber(s.value.0, 4);
        if n.None? then None
        else
          var kvs := ReadEntries(t, n.value.1, []);
          if kvs.None? then None else Some((Table(kvs.value), s.value.1))
    case Array =>
      var s := ReadBin(b, 4);
      if s.None? then None
      else if s.value.0 == [] then Some((Null, s.value.1))
      else
        var c := ReadCode(t, s.value.0);
        var n := if c.None? then None else TakeNumber(c.value.1, 4);
        if n.None? then None
        else
          var vs := ReadElements(t, c.value.0, n.value.0, n.value.1);
          if vs.None? then None else Some((Items(vs.value), s.value.1))
    case Struct32 =>
      if |b| < 6 then None
      else
        PowFour();
        var code: Short := Unpack(b[4..6]);
        if code !in t.compounds then None else ReadRecord(t, t.compounds[code], b[6..])
  }

  function ReadItems(t: Tables, count: nat, b: seq<Octet>): Option<seq<Value>>
    decreases |b|, 0, 1, count
  {
    if count == 0 then Some([])
    else
      var c := ReadCode(t, b);
      var v := if c.None? then None else Read(t, c.value.0, c.value.1);
      var vs := if v.None? then None else ReadItems(t, count - 1, v.value.1);
      if vs.None? then None else Some([v.value.0] + vs.value)
  }

  function ReadElements(t: Tables, p: Prim, count: nat, b: seq<Octet>): Option<seq<Value>>
    decreases |b|, 0, 1, count
  {
    if count == 0 then Some([])
    else
      var v := Read(t, p, b);
      var vs := if v.None? then None else ReadElements(t, p, count - 1, v.value.1);
      if vs.None? then None else Some([v.value.0] + vs.value)
  }

  function ReadEntries(t: Tables, b: seq<Octet>, sofar: seq<Entry>): Option<seq<Entry>>
    decreases |b|, 0, 1, 0
  {
    if b == [] then Some(sofar)
    else
      var k := ReadText(t, b, 1);
      var c := if k.None? then None else ReadCode(t, k.value.1);
      var v := if c.None? then None else Read(t, c.value.0, c.value.1);
      if v.None? then None else ReadEntries(t, v.value.1, Put(sofar, k.value.0, v.value.0))
  }

  function ReadRecord(t: Tables, s: Struct, b: seq<Octet>): (r: Reading)
    ensures r.Some? ==> |r.value.1| <= |b|
    decreases |b|, Depth(s), 1, 0
  {
    if |b| < s.pack then None
    else
      var vs := ReadFields(t, s, LittleValue(b[..s.pack]), 0, b[s.pack..]);
      if vs.None? then None else Some((Record(s, vs.value.0), vs.value.1))
  }

  /** What a field holds when it is not on the wire. */
  function Default(f: FieldType): Value
  {
    if f == Plain(BitFlag) then Flag(false) else Null
  }

  function ReadField(t: Tables, f: FieldType, b: seq<Octet>): (r: Reading)
    ensures r.Some? ==> |r.value.1| <= |b|
    decreases |b|, if f.Plain? then 0 else Depth(f.struct), 3, 0
  {
    if f.Plain? then Read(t, f.prim, b) else ReadCompound(t, f.struct, b)
  }

  /** The fields from number `i` on. */
  function ReadFields(t: Tables, s: Struct, flags: nat, i: nat, b: seq<Octet>): (r: Option<(seq<Value>, seq<Octet>)>)
    requires i <= |s.fields|
    ensures r.Some? ==> |r.value.1| <= |b| && |r.value.0| == |s.fields| - i
    decreases |b|, Depth(s), 0, |s.fields| - i
  {
    if i == |s.fields| then Some(([], b))
    else
      var f := s.fields[i];
      var v: Reading :=
        if Bit(flags, i) then (FieldIsShallower(s.fields, i); ReadField(t, f, b)) else Some((Default(f), b));
      var vs := if v.None? then None else ReadFields(t, s, flags, i + 1, v.value.1);
      if vs.None? then None else Some(([v.value.0] + vs.value.0, vs.value.1))
  }

  function ReadCompound(t: Tables, s: Struct, b: seq<Octet>): (r: Reading)
    ensures r.Some? ==> |r.value.1| <= |b|
    decreases |b|, Depth(s), 2, 0
  {
    var size := TakeNumber(b, s.size);
    if size.None? then None
    else if s.code.None? then ReadRecord(t, s, size.value.1)
    else
      var code := TakeNumber(size.value.1, 2);
      if code.None? || code.value.0 != s.code.value then None else ReadRecord(t, s, code.value.1)
  }

  // ----- What is written is read back -----

  /** The value that comes back: text stored as ASCII comes back as text, a
      buffer as a string, a string of fixed length padded or cut, an absent bit as
      false; the rest unchanged. */
  function Back(p: Prim, v: Value): Value
    decreases v, 1
  {
    match p
    case Bin(_) => if v.Buffer? || v.Chars? then Bytes(v.octets) else v
    case Uuid128 => if v.Bytes? then Uuid(Padded(v.octets, 16)) else v
    case Fixed128 => if v.Bytes? then Bytes(Padded(v.octets, 16)) else v
    case Utf(_) => if v.Bytes? then Chars(v.octets) else v
    case List => if v.Items? then Items(BackItems(v.items)) else v
    case Map => if v.Table? then Table(BackEntries(v.entries)) else v
    case Array =>
      if v.Items? && v.items != [] && EncodingOf(v.items[0]).Some?
      then Items(BackElements(EncodingOf(v.items[0]).value, v.items)) else v
    case Struct32 => BackRecord(v)
    case _ => v
  }

  function BackItem(v: Value): Value
    decreases v, 2
  {
    if EncodingOf(v).Some? then Back(EncodingOf(v).value, v) else v
  }

  function BackItems(vs: seq<Value>): seq<Value>
    decreases vs, 0
  {
    if vs == [] then [] else [BackItem(vs[0])] + BackItems(vs[1..])
  }

  function BackElements(p: Prim, vs: seq<Value>): seq<Value>
    decreases vs, 0
  {
    if vs == [] then [] else [Back(p, vs[0])] + BackElements(p, vs[1..])
  }

  function BackEntries(kvs: seq<Entry>): seq<Entry>
    decreases kvs, 0
  {
    if kvs == [] then []
    else
      var e := kvs[0];
      assert e.value < e;
      [Entry(e.key, BackItem(e.value))] + BackEntries(kvs[1..])
  }

  function BackField(f: FieldType, v: Value): Value
    decreases v, 2
  {
    if !IsPresent(f, v) then Default(f) else if f.Plain? then Back(f.prim, v) else BackRecord(v)
  }

  function BackFields(fields: seq<FieldType>, vs: seq<Value>): seq<Value>
    requires |fields| == |vs|
    decreases vs, 0
  {
    if vs == [] then [] else [BackField(fields[0], vs[0])] + BackFields(fields[1..], vs[1..])
  }

  function BackRecord(v: Value): Value
    decreases v, 0
  {
    if v.Record? && |v.struct.fields| == |v.values| then Record(v.struct, BackFields(v.struct.fields, v.values)) else v
  }

  /** Names and codes of primitives, and codes of classes, determine each other,
      and ASCII is utf8. */
  ghost predicate Consistent(t: Tables)
  {
    && (forall p :: p in t.codes ==> t.codes[p] in t.prims && t.prims[t.codes[p]] == p)
    && (forall c :: c in t.compounds ==> t.compounds[c].code == Some(c))
    && (forall s: seq<Octet> :: Ascii(s) ==> t.utf8(s))
  }

  ghost predicate DistinctKeys(kvs: seq<Entry>)
  {
    forall i, j :: 0 <= i < j < |kvs| ==> kvs[i].key != kvs[j].key
  }

  /** What the source takes for granted of values and classes: text and keys are
      encoded in utf8, a dict's keys are distinct, a set is a canonical list of ranges, a nested compound is of the
      field's class, the present fields have flags, and a class sent as struct32 is
      registered and has a size of four octets. */
  ghost predicate Sound(t: Tables, p: Prim, v: Value)
    decreases v, 1
  {
    match p
    case Utf(_) => v.Chars? ==> t.utf8(v.octets)
    case SequenceSet => v.Ids? ==> exists base: Serial :: Canonical(base, v.ranges)
    case List => v.Items? ==> SoundItems(t, v.items)
    case Map => v.Table? ==> DistinctKeys(v.entries) && SoundEntries(t, v.entries)
    case Array =>
      v.Items? && v.items != [] && EncodingOf(v.items[0]).Some? ==>
        SoundElements(t, EncodingOf(v.items[0]).value, v.items)
    case Struct32 =>
      v.Record? ==>
        && v.struct.size == 4 && v.struct.code.Some?
        && v.struct.code.value in t.compounds && t.compounds[v.struct.code.value] == v.struct
        && SoundRecord(t, v)
    case _ => true
  }

  ghost predicate SoundItem(t: Tables, v: Value)
    decreases v, 2
  {
    EncodingOf(v).Some? ==> Sound(t, EncodingOf(v).value, v)
  }

  ghost predicate SoundItems(t: Tables, vs: seq<Value>)
    decreases vs, 0
  {
    vs != [] ==> SoundItem(t, vs[0]) && SoundItems(t, vs[1..])
  }

  ghost predicate SoundElements(t: Tables, p: Prim, vs: seq<Value>)
    decreases vs, 0
  {
    vs != [] ==> Sound(t, p, vs[0]) && SoundElements(t, p, vs[1..])
  }

  ghost predicate SoundEntries(t: Tables, kvs: seq<Entry>)
    decreases kvs, 0
  {
    kvs != [] ==>
      var e := kvs[0];
      assert e.value < e;
      t.utf8(e.key) && SoundItem(t, e.value) && SoundEntries(t, kvs[1..])
  }

  ghost predicate SoundField(t: Tables, f: FieldType, v: Value)
    decreases v, 2
  {
    if f.Plain? then Sound(t, f.prim, v)
    else !v.Null? ==> v.Record? && v.struct == f.struct && SoundRecord(t, v)
  }

  ghost predicate SoundFields(t: Tables, fields: seq<FieldType>, vs: seq<Value>)
    requires |fields| == |vs|
    decreases vs, 0
  {
    vs != [] ==> SoundField(t, fields[0], vs[0]) && SoundFields(t, fields[1..], vs[1..])
  }

  ghost predicate SoundRecord(t: Tables, v: Value)
    decreases v, 0
  {
    v.Record? && |v.values| == |v.struct.fields| ==>
      FlagsFit(v) && SoundFields(t, v.struct.fields, v.values)
  }

  /** The flag octets have room for the flag of every field that is present. */
  predicate FlagsFit(v: Value)
    requires v.Record? && |v.values| == |v.struct.fields|
  {
    forall i :: 0 <= i < |v.values| && Present(v.struct.fields, v.values)[i] ==> i < 8 * v.struct.pack
  }

  lemma BinBack(s: seq<Octet>, w: nat, rest: seq<Octet>)
    requires WriteBin(s, w).Some?
    ensures ReadBin(WriteBin(s, w).value + rest, w) == Some((s, rest))
  {
    Associate(Pack(|s|, w), s, rest);
    ReadNumber(|s|, w, s + rest);
  }

  lemma NumberBack(n: int, w: nat, rest: seq<Octet>)
    requires WriteNumber(n, w).Some?
    ensures TakeNumber(WriteNumber(n, w).value + rest, w) == Some((n, rest))
  {
    ReadNumber(n, w, rest);
  }

  lemma {:induction false} RangesBack(rs: seq<Range>, sofar: seq<Range>, rest: seq<Octet>)
    ensures ReadRanges(|rs|, WriteRanges(rs) + rest, sofar) == Some((InsertAll(sofar, rs), rest))
    decreases |rs|
  {
    if rs == [] {
      assert [] + rest == rest;
    } else {
      var lower, upper, more := Pack(rs[0].lower, 4), Pack(rs[0].upper, 4), WriteRanges(rs[1..]);
      var b := WriteRanges(rs) + rest;
      PowFour();
      assert b == lower + (upper + (more + rest));
      ReadNumber(rs[0].lower, 4, upper + (more + rest));
      ReadNumber(rs[0].upper, 4, more + rest);
      assert b[4..8] == b[4..][..4] && b[8..] == b[4..][4..];
      RangesBack(rs[1..], Insert(sofar, rs[0]), rest);
    }
  }

  lemma CodeBack(t: Tables, p: Prim, rest: seq<Octet>)
    requires Consistent(t) && WriteCode(t, Some(p)).Some?
    ensures ReadCode(t, WriteCode(t, Some(p)).value + rest) == Some((p, rest))
  {
    var b := WriteCode(t, Some(p)).value + rest;
    assert b[0] == t.codes[p] && b[1..] == rest;
  }

  lemma TextBack(t: Tables, s: seq<Octet>, w: nat, rest: seq<Octet>)
    requires WriteBin(s, w).Some? && t.utf8(s)
    ensures ReadText(t, WriteBin(s, w).value + rest, w) == Some((s, rest))
  {
    BinBack(s, w, rest);
  }

  lemma FixedBack(s: seq<Octet>, rest: seq<Octet>)
    ensures (s + rest)[..|s|] == s && (s + rest)[|s|..] == rest
  {
  }

  predicate Composed(p: Prim)
  {
    p.SequenceSet? || p.List? || p.Map? || p.Array? || p.Struct32?
  }

  lemma SimpleBack(t: Tables, p: Prim, v: Value, rest: seq<Octet>)
    requires Consistent(t) && Sound(t, p, v) && Write(t, p, v).Some? && !Composed(p)
    ensures Read(t, p, Write(t, p, v).value + rest) == Some((Back(p, v), rest))
  {
    FixedBack(Write(t, p, v).value, rest);
    match p
    case Void => assert [] + rest == rest;
    case BitFlag => assert [] + rest == rest;
    case Boolean => NumberBack(if v.on then 1 else 0, 1, rest);
    case Unsigned(n) => NumberBack(v.n, n, rest);
    case Signed(n) => NumberBack(if v.n < 0 then v.n + Pow256(n) else v.n, n, rest);
    case DateTime => NumberBack(v.t, 8, rest);
    case Bin(n) => BinBack(v.octets, n, rest);
    case Utf(n) => TextBack(t, v.octets, n, rest);
    case _ =>
  }

  /** Every value of every nesting: reading what was written gives the value
      back and leaves what follows. An absent map, list or array stays distinct
      from an empty one. */
  lemma {:induction false} RoundTrip(t: Tables, p: Prim, v: Value, rest: seq<Octet>)
    requires Consistent(t) && Sound(t, p, v) && Write(t, p, v).Some?
    ensures Read(t, p, Write(t, p, v).value + rest) == Some((Back(p, v), rest))
    decreases v, 1, 0
  {
    match p
    case SequenceSet =>
      var base: Serial :| Canonical(base, v.ranges);
      SetBack(base, v.ranges, rest);
    case List => ListBack(t, v, rest);
    case Map => MapBack(t, v, rest);
    case Array => ArrayBack(t, v, rest);
    case Struct32 => StructBack(t, v, rest);
    case _ => SimpleBack(t, p, v, rest);
  }

  /** A canonical list of ranges is rebuilt as it was. */
  lemma SetBack(base: Serial, rs: seq<Range>, rest: seq<Octet>)
    requires Canonical(base, rs) && WriteSet(rs).Some?
    ensures ReadSet(WriteSet(rs).value + rest) == Some((rs, rest))
  {
    var body := WriteRanges(rs);
    Associate(Pack(8 * |rs|, 2), body, rest);
    SetSize(|rs|, body + rest);
    RebuildIsIdentity(base, rs);
    RangesBack(rs, [], rest);
  }

  lemma SetSize(count: nat, b: seq<Octet>)
    requires WriteNumber(8 * count, 2).Some?
    ensures ReadSet(Pack(8 * count, 2) + b) == ReadRanges(count, b, [])
  {
    NumberBack(8 * count, 2, b);
    EighthOf(count);
  }

  lemma EighthOf(n: nat)
    ensures 8 * n / 8 == n
  {
  }

  lemma {:induction false} ListBack(t: Tables, v: Value, rest: seq<Octet>)
    requires Consistent(t) && Sound(t, List, v) && Write(t, List, v).Some?
    ensures Read(t, List, Write(t, List, v).value + rest) == Some((Back(List, v), rest))
    decreases v, 0, 0
  {
    if v.Null? {
      BinBack([], 4, rest);
    } else {
      var count, items := WriteNumber(|v.items|, 4), WriteItems(t, v.items);
      BinBack(count.value + items.value, 4, rest);
      NumberBack(|v.items|, 4, items.value);
      ItemsBack(t, v.items);
    }
  }

  lemma {:induction false} MapBack(t: Tables, v: Value, rest: seq<Octet>)
    requires Consistent(t) && Sound(t, Map, v) && Write(t, Map, v).Some?
    ensures Read(t, Map, Write(t, Map, v).value + rest) == Some((Back(Map, v), rest))
    decreases v, 0, 0
  {
    if v.Null? {
      BinBack([], 4, rest);
    } else {
      var count, entries := WriteNumber(|v.entries|, 4), WriteEntries(t, v.entries);
      BinBack(count.value + entries.value, 4, rest);
      NumberBack(|v.entries|, 4, entries.value);
      EntriesBack(t, [], v.entries);
      assert [] + BackEntries(v.entries) == BackEntries(v.entries);
    }
  }

  lemma {:induction false} ArrayBack(t: Tables, v: Value, rest: seq<Octet>)
    requires Consistent(t) && Sound(t, Array, v) && Write(t, Array, v).Some?
    ensures Read(t, Array, Write(t, Array, v).value + rest) == Some((Back(Array, v), rest))
    decreases v, 0, 0
  {
    if v.Null? {
      BinBack([], 4, rest);
    } else {
      var p := if v.items == [] then Void else EncodingOf(v.items[0]).value;
      var code, count, elements := WriteCode(t, Some(p)), WriteNumber(|v.items|, 4), WriteElements(t, p, v.items);
      BinBack((code.value + count.value) + elements.value, 4, rest);
      Associate(code.value, count.value, elements.value);
      CodeBack(t, p, count.value + elements.value);
      NumberBack(|v.items|, 4, elements.value);
      ElementsBack(t, p, v.items);
    }
  }

  lemma {:induction false} StructBack(t: Tables, v: Value, rest: seq<Octet>)
    requires Consistent(t) && Sound(t, Struct32, v) && Write(t, Struct32, v).Some?
    ensures Read(t, Struct32, Write(t, Struct32, v).value + rest) == Some((Back(Struct32, v), rest))
    decreases v, 0, 1
  {
    var s := v.struct;
    var body := WriteRecord(t, v).value;
    var size := |CodeOctets(s) + body|;
    CompoundLayout(t, v, rest);
    var b := WriteCompound(t, v).value + rest;
    PowFour();
    ReadNumber(size, 4, Pack(s.code.value, 2) + (body + rest));
    ReadNumber(s.code.value, 2, body + rest);
    assert b[4..6] == b[4..][..2] && b[6..] == b[4..][2..];
    RecordBack(t, v, rest);
  }

  lemma CompoundLayout(t: Tables, v: Value, rest: seq<Octet>)
    requires v.Record? && WriteCompound(t, v).Some?
    ensures var body := WriteRecord(t, v).value;
            var size := WriteSize(|CodeOctets(v.struct) + body|, v.struct.size).value;
            WriteCompound(t, v).value + rest == size + (CodeOctets(v.struct) + (body + rest))
  {
    var code, body := CodeOctets(v.struct), WriteRecord(t, v).value;
    var size := WriteSize(|code + body|, v.struct.size).value;
    Associate(size, code + body, rest);
    Associate(code, body, rest);
  }

  lemma {:induction false} ItemsBack(t: Tables, vs: seq<Value>)
    requires Consistent(t) && SoundItems(t, vs) && WriteItems(t, vs).Some?
    ensures ReadItems(t, |vs|, WriteItems(t, vs).value) == Some(BackItems(vs))
    decreases vs, 0, 0
  {
    if vs != [] {
      var p := EncodingOf(vs[0]).value;
      var code, first, more := WriteCode(t, Some(p)).value, Write(t, p, vs[0]).value, WriteItems(t, vs[1..]).value;
      Associate(code, first, more);
      CodeBack(t, p, first + more);
      RoundTrip(t, p, vs[0], more);
      ItemsBack(t, vs[1..]);
    }
  }

  lemma {:induction false} ElementsBack(t: Tables, p: Prim, vs: seq<Value>)
    requires Consistent(t) && (vs != [] ==> SoundElements(t, p, vs)) && WriteElements(t, p, vs).Some?
    ensures ReadElements(t, p, |vs|, WriteElements(t, p, vs).value) == Some(BackElements(p, vs))
    decreases vs, 0, 0
  {
    if vs != [] {
      RoundTrip(t, p, vs[0], WriteElements(t, p, vs[1..]).value);
      ElementsBack(t, p, vs[1..]);
    }
  }

  lemma {:induction false} PutNew(entries: seq<Entry>, k: seq<Octet>, v: Value)
    requires forall i :: 0 <= i < |entries| ==> entries[i].key != k
    ensures Put(entries, k, v) == entries + [Entry(k, v)]
  {
    if entries != [] {
      PutNew(entries[1..], k, v);
    }
  }

  /** One round of the loop over entries, when the key is not in the dict yet. */
  lemma EntryBack(t: Tables, sofar: seq<Entry>, e: Entry, p: Prim, w: seq<Octet>, more: seq<Octet>)
    requires Consistent(t) && t.utf8(e.key) && WriteBin(e.key, 1).Some? && WriteCode(t, Some(p)).Some?
    requires Read(t, p, w + more) == Some((Back(p, e.value), more))
    requires forall i :: 0 <= i < |sofar| ==> sofar[i].key != e.key
    ensures var b := WriteBin(e.key, 1).value + (WriteCode(t, Some(p)).value + (w + more));
            ReadEntries(t, b, sofar) == ReadEntries(t, more, sofar + [Entry(e.key, Back(p, e.value))])
  {
    var code := WriteCode(t, Some(p)).value;
    BinBack(e.key, 1, code + (w + more));
    CodeBack(t, p, w + more);
    PutNew(sofar, e.key, Back(p, e.value));
  }

  lemma KeysStayDistinct(sofar: seq<Entry>, e: Entry, v: Value, rest: seq<Entry>)
    requires DistinctKeys(sofar + ([e] + rest))
    ensures DistinctKeys((sofar + [Entry(e.key, v)]) + rest)
    ensures forall i :: 0 <= i < |sofar| ==> sofar[i].key != e.key
  {
    var before, after := sofar + ([e] + rest), (sofar + [Entry(e.key, v)]) + rest;
    forall i | 0 <= i < |sofar| ensures sofar[i].key != e.key {
      assert before[i] == sofar[i] && before[|sofar|] == e;
    }
    assert forall i :: 0 <= i < |after| ==> after[i].key == before[i].key;
  }

  lemma {:induction false} EntriesBack(t: Tables, sofar: seq<Entry>, kvs: seq<Entry>)
    requires Consistent(t) && SoundEntries(t, kvs) && WriteEntries(t, kvs).Some?
    requires DistinctKeys(sofar + kvs)
    ensures ReadEntries(t, WriteEntries(t, kvs).value, sofar) == Some(sofar + BackEntries(kvs))
    decreases kvs, 0, 0
  {
    if kvs == [] {
      assert sofar + [] == sofar;
    } else {
      var e := kvs[0];
      var p := EncodingOf(e.value).value;
      var key, code := WriteBin(e.key, 1).value, WriteCode(t, Some(p)).value;
      var first, more := Write(t, p, e.value).value, WriteEntries(t, kvs[1..]).value;
      Associate(key + code, first, more);
      Associate(key, code, first + more);
      assert e.value < e;
      RoundTrip(t, p, e.value, more);
      assert kvs == [e] + kvs[1..];
      KeysStayDistinct(sofar, e, Back(p, e.value), kvs[1..]);
      EntryBack(t, sofar, e, p, first, more);
      var next := Entry(e.key, Back(p, e.value));
      EntriesBack(t, sofar + [next], kvs[1..]);
      Associate(sofar, [next], BackEntries(kvs[1..]));
    }
  }

  lemma {:induction false} RecordBack(t: Tables, v: Value, rest: seq<Octet>)
    requires Consistent(t) && v.Record? && SoundRecord(t, v) && WriteRecord(t, v).Some?
    ensures ReadRecord(t, v.struct, WriteRecord(t, v).value + rest) == Some((BackRecord(v), rest))
    decreases v, 0, 0
  {
    var s := v.struct;
    var flags := FromBits(Present(s.fields, v.values));
    var octets, fields := LittleOctets(flags, s.pack), WriteFields(t, s.fields, v.values).value;
    FlagsReach(Present(s.fields, v.values), s.pack);
    LittleValueOfOctets(flags, s.pack);
    Associate(octets, fields, rest);
    assert (octets + (fields + rest))[..s.pack] == octets && (octets + (fields + rest))[s.pack..] == fields + rest;
    assert s.fields[0..] == s.fields && v.values[0..] == v.values;
    FieldsBack(t, s, v.values, 0, rest);
  }

  lemma {:induction false} CompoundBack(t: Tables, v: Value, rest: seq<Octet>)
    requires Consistent(t) && v.Record? && SoundRecord(t, v) && WriteCompound(t, v).Some?
    ensures ReadCompound(t, v.struct, WriteCompound(t, v).value + rest) == Some((BackRecord(v), rest))
    decreases v, 0, 1
  {
    var s := v.struct;
    var code, body := CodeOctets(s), WriteRecord(t, v).value;
    CompoundLayout(t, v, rest);
    if s.size == 0 {
      assert [] + (code + (body + rest)) == code + (body + rest);
    } else {
      ReadNumber(|code + body|, s.size, code + (body + rest));
    }
    if s.code.Some? {
      PowFour();
      ReadNumber(s.code.value, 2, body + rest);
    } else {
      assert code + (body + rest) == body + rest;
    }
    RecordBack(t, v, rest);
  }

  lemma {:induction false} FieldBack(t: Tables, f: FieldType, v: Value, rest: seq<Octet>)
    requires Consistent(t) && SoundField(t, f, v) && IsPresent(f, v) && WriteField(t, f, v).Some?
    ensures ReadField(t, f, WriteField(t, f, v).value + rest) == Some((BackField(f, v), rest))
    decreases v, 1, 1
  {
    if f.Plain? {
      RoundTrip(t, f.prim, v, rest);
    } else {
      CompoundBack(t, v, rest);
    }
  }

  lemma {:induction false} FieldsBack(t: Tables, s: Struct, all: seq<Value>, i: nat, rest: seq<Octet>)
    requires Consistent(t) && |all| == |s.fields| && i <= |all|
    requires SoundFields(t, s.fields[i..], all[i..]) && WriteFields(t, s.fields[i..], all[i..]).Some?
    ensures ReadFields(t, s, FromBits(Present(s.fields, all)), i, WriteFields(t, s.fields[i..], all[i..]).value + rest)
            == Some((BackFields(s.fields[i..], all[i..]), rest))
    decreases all, 0, |all| - i
  {
    if i == |all| {
      assert [] + rest == rest;
    } else {
      var f, v := s.fields[i], all[i];
      var more := WriteFields(t, s.fields[i + 1..], all[i + 1..]).value;
      assert s.fields[i..][0] == f && s.fields[i..][1..] == s.fields[i + 1..];
      assert all[i..][0] == v && all[i..][1..] == all[i + 1..];
      BitOfBits(Present(s.fields, all), i);
      FieldsBack(t, s, all, i + 1, rest);
      if IsPresent(f, v) {
        FieldBack(t, f, v, more + rest);
        Associate(WriteField(t, f, v).value, more, rest);
      }
    }
  }

  // ----- A present field without a flag is lost -----

  lemma {:induction false} UnflaggedReads(t: Tables, s: Struct, flags: nat, i: nat, b: seq<Octet>, k: nat)
    requires i <= k < |s.fields| && !Bit(flags, k) && ReadFields(t, s, flags, i, b).Some?
    ensures ReadFields(t, s, flags, i, b).value.0[k - i] == Default(s.fields[k])
    decreases k - i
  {
    if i < k {
      var f := s.fields[i];
      var v := if Bit(flags, i) then ReadField(t, f, b) else Some((Default(f), b));
      UnflaggedReads(t, s, flags, i + 1, v.value.1, k);
    }
  }

  lemma {:induction false} PresentIsNotDefault(fields: seq<FieldType>, vs: seq<Value>, k: nat)
    requires |fields| == |vs| && k < |vs| && Present(fields, vs)[k]
    ensures |BackFields(fields, vs)| == |vs| && BackFields(fields, vs)[k] != Default(fields[k])
  {
    BackFieldsLength(fields, vs);
    if k > 0 {
      PresentIsNotDefault(fields[1..], vs[1..], k - 1);
    } else if fields[0].Plain? {
      var p, v := fields[0].prim, vs[0];
      assert p == Struct32 ==> Back(p, v) == BackRecord(v);
      assert Back(p, v).Null? ==> v.Null?;
    } else {
      assert !BackRecord(vs[0]).Null?;
    }
  }

  lemma {:induction false} BackFieldsLength(fields: seq<FieldType>, vs: seq<Value>)
    requires |fields| == |vs|
    ensures |BackFields(fields, vs)| == |vs|
  {
    if vs != [] {
      BackFieldsLength(fields[1..], vs[1..]);
    }
  }

  /** Exactly when the fields of an object come back: when every present field
      has its flag. A class without flag octets, such as the source's
      command-fragment, writes its fields and reads none of them. */
  lemma RecordsReturnExactly(t: Tables, v: Value, rest: seq<Octet>)
    requires Consistent(t) && v.Record? && WriteRecord(t, v).Some? && SoundFields(t, v.struct.fields, v.values)
    ensures ReadRecord(t, v.struct, WriteRecord(t, v).value + rest) == Some((BackRecord(v), rest)) <==> FlagsFit(v)
  {
    if FlagsFit(v) {
      RecordBack(t, v, rest);
    } else {
      var s := v.struct;
      var i :| 0 <= i < |v.values| && Present(s.fields, v.values)[i] && i >= 8 * s.pack;
      var b := WriteRecord(t, v).value + rest;
      Pow2OfOctets(s.pack);
      BitBeyond(LittleValue(b[..s.pack]), 8 * s.pack, i);
      PresentIsNotDefault(s.fields, v.values, i);
      if ReadRecord(t, s, b).Some? {
        UnflaggedReads(t, s, LittleValue(b[..s.pack]), 0, b[s.pack..], i);
        assert ReadRecord(t, s, b).value.0.values[i] == Default(s.fields[i]);
        assert BackRecord(v).values[i] != Default(s.fields[i]);
      }
    }
  }

  // ----- What stands in the octets, also where the reader does not look -----

  lemma Prefixed(s: seq<Octet>, w: nat)
    requires WriteBin(s, w).Some?
    ensures var octets := WriteBin(s, w).value;
            |octets| == w + |s| && Unpack(octets[..w]) == |s| && octets[w..] == s
  {
    assert Pack(|s|, w) + s == WriteBin(s, w).value;
    ReadNumber(|s|, w, s);
  }

  lemma Counted(n: nat, rest: seq<Octet>, w: nat)
    requires WriteNumber(n, w).Some?
    ensures var octets := WriteNumber(n, w).value + rest;
            |octets| == w + |rest| && Unpack(octets[..w]) == n && octets[w..] == rest
  {
    ReadNumber(n, w, rest);
  }

  /** A dict: the octets behind the size, and the number of its entries. */
  lemma MapOctets(t: Tables, v: Value)
    requires v.Table? && Write(t, Map, v).Some?
    ensures var w := Write(t, Map, v).value;
            |w| >= 8 && Unpack(w[..4]) == |w| - 4 && Unpack(w[4..8]) == |v.entries|
  {
    var count, entries := WriteNumber(|v.entries|, 4).value, WriteEntries(t, v.entries).value;
    var w := Write(t, Map, v).value;
    Prefixed(count + entries, 4);
    Counted(|v.entries|, entries, 4);
    assert w[4..8] == w[4..][..4];
  }

  /** A list: the octets behind the size, and the number of its items. */
  lemma ListOctets(t: Tables, v: Value)
    requires v.Items? && Write(t, List, v).Some?
    ensures var w := Write(t, List, v).value;
            |w| >= 8 && Unpack(w[..4]) == |w| - 4 && Unpack(w[4..8]) == |v.items|
  {
    var count, items := WriteNumber(|v.items|, 4).value, WriteItems(t, v.items).value;
    var w := Write(t, List, v).value;
    Prefixed(count + items, 4);
    Counted(|v.items|, items, 4);
    assert w[4..8] == w[4..][..4];
  }

  /** An array: the octets behind the size, the elements' type, and their number. An
      empty one is an array of void. */
  lemma ArrayOctets(t: Tables, v: Value)
    requires v.Items? && Write(t, Array, v).Some?
    ensures var w, p := Write(t, Array, v).value, if v.items == [] then Some(Void) else EncodingOf(v.items[0]);
            && |w| >= 9 && Unpack(w[..4]) == |w| - 4 && Unpack(w[5..9]) == |v.items|
            && p.Some? && p.value in t.codes && w[4] == t.codes[p.value]
  {
    var p := if v.items == [] then Some(Void) else EncodingOf(v.items[0]);
    var code, count := WriteCode(t, p).value, WriteNumber(|v.items|, 4).value;
    var elements := WriteElements(t, p.value, v.items).value;
    var w := Write(t, Array, v).value;
    Prefixed((code + count) + elements, 4);
    Associate(code, count, elements);
    Counted(|v.items|, elements, 4);
    assert w[4] == w[4..][0] && w[5..9] == w[4..][1..5];
    assert (code + (count + elements))[1..5] == (count + elements)[..4];
  }

  /** An absent map, list or array is a size of 0. */
  lemma AbsentOctets(t: Tables, p: Prim)
    requires p.Map? || p.List? || p.Array?
    ensures Write(t, p, Null) == Some([0, 0, 0, 0])
  {
    PowFour();
    FourZeros();
    assert [0, 0, 0, 0] + [] == [0, 0, 0, 0];
  }

  lemma FourZeros()
    ensures Pack(0, 4) == [0, 0, 0, 0]
  {
    assert Pack(0, 1) == [0] && Pack(0, 2) == [0, 0] && Pack(0, 3) == [0, 0, 0];
  }

  /** A compound: the number of octets behind its size, and its code. */
  lemma CompoundOctets(t: Tables, v: Value)
    requires v.Record? && WriteCompound(t, v).Some?
    ensures var w, n := WriteCompound(t, v).value, v.struct.size;
            && |w| >= n && (n > 0 ==> Unpack(w[..n]) == |w| - n)
            && (v.struct.code.Some? ==> |w| >= n + 2 && Unpack(w[n..n + 2]) == v.struct.code.value)
  {
    var n, record := v.struct.size, WriteRecord(t, v).value;
    var body := CodeOctets(v.struct) + record;
    var w := WriteCompound(t, v).value;
    assert w == WriteSize(|body|, n).value + body;
    if n > 0 {
      Counted(|body|, body, n);
    }
    assert w[n..] == body;
    if v.struct.code.Some? {
      PowFour();
      Counted(v.struct.code.value, record, 2);
      assert w[n..n + 2] == body[..2];
    }
  }

  /** The presence of field `i` is bit `i % 8` of octet `i / 8`. */
  lemma PresenceOctets(t: Tables, v: Value, k: nat, j: nat)
    requires v.Record? && |v.values| == |v.struct.fields| && WriteRecord(t, v).Some?
    requires k < v.struct.pack && j < 8
    ensures var w, i := WriteRecord(t, v).value, 8 * k + j;
            |w| >= v.struct.pack
            && (Bit(w[k], j) <==> i < |v.values| && IsPresent(v.struct.fields[i], v.values[i]))
  {
    var present := Present(v.struct.fields, v.values);
    BitOfLittle(FromBits(present), v.struct.pack, k, j);
    BitOfBits(present, 8 * k + j);
  }

  /** Numbers: `w` octets, in two's complement when they are signed, and an exception
      outside their range. */
  lemma NumberOctets(t: Tables, n: int, w: nat)
    requires w > 0
    ensures Write(t, Unsigned(w), Number(n)).Some? <==> 0 <= n < Pow256(w)
    ensures Write(t, Signed(w), Number(n)).Some? <==> -(Pow256(w) / 2) <= n < Pow256(w) / 2
    ensures Write(t, Unsigned(w), Number(n)).Some? ==>
      var octets := Write(t, Unsigned(w), Number(n)).value;
      |octets| == w && Unpack(octets) == n
    ensures Write(t, Signed(w), Number(n)).Some? ==>
      var octets := Write(t, Signed(w), Number(n)).value;
      |octets| == w && Unpack(octets) == if n < 0 then Pow256(w) + n else n
  {
    EvenPower(w);
    if 0 <= n < Pow256(w) {
      UnpackPack(n, w);
    }
    if -(Pow256(w) / 2) <= n < 0 {
      UnpackPack(n + Pow256(w), w);
    }
  }

  lemma EvenPower(w: nat)
    requires w > 0
    ensures Pow256(w) == 2 * (Pow256(w) / 2)
  {
    assert Pow256(w) == 2 * (128 * Pow256(w - 1));
  }

  /** The other types of fixed width. */
  lemma FixedOctets(t: Tables, v: Value, w: nat)
    ensures Write(t, Void, v) == if v.Null? then Some([]) else None
    ensures v.Flag? ==> Write(t, Boolean, v) == Some([if v.on then 1 else 0])
    ensures v.Time? && Write(t, DateTime, v).Some? ==>
      |Write(t, DateTime, v).value| == 8 && Unpack(Write(t, DateTime, v).value) == v.t
    ensures v.Bytes? ==>
      && Write(t, Fixed128, v).Some? && |Write(t, Fixed128, v).value| == 16
      && forall i :: 0 <= i < 16 ==> Write(t, Fixed128, v).value[i] == if i < |v.octets| then v.octets[i] else 0
    ensures v.Bytes? ==> Write(t, Uuid128, v) == Write(t, Fixed128, v)
    ensures v.Uuid? ==> Write(t, Uuid128, v) == if |v.octets| == 16 then Some(v.octets) else None
  {
    if v.Flag? {
      PowFour();
      assert Pack(if v.on then 1 else 0, 1) == [if v.on then 1 else 0];
    }
    if v.Time? && 0 <= v.t < Pow256(8) {
      UnpackPack(v.t, 8);
    }
  }

  /** Strings: their length and their octets, and an exception where the length has no
      room. Text goes into a binary string only behind a length of four octets, and a
      str into text only when it is ASCII. */
  lemma StringOctets(t: Tables, v: Value, w: nat)
    requires v.Bytes? || v.Buffer? || v.Chars?
    ensures Write(t, Bin(w), v).Some? <==> (v.Chars? ==> w == 4) && |v.octets| < Pow256(w)
    ensures Write(t, Utf(w), v).Some? <==>
      (v.Chars? || (v.Bytes? && forall i :: 0 <= i < |v.octets| ==> v.octets[i] < 128)) && |v.octets| < Pow256(w)
    ensures forall p :: (p == Bin(w) || p == Utf(w)) && Write(t, p, v).Some? ==>
      var octets := Write(t, p, v).value;
      |octets| == w + |v.octets| && Unpack(octets[..w]) == |v.octets| && octets[w..] == v.octets
  {
    if |v.octets| < Pow256(w) {
      Prefixed(v.octets, w);
    }
  }

  /** A set: eight octets for each range, its lower end first. */
  lemma {:induction false} RangeOctets(rs: seq<Range>, i: nat)
    requires i < |rs|
    ensures |WriteRanges(rs)| == 8 * |rs|
    ensures Unpack(WriteRanges(rs)[8 * i..8 * i + 4]) == rs[i].lower
    ensures Unpack(WriteRanges(rs)[8 * i + 4..8 * i + 8]) == rs[i].upper
  {
    var lower, upper, more := Pack(rs[0].lower, 4), Pack(rs[0].upper, 4), WriteRanges(rs[1..]);
    var all := WriteRanges(rs);
    PowFour();
    RangesLength(rs[1..]);
    assert all == (lower + upper) + more;
    if i == 0 {
      UnpackPack(rs[0].lower, 4);
      UnpackPack(rs[0].upper, 4);
      assert all[0..4] == lower && all[4..8] == upper;
    } else {
      RangeOctets(rs[1..], i - 1);
      assert all[8..] == more;
      assert all[8 * i..8 * i + 4] == more[8 * (i - 1)..8 * (i - 1) + 4];
      assert all[8 * i + 4..8 * i + 8] == more[8 * (i - 1) + 4..8 * (i - 1) + 8];
    }
  }

  lemma {:induction false} RangesLength(rs: seq<Range>)
    ensures |WriteRanges(rs)| == 8 * |rs|
  {
    if rs != [] {
      RangesLength(rs[1..]);
    }
  }

  /** What type stands for a Python value that comes without one: every integer of
      64 bits is taken and no other, a str that is ASCII comes back as text and any
      other as octets. */
  lemma ItemsByPythonType(t: Tables, v: Value)
    requires EncodingOf(v).Some?
    ensures v.Number? ==>
      (Write(t, EncodingOf(v).value, v).Some? <==> -0x8000_0000_0000_0000 <= v.n < 0x8000_0000_0000_0000)
    ensures v.Bytes? ==> BackItem(v) == if Ascii(v.octets) then Chars(v.octets) else v
    ensures v.Null? || v.Flag? || v.Number? || v.Time? || v.Real? || v.Uuid? || v.Chars? ==> BackItem(v) == v
    ensures v.Buffer? ==> BackItem(v) == Bytes(v.octets)
    ensures (v.Items? <==> EncodingOf(v).value.List?) && (v.Table? <==> EncodingOf(v).value.Map?)
            && (v.Record? <==> EncodingOf(v).value.Struct32?)
    ensures v.Buffer? || v.Bytes? ==>
      (Write(t, EncodingOf(v).value, v).Some?
       <==> |v.octets| < if v.Buffer? then 0x1_0000_0000 else 0x1_0000)
  {
    PowEight();
    PowFour();
  }

  lemma PowEight()
    ensures Pow256(8) == 0x1_0000_0000_0000_0000
  {
    PowFour();
    assert Pow256(8) == 256 * Pow256(7) && Pow256(7) == 256 * Pow256(6) && Pow256(6) == 256 * Pow256(5);
    assert Pow256(5) == 256 * Pow256(4);
  }
}
