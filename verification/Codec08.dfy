/** The codec of AMQP 0-8 and 0-9 (qpid/python/qpid/codec.py): consecutive bits
    are packed into octets lazily (AMQP 0-9-1 section 4.2.5.2). */
module Codec08 {
  import opened Wrappers
  import opened Sequences
  import opened Octets

  datatype Type = BitType | Unsigned(width: nat) | ShortStr | LongStr | VoidType | StructType(struct: Struct)

  /** `size` is the width of the size that goes before the body, 0 for none; the
      body starts with `8 * pack` presence bits. */
  datatype Struct = Struct(size: nat, pack: nat, fields: seq<Type>)

  /** The values of a struct are those of its fields, where it has one. */
  datatype Value = Null | Flag(on: bool) | Number(n: int) | Str(octets: seq<Octet>) | Fields(values: seq<Option<Value>>)

  // ----- Bits and octets -----

  /** Eight bits to the octet, the first in the lowest place. */
  function BitOctets(bits: seq<bool>): seq<Octet>
  {
    if bits == [] then []
    else
      var k := if |bits| < 8 then |bits| else 8;
      OctetFits(bits[..k]);
      [FromBits(bits[..k])] + BitOctets(bits[k..])
  }

  lemma OctetFits(bits: seq<bool>)
    requires |bits| <= 8
    ensures FromBits(bits) < 256
  {
    FlagsReach(bits, 1);
    assert Pow256(1) == 256 * Pow256(0);
  }

  function OctetBits(o: Octet): (bits: seq<bool>)
    ensures |bits| == 8
  {
    seq(8, i requires 0 <= i < 8 => Bit(o, i))
  }

  // ----- Encoding; None stands for a raised exception -----

  /** What an operation adds to the stream, and the bits it leaves pending. */
  datatype Emitted = Emitted(octets: seq<Octet>, bits: seq<bool>)

  /** Writing octets flushes the pending bits first. */
  function Put(pending: seq<bool>, s: seq<Octet>): (e: Emitted)
    ensures pending == [] ==> e.octets == s
  {
    Emitted(BitOctets(pending) + s, [])
  }

  function PutNumber(pending: seq<bool>, n: int, width: nat): Option<Emitted>
  {
    if 0 <= n < Pow256(width) then Some(Put(pending, Pack(n, width))) else None
  }

  function PutString(pending: seq<bool>, s: seq<Octet>, width: nat): Option<Emitted>
  {
    if |s| < Pow256(width) then Some(Put(pending, Pack(|s|, width) + s)) else None
  }

  /** enc_num writes four octets for width 3, and no other width above 2. */
  function SizeOctets(width: nat, n: nat): Option<seq<Octet>>
  {
    var octets := if width == 3 then 4 else width;
    if 1 <= width <= 3 && n < Pow256(octets) then Some(Pack(n, octets)) else None
  }

  function Encoded(t: Type, v: Value, pending: seq<bool>): Option<Emitted>
    decreases t, 0
  {
    match t
    case BitType => if v.Flag? then Some(Emitted([], pending + [v.on])) else None
    case Unsigned(w) => if v.Number? then PutNumber(pending, v.n, w) else None
    case ShortStr => if v.Str? then PutString(pending, v.octets, 1) else None
    case LongStr => if v.Str? then PutString(pending, v.octets, 4) else None
    case VoidType => Some(Emitted([], pending))
    case StructType(s) =>
      if s.size == 0 then EncodedBody(s, v, pending)
      else
        var body := EncodedBody(s, v, []);
        var size := if body.None? then None else SizeOctets(s.size, |body.value.octets|);
        if size.None? then None else Some(Put(pending, size.value + body.value.octets))
  }

  /** A bit field is its own presence bit. */
  function Presence(f: Type, v: Option<Value>): bool
  {
    if f.BitType? then v == Some(Flag(true)) else v.Some?
  }

  function Presences(fields: seq<Type>, vs: seq<Option<Value>>): (bits: seq<bool>)
    requires |fields| == |vs|
    ensures |bits| == |fields|
  {
    seq(|vs|, i requires 0 <= i < |vs| => Presence(fields[i], vs[i]))
  }

  function Reserved(s: Struct): (bits: seq<bool>)
    requires |s.fields| <= 8 * s.pack
    ensures |bits| == 8 * s.pack - |s.fields|
  {
    seq(8 * s.pack - |s.fields|, i => false)
  }

  /** A missing struct has none of its fields. */
  function FieldValues(s: Struct, v: Value): Option<seq<Option<Value>>>
  {
    if v.Null? then Some(seq(|s.fields|, i => None))
    else if v.Fields? && |v.values| == |s.fields| then Some(v.values) else None
  }

  function EncodedBody(s: Struct, v: Value, pending: seq<bool>): Option<Emitted>
    decreases s, 1
  {
    var vs := FieldValues(s, v);
    if vs.None? || |s.fields| > 8 * s.pack then None
    else
      var flags := Presences(s.fields, vs.value) + Reserved(s);
      var e := EncodedFields(s.fields, vs.value, pending + flags);
      if e.None? then None else Some(Emitted(e.value.octets + BitOctets(e.value.bits), []))
  }

  function EncodedFields(fields: seq<Type>, vs: seq<Option<Value>>, pending: seq<bool>): Option<Emitted>
    requires |fields| == |vs|
    decreases fields, 0
  {
    if fields == [] then Some(Emitted([], pending))
    else if fields[0].BitType? || vs[0].None? then EncodedFields(fields[1..], vs[1..], pending)
    else
      var e := Encoded(fields[0], vs[0].value, pending);
      var rest := if e.None? then None else EncodedFields(fields[1..], vs[1..], e.value.bits);
      if rest.None? then None else Some(Emitted(e.value.octets + rest.value.octets, rest.value.bits))
  }

  // ----- Decoding; None stands for a raised exception -----

  /** The octets not yet read and the bits left of the last one. */
  datatype Source = Source(input: seq<Octet>, bits: seq<bool>)

  function GetBit(d: Source): Option<(bool, Source)>
  {
    if d.bits != [] then Some((d.bits[0], Source(d.input, d.bits[1..])))
    else if d.input == [] then None
    else Some((OctetBits(d.input[0])[0], Source(d.input[1..], OctetBits(d.input[0])[1..])))
  }

  function GetBits(count: nat, d: Source): (r: Option<(seq<bool>, Source)>)
    ensures r.Some? ==> |r.value.0| == count
  {
    if count == 0 then Some(([], d))
    else
      var b := GetBit(d);
      var bs := if b.None? then None else GetBits(count - 1, b.value.1);
      if bs.None? then None else Some(([b.value.0] + bs.value.0, bs.value.1))
  }

  /** Reading octets drops the bits left over; at the end of the stream it raises,
      before it, it may return less than was asked for. */
  function Get(d: Source, n: nat): Option<(seq<Octet>, Source)>
  {
    if n > 0 && d.input == [] then None
    else
      var k := if n < |d.input| then n else |d.input|;
      Some((d.input[..k], Source(d.input[k..], [])))
  }

  function GetNumber(d: Source, width: nat): Option<(nat, Source)>
  {
    var s := Get(d, width);
    if s.None? || |s.value.0| < width then None else Some((Unpack(s.value.0), s.value.1))
  }

  function GetString(d: Source, width: nat): Option<(Value, Source)>
  {
    var n := GetNumber(d, width);
    var s := if n.None? then None else Get(n.value.1, n.value.0);
    if s.None? then None else Some((Str(s.value.0), s.value.1))
  }

  /** dec_num reads four octets for width 4, and no other width above 2. */
  function GetSize(d: Source, width: nat): Option<(nat, Source)>
  {
    if width == 1 || width == 2 || width == 4 then GetNumber(d, width) else None
  }

  function Decoded(t: Type, d: Source): Option<(Value, Source)>
    decreases t, 0
  {
    match t
    case BitType => var b := GetBit(d); if b.None? then None else Some((Flag(b.value.0), b.value.1))
    case Unsigned(w) => var n := GetNumber(d, w); if n.None? then None else Some((Number(n.value.0), n.value.1))
    case ShortStr => GetString(d, 1)
    case LongStr => GetString(d, 4)
    case VoidType => Some((Null, d))
    case StructType(s) =>
      if s.size == 0 then DecodedBody(s, d)
      else
        var size := GetSize(d, s.size);
        if size.None? then None
        else if size.value.0 == 0 then Some((Null, size.value.1))
        else DecodedBody(s, size.value.1)
  }

  function DecodedBody(s: Struct, d: Source): Option<(Value, Source)>
    decreases s, 1
  {
    var flags := if |s.fields| > 8 * s.pack then None else GetBits(8 * s.pack, d);
    if flags.None? || flags.value.0[|s.fields|..] != Reserved(s) then None
    else
      var vs := DecodedFields(s.fields, flags.value.0[..|s.fields|], flags.value.1);
      if vs.None? then None else Some((Fields(vs.value.0), Source(vs.value.1.input, [])))
  }

  function DecodedFields(fields: seq<Type>, flags: seq<bool>, d: Source): Option<(seq<Option<Value>>, Source)>
    requires |fields| == |flags|
    decreases fields, 0
  {
    if fields == [] then Some(([], d))
    else
      var v := if fields[0].BitType? then Some((Some(Flag(flags[0])), d))
               else if !flags[0] then Some((None, d))
               else
                 var x := Decoded(fields[0], d);
                 if x.None? then None else Some((Some(x.value.0), x.value.1));
      var vs := if v.None? then None else DecodedFields(fields[1..], flags[1..], v.value.1);
      if vs.None? then None else Some(([v.value.0] + vs.value.0, vs.value.1))
  }

  // ----- What stands in the octets -----

  /** Bit `i` is bit `i % 8` of octet `i / 8`; what is left of the last octet is 0. */
  lemma {:induction false} BitPlaces(bits: seq<bool>, k: nat, j: nat)
    requires k < |BitOctets(bits)| && j < 8
    ensures Bit(BitOctets(bits)[k], j) <==> 8 * k + j < |bits| && bits[8 * k + j]
    decreases k
  {
    var n := if |bits| < 8 then |bits| else 8;
    if k == 0 {
      BitOfBits(bits[..n], j);
    } else {
      BitPlaces(bits[n..], k - 1, j);
    }
  }

  lemma {:induction false} BitOctetsLength(bits: seq<bool>)
    ensures |BitOctets(bits)| == (|bits| + 7) / 8
    decreases |bits|
  {
    if bits != [] {
      var n := if |bits| < 8 then |bits| else 8;
      BitOctetsLength(bits[n..]);
    }
  }

  /** A struct is decoded only when its reserved bits are all 0. */
  lemma ReservedBitsAreZero(s: Struct, d: Source)
    requires DecodedBody(s, d).Some?
    ensures |s.fields| <= 8 * s.pack && GetBits(8 * s.pack, d).Some?
    ensures forall i :: |s.fields| <= i < 8 * s.pack ==> !GetBits(8 * s.pack, d).value.0[i]
  {
    var flags := GetBits(8 * s.pack, d).value.0;
    forall i | |s.fields| <= i < 8 * s.pack
      ensures !flags[i]
    {
      assert flags[i] == flags[|s.fields|..][i - |s.fields|];
    }
  }

  /** Of a string that goes on past the end of the stream the octets that are there
      are read, unless there are none. */
  lemma StringsAreCutShort(d: Source, width: nat)
    requires width > 0
    ensures |d.input| < width ==> GetString(d, width).None?
    ensures |d.input| >= width ==>
      var n, left := Unpack(d.input[..width]), d.input[width..];
      && (GetString(d, width).None? <==> n > 0 && left == [])
      && (0 < |left| < n ==> GetString(d, width) == Some((Str(left), Source([], []))))
      && (n <= |left| ==> GetString(d, width) == Some((Str(left[..n]), Source(left[n..], []))))
  {
    if |d.input| >= width {
      assert GetNumber(d, width) == Some((Unpack(d.input[..width]), Source(d.input[width..], [])));
      var n, left := Unpack(d.input[..width]), d.input[width..];
      var k := if n < |left| then n else |left|;
      assert !(n > 0 && left == []) ==>
        Get(Source(left, []), n) == Some((left[..k], Source(left[k..], [])));
      assert left[..|left|] == left && left[|left|..] == [];
    }
  }

  /** The widths that a struct's size may have when it is written and when it is read. */
  lemma SizeWidths(width: nat, n: nat, d: Source)
    ensures SizeOctets(width, n).Some? <==>
      (width == 1 && n < 256) || (width == 2 && n < 65536) || (width == 3 && n < 0x1_0000_0000)
    ensures SizeOctets(width, n).Some? ==> |SizeOctets(width, n).value| == if width == 3 then 4 else width
    ensures GetSize(d, width).Some? <==> (width == 1 || width == 2 || width == 4) && |d.input| >= width
  {
    assert Pow256(1) == 256 * Pow256(0) && Pow256(2) == 256 * Pow256(1);
    assert Pow256(3) == 256 * Pow256(2) && Pow256(4) == 256 * Pow256(3);
  }

  // ----- The two sides keep in step -----

  /** The stream `w` starts with octets that hold the bits `p`. */
  ghost predicate Agrees(w: seq<Octet>, p: seq<bool>)
    decreases |p|
  {
    p == [] ||
    (w != []
     && (forall i :: 0 <= i < 8 && i < |p| ==> OctetBits(w[0])[i] == p[i])
     && (|p| > 8 ==> Agrees(w[1..], p[8..])))
  }

  /** The decoder that has read `n` bits from the start of `w`. */
  ghost function At(w: seq<Octet>, n: nat): Source
    decreases n
  {
    if n == 0 then Source(w, [])
    else if w == [] then Source([], [])
    else if n < 8 then Source(w[1..], OctetBits(w[0])[n..])
    else At(w[1..], n - 8)
  }

  lemma {:induction false} NextBit(w: seq<Octet>, bits: seq<bool>, n: nat)
    requires Agrees(w, bits) && n < |bits|
    ensures GetBit(At(w, n)) == Some((bits[n], At(w, n + 1)))
    decreases n
  {
    if n >= 8 {
      NextBit(w[1..], bits[8..], n - 8);
    } else if n == 7 {
      assert At(w, 8) == At(w[1..], 0);
      assert OctetBits(w[0])[7..][1..] == [];
    } else {
      assert OctetBits(w[0])[n..][1..] == OctetBits(w[0])[n + 1..];
    }
  }

  lemma {:induction false} FewerBits(w: seq<Octet>, p: seq<bool>, q: seq<bool>)
    requires Agrees(w, p + q)
    ensures Agrees(w, p)
    decreases |p|
  {
    if p != [] {
      assert forall i :: 0 <= i < |p| ==> (p + q)[i] == p[i];
      if |p| > 8 {
        assert (p + q)[8..] == p[8..] + q;
        FewerBits(w[1..], p[8..], q);
      }
    }
  }

  lemma {:induction false} NextBits(w: seq<Octet>, bits: seq<bool>, n: nat)
    requires Agrees(w, bits) && n <= |bits|
    ensures GetBits(|bits| - n, At(w, n)) == Some((bits[n..], At(w, |bits|)))
    decreases |bits| - n
  {
    if n < |bits| {
      NextBit(w, bits, n);
      NextBits(w, bits, n + 1);
      assert bits[n..] == [bits[n]] + bits[n + 1..];
    }
  }

  lemma {:induction false} BitsOfOctet(bits: seq<bool>, i: nat)
    requires |bits| <= 8 && i < |bits|
    ensures FromBits(bits) < 256 && OctetBits(FromBits(bits))[i] == bits[i]
  {
    OctetFits(bits);
    BitOfBits(bits, i);
  }

  lemma OneOctet(p: seq<bool>)
    requires 0 < |p| <= 8
    ensures FromBits(p) < 256 && BitOctets(p) == [FromBits(p)]
  {
    OctetFits(p);
    assert p[..|p|] == p && p[|p|..] == [];
  }

  /** Flushed bits are found where they are looked for, and once they have been
      read the stream stands just behind their octets. */
  lemma {:induction false} FlushedBits(p: seq<bool>, w: seq<Octet>)
    ensures Agrees(BitOctets(p) + w, p)
    ensures At(BitOctets(p) + w, |p|).input == w
    decreases |p|
  {
    if p == [] {
      assert [] + w == w;
    } else if |p| <= 8 {
      OneOctet(p);
      var all := [FromBits(p)] + w;
      assert all[0] == FromBits(p) && all[1..] == w;
      forall i | 0 <= i < |p| ensures OctetBits(all[0])[i] == p[i] {
        BitsOfOctet(p, i);
      }
      assert |p| == 8 ==> At(all, 8) == At(w, 0);
    } else {
      FlushedBits(p[8..], w);
      var first, more := FromBits(p[..8]), BitOctets(p[8..]) + w;
      OctetFits(p[..8]);
      var all := [first] + more;
      assert all == BitOctets(p) + w && all[0] == first && all[1..] == more;
      forall i | 0 <= i < 8 ensures OctetBits(all[0])[i] == p[i] {
        BitsOfOctet(p[..8], i);
      }
    }
  }

  /** The value that comes back. A bit field always has a value, a missing struct
      comes back without fields, and a sized struct with nothing in its body comes
      back as missing. */
  function Back(t: Type, v: Value): Value
    decreases t, 0
  {
    match t
    case VoidType => Null
    case StructType(s) => if s.size != 0 && s.pack == 0 then Null else BackStruct(s, v)
    case _ => v
  }

  function BackStruct(s: Struct, v: Value): Value
    decreases s, 1
  {
    var vs := FieldValues(s, v);
    if vs.None? then v else Fields(BackFields(s.fields, vs.value))
  }

  function BackFields(fields: seq<Type>, vs: seq<Option<Value>>): seq<Option<Value>>
    requires |fields| == |vs|
    decreases fields, 0
  {
    if fields == [] then []
    else
      var v := if fields[0].BitType? then Some(Flag(vs[0] == Some(Flag(true))))
               else if vs[0].None? then None else Some(Back(fields[0], vs[0].value));
      [v] + BackFields(fields[1..], vs[1..])
  }

  /** Sizes of structs, at every depth, have a width that both sides know. */
  predicate KnownSizes(t: Type)
    decreases t, 0
  {
    t.StructType? ==> t.struct.size <= 2 && AllKnownSizes(t.struct.fields)
  }

  predicate AllKnownSizes(fields: seq<Type>)
    decreases fields, 0
  {
    fields != [] ==> KnownSizes(fields[0]) && AllKnownSizes(fields[1..])
  }

  /** Octets written behind pending bits are read behind those bits. */
  lemma PutBack(p: seq<bool>, s: seq<Octet>, w: seq<Octet>)
    ensures Agrees(Put(p, s).octets + w, p)
    ensures At(Put(p, s).octets + w, |p|).input == s + w
  {
    Associate(BitOctets(p), s, w);
    FlushedBits(p, s + w);
  }

  lemma NumberBack(d: Source, n: nat, width: nat, w: seq<Octet>)
    requires n < Pow256(width) && d.input == Pack(n, width) + w
    ensures GetNumber(d, width) == Some((n, Source(w, [])))
  {
    ReadNumber(n, width, w);
  }

  lemma StringBack(d: Source, s: seq<Octet>, width: nat, w: seq<Octet>)
    requires |s| < Pow256(width) && d.input == (Pack(|s|, width) + s) + w
    ensures GetString(d, width) == Some((Str(s), Source(w, [])))
  {
    Associate(Pack(|s|, width), s, w);
    NumberBack(d, |s|, width, s + w);
    assert (s + w)[..|s|] == s && (s + w)[|s|..] == w;
  }

  /** Decoder and encoder move in step over every item: whatever bits are pending
      before it and after it, and whatever follows, as long as what follows begins
      with the bits that are pending after it. */
  lemma {:induction false} ItemBack(t: Type, v: Value, p: seq<bool>, w: seq<Octet>)
    requires KnownSizes(t) && Encoded(t, v, p).Some? && Agrees(w, Encoded(t, v, p).value.bits)
    ensures var e := Encoded(t, v, p).value;
            && Agrees(e.octets + w, p)
            && Decoded(t, At(e.octets + w, |p|)) == Some((Back(t, v), At(w, |e.bits|)))
    decreases t, 0
  {
    var e := Encoded(t, v, p).value;
    var d := At(e.octets + w, |p|);
    match t
    case BitType =>
      assert [] + w == w;
      FewerBits(w, p, [v.on]);
      NextBit(w, p + [v.on], |p|);
    case Unsigned(n) =>
      PutBack(p, Pack(v.n, n), w);
      NumberBack(d, v.n, n, w);
    case ShortStr =>
      PutBack(p, Pack(|v.octets|, 1) + v.octets, w);
      StringBack(d, v.octets, 1, w);
    case LongStr =>
      PutBack(p, Pack(|v.octets|, 4) + v.octets, w);
      StringBack(d, v.octets, 4, w);
    case VoidType =>
      assert [] + w == w;
    case StructType(s) =>
      if s.size == 0 {
        BodyBack(s, v, p, w);
      } else {
        SizedBack(s, v, p, w);
      }
  }

  lemma {:induction false} SizedBack(s: Struct, v: Value, p: seq<bool>, w: seq<Octet>)
    requires KnownSizes(StructType(s)) && s.size != 0 && Encoded(StructType(s), v, p).Some?
    ensures var e := Encoded(StructType(s), v, p).value;
            && Agrees(e.octets + w, p)
            && Decoded(StructType(s), At(e.octets + w, |p|)) == Some((Back(StructType(s), v), At(w, 0)))
    decreases s, 2
  {
    var body := EncodedBody(s, v, []).value.octets;
    SizeBack(p, body, s.size, w);
    BodyBack(s, v, [], w);
    BodyLength(s, v);
    if body == [] {
      assert [] + w == w;
    }
  }

  lemma SizeBack(p: seq<bool>, body: seq<Octet>, width: nat, w: seq<Octet>)
    requires |body| < Pow256(width)
    ensures var octets := Put(p, Pack(|body|, width) + body).octets;
            && Agrees(octets + w, p)
            && GetNumber(At(octets + w, |p|), width) == Some((|body|, Source(body + w, [])))
  {
    var size := Pack(|body|, width);
    PutBack(p, size + body, w);
    Associate(size, body, w);
    NumberBack(At(Put(p, size + body).octets + w, |p|), |body|, width, body + w);
  }

  /** Only a struct without presence bits, hence without fields, has no body. */
  lemma BodyLength(s: Struct, v: Value)
    requires EncodedBody(s, v, []).Some?
    ensures EncodedBody(s, v, []).value.octets == [] <==> s.pack == 0
  {
    var vs := FieldValues(s, v).value;
    var flags := Presences(s.fields, vs) + Reserved(s);
    assert [] + flags == flags;
    BitsSurvive(s.fields, vs, flags);
  }

  /** Pending bits do not vanish: an operation that emits nothing leaves them. */
  lemma {:induction false} BitsSurvive(fields: seq<Type>, vs: seq<Option<Value>>, p: seq<bool>)
    requires |fields| == |vs| && EncodedFields(fields, vs, p).Some?
    ensures EncodedFields(fields, vs, p).value == Emitted([], []) ==> p == []
    decreases fields, 0
  {
    if fields == [] {
    } else if fields[0].BitType? || vs[0].None? {
      BitsSurvive(fields[1..], vs[1..], p);
    } else {
      BitsSurviveItem(fields[0], vs[0].value, p);
      BitsSurvive(fields[1..], vs[1..], Encoded(fields[0], vs[0].value, p).value.bits);
    }
  }

  lemma {:induction false} BitsSurviveItem(t: Type, v: Value, p: seq<bool>)
    requires Encoded(t, v, p).Some?
    ensures Encoded(t, v, p).value == Emitted([], []) ==> p == []
    decreases t, 0
  {
    if t.StructType? && t.struct.size == 0 {
      var s := t.struct;
      var vs := FieldValues(s, v).value;
      BitsSurvive(s.fields, vs, p + (Presences(s.fields, vs) + Reserved(s)));
    }
  }

  lemma BitsSplit(a: seq<bool>, b: seq<bool>)
    ensures (a + b)[..|a|] == a && (a + b)[|a|..] == b
  {
  }

  lemma BitsAfter(w: seq<Octet>, p: seq<bool>, q: seq<bool>)
    requires Agrees(w, p + q)
    ensures Agrees(w, p) && GetBits(|q|, At(w, |p|)) == Some((q, At(w, |p| + |q|)))
  {
    FewerBits(w, p, q);
    NextBits(w, p + q, |p|);
    BitsSplit(p, q);
  }

  lemma FlagsBack(s: Struct, vs: seq<Option<Value>>, p: seq<bool>, w: seq<Octet>)
    requires |vs| == |s.fields| <= 8 * s.pack && Agrees(w, p + (Presences(s.fields, vs) + Reserved(s)))
    ensures Agrees(w, p)
    ensures var flags := Presences(s.fields, vs) + Reserved(s);
            && GetBits(8 * s.pack, At(w, |p|)) == Some((flags, At(w, |p| + 8 * s.pack)))
            && flags[..|s.fields|] == Presences(s.fields, vs) && flags[|s.fields|..] == Reserved(s)
  {
    BitsAfter(w, p, Presences(s.fields, vs) + Reserved(s));
    BitsSplit(Presences(s.fields, vs), Reserved(s));
  }

  lemma {:induction false} BodyBack(s: Struct, v: Value, p: seq<bool>, w: seq<Octet>)
    requires AllKnownSizes(s.fields) && EncodedBody(s, v, p).Some?
    ensures var octets := EncodedBody(s, v, p).value.octets;
            && Agrees(octets + w, p)
            && DecodedBody(s, At(octets + w, |p|)) == Some((BackStruct(s, v), At(w, 0)))
    decreases s, 1
  {
    var vs := FieldValues(s, v).value;
    var start := p + (Presences(s.fields, vs) + Reserved(s));
    var e := EncodedFields(s.fields, vs, start).value;
    Associate(e.octets, BitOctets(e.bits), w);
    FlushedBits(e.bits, w);
    FieldsBack(s.fields, vs, start, BitOctets(e.bits) + w);
    FlagsBack(s, vs, p, e.octets + (BitOctets(e.bits) + w));
  }

  lemma {:induction false} FieldsBack(fields: seq<Type>, vs: seq<Option<Value>>, p: seq<bool>, w: seq<Octet>)
    requires |fields| == |vs| && AllKnownSizes(fields)
    requires EncodedFields(fields, vs, p).Some? && Agrees(w, EncodedFields(fields, vs, p).value.bits)
    ensures var e := EncodedFields(fields, vs, p).value;
            && Agrees(e.octets + w, p)
            && DecodedFields(fields, Presences(fields, vs), At(e.octets + w, |p|))
               == Some((BackFields(fields, vs), At(w, |e.bits|)))
    decreases fields, 0
  {
    if fields == [] {
      assert [] + w == w;
    } else {
      var flags := Presences(fields, vs);
      assert flags[1..] == Presences(fields[1..], vs[1..]);
      if fields[0].BitType? || vs[0].None? {
        FieldsBack(fields[1..], vs[1..], p, w);
      } else {
        var first := Encoded(fields[0], vs[0].value, p).value;
        var rest := EncodedFields(fields[1..], vs[1..], first.bits).value;
        Associate(first.octets, rest.octets, w);
        FieldsBack(fields[1..], vs[1..], first.bits, w);
        ItemBack(fields[0], vs[0].value, p, rest.octets + w);
      }
    }
  }

  // ----- Whole sequences -----

  function EncodedItems(ts: seq<Type>, vs: seq<Value>, pending: seq<bool>): Option<Emitted>
    requires |ts| == |vs|
  {
    if ts == [] then Some(Emitted([], pending))
    else
      var e := Encoded(ts[0], vs[0], pending);
      var rest := if e.None? then None else EncodedItems(ts[1..], vs[1..], e.value.bits);
      if rest.None? then None else Some(Emitted(e.value.octets + rest.value.octets, rest.value.bits))
  }

  function DecodedItems(ts: seq<Type>, d: Source): Option<(seq<Value>, Source)>
  {
    if ts == [] then Some(([], d))
    else
      var v := Decoded(ts[0], d);
      var vs := if v.None? then None else DecodedItems(ts[1..], v.value.1);
      if vs.None? then None else Some(([v.value.0] + vs.value.0, vs.value.1))
  }

  function BackItems(ts: seq<Type>, vs: seq<Value>): seq<Value>
    requires |ts| == |vs|
  {
    if ts == [] then [] else [Back(ts[0], vs[0])] + BackItems(ts[1..], vs[1..])
  }

  lemma {:induction false} ItemsBack(ts: seq<Type>, vs: seq<Value>, p: seq<bool>, w: seq<Octet>)
    requires |ts| == |vs| && AllKnownSizes(ts)
    requires EncodedItems(ts, vs, p).Some? && Agrees(w, EncodedItems(ts, vs, p).value.bits)
    ensures var e := EncodedItems(ts, vs, p).value;
            && Agrees(e.octets + w, p)
            && DecodedItems(ts, At(e.octets + w, |p|)) == Some((BackItems(ts, vs), At(w, |e.bits|)))
  {
    if ts == [] {
      assert [] + w == w;
    } else {
      var first := Encoded(ts[0], vs[0], p).value;
      var rest := EncodedItems(ts[1..], vs[1..], first.bits).value;
      Associate(first.octets, rest.octets, w);
      ItemsBack(ts[1..], vs[1..], first.bits, w);
      ItemBack(ts[0], vs[0], p, rest.octets + w);
    }
  }

  /** Any sequence of bits, numbers, strings and structs, flushed at the end, is
      decoded to the same sequence and uses up exactly its own octets. */
  lemma SequencesReturn(ts: seq<Type>, vs: seq<Value>, rest: seq<Octet>)
    requires |ts| == |vs| && AllKnownSizes(ts) && EncodedItems(ts, vs, []).Some?
    ensures var e := EncodedItems(ts, vs, []).value;
            var r := DecodedItems(ts, Source((e.octets + BitOctets(e.bits)) + rest, []));
            r.Some? && r.value.0 == BackItems(ts, vs) && r.value.1.input == rest
  {
    var e := EncodedItems(ts, vs, []).value;
    FlushedBits(e.bits, rest);
    ItemsBack(ts, vs, [], BitOctets(e.bits) + rest);
    Associate(e.octets, BitOctets(e.bits), rest);
  }

  /** The widths of a struct's size on which the two sides agree. */
  lemma SizesAgreeExactly(s: Struct, n: nat, d: Source, w: seq<Octet>)
    requires s.size != 0 && SizeOctets(s.size, n).Some? && d.input == SizeOctets(s.size, n).value + w
    ensures GetSize(d, s.size) == Some((n, Source(w, []))) <==> s.size <= 2
  {
    if s.size <= 2 {
      NumberBack(d, n, s.size, w);
    }
  }

  // ----- The codec object -----

  /** One bit more: a new octet when the last one is full. */
  function AddBit(bytes: seq<nat>, index: nat, b: bool): seq<nat>
    requires index > 0 ==> bytes != []
  {
    var grown := if index == 0 then bytes + [0] else bytes;
    if b then grown[|grown| - 1 := SetBit(grown[|grown| - 1], index)] else grown
  }

  lemma {:induction false} OctetsGrow(p: seq<bool>, index: nat, b: bool)
    requires index == |p| % 8
    ensures index > 0 ==> BitOctets(p) != []
    ensures BitOctets(p + [b]) == AddBit(BitOctets(p), index, b)
    decreases |p|
  {
    if |p| < 8 {
      FirstOctetGrows(p, b);
    } else {
      assert (p + [b])[..8] == p[..8] && (p + [b])[8..] == p[8..] + [b];
      OctetsGrow(p[8..], index, b);
      AddBitBehind(FromBits(p[..8]), BitOctets(p[8..]), index, b);
    }
  }

  lemma AddBitBehind(first: nat, rest: seq<nat>, index: nat, b: bool)
    requires index > 0 ==> rest != []
    ensures AddBit([first] + rest, index, b) == [first] + AddBit(rest, index, b)
  {
  }

  lemma FirstOctetGrows(p: seq<bool>, b: bool)
    requires |p| < 8
    ensures |p| > 0 ==> BitOctets(p) != []
    ensures BitOctets(p + [b]) == AddBit(BitOctets(p), |p|, b)
  {
    OneOctet(p + [b]);
    OneMoreBit(p, b);
    if p != [] {
      OneOctet(p);
    } else {
      assert Pow2(0) == 1;
    }
  }

  lemma PackStep(bits: seq<bool>, i: nat, index: nat)
    requires i < |bits| && index == i % 8
    ensures index > 0 ==> BitOctets(bits[..i]) != []
    ensures BitOctets(bits[..i + 1]) == AddBit(BitOctets(bits[..i]), index, bits[i])
  {
    OctetsGrow(bits[..i], index, bits[i]);
    assert bits[..i + 1] == bits[..i] + [bits[i]];
  }

  class Codec {
    var output: seq<Octet>
    var outgoing: seq<bool>
    var input: seq<Octet>
    var incoming: seq<bool>

    function Reading(): Source
      reads this
    {
      Source(input, incoming)
    }

    constructor (input: seq<Octet>)
      ensures output == [] && outgoing == [] && Reading() == Source(input, [])
    {
      output, outgoing, this.input, incoming := [], [], input, [];
    }

    method FlushBits()
      modifies this
      ensures output == old(output) + BitOctets(old(outgoing)) && outgoing == []
      ensures Reading() == old(Reading())
      decreases |outgoing|, 0
    {
      if |outgoing| > 0 {
        var bytes := PackBits(outgoing);
        outgoing := [];
        for i := 0 to |bytes|
          invariant outgoing == [] && Reading() == old(Reading())
          invariant output + bytes[i..] == old(output) + bytes
        {
          Associate(output, [bytes[i]], bytes[i + 1..]);
          assert bytes[i..] == [bytes[i]] + bytes[i + 1..];
          EncodeOctet(bytes[i]);
        }
        assert bytes[|bytes|..] == [];
      }
    }

    static lemma NextIndex(i: nat)
      ensures (i % 8 + 1) % 8 == (i + 1) % 8
    {
    }

    static method PackBits(bits: seq<bool>) returns (bytes: seq<Octet>)
      ensures bytes == BitOctets(bits)
    {
      var packed: seq<nat> := [];
      var index := 0;
      for i := 0 to |bits|
        invariant packed == BitOctets(bits[..i]) && index == i % 8
      {
        ghost var was := packed;
        PackStep(bits, i, index);
        if index == 0 {
          packed := packed + [0];
        }
        if bits[i] {
          packed := packed[|packed| - 1 := SetBit(packed[|packed| - 1], index)];
        }
        assert packed == AddBit(was, index, bits[i]);
        NextIndex(i);
        index := (index + 1) % 8;
      }
      assert bits[..|bits|] == bits;
      bytes := packed;
    }

    method Write(s: seq<Octet>)
      modifies this
      ensures output == old(output) + Put(old(outgoing), s).octets && outgoing == []
      ensures Reading() == old(Reading())
      decreases |outgoing|, 1
    {
      FlushBits();
      Associate(old(output), BitOctets(old(outgoing)), s);
      output := output + s;
    }

    method EncodeOctet(o: Octet)
      modifies this
      ensures output == old(output) + Put(old(outgoing), [o]).octets && outgoing == []
      ensures Reading() == old(Reading())
      decreases |outgoing|, 2
    {
      Write([o]);
    }

    method EncodeBit(b: bool)
      modifies this
      ensures output == old(output) && outgoing == old(outgoing) + [b] && Reading() == old(Reading())
    {
      outgoing := outgoing + [b];
    }

    method ClearBits()
      modifies this
      ensures input == old(input) && incoming == [] && output == old(output) && outgoing == old(outgoing)
    {
      incoming := [];
    }

    method Read(n: nat) returns (r: Option<seq<Octet>>)
      modifies this
      ensures output == old(output) && outgoing == old(outgoing)
      ensures var g := Get(old(Reading()), n);
              if g.None? then r.None? else r == Some(g.value.0) && Reading() == g.value.1
    {
      ClearBits();
      var k := if n < |input| then n else |input|;
      var data := input[..k];
      input := input[k..];
      assert |data| == 0 <==> n == 0 || |old(input)| == 0;
      if n > 0 && |data| == 0 {
        return None;
      }
      assert Get(old(Reading()), n) == Some((data, Source(input, [])));
      return Some(data);
    }

    method DecodeBit() returns (r: Option<bool>)
      modifies this
      ensures output == old(output) && outgoing == old(outgoing)
      ensures var g := GetBit(old(Reading()));
              if g.None? then r.None? else r == Some(g.value.0) && Reading() == g.value.1
    {
      if |incoming| == 0 {
        var data := Read(1);
        if data.None? {
          return None;
        }
        var bits := data.value[0];
        for i := 0 to 8
          invariant incoming == OctetBits(bits)[..i]
          invariant output == old(output) && outgoing == old(outgoing) && input == old(input)[1..]
        {
          incoming := incoming + [Bit(bits, i)];
          assert OctetBits(bits)[..i + 1] == OctetBits(bits)[..i] + [Bit(bits, i)];
        }
        assert OctetBits(bits)[..8] == OctetBits(bits);
      }
      r := Some(incoming[0]);
      incoming := incoming[1..];
    }

    method Flush()
      modifies this
      ensures output == old(output) + BitOctets(old(outgoing)) && outgoing == []
      ensures Reading() == old(Reading())
    {
      FlushBits();
    }

    method EncodeNumber(n: int, width: nat) returns (ok: bool)
      modifies this
      ensures Reading() == old(Reading())
      ensures ok <==> PutNumber(old(outgoing), n, width).Some?
      ensures ok ==> Emits(PutNumber(old(outgoing), n, width).value)
    {
      if n < 0 || n >= Pow256(width) {
        return false;
      }
      Write(Pack(n, width));
      return true;
    }

    method EncodeString(s: seq<Octet>, width: nat) returns (ok: bool)
      modifies this
      ensures Reading() == old(Reading())
      ensures ok <==> PutString(old(outgoing), s, width).Some?
      ensures ok ==> Emits(PutString(old(outgoing), s, width).value)
    {
      if |s| >= Pow256(width) {
        return false;
      }
      Write(Pack(|s|, width));
      Associate(old(output), BitOctets(old(outgoing)) + Pack(|s|, width), s);
      Associate(BitOctets(old(outgoing)), Pack(|s|, width), s);
      Write(s);
      return true;
    }

    /** What an operation that emits `e` does to this object. */
    twostate predicate Emits(e: Emitted)
      reads this
    {
      output == old(output) + e.octets && outgoing == e.bits
    }

    /** On a raised exception `ok` is false and nothing more is said. */
    method Encode(t: Type, v: Value) returns (ok: bool)
      modifies this
      ensures Reading() == old(Reading())
      ensures ok <==> Encoded(t, v, old(outgoing)).Some?
      ensures ok ==> Emits(Encoded(t, v, old(outgoing)).value)
      decreases t, 0
    {
      match t
      case BitType =>
        ok := v.Flag?;
        if ok {
          EncodeBit(v.on);
        }
      case Unsigned(w) =>
        ok := false;
        if v.Number? {
          ok := EncodeNumber(v.n, w);
        }
      case ShortStr =>
        ok := false;
        if v.Str? {
          ok := EncodeString(v.octets, 1);
        }
      case LongStr =>
        ok := false;
        if v.Str? {
          ok := EncodeString(v.octets, 4);
        }
      case VoidType =>
        ok := true;
      case StructType(s) => ok := EncodeStruct(s, v);
    }

    method EncodeStruct(s: Struct, v: Value) returns (ok: bool)
      modifies this
      ensures Reading() == old(Reading())
      ensures ok <==> Encoded(StructType(s), v, old(outgoing)).Some?
      ensures ok ==> Emits(Encoded(StructType(s), v, old(outgoing)).value)
      decreases s, 2
    {
      if s.size == 0 {
        ok := EncodeStructBody(s, v);
      } else {
        var codec := new Codec([]);
        ok := codec.EncodeStructBody(s, v);
        if ok {
          codec.Flush();
          ok := EncodeSized(s.size, codec.output);
        }
      }
    }

    method EncodeSized(width: nat, body: seq<Octet>) returns (ok: bool)
      modifies this
      ensures Reading() == old(Reading())
      ensures ok <==> SizeOctets(width, |body|).Some?
      ensures ok ==> Emits(Put(old(outgoing), SizeOctets(width, |body|).value + body))
    {
      if width < 1 || width > 3 {
        return false;
      }
      var octets := if width == 3 then 4 else width;
      ok := EncodeNumber(|body|, octets);
      if ok {
        Associate(old(output), BitOctets(old(outgoing)) + Pack(|body|, octets), body);
        Associate(BitOctets(old(outgoing)), Pack(|body|, octets), body);
        Write(body);
      }
    }

    method EncodeStructBody(s: Struct, v: Value) returns (ok: bool)
      modifies this
      ensures Reading() == old(Reading())
      ensures ok <==> EncodedBody(s, v, old(outgoing)).Some?
      ensures ok ==> Emits(EncodedBody(s, v, old(outgoing)).value)
      decreases s, 1
    {
      var vs := FieldValues(s, v);
      if vs.None? || |s.fields| > 8 * s.pack {
        return false;
      }
      EncodeFlags(s, vs.value);
      ok := EncodePresent(s, vs.value);
      if ok {
        ghost var e := EncodedFields(s.fields, vs.value, old(outgoing) + (Presences(s.fields, vs.value) + Reserved(s)));
        Associate(old(output), e.value.octets, BitOctets(outgoing));
        Flush();
      }
    }

    method EncodePresent(s: Struct, vs: seq<Option<Value>>) returns (ok: bool)
      requires |vs| == |s.fields|
      modifies this
      ensures Reading() == old(Reading())
      ensures ok <==> EncodedFields(s.fields, vs, old(outgoing)).Some?
      ensures ok ==> Emits(EncodedFields(s.fields, vs, old(outgoing)).value)
      decreases s, 0
    {
      ghost var base, whole := output, EncodedFields(s.fields, vs, outgoing);
      for i := 0 to |s.fields|
        invariant Reading() == old(Reading())
        invariant Continues(base, whole, EncodedFields(s.fields[i..], vs[i..], outgoing))
      {
        var f, x := s.fields[i], vs[i];
        assert s.fields[i..][0] == f && s.fields[i..][1..] == s.fields[i + 1..];
        assert vs[i..][0] == x && vs[i..][1..] == vs[i + 1..];
        if !f.BitType? && x.Some? {
          ghost var was := output;
          ghost var e := Encoded(f, x.value, outgoing);
          ok := Encode(f, x.value);
          if !ok {
            return;
          }
          ghost var rest := EncodedFields(s.fields[i + 1..], vs[i + 1..], outgoing);
          if rest.Some? {
            Associate(was, e.value.octets, rest.value.octets);
          }
        }
      }
      ok := true;
    }

    /** What is still to be emitted completes the whole. */
    ghost predicate Continues(base: seq<Octet>, whole: Option<Emitted>, rest: Option<Emitted>)
      reads this
    {
      if whole.None? || rest.None? then whole.None? && rest.None?
      else output + rest.value.octets == base + whole.value.octets && rest.value.bits == whole.value.bits
    }

    method EncodeFlags(s: Struct, vs: seq<Option<Value>>)
      requires |vs| == |s.fields| <= 8 * s.pack
      modifies this
      ensures Reading() == old(Reading()) && output == old(output)
      ensures outgoing == old(outgoing) + (Presences(s.fields, vs) + Reserved(s))
    {
      ghost var flags := Presences(s.fields, vs);
      for i := 0 to |s.fields|
        invariant Reading() == old(Reading()) && output == old(output)
        invariant outgoing == old(outgoing) + flags[..i]
      {
        assert flags[..i + 1] == flags[..i] + [flags[i]];
        EncodeBit(Presence(s.fields[i], vs[i]));
      }
      assert flags[..|s.fields|] == flags;
      var reserved := 8 * s.pack - |s.fields|;
      for i := 0 to reserved
        invariant Reading() == old(Reading()) && output == old(output)
        invariant outgoing == old(outgoing) + flags + Reserved(s)[..i]
      {
        assert Reserved(s)[..i + 1] == Reserved(s)[..i] + [false];
        EncodeBit(false);
      }
      assert Reserved(s)[..reserved] == Reserved(s);
      Associate(old(outgoing), flags, Reserved(s));
    }

    /** What an operation that comes to `g` does to this object. */
    twostate predicate Yields<T>(new r: Option<T>, new g: Option<(T, Source)>)
      reads this
    {
      && output == old(output) && outgoing == old(outgoing)
      && (if g.None? then r.None? else r == Some(g.value.0) && Reading() == g.value.1)
    }

    method DecodeNumber(width: nat) returns (r: Option<nat>)
      modifies this
      ensures Yields(r, GetNumber(old(Reading()), width))
    {
      var data := Read(width);
      if data.None? || |data.value| < width {
        return None;
      }
      return Some(Unpack(data.value));
    }

    method DecodeString(width: nat) returns (r: Option<Value>)
      modifies this
      ensures Yields(r, GetString(old(Reading()), width))
    {
      var size := DecodeNumber(width);
      if size.None? {
        return None;
      }
      var data := Read(size.value);
      return if data.None? then None else Some(Str(data.value));
    }

    method Decode(t: Type) returns (r: Option<Value>)
      modifies this
      ensures Yields(r, Decoded(t, old(Reading())))
      decreases t, 0
    {
      match t
      case BitType =>
        var b := DecodeBit();
        r := if b.None? then None else Some(Flag(b.value));
      case Unsigned(w) =>
        var n := DecodeNumber(w);
        r := if n.None? then None else Some(Number(n.value));
      case ShortStr => r := DecodeString(1);
      case LongStr => r := DecodeString(4);
      case VoidType => r := Some(Null);
      case StructType(s) => r := DecodeStruct(s);
    }

    method DecodeStruct(s: Struct) returns (r: Option<Value>)
      modifies this
      ensures Yields(r, Decoded(StructType(s), old(Reading())))
      decreases s, 2
    {
      if s.size != 0 {
        if s.size != 1 && s.size != 2 && s.size != 4 {
          return None;
        }
        var size := DecodeNumber(s.size);
        if size.None? {
          return None;
        }
        if size.value == 0 {
          return Some(Null);
        }
      }
      r := DecodeStructBody(s);
    }

    method DecodeStructBody(s: Struct) returns (r: Option<Value>)
      modifies this
      ensures Yields(r, DecodedBody(s, old(Reading())))
      decreases s, 1
    {
      if |s.fields| > 8 * s.pack {
        return None;
      }
      var flags := DecodeFlags(s);
      if flags.None? {
        return None;
      }
      var values := DecodeFields(s, flags.value);
      if values.None? {
        return None;
      }
      ClearBits();
      return Some(Fields(values.value));
    }

    method DecodeFields(s: Struct, flags: seq<bool>) returns (r: Option<seq<Option<Value>>>)
      requires |flags| == |s.fields|
      modifies this
      ensures output == old(output) && outgoing == old(outgoing)
      ensures var vs := DecodedFields(s.fields, flags, old(Reading()));
              if vs.None? then r.None? else r == Some(vs.value.0) && Reading() == vs.value.1
      decreases s, 0
    {
      var values: seq<Option<Value>> := [];
      ghost var whole := DecodedFields(s.fields, flags, Reading());
      assert s.fields[0..] == s.fields && flags[0..] == flags;
      assert whole.Some? ==> [] + whole.value.0 == whole.value.0;
      for i := 0 to |s.fields|
        invariant output == old(output) && outgoing == old(outgoing)
        invariant Completes(values, whole, DecodedFields(s.fields[i..], flags[i..], Reading()))
      {
        var f := s.fields[i];
        assert s.fields[i..][0] == f && s.fields[i..][1..] == s.fields[i + 1..];
        assert flags[i..][0] == flags[i] && flags[i..][1..] == flags[i + 1..];
        var x: Option<Value> := None;
        if f.BitType? {
          x := Some(Flag(flags[i]));
        } else if flags[i] {
          x := Decode(f);
          if x.None? {
            return None;
          }
        }
        ghost var rest := DecodedFields(s.fields[i + 1..], flags[i + 1..], Reading());
        if rest.Some? {
          Associate(values, [x], rest.value.0);
        }
        values := values + [x];
      }
      assert values + [] == values;
      return Some(values);
    }

    /** What is still to be read completes the whole. */
    ghost predicate Completes<T>(got: seq<T>, whole: Option<(seq<T>, Source)>, rest: Option<(seq<T>, Source)>)
    {
      if whole.None? || rest.None? then whole.None? && rest.None?
      else whole.value == (got + rest.value.0, rest.value.1)
    }

    /** The presence bits; a reserved bit that is set raises at once. */
    method DecodeFlags(s: Struct) returns (r: Option<seq<bool>>)
      requires |s.fields| <= 8 * s.pack
      modifies this
      ensures output == old(output) && outgoing == old(outgoing)
      ensures var g := GetBits(8 * s.pack, old(Reading()));
              if g.None? || g.value.0[|s.fields|..] != Reserved(s) then r.None?
              else r == Some(g.value.0[..|s.fields|]) && Reading() == g.value.1
    {
      ghost var whole := GetBits(8 * s.pack, Reading());
      assert whole.Some? ==> [] + whole.value.0 == whole.value.0;
      var flags: seq<bool> := [];
      for i := 0 to 8 * s.pack
        invariant output == old(output) && outgoing == old(outgoing)
        invariant |flags| == i && forall j :: |s.fields| <= j < i ==> !flags[j]
        invariant Completes(flags, whole, GetBits(8 * s.pack - i, Reading()))
      {
        var b := DecodeBit();
        if b.None? {
          return None;
        }
        ghost var rest := GetBits(8 * s.pack - i - 1, Reading());
        if rest.Some? {
          Associate(flags, [b.value], rest.value.0);
        }
        flags := flags + [b.value];
        if i >= |s.fields| && b.value {
          assert whole.Some? ==> whole.value.0[i] && whole.value.0[|s.fields|..][i - |s.fields|];
          return None;
        }
      }
      assert flags + [] == flags && flags[|s.fields|..] == Reserved(s);
      return Some(flags[..|s.fields|]);
    }
  }
}
