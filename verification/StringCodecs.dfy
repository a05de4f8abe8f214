/** The codec object of AMQP 0-10, which consumes and extends a string of octets
    (qpid/python/qpid/codec010.py, class StringCodec). */
module StringCodecs {
  import opened Wrappers
  import opened Sequences
  import opened Octets
  import opened Serials
  import opened RangedSets
  import opened Codec010

  /** With `rest` still to be written after `encoded`, the whole will be there. */
  ghost predicate WholeAfter(encoded: seq<Octet>, base: seq<Octet>, whole: Option<seq<Octet>>,
                             rest: Option<seq<Octet>>)
  {
    if whole.None? || rest.None? then whole.None? && rest.None? else encoded + rest.value == base + whole.value
  }

  lemma OneMoreWritten(encoded: seq<Octet>, base: seq<Octet>, whole: Option<seq<Octet>>, next: Option<seq<Octet>>,
                       rest: Option<seq<Octet>>)
    requires WholeAfter(encoded, base, whole, Glue(next, rest))
    ensures if next.None? then whole.None? else WholeAfter(encoded + next.value, base, whole, rest)
  {
    if next.Some? && rest.Some? {
      Associate(encoded, next.value, rest.value);
    }
  }

  lemma EntriesFrom(t: Tables, kvs: seq<Entry>, i: nat)
    requires i < |kvs|
    ensures WriteEntries(t, kvs[i..]) == Glue(WriteEntry(t, kvs[i]), WriteEntries(t, kvs[i + 1..]))
  {
    assert kvs[i..][0] == kvs[i] && kvs[i..][1..] == kvs[i + 1..];
  }

  function TakeSerial(b: seq<Octet>): Option<(Serial, seq<Octet>)>
  {
    if |b| < 4 then None else PowFour(); Some((Unpack(b[..4]), b[4..]))
  }

  lemma RangesFrom(count: nat, b: seq<Octet>, sofar: seq<Range>)
    requires count > 0
    ensures |b| < 8 ==> ReadRanges(count, b, sofar).None?
    ensures |b| >= 8 ==>
      var lower, upper := TakeSerial(b).value, TakeSerial(TakeSerial(b).value.1).value;
      ReadRanges(count, b, sofar) == ReadRanges(count - 1, upper.1, Insert(sofar, Range(lower.0, upper.0)))
  {
    if |b| >= 8 {
      assert b[4..][..4] == b[4..8] && b[4..][4..] == b[8..];
    }
  }

  class StringCodec {
    const t: Tables
    var encoded: seq<Octet>

    constructor (t: Tables, encoded: seq<Octet>)
      ensures this.t == t && this.encoded == encoded
    {
      this.t, this.encoded := t, encoded;
    }

    /** A write either adds these octets or raises; what it leaves behind when it
        raises is not said. */
    twostate predicate Adds(ok: bool, new octets: Option<seq<Octet>>)
      reads this
    {
      ok == octets.Some? && (ok ==> encoded == old(encoded) + octets.value)
    }

    /** A read either takes a value and leaves the rest, or raises. */
    twostate predicate Takes<T>(new r: Option<T>, new g: Option<(T, seq<Octet>)>)
      reads this
    {
      if g.None? then r.None? else r == Some(g.value.0) && encoded == g.value.1
    }

    // ----- Octets and numbers -----

    /** A slice: at the end of the string it is shorter than was asked for. */
    method Read(n: nat) returns (result: seq<Octet>)
      modifies this
      ensures (result, encoded) == Slice(old(encoded), n)
    {
      var k := if n < |encoded| then n else |encoded|;
      assert n >= |encoded| ==> encoded[..k] == encoded && encoded[k..] == [];
      result := encoded[..k];
      encoded := encoded[k..];
    }

    method Write(s: seq<Octet>)
      modifies this
      ensures encoded == old(encoded) + s
    {
      encoded := encoded + s;
    }

    method ReadNumber(w: nat) returns (n: Option<nat>)
      modifies this
      ensures Takes(n, TakeNumber(old(encoded), w))
    {
      var s := Read(w);
      if |s| < w {
        return None;
      }
      return Some(Unpack(s));
    }

    method WriteNumber(n: int, w: nat) returns (ok: bool)
      modifies this
      ensures Adds(ok, Codec010.WriteNumber(n, w))
    {
      if n < 0 || n >= Pow256(w) {
        return false;
      }
      Write(Pack(n, w));
      return true;
    }

    method ReadBin(w: nat) returns (s: Option<seq<Octet>>)
      modifies this
      ensures Takes(s, Codec010.ReadBin(old(encoded), w))
    {
      var n := ReadNumber(w);
      if n.None? {
        return None;
      }
      var data := Read(n.value);
      return Some(data);
    }

    method WriteBin(s: seq<Octet>, w: nat) returns (ok: bool)
      modifies this
      ensures Adds(ok, Codec010.WriteBin(s, w))
    {
      ok := WriteNumber(|s|, w);
      if ok {
        Associate(old(encoded), Pack(|s|, w), s);
        Write(s);
      }
    }

    method ReadText(w: nat) returns (s: Option<seq<Octet>>)
      modifies this
      ensures Takes(s, Codec010.ReadText(t, old(encoded), w))
    {
      s := ReadBin(w);
      if s.Some? && !t.utf8(s.value) {
        s := None;
      }
    }

    method ReadCode() returns (p: Option<Prim>)
      modifies this
      ensures Takes(p, Codec010.ReadCode(t, old(encoded)))
    {
      var s := Read(1);
      if |s| < 1 || s[0] !in t.prims {
        return None;
      }
      return Some(t.prims[s[0]]);
    }

    method WriteCode(p: Option<Prim>) returns (ok: bool)
      modifies this
      ensures Adds(ok, Codec010.WriteCode(t, p))
    {
      if p.None? || p.value !in t.codes {
        return false;
      }
      Write([t.codes[p.value]]);
      return true;
    }

    // ----- Sets of sequence numbers -----

    method ReadSequenceNo() returns (n: Option<Serial>)
      modifies this
      ensures Takes(n, TakeSerial(old(encoded)))
    {
      var v := ReadNumber(4);
      PowFour();
      n := if v.None? then None else Some(v.value);
    }

    method ReadSequenceSet() returns (result: Option<seq<Range>>)
      modifies this
      ensures Takes(result, ReadSet(old(encoded)))
    {
      var size := ReadNumber(2);
      if size.None? {
        return None;
      }
      ghost var start := encoded;
      var rebuilt := new RangedSet();
      var nranges := size.value / 8;
      while nranges > 0
        invariant fresh(rebuilt)
        invariant ReadRanges(nranges, encoded, rebuilt.ranges) == ReadRanges(size.value / 8, start, [])
      {
        RangesFrom(nranges, encoded, rebuilt.ranges);
        var lower := ReadSequenceNo();
        var upper: Option<Serial> := None;
        if lower.Some? {
          upper := ReadSequenceNo();
        }
        if upper.None? {
          return None;
        }
        rebuilt.Add(lower.value, upper.value);
        nranges := nranges - 1;
      }
      return Some(rebuilt.ranges);
    }

    method WriteSequenceSet(ranges: seq<Range>) returns (ok: bool)
      modifies this
      ensures Adds(ok, WriteSet(ranges))
    {
      ok := WriteNumber(8 * |ranges|, 2);
      if !ok {
        return;
      }
      ghost var base := encoded;
      PowFour();
      for i := 0 to |ranges|
        invariant encoded + WriteRanges(ranges[i..]) == base + WriteRanges(ranges)
      {
        var range := ranges[i];
        ghost var was, rest := encoded, WriteRanges(ranges[i + 1..]);
        assert ranges[i..][0] == range && ranges[i..][1..] == ranges[i + 1..];
        Associate(was, Pack(range.lower, 4) + Pack(range.upper, 4), rest);
        Associate(was, Pack(range.lower, 4), Pack(range.upper, 4));
        ok := WriteNumber(range.lower, 4);
        ok := WriteNumber(range.upper, 4);
      }
      Associate(old(encoded), Pack(8 * |ranges|, 2), WriteRanges(ranges));
      ok := true;
    }

    // ----- Flags -----

    method WriteFlags(s: Struct, values: seq<Value>)
      requires |values| == |s.fields|
      modifies this
      ensures encoded == old(encoded) + LittleOctets(FromBits(Present(s.fields, values)), s.pack)
    {
      ghost var present := Present(s.fields, values);
      assert present[..0] == [] && FromBits([]) == 0;
      var flags: nat := 0;
      for i := 0 to |s.fields|
        invariant flags == FromBits(present[..i]) && encoded == old(encoded)
      {
        OneMoreBit(present[..i], present[i]);
        assert present[..i + 1] == present[..i] + [present[i]];
        if IsPresent(s.fields[i], values[i]) {
          flags := SetBit(flags, i);
        }
      }
      assert present[..|present|] == present;
      for i := 0 to s.pack
        invariant encoded + LittleOctets(flags, s.pack - i) == old(encoded) + LittleOctets(FromBits(present), s.pack)
      {
        Associate(encoded, [flags % 256], LittleOctets(flags / 256, s.pack - i - 1));
        Write([flags % 256]);
        flags := flags / 256;
      }
    }

    /** `flags |= octet << 8*i`, with `scale` for the shift. */
    method ReadFlags(pack: nat) returns (result: Option<nat>)
      modifies this
      ensures if |old(encoded)| < pack then result.None?
              else result == Some(LittleValue(old(encoded)[..pack])) && encoded == old(encoded)[pack..]
    {
      var flags: nat, scale: nat := 0, 1;
      for i := 0 to pack
        invariant i <= |old(encoded)| && encoded == old(encoded)[i..]
        invariant pack <= |old(encoded)| ==>
          flags + scale * LittleValue(old(encoded)[i..pack]) == LittleValue(old(encoded)[..pack])
      {
        var octet := ReadNumber(1);
        if octet.None? {
          return None;
        }
        if pack <= |old(encoded)| {
          ghost var rest := old(encoded)[i..pack];
          assert rest[0] == old(encoded)[i] && rest[1..] == old(encoded)[i + 1..pack];
          OneOctet(old(encoded)[i]);
          assert old(encoded)[i..][..1] == [old(encoded)[i]];
          Shift(scale, octet.value, LittleValue(rest[1..]));
        }
        flags := flags + scale * octet.value;
        scale := scale * 256;
      }
      return Some(flags);
    }

    // ----- Compounds -----

    method WriteRecord(v: Value) returns (ok: bool)
      requires v.Record?
      modifies this
      ensures Adds(ok, Codec010.WriteRecord(t, v))
      decreases v, 0
    {
      var s := v.struct;
      if |v.values| != |s.fields| {
        return false;
      }
      WriteFlags(s, v.values);
      ghost var base, whole := encoded, WriteFields(t, s.fields, v.values);
      for i := 0 to |s.fields|
        invariant Continues(base, whole, WriteFields(t, s.fields[i..], v.values[i..]))
      {
        var f, x := s.fields[i], v.values[i];
        assert s.fields[i..][0] == f && s.fields[i..][1..] == s.fields[i + 1..];
        assert v.values[i..][0] == x && v.values[i..][1..] == v.values[i + 1..];
        if IsPresent(f, x) {
          ghost var was, rest := encoded, WriteFields(t, s.fields[i + 1..], v.values[i + 1..]);
          ok := WriteField(f, x);
          if !ok {
            return;
          }
          if rest.Some? {
            Associate(was, Codec010.WriteField(t, f, x).value, rest.value);
          }
        }
      }
      Associate(old(encoded), LittleOctets(FromBits(Present(s.fields, v.values)), s.pack), whole.value);
      assert encoded + [] == encoded;
      ok := true;
    }

    /** What is still to be written completes the whole. */
    ghost predicate Continues(base: seq<Octet>, whole: Option<seq<Octet>>, rest: Option<seq<Octet>>)
      reads this
    {
      WholeAfter(encoded, base, whole, rest)
    }

    method WriteField(f: FieldType, v: Value) returns (ok: bool)
      modifies this
      ensures Adds(ok, Codec010.WriteField(t, f, v))
      decreases v, 3
    {
      if f.Plain? {
        ok := WritePrimitive(f.prim, v);
      } else if v.Record? {
        ok := WriteCompound(v);
      } else {
        ok := false;
      }
    }

    method WriteCompound(v: Value) returns (ok: bool)
      requires v.Record?
      modifies this
      ensures Adds(ok, Codec010.WriteCompound(t, v))
      decreases v, 1
    {
      var sc := new StringCodec(t, CodeOctets(v.struct));
      ok := sc.WriteRecord(v);
      if ok {
        if v.struct.size > 0 {
          ok := WriteNumber(|sc.encoded|, v.struct.size);
        }
        if ok {
          Associate(old(encoded), WriteSize(|sc.encoded|, v.struct.size).value, sc.encoded);
          assert old(encoded) + [] == old(encoded);
          Write(sc.encoded);
        }
      }
    }

    // ----- Values -----

    /** The arms for one type each; the compound types have methods of their own. */
    method WritePrimitive(p: Prim, v: Value) returns (ok: bool)
      modifies this
      ensures Adds(ok, Codec010.Write(t, p, v))
      decreases v, 2
    {
      match p
      case List => ok := WriteList(v);
      case Map => ok := WriteMap(v);
      case Array => ok := WriteArray(v);
      case Struct32 =>
        ok := v.Record?;
        if ok {
          ok := WriteCompound(v);
        }
      case SequenceSet =>
        ok := v.Ids?;
        if ok {
          ok := WriteSequenceSet(v.ranges);
        }
      case _ => ok := WriteSimple(p, v);
    }

    /** The types without a structure of their own. */
    method WriteSimple(p: Prim, v: Value) returns (ok: bool)
      requires !(p.List? || p.Map? || p.Array? || p.Struct32? || p.SequenceSet?)
      modifies this
      ensures Adds(ok, Codec010.Write(t, p, v))
    {
      assert encoded + [] == encoded;
      ok := false;
      match p
      case Void => ok := v.Null?;
      case BitFlag => ok := v == Flag(true);
      case Boolean =>
        if v.Flag? {
          ok := WriteNumber(if v.on then 1 else 0, 1);
        }
      case Unsigned(w) =>
        if v.Number? {
          ok := WriteNumber(v.n, w);
        }
      case Signed(w) =>
        if v.Number? && 0 <= 2 * v.n + Pow256(w) < 2 * Pow256(w) {
          ok := WriteNumber(if v.n < 0 then v.n + Pow256(w) else v.n, w);
        }
      case DateTime =>
        if v.Time? {
          ok := WriteNumber(v.t, 8);
        }
      case Floating(w) =>
        if v.Real? && |v.octets| == w {
          Write(v.octets);
          ok := true;
        }
      case Uuid128 =>
        if v.Bytes? {
          Write(Padded(v.octets, 16));
          ok := true;
        } else if v.Uuid? && |v.octets| == 16 {
          Write(v.octets);
          ok := true;
        }
      case Bin(w) =>
        if v.Bytes? || v.Buffer? || (v.Chars? && w == 4) {
          ok := WriteBin(v.octets, w);
        }
      case Utf(w) =>
        if v.Chars? || (v.Bytes? && Ascii(v.octets)) {
          ok := WriteBin(v.octets, w);
        }
      case Character =>
        if v.Bytes? && |v.octets| == 1 {
          Write(v.octets);
          ok := true;
        }
      case Fixed128 =>
        if v.Bytes? {
          Write(Padded(v.octets, 16));
          ok := true;
        }
    }

    method WriteList(v: Value) returns (ok: bool)
      modifies this
      ensures Adds(ok, Codec010.Write(t, List, v))
      decreases v, 1
    {
      var sc := new StringCodec(t, []);
      if v.Items? {
        ok := sc.WriteNumber(|v.items|, 4);
        assert ok ==> sc.encoded == Pack(|v.items|, 4);
        if ok {
          ok := sc.WriteItems(v.items);
        }
      } else {
        ok := v.Null?;
      }
      if ok {
        ok := WriteBin(sc.encoded, 4);
      }
    }

    method WriteItems(vs: seq<Value>) returns (ok: bool)
      modifies this
      ensures Adds(ok, Codec010.WriteItems(t, vs))
      decreases vs, 0
    {
      ghost var whole := Codec010.WriteItems(t, vs);
      for i := 0 to |vs|
        invariant Continues(old(encoded), whole, Codec010.WriteItems(t, vs[i..]))
      {
        ghost var was, rest := encoded, Codec010.WriteItems(t, vs[i + 1..]);
        assert vs[i..][0] == vs[i] && vs[i..][1..] == vs[i + 1..];
        var p := EncodingOf(vs[i]);
        ok := WriteCode(p);
        if ok {
          ok := WritePrimitive(p.value, vs[i]);
        }
        if !ok {
          return;
        }
        if rest.Some? {
          ghost var code, item := Codec010.WriteCode(t, p).value, Codec010.Write(t, p.value, vs[i]).value;
          Associate(was, code, item);
          Associate(was, code + item, rest.value);
        }
      }
      assert encoded + [] == encoded;
      ok := true;
    }

    method WriteArray(v: Value) returns (ok: bool)
      modifies this
      ensures Adds(ok, Codec010.Write(t, Array, v))
      decreases v, 1
    {
      var sc := new StringCodec(t, []);
      if v.Items? {
        ok := sc.WriteArrayBody(v.items);
      } else {
        ok := v.Null?;
      }
      if ok {
        ok := WriteBin(sc.encoded, 4);
      }
    }

    /** The type of the elements, their number, and the elements. */
    method WriteArrayBody(vs: seq<Value>) returns (ok: bool)
      requires encoded == []
      modifies this
      ensures var element := if vs == [] then Some(Void) else EncodingOf(vs[0]);
              var body := Glue(Glue(Codec010.WriteCode(t, element), Codec010.WriteNumber(|vs|, 4)),
                               if element.Some? then Codec010.WriteElements(t, element.value, vs) else None);
              ok == body.Some? && (ok ==> encoded == body.value)
      decreases vs, 1
    {
      var element := if vs == [] then Some(Void) else EncodingOf(vs[0]);
      ok := WriteCode(element);
      if ok {
        ok := WriteNumber(|vs|, 4);
      }
      if ok {
        ok := WriteElements(element.value, vs);
      }
    }

    method WriteElements(p: Prim, vs: seq<Value>) returns (ok: bool)
      modifies this
      ensures Adds(ok, Codec010.WriteElements(t, p, vs))
      decreases vs, 0
    {
      ghost var whole := Codec010.WriteElements(t, p, vs);
      for i := 0 to |vs|
        invariant Continues(old(encoded), whole, Codec010.WriteElements(t, p, vs[i..]))
      {
        assert vs[i..][0] == vs[i] && vs[i..][1..] == vs[i + 1..];
        OneMoreWritten(encoded, old(encoded), whole, Codec010.Write(t, p, vs[i]),
                       Codec010.WriteElements(t, p, vs[i + 1..]));
        ok := WritePrimitive(p, vs[i]);
        if !ok {
          return;
        }
      }
      assert encoded + [] == encoded;
      ok := true;
    }

    method WriteMap(v: Value) returns (ok: bool)
      modifies this
      ensures Adds(ok, Codec010.Write(t, Map, v))
      decreases v, 1
    {
      var sc := new StringCodec(t, []);
      if v.Table? {
        ok := sc.WriteNumber(|v.entries|, 4);
        assert ok ==> sc.encoded == Pack(|v.entries|, 4);
        if ok {
          ok := sc.WriteEntries(v.entries);
        }
      } else {
        ok := v.Null?;
      }
      if ok {
        ok := WriteBin(sc.encoded, 4);
      }
    }

    method WriteEntries(kvs: seq<Entry>) returns (ok: bool)
      modifies this
      ensures Adds(ok, Codec010.WriteEntries(t, kvs))
      decreases kvs, 0
    {
      ghost var whole := Codec010.WriteEntries(t, kvs);
      for i := 0 to |kvs|
        invariant Continues(old(encoded), whole, Codec010.WriteEntries(t, kvs[i..]))
      {
        EntriesFrom(t, kvs, i);
        OneMoreWritten(encoded, old(encoded), whole, Codec010.WriteEntry(t, kvs[i]),
                       Codec010.WriteEntries(t, kvs[i + 1..]));
        ok := JoinEntry(kvs[i]);
        if !ok {
          return;
        }
      }
      assert encoded + [] == encoded;
      ok := true;
    }

    method JoinEntry(e: Entry) returns (ok: bool)
      modifies this
      ensures Adds(ok, Codec010.WriteEntry(t, e))
      decreases e, 1
    {
      var sc := new StringCodec(t, []);
      ok := sc.WriteEntry(e);
      if ok {
        assert sc.encoded == Codec010.WriteEntry(t, e).value;
        Write(sc.encoded);
      }
    }

    method WriteEntry(e: Entry) returns (ok: bool)
      requires encoded == []
      modifies this
      ensures Adds(ok, Codec010.WriteEntry(t, e))
      decreases e, 0
    {
      var p := EncodingOf(e.value);
      ok := p.Some?;
      if ok {
        ok := WriteBin(e.key, 1);
      }
      if ok {
        ok := WriteCode(p);
      }
      if ok {
        assert e.value < e;
        ok := WritePrimitive(p.value, e.value);
      }
    }

    method ReadPrimitive(p: Prim) returns (r: Option<Value>)
      modifies this
      ensures Takes(r, Codec010.Read(t, p, old(encoded)))
      ensures r.Some? ==> |encoded| <= |old(encoded)|
      decreases |encoded|, 0, 2
    {
      match p
      case List => r := ReadList();
      case Map => r := ReadMap();
      case Array => r := ReadArray();
      case Struct32 => r := ReadStruct32();
      case SequenceSet =>
        var ranges := ReadSequenceSet();
        r := if ranges.None? then None else Some(Ids(ranges.value));
      case _ => r := ReadSimple(p);
    }

    method ReadSimple(p: Prim) returns (r: Option<Value>)
      requires !(p.List? || p.Map? || p.Array? || p.Struct32? || p.SequenceSet?)
      modifies this
      ensures Takes(r, Codec010.Read(t, p, old(encoded)))
    {
      match p
      case Void => r := Some(Null);
      case BitFlag => r := Some(Flag(true));
      case Boolean =>
        var n := ReadNumber(1);
        r := if n.None? then None else Some(Flag(n.value != 0));
      case Unsigned(w) =>
        var n := ReadNumber(w);
        r := if n.None? then None else Some(Number(n.value));
      case Signed(w) =>
        var n := ReadNumber(w);
        r := if n.None? then None else Some(Number(SignedValue(n.value, w)));
      case DateTime =>
        var n := ReadNumber(8);
        r := if n.None? then None else Some(Time(n.value));
      case Floating(w) =>
        var s := Read(w);
        r := if |s| < w then None else Some(Real(s));
      case Uuid128 =>
        var s := Read(16);
        r := if |s| < 16 then None else Some(Uuid(s));
      case Bin(w) =>
        var s := ReadBin(w);
        r := if s.None? then None else Some(Bytes(s.value));
      case Utf(w) =>
        var s := ReadText(w);
        r := if s.None? then None else Some(Chars(s.value));
      case Character =>
        var s := Read(1);
        r := if |s| < 1 then None else Some(Bytes(s));
      case Fixed128 =>
        var s := Read(16);
        r := if |s| < 16 then None else Some(Bytes(s));
    }

    method ReadList() returns (r: Option<Value>)
      modifies this
      ensures Takes(r, Codec010.Read(t, List, old(encoded)))
      decreases |encoded|, 0, 0
    {
      var s := ReadBin(4);
      if s.None? {
        return None;
      }
      var sc := new StringCodec(t, s.value);
      if sc.encoded == [] {
        return Some(Null);
      }
      var count := sc.ReadNumber(4);
      if count.None? {
        return None;
      }
      var items := sc.ReadItems(count.value);
      return if items.None? then None else Some(Items(items.value));
    }

    method ReadItems(n: nat) returns (result: Option<seq<Value>>)
      modifies this
      ensures result == Codec010.ReadItems(t, n, old(encoded))
      decreases |encoded|, 0, 3
    {
      var values: seq<Value> := [];
      var count := n;
      ghost var whole := Codec010.ReadItems(t, n, encoded);
      assert whole.Some? ==> [] + whole.value == whole.value;
      while count > 0
        invariant |encoded| <= |old(encoded)|
        invariant Completes(values, whole, Codec010.ReadItems(t, count, encoded))
      {
        ghost var rest := Codec010.ReadItems(t, count, encoded);
        var p := ReadCode();
        if p.None? {
          return None;
        }
        var v := ReadPrimitive(p.value);
        if v.None? {
          return None;
        }
        if rest.Some? {
          Associate(values, [v.value], rest.value[1..]);
        }
        values := values + [v.value];
        count := count - 1;
      }
      assert values + [] == values;
      return Some(values);
    }

    /** What is still to be read completes the whole. */
    ghost predicate Completes<T>(got: seq<T>, whole: Option<seq<T>>, rest: Option<seq<T>>)
    {
      if whole.None? || rest.None? then whole.None? && rest.None? else whole.value == got + rest.value
    }

    method ReadArray() returns (r: Option<Value>)
      modifies this
      ensures Takes(r, Codec010.Read(t, Array, old(encoded)))
      decreases |encoded|, 0, 0
    {
      var s := ReadBin(4);
      if s.None? {
        return None;
      }
      var sc := new StringCodec(t, s.value);
      if sc.encoded == [] {
        return Some(Null);
      }
      var p := sc.ReadCode();
      if p.None? {
        return None;
      }
      var count := sc.ReadNumber(4);
      if count.None? {
        return None;
      }
      var items := sc.ReadElements(p.value, count.value);
      return if items.None? then None else Some(Items(items.value));
    }

    method ReadElements(p: Prim, n: nat) returns (result: Option<seq<Value>>)
      modifies this
      ensures result == Codec010.ReadElements(t, p, n, old(encoded))
      decreases |encoded|, 0, 3
    {
      var values: seq<Value> := [];
      var count := n;
      ghost var whole := Codec010.ReadElements(t, p, n, encoded);
      assert whole.Some? ==> [] + whole.value == whole.value;
      while count > 0
        invariant |encoded| <= |old(encoded)|
        invariant Completes(values, whole, Codec010.ReadElements(t, p, count, encoded))
      {
        ghost var rest := Codec010.ReadElements(t, p, count, encoded);
        var v := ReadPrimitive(p);
        if v.None? {
          return None;
        }
        if rest.Some? {
          Associate(values, [v.value], rest.value[1..]);
        }
        values := values + [v.value];
        count := count - 1;
      }
      assert values + [] == values;
      return Some(values);
    }

    method ReadMap() returns (r: Option<Value>)
      modifies this
      ensures Takes(r, Codec010.Read(t, Map, old(encoded)))
      decreases |encoded|, 0, 0
    {
      var s := ReadBin(4);
      if s.None? {
        return None;
      }
      var sc := new StringCodec(t, s.value);
      if sc.encoded == [] {
        return Some(Null);
      }
      var count := sc.ReadNumber(4);
      if count.None? {
        return None;
      }
      var entries := sc.ReadEntries();
      return if entries.None? then None else Some(Table(entries.value));
    }

    /** The loop goes on while there are octets; the count is not looked at. */
    method ReadEntries() returns (result: Option<seq<Entry>>)
      modifies this
      ensures result == Codec010.ReadEntries(t, old(encoded), [])
      decreases |encoded|, 0, 3
    {
      var entries: seq<Entry> := [];
      while encoded != []
        invariant |encoded| <= |old(encoded)|
        invariant Codec010.ReadEntries(t, encoded, entries) == Codec010.ReadEntries(t, old(encoded), [])
        decreases |encoded|
      {
        var k := ReadText(1);
        if k.None? {
          return None;
        }
        var p := ReadCode();
        if p.None? {
          return None;
        }
        var v := ReadPrimitive(p.value);
        if v.None? {
          return None;
        }
        entries := Put(entries, k.value, v.value);
      }
      return Some(entries);
    }

    method ReadStruct32() returns (r: Option<Value>)
      modifies this
      ensures Takes(r, Codec010.Read(t, Struct32, old(encoded)))
      decreases |encoded|, 0, 0
    {
      var size := ReadNumber(4);
      var code: Option<nat> := None;
      if size.Some? {
        code := ReadNumber(2);
      }
      PowFour();
      if |old(encoded)| >= 6 {
        assert old(encoded)[4..][..2] == old(encoded)[4..6] && old(encoded)[4..][2..] == old(encoded)[6..];
      }
      if code.None? || code.value !in t.compounds {
        return None;
      }
      r := ReadRecord(t.compounds[code.value]);
    }

    method ReadRecord(s: Struct) returns (r: Option<Value>)
      modifies this
      ensures Takes(r, Codec010.ReadRecord(t, s, old(encoded)))
      decreases |encoded|, Depth(s), 1
    {
      var flags := ReadFlags(s.pack);
      if flags.None? {
        return None;
      }
      var values: seq<Value> := [];
      ghost var whole := Codec010.ReadFields(t, s, flags.value, 0, encoded);
      assert whole.Some? ==> [] + whole.value.0 == whole.value.0;
      for i := 0 to |s.fields|
        invariant |encoded| <= |old(encoded)|
        invariant var rest := Codec010.ReadFields(t, s, flags.value, i, encoded);
                  if whole.None? || rest.None? then whole.None? && rest.None?
                  else whole.value == (values + rest.value.0, rest.value.1)
      {
        var f := s.fields[i];
        ghost var rest := Codec010.ReadFields(t, s, flags.value, i, encoded);
        var v := Some(Default(f));
        if Bit(flags.value, i) {
          FieldIsShallower(s.fields, i);
          v := ReadField(f);
          if v.None? {
            return None;
          }
        }
        if rest.Some? {
          Associate(values, [v.value], rest.value.0[1..]);
        }
        values := values + [v.value];
      }
      assert values + [] == values;
      return Some(Record(s, values));
    }

    method ReadField(f: FieldType) returns (r: Option<Value>)
      modifies this
      ensures Takes(r, Codec010.ReadField(t, f, old(encoded)))
      decreases |encoded|, if f.Plain? then 0 else Depth(f.struct), 3
    {
      if f.Plain? {
        r := ReadPrimitive(f.prim);
      } else {
        r := ReadCompound(f.struct);
      }
    }

    method ReadCompound(s: Struct) returns (r: Option<Value>)
      modifies this
      ensures Takes(r, Codec010.ReadCompound(t, s, old(encoded)))
      decreases |encoded|, Depth(s), 2
    {
      var size := ReadNumber(s.size);
      if size.None? {
        return None;
      }
      if s.code.Some? {
        var code := ReadNumber(2);
        if code.None? || code.value != s.code.value {
          return None;
        }
      }
      r := ReadRecord(s);
    }
  }

  lemma OneOctet(o: Octet)
    ensures Unpack([o]) == o
  {
    assert Unpack([o][..0]) == 0;
  }

  lemma Shift(scale: nat, x: nat, y: nat)
    ensures scale * (x + 256 * y) == scale * x + (scale * 256) * y
  {
    assert scale * (256 * y) == (scale * 256) * y;
  }
}
