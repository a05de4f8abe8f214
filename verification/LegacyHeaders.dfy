/** The content header of AMQP 0-8 and 0-9: property flags and property values
    (qpid/python/qpid/connection08.py). */
module LegacyHeaders {
  import opened Wrappers
  import opened Sequences
  import opened Octets
  import opened Codec08

  /** The class by its id, and one entry for each of its properties. */
  datatype Header = Header(klass: nat, weight: nat, size: nat, properties: seq<Option<Value>>)

  // ----- Property flags -----

  /** `flags <<= 1`, and the low bit set for a property that is present. */
  function Shifted(flags: nat, present: bool): nat
  {
    2 * flags + (if present then 1 else 0)
  }

  /** The words still to be written from property `i` on; None when `encode_short`
      raises. */
  function FlagWords(present: seq<bool>, i: nat, flags: nat): Option<seq<nat>>
    requires i <= |present|
    decreases |present| - i
  {
    if i == |present| then
      var last := flags * Pow2((16 - |present| % 15) % 16);
      if last < 65536 then Some([last]) else None
    else
      var next := Shifted(flags, present[i]);
      if i > 0 && i % 15 == 0 then
        if |present| > i + 1 then
          var rest := FlagWords(present, i + 1, 0);
          if 2 * next + 1 < 65536 && rest.Some? then Some([2 * next + 1] + rest.value) else None
        else FlagWords(present, i + 1, 2 * next)
      else FlagWords(present, i + 1, next)
  }

  method EncodeFlags(present: seq<bool>) returns (words: Option<seq<nat>>)
    ensures words == FlagWords(present, 0, 0)
  {
    var nprops := |present|;
    var flags: nat := 0;
    var written: seq<nat> := [];
    assert FlagWords(present, 0, 0).Some? ==> [] + FlagWords(present, 0, 0).value == FlagWords(present, 0, 0).value;
    for i := 0 to nprops
      invariant var rest := FlagWords(present, i, flags);
                FlagWords(present, 0, 0) == if rest.None? then None else Some(written + rest.value)
    {
      ghost var rest := FlagWords(present, i, flags);
      flags := 2 * flags;
      if present[i] {
        flags := flags + 1;
      }
      if i > 0 && i % 15 == 0 {
        flags := 2 * flags;
        if nprops > i + 1 {
          flags := flags + 1;
          if flags >= 65536 {
            return None;
          }
          if rest.Some? {
            Associate(written, [flags], rest.value[1..]);
          }
          written := written + [flags];
          flags := 0;
        }
      }
    }
    flags := flags * Pow2((16 - nprops % 15) % 16);
    return if flags < 65536 then Some(written + [flags]) else None;
  }

  /** Fifteen bits to the word, from the top; the lowest says that more follow. */
  function WordBits(word: nat): (bits: seq<bool>)
    ensures |bits| == 15
  {
    seq(15, k requires 0 <= k < 15 => Bit(word, 15 - k))
  }

  function ReadFlags(d: Source): (r: Option<(seq<bool>, Source)>)
    decreases |d.input|
  {
    var word := GetNumber(d, 2);
    if word.None? then None
    else if !Bit(word.value.0, 0) then Some((WordBits(word.value.0), word.value.1))
    else
      var rest := ReadFlags(word.value.1);
      if rest.None? then None else Some((WordBits(word.value.0) + rest.value.0, rest.value.1))
  }

  /** The loop of `decode_legacy`; None when a word is missing. */
  method DecodeFlags(d: Source) returns (r: Option<(seq<bool>, Source)>)
    ensures r == ReadFlags(d)
  {
    var bits: seq<bool> := [];
    var source := d;
    assert ReadFlags(d).Some? ==> [] + ReadFlags(d).value.0 == ReadFlags(d).value.0;
    while true
      invariant var rest := ReadFlags(source);
                ReadFlags(d) == if rest.None? then None else Some((bits + rest.value.0, rest.value.1))
      decreases |source.input|
    {
      var flags := GetNumber(source, 2);
      if flags.None? {
        return None;
      }
      ghost var was := bits;
      for i := 15 downto 0
        invariant bits == was + WordBits(flags.value.0)[..15 - i]
      {
        bits := bits + [Bit(flags.value.0, i + 1)];
        assert WordBits(flags.value.0)[..15 - i] == WordBits(flags.value.0)[..14 - i] + [Bit(flags.value.0, i + 1)];
      }
      assert bits == was + WordBits(flags.value.0);
      if !Bit(flags.value.0, 0) {
        return Some((bits, flags.value.1));
      }
      if ReadFlags(flags.value.1).Some? {
        Associate(was, WordBits(flags.value.0), ReadFlags(flags.value.1).value.0);
      }
      source := flags.value.1;
    }
  }

  /** The flags as far as the class has properties. */
  function Shown(bits: seq<bool>, n: nat): (shown: seq<bool>)
    ensures |shown| == n
  {
    seq(n, i requires 0 <= i < n => i < |bits| && bits[i])
  }

  function WordOctets(words: seq<nat>): seq<Octet>
  {
    if words == [] then [] else Pack(words[0], 2) + WordOctets(words[1..])
  }

  /** The flags of this set of properties are written, and are read back as the
      same set, up to the last octet. */
  ghost predicate FlagsReturn(present: seq<bool>)
  {
    var words := FlagWords(present, 0, 0);
    && words.Some?
    && var r := ReadFlags(Source(WordOctets(words.value), []));
       r.Some? && Shown(r.value.0, |present|) == present && r.value.1.input == []
  }

  /** The number with these bits, the first in the highest place. */
  function HighFirst(p: seq<bool>): nat
  {
    if p == [] then 0 else Shifted(HighFirst(p[..|p| - 1]), p[|p| - 1])
  }

  lemma {:induction false} BitOfHighFirst(p: seq<bool>, j: nat)
    ensures Bit(HighFirst(p), j) <==> j < |p| && p[|p| - 1 - j]
    decreases |p|
  {
    if p == [] {
      BitOfZero(j);
    } else {
      var before := p[..|p| - 1];
      assert HighFirst(p) / 2 == HighFirst(before);
      if j > 0 {
        BitOfHighFirst(before, j - 1);
      }
    }
  }

  lemma {:induction false} HighFirstFits(p: seq<bool>)
    ensures HighFirst(p) < Pow2(|p|)
    decreases |p|
  {
    if p != [] {
      HighFirstFits(p[..|p| - 1]);
    }
  }

  lemma {:induction false} BitOfShift(x: nat, s: nat, j: nat)
    ensures Bit(x * Pow2(s), j) <==> j >= s && Bit(x, j - s)
  {
    if s > 0 {
      var y := x * Pow2(s - 1);
      assert x * Pow2(s) == 2 * y;
      if j > 0 {
        BitOfShift(x, s - 1, j - 1);
      }
    }
  }

  lemma {:induction false} FewProperties(present: seq<bool>, i: nat)
    requires |present| <= 14 && i <= |present|
    ensures FlagWords(present, i, HighFirst(present[..i])) == FlagWords(present, |present|, HighFirst(present))
    decreases |present| - i
  {
    if i < |present| {
      assert present[..i + 1][..i] == present[..i] && present[..i + 1][i] == present[i];
      assert HighFirst(present[..i + 1]) == Shifted(HighFirst(present[..i]), present[i]);
      assert i % 15 == i;
      FewProperties(present, i + 1);
    } else {
      assert present[..i] == present;
    }
  }

  /** The one word of a class with at most fourteen properties. */
  function OneWord(present: seq<bool>): nat
    requires |present| <= 14
  {
    if present == [] then 0 else HighFirst(present) * Pow2(16 - |present|)
  }

  lemma {:induction false} PowersMultiply(m: nat, n: nat)
    ensures Pow2(m) * Pow2(n) == Pow2(m + n)
  {
    if m > 0 {
      PowersMultiply(m - 1, n);
      assert 2 * Pow2(m - 1) * Pow2(n) == 2 * (Pow2(m - 1) * Pow2(n));
    }
  }

  lemma Scaled(a: nat, b: nat, c: nat)
    requires a < b && c > 0
    ensures a * c < b * c
  {
  }

  lemma OneWordIsShort(present: seq<bool>)
    requires |present| <= 14
    ensures OneWord(present) < 65536
  {
    var n := |present|;
    if n > 0 {
      HighFirstFits(present);
      PowersMultiply(n, 16 - n);
      Pow2OfOctets(2);
      assert Pow256(2) == 256 * Pow256(1) && Pow256(1) == 256 * Pow256(0);
      Scaled(HighFirst(present), Pow2(n), Pow2(16 - n));
    }
  }

  lemma OneWordFits(present: seq<bool>)
    requires |present| <= 14
    ensures OneWord(present) < 65536 && FlagWords(present, 0, 0) == Some([OneWord(present)])
  {
    assert present[..0] == [];
    FewProperties(present, 0);
    OneWordIsShort(present);
    LastShift(|present|);
  }

  lemma LastShift(n: nat)
    requires n <= 14
    ensures (16 - n % 15) % 16 == if n == 0 then 0 else 16 - n
  {
  }

  lemma OneWordBits(present: seq<bool>)
    requires |present| <= 14
    ensures !Bit(OneWord(present), 0) && Shown(WordBits(OneWord(present)), |present|) == present
  {
    var n := |present|;
    if n > 0 {
      BitOfShift(HighFirst(present), 16 - n, 0);
      forall k | 0 <= k < n
        ensures Bit(OneWord(present), 15 - k) == present[k]
      {
        BitOfShift(HighFirst(present), 16 - n, 15 - k);
        BitOfHighFirst(present, n - 1 - k);
      }
    }
  }

  /** With at most fourteen properties, every set of them is read back. */
  lemma FewFlagsReturn(present: seq<bool>, d: Source, rest: seq<Octet>)
    requires |present| <= 14 && d.input == Pack(OneWord(present), 2) + rest
    ensures ReadFlags(d) == Some((WordBits(OneWord(present)), Source(rest, [])))
    ensures Shown(WordBits(OneWord(present)), |present|) == present
  {
    OneWordFits(present);
    OneWordBits(present);
    assert Pow256(2) == 256 * Pow256(1) && Pow256(1) == 256 * Pow256(0);
    NumberBack(d, OneWord(present), 2, rest);
  }

  /** Only the first of `n` properties. */
  function FirstOnly(n: nat): (present: seq<bool>)
    ensures |present| == n
  {
    seq(n, i => i == 0)
  }

  lemma {:induction false} FirstClimbs(n: nat, i: nat)
    requires 1 <= i <= 15 <= n
    ensures FlagWords(FirstOnly(n), i, Pow2(i - 1)) == FlagWords(FirstOnly(n), 15, Pow2(14))
    decreases 15 - i
  {
    if i < 15 {
      assert i % 15 == i && Shifted(Pow2(i - 1), FirstOnly(n)[i]) == Pow2(i);
      FirstClimbs(n, i + 1);
    }
  }

  /** With fifteen, the first property is read as the second; with more, its flag
      no longer fits a word and writing raises. */
  lemma FirstIsLost(n: nat)
    requires n >= 15
    ensures !FlagsReturn(FirstOnly(n))
    ensures n > 15 ==> FlagWords(FirstOnly(n), 0, 0).None?
  {
    var p := FirstOnly(n);
    assert Pow2(14) == 4 * Pow2(12) == 16 * Pow2(10) == 64 * Pow2(8) && Pow2(8) == 256 by {
      Pow2Eight(0);
    }
    assert FlagWords(p, 0, 0) == FlagWords(p, 1, 1) && Pow2(0) == 1;
    FirstClimbs(n, 1);
    if n == 15 {
      assert (16 - 15 % 15) % 16 == 0;
      assert FlagWords(p, 15, 16384) == Some([16384 * Pow2(0)]);
      assert FlagWords(p, 0, 0) == Some([16384]);
      assert WordOctets([16384]) == Pack(16384, 2) + [];
      assert Pow256(2) == 256 * Pow256(1) && Pow256(1) == 256 * Pow256(0);
      NumberBack(Source(WordOctets([16384]), []), 16384, 2, []);
      assert Bit(1, 0);
      BitOfShift(1, 14, 14);
      BitOfShift(1, 14, 0);
      assert Shown(WordBits(16384), 15)[1] && !p[1];
    } else if n == 16 {
      assert Pow2(15) == 2 * Pow2(14);
      assert 65536 * Pow2(15) >= 65536;
    }
  }

  lemma OneWordOctets(word: nat)
    ensures WordOctets([word]) == Pack(word, 2)
  {
    assert [word][1..] == [];
    assert Pack(word, 2) + WordOctets([]) == Pack(word, 2);
  }

  /** Exactly the classes with at most fourteen properties have every set of
      properties read back. */
  lemma FlagsReturnExactly(n: nat)
    ensures (forall present :: |present| == n ==> FlagsReturn(present)) <==> n <= 14
  {
    if n <= 14 {
      forall present: seq<bool> | |present| == n
        ensures FlagsReturn(present)
      {
        OneWordFits(present);
        var octets := WordOctets([OneWord(present)]);
        OneWordOctets(OneWord(present));
        assert octets == octets + [];
        FewFlagsReturn(present, Source(octets, []), []);
      }
    } else {
      FirstIsLost(n);
    }
  }

  // ----- Whole headers -----

  function Presence(props: seq<Option<Value>>): (present: seq<bool>)
    ensures |present| == |props|
  {
    seq(|props|, i requires 0 <= i < |props| => props[i].Some?)
  }

  function PresentTypes(fields: seq<Type>, props: seq<Option<Value>>): (ts: seq<Type>)
    requires |fields| == |props|
    ensures |ts| == |PresentValues(props)|
  {
    if props == [] then []
    else (if props[0].Some? then [fields[0]] else []) + PresentTypes(fields[1..], props[1..])
  }

  function PresentValues(props: seq<Option<Value>>): seq<Value>
  {
    if props == [] then []
    else (if props[0].Some? then [props[0].value] else []) + PresentValues(props[1..])
  }

  function Repeated(t: Type, n: nat): (ts: seq<Type>)
    ensures |ts| == n
  {
    seq(n, i => t)
  }

  function Numbers(words: seq<nat>): (vs: seq<Value>)
    ensures |vs| == |words|
  {
    seq(|words|, i requires 0 <= i < |words| => Number(words[i]))
  }

  function NumbersAndThen(ts: seq<Type>): seq<Type>
  {
    [Unsigned(2)] + ([Unsigned(2)] + ([Unsigned(8)] + ts))
  }

  function NumberedBy(h: Header, vs: seq<Value>): seq<Value>
  {
    [Number(h.klass)] + ([Number(h.weight)] + ([Number(h.size)] + vs))
  }

  /** Class, weight, size, flag words, properties, in this order. */
  function EncodedLegacy(fields: seq<Type>, h: Header): Option<Emitted>
    requires |fields| == |h.properties|
  {
    var words := FlagWords(Presence(h.properties), 0, 0);
    if words.None? then None
    else
      EncodedItems(NumbersAndThen(Repeated(Unsigned(2), |words.value|) + PresentTypes(fields, h.properties)),
                   NumberedBy(h, Numbers(words.value) + PresentValues(h.properties)), [])
  }

  /** `zip(bits, klass.fields)`: fields beyond the bits are absent. */
  function DecodedProperties(fields: seq<Type>, bits: seq<bool>, d: Source): Option<(seq<Option<Value>>, Source)>
    decreases |fields|
  {
    if fields == [] then Some(([], d))
    else
      var on := bits != [] && bits[0];
      var v := if on then Decoded(fields[0], d) else Some((Null, d));
      var vs := if v.None? then None
                else DecodedProperties(fields[1..], if bits == [] then [] else bits[1..], v.value.1);
      if vs.None? then None else Some(([if on then Some(v.value.0) else None] + vs.value.0, vs.value.1))
  }

  /** `classes` is the protocol's table of classes by id. */
  function DecodedLegacy(classes: map<nat, seq<Type>>, d: Source): Option<(Header, Source)>
  {
    var klass := GetNumber(d, 2);
    if klass.None? || klass.value.0 !in classes then None
    else
      var weight := GetNumber(klass.value.1, 2);
      var size := if weight.None? then None else GetNumber(weight.value.1, 8);
      var bits := if size.None? then None else ReadFlags(size.value.1);
      var props := if bits.None? then None else DecodedProperties(classes[klass.value.0], bits.value.0, bits.value.1);
      if props.None? then None
      else Some((Header(klass.value.0, weight.value.0, size.value.0, props.value.0), props.value.1))
  }

  function BackProperties(fields: seq<Type>, props: seq<Option<Value>>): seq<Option<Value>>
    requires |fields| == |props|
  {
    seq(|props|, i requires 0 <= i < |props| => if props[i].None? then None else Some(Back(fields[i], props[i].value)))
  }

  lemma DecodedFirst(t: Type, ts: seq<Type>, d: Source)
    ensures DecodedItems([t] + ts, d)
            == var v := Decoded(t, d);
               var vs := if v.None? then None else DecodedItems(ts, v.value.1);
               if vs.None? then None else Some(([v.value.0] + vs.value.0, vs.value.1))
  {
    assert ([t] + ts)[1..] == ts;
  }

  /** Reading the present properties one by one puts each in its own place. */
  lemma {:induction false} PropertiesReturn(fields: seq<Type>, props: seq<Option<Value>>, bits: seq<bool>, d: Source,
      after: Source)
    requires |fields| == |props| && |bits| >= |props|
    requires forall i :: 0 <= i < |props| ==> bits[i] == props[i].Some?
    requires DecodedItems(PresentTypes(fields, props), d)
             == Some((BackItems(PresentTypes(fields, props), PresentValues(props)), after))
    ensures DecodedProperties(fields, bits, d) == Some((BackProperties(fields, props), after))
    decreases |fields|
  {
    if fields == [] {
      assert BackProperties(fields, props) == [];
    } else {
      var ts, vs := PresentTypes(fields[1..], props[1..]), PresentValues(props[1..]);
      var back := BackProperties(fields[1..], props[1..]);
      if props[0].Some? {
        var t, v := fields[0], props[0].value;
        DecodedFirst(t, ts, d);
        assert ([t] + ts)[1..] == ts && ([v] + vs)[1..] == vs;
        assert BackItems([t] + ts, [v] + vs) == [Back(t, v)] + BackItems(ts, vs);
        var first := Decoded(t, d).value;
        var rest := DecodedItems(ts, first.1).value.0;
        assert ([first.0] + rest)[1..] == rest && ([Back(t, v)] + BackItems(ts, vs))[1..] == BackItems(ts, vs);
        PropertiesReturn(fields[1..], props[1..], bits[1..], first.1, after);
        assert BackProperties(fields, props) == [Some(Back(t, v))] + back;
      } else {
        assert [] + ts == ts && [] + vs == vs;
        PropertiesReturn(fields[1..], props[1..], bits[1..], d, after);
        assert BackProperties(fields, props) == [None] + back;
      }
    }
  }

  lemma {:induction false} KnownPresent(fields: seq<Type>, props: seq<Option<Value>>)
    requires |fields| == |props| && AllKnownSizes(fields)
    ensures AllKnownSizes(PresentTypes(fields, props))
  {
    if props != [] {
      KnownPresent(fields[1..], props[1..]);
      var ts := PresentTypes(fields[1..], props[1..]);
      assert ([fields[0]] + ts)[1..] == ts && [] + ts == ts;
    }
  }

  lemma EncodedFirst(n: nat, width: nat, ts: seq<Type>, vs: seq<Value>)
    requires |ts| == |vs|
    ensures EncodedItems([Unsigned(width)] + ts, [Number(n)] + vs, [])
            == var rest := if n < Pow256(width) then EncodedItems(ts, vs, []) else None;
               if rest.None? then None else Some(Emitted(Pack(n, width) + rest.value.octets, rest.value.bits))
  {
    assert ([Unsigned(width)] + ts)[1..] == ts && ([Number(n)] + vs)[1..] == vs;
  }

  function NumbersThen(h: Header, word: nat, tail: seq<Octet>): seq<Octet>
  {
    Pack(h.klass, 2) + (Pack(h.weight, 2) + (Pack(h.size, 8) + (Pack(word, 2) + tail)))
  }

  lemma NumbersAssociate(h: Header, word: nat, a: seq<Octet>, b: seq<Octet>)
    ensures NumbersThen(h, word, a) + b == NumbersThen(h, word, a + b)
  {
    var s1 := Pack(word, 2) + a;
    var s2 := Pack(h.size, 8) + s1;
    var s3 := Pack(h.weight, 2) + s2;
    Associate(Pack(word, 2), a, b);
    Associate(Pack(h.size, 8), s1, b);
    Associate(Pack(h.weight, 2), s2, b);
    Associate(Pack(h.klass, 2), s3, b);
  }

  lemma FourEncoded(h: Header, word: nat, ts: seq<Type>, vs: seq<Value>)
    requires |ts| == |vs| && word < Pow256(2)
    requires EncodedItems(NumbersAndThen([Unsigned(2)] + ts), NumberedBy(h, [Number(word)] + vs), []).Some?
    ensures h.klass < Pow256(2) && h.weight < Pow256(2) && h.size < Pow256(8) && EncodedItems(ts, vs, []).Some?
    ensures var e := EncodedItems(ts, vs, []).value;
            EncodedItems(NumbersAndThen([Unsigned(2)] + ts), NumberedBy(h, [Number(word)] + vs), [])
                == Some(Emitted(NumbersThen(h, word, e.octets), e.bits))
  {
    var ts1, vs1 := [Unsigned(2)] + ts, [Number(word)] + vs;
    var ts2, vs2 := [Unsigned(8)] + ts1, [Number(h.size)] + vs1;
    EncodedFirst(word, 2, ts, vs);
    EncodedFirst(h.size, 8, ts1, vs1);
    EncodedFirst(h.weight, 2, ts2, vs2);
    EncodedFirst(h.klass, 2, [Unsigned(2)] + ts2, [Number(h.weight)] + vs2);
  }

  /** Four numbers and then the properties. */
  lemma LegacyLayout(fields: seq<Type>, h: Header)
    requires |fields| == |h.properties| <= 14 && EncodedLegacy(fields, h).Some?
    ensures h.klass < Pow256(2) && h.weight < Pow256(2) && h.size < Pow256(8)
    ensures var word := OneWord(Presence(h.properties));
            var e := EncodedItems(PresentTypes(fields, h.properties), PresentValues(h.properties), []);
            && word < Pow256(2) && e.Some?
            && EncodedLegacy(fields, h)
               == Some(Emitted(NumbersThen(h, word, e.value.octets), e.value.bits))
  {
    var word := OneWord(Presence(h.properties));
    var ts, vs := PresentTypes(fields, h.properties), PresentValues(h.properties);
    OneWordFits(Presence(h.properties));
    assert Pow256(2) == 256 * Pow256(1) && Pow256(1) == 256 * Pow256(0);
    assert Repeated(Unsigned(2), 1) == [Unsigned(2)] && Numbers([word]) == [Number(word)];
    FourEncoded(h, word, ts, vs);
  }

  /** Reading the four numbers. */
  lemma NumbersReturn(classes: map<nat, seq<Type>>, h: Header, word: nat, tail: seq<Octet>)
    requires h.klass in classes && h.klass < Pow256(2) && h.weight < Pow256(2) && h.size < Pow256(8)
    requires word < Pow256(2) && !Bit(word, 0)
    ensures DecodedLegacy(classes, Source(NumbersThen(h, word, tail), []))
            == var props := DecodedProperties(classes[h.klass], WordBits(word), Source(tail, []));
               if props.None? then None else Some((h.(properties := props.value.0), props.value.1))
  {
    var d4 := Pack(word, 2) + tail;
    var d3 := Pack(h.size, 8) + d4;
    var d2 := Pack(h.weight, 2) + d3;
    NumberBack(Source(NumbersThen(h, word, tail), []), h.klass, 2, d2);
    NumberBack(Source(d2, []), h.weight, 2, d3);
    NumberBack(Source(d3, []), h.size, 8, d4);
    NumberBack(Source(d4, []), word, 2, tail);
  }

  /** Reading the properties whose flags are set. */
  lemma FlaggedReturn(fields: seq<Type>, props: seq<Option<Value>>, rest: seq<Octet>)
    requires |fields| == |props| <= 14 && AllKnownSizes(fields)
    requires EncodedItems(PresentTypes(fields, props), PresentValues(props), []).Some?
    ensures var e := EncodedItems(PresentTypes(fields, props), PresentValues(props), []).value;
            var r := DecodedProperties(fields, WordBits(OneWord(Presence(props))),
                                       Source((e.octets + BitOctets(e.bits)) + rest, []));
            r.Some? && r.value.0 == BackProperties(fields, props) && r.value.1.input == rest
  {
    var ts, vs := PresentTypes(fields, props), PresentValues(props);
    var e := EncodedItems(ts, vs, []).value;
    var d := Source((e.octets + BitOctets(e.bits)) + rest, []);
    KnownPresent(fields, props);
    SequencesReturn(ts, vs, rest);
    OneWordBits(Presence(props));
    var bits := WordBits(OneWord(Presence(props)));
    forall i | 0 <= i < |props|
      ensures bits[i] == props[i].Some?
    {
      assert Shown(bits, |props|)[i] == Presence(props)[i];
    }
    PropertiesReturn(fields, props, bits, d, DecodedItems(ts, d).value.1);
  }

  /** Every header of a class with at most fourteen properties, whichever of them
      it has, comes back from its octets and leaves what follows. */
  lemma HeaderReturns(classes: map<nat, seq<Type>>, h: Header, rest: seq<Octet>)
    requires h.klass in classes && |classes[h.klass]| == |h.properties| <= 14 && AllKnownSizes(classes[h.klass])
    requires EncodedLegacy(classes[h.klass], h).Some?
    ensures var fields := classes[h.klass];
            var e := EncodedLegacy(fields, h).value;
            var r := DecodedLegacy(classes, Source((e.octets + BitOctets(e.bits)) + rest, []));
            r.Some? && r.value.0 == h.(properties := BackProperties(fields, h.properties)) && r.value.1.input == rest
  {
    var fields := classes[h.klass];
    var word := OneWord(Presence(h.properties));
    LegacyLayout(fields, h);
    OneWordBits(Presence(h.properties));
    var e := EncodedItems(PresentTypes(fields, h.properties), PresentValues(h.properties), []).value;
    var tail := (e.octets + BitOctets(e.bits)) + rest;
    NumbersAssociate(h, word, e.octets, BitOctets(e.bits));
    NumbersAssociate(h, word, e.octets + BitOctets(e.bits), rest);
    NumbersReturn(classes, h, word, tail);
    FlaggedReturn(fields, h.properties, rest);
  }

  // ----- What stands in the octets -----

  /** The one word of at most fourteen properties: property `i` is bit `15 - i`, and
      the bits below are 0. */
  lemma FlagPositions(present: seq<bool>)
    requires |present| <= 14
    ensures FlagWords(present, 0, 0).Some? && |FlagWords(present, 0, 0).value| == 1
    ensures var word := FlagWords(present, 0, 0).value[0];
            word < 65536 && forall j {:trigger Bit(word, j)} :: 0 <= j <= 15 ==>
              (Bit(word, j) <==> 15 - j < |present| && present[15 - j])
  {
    OneWordFits(present);
    var word, n := OneWord(present), |present|;
    forall j {:trigger Bit(word, j)} | 0 <= j <= 15
      ensures Bit(word, j) <==> 15 - j < n && present[15 - j]
    {
      if n == 0 {
        BitOfZero(j);
      } else {
        BitOfShift(HighFirst(present), 16 - n, j);
        if j >= 16 - n {
          BitOfHighFirst(present, j - (16 - n));
        }
      }
    }
  }

  /** Class and weight in two octets each, the size in eight, then the flags. */
  lemma HeaderOctets(fields: seq<Type>, h: Header)
    requires |fields| == |h.properties| <= 14 && EncodedLegacy(fields, h).Some?
    ensures var octets := EncodedLegacy(fields, h).value.octets;
            && |octets| >= 14
            && Unpack(octets[0..2]) == h.klass && Unpack(octets[2..4]) == h.weight && Unpack(octets[4..12]) == h.size
            && FlagWords(Presence(h.properties), 0, 0) == Some([Unpack(octets[12..14])])
  {
    LegacyLayout(fields, h);
    OneWordFits(Presence(h.properties));
    var word := OneWord(Presence(h.properties));
    var tail := EncodedItems(PresentTypes(fields, h.properties), PresentValues(h.properties), []).value.octets;
    var octets := NumbersThen(h, word, tail);
    var d4 := Pack(word, 2) + tail;
    var d3 := Pack(h.size, 8) + d4;
    var d2 := Pack(h.weight, 2) + d3;
    ReadNumber(h.klass, 2, d2);
    ReadNumber(h.weight, 2, d3);
    ReadNumber(h.size, 8, d4);
    ReadNumber(word, 2, tail);
    assert octets[0..2] == octets[..2] && octets[2..] == d2 && octets[4..] == d2[2..] == d3;
    assert octets[12..] == d3[8..] == d4;
    assert octets[2..4] == d2[..2] && octets[4..12] == d3[..8] && octets[12..14] == d4[..2];
  }
}
