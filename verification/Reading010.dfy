/** What the AMQP 0-10 codec makes of any octets, also of those that no writer
    produced (qpid/python/qpid/codec010.py). */
module Reading010 {
  import opened Wrappers
  import opened Sequences
  import opened Octets
  import opened Serials
  import opened RangedSets
  import opened Codec010

  // ----- Reading goes forward -----

  /** The octets that are left are the end of those that were there. */
  predicate Suffix(rest: seq<Octet>, b: seq<Octet>)
  {
    |rest| <= |b| && rest == b[|b| - |rest|..]
  }

  lemma SuffixOfSuffix(c: seq<Octet>, b: seq<Octet>, a: seq<Octet>)
    requires Suffix(c, b) && Suffix(b, a)
    ensures Suffix(c, a)
  {
  }

  lemma {:induction false} RangesGoForward(count: nat, b: seq<Octet>, sofar: seq<Range>)
    ensures var r := ReadRanges(count, b, sofar);
            && (r.Some? <==> |b| >= 8 * count)
            && (r.Some? ==> r.value.1 == b[8 * count..])
    decreases count
  {
    if count > 0 && |b| >= 8 {
      PowFour();
      RangesGoForward(count - 1, b[8..], Insert(sofar, Range(Unpack(b[..4]), Unpack(b[4..8]))));
      if |b| >= 8 * count {
        assert b[8..][8 * (count - 1)..] == b[8 * count..];
      }
    }
  }

  lemma {:induction false} ReadGoesForward(t: Tables, p: Prim, b: seq<Octet>)
    ensures var r := Read(t, p, b);
            r.Some? ==> Suffix(r.value.1, b)
    decreases |b|, 0, 0, 0
  {
    if Read(t, p, b).Some? {
      if p.Struct32? {
        PowFour();
        var code: Short := Unpack(b[4..6]);
        RecordGoesForward(t, t.compounds[code], b[6..]);
        SuffixOfSuffix(Read(t, p, b).value.1, b[6..], b);
      } else if p.SequenceSet? {
        SetGoesForward(b);
      } else {
        PlainGoesForward(t, p, b);
      }
    }
  }

  lemma SetGoesForward(b: seq<Octet>)
    ensures var r := ReadSet(b);
            r.Some? ==> Suffix(r.value.1, b)
  {
    if ReadSet(b).Some? {
      RangesGoForward(Unpack(b[..2]) / 8, b[2..], []);
      SuffixOfSuffix(ReadSet(b).value.1, b[2..], b);
    }
  }

  lemma BinGoesForward(b: seq<Octet>, w: nat)
    ensures var r := ReadBin(b, w);
            r.Some? ==> Suffix(r.value.1, b)
  {
  }

  lemma PlainGoesForward(t: Tables, p: Prim, b: seq<Octet>)
    requires !p.Struct32? && !p.SequenceSet? && Read(t, p, b).Some?
    ensures Suffix(Read(t, p, b).value.1, b)
  {
    match p
    case Bin(w) => BinGoesForward(b, w);
    case Utf(w) => BinGoesForward(b, w);
    case List => BinGoesForward(b, 4);
    case Map => BinGoesForward(b, 4);
    case Array => BinGoesForward(b, 4);
    case _ =>
  }

  lemma {:induction false} RecordGoesForward(t: Tables, s: Struct, b: seq<Octet>)
    ensures var r := ReadRecord(t, s, b);
            r.Some? ==> Suffix(r.value.1, b)
    decreases |b|, Depth(s), 1, 0
  {
    if ReadRecord(t, s, b).Some? {
      FieldsGoForward(t, s, LittleValue(b[..s.pack]), 0, b[s.pack..]);
      SuffixOfSuffix(ReadRecord(t, s, b).value.1, b[s.pack..], b);
    }
  }

  lemma {:induction false} FieldsGoForward(t: Tables, s: Struct, flags: nat, i: nat, b: seq<Octet>)
    requires i <= |s.fields|
    ensures var r := ReadFields(t, s, flags, i, b);
            r.Some? ==> Suffix(r.value.1, b)
    decreases |b|, Depth(s), 0, |s.fields| - i
  {
    var r := ReadFields(t, s, flags, i, b);
    if r.Some? && i < |s.fields| {
      if Bit(flags, i) {
        FieldIsShallower(s.fields, i);
        var v := ReadField(t, s.fields[i], b);
        FieldGoesForward(t, s.fields[i], b);
        FieldsGoForward(t, s, flags, i + 1, v.value.1);
        SuffixOfSuffix(r.value.1, v.value.1, b);
      } else {
        FieldsGoForward(t, s, flags, i + 1, b);
      }
    }
  }

  lemma {:induction false} FieldGoesForward(t: Tables, f: FieldType, b: seq<Octet>)
    ensures var r := ReadField(t, f, b);
            r.Some? ==> Suffix(r.value.1, b)
    decreases |b|, if f.Plain? then 0 else Depth(f.struct), 3, 0
  {
    if f.Plain? {
      ReadGoesForward(t, f.prim, b);
    } else {
      CompoundGoesForward(t, f.struct, b);
    }
  }

  lemma {:induction false} CompoundGoesForward(t: Tables, s: Struct, b: seq<Octet>)
    ensures var r := ReadCompound(t, s, b);
            r.Some? ==> Suffix(r.value.1, b)
    decreases |b|, Depth(s), 2, 0
  {
    var r := ReadCompound(t, s, b);
    if r.Some? {
      var n := s.size + if s.code.None? then 0 else 2;
      assert b[n..] == b[s.size..][n - s.size..];
      RecordGoesForward(t, s, b[n..]);
      SuffixOfSuffix(r.value.1, b[n..], b);
    }
  }

  // ----- What is taken, and what is refused -----

  lemma BinTells(b: seq<Octet>, w: nat)
    requires |b| >= w
    ensures var n, left := Unpack(b[..w]), |b| - w;
            ReadBin(b, w) == Some(if n <= left then (b[w..w + n], b[w + n..]) else (b[w..], []))
  {
    var n := Unpack(b[..w]);
    if n <= |b| - w {
      assert b[w..][..n] == b[w..w + n] && b[w..][n..] == b[w + n..];
    }
  }

  /** Strings: as many octets as their length says, or all that are left if there
      are fewer; text must be utf8. */
  lemma StringsTell(t: Tables, b: seq<Octet>, w: nat)
    ensures |b| < w ==> Read(t, Bin(w), b).None? && Read(t, Utf(w), b).None?
    ensures |b| >= w ==>
      var n, left := Unpack(b[..w]), |b| - w;
      var s, rest := (if n <= left then b[w..w + n] else b[w..]), (if n <= left then b[w + n..] else []);
      && Read(t, Bin(w), b) == Some((Bytes(s), rest))
      && Read(t, Utf(w), b) == if t.utf8(s) then Some((Chars(s), rest)) else None
  {
    if |b| >= w {
      BinTells(b, w);
    }
  }

  /** Any octet but 0 is true. */
  lemma BooleansTell(t: Tables, b: seq<Octet>)
    ensures Read(t, Boolean, b) == if b == [] then None else Some((Flag(b[0] > 0), b[1..]))
  {
    if b != [] {
      assert b[..1] == [b[0]] && Unpack([b[0]]) == b[0];
    }
  }

  /** A compound that announces another class than the one expected, and a struct of
      no known class, are refused. */
  lemma CodesAreChecked(t: Tables, s: Struct, b: seq<Octet>)
    ensures ReadCompound(t, s, b).Some? && s.code.Some? ==>
      |b| >= s.size + 2 && Unpack(b[s.size..s.size + 2]) == s.code.value
    ensures Read(t, Struct32, b).Some? ==>
      |b| >= 6 && Unpack(b[4..6]) in t.compounds && Read(t, Struct32, b).value.0.Record?
      && Read(t, Struct32, b).value.0.struct == t.compounds[Unpack(b[4..6])]
  {
    if ReadCompound(t, s, b).Some? && s.code.Some? {
      assert b[s.size..][..2] == b[s.size..s.size + 2];
    }
    if |b| >= 6 {
      PowFour();
    }
  }

  /** The size of a set that is no multiple of eight leaves octets behind. */
  lemma SetsTell(b: seq<Octet>)
    requires |b| >= 2
    ensures var count := Unpack(b[..2]) / 8;
            && (ReadSet(b).Some? <==> |b| >= 2 + 8 * count)
            && (ReadSet(b).Some? ==> ReadSet(b).value.1 == b[2 + 8 * count..])
  {
    var count := Unpack(b[..2]) / 8;
    RangesGoForward(count, b[2..], []);
    if |b| >= 2 + 8 * count {
      assert b[2..][8 * count..] == b[2 + 8 * count..];
    }
  }

  lemma {:induction false} FieldsTell(t: Tables, s: Struct, flags: nat, i: nat, b: seq<Octet>, k: nat)
    requires i <= k < |s.fields| && ReadFields(t, s, flags, i, b).Some?
    ensures var v := ReadFields(t, s, flags, i, b).value.0[k - i];
            && (s.fields[k] == Plain(BitFlag) ==> v == Flag(Bit(flags, k)))
            && (s.fields[k] != Plain(BitFlag) && !Bit(flags, k) ==> v == Null)
    decreases k - i
  {
    var f := s.fields[i];
    assert Read(t, BitFlag, b) == Some((Flag(true), b));
    if i < k {
      FieldIsShallower(s.fields, i);
      var v: Reading := if Bit(flags, i) then ReadField(t, f, b) else Some((Default(f), b));
      FieldsTell(t, s, flags, i + 1, v.value.1, k);
    }
  }

  /** Of any record that can be read, a bit field is the bit of its flag and a field
      whose flag is not set is None: flag `8 * k + j` is bit `j` of octet `k`. */
  lemma RecordsTell(t: Tables, s: Struct, b: seq<Octet>, k: nat, j: nat)
    requires ReadRecord(t, s, b).Some? && k < s.pack && j < 8 && 8 * k + j < |s.fields|
    ensures |b| >= s.pack
    ensures var r, i := ReadRecord(t, s, b).value.0, 8 * k + j;
            && r.Record? && r.struct == s && |r.values| == |s.fields|
            && (s.fields[i] == Plain(BitFlag) ==> r.values[i] == Flag(Bit(b[k], j)))
            && (s.fields[i] != Plain(BitFlag) && !Bit(b[k], j) ==> r.values[i] == Null)
  {
    var flags := LittleValue(b[..s.pack]);
    LittleOctetsOfValue(b[..s.pack]);
    BitOfLittle(flags, s.pack, k, j);
    FieldsTell(t, s, flags, 0, b[s.pack..], 8 * k + j);
  }

  // ----- Keys that come again -----

  function PutAll(sofar: seq<Entry>, es: seq<Entry>): seq<Entry>
    decreases |es|
  {
    if es == [] then sofar else PutAll(Put(sofar, es[0].key, es[0].value), es[1..])
  }

  ghost predicate NoKey(es: seq<Entry>, k: seq<Octet>)
  {
    forall j :: 0 <= j < |es| ==> es[j].key != k
  }

  /** `e` is among the entries, and its key does not come again after it. */
  ghost predicate Latest(es: seq<Entry>, e: Entry)
  {
    exists i :: 0 <= i < |es| && es[i] == e && NoKey(es[i + 1..], e.key)
  }

  lemma LatestStep(es: seq<Entry>, e: Entry)
    requires es != []
    ensures Latest(es, e) <==> Latest(es[1..], e) || (es[0] == e && NoKey(es[1..], e.key))
    ensures NoKey(es, e.key) <==> es[0].key != e.key && NoKey(es[1..], e.key)
  {
    var more := es[1..];
    if Latest(es, e) {
      var i :| 0 <= i < |es| && es[i] == e && NoKey(es[i + 1..], e.key);
      if i > 0 {
        assert more[i - 1] == e && more[i - 1 + 1..] == es[i + 1..];
      }
    }
    if Latest(more, e) {
      var i :| 0 <= i < |more| && more[i] == e && NoKey(more[i + 1..], e.key);
      assert es[i + 1] == e && es[i + 1 + 1..] == more[i + 1..];
    }
    if es[0].key != e.key && NoKey(more, e.key) {
      assert forall j :: 0 < j < |es| ==> es[j] == more[j - 1];
    }
    if NoKey(es, e.key) {
      assert forall j :: 0 <= j < |more| ==> more[j] == es[j + 1];
    }
  }

  /** Assigning to a key of a dict. */
  lemma {:induction false} PutTells(entries: seq<Entry>, k: seq<Octet>, v: Value, e: Entry)
    requires DistinctKeys(entries)
    ensures e in Put(entries, k, v) <==> e == Entry(k, v) || (e in entries && e.key != k)
  {
    if entries != [] {
      var rest := entries[1..];
      assert entries == [entries[0]] + rest;
      assert forall j :: 0 <= j < |rest| ==> rest[j] == entries[j + 1];
      if entries[0].key != k {
        PutTells(rest, k, v, e);
      }
    }
  }

  lemma {:induction false} PutKeepsDistinct(entries: seq<Entry>, k: seq<Octet>, v: Value)
    requires DistinctKeys(entries)
    ensures DistinctKeys(Put(entries, k, v))
  {
    if entries != [] {
      var first, rest := entries[0], entries[1..];
      assert forall j :: 0 <= j < |rest| ==> rest[j] == entries[j + 1];
      if first.key != k {
        PutKeepsDistinct(rest, k, v);
        var put := Put(rest, k, v);
        forall j | 0 <= j < |put|
          ensures put[j].key != first.key
        {
          PutTells(rest, k, v, put[j]);
        }
      }
    }
  }

  lemma {:induction false} PutAllTells(sofar: seq<Entry>, es: seq<Entry>, e: Entry)
    requires DistinctKeys(sofar)
    ensures DistinctKeys(PutAll(sofar, es))
    ensures e in PutAll(sofar, es) <==> Latest(es, e) || (e in sofar && NoKey(es, e.key))
    decreases |es|
  {
    if es != [] {
      PutKeepsDistinct(sofar, es[0].key, es[0].value);
      PutTells(sofar, es[0].key, es[0].value, e);
      PutAllTells(Put(sofar, es[0].key, es[0].value), es[1..], e);
      LatestStep(es, e);
    }
  }

  lemma {:induction false} EntriesRead(t: Tables, sofar: seq<Entry>, kvs: seq<Entry>)
    requires Consistent(t) && SoundEntries(t, kvs) && WriteEntries(t, kvs).Some?
    ensures ReadEntries(t, WriteEntries(t, kvs).value, sofar) == Some(PutAll(sofar, BackEntries(kvs)))
    decreases |kvs|
  {
    if kvs != [] {
      var e := kvs[0];
      var p := EncodingOf(e.value).value;
      var key, code := WriteBin(e.key, 1).value, WriteCode(t, Some(p)).value;
      var first, more := Write(t, p, e.value).value, WriteEntries(t, kvs[1..]).value;
      Associate(key + code, first, more);
      Associate(key, code, first + more);
      RoundTrip(t, p, e.value, more);
      BinBack(e.key, 1, code + (first + more));
      CodeBack(t, p, first + more);
      EntriesRead(t, Put(sofar, e.key, Back(p, e.value)), kvs[1..]);
      assert BackEntries(kvs)[1..] == BackEntries(kvs[1..]);
    }
  }

  /** Entries whose keys come again, which a dict does not have but octets may: what
      is read has every key once, and with it the value that came last. */
  lemma RepeatedKeys(t: Tables, kvs: seq<Entry>, e: Entry)
    requires Consistent(t) && SoundEntries(t, kvs) && WriteEntries(t, kvs).Some?
    ensures var r := ReadEntries(t, WriteEntries(t, kvs).value, []);
            && r.Some? && DistinctKeys(r.value)
            && (e in r.value <==> Latest(BackEntries(kvs), e))
  {
    EntriesRead(t, [], kvs);
    PutAllTells([], BackEntries(kvs), e);
  }
}
