/** Several channels on one connection: when the op decoder, which files an open
    op by its track alone, gives every channel its ops back
    (qpid/python/qpid/framing.py:244-313). */
module Channels {
  import opened Wrappers
  import opened Sequences
  import opened Octets
  import opened Codec010
  import opened Framing
  import opened Ops

  function Place(seg: Segment): Key
  {
    Key(seg.channel, seg.track)
  }

  /** The ops of one channel and track, in order. */
  function OpsAt(ops: seq<Op>, k: Key): seq<Op>
  {
    if ops == [] then []
    else (if Key(ops[0].channel, ops[0].Track()) == k then [ops[0]] else []) + OpsAt(ops[1..], k)
  }

  /** The delivered ops of one channel and track, in order. */
  function DecodedAt(ops: seq<Option<Op>>, k: Key): seq<Option<Op>>
  {
    if ops == [] then []
    else
      (if ops[0].Some? && Key(ops[0].value.channel, ops[0].value.Track()) == k then [ops[0]] else [])
      + DecodedAt(ops[1..], k)
  }

  /** For each channel and track, `segs` holds the whole segments of its ops, in order. */
  ghost predicate CarriesEach(spec: Spec, segs: seq<Segment>, ops: seq<Op>)
  {
    forall k: Key :: EncodeAll(spec, OpsAt(ops, k)).Some?
                     && SegmentsOf(segs, k) == EncodeAll(spec, OpsAt(ops, k)).value
  }

  /** No segment that opens an op arrives on a track where one is open already;
      `open` holds the tracks whose latest segment was not marked as last. */
  predicate Undisturbed(segs: seq<Segment>, open: set<Octet>)
  {
    segs == [] ||
    (&& (segs[0].first ==> segs[0].track !in open)
     && Undisturbed(segs[1..], if segs[0].last then open - {segs[0].track} else open + {segs[0].track}))
  }

  // ----- The segments of one op, and of many -----

  /** From the first segment of an op (or from a later one, when `inside`) to its
      last, and no further. */
  predicate Whole(segs: seq<Segment>, inside: bool)
  {
    && segs != []
    && segs[0].first == !inside && OnItsTrack(segs[0])
    && (if |segs| == 1 then segs[0].last else !segs[0].last && Whole(segs[1..], true))
  }

  /** Whole ops, after what is left of one when `inside`. */
  predicate Bracketed(segs: seq<Segment>, inside: bool)
  {
    if segs == [] then !inside
    else segs[0].first == !inside && OnItsTrack(segs[0]) && Bracketed(segs[1..], !segs[0].last)
  }

  /** A segment of op's place that follows the first one, not yet marked as last. */
  predicate Follows(seg: Segment, k: Key)
  {
    Place(seg) == k && !seg.first && !seg.last && OnItsTrack(seg)
  }

  predicate AllPlaced(segs: seq<Segment>, k: Key)
  {
    forall i :: 0 <= i < |segs| ==> Place(segs[i]) == k
  }

  lemma {:induction false} TailIsWhole(tail: seq<Segment>, k: Key)
    requires tail != [] && forall i :: 0 <= i < |tail| ==> Follows(tail[i], k)
    ensures Whole(LastMarked(tail), true) && AllPlaced(LastMarked(tail), k)
  {
    if |tail| > 1 {
      TailIsWhole(tail[1..], k);
      assert LastMarked(tail)[1..] == LastMarked(tail[1..]);
    }
  }

  lemma MarkedIsWhole(first: Segment, tail: seq<Segment>, k: Key)
    requires Place(first) == k && first.first && !first.last && OnItsTrack(first)
    requires forall i :: 0 <= i < |tail| ==> Follows(tail[i], k)
    ensures Whole(LastMarked([first] + tail), false) && AllPlaced(LastMarked([first] + tail), k)
  {
    if tail != [] {
      TailIsWhole(tail, k);
      assert LastMarked([first] + tail) == [first] + LastMarked(tail);
      assert LastMarked([first] + tail)[1..] == LastMarked(tail);
    }
  }

  lemma EncodedIsWhole(spec: Spec, op: Op)
    requires Encode(spec, op).Some?
    ensures Whole(Encode(spec, op).value, false) && AllPlaced(Encode(spec, op).value, Key(op.channel, op.Track()))
  {
    var first, hs, body := FirstSegment(op, EncodeOp(spec, op).value), HeaderSegments(spec, op).value, BodySegments(op);
    var k := Key(op.channel, op.Track());
    assert (forall i :: 0 <= i < |hs| ==> Follows(hs[i], k)) && (forall i :: 0 <= i < |body| ==> Follows(body[i], k));
    MarkedIsWhole(first, hs + body, k);
  }

  lemma {:induction false} WholeThen(segs: seq<Segment>, rest: seq<Segment>, inside: bool)
    requires Whole(segs, inside) && Bracketed(rest, false)
    ensures Bracketed(segs + rest, inside)
  {
    if |segs| == 1 {
      assert (segs + rest)[1..] == rest;
    } else {
      WholeThen(segs[1..], rest, true);
      assert (segs + rest)[1..] == segs[1..] + rest;
    }
  }

  lemma {:induction false} AllBracketed(spec: Spec, ops: seq<Op>)
    requires EncodeAll(spec, ops).Some?
    ensures Bracketed(EncodeAll(spec, ops).value, false)
  {
    if ops != [] {
      EncodedIsWhole(spec, ops[0]);
      AllBracketed(spec, ops[1..]);
      WholeThen(Encode(spec, ops[0]).value, EncodeAll(spec, ops[1..]).value, false);
    }
  }

  // ----- What is decoded was not disturbed -----

  lemma SegmentsOfRest(segs: seq<Segment>, k: Key)
    requires segs != []
    ensures SegmentsOf(segs, k) == if Place(segs[0]) == k then [segs[0]] + SegmentsOf(segs[1..], k)
                                   else SegmentsOf(segs[1..], k)
  {
  }

  lemma NextBracketed(segs: seq<Segment>, k: Key, inside: bool)
    requires segs != [] && Bracketed(SegmentsOf(segs, k), inside)
    ensures if Place(segs[0]) == k
            then segs[0].first == !inside && OnItsTrack(segs[0]) && Bracketed(SegmentsOf(segs[1..], k), !segs[0].last)
            else Bracketed(SegmentsOf(segs[1..], k), inside)
  {
    SegmentsOfRest(segs, k);
    if Place(segs[0]) == k {
      assert ([segs[0]] + SegmentsOf(segs[1..], k))[1..] == SegmentsOf(segs[1..], k);
    }
  }

  lemma Occupied(spec: Spec, d: Decoding, seg: Segment)
    requires OnItsTrack(seg) && DecodeOne(spec, d, seg).Some?
    ensures !seg.first ==> seg.track in d.current
    ensures DecodeOne(spec, d, seg).value.current.Keys
            == if seg.last then d.current.Keys - {seg.track} else d.current.Keys + {seg.track}
  {
  }

  /** More channels are inside an op than the one slot of their track holds:
      sooner or later a segment finds no op. */
  lemma {:induction false} Crowded(spec: Spec, d: Decoding, segs: seq<Segment>, t: Octet, inside: set<Short>)
    requires forall c: Short :: Bracketed(SegmentsOf(segs, Key(c, t)), c in inside)
    requires |inside| > if t in d.current then 1 else 0
    ensures DecodeAll(spec, d, segs).None?
    decreases |segs|
  {
    if segs != [] && DecodeOne(spec, d, segs[0]).Some? {
      var seg, next := segs[0], DecodeOne(spec, d, segs[0]).value;
      var after :=
        if seg.track != t then inside
        else if seg.last then inside - {seg.channel} else inside + {seg.channel};
      forall c: Short
        ensures Bracketed(SegmentsOf(segs[1..], Key(c, t)), c in after)
      {
        NextBracketed(segs, Key(c, t), c in inside);
      }
      if seg.track == t {
        NextBracketed(segs, Place(seg), seg.channel in inside);
        Occupied(spec, d, seg);
      }
      Crowded(spec, next, segs[1..], t, after);
    }
  }

  /** The op open on a track is one channel's, and that channel is inside it. */
  ghost predicate Held(segs: seq<Segment>, holder: map<Octet, Short>)
  {
    forall k: Key :: Bracketed(SegmentsOf(segs, k), k.track in holder && holder[k.track] == k.channel)
  }

  function NextHolder(holder: map<Octet, Short>, seg: Segment): map<Octet, Short>
  {
    if seg.last then holder - {seg.track} else holder[seg.track := seg.channel]
  }

  lemma NextHeld(segs: seq<Segment>, holder: map<Octet, Short>)
    requires segs != [] && Held(segs, holder)
    requires segs[0].first ==> segs[0].track !in holder
    ensures Held(segs[1..], NextHolder(holder, segs[0]))
  {
    forall k: Key
      ensures var h := NextHolder(holder, segs[0]);
              Bracketed(SegmentsOf(segs[1..], k), k.track in h && h[k.track] == k.channel)
    {
      NextBracketed(segs, k, k.track in holder && holder[k.track] == k.channel);
      NextBracketed(segs, Place(segs[0]), segs[0].track in holder && holder[segs[0].track] == segs[0].channel);
    }
  }

  /** A segment opens a second op on its track: both channels are inside, or the
      slot is emptied under the first. */
  lemma Disturbs(spec: Spec, d: Decoding, segs: seq<Segment>, holder: map<Octet, Short>)
    requires segs != [] && Held(segs, holder) && holder.Keys == d.current.Keys
    requires segs[0].first && segs[0].track in holder
    ensures DecodeAll(spec, d, segs).None?
  {
    var seg := segs[0];
    var t, h := seg.track, holder[seg.track];
    NextBracketed(segs, Place(seg), h == seg.channel);
    if DecodeOne(spec, d, seg).Some? {
      var inside := if seg.last then {h} else {h, seg.channel};
      forall c: Short
        ensures Bracketed(SegmentsOf(segs[1..], Key(c, t)), c in inside)
      {
        NextBracketed(segs, Key(c, t), h == c);
      }
      Occupied(spec, d, seg);
      Crowded(spec, DecodeOne(spec, d, seg).value, segs[1..], t, inside);
    }
  }

  lemma {:induction false} DecodedUndisturbed(spec: Spec, d: Decoding, segs: seq<Segment>, holder: map<Octet, Short>)
    requires Held(segs, holder) && holder.Keys == d.current.Keys
    requires DecodeAll(spec, d, segs).Some?
    ensures Undisturbed(segs, holder.Keys)
    decreases |segs|
  {
    if segs != [] {
      var seg := segs[0];
      if seg.first && seg.track in holder {
        Disturbs(spec, d, segs, holder);
      } else {
        NextBracketed(segs, Place(seg), seg.track in holder && holder[seg.track] == seg.channel);
        Occupied(spec, d, seg);
        NextHeld(segs, holder);
        DecodedUndisturbed(spec, DecodeOne(spec, d, seg).value, segs[1..], NextHolder(holder, seg));
        assert NextHolder(holder, seg).Keys
               == if seg.last then holder.Keys - {seg.track} else holder.Keys + {seg.track};
      }
    }
  }

  // ----- What was not disturbed is decoded -----

  lemma {:induction false} UndisturbedOn(segs: seq<Segment>, open: set<Octet>, t: Octet, openOn: set<Octet>)
    requires Undisturbed(segs, open) && (t in open <==> t in openOn)
    ensures Undisturbed(SegmentsOn(segs, t), openOn)
  {
    if segs != [] {
      var seg := segs[0];
      var rest := SegmentsOn(segs[1..], t);
      var next := if seg.last then open - {seg.track} else open + {seg.track};
      if seg.track == t {
        UndisturbedOn(segs[1..], next, t, if seg.last then openOn - {t} else openOn + {t});
        assert SegmentsOn(segs, t) == [seg] + rest && ([seg] + rest)[1..] == rest;
      } else {
        UndisturbedOn(segs[1..], next, t, openOn);
        assert SegmentsOn(segs, t) == rest;
      }
    }
  }

  lemma {:induction false} TrackOfPlace(segs: seq<Segment>, k: Key)
    ensures SegmentsOf(SegmentsOn(segs, k.track), k) == SegmentsOf(segs, k)
  {
    if segs != [] {
      var rest := SegmentsOn(segs[1..], k.track);
      TrackOfPlace(segs[1..], k);
      if segs[0].track == k.track {
        assert SegmentsOn(segs, k.track) == [segs[0]] + rest && ([segs[0]] + rest)[1..] == rest;
      } else {
        assert SegmentsOn(segs, k.track) == rest;
      }
    }
  }

  /** Nothing is left, or an op begins. */
  predicate Begins(segs: seq<Segment>)
  {
    segs != [] ==> segs[0].first
  }

  function Open(inside: bool, t: Octet): set<Octet>
  {
    if inside then {t} else {}
  }

  /** The next segment of an undisturbed track belongs to the channel that holds it. */
  lemma HolderIsNext(segs: seq<Segment>, k: Key, op: seq<Segment>, rest: seq<Segment>, inside: bool)
    requires forall i :: 0 <= i < |segs| ==> segs[i].track == k.track
    requires op != [] && SegmentsOf(segs, k) == op + rest
    requires forall c: Short :: c != k.channel ==> Begins(SegmentsOf(segs, Key(c, k.track)))
    requires Undisturbed(segs, Open(inside, k.track))
    requires inside || (segs != [] && segs[0].channel == k.channel)
    ensures segs != [] && Place(segs[0]) == k && segs[0] == op[0] && SegmentsOf(segs[1..], k) == op[1..] + rest
  {
    assert segs != [];
    SegmentsOfRest(segs, Place(segs[0]));
    assert segs[0].channel == k.channel;
    SegmentsOfRest(segs, k);
    assert ([segs[0]] + SegmentsOf(segs[1..], k))[1..] == SegmentsOf(segs[1..], k);
    assert segs[0] == (op + rest)[0];
    assert (op + rest)[1..] == op[1..] + rest;
  }

  lemma OthersStay(segs: seq<Segment>, k: Key)
    requires segs != [] && Place(segs[0]) == k
    ensures forall c: Short :: c != k.channel ==>
        SegmentsOf(segs[1..], Key(c, k.track)) == SegmentsOf(segs, Key(c, k.track))
  {
    forall c: Short | c != k.channel
      ensures SegmentsOf(segs[1..], Key(c, k.track)) == SegmentsOf(segs, Key(c, k.track))
    {
      SegmentsOfRest(segs, Key(c, k.track));
    }
  }

  lemma StillUndisturbed(segs: seq<Segment>, t: Octet, inside: bool)
    requires segs != [] && segs[0].track == t && Undisturbed(segs, Open(inside, t))
    ensures Undisturbed(segs[1..], Open(!segs[0].last, t))
  {
    var open := Open(inside, t);
    assert open - {t} == {} && open + {t} == {t};
  }

  /** While its op is open on an undisturbed track, a channel has the track to itself. */
  lemma {:induction false} Together(segs: seq<Segment>, k: Key, op: seq<Segment>, rest: seq<Segment>, inside: bool)
      returns (after: seq<Segment>)
    requires forall i :: 0 <= i < |segs| ==> segs[i].track == k.track
    requires Whole(op, inside) && SegmentsOf(segs, k) == op + rest
    requires forall c: Short :: c != k.channel ==> Begins(SegmentsOf(segs, Key(c, k.track)))
    requires Undisturbed(segs, Open(inside, k.track))
    requires inside || (segs != [] && segs[0].channel == k.channel)
    ensures segs == op + after && Undisturbed(after, {}) && SegmentsOf(after, k) == rest
    ensures forall c: Short :: c != k.channel ==>
        SegmentsOf(after, Key(c, k.track)) == SegmentsOf(segs, Key(c, k.track))
    decreases |op|
  {
    HolderIsNext(segs, k, op, rest, inside);
    OthersStay(segs, k);
    StillUndisturbed(segs, k.track, inside);
    assert segs == [segs[0]] + segs[1..] && op == [op[0]] + op[1..];
    if |op| == 1 {
      after := segs[1..];
      assert [] + rest == rest;
    } else {
      after := Together(segs[1..], k, op[1..], rest, true);
      Associate([segs[0]], op[1..], after);
    }
  }

  /** Each channel's ops on one track. */
  ghost predicate Apart(spec: Spec, segs: seq<Segment>, t: Octet, ops: Short -> seq<Op>)
  {
    && (forall i :: 0 <= i < |segs| ==> segs[i].track == t)
    && (forall c: Short :: EncodeAll(spec, ops(c)).Some?
                           && SegmentsOf(segs, Key(c, t)) == EncodeAll(spec, ops(c)).value)
    && (forall c: Short :: AllSound(spec, ops(c)) && OpsAt(ops(c), Key(c, t)) == ops(c))
  }

  /** What one channel still has to send when it has sent its first op. */
  function Without(ops: Short -> seq<Op>, c: Short): Short -> seq<Op>
    requires ops(c) != []
  {
    (x: Short) => if x == c then ops(c)[1..] else ops(x)
  }

  lemma {:induction false} EncodedBegins(spec: Spec, ops: seq<Op>)
    requires EncodeAll(spec, ops).Some?
    ensures EncodeAll(spec, ops).value != [] <==> ops != []
    ensures Begins(EncodeAll(spec, ops).value)
  {
    if ops != [] {
      EncodedIsWhole(spec, ops[0]);
    }
  }

  lemma NothingSent(spec: Spec, t: Octet, ops: Short -> seq<Op>, c: Short)
    requires Apart(spec, [], t, ops)
    ensures ops(c) == []
  {
    assert SegmentsOf([], Key(c, t)) == [];
    EncodedBegins(spec, ops(c));
  }

  lemma FirstAt(ops: seq<Op>, k: Key)
    requires ops != [] && OpsAt(ops, k) == ops
    ensures Key(ops[0].channel, ops[0].Track()) == k && OpsAt(ops[1..], k) == ops[1..]
  {
    OpsAtShorter(ops[1..], k);
    if Key(ops[0].channel, ops[0].Track()) == k {
      assert ops == [ops[0]] + OpsAt(ops[1..], k);
    }
  }

  lemma {:induction false} OpsAtShorter(ops: seq<Op>, k: Key)
    ensures |OpsAt(ops, k)| <= |ops|
  {
    if ops != [] {
      OpsAtShorter(ops[1..], k);
    }
  }

  /** The channel of the first segment has an op to send, and begins with it. */
  lemma {:induction false} FirstOp(spec: Spec, segs: seq<Segment>, t: Octet, ops: seq<Op>)
    requires segs != [] && segs[0].track == t
    requires var k := Place(segs[0]);
             && EncodeAll(spec, ops).Some? && SegmentsOf(segs, k) == EncodeAll(spec, ops).value
             && OpsAt(ops, k) == ops
    ensures ops != [] && Key(ops[0].channel, ops[0].Track()) == Place(segs[0])
    ensures OpsAt(ops[1..], Place(segs[0])) == ops[1..]
    ensures Encode(spec, ops[0]).Some? && EncodeAll(spec, ops[1..]).Some?
    ensures SegmentsOf(segs, Place(segs[0])) == Encode(spec, ops[0]).value + EncodeAll(spec, ops[1..]).value
    ensures Whole(Encode(spec, ops[0]).value, false)
  {
    SegmentsOfRest(segs, Place(segs[0]));
    EncodedBegins(spec, ops);
    FirstAt(ops, Place(segs[0]));
    EncodedIsWhole(spec, ops[0]);
  }

  /** The op that begins an undisturbed track is there as a whole. */
  lemma {:induction false} FirstWhole(spec: Spec, segs: seq<Segment>, t: Octet, ops: Short -> seq<Op>)
      returns (c: Short, after: seq<Segment>)
    requires Apart(spec, segs, t, ops) && Undisturbed(segs, {}) && segs != []
    ensures ops(c) != [] && Key(ops(c)[0].channel, ops(c)[0].Track()) == Key(c, t) && SoundOp(spec, ops(c)[0])
    ensures Encode(spec, ops(c)[0]).Some? && segs == Encode(spec, ops(c)[0]).value + after && |after| < |segs|
    ensures Apart(spec, after, t, Without(ops, c)) && Undisturbed(after, {})
  {
    c := segs[0].channel;
    var k := Key(c, t);
    FirstOp(spec, segs, t, ops(c));
    var op, rest := Encode(spec, ops(c)[0]).value, EncodeAll(spec, ops(c)[1..]).value;
    forall x: Short | x != c
      ensures Begins(SegmentsOf(segs, Key(x, t)))
    {
      EncodedBegins(spec, ops(x));
    }
    after := Together(segs, k, op, rest, false);
    forall i | 0 <= i < |after|
      ensures after[i].track == t
    {
      assert after[i] == segs[|op| + i];
    }
  }

  lemma OneMoreAt(t: Octet, ops: Short -> seq<Op>, c: Short, rest: seq<Op>, x: Short)
    requires ops(c) != [] && Key(ops(c)[0].channel, ops(c)[0].Track()) == Key(c, t)
    requires OpsAt(rest, Key(x, t)) == Without(ops, c)(x)
    ensures OpsAt([ops(c)[0]] + rest, Key(x, t)) == ops(x)
  {
    assert ([ops(c)[0]] + rest)[1..] == rest;
    assert [ops(c)[0]] + ops(c)[1..] == ops(c) && [] + ops(x) == ops(x);
  }

  lemma OneMoreSound(spec: Spec, op: Op, rest: seq<Op>)
    requires SoundOp(spec, op) && AllSound(spec, rest)
    ensures AllSound(spec, [op] + rest)
  {
    assert ([op] + rest)[1..] == rest;
  }

  lemma OneMoreEncoded(spec: Spec, op: Op, rest: seq<Op>)
    requires Encode(spec, op).Some? && EncodeAll(spec, rest).Some?
    ensures EncodeAll(spec, [op] + rest) == Some(Encode(spec, op).value + EncodeAll(spec, rest).value)
  {
    assert ([op] + rest)[1..] == rest;
  }

  /** `all` lists the ops of one track's channels, one after the other. */
  ghost predicate Grouped(spec: Spec, segs: seq<Segment>, t: Octet, ops: Short -> seq<Op>, all: seq<Op>)
  {
    && EncodeAll(spec, all) == Some(segs) && AllSound(spec, all)
    && (forall i :: 0 <= i < |all| ==> all[i].Track() == t)
    && (forall c: Short :: OpsAt(all, Key(c, t)) == ops(c))
  }

  lemma OneMoreGrouped(spec: Spec, segs: seq<Segment>, t: Octet, ops: Short -> seq<Op>, c: Short, after: seq<Segment>,
                       rest: seq<Op>)
    requires ops(c) != [] && Key(ops(c)[0].channel, ops(c)[0].Track()) == Key(c, t) && SoundOp(spec, ops(c)[0])
    requires Encode(spec, ops(c)[0]).Some? && segs == Encode(spec, ops(c)[0]).value + after
    requires Grouped(spec, after, t, Without(ops, c), rest)
    ensures Grouped(spec, segs, t, ops, [ops(c)[0]] + rest)
  {
    OneMoreSound(spec, ops(c)[0], rest);
    OneMoreEncoded(spec, ops(c)[0], rest);
    forall x: Short
      ensures OpsAt([ops(c)[0]] + rest, Key(x, t)) == ops(x)
    {
      OneMoreAt(t, ops, c, rest, x);
    }
  }

  lemma NoneGrouped(spec: Spec, t: Octet, ops: Short -> seq<Op>)
    requires Apart(spec, [], t, ops)
    ensures Grouped(spec, [], t, ops, [])
  {
    forall c: Short
      ensures OpsAt([], Key(c, t)) == ops(c)
    {
      NothingSent(spec, t, ops, c);
    }
  }

  /** An undisturbed track carries the ops of all its channels one after the other. */
  lemma {:induction false} Regroup(spec: Spec, segs: seq<Segment>, t: Octet, ops: Short -> seq<Op>)
      returns (all: seq<Op>)
    requires Apart(spec, segs, t, ops) && Undisturbed(segs, {})
    ensures Grouped(spec, segs, t, ops, all)
    decreases |segs|
  {
    if segs == [] {
      all := [];
      NoneGrouped(spec, t, ops);
    } else {
      var c, after := FirstWhole(spec, segs, t, ops);
      var rest := Regroup(spec, after, t, Without(ops, c));
      all := [ops(c)[0]] + rest;
      OneMoreGrouped(spec, segs, t, ops, c, after, rest);
    }
  }

  // ----- Exactly when every channel's ops come back -----

  lemma {:induction false} OpsAtAppends(a: seq<Op>, b: seq<Op>, k: Key)
    ensures OpsAt(a + b, k) == OpsAt(a, k) + OpsAt(b, k)
  {
    if a == [] {
      assert a + b == b;
    } else {
      OpsAtAppends(a[1..], b, k);
      assert (a + b)[1..] == a[1..] + b;
      Associate(if Key(a[0].channel, a[0].Track()) == k then [a[0]] else [], OpsAt(a[1..], k), OpsAt(b, k));
    }
  }

  lemma {:induction false} OpsOnAppends(a: seq<Op>, b: seq<Op>, t: Octet)
    ensures OpsOn(a + b, t) == OpsOn(a, t) + OpsOn(b, t)
  {
    if a == [] {
      assert a + b == b;
    } else {
      OpsOnAppends(a[1..], b, t);
      assert (a + b)[1..] == a[1..] + b;
      Associate(if a[0].Track() == t then [a[0]] else [], OpsOn(a[1..], t), OpsOn(b, t));
    }
  }

  lemma {:induction false} AllOn(ops: seq<Op>, t: Octet)
    requires forall i :: 0 <= i < |ops| ==> ops[i].Track() == t
    ensures forall u: Octet :: OpsOn(ops, u) == if u == t then ops else []
    ensures forall k: Key :: k.track != t ==> OpsAt(ops, k) == []
  {
    if ops != [] {
      AllOn(ops[1..], t);
      assert ops == [ops[0]] + ops[1..];
    }
  }

  lemma {:induction false} AllSoundAppends(spec: Spec, a: seq<Op>, b: seq<Op>)
    requires AllSound(spec, a) && AllSound(spec, b)
    ensures AllSound(spec, a + b)
  {
    if a == [] {
      assert a + b == b;
    } else {
      AllSoundAppends(spec, a[1..], b);
      assert (a + b)[1..] == a[1..] + b;
    }
  }

  lemma {:induction false} SoundOpsAt(spec: Spec, ops: seq<Op>, k: Key)
    requires AllSound(spec, ops)
    ensures AllSound(spec, OpsAt(ops, k))
    ensures OpsAt(OpsAt(ops, k), k) == OpsAt(ops, k)
  {
    if ops != [] {
      SoundOpsAt(spec, ops[1..], k);
      var rest := OpsAt(ops[1..], k);
      assert ([ops[0]] + rest)[1..] == rest && [] + rest == rest;
    }
  }

  lemma PlacedOnTracks(spec: Spec, segs: seq<Segment>, ops: seq<Op>, i: nat)
    requires CarriesEach(spec, segs, ops) && i < |segs|
    ensures segs[i].track == COMMAND || segs[i].track == CONTROL
  {
    var k := Place(segs[i]);
    PlaceHolds(segs, i);
    if k.track != COMMAND && k.track != CONTROL {
      NoneElsewhere(ops, k);
    }
  }

  lemma {:induction false} PlaceHolds(segs: seq<Segment>, i: nat)
    requires i < |segs|
    ensures segs[i] in SegmentsOf(segs, Place(segs[i]))
  {
    if i > 0 {
      PlaceHolds(segs[1..], i - 1);
    }
  }

  lemma {:induction false} NoneElsewhere(ops: seq<Op>, k: Key)
    requires k.track != COMMAND && k.track != CONTROL
    ensures OpsAt(ops, k) == []
  {
    if ops != [] {
      NoneElsewhere(ops[1..], k);
    }
  }

  lemma OneTrack(spec: Spec, segs: seq<Segment>, ops: seq<Op>, t: Octet) returns (all: seq<Op>)
    requires AllSound(spec, ops) && CarriesEach(spec, segs, ops) && Undisturbed(segs, {})
    ensures EncodeAll(spec, all) == Some(SegmentsOn(segs, t)) && AllSound(spec, all)
    ensures forall i :: 0 <= i < |all| ==> all[i].Track() == t
    ensures forall c: Short :: OpsAt(all, Key(c, t)) == OpsAt(ops, Key(c, t))
  {
    var on := SegmentsOn(segs, t);
    UndisturbedOn(segs, {}, t, {});
    var each := (c: Short) => OpsAt(ops, Key(c, t));
    forall c: Short
      ensures EncodeAll(spec, each(c)).Some? && SegmentsOf(on, Key(c, t)) == EncodeAll(spec, each(c)).value
      ensures AllSound(spec, each(c)) && OpsAt(each(c), Key(c, t)) == each(c)
    {
      TrackOfPlace(segs, Key(c, t));
      SoundOpsAt(spec, ops, Key(c, t));
    }
    SegmentsOnTrack(segs, t);
    all := Regroup(spec, on, t, each);
    forall c: Short
      ensures OpsAt(all, Key(c, t)) == OpsAt(ops, Key(c, t))
    {
      assert OpsAt(all, Key(c, t)) == each(c);
    }
  }

  lemma {:induction false} SegmentsOnTrack(segs: seq<Segment>, t: Octet)
    ensures forall i :: 0 <= i < |SegmentsOn(segs, t)| ==> SegmentsOn(segs, t)[i].track == t
  {
    if segs != [] {
      SegmentsOnTrack(segs[1..], t);
    }
  }

  /** Ops of any channels whose segments do not disturb one another can be listed
      so that each track carries them one after the other. */
  lemma Reordered(spec: Spec, segs: seq<Segment>, ops: seq<Op>) returns (all: seq<Op>)
    requires AllSound(spec, ops) && CarriesEach(spec, segs, ops) && Undisturbed(segs, {})
    ensures Carries(spec, segs, all) && AllSound(spec, all)
    ensures forall k: Key :: OpsAt(all, k) == OpsAt(ops, k)
  {
    var controls := OneTrack(spec, segs, ops, CONTROL);
    var commands := OneTrack(spec, segs, ops, COMMAND);
    all := controls + commands;
    AllSoundAppends(spec, controls, commands);
    AllOn(controls, CONTROL);
    AllOn(commands, COMMAND);
    OpsOnAppends(controls, commands, CONTROL);
    OpsOnAppends(controls, commands, COMMAND);
    assert controls + [] == controls && [] + commands == commands;
    forall i | 0 <= i < |segs|
      ensures segs[i].track == COMMAND || segs[i].track == CONTROL
    {
      PlacedOnTracks(spec, segs, ops, i);
    }
    forall k: Key
      ensures OpsAt(all, k) == OpsAt(ops, k)
    {
      OpsAtAppends(controls, commands, k);
      if k.track == CONTROL {
        assert k == Key(k.channel, CONTROL);
        assert OpsAt(controls, k) + [] == OpsAt(controls, k);
      } else if k.track == COMMAND {
        assert k == Key(k.channel, COMMAND);
        assert [] + OpsAt(commands, k) == OpsAt(commands, k);
      } else {
        NoneElsewhere(ops, k);
      }
    }
  }

  lemma {:induction false} DecodedTwice(ops: seq<Option<Op>>, k: Key)
    ensures DecodedAt(Decoded(ops, k.track), k) == DecodedAt(ops, k)
  {
    if ops != [] {
      DecodedTwice(ops[1..], k);
      var rest := Decoded(ops[1..], k.track);
      assert [] + rest == rest;
      if ops[0].Some? && ops[0].value.Track() == k.track {
        assert ([ops[0]] + rest)[1..] == rest;
      }
    }
  }

  lemma {:induction false} BackAt(ops: seq<Op>, k: Key)
    ensures DecodedAt(BackOps(OpsOn(ops, k.track)), k) == BackOps(OpsAt(ops, k))
  {
    if ops != [] {
      BackAt(ops[1..], k);
      var on, at := OpsOn(ops[1..], k.track), OpsAt(ops[1..], k);
      assert [] + on == on && [] + at == at;
      if ops[0].Track() == k.track {
        BackFirst(ops[0], on);
        if ops[0].channel == k.channel {
          BackFirst(ops[0], at);
        }
      }
    }
  }

  lemma BackFirst(op: Op, rest: seq<Op>)
    ensures BackOps([op] + rest) == [Some(BackOp(op))] + BackOps(rest)
    ensures ([Some(BackOp(op))] + BackOps(rest))[1..] == BackOps(rest)
    ensures BackOp(op).channel == op.channel && BackOp(op).Track() == op.Track()
  {
  }

  lemma NowhereElse(ops: seq<Option<Op>>, k: Key)
    requires k.track != COMMAND && k.track != CONTROL
    ensures DecodedAt(ops, k) == []
  {
    if ops != [] {
      NowhereElse(ops[1..], k);
    }
  }

  lemma AllHeld(spec: Spec, segs: seq<Segment>, ops: seq<Op>)
    requires CarriesEach(spec, segs, ops)
    ensures Held(segs, map[])
  {
    forall k: Key
      ensures Bracketed(SegmentsOf(segs, k), false)
    {
      AllBracketed(spec, OpsAt(ops, k));
    }
  }

  /** Whatever the channels send, as long as each keeps the order of its own
      segments: decoding succeeds if and only if no op begins on a track where
      another is open, and then every channel gets its ops back, in order, with
      nothing stray and nothing left open. */
  lemma ChannelsReturnExactly(spec: Spec, segs: seq<Segment>, ops: seq<Op>)
    requires Wellformed(spec) && AllSound(spec, ops) && CarriesEach(spec, segs, ops)
    ensures var d := DecodeAll(spec, Decoding(map[], []), segs);
            && (d.Some? <==> Undisturbed(segs, {}))
            && (d.Some? ==>
                  && d.value.current == map[]
                  && (forall i :: 0 <= i < |d.value.ops| ==> d.value.ops[i].Some?)
                  && (forall k: Key :: DecodedAt(d.value.ops, k) == BackOps(OpsAt(ops, k))))
  {
    var start: Decoding := Decoding(map[], []);
    if DecodeAll(spec, start, segs).Some? {
      var nobody: map<Octet, Short> := map[];
      AllHeld(spec, segs, ops);
      DecodedUndisturbed(spec, start, segs, nobody);
      assert nobody.Keys == {};
    }
    if Undisturbed(segs, {}) {
      var all := Reordered(spec, segs, ops);
      OpsReturn(spec, segs, all);
      var d := DecodeAll(spec, start, segs).value;
      forall k: Key
        ensures DecodedAt(d.ops, k) == BackOps(OpsAt(ops, k))
      {
        if k.track == COMMAND || k.track == CONTROL {
          DecodedTwice(d.ops, k);
          BackAt(all, k);
        } else {
          NowhereElse(d.ops, k);
          NoneElsewhere(ops, k);
        }
      }
    }
  }
}
