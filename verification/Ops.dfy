/** Commands and controls, and the segments that carry them
    (qpid/python/qpid/framing.py). The tables of classes are a parameter. */
module Ops {
  import opened Wrappers
  import opened Sequences
  import opened Octets
  import opened Codec010
  import opened Framing

  const CONTROL: Octet := 0        // segment_type and, for the first two, track
  const COMMAND: Octet := 1
  const HEADER: Octet := 2
  const BODY: Octet := 3

  /** A record is a Codec010.Record of the op's class; what is not encoded with
      its fields stands beside it. */
  datatype Op =
    | Command(channel: Short, record: Value, sync: bool, headers: Option<seq<Value>>, payload: Option<seq<Octet>>)
    | Control(channel: Short, record: Value)
  {
    function Track(): Octet
    {
      if Command? then COMMAND else CONTROL
    }
  }

  /** Codec tables, COMMANDS and CONTROLS. */
  datatype Spec = Spec(types: Tables, commands: map<Short, Struct>, controls: map<Short, Struct>)

  /** The class of the header that goes with every command. */
  const SYNC_HEADER := Struct(None, 1, 1, [Plain(BitFlag)])

  // ----- Encoding; None stands for a raised exception -----

  predicate Registered(spec: Spec, op: Op)
  {
    && op.record.Record? && op.record.struct.code.Some?
    && var code := op.record.struct.code.value;
       var table := if op.Command? then spec.commands else spec.controls;
       code in table && table[code] == op.record.struct
  }

  function SyncHeader(sync: bool): Value
  {
    Record(SYNC_HEADER, [Flag(sync)])
  }

  function EncodeOp(spec: Spec, op: Op): Option<seq<Octet>>
  {
    if !Registered(spec, op) then None
    else if op.Control? then WriteCompound(spec.types, op.record)
    else
      Glue(Glue(Some(Pack(op.record.struct.code.value, 2)), WriteCompound(spec.types, SyncHeader(op.sync))),
           WriteRecord(spec.types, op.record))
  }

  function EncodeHeaders(t: Tables, hs: seq<Value>): Option<seq<Octet>>
  {
    if hs == [] then Some([])
    else if !hs[0].Record? then None
    else Glue(WriteCompound(t, hs[0]), EncodeHeaders(t, hs[1..]))
  }

  function HeaderSegments(spec: Spec, op: Op): Option<seq<Segment>>
  {
    if op.Control? || op.headers.None? then Some([])
    else
      var octets := EncodeHeaders(spec.types, op.headers.value);
      if octets.None? then None else Some([Segment(false, false, HEADER, COMMAND, op.channel, octets.value)])
  }

  function BodySegments(op: Op): seq<Segment>
  {
    if op.Control? || op.payload.None? then []
    else [Segment(false, false, BODY, COMMAND, op.channel, op.payload.value)]
  }

  function FirstSegment(op: Op, enc: seq<Octet>): Segment
  {
    Segment(true, false, op.Track(), op.Track(), op.channel, enc)
  }

  function LastMarked(segs: seq<Segment>): seq<Segment>
    requires segs != []
  {
    segs[..|segs| - 1] + [segs[|segs| - 1].(last := true)]
  }

  function Encode(spec: Spec, op: Op): Option<seq<Segment>>
  {
    var enc, hs := EncodeOp(spec, op), HeaderSegments(spec, op);
    if enc.None? || hs.None? then None
    else Some(LastMarked([FirstSegment(op, enc.value)] + (hs.value + BodySegments(op))))
  }

  function EncodeAll(spec: Spec, ops: seq<Op>): Option<seq<Segment>>
  {
    if ops == [] then Some([])
    else
      var first, rest := Encode(spec, ops[0]), EncodeAll(spec, ops[1..]);
      if first.None? || rest.None? then None else Some(first.value + rest.value)
  }

  // ----- Decoding; None stands for a raised exception -----

  /** A segment that belongs to no op leaves None in its place. */
  datatype Decoding = Decoding(current: map<Octet, Option<Op>>, ops: seq<Option<Op>>)

  function DecodeCommand(spec: Spec, b: seq<Octet>, channel: Short): Option<Op>
  {
    var code := TakeNumber(b, 2);
    if code.None? then None
    else
      PowFour();
      if code.value.0 !in spec.commands then None
      else DecodeCommandOf(spec, spec.commands[code.value.0], code.value.1, channel)
  }

  /** The command of a known class, after its code. */
  function DecodeCommandOf(spec: Spec, s: Struct, b: seq<Octet>, channel: Short): Option<Op>
  {
    var header := ReadCompound(spec.types, SYNC_HEADER, b);
    var fields := if header.None? then None else ReadRecord(spec.types, s, header.value.1);
    if fields.None? then None
    else Some(Command(channel, fields.value.0, header.value.0 == SyncHeader(true), None, None))
  }

  function DecodeControl(spec: Spec, b: seq<Octet>, channel: Short): Option<Op>
  {
    var code := TakeNumber(b, 2);
    if code.None? then None
    else
      PowFour();
      if code.value.0 !in spec.controls then None
      else
        var fields := ReadRecord(spec.types, spec.controls[code.value.0], code.value.1);
        if fields.None? then None else Some(Control(channel, fields.value.0))
  }

  function DecodeHeaders(t: Tables, b: seq<Octet>): Option<seq<Value>>
    decreases |b|
  {
    if b == [] then Some([])
    else
      var h := Read(t, Struct32, b);
      var hs := if h.None? then None else DecodeHeaders(t, h.value.1);
      if hs.None? then None else Some([h.value.0] + hs.value)
  }

  /** The op after one segment; the outer None is an exception. */
  function Continued(spec: Spec, op: Option<Op>, seg: Segment): Option<Option<Op>>
  {
    if seg.first then
      var made := if seg.kind == COMMAND then DecodeCommand(spec, seg.payload, seg.channel)
                  else if seg.kind == CONTROL then DecodeControl(spec, seg.payload, seg.channel)
                  else None;
      if made.None? then None else Some(made)
    else if seg.kind == HEADER then
      var hs := if op.None? || op.value.Control? then None else DecodeHeaders(spec.types, seg.payload);
      if hs.None? then None
      else Some(Some(op.value.(headers := Some((if op.value.headers.None? then [] else op.value.headers.value)
          + hs.value))))
    else if seg.kind == BODY then
      if op.None? || op.value.Control? then None
      else Some(Some(op.value.(payload := Some((if op.value.payload.None? then [] else op.value.payload.value)
          + seg.payload))))
    else Some(op)
  }

  function DecodeOne(spec: Spec, d: Decoding, seg: Segment): Option<Decoding>
  {
    var op := Continued(spec, if seg.track in d.current then d.current[seg.track] else None, seg);
    if op.None? then None
    else if seg.last then Some(Decoding(d.current - {seg.track}, d.ops + [op.value]))
    else Some(Decoding(d.current[seg.track := op.value], d.ops))
  }

  function DecodeAll(spec: Spec, d: Decoding, segs: seq<Segment>): Option<Decoding>
    decreases |segs|
  {
    if segs == [] then Some(d)
    else
      var next := DecodeOne(spec, d, segs[0]);
      if next.None? then None else DecodeAll(spec, next.value, segs[1..])
  }

  lemma Encoded(spec: Spec, op: Op, before: seq<Segment>)
    requires Encode(spec, op).Some?
    ensures LastMarked((before + [FirstSegment(op, EncodeOp(spec, op).value)])
        + (HeaderSegments(spec, op).value + BodySegments(op)))
            == before + Encode(spec, op).value
  {
    LastOfAll(before, FirstSegment(op, EncodeOp(spec, op).value), HeaderSegments(spec, op).value + BodySegments(op));
  }

  lemma LastInPlace(segs: seq<Segment>)
    requires segs != []
    ensures segs[|segs| - 1 := segs[|segs| - 1].(last := true)] == LastMarked(segs)
  {
  }

  lemma LastOfAll(before: seq<Segment>, first: Segment, tail: seq<Segment>)
    ensures LastMarked((before + [first]) + tail) == before + LastMarked([first] + tail)
  {
  }

  class OpEncoder {
    const spec: Spec
    var segments: seq<Segment>

    constructor (spec: Spec)
      ensures this.spec == spec && segments == []
    {
      this.spec, segments := spec, [];
    }

    /** `ok` is false when an op raises; the segments of the ops before it stay. */
    method Write(ops: seq<Op>) returns (ok: bool)
      modifies this
      ensures ok <==> EncodeAll(spec, ops).Some?
      ensures ok ==> segments == old(segments) + EncodeAll(spec, ops).value
      ensures old(segments) <= segments
    {
      for i := 0 to |ops|
        invariant old(segments) <= segments
        invariant EncodeAll(spec, ops).Some? <==> EncodeAll(spec, ops[i..]).Some?
        invariant EncodeAll(spec, ops).Some? ==>
          segments + EncodeAll(spec, ops[i..]).value == old(segments) + EncodeAll(spec, ops).value
      {
        assert ops[i..][0] == ops[i] && ops[i..][1..] == ops[i + 1..];
        ghost var was := segments;
        ok := WriteOp(ops[i]);
        if !ok {
          return;
        }
        if EncodeAll(spec, ops).Some? {
          Associate(was, Encode(spec, ops[i]).value, EncodeAll(spec, ops[i + 1..]).value);
        }
      }
      ok := true;
    }

    method WriteOp(op: Op) returns (ok: bool)
      modifies this
      ensures ok <==> Encode(spec, op).Some?
      ensures ok ==> segments == old(segments) + Encode(spec, op).value
      ensures old(segments) <= segments
    {
      var enc := EncodeOp(spec, op);
      if enc.None? {
        return false;
      }
      segments := segments + [FirstSegment(op, enc.value)];
      ok := WriteRest(op);
      if ok {
        Encoded(spec, op, old(segments));
      }
    }

    /** The header and the body, and the mark on the last segment. */
    method WriteRest(op: Op) returns (ok: bool)
      requires segments != []
      modifies this
      ensures ok <==> HeaderSegments(spec, op).Some?
      ensures ok ==> segments == LastMarked(old(segments) + (HeaderSegments(spec, op).value + BodySegments(op)))
      ensures |old(segments)| <= |segments| && old(segments)[..|old(segments)| - 1] == segments[..|old(segments)| - 1]
    {
      ghost var hs, body := HeaderSegments(spec, op), BodySegments(op);
      if op.Command? && op.headers.Some? {
        var hdrs := EncodeHeaders(spec.types, op.headers.value);
        if hdrs.None? {
          return false;
        }
        Append(Segment(false, false, HEADER, COMMAND, op.channel, hdrs.value));
      }
      assert hs.Some? && segments == old(segments) + hs.value;
      if op.Command? && op.payload.Some? {
        Append(Segment(false, false, BODY, COMMAND, op.channel, op.payload.value));
      }
      assert segments == (old(segments) + hs.value) + body;
      Associate(old(segments), hs.value, body);
      LastInPlace(segments);
      segments := segments[|segments| - 1 := segments[|segments| - 1].(last := true)];
      return true;
    }

    method Append(seg: Segment)
      modifies this
      ensures segments == old(segments) + [seg]
    {
      segments := segments + [seg];
    }

    method Read() returns (result: seq<Segment>)
      modifies this
      ensures result == old(segments) && segments == []
    {
      result, segments := segments, [];
    }
  }

  class OpDecoder {
    const spec: Spec
    var currentOp: map<Octet, Option<Op>>
    var ops: seq<Option<Op>>

    function State(): Decoding
      reads this
    {
      Decoding(currentOp, ops)
    }

    constructor (spec: Spec)
      ensures this.spec == spec && State() == Decoding(map[], [])
    {
      this.spec, currentOp, ops := spec, map[], [];
    }

    /** `ok` is false when a segment raises; what the segments before it did stays. */
    method Write(segments: seq<Segment>) returns (ok: bool)
      modifies this
      ensures ok <==> DecodeAll(spec, old(State()), segments).Some?
      ensures ok ==> DecodeAll(spec, old(State()), segments) == Some(State())
    {
      for i := 0 to |segments|
        invariant DecodeAll(spec, State(), segments[i..]) == DecodeAll(spec, old(State()), segments)
      {
        var seg := segments[i];
        assert segments[i..][0] == seg && segments[i..][1..] == segments[i + 1..];
        ghost var was := State();
        var op := Continued(spec, if seg.track in currentOp then currentOp[seg.track] else None, seg);
        if op.None? {
          return false;
        }
        if seg.last {
          ops := ops + [op.value];
          if seg.track in currentOp {
            currentOp := currentOp - {seg.track};
          }
          assert currentOp == was.current - {seg.track};
        } else {
          currentOp := currentOp[seg.track := op.value];
        }
        assert DecodeOne(spec, was, seg) == Some(State());
      }
      return true;
    }

    method Read() returns (result: seq<Option<Op>>)
      modifies this
      ensures result == old(ops) && State() == old(State()).(ops := [])
    {
      result, ops := ops, [];
    }
  }

  // ----- What is encoded is decoded -----

  /** Classes are registered under their codes, and ops are written without a size. */
  ghost predicate Wellformed(spec: Spec)
  {
    && Consistent(spec.types)
    && (forall c :: c in spec.commands ==> spec.commands[c].code == Some(c) && spec.commands[c].size == 0)
    && (forall c :: c in spec.controls ==> spec.controls[c].code == Some(c) && spec.controls[c].size == 0)
  }

  /** The op's fields and headers are values the codec gives back. */
  ghost predicate SoundOp(spec: Spec, op: Op)
  {
    && SoundRecord(spec.types, op.record)
    && (op.Command? && op.headers.Some? ==>
          forall i :: 0 <= i < |op.headers.value| ==> Sound(spec.types, Struct32, op.headers.value[i]))
  }

  ghost predicate AllSound(spec: Spec, ops: seq<Op>)
  {
    ops != [] ==> SoundOp(spec, ops[0]) && AllSound(spec, ops[1..])
  }

  function BackHeaders(hs: seq<Value>): seq<Value>
  {
    seq(|hs|, i requires 0 <= i < |hs| => BackRecord(hs[i]))
  }

  /** The op that comes out: the same, with every value as the codec gives it back. */
  function BackOp(op: Op): Op
  {
    if op.Control? then Control(op.channel, BackRecord(op.record))
    else Command(op.channel, BackRecord(op.record), op.sync,
                 if op.headers.None? then None else Some(BackHeaders(op.headers.value)), op.payload)
  }

  lemma SyncHeaderBack(t: Tables, sync: bool, rest: seq<Octet>)
    requires Consistent(t) && WriteCompound(t, SyncHeader(sync)).Some?
    ensures ReadCompound(t, SYNC_HEADER, WriteCompound(t, SyncHeader(sync)).value + rest)
        == Some((SyncHeader(sync), rest))
  {
    var h := SyncHeader(sync);
    assert h.struct.fields[1..] == [] && h.values[1..] == [];
    CompoundBack(t, h, rest);
    assert BackRecord(h).values == [Flag(sync)];
  }

  /** The op that the first segment opens. */
  function Opened(op: Op): Op
  {
    if op.Control? then Control(op.channel, BackRecord(op.record))
    else Command(op.channel, BackRecord(op.record), op.sync, None, None)
  }

  lemma CommandCode(spec: Spec, code: Short, b: seq<Octet>, channel: Short)
    requires code in spec.commands
    ensures DecodeCommand(spec, Pack(code, 2) + b, channel) == DecodeCommandOf(spec, spec.commands[code], b, channel)
  {
    PowFour();
    ReadNumber(code, 2, b);
  }

  lemma CommandBack(spec: Spec, op: Op)
    requires Wellformed(spec) && SoundOp(spec, op) && EncodeOp(spec, op).Some? && op.Command?
    ensures DecodeCommand(spec, EncodeOp(spec, op).value, op.channel) == Some(Opened(op))
  {
    var code := op.record.struct.code.value;
    var fields := WriteRecord(spec.types, op.record).value;
    var sync := WriteCompound(spec.types, SyncHeader(op.sync)).value;
    Associate(Pack(code, 2), sync, fields);
    CommandCode(spec, code, sync + fields, op.channel);
    CommandOfBack(spec, op, sync, fields);
  }

  lemma CommandOfBack(spec: Spec, op: Op, sync: seq<Octet>, fields: seq<Octet>)
    requires Wellformed(spec) && op.Command? && op.record.Record? && SoundRecord(spec.types, op.record)
    requires WriteCompound(spec.types, SyncHeader(op.sync)) == Some(sync) && WriteRecord(spec.types, op.record)
        == Some(fields)
    ensures DecodeCommandOf(spec, op.record.struct, sync + fields, op.channel) == Some(Opened(op))
  {
    SyncHeaderBack(spec.types, op.sync, fields);
    assert fields + [] == fields;
    RecordBack(spec.types, op.record, []);
  }

  lemma ControlBack(spec: Spec, op: Op)
    requires Wellformed(spec) && SoundOp(spec, op) && EncodeOp(spec, op).Some? && op.Control?
    ensures DecodeControl(spec, EncodeOp(spec, op).value, op.channel) == Some(Opened(op))
  {
    var code := op.record.struct.code.value;
    var fields := WriteRecord(spec.types, op.record).value;
    PowFour();
    assert [] + (Pack(code, 2) + fields) == Pack(code, 2) + fields;
    ReadNumber(code, 2, fields);
    assert fields + [] == fields;
    RecordBack(spec.types, op.record, []);
  }

  lemma {:induction false} HeadersBack(t: Tables, hs: seq<Value>)
    requires Consistent(t) && EncodeHeaders(t, hs).Some?
    requires forall i :: 0 <= i < |hs| ==> Sound(t, Struct32, hs[i])
    ensures DecodeHeaders(t, EncodeHeaders(t, hs).value) == Some(BackHeaders(hs))
  {
    if hs != [] {
      var first, more := WriteCompound(t, hs[0]).value, EncodeHeaders(t, hs[1..]).value;
      assert Sound(t, Struct32, hs[0]);
      RoundTrip(t, Struct32, hs[0], more);
      HeadersBack(t, hs[1..]);
      assert BackHeaders(hs) == [BackRecord(hs[0])] + BackHeaders(hs[1..]);
    }
  }

  lemma DecodeFirst(spec: Spec, d: Decoding, seg: Segment, rest: seq<Segment>)
    ensures DecodeAll(spec, d, [seg] + rest)
            == if DecodeOne(spec, d, seg).None? then None else DecodeAll(spec, DecodeOne(spec, d, seg).value, rest)
  {
    assert ([seg] + rest)[1..] == rest;
  }

  lemma HeaderStep(spec: Spec, d: Decoding, op: Op, last: bool)
    requires Wellformed(spec) && SoundOp(spec, op) && op.Command? && op.headers.Some? && HeaderSegments(spec, op).Some?
    requires COMMAND in d.current && d.current[COMMAND] == Some(Opened(op))
    ensures var got := Some(Opened(op).(headers := Some(BackHeaders(op.headers.value))));
            DecodeOne(spec, d, HeaderSegments(spec, op).value[0].(last := last))
            == Some(if last then Decoding(d.current - {COMMAND}, d.ops + [got])
                    else Decoding(d.current[COMMAND := got], d.ops))
  {
    HeadersBack(spec.types, op.headers.value);
    assert [] + BackHeaders(op.headers.value) == BackHeaders(op.headers.value);
  }

  lemma BodyStep(spec: Spec, d: Decoding, op: Op, got: Op)
    requires op.Command? && op.payload.Some? && got.Command? && got.payload.None?
    requires COMMAND in d.current && d.current[COMMAND] == Some(got)
    ensures DecodeOne(spec, d, BodySegments(op)[0].(last := true))
            == Some(Decoding(d.current - {COMMAND}, d.ops + [Some(got.(payload := op.payload))]))
  {
    assert [] + op.payload.value == op.payload.value;
  }

  lemma LastOfTwo(a: Segment, b: Segment, rest: seq<Segment>)
    ensures LastMarked([a] + [b]) + rest == [a] + ([b.(last := true)] + rest)
    ensures LastMarked([a]) + rest == [a.(last := true)] + rest
  {
  }

  /** Header and body segments complete a command. */
  lemma TailBack(spec: Spec, d: Decoding, op: Op, rest: seq<Segment>)
    requires Wellformed(spec) && SoundOp(spec, op) && op.Command? && Encode(spec, op).Some?
    requires op.headers.Some? || op.payload.Some?
    requires COMMAND in d.current
    requires d.current[COMMAND] == Some(Opened(op))
    ensures DecodeAll(spec, d, LastMarked(HeaderSegments(spec, op).value + BodySegments(op)) + rest)
            == DecodeAll(spec, Decoding(d.current - {COMMAND}, d.ops + [Some(BackOp(op))]), rest)
  {
    var hs, body := HeaderSegments(spec, op).value, BodySegments(op);
    if op.headers.None? {
      assert hs + body == [body[0]];
      LastOfTwo(body[0], body[0], rest);
      BodyStep(spec, d, op, Opened(op));
      DecodeFirst(spec, d, body[0].(last := true), rest);
    } else if op.payload.None? {
      assert hs + body == [hs[0]];
      LastOfTwo(hs[0], hs[0], rest);
      HeaderStep(spec, d, op, true);
      DecodeFirst(spec, d, hs[0].(last := true), rest);
    } else {
      BothBack(spec, d, op, rest);
    }
  }

  lemma BothBack(spec: Spec, d: Decoding, op: Op, rest: seq<Segment>)
    requires Wellformed(spec) && SoundOp(spec, op) && op.Command? && Encode(spec, op).Some?
    requires op.headers.Some? && op.payload.Some?
    requires COMMAND in d.current && d.current[COMMAND] == Some(Opened(op))
    ensures DecodeAll(spec, d, LastMarked(HeaderSegments(spec, op).value + BodySegments(op)) + rest)
            == DecodeAll(spec, Decoding(d.current - {COMMAND}, d.ops + [Some(BackOp(op))]), rest)
  {
    var h, last := HeaderSegments(spec, op).value[0], BodySegments(op)[0].(last := true);
    LastOfTwo(h, BodySegments(op)[0], rest);
    HeaderStep(spec, d, op, false);
    DecodeFirst(spec, d, h, [last] + rest);
    var got := Opened(op).(headers := Some(BackHeaders(op.headers.value)));
    var next := Decoding(d.current[COMMAND := Some(got)], d.ops);
    BodyStep(spec, next, op, got);
    DecodeFirst(spec, next, last, rest);
    PutThenDrop(d.current, COMMAND, Some(got));
  }

  lemma FirstBack(spec: Spec, d: Decoding, op: Op, last: bool)
    requires Wellformed(spec) && SoundOp(spec, op) && EncodeOp(spec, op).Some?
    ensures DecodeOne(spec, d, FirstSegment(op, EncodeOp(spec, op).value).(last := last))
            == Some(if last then Decoding(d.current - {op.Track()}, d.ops + [Some(Opened(op))])
                    else Decoding(d.current[op.Track() := Some(Opened(op))], d.ops))
  {
    if op.Command? {
      CommandBack(spec, op);
    } else {
      ControlBack(spec, op);
    }
  }

  lemma LastOfTail(first: Segment, tail: seq<Segment>, rest: seq<Segment>)
    ensures LastMarked([first] + tail) + rest
            == if tail == [] then [first.(last := true)] + rest else [first] + (LastMarked(tail) + rest)
  {
  }

  lemma OneBack(spec: Spec, d: Decoding, op: Op, rest: seq<Segment>)
    requires Wellformed(spec) && SoundOp(spec, op) && EncodeOp(spec, op).Some?
    ensures DecodeAll(spec, d, [FirstSegment(op, EncodeOp(spec, op).value).(last := true)] + rest)
            == DecodeAll(spec, Decoding(d.current - {op.Track()}, d.ops + [Some(Opened(op))]), rest)
  {
    FirstBack(spec, d, op, true);
    DecodeFirst(spec, d, FirstSegment(op, EncodeOp(spec, op).value).(last := true), rest);
  }

  lemma PutThenDrop<K, V>(m: map<K, V>, k: K, v: V)
    ensures m[k := v] - {k} == m - {k}
  {
  }

  lemma FirstThen(spec: Spec, d: Decoding, op: Op, tail: seq<Segment>)
    requires Wellformed(spec) && SoundOp(spec, op) && EncodeOp(spec, op).Some?
    ensures DecodeAll(spec, d, [FirstSegment(op, EncodeOp(spec, op).value)] + tail)
            == DecodeAll(spec, Decoding(d.current[op.Track() := Some(Opened(op))], d.ops), tail)
  {
    var first := FirstSegment(op, EncodeOp(spec, op).value);
    FirstBack(spec, d, op, false);
    assert first.(last := false) == first;
    DecodeFirst(spec, d, first, tail);
  }

  lemma SeveralBack(spec: Spec, d: Decoding, op: Op, rest: seq<Segment>)
    requires Wellformed(spec) && SoundOp(spec, op) && Encode(spec, op).Some? && op.Command?
    requires op.headers.Some? || op.payload.Some?
    ensures DecodeAll(spec, d, [FirstSegment(op, EncodeOp(spec, op).value)]
                               + (LastMarked(HeaderSegments(spec, op).value + BodySegments(op)) + rest))
            == DecodeAll(spec, Decoding(d.current - {COMMAND}, d.ops + [Some(BackOp(op))]), rest)
  {
    PutThenDrop(d.current, COMMAND, Some(Opened(op)));
    TailBack(spec, Decoding(d.current[COMMAND := Some(Opened(op))], d.ops), op, rest);
    FirstThen(spec, d, op, LastMarked(HeaderSegments(spec, op).value + BodySegments(op)) + rest);
  }

  /** One op's segments give that op back, whatever was left open on its track. */
  lemma SegmentsBack(spec: Spec, d: Decoding, op: Op, rest: seq<Segment>)
    requires Wellformed(spec) && SoundOp(spec, op) && Encode(spec, op).Some?
    ensures DecodeAll(spec, d, Encode(spec, op).value + rest)
            == DecodeAll(spec, Decoding(d.current - {op.Track()}, d.ops + [Some(BackOp(op))]), rest)
  {
    var tail := HeaderSegments(spec, op).value + BodySegments(op);
    LastOfTail(FirstSegment(op, EncodeOp(spec, op).value), tail, rest);
    if tail == [] {
      OneBack(spec, d, op, rest);
    } else {
      SeveralBack(spec, d, op, rest);
    }
  }

  /** Any list of ops, encoded one after the other, is decoded in order. */
  lemma {:induction false} OpsBack(spec: Spec, d: Decoding, ops: seq<Op>)
    requires Wellformed(spec) && EncodeAll(spec, ops).Some? && d.current == map[]
    requires AllSound(spec, ops)
    ensures DecodeAll(spec, d, EncodeAll(spec, ops).value) == Some(Decoding(map[], d.ops + BackOps(ops)))
    decreases |ops|
  {
    if ops == [] {
      assert d.ops + BackOps(ops) == d.ops;
    } else {
      var op, rest := ops[0], EncodeAll(spec, ops[1..]).value;
      var next := Decoding(map[], d.ops + [Some(BackOp(op))]);
      assert d.current - {op.Track()} == map[];
      assert BackOps(ops) == [Some(BackOp(op))] + BackOps(ops[1..]);
      Associate(d.ops, [Some(BackOp(op))], BackOps(ops[1..]));
      OpsBack(spec, next, ops[1..]);
      SegmentsBack(spec, d, op, rest);
    }
  }

  function BackOps(ops: seq<Op>): seq<Option<Op>>
  {
    seq(|ops|, i requires 0 <= i < |ops| => Some(BackOp(ops[i])))
  }

  // ----- The two tracks may interleave -----

  function SegmentsOn(segs: seq<Segment>, track: Octet): seq<Segment>
  {
    if segs == [] then []
    else (if segs[0].track == track then [segs[0]] else []) + SegmentsOn(segs[1..], track)
  }

  function OpsOn(ops: seq<Op>, track: Octet): seq<Op>
  {
    if ops == [] then [] else (if ops[0].Track() == track then [ops[0]] else []) + OpsOn(ops[1..], track)
  }

  function Decoded(ops: seq<Option<Op>>, track: Octet): seq<Option<Op>>
  {
    if ops == [] then []
    else (if ops[0].Some? && ops[0].value.Track() == track then [ops[0]] else []) + Decoded(ops[1..], track)
  }

  /** Commands travel on the command track, controls on the control track, and
      only headers and bodies follow a first segment. */
  predicate OnItsTrack(seg: Segment)
  {
    && (seg.track == COMMAND || seg.track == CONTROL)
    && (if seg.first then seg.kind == seg.track else seg.kind == HEADER || seg.kind == BODY)
  }

  predicate OnTracks(segs: seq<Segment>)
  {
    segs != [] ==> OnItsTrack(segs[0]) && OnTracks(segs[1..])
  }

  /** What is open on a track is an op of that track, and no segment was stray. */
  ghost predicate Tracked(d: Decoding)
  {
    && (forall k :: k in d.current ==> d.current[k].Some? && d.current[k].value.Track() == k)
    && (forall i :: 0 <= i < |d.ops| ==> d.ops[i].Some?)
  }

  /** `a` and `b` look the same to one track. */
  ghost predicate SameOn(a: Decoding, b: Decoding, k: Octet)
  {
    && (k in a.current <==> k in b.current)
    && (k in a.current ==> a.current[k] == b.current[k])
    && Decoded(a.ops, k) == Decoded(b.ops, k)
  }

  lemma {:induction false} DecodedAppends(a: seq<Option<Op>>, op: Option<Op>, k: Octet)
    ensures Decoded(a + [op], k) == Decoded(a, k) + (if op.Some? && op.value.Track() == k then [op] else [])
  {
    if a == [] {
      assert a + [op] == [op] && [op][1..] == [];
    } else {
      assert (a + [op])[1..] == a[1..] + [op];
      DecodedAppends(a[1..], op, k);
    }
  }

  /** One segment moves both decoders of its track alike. */
  lemma StepOnTrack(spec: Spec, a: Decoding, b: Decoding, seg: Segment)
    requires OnItsTrack(seg) && Tracked(a) && SameOn(a, b, seg.track) && DecodeOne(spec, b, seg).Some?
    ensures DecodeOne(spec, a, seg).Some?
    ensures var a1, b1 := DecodeOne(spec, a, seg).value, DecodeOne(spec, b, seg).value;
            Tracked(a1) && SameOn(a1, b1, seg.track)
  {
    var op := if seg.track in a.current then a.current[seg.track] else None;
    var next := Continued(spec, op, seg).value;
    DecodedAppends(a.ops, next, seg.track);
    DecodedAppends(b.ops, next, seg.track);
  }

  /** It leaves the other track alone. */
  lemma StepOffTrack(spec: Spec, a: Decoding, c: Decoding, seg: Segment, k: Octet)
    requires OnItsTrack(seg) && Tracked(a) && SameOn(a, c, k) && k != seg.track && DecodeOne(spec, a, seg).Some?
    ensures SameOn(DecodeOne(spec, a, seg).value, c, k)
  {
    var op := if seg.track in a.current then a.current[seg.track] else None;
    DecodedAppends(a.ops, Continued(spec, op, seg).value, k);
  }

  lemma SegmentsOnRest(segs: seq<Segment>, k: Octet)
    requires segs != []
    ensures SegmentsOn(segs, k)
            == if segs[0].track == k then [segs[0]] + SegmentsOn(segs[1..], k) else SegmentsOn(segs[1..], k)
  {
  }

  /** A decoder of both tracks does what two decoders of one track each do. */
  lemma {:induction false} TracksDoNotMix(spec: Spec, a: Decoding, b: Decoding, c: Decoding, segs: seq<Segment>)
    requires Tracked(a) && SameOn(a, b, CONTROL) && SameOn(a, c, COMMAND)
    requires OnTracks(segs) && DecodeAll(spec, b, SegmentsOn(segs, CONTROL)).Some?
    requires DecodeAll(spec, c, SegmentsOn(segs, COMMAND)).Some?
    ensures DecodeAll(spec, a, segs).Some?
    ensures var r := DecodeAll(spec, a, segs).value;
            && Tracked(r)
            && SameOn(r, DecodeAll(spec, b, SegmentsOn(segs, CONTROL)).value, CONTROL)
            && SameOn(r, DecodeAll(spec, c, SegmentsOn(segs, COMMAND)).value, COMMAND)
    decreases |segs|
  {
    if segs != [] {
      var seg, rest := segs[0], segs[1..];
      SegmentsOnRest(segs, CONTROL);
      SegmentsOnRest(segs, COMMAND);
      if seg.track == CONTROL {
        DecodeFirst(spec, b, seg, SegmentsOn(rest, CONTROL));
        StepOnTrack(spec, a, b, seg);
        StepOffTrack(spec, a, c, seg, COMMAND);
        TracksDoNotMix(spec, DecodeOne(spec, a, seg).value, DecodeOne(spec, b, seg).value, c, rest);
      } else {
        DecodeFirst(spec, c, seg, SegmentsOn(rest, COMMAND));
        StepOnTrack(spec, a, c, seg);
        StepOffTrack(spec, a, b, seg, CONTROL);
        TracksDoNotMix(spec, DecodeOne(spec, a, seg).value, b, DecodeOne(spec, c, seg).value, rest);
      }
    }
  }

  lemma {:induction false} OnTracksAppends(a: seq<Segment>, b: seq<Segment>)
    requires OnTracks(a) && OnTracks(b)
    ensures OnTracks(a + b)
  {
    if a == [] {
      assert a + b == b;
    } else {
      assert (a + b)[1..] == a[1..] + b;
      OnTracksAppends(a[1..], b);
    }
  }

  lemma {:induction false} OnTracksMarked(segs: seq<Segment>)
    requires segs != [] && OnTracks(segs)
    ensures OnTracks(LastMarked(segs))
  {
    var marked := LastMarked(segs);
    if |segs| == 1 {
      assert marked[1..] == [];
    } else {
      OnTracksMarked(segs[1..]);
      assert marked[1..] == LastMarked(segs[1..]);
    }
  }

  lemma EncodedOnTracks(spec: Spec, op: Op)
    requires Encode(spec, op).Some?
    ensures OnTracks(Encode(spec, op).value)
  {
    var first, hs, body := FirstSegment(op, EncodeOp(spec, op).value), HeaderSegments(spec, op).value, BodySegments(op);
    assert OnItsTrack(first) && OnTracks(hs) && OnTracks(body);
    OnTracksAppends(hs, body);
    assert [first][1..] == [];
    OnTracksAppends([first], hs + body);
    OnTracksMarked([first] + (hs + body));
  }

  lemma {:induction false} AllOnTracks(spec: Spec, ops: seq<Op>)
    requires EncodeAll(spec, ops).Some?
    ensures OnTracks(EncodeAll(spec, ops).value)
  {
    if ops != [] {
      EncodedOnTracks(spec, ops[0]);
      AllOnTracks(spec, ops[1..]);
      OnTracksAppends(Encode(spec, ops[0]).value, EncodeAll(spec, ops[1..]).value);
    }
  }

  lemma {:induction false} BothOnTracks(segs: seq<Segment>)
    requires forall i :: 0 <= i < |segs| ==> segs[i].track == COMMAND || segs[i].track == CONTROL
    requires OnTracks(SegmentsOn(segs, CONTROL)) && OnTracks(SegmentsOn(segs, COMMAND))
    ensures OnTracks(segs)
  {
    if segs != [] {
      SegmentsOnRest(segs, CONTROL);
      SegmentsOnRest(segs, COMMAND);
      var k := segs[0].track;
      assert ([segs[0]] + SegmentsOn(segs[1..], k))[1..] == SegmentsOn(segs[1..], k);
      BothOnTracks(segs[1..]);
    }
  }

  lemma {:induction false} AllDecoded(ops: seq<Op>, k: Octet)
    ensures Decoded(BackOps(OpsOn(ops, k)), k) == BackOps(OpsOn(ops, k))
  {
    if ops != [] {
      AllDecoded(ops[1..], k);
      if ops[0].Track() == k {
        var rest := OpsOn(ops[1..], k);
        assert BackOps([ops[0]] + rest) == [Some(BackOp(ops[0]))] + BackOps(rest);
        assert ([Some(BackOp(ops[0]))] + BackOps(rest))[1..] == BackOps(rest);
      } else {
        assert OpsOn(ops, k) == OpsOn(ops[1..], k);
      }
    }
  }

  lemma {:induction false} SoundOpsOn(spec: Spec, ops: seq<Op>, k: Octet)
    requires AllSound(spec, ops)
    ensures AllSound(spec, OpsOn(ops, k))
  {
    if ops != [] {
      SoundOpsOn(spec, ops[1..], k);
      var rest := OpsOn(ops[1..], k);
      assert ([ops[0]] + rest)[1..] == rest && [] + rest == rest;
    }
  }

  /** `segs` holds, track by track, the segments of `ops` in order. */
  ghost predicate Carries(spec: Spec, segs: seq<Segment>, ops: seq<Op>)
  {
    && (forall i :: 0 <= i < |segs| ==> segs[i].track == COMMAND || segs[i].track == CONTROL)
    && (forall k :: k == COMMAND || k == CONTROL ==>
          EncodeAll(spec, OpsOn(ops, k)).Some? && SegmentsOn(segs, k) == EncodeAll(spec, OpsOn(ops, k)).value)
  }

  lemma TrackReturns(spec: Spec, segs: seq<Segment>, ops: seq<Op>, k: Octet)
    requires Wellformed(spec) && Carries(spec, segs, ops) && (k == COMMAND || k == CONTROL)
    requires AllSound(spec, ops)
    ensures DecodeAll(spec, Decoding(map[], []), SegmentsOn(segs, k)) == Some(Decoding(map[], BackOps(OpsOn(ops, k))))
    ensures OnTracks(SegmentsOn(segs, k))
  {
    SoundOpsOn(spec, ops, k);
    OpsBack(spec, Decoding(map[], []), OpsOn(ops, k));
    assert [] + BackOps(OpsOn(ops, k)) == BackOps(OpsOn(ops, k));
    AllOnTracks(spec, OpsOn(ops, k));
  }

  /** Ops that stay together on their own track come back: class, fields, sync,
      channel, headers and payload, an absent payload distinct from an empty one,
      in order, and nothing else is delivered or left open. */
  lemma OpsReturn(spec: Spec, segs: seq<Segment>, ops: seq<Op>)
    requires Wellformed(spec) && Carries(spec, segs, ops)
    requires AllSound(spec, ops)
    ensures DecodeAll(spec, Decoding(map[], []), segs).Some?
    ensures var d := DecodeAll(spec, Decoding(map[], []), segs).value;
            && d.current == map[]
            && (forall i :: 0 <= i < |d.ops| ==> d.ops[i].Some?)
            && (forall k :: k == COMMAND || k == CONTROL ==> Decoded(d.ops, k) == BackOps(OpsOn(ops, k)))
  {
    var start := Decoding(map[], []);
    TrackReturns(spec, segs, ops, CONTROL);
    TrackReturns(spec, segs, ops, COMMAND);
    BothOnTracks(segs);
    TracksDoNotMix(spec, start, start, start, segs);
    AllDecoded(ops, CONTROL);
    AllDecoded(ops, COMMAND);
    NothingOpen(DecodeAll(spec, start, segs).value);
  }

  lemma NothingOpen(d: Decoding)
    requires Tracked(d) && CONTROL !in d.current && COMMAND !in d.current
    ensures d.current == map[]
  {
    assert d.current.Keys <= {CONTROL, COMMAND};
    assert d.current.Keys == {};
  }

  /** The open op is filed under its track alone: when commands of two channels
      take turns on the command track, the second is delivered with the body of
      the first, and its own body then finds no op. */
  lemma ChannelsMayNotTakeTurns(spec: Spec, a: Op, b: Op)
    requires Wellformed(spec) && SoundOp(spec, a) && SoundOp(spec, b)
    requires a.Command? && b.Command? && a.headers.None? && b.headers.None? && a.payload.Some? && b.payload.Some?
    requires Encode(spec, a).Some? && Encode(spec, b).Some?
    ensures |Encode(spec, a).value| == |Encode(spec, b).value| == 2
    ensures var s, t := Encode(spec, a).value, Encode(spec, b).value;
            var start := Decoding(map[], []);
            && DecodeAll(spec, start, [s[0], t[0], s[1]]) == Some(Decoding(map[],
                [Some(BackOp(b).(payload := a.payload))]))
            && DecodeAll(spec, start, [s[0], t[0], s[1], t[1]]) == None
  {
    var s0, t0 := FirstSegment(a, EncodeOp(spec, a).value), FirstSegment(b, EncodeOp(spec, b).value);
    var s1, t1 := BodySegments(a)[0].(last := true), BodySegments(b)[0].(last := true);
    assert Encode(spec, a).value == [s0, s1] && Encode(spec, b).value == [t0, t1];
    var d0 := Decoding(map[], []);
    var d1 := Decoding(d0.current[COMMAND := Some(Opened(a))], []);
    var d2 := Decoding(d1.current[COMMAND := Some(Opened(b))], []);
    var d3 := Decoding(d2.current - {COMMAND}, [Some(Opened(b).(payload := a.payload))]);
    assert d3.current == map[];
    FirstBack(spec, d0, a, false);
    FirstBack(spec, d1, b, false);
    BodyStep(spec, d2, a, Opened(b));
    assert d2.ops + [Some(Opened(b).(payload := a.payload))] == d3.ops;
    assert DecodeOne(spec, d3, t1) == None;
    Four(spec, d0, s0, t0, s1, t1);
  }

  lemma Four(spec: Spec, d: Decoding, s0: Segment, s1: Segment, s2: Segment, s3: Segment)
    ensures DecodeAll(spec, d, [s0, s1, s2, s3]) == Then(spec, DecodeAll(spec, d, [s0, s1, s2]), s3)
    ensures DecodeAll(spec, d, [s0, s1, s2]) == Then(spec, Then(spec, DecodeOne(spec, d, s0), s1), s2)
  {
    assert [s0, s1, s2] == [s0] + ([s1] + ([s2] + []));
    assert [s0, s1, s2, s3] == [s0] + ([s1] + ([s2] + ([s3] + [])));
    DecodeFirst(spec, d, s0, [s1] + ([s2] + []));
    DecodeFirst(spec, d, s0, [s1] + ([s2] + ([s3] + [])));
    var d1 := DecodeOne(spec, d, s0);
    if d1.Some? {
      DecodeFirst(spec, d1.value, s1, [s2] + []);
      DecodeFirst(spec, d1.value, s1, [s2] + ([s3] + []));
      var d2 := DecodeOne(spec, d1.value, s1);
      if d2.Some? {
        DecodeFirst(spec, d2.value, s2, []);
        DecodeFirst(spec, d2.value, s2, [s3] + []);
        var d3 := DecodeOne(spec, d2.value, s2);
        if d3.Some? {
          DecodeFirst(spec, d3.value, s3, []);
        }
      }
    }
  }

  function Then(spec: Spec, d: Option<Decoding>, seg: Segment): Option<Decoding>
  {
    if d.None? then None else DecodeOne(spec, d.value, seg)
  }

  // ----- What stands in the segments -----

  /** Which segments an op becomes: one for the command or control, one for its headers
      and one for its body, when it has them, of the types 1 or 0, 2 and 3, all on
      its channel and track; the first opens the op and the last ends it. */
  lemma SegmentsOfOp(spec: Spec, op: Op)
    requires Encode(spec, op).Some?
    ensures var segs := Encode(spec, op).value;
            var hs, bs := op.Command? && op.headers.Some?, op.Command? && op.payload.Some?;
            && |segs| == 1 + (if hs then 1 else 0) + (if bs then 1 else 0)
            && segs[0].kind == (if op.Command? then 1 else 0)
            && (hs ==> segs[1].kind == 2)
            && (bs ==> segs[|segs| - 1].kind == 3 && segs[|segs| - 1].payload == op.payload.value)
            && forall i :: 0 <= i < |segs| ==>
                 && segs[i].channel == op.channel && segs[i].track == (if op.Command? then 1 else 0)
                 && (segs[i].first <==> i == 0) && (segs[i].last <==> i == |segs| - 1)
  {
    var first, hs, body := FirstSegment(op, EncodeOp(spec, op).value), HeaderSegments(spec, op).value, BodySegments(op);
    MarkedAtTheEnd([first] + (hs + body));
  }

  lemma MarkedAtTheEnd(segs: seq<Segment>)
    requires segs != []
    ensures |LastMarked(segs)| == |segs|
    ensures forall i :: 0 <= i < |segs| ==>
      LastMarked(segs)[i] == if i == |segs| - 1 then segs[i].(last := true) else segs[i]
  {
  }

  lemma SyncOctets(t: Tables, sync: bool)
    ensures WriteCompound(t, SyncHeader(sync)) == Some([1, if sync then 1 else 0])
  {
    var h := SyncHeader(sync);
    var flag: Octet := if sync then 1 else 0;
    assert h.struct.fields[1..] == [] && h.values[1..] == [];
    var none: seq<Octet> := [];
    assert WriteFields(t, h.struct.fields[1..], h.values[1..]) == Some(none) && none + none == none;
    assert sync ==> WriteField(t, h.struct.fields[0], h.values[0]) == Some(none);
    assert WriteFields(t, h.struct.fields, h.values) == Some(none);
    assert Present(h.struct.fields, h.values) == [sync];
    assert [sync][1..] == [] && FromBits([]) == 0;
    assert FromBits([sync]) == flag + 2 * FromBits([sync][1..]);
    OneOctet(flag);
    assert WriteRecord(t, h) == Some([flag] + []) && [flag] + [] == [flag] == [] + [flag];
    PowFour();
    OneOctet(1);
    assert [1] + [flag] == [1, flag];
  }

  lemma OneOctet(o: Octet)
    ensures LittleOctets(o, 1) == [o] && Pack(o, 1) == [o]
  {
    assert LittleOctets(o / 256, 0) == [] && Pack(o / 256, 0) == [];
  }

  /** A command: its code, a header of one octet that says whether to sync, and its
      fields. */
  lemma CommandOctets(spec: Spec, op: Op)
    requires EncodeOp(spec, op).Some? && op.Command?
    ensures var w, code := EncodeOp(spec, op).value, op.record.struct.code;
            && |w| >= 4 && code.Some? && Unpack(w[..2]) == code.value && w[2] == 1 && w[3] == (if op.sync then 1 else 0)
            && WriteRecord(spec.types, op.record) == Some(w[4..])
  {
    var code, fields := op.record.struct.code.value, WriteRecord(spec.types, op.record).value;
    SyncOctets(spec.types, op.sync);
    var header: seq<Octet> := [1, if op.sync then 1 else 0];
    Associate(Pack(code, 2), header, fields);
    PowFour();
    ReadNumber(code, 2, header + fields);
    var w := EncodeOp(spec, op).value;
    assert w[2] == w[2..][0] && w[3] == w[2..][1] && w[4..] == w[2..][2..] == fields;
  }

  /** A control: its code and its fields. */
  lemma ControlOctets(spec: Spec, op: Op)
    requires Wellformed(spec) && EncodeOp(spec, op).Some? && op.Control?
    ensures var w, code := EncodeOp(spec, op).value, op.record.struct.code;
            && |w| >= 2 && code.Some? && Unpack(w[..2]) == code.value
            && WriteRecord(spec.types, op.record) == Some(w[2..])
  {
    var code, fields := op.record.struct.code.value, WriteRecord(spec.types, op.record).value;
    PowFour();
    assert [] + (Pack(code, 2) + fields) == Pack(code, 2) + fields;
    ReadNumber(code, 2, fields);
  }
}
