/** Segments, frames and octets, and the incremental decoders that undo each
    layer (qpid/python/qpid/framing.py; AMQP 0-10 section 4.4, Framing). */
module Framing {
  import opened Sequences
  import opened Octets

  const HEADER_SIZE: nat := 12
  const MAX_PAYLOAD: nat := 65523

  const FIRST_SEG: nat := 8
  const LAST_SEG: nat := 4
  const FIRST_FRM: nat := 2
  const LAST_FRM: nat := 1

  datatype Frame = Frame(flags: Octet, kind: Octet, track: Octet, channel: Short, payload: seq<Octet>)

  /** The flag tests of Frame: one bit each. */
  predicate Flagged(flags: Octet, bit: nat)
    requires bit > 0
  {
    flags / bit % 2 == 1
  }

  // ----- Frames and octets -----

  /** The frame layout: flags, type, size, a pad octet, track, channel and four
      pad octets, then the payload. */
  function FrameHeader(f: Frame): (h: seq<Octet>)
    requires |f.payload| <= MAX_PAYLOAD
    ensures |h| == HEADER_SIZE
  {
    var size := |f.payload| + HEADER_SIZE;
    [f.flags, f.kind, size / 256, size % 256, 0, f.track % 16, f.channel / 256, f.channel % 256, 0, 0, 0, 0]
  }

  /** A Frame object never holds more than MAX_PAYLOAD octets. */
  predicate Sendable(fs: seq<Frame>)
  {
    forall i :: 0 <= i < |fs| ==> |fs[i].payload| <= MAX_PAYLOAD
  }

  function Wire(fs: seq<Frame>): seq<Octet>
    requires Sendable(fs)
  {
    if fs == [] then [] else FrameHeader(fs[0]) + fs[0].payload + Wire(fs[1..])
  }

  class FrameEncoder {
    var output: seq<Octet>

    constructor ()
      ensures output == []
    {
      output := [];
    }

    method Write(frames: seq<Frame>)
      requires Sendable(frames)
      modifies this
      ensures output == old(output) + Wire(frames)
    {
      for i := 0 to |frames|
        invariant output + Wire(frames[i..]) == old(output) + Wire(frames)
      {
        var f := frames[i];
        ghost var rest := Wire(frames[i + 1..]);
        assert frames[i..][0] == f && frames[i..][1..] == frames[i + 1..];
        assert output + (FrameHeader(f) + f.payload + rest) == (output + FrameHeader(f) + f.payload) + rest;
        output := output + FrameHeader(f);
        output := output + f.payload;
      }
    }

    method Read() returns (result: seq<Octet>)
      modifies this
      ensures result == old(output) && output == []
    {
      result, output := output, [];
    }
  }

  /** Two octets in network byte order. */
  function Big(high: Octet, low: Octet): Short
  {
    high * 256 + low
  }

  /** What the decoder waits for: a header, or the body of a header it has read. */
  datatype Expecting = Header | Body(flags: Octet, kind: Octet, size: Short, track: Octet, channel: Short)

  datatype DecoderState = DecoderState(input: seq<Octet>, output: seq<Frame>, parse: Expecting)

  /** One call of the current parse function: nothing changes, one part is
      parsed, or the Frame constructor raises for an oversized payload. */
  datatype Parsed = Stuck | Next(state: DecoderState) | Raised(state: DecoderState)

  /** Where a Python slice bound falls in a string of that length. */
  function Cut(length: nat, n: int): (k: nat)
    ensures k <= length
  {
    if n < 0 then (if length + n < 0 then 0 else length + n) else if n > length then length else n
  }

  function ParseOne(s: DecoderState): Parsed
  {
    match s.parse
    case Header =>
      if |s.input| < HEADER_SIZE then Stuck
      else
        var h := s.input;
        Next(DecoderState(h[HEADER_SIZE..], s.output, Body(h[0], h[1], Big(h[2], h[3]), h[5], Big(h[6], h[7]))))
    case Body(flags, kind, size, track, channel) =>
      var n := size - HEADER_SIZE;
      if |s.input| < n then Stuck
      else
        var k := Cut(|s.input|, n);
        var payload, rest := s.input[..k], s.input[k..];
        if |payload| > MAX_PAYLOAD then Raised(DecoderState(rest, s.output, s.parse))
        else Next(DecoderState(rest, s.output + [Frame(flags, kind, track, channel, payload)], Header))
  }

  /** The parse loop. It ends on any input, although an empty body is parsed
      without consuming an octet. */
  function Drain(s: DecoderState): Parsed
    ensures !Drain(s).Stuck?
    decreases |s.input|, if s.parse.Body? then 1 else 0
  {
    match ParseOne(s)
    case Stuck => Next(s)
    case Raised(t) => Raised(t)
    case Next(t) => Drain(t)
  }

  class FrameDecoder {
    var input: seq<Octet>
    var output: seq<Frame>
    var parse: Expecting

    function State(): DecoderState
      reads this
    {
      DecoderState(input, output, parse)
    }

    constructor ()
      ensures State() == DecoderState([], [], Header)
    {
      input, output, parse := [], [], Header;
    }

    method Write(bytes: seq<Octet>) returns (ok: bool)
      modifies this
      ensures var d := Drain(old(State()).(input := old(input) + bytes));
              ok == d.Next? && State() == d.state
    {
      input := input + bytes;
      while true
        invariant Drain(State()) == Drain(old(State()).(input := old(input) + bytes))
        decreases |input|, if parse.Body? then 1 else 0
      {
        if parse.Header? {
          if |input| < HEADER_SIZE {
            return true;
          }
          var st := input[..HEADER_SIZE];
          input := input[HEADER_SIZE..];
          parse := Body(st[0], st[1], Big(st[2], st[3]), st[5], Big(st[6], st[7]));
        } else {
          var n := parse.size - HEADER_SIZE;
          if |input| < n {
            return true;
          }
          var k := Cut(|input|, n);
          var payload := input[..k];
          input := input[k..];
          if |payload| > MAX_PAYLOAD {
            return false;
          }
          output := output + [Frame(parse.flags, parse.kind, parse.track, parse.channel, payload)];
          parse := Header;
        }
      }
    }

    method Read() returns (result: seq<Frame>)
      modifies this
      ensures result == old(output) && State() == old(State()).(output := [])
    {
      result, output := output, [];
    }
  }

  function Feed(s: DecoderState, chunks: seq<seq<Octet>>): Parsed
    decreases |chunks|
  {
    if chunks == [] then Next(s)
    else
      var d := Drain(s.(input := s.input + chunks[0]));
      if d.Next? then Feed(d.state, chunks[1..]) else d
  }

  /** The four low bits of the track are all that the header carries. */
  function Arriving(f: Frame): Frame
  {
    f.(track := f.track % 16)
  }

  function ArrivingAll(fs: seq<Frame>): seq<Frame>
  {
    seq(|fs|, i requires 0 <= i < |fs| => Arriving(fs[i]))
  }

  /** The decoder in state `s` has `more` octets yet to come and still owes `fs`. */
  ghost predicate Owes(s: DecoderState, more: seq<Octet>, fs: seq<Frame>)
  {
    && Sendable(fs)
    && match s.parse
       case Header => s.input + more == Wire(fs)
       case Body(flags, kind, size, track, channel) =>
         && fs != []
         && var f := Arriving(fs[0]);
         && flags == f.flags && kind == f.kind && track == f.track && channel == f.channel
         && size == |f.payload| + HEADER_SIZE
         && s.input + more == f.payload + Wire(fs[1..])
  }

  /** Draining delivers some of the owed frames and owes the others. */
  lemma {:induction false} DrainDelivers(s: DecoderState, more: seq<Octet>, fs: seq<Frame>) returns (k: nat)
    requires Owes(s, more, fs)
    ensures k <= |fs|
    ensures var d := Drain(s);
            && d.Next? && ParseOne(d.state).Stuck?
            && d.state.output == s.output + ArrivingAll(fs[..k])
            && Owes(d.state, more, fs[k..])
    decreases |s.input|, if s.parse.Body? then 1 else 0
  {
    var p := ParseOne(s);
    if p.Stuck? {
      k := 0;
      assert fs[0..] == fs && ArrivingAll(fs[..0]) == [];
    } else if s.parse.Header? {
      HeaderRead(s, more, fs);
      k := DrainDelivers(p.state, more, fs);
    } else {
      BodyRead(s, more, fs);
      var j := DrainDelivers(p.state, more, fs[1..]);
      k := j + 1;
      FirstArriving(fs, k);
      Associate(s.output, [Arriving(fs[0])], ArrivingAll(fs[1..][..j]));
    }
  }

  lemma FirstArriving(fs: seq<Frame>, k: nat)
    requires 0 < k <= |fs|
    ensures ArrivingAll(fs[..k]) == [Arriving(fs[0])] + ArrivingAll(fs[1..][..k - 1])
    ensures fs[1..][k - 1..] == fs[k..]
  {
  }

  lemma HeaderRead(s: DecoderState, more: seq<Octet>, fs: seq<Frame>)
    requires Owes(s, more, fs) && s.parse.Header? && |s.input| >= HEADER_SIZE
    ensures Owes(ParseOne(s).state, more, fs)
  {
    var f := fs[0];
    var all := s.input + more;
    var rest := f.payload + Wire(fs[1..]);
    assert all == FrameHeader(f) + rest;
    assert all[..HEADER_SIZE] == FrameHeader(f) && all[HEADER_SIZE..] == rest;
    forall i | 0 <= i < HEADER_SIZE
      ensures s.input[i] == FrameHeader(f)[i]
    {
      assert all[i] == s.input[i];
    }
    assert s.input[HEADER_SIZE..] + more == all[HEADER_SIZE..];
  }

  lemma BodyRead(s: DecoderState, more: seq<Octet>, fs: seq<Frame>)
    requires Owes(s, more, fs) && s.parse.Body? && !ParseOne(s).Stuck?
    ensures ParseOne(s).Next?
    ensures ParseOne(s).state.output == s.output + [Arriving(fs[0])]
    ensures Owes(ParseOne(s).state, more, fs[1..])
  {
    var n := |fs[0].payload|;
    var all := s.input + more;
    assert all[..n] == fs[0].payload && all[n..] == Wire(fs[1..]);
    assert s.input[..n] == all[..n];
    assert s.input[n..] + more == all[n..];
  }

  lemma ArrivingSplit(fs: seq<Frame>, k: nat)
    requires k <= |fs|
    ensures ArrivingAll(fs) == ArrivingAll(fs[..k]) + ArrivingAll(fs[k..])
  {
  }

  lemma {:induction false} FeedDelivers(s: DecoderState, chunks: seq<seq<Octet>>, fs: seq<Frame>)
    requires Owes(s, Join(chunks), fs)
    requires chunks == [] ==> ParseOne(s).Stuck?
    ensures Feed(s, chunks) == Next(DecoderState([], s.output + ArrivingAll(fs), Header))
    decreases |chunks|
  {
    if chunks == [] {
      assert s.input + [] == s.input;
      assert s.parse.Header? && fs == [];
    } else {
      var t := s.(input := s.input + chunks[0]);
      assert (s.input + chunks[0]) + Join(chunks[1..]) == s.input + Join(chunks);
      var k := DrainDelivers(t, Join(chunks[1..]), fs);
      var d := Drain(t).state;
      FeedDelivers(d, chunks[1..], fs[k..]);
      ArrivingSplit(fs, k);
      Associate(s.output, ArrivingAll(fs[..k]), ArrivingAll(fs[k..]));
    }
  }

  /** However the octets of any frames are cut into pieces, the decoder delivers
      those frames, and is left waiting for a header with nothing unread. */
  lemma ChunkingDoesNotMatter(fs: seq<Frame>, chunks: seq<seq<Octet>>)
    requires Sendable(fs) && Join(chunks) == Wire(fs)
    ensures Feed(DecoderState([], [], Header), chunks) == Next(DecoderState([], ArrivingAll(fs), Header))
  {
    var start := DecoderState([], [], Header);
    assert [] + Wire(fs) == Wire(fs);
    FeedDelivers(start, chunks, fs);
    assert [] + ArrivingAll(fs) == ArrivingAll(fs);
  }

  // ----- Segments and frames -----

  datatype Segment = Segment(first: bool, last: bool, kind: Octet, track: Octet, channel: Short, payload: seq<Octet>)

  function SplitFlags(seg: Segment, first: bool, last: bool): Octet
  {
    (if first then FIRST_FRM else 0) + (if last then LAST_FRM else 0) +
    (if seg.first then FIRST_SEG else 0) + (if seg.last then LAST_SEG else 0)
  }

  /** The frames for what remains of a segment; the first frame is made even when
      nothing remains. */
  function SplitFrom(seg: Segment, remaining: seq<Octet>, first: bool, max: nat): seq<Frame>
    requires max > 0
    decreases |remaining|, first
  {
    if !first && remaining == [] then []
    else
      var k := Cut(|remaining|, max);
      var rest := remaining[k..];
      [Frame(SplitFlags(seg, first, rest == []), seg.kind, seg.track, seg.channel, remaining[..k])]
      + SplitFrom(seg, rest, false, max)
  }

  function Split(seg: Segment, max: nat): seq<Frame>
    requires max > 0
  {
    SplitFrom(seg, seg.payload, true, max)
  }

  function SplitAll(segs: seq<Segment>, max: nat): seq<Frame>
    requires max > 0
  {
    if segs == [] then [] else Split(segs[0], max) + SplitAll(segs[1..], max)
  }

  class SegmentEncoder {
    const maxPayload: nat
    var frames: seq<Frame>

    constructor (maxPayload: nat)
      ensures this.maxPayload == maxPayload && frames == []
    {
      this.maxPayload, frames := maxPayload, [];
    }

    method FrameFlags(seg: Segment, first: bool, last: bool) returns (flags: Octet)
      ensures flags == SplitFlags(seg, first, last)
    {
      flags := 0;
      if first {
        flags := flags + FIRST_FRM;
      }
      if last {
        flags := flags + LAST_FRM;
      }
      if seg.first {
        flags := flags + FIRST_SEG;
      }
      if seg.last {
        flags := flags + LAST_SEG;
      }
    }

    method Write(seg: Segment)
      requires 0 < maxPayload <= MAX_PAYLOAD
      modifies this
      ensures frames == old(frames) + Split(seg, maxPayload)
    {
      var remaining := seg.payload;
      var first := true;
      while first || remaining != []
        invariant frames + SplitFrom(seg, remaining, first, maxPayload) == old(frames) + Split(seg, maxPayload)
        decreases |remaining|, first
      {
        var k := Cut(|remaining|, maxPayload);
        var payload := remaining[..k];
        remaining := remaining[k..];
        var flags := FrameFlags(seg, first, remaining == []);
        var f := Frame(flags, seg.kind, seg.track, seg.channel, payload);
        Associate(frames, [f], SplitFrom(seg, remaining, false, maxPayload));
        first := false;
        frames := frames + [f];
      }
    }
  }

  datatype Key = Key(channel: Short, track: Octet)

  datatype Assembly = Assembly(fragments: map<Key, Segment>, segments: seq<Segment>)

  function KeyOf(f: Frame): Key
  {
    Key(f.channel, f.track)
  }

  function Extended(fragments: map<Key, Segment>, f: Frame): Segment
  {
    if KeyOf(f) in fragments
    then var seg := fragments[KeyOf(f)]; seg.(payload := seg.payload + f.payload)
    else Segment(Flagged(f.flags, FIRST_SEG), Flagged(f.flags, LAST_SEG), f.kind, f.track, f.channel, f.payload)
  }

  function Assemble(a: Assembly, f: Frame): Assembly
  {
    var seg := Extended(a.fragments, f);
    if Flagged(f.flags, LAST_FRM) then Assembly(a.fragments - {KeyOf(f)}, a.segments + [seg])
    else Assembly(a.fragments[KeyOf(f) := seg], a.segments)
  }

  function AssembleAll(a: Assembly, fs: seq<Frame>): Assembly
    decreases |fs|
  {
    if fs == [] then a else AssembleAll(Assemble(a, fs[0]), fs[1..])
  }

  class SegmentDecoder {
    var fragments: map<Key, Segment>
    var segments: seq<Segment>

    function State(): Assembly
      reads this
    {
      Assembly(fragments, segments)
    }

    constructor ()
      ensures State() == Assembly(map[], [])
    {
      fragments, segments := map[], [];
    }

    method Write(frames: seq<Frame>)
      modifies this
      ensures State() == AssembleAll(old(State()), frames)
    {
      for i := 0 to |frames|
        invariant AssembleAll(State(), frames[i..]) == AssembleAll(old(State()), frames)
      {
        var frm := frames[i];
        ghost var was := State();
        assert frames[i..][0] == frm && frames[i..][1..] == frames[i + 1..];
        var key := Key(frm.channel, frm.track);
        var seg := Segment(Flagged(frm.flags, FIRST_SEG), Flagged(frm.flags, LAST_SEG),
                           frm.kind, frm.track, frm.channel, []);
        if key in fragments {
          seg := fragments[key];
        } else {
          assert [] + frm.payload == frm.payload;
          fragments := fragments[key := seg];
        }
        seg := seg.(payload := seg.payload + frm.payload);
        fragments := fragments[key := seg];
        if Flagged(frm.flags, LAST_FRM) {
          fragments := fragments - {key};
          segments := segments + [seg];
        }
        assert State().fragments == Assemble(was, frm).fragments;
      }
    }

    method Read() returns (result: seq<Segment>)
      modifies this
      ensures result == old(segments) && State() == old(State()).(segments := [])
    {
      result, segments := segments, [];
    }
  }

  // ----- Interleaved frames are taken apart again -----

  function FramesOf(fs: seq<Frame>, k: Key): seq<Frame>
  {
    if fs == [] then []
    else (if KeyOf(fs[0]) == k then [fs[0]] else []) + FramesOf(fs[1..], k)
  }

  function SegmentsOf(segs: seq<Segment>, k: Key): seq<Segment>
  {
    if segs == [] then []
    else (if Key(segs[0].channel, segs[0].track) == k then [segs[0]] else []) + SegmentsOf(segs[1..], k)
  }

  /** Fragments are filed under their own channel and track. */
  ghost predicate Filed(a: Assembly)
  {
    forall k :: k in a.fragments ==> Key(a.fragments[k].channel, a.fragments[k].track) == k
  }

  /** The two assemblies look the same to one channel and track. */
  ghost predicate Alike(a: Assembly, b: Assembly, k: Key)
  {
    && (k in a.fragments <==> k in b.fragments)
    && (k in a.fragments ==> a.fragments[k] == b.fragments[k])
    && SegmentsOf(a.segments, k) == SegmentsOf(b.segments, k)
  }

  lemma {:induction false} SegmentsOfAppends(a: seq<Segment>, b: seq<Segment>, k: Key)
    ensures SegmentsOf(a + b, k) == SegmentsOf(a, k) + SegmentsOf(b, k)
  {
    if a == [] {
      assert a + b == b;
    } else {
      SegmentsOfAppends(a[1..], b, k);
      assert (a + b)[0] == a[0] && (a + b)[1..] == a[1..] + b;
      var head := if Key(a[0].channel, a[0].track) == k then [a[0]] else [];
      Associate(head, SegmentsOf(a[1..], k), SegmentsOf(b, k));
    }
  }

  lemma SegmentsOfOne(seg: Segment, k: Key)
    ensures SegmentsOf([seg], k) == if Key(seg.channel, seg.track) == k then [seg] else []
  {
    assert [seg][1..] == [];
  }

  /** For every stream of frames, what one channel and track gets out depends
      only on its own frames. */
  lemma {:induction false} OthersDoNotMatter(a: Assembly, b: Assembly, fs: seq<Frame>, k: Key)
    requires Filed(a) && Filed(b) && Alike(a, b, k)
    ensures Alike(AssembleAll(a, fs), AssembleAll(b, FramesOf(fs, k)), k)
    ensures Filed(AssembleAll(a, fs))
    decreases |fs|
  {
    if fs != [] {
      var f := fs[0];
      var a1 := Assemble(a, f);
      var seg := Extended(a.fragments, f);
      SegmentsOfAppends(a.segments, [seg], k);
      SegmentsOfOne(seg, k);
      if KeyOf(f) == k {
        var b1 := Assemble(b, f);
        SegmentsOfAppends(b.segments, [seg], k);
        OthersDoNotMatter(a1, b1, fs[1..], k);
        var mine := [f] + FramesOf(fs[1..], k);
        assert mine[0] == f && mine[1..] == FramesOf(fs[1..], k);
      } else {
        OthersDoNotMatter(a1, b, fs[1..], k);
        assert FramesOf(fs, k) == FramesOf(fs[1..], k);
      }
    }
  }

  lemma {:induction false} AssembleAllAppends(a: Assembly, f: seq<Frame>, g: seq<Frame>)
    ensures AssembleAll(a, f + g) == AssembleAll(AssembleAll(a, f), g)
    decreases |f|
  {
    if f == [] {
      assert f + g == g;
    } else {
      assert (f + g)[0] == f[0] && (f + g)[1..] == f[1..] + g;
      AssembleAllAppends(Assemble(a, f[0]), f[1..], g);
    }
  }

  lemma SplitFlagsRead(seg: Segment, first: bool, last: bool)
    ensures var flags := SplitFlags(seg, first, last);
            && (Flagged(flags, FIRST_SEG) <==> seg.first) && (Flagged(flags, LAST_SEG) <==> seg.last)
            && (Flagged(flags, FIRST_FRM) <==> first) && (Flagged(flags, LAST_FRM) <==> last)
  {
  }

  /** The frames of one segment rebuild it, whatever was collected before. */
  lemma {:induction false} SplitIsRebuilt(a: Assembly, seg: Segment, got: seq<Octet>, remaining: seq<Octet>,
      first: bool, max: nat)
    requires max > 0 && got + remaining == seg.payload
    requires first || remaining != []
    requires var k := Key(seg.channel, seg.track);
             if first then k !in a.fragments && got == []
             else k in a.fragments && a.fragments[k] == seg.(payload := got)
    ensures AssembleAll(a, SplitFrom(seg, remaining, first, max))
            == Assembly(a.fragments - {Key(seg.channel, seg.track)}, a.segments + [seg])
    decreases |remaining|, first
  {
    var cut := Cut(|remaining|, max);
    var rest := remaining[cut..];
    var key := Key(seg.channel, seg.track);
    var fs := SplitFrom(seg, remaining, first, max);
    SplitFlagsRead(seg, first, rest == []);
    assert fs[1..] == SplitFrom(seg, rest, false, max);
    var next := Assemble(a, fs[0]);
    assert remaining == remaining[..cut] + rest;
    assert got + (remaining[..cut] + rest) == (got + remaining[..cut]) + rest;
    assert Extended(a.fragments, fs[0]) == seg.(payload := got + remaining[..cut]);
    if rest == [] {
      assert got + remaining[..cut] == seg.payload;
    } else {
      SplitIsRebuilt(next, seg, got + remaining[..cut], rest, false, max);
      assert next.fragments - {key} == a.fragments - {key};
    }
  }

  lemma {:induction false} SplitAllIsRebuilt(a: Assembly, segs: seq<Segment>, max: nat)
    requires max > 0 && a.fragments == map[]
    ensures AssembleAll(a, SplitAll(segs, max)) == Assembly(map[], a.segments + segs)
    decreases |segs|
  {
    if segs == [] {
      assert a.segments + [] == a.segments;
    } else {
      OneIsRebuilt(a, segs[0], max);
      var next := Assembly(map[], a.segments + [segs[0]]);
      AssembleAllAppends(a, Split(segs[0], max), SplitAll(segs[1..], max));
      SplitAllIsRebuilt(next, segs[1..], max);
      Associate(a.segments, [segs[0]], segs[1..]);
      assert [segs[0]] + segs[1..] == segs;
    }
  }

  lemma OneIsRebuilt(a: Assembly, seg: Segment, max: nat)
    requires max > 0 && a.fragments == map[]
    ensures AssembleAll(a, Split(seg, max)) == Assembly(map[], a.segments + [seg])
  {
    assert [] + seg.payload == seg.payload;
    SplitIsRebuilt(a, seg, [], seg.payload, true, max);
    assert a.fragments - {Key(seg.channel, seg.track)} == map[];
  }

  /** `fs` interleaves the frames of `segs`: for each channel and track it holds
      exactly the frames of that pair's segments, in order, split at that pair's
      own maximum. */
  ghost predicate Interleaves(fs: seq<Frame>, segs: seq<Segment>, max: Key -> nat)
  {
    forall k :: 0 < max(k) <= MAX_PAYLOAD && FramesOf(fs, k) == SplitAll(SegmentsOf(segs, k), max(k))
  }

  /** Demultiplexing: each channel and track gets back its own segments in
      order, and no fragment is left over. */
  lemma InterleavedSegmentsReturn(fs: seq<Frame>, segs: seq<Segment>, max: Key -> nat)
    requires Interleaves(fs, segs, max)
    ensures var a := AssembleAll(Assembly(map[], []), fs);
            a.fragments == map[] && forall k :: SegmentsOf(a.segments, k) == SegmentsOf(segs, k)
  {
    var start := Assembly(map[], []);
    var a := AssembleAll(start, fs);
    forall k
      ensures SegmentsOf(a.segments, k) == SegmentsOf(segs, k) && k !in a.fragments
    {
      OthersDoNotMatter(start, start, fs, k);
      SplitAllIsRebuilt(start, SegmentsOf(segs, k), max(k));
      assert [] + SegmentsOf(segs, k) == SegmentsOf(segs, k);
      OnlyTheirs(segs, k);
    }
  }

  lemma {:induction false} OnlyTheirs(segs: seq<Segment>, k: Key)
    ensures SegmentsOf(SegmentsOf(segs, k), k) == SegmentsOf(segs, k)
  {
    if segs != [] {
      OnlyTheirs(segs[1..], k);
      var tail := SegmentsOf(segs[1..], k);
      assert ([segs[0]] + tail)[1..] == tail;
      assert [] + tail == tail;
    }
  }

  /** The whole pipeline. Segments are split and their frames interleaved in any
      way that keeps each pair's order; the octets arrive in any pieces; then each
      channel and track gets back exactly its segments, in order. */
  lemma PipelineReturnsSegments(fs: seq<Frame>, segs: seq<Segment>, max: Key -> nat, chunks: seq<seq<Octet>>)
    requires Interleaves(fs, segs, max) && (forall i :: 0 <= i < |segs| ==> segs[i].track < 16)
    requires Sendable(fs) && Join(chunks) == Wire(fs)
    ensures var d := Feed(DecoderState([], [], Header), chunks);
            && d.Next? && d.state.input == [] && d.state.parse.Header?
            && var a := AssembleAll(Assembly(map[], []), d.state.output);
               a.fragments == map[] && forall k :: SegmentsOf(a.segments, k) == SegmentsOf(segs, k)
  {
    ChunkingDoesNotMatter(fs, chunks);
    ArrivesAsSent(fs, segs, max);
    InterleavedSegmentsReturn(fs, segs, max);
  }

  /** Four bits are enough for the tracks of such segments. */
  lemma ArrivesAsSent(fs: seq<Frame>, segs: seq<Segment>, max: Key -> nat)
    requires Interleaves(fs, segs, max) && forall i :: 0 <= i < |segs| ==> segs[i].track < 16
    ensures ArrivingAll(fs) == fs
  {
    forall i | 0 <= i < |fs|
      ensures fs[i].track < 16
    {
      TracksOf(fs, i);
      if fs[i].track >= 16 {
        NoneOf(segs, KeyOf(fs[i]));
      }
    }
  }

  lemma {:induction false} TracksOf(fs: seq<Frame>, i: nat)
    requires i < |fs|
    ensures fs[i] in FramesOf(fs, KeyOf(fs[i]))
  {
    if i > 0 {
      TracksOf(fs[1..], i - 1);
    }
  }

  lemma {:induction false} NoneOf(segs: seq<Segment>, k: Key)
    requires k.track >= 16 && forall i :: 0 <= i < |segs| ==> segs[i].track < 16
    ensures SegmentsOf(segs, k) == []
  {
    if segs != [] {
      NoneOf(segs[1..], k);
    }
  }

  // ----- What stands on the wire -----

  /** The header octet by octet: flags, type, the size with the header, a pad, the
      track, the channel, and four pads. The longest frame fills the size. */
  lemma HeaderOctets(f: Frame)
    requires |f.payload| <= MAX_PAYLOAD
    ensures var h := FrameHeader(f);
            && h[0] == f.flags && h[1] == f.kind
            && Unpack(h[2..4]) == |f.payload| + 12
            && h[4] == 0 && h[5] == f.track % 16
            && Unpack(h[6..8]) == f.channel
            && h[8] == h[9] == h[10] == h[11] == 0
    ensures MAX_PAYLOAD + 12 == 65535
  {
    var h, size := FrameHeader(f), |f.payload| + HEADER_SIZE;
    assert h[2..4] == [size / 256, size % 256] && h[6..8] == [f.channel / 256, f.channel % 256];
    TwoOctets(size);
    TwoOctets(f.channel);
  }

  lemma TwoOctets(n: Short)
    ensures Unpack([n / 256, n % 256]) == n
  {
    var s: seq<Octet> := [n / 256, n % 256];
    assert s[..1] == [n / 256] && [n / 256][..0] == [];
    assert Unpack([n / 256]) == n / 256;
  }

  /** Bit 3 of the flags is the segment's first, bit 2 its last, bit 1 the first frame
      and bit 0 the last frame; the others are 0. */
  lemma FlagBits(seg: Segment, first: bool, last: bool)
    ensures var flags := SplitFlags(seg, first, last);
            && flags < 16
            && (Bit(flags, 3) <==> seg.first) && (Bit(flags, 2) <==> seg.last)
            && (Bit(flags, 1) <==> first) && (Bit(flags, 0) <==> last)
  {
    var flags := SplitFlags(seg, first, last);
    assert Bit(flags, 3) == Bit(flags / 2, 2) == Bit(flags / 2 / 2, 1) == Bit(flags / 2 / 2 / 2, 0);
    assert Bit(flags, 2) == Bit(flags / 2, 1) == Bit(flags / 2 / 2, 0);
    assert Bit(flags, 1) == Bit(flags / 2, 0);
  }

  /** Frame number `i` of the frames of a segment: its place in the segment is told by
      its flags, and all frames but the last are full. */
  ghost predicate InPlace(seg: Segment, fs: seq<Frame>, i: nat, first: bool, max: nat)
    requires i < |fs|
  {
    var f := fs[i];
    && f.kind == seg.kind && f.track == seg.track && f.channel == seg.channel
    && (Bit(f.flags, 3) <==> seg.first) && (Bit(f.flags, 2) <==> seg.last)
    && (Bit(f.flags, 1) <==> first && i == 0) && (Bit(f.flags, 0) <==> i == |fs| - 1)
    && |f.payload| <= max && (i < |fs| - 1 ==> |f.payload| == max)
  }

  lemma {:induction false} SplitInPlace(seg: Segment, remaining: seq<Octet>, first: bool, max: nat)
    requires max > 0 && (first || remaining != [])
    ensures var fs := SplitFrom(seg, remaining, first, max);
            fs != [] && forall i :: 0 <= i < |fs| ==> InPlace(seg, fs, i, first, max)
    decreases |remaining|, first
  {
    var k := Cut(|remaining|, max);
    var rest := remaining[k..];
    var more, fs := SplitFrom(seg, rest, false, max), SplitFrom(seg, remaining, first, max);
    FlagBits(seg, first, rest == []);
    assert fs[1..] == more;
    if rest != [] {
      SplitInPlace(seg, rest, false, max);
      forall i | 0 <= i < |fs|
        ensures InPlace(seg, fs, i, first, max)
      {
        if i > 0 {
          assert InPlace(seg, more, i - 1, false, max) && fs[i] == more[i - 1];
        }
      }
    }
  }

  /** A segment is split at every `max` octets and nowhere else. */
  lemma SplitShape(seg: Segment, max: nat)
    requires max > 0
    ensures var fs := Split(seg, max);
            fs != [] && forall i :: 0 <= i < |fs| ==> InPlace(seg, fs, i, true, max)
  {
    SplitInPlace(seg, seg.payload, true, max);
  }

  /** A header whose size does not even count the header: its frame takes all the
      octets that are there but the last ones, as many as the size falls short, and
      it is refused if and only if that is more than any frame may hold. */
  lemma ShortSizes(s: DecoderState, front: seq<Octet>, end: seq<Octet>)
    requires s.parse.Body? && s.parse.size < 12 && s.input == front + end
    requires |end| == 12 - s.parse.size || (front == [] && |end| < 12 - s.parse.size)
    ensures var r := ParseOne(s);
            && (r.Raised? <==> |front| > 65523)
            && !r.Stuck? && r.state.input == end
            && (r.Next? ==> r.state.parse == Header)
            && (r.Next? ==>
                  r.state.output
                  == s.output + [Frame(s.parse.flags, s.parse.kind, s.parse.track, s.parse.channel, front)])
            && (r.Raised? ==> r.state.output == s.output && r.state.parse == s.parse)
  {
    var k := Cut(|s.input|, s.parse.size - HEADER_SIZE);
    assert k == |front|;
    assert s.input[..k] == front && s.input[k..] == end;
  }
}
