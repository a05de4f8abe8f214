/** The whole sending and receiving stack of a connection: ops, segments, frames
    and octets (qpid/python/qpid/framing.py, qpid/python/qpid/connection.py). */
module Stack {
  import opened Wrappers
  import opened Sequences
  import opened Octets
  import opened Framing
  import opened Ops
  import opened Channels

  // ----- Tracks whose frames keep their segments together -----

  function FramesOn(fs: seq<Frame>, t: Octet): seq<Frame>
  {
    if fs == [] then [] else (if fs[0].track == t then [fs[0]] else []) + FramesOn(fs[1..], t)
  }

  /** On each track the segments of all channels follow one another, split at
      that track's own maximum. */
  ghost predicate KeepsTogether(fs: seq<Frame>, segs: seq<Segment>, max: Octet -> nat)
  {
    forall t: Octet :: 0 < max(t) <= MAX_PAYLOAD && FramesOn(fs, t) == SplitAll(SegmentsOn(segs, t), max(t))
  }

  /** The two assemblies look the same to one track. */
  ghost predicate AlikeOn(a: Assembly, b: Assembly, t: Octet)
  {
    && (forall k: Key :: k.track == t ==>
          (k in a.fragments <==> k in b.fragments) && (k in a.fragments ==> a.fragments[k] == b.fragments[k]))
    && SegmentsOn(a.segments, t) == SegmentsOn(b.segments, t)
  }

  lemma {:induction false} SegmentsOnAppends(a: seq<Segment>, seg: Segment, t: Octet)
    ensures SegmentsOn(a + [seg], t) == SegmentsOn(a, t) + (if seg.track == t then [seg] else [])
  {
    if a == [] {
      assert a + [seg] == [seg] && [seg][1..] == [];
    } else {
      assert (a + [seg])[1..] == a[1..] + [seg] && (a + [seg])[0] == a[0];
      SegmentsOnAppends(a[1..], seg, t);
      Associate(if a[0].track == t then [a[0]] else [], SegmentsOn(a[1..], t), if seg.track == t then [seg] else []);
    }
  }

  /** What one track gets out depends only on its own frames. */
  lemma {:induction false} OtherTracksDoNotMatter(a: Assembly, b: Assembly, fs: seq<Frame>, t: Octet)
    requires Filed(a) && Filed(b) && AlikeOn(a, b, t)
    ensures AlikeOn(AssembleAll(a, fs), AssembleAll(b, FramesOn(fs, t)), t)
    decreases |fs|
  {
    if fs != [] {
      var f := fs[0];
      var seg := Extended(a.fragments, f);
      SegmentsOnAppends(a.segments, seg, t);
      if f.track == t {
        SegmentsOnAppends(b.segments, seg, t);
        OtherTracksDoNotMatter(Assemble(a, f), Assemble(b, f), fs[1..], t);
        var mine := [f] + FramesOn(fs[1..], t);
        assert mine[0] == f && mine[1..] == FramesOn(fs[1..], t);
      } else {
        OtherTracksDoNotMatter(Assemble(a, f), b, fs[1..], t);
        assert FramesOn(fs, t) == FramesOn(fs[1..], t);
      }
    }
  }

  lemma {:induction false} OnceOnTrack(segs: seq<Segment>, t: Octet)
    ensures SegmentsOn(SegmentsOn(segs, t), t) == SegmentsOn(segs, t)
  {
    if segs != [] {
      OnceOnTrack(segs[1..], t);
      var tail := SegmentsOn(segs[1..], t);
      assert ([segs[0]] + tail)[1..] == tail;
      assert [] + tail == tail;
    }
  }

  lemma TogetherReturns(fs: seq<Frame>, segs: seq<Segment>, max: Octet -> nat)
    requires KeepsTogether(fs, segs, max)
    ensures var a := AssembleAll(Assembly(map[], []), fs);
            a.fragments == map[] && forall t: Octet :: SegmentsOn(a.segments, t) == SegmentsOn(segs, t)
  {
    var start := Assembly(map[], []);
    var a := AssembleAll(start, fs);
    forall t: Octet
      ensures SegmentsOn(a.segments, t) == SegmentsOn(segs, t)
      ensures forall k: Key :: k.track == t ==> k !in a.fragments
    {
      OtherTracksDoNotMatter(start, start, fs, t);
      SplitAllIsRebuilt(start, SegmentsOn(segs, t), max(t));
      assert [] + SegmentsOn(segs, t) == SegmentsOn(segs, t);
      OnceOnTrack(segs, t);
    }
    forall k: Key
      ensures k !in a.fragments
    {
      assert SegmentsOn(a.segments, k.track) == SegmentsOn(segs, k.track);
    }
  }

  lemma {:induction false} FrameOnTrack(fs: seq<Frame>, i: nat)
    requires i < |fs|
    ensures fs[i] in FramesOn(fs, fs[i].track)
  {
    if i > 0 {
      FrameOnTrack(fs[1..], i - 1);
    }
  }

  ghost predicate OnTwoTracks(segs: seq<Segment>)
  {
    forall i :: 0 <= i < |segs| ==> segs[i].track == COMMAND || segs[i].track == CONTROL
  }

  lemma {:induction false} NoneOn(segs: seq<Segment>, t: Octet)
    requires t != COMMAND && t != CONTROL && OnTwoTracks(segs)
    ensures SegmentsOn(segs, t) == []
  {
    if segs != [] {
      NoneOn(segs[1..], t);
    }
  }

  lemma {:induction false} TrackHolds(segs: seq<Segment>, i: nat)
    requires i < |segs|
    ensures segs[i] in SegmentsOn(segs, segs[i].track)
  {
    if i > 0 {
      TrackHolds(segs[1..], i - 1);
    }
  }

  /** Four bits are enough for the two tracks. */
  lemma TogetherArrives(fs: seq<Frame>, segs: seq<Segment>, max: Octet -> nat)
    requires KeepsTogether(fs, segs, max) && OnTwoTracks(segs)
    ensures ArrivingAll(fs) == fs
  {
    forall i | 0 <= i < |fs|
      ensures fs[i].track < 16
    {
      FrameOnTrack(fs, i);
      if fs[i].track >= 16 {
        NoneOn(segs, fs[i].track);
      }
    }
  }

  lemma SameTracks(segs: seq<Segment>, got: seq<Segment>)
    requires OnTwoTracks(segs) && forall t: Octet :: SegmentsOn(got, t) == SegmentsOn(segs, t)
    ensures OnTwoTracks(got)
  {
    forall i | 0 <= i < |got|
      ensures got[i].track == COMMAND || got[i].track == CONTROL
    {
      TrackHolds(got, i);
      if got[i].track != COMMAND && got[i].track != CONTROL {
        NoneOn(segs, got[i].track);
      }
    }
  }

  lemma TogetherCarries(spec: Spec, ops: seq<Op>, segs: seq<Segment>, fs: seq<Frame>, max: Octet -> nat)
    requires Carries(spec, segs, ops) && KeepsTogether(fs, segs, max)
    ensures var a := AssembleAll(Assembly(map[], []), fs);
            a.fragments == map[] && Carries(spec, a.segments, ops)
  {
    TogetherReturns(fs, segs, max);
    SameTracks(segs, AssembleAll(Assembly(map[], []), fs).segments);
  }

  /** Ops of any number of channels are encoded, each op whole, the segments of the
      two tracks split at any size and interleaved frame by frame, and the octets
      cut into any pieces. The decoders at the other end deliver every track's
      ops in order. */
  lemma OpsSurviveTheWire(spec: Spec, ops: seq<Op>, segs: seq<Segment>,
                          fs: seq<Frame>, max: Octet -> nat, chunks: seq<seq<Octet>>)
    requires Wellformed(spec) && AllSound(spec, ops) && Carries(spec, segs, ops)
    requires KeepsTogether(fs, segs, max) && Sendable(fs) && Join(chunks) == Wire(fs)
    ensures var octets := Feed(DecoderState([], [], Header), chunks);
            && octets.Next? && octets.state.input == []
            && var a := AssembleAll(Assembly(map[], []), octets.state.output);
               var d := DecodeAll(spec, Decoding(map[], []), a.segments);
            && a.fragments == map[] && d.Some? && d.value.current == map[]
            && (forall i :: 0 <= i < |d.value.ops| ==> d.value.ops[i].Some?)
            && (forall k :: k == COMMAND || k == CONTROL ==> Decoded(d.value.ops, k) == BackOps(OpsOn(ops, k)))
  {
    ChunkingDoesNotMatter(fs, chunks);
    TogetherArrives(fs, segs, max);
    TogetherCarries(spec, ops, segs, fs, max);
    OpsReturn(spec, AssembleAll(Assembly(map[], []), fs).segments, ops);
  }

  // ----- One channel -----

  lemma {:induction false} OneChannel(segs: seq<Segment>, channel: Short, track: Octet)
    requires forall i :: 0 <= i < |segs| ==> segs[i].channel == channel
    ensures SegmentsOn(segs, track) == SegmentsOf(segs, Key(channel, track))
    ensures forall c: Short :: c != channel ==> SegmentsOf(segs, Key(c, track)) == []
  {
    if segs != [] {
      OneChannel(segs[1..], channel, track);
    }
  }

  lemma {:induction false} FramesOfOneChannel(fs: seq<Frame>, channel: Short, track: Octet)
    requires forall i :: 0 <= i < |fs| ==> fs[i].channel == channel
    ensures FramesOn(fs, track) == FramesOf(fs, Key(channel, track))
  {
    if fs != [] {
      FramesOfOneChannel(fs[1..], channel, track);
    }
  }

  /** One channel alone always keeps its segments together. */
  lemma OneChannelKeepsTogether(fs: seq<Frame>, segs: seq<Segment>, channel: Short, max: Key -> nat)
    requires Interleaves(fs, segs, max) && forall i :: 0 <= i < |segs| ==> segs[i].channel == channel
    ensures KeepsTogether(fs, segs, (t: Octet) => max(Key(channel, t)))
  {
    forall i | 0 <= i < |fs|
      ensures fs[i].channel == channel
    {
      TracksOf(fs, i);
      OneChannel(segs, channel, fs[i].track);
    }
    forall t: Octet
      ensures FramesOn(fs, t) == SplitAll(SegmentsOn(segs, t), max(Key(channel, t)))
    {
      OneChannel(segs, channel, t);
      FramesOfOneChannel(fs, channel, t);
    }
  }

  // ----- Any channels, interleaved in any way -----

  /** The frames of all channels and tracks are interleaved in any way that keeps
      each pair's order. The octets always give every pair its segments back; the
      ops come back, to every channel and track in order, if and only if no op
      begins on a track, at its first segment's last frame, while another is
      open there. */
  lemma ChannelsSurviveTheWireExactly(spec: Spec, ops: seq<Op>, segs: seq<Segment>,
                                      fs: seq<Frame>, max: Key -> nat, chunks: seq<seq<Octet>>)
    requires Wellformed(spec) && AllSound(spec, ops) && CarriesEach(spec, segs, ops)
    requires Interleaves(fs, segs, max) && Sendable(fs) && Join(chunks) == Wire(fs)
    ensures var octets := Feed(DecoderState([], [], Header), chunks);
            && octets.Next? && octets.state.input == []
            && var a := AssembleAll(Assembly(map[], []), octets.state.output);
               var d := DecodeAll(spec, Decoding(map[], []), a.segments);
            && a.fragments == map[]
            && (d.Some? <==> Undisturbed(AssembleAll(Assembly(map[], []), fs).segments, {}))
            && (d.Some? ==>
                  && d.value.current == map[]
                  && (forall i :: 0 <= i < |d.value.ops| ==> d.value.ops[i].Some?)
                  && (forall k: Key :: DecodedAt(d.value.ops, k) == BackOps(OpsAt(ops, k))))
  {
    forall i | 0 <= i < |segs|
      ensures segs[i].track < 16
    {
      PlacedOnTracks(spec, segs, ops, i);
    }
    PipelineReturnsSegments(fs, segs, max, chunks);
    ArrivesAsSent(fs, segs, max);
    ChunkingDoesNotMatter(fs, chunks);
    ChannelsReturnExactly(spec, AssembleAll(Assembly(map[], []), fs).segments, ops);
  }
}
