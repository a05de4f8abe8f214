/** Content trees and the frames that carry them (qpid/python/qpid/peer.py,
    qpid/python/qpid/content.py; AMQP 0-9-1 section 4.2.6.1). */
module Contents {
  import opened Wrappers
  import opened Sequences
  import opened Octets

  type Properties = map<string, seq<Octet>>

  datatype Content = Content(body: seq<Octet>, children: seq<Content>, properties: Properties)

  datatype Frame =
    | Header(klass: nat, weight: nat, size: nat, properties: Properties)
    | Body(content: seq<Octet>)

  class Queue {
    var frames: seq<Frame>

    constructor (frames: seq<Frame>)
      ensures this.frames == frames
    {
      this.frames := frames;
    }

    method Put(f: Frame)
      modifies this
      ensures frames == old(frames) + [f]
    {
      frames := frames + [f];
    }

    /** None when there is nothing to get: the caller waits, and is told of the
        end when the queue is closed. */
    method Get() returns (f: Option<Frame>)
      modifies this
      ensures if old(frames) == [] then f.None? && frames == []
              else f == Some(old(frames)[0]) && frames == old(frames)[1..]
    {
      if frames == [] {
        return None;
      }
      f := Some(frames[0]);
      frames := frames[1..];
    }
  }

  // ----- Writing -----

  /** How the bodies of a tree are cut into frames. */
  datatype Cut = Cut(pieces: seq<seq<Octet>>, children: seq<Cut>)

  function Bodies(pieces: seq<seq<Octet>>): seq<Frame>
  {
    seq(|pieces|, i requires 0 <= i < |pieces| => Body(pieces[i]))
  }

  ghost predicate Cuts(cut: Cut, c: Content)
    decreases c
  {
    && Join(cut.pieces) == c.body
    && |cut.children| == |c.children|
    && forall i :: 0 <= i < |c.children| ==> Cuts(cut.children[i], c.children[i])
  }

  /** The header, the children, then the body in pieces. */
  function Frames(klass: nat, c: Content, cut: Cut): seq<Frame>
    requires Cuts(cut, c)
    decreases c, 1
  {
    [Header(klass, |c.children|, |c.body|, c.properties)] + FramesOf(klass, c.children, cut.children)
        + Bodies(cut.pieces)
  }

  function FramesOf(klass: nat, cs: seq<Content>, cuts: seq<Cut>): seq<Frame>
    requires |cuts| == |cs| && forall i :: 0 <= i < |cs| ==> Cuts(cuts[i], cs[i])
    decreases cs, 0
  {
    if cs == [] then [] else Frames(klass, cs[0], cuts[0]) + FramesOf(klass, cs[1..], cuts[1..])
  }

  /** What the writer does: an empty body is not written, any other is one frame. */
  function Whole(c: Content): (cut: Cut)
    ensures Cuts(cut, c)
    decreases c, 1
  {
    assert Join([c.body]) == c.body + Join([]);
    Cut(if c.body == [] then [] else [c.body], WholeOf(c.children))
  }

  function WholeOf(cs: seq<Content>): (cuts: seq<Cut>)
    ensures |cuts| == |cs| && forall i :: 0 <= i < |cs| ==> Cuts(cuts[i], cs[i])
    decreases cs, 0
  {
    if cs == [] then [] else [Whole(cs[0])] + WholeOf(cs[1..])
  }

  method WriteContent(outgoing: Queue, klass: nat, c: Content)
    modifies outgoing
    ensures outgoing.frames == old(outgoing.frames) + Frames(klass, c, Whole(c))
    decreases c
  {
    outgoing.Put(Header(klass, |c.children|, |c.body|, c.properties));
    ghost var base := outgoing.frames;
    for i := 0 to |c.children|
      invariant outgoing.frames + FramesOf(klass, c.children[i..], WholeOf(c.children)[i..])
                == base + FramesOf(klass, c.children, WholeOf(c.children))
    {
      WholeAt(c.children, i);
      ghost var was := outgoing.frames;
      WriteContent(outgoing, klass, c.children[i]);
      Associate(was, Frames(klass, c.children[i], Whole(c.children[i])),
                FramesOf(klass, c.children[i + 1..], WholeOf(c.children)[i + 1..]));
    }
    ghost var header, children := [Header(klass, |c.children|, |c.body|, c.properties)],
        FramesOf(klass, c.children, WholeOf(c.children));
    Associate(old(outgoing.frames), header, children);
    Associate(old(outgoing.frames), header + children, Bodies(Whole(c).pieces));
    if c.body != [] {
      outgoing.Put(Body(c.body));
    }
    assert Bodies(Whole(c).pieces) == if c.body == [] then [] else [Body(c.body)];
  }

  lemma {:induction false} WholeAt(cs: seq<Content>, i: nat)
    requires i < |cs|
    ensures WholeOf(cs)[i] == Whole(cs[i])
    ensures cs[i..][0] == cs[i] && cs[i..][1..] == cs[i + 1..]
    ensures WholeOf(cs)[i..][0] == Whole(cs[i]) && WholeOf(cs)[i..][1..] == WholeOf(cs)[i + 1..]
  {
    if i > 0 {
      WholeAt(cs[1..], i - 1);
    }
  }

  // ----- Reading -----

  /** The loop that collects a body; None when a frame is not there or is not a
      body. */
  function ReadBodies(size: nat, buf: seq<Octet>, q: seq<Frame>): (r: Option<(seq<Octet>, seq<Frame>)>)
    ensures r.Some? ==> |r.value.1| <= |q|
    decreases |q|
  {
    if |buf| >= size then Some((buf, q))
    else if q == [] || !q[0].Body? then None
    else ReadBodies(size, buf + q[0].content, q[1..])
  }

  function Read(q: seq<Frame>): (r: Option<(Content, seq<Frame>)>)
    ensures r.Some? ==> |r.value.1| < |q|
    decreases |q|, 0, 0
  {
    if q == [] || !q[0].Header? then None
    else
      var h := q[0];
      var cs := ReadChildren(h.weight, q[1..]);
      var body := if cs.None? then None else ReadBodies(h.size, [], cs.value.1);
      if body.None? then None else Some((Content(body.value.0, cs.value.0, h.properties), body.value.1))
  }

  function ReadChildren(weight: nat, q: seq<Frame>): (r: Option<(seq<Content>, seq<Frame>)>)
    ensures r.Some? ==> |r.value.1| <= |q|
    decreases |q|, 1, weight
  {
    if weight == 0 then Some(([], q))
    else
      var c := Read(q);
      var cs := if c.None? then None else ReadChildren(weight - 1, c.value.1);
      if cs.None? then None else Some(([c.value.0] + cs.value.0, cs.value.1))
  }

  /** None when a frame is missing or of the wrong kind; the frames got until then
      are gone. */
  method ReadContent(queue: Queue) returns (c: Option<Content>)
    modifies queue
    ensures var r := Read(old(queue.frames));
            if r.None? then c.None? else c == Some(r.value.0) && queue.frames == r.value.1
    ensures |queue.frames| <= |old(queue.frames)|
    decreases |queue.frames|
  {
    var header := queue.Get();
    if header.None? || !header.value.Header? {
      return None;
    }
    var h := header.value;
    var children: seq<Content> := [];
    ghost var start := queue.frames;
    ghost var all := ReadChildren(h.weight, start);
    assert all.Some? ==> [] + all.value.0 == all.value.0;
    for i := 0 to h.weight
      invariant |queue.frames| <= |start|
      invariant var rest := ReadChildren(h.weight - i, queue.frames);
                if all.None? || rest.None? then all.None? && rest.None?
                else all.value == (children + rest.value.0, rest.value.1)
    {
      ghost var rest := ReadChildren(h.weight - i, queue.frames);
      var child := ReadContent(queue);
      if child.None? {
        return None;
      }
      if rest.Some? {
        Associate(children, [child.value], rest.value.0[1..]);
      }
      children := children + [child.value];
    }
    assert children + [] == children;
    var buf: seq<Octet> := [];
    ghost var bodies := queue.frames;
    while |buf| < h.size
      invariant |queue.frames| <= |start|
      invariant ReadBodies(h.size, buf, queue.frames) == ReadBodies(h.size, [], bodies)
      decreases |queue.frames|
    {
      var body := queue.Get();
      if body.None? || !body.value.Body? {
        return None;
      }
      buf := buf + body.value.content;
    }
    return Some(Content(buf, children, h.properties));
  }

  // ----- Reading undoes writing -----

  /** The empty pieces at the end, which nobody waits for. */
  function Trailing(pieces: seq<seq<Octet>>): nat
  {
    if Join(pieces) == [] then |pieces| else Trailing(pieces[1..])
  }

  /** The frames that a tree leaves in the queue: its own trailing pieces and, when
      it has no body to collect, what its last child leaves. */
  function Leaves(c: Content, cut: Cut): nat
    requires Cuts(cut, c)
    decreases c, 1
  {
    Trailing(cut.pieces) + if c.body == [] then LastLeaves(c.children, cut.children) else 0
  }

  function LastLeaves(cs: seq<Content>, cuts: seq<Cut>): nat
    requires |cuts| == |cs| && forall i :: 0 <= i < |cs| ==> Cuts(cuts[i], cs[i])
    decreases cs, 0
  {
    if cs == [] then 0 else if |cs| == 1 then Leaves(cs[0], cuts[0]) else LastLeaves(cs[1..], cuts[1..])
  }

  /** At every depth, only the last child may leave frames behind. */
  predicate Clean(c: Content, cut: Cut)
    requires Cuts(cut, c)
    decreases c, 1
  {
    AllClean(c.children, cut.children)
  }

  predicate AllClean(cs: seq<Content>, cuts: seq<Cut>)
    requires |cuts| == |cs| && forall i :: 0 <= i < |cs| ==> Cuts(cuts[i], cs[i])
    decreases cs, 0
  {
    cs == [] || (&& Clean(cs[0], cuts[0]) && (|cs| > 1 ==> Leaves(cs[0], cuts[0]) == 0)
                 && AllClean(cs[1..], cuts[1..]))
  }

  function Blanks(n: nat): seq<Frame>
  {
    seq(n, i => Body([]))
  }

  lemma {:induction false} TrailingAreLast(pieces: seq<seq<Octet>>)
    ensures Trailing(pieces) == 0 <==> (pieces != [] ==> pieces[|pieces| - 1] != [])
    ensures Trailing(pieces) <= |pieces|
    ensures forall i :: |pieces| - Trailing(pieces) <= i < |pieces| ==> pieces[i] == []
  {
    if pieces != [] {
      TrailingAreLast(pieces[1..]);
      if Join(pieces) == [] {
        assert Join(pieces[1..]) == [];
      }
    }
  }

  /** A body is collected from its pieces, and its trailing pieces stay behind. */
  lemma {:induction false} BodiesReturn(buf: seq<Octet>, pieces: seq<seq<Octet>>, q: seq<Frame>)
    ensures ReadBodies(|buf + Join(pieces)|, buf, Bodies(pieces) + q)
            == Some((buf + Join(pieces), Blanks(Trailing(pieces)) + q))
    decreases |pieces|
  {
    if Join(pieces) == [] {
      TrailingAreLast(pieces);
      assert buf + [] == buf && Bodies(pieces) == Blanks(|pieces|);
    } else {
      var frames := Bodies(pieces) + q;
      assert frames[0] == Body(pieces[0]) && frames[1..] == Bodies(pieces[1..]) + q;
      Associate(buf, pieces[0], Join(pieces[1..]));
      BodiesReturn(buf + pieces[0], pieces[1..], q);
    }
  }

  /** A body that is not empty also takes up the blank frames before its pieces. */
  lemma {:induction false} BlanksPass(size: nat, n: nat, q: seq<Frame>)
    requires size > 0
    ensures ReadBodies(size, [], Blanks(n) + q) == ReadBodies(size, [], q)
    decreases n
  {
    if n == 0 {
      assert Blanks(0) + q == q;
    } else {
      var frames := Blanks(n) + q;
      assert frames[0] == Body([]) && frames[1..] == Blanks(n - 1) + q;
      assert [] + frames[0].content == [];
      BlanksPass(size, n - 1, q);
    }
  }

  lemma BodyReturns(pieces: seq<seq<Octet>>, before: nat, q: seq<Frame>)
    ensures var left := Trailing(pieces) + if Join(pieces) == [] then before else 0;
            ReadBodies(|Join(pieces)|, [], Blanks(before) + (Bodies(pieces) + q))
            == Some((Join(pieces), Blanks(left) + q))
  {
    assert [] + Join(pieces) == Join(pieces);
    if Join(pieces) == [] {
      TrailingAreLast(pieces);
      assert Blanks(before) + (Bodies(pieces) + q) == Blanks(before + |pieces|) + q;
    } else {
      BlanksPass(|Join(pieces)|, before, Bodies(pieces) + q);
      BodiesReturn([], pieces, q);
    }
  }

  /** What reading makes of the frames of any tree, however its bodies are cut. */
  function Reading(c: Content, cut: Cut, q: seq<Frame>): Option<(Content, seq<Frame>)>
    requires Cuts(cut, c)
  {
    if Clean(c, cut) then Some((c, Blanks(Leaves(c, cut)) + q)) else None
  }

  lemma {:induction false} ContentRead(klass: nat, c: Content, cut: Cut, q: seq<Frame>)
    requires Cuts(cut, c)
    ensures Read(Frames(klass, c, cut) + q) == Reading(c, cut, q)
    decreases c, 1
  {
    var h := Header(klass, |c.children|, |c.body|, c.properties);
    var children, bodies := FramesOf(klass, c.children, cut.children), Bodies(cut.pieces);
    var frames := Frames(klass, c, cut) + q;
    assert frames[0] == h && frames[1..] == children + (bodies + q);
    ChildrenRead(klass, c.children, cut.children, bodies + q);
    BodyReturns(cut.pieces, LastLeaves(c.children, cut.children), q);
  }

  lemma {:induction false} ChildrenRead(klass: nat, cs: seq<Content>, cuts: seq<Cut>, q: seq<Frame>)
    requires |cuts| == |cs| && forall i :: 0 <= i < |cs| ==> Cuts(cuts[i], cs[i])
    ensures ReadChildren(|cs|, FramesOf(klass, cs, cuts) + q)
            == if AllClean(cs, cuts) then Some((cs, Blanks(LastLeaves(cs, cuts)) + q)) else None
    decreases cs, 0
  {
    if cs == [] {
      assert [] + q == q && Blanks(0) + q == q;
    } else {
      var first, rest := Frames(klass, cs[0], cuts[0]), FramesOf(klass, cs[1..], cuts[1..]);
      Associate(first, rest, q);
      ContentRead(klass, cs[0], cuts[0], rest + q);
      ChildrenRead(klass, cs[1..], cuts[1..], q);
      assert cs == [cs[0]] + cs[1..];
      var left := Leaves(cs[0], cuts[0]);
      if left == 0 {
        assert Blanks(0) + (rest + q) == rest + q;
      } else if |cs| == 1 {
        assert rest + q == q;
      } else {
        assert (Blanks(left) + (rest + q))[0] == Body([]);
        assert Read(Blanks(left) + (rest + q)) == None;
        assert !AllClean(cs, cuts);
      }
    }
  }

  /** Exactly when a tree comes back from its frames and the frames behind it are
      left alone: no child but a last one leaves a frame, and neither does the
      root. */
  lemma ContentReturns(klass: nat, c: Content, cut: Cut, q: seq<Frame>)
    requires Cuts(cut, c)
    ensures Read(Frames(klass, c, cut) + q) == Some((c, q)) <==> Clean(c, cut) && Leaves(c, cut) == 0
    ensures Read(Frames(klass, c, cut) + q) == Reading(c, cut, q)
  {
    ContentRead(klass, c, cut, q);
    if Leaves(c, cut) == 0 {
      assert Blanks(0) + q == q;
    } else {
      assert |Blanks(Leaves(c, cut)) + q| > |q|;
    }
  }

  lemma {:induction false} WholeIsClean(c: Content)
    ensures Clean(c, Whole(c)) && Leaves(c, Whole(c)) == 0
    decreases c, 1
  {
    WholeOfIsClean(c.children);
    TrailingAreLast(Whole(c).pieces);
  }

  lemma {:induction false} WholeOfIsClean(cs: seq<Content>)
    ensures AllClean(cs, WholeOf(cs)) && LastLeaves(cs, WholeOf(cs)) == 0
    decreases cs, 0
  {
    if cs != [] {
      WholeIsClean(cs[0]);
      WholeOfIsClean(cs[1..]);
    }
  }

  /** What `write_content` writes, `read_content` reads. */
  lemma WrittenContentReturns(klass: nat, c: Content, q: seq<Frame>)
    ensures Read(Frames(klass, c, Whole(c)) + q) == Some((c, q))
  {
    WholeIsClean(c);
    ContentReturns(klass, c, Whole(c), q);
  }

  /** How a body may be cut: its pieces are used up exactly when none of them is an
      empty one at the end. An empty last frame stays behind in the queue. */
  lemma PiecesAreUsedUpExactly(pieces: seq<seq<Octet>>, q: seq<Frame>)
    ensures ReadBodies(|Join(pieces)|, [], Bodies(pieces) + q) == Some((Join(pieces), q))
            <==> (pieces != [] ==> pieces[|pieces| - 1] != [])
  {
    BodiesReturn([], pieces, q);
    assert [] + Join(pieces) == Join(pieces);
    TrailingAreLast(pieces);
    if Trailing(pieces) == 0 {
      assert Blanks(0) + q == q;
    } else {
      assert |Blanks(Trailing(pieces)) + q| > |q|;
    }
  }

  /** Every header carries the class; the first says how many children follow and how
      long the body is. */
  lemma {:induction false} HeadersSay(klass: nat, c: Content, cut: Cut)
    requires Cuts(cut, c)
    ensures var fs := Frames(klass, c, cut);
            && fs != [] && fs[0] == Header(klass, |c.children|, |c.body|, c.properties)
            && forall f :: f in fs && f.Header? ==> f.klass == klass
    decreases c, 1
  {
    ChildrenSay(klass, c.children, cut.children);
  }

  lemma {:induction false} ChildrenSay(klass: nat, cs: seq<Content>, cuts: seq<Cut>)
    requires |cuts| == |cs| && forall i :: 0 <= i < |cs| ==> Cuts(cuts[i], cs[i])
    ensures var fs := FramesOf(klass, cs, cuts);
            forall f :: f in fs && f.Header? ==> f.klass == klass
    decreases cs, 0
  {
    if cs != [] {
      HeadersSay(klass, cs[0], cuts[0]);
      ChildrenSay(klass, cs[1..], cuts[1..]);
    }
  }

  // ----- What the reader makes of any frames -----

  predicate AllBodies(fs: seq<Frame>)
  {
    forall i :: 0 <= i < |fs| ==> fs[i].Body?
  }

  function ContentsOf(fs: seq<Frame>): seq<seq<Octet>>
    requires AllBodies(fs)
  {
    seq(|fs|, i requires 0 <= i < |fs| => fs[i].content)
  }

  /** A body takes the fewest frames that hold its size, whole even where they hold
      more; it is not read exactly when a header or the end comes before that. */
  lemma {:induction false} BodyTakes(size: nat, buf: seq<Octet>, q: seq<Frame>) returns (k: nat)
    ensures k <= |q| && AllBodies(q[..k])
    ensures var r := ReadBodies(size, buf, q);
            && (r.Some? <==> |buf| + |Join(ContentsOf(q[..k]))| >= size)
            && (r.Some? ==> r.value == (buf + Join(ContentsOf(q[..k])), q[k..]))
            && (r.None? ==> k == |q| || q[k].Header?)
    ensures k > 0 ==> |buf| + |Join(ContentsOf(q[..k - 1]))| < size
    decreases |q|
  {
    if |buf| >= size || q == [] || !q[0].Body? {
      k := 0;
      assert buf + Join(ContentsOf(q[..0])) == buf;
    } else {
      var more := BodyTakes(size, buf + q[0].content, q[1..]);
      k := more + 1;
      FirstContent(q, k);
      Associate(buf, q[0].content, Join(ContentsOf(q[1..][..more])));
      if more > 0 {
        assert forall i :: 0 <= i < more - 1 ==> q[1..][..more - 1][i] == q[1..][..more][i];
        FirstContent(q, more);
      } else {
        assert ContentsOf(q[..0]) == [];
      }
    }
  }

  lemma FirstContent(q: seq<Frame>, k: nat)
    requires 0 < k <= |q| && q[0].Body? && AllBodies(q[1..][..k - 1])
    ensures AllBodies(q[..k]) && Join(ContentsOf(q[..k])) == q[0].content + Join(ContentsOf(q[1..][..k - 1]))
  {
    assert q[..k] == [q[0]] + q[1..][..k - 1];
    assert ContentsOf(q[..k])[1..] == ContentsOf(q[1..][..k - 1]);
  }
}
