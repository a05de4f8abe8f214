/** Parse events and the text they print as (qpid/python/mllib/parsers.py and
    transforms.py). */
module Events {
  import opened Wrappers

  type Attributes = seq<(string, string)>

  datatype Event =
    | Start(name: string, attrs: Attributes)
    | End(name: string)
    | Text(data: string)
    | EntityRef(ref: string)
    | CharacterRef(ref: string)
    | Remark(comment: string)

  /** One more event, joined to the last one when both are text. */
  function Absorb(es: seq<Event>, e: Event): seq<Event>
  {
    if es != [] && es[|es| - 1].Text? && e.Text?
    then es[..|es| - 1] + [Text(es[|es| - 1].data + e.data)]
    else es + [e]
  }

  /** The events with runs of text joined. */
  function Merge(es: seq<Event>): seq<Event>
  {
    if es == [] then [] else Absorb(Merge(es[..|es| - 1]), es[|es| - 1])
  }

  /** The tags left open, outermost first, after closing the innermost one with
      that name and everything inside it. */
  function CloseTag(open: seq<string>, name: string): seq<string>
  {
    if open == [] then []
    else if open[|open| - 1] == name then open[..|open| - 1]
    else CloseTag(open[..|open| - 1], name)
  }

  function OpenAfter(open: seq<string>, e: Event): seq<string>
  {
    match e
    case Start(name, _) => open + [name]
    case End(name) => CloseTag(open, name)
    case _ => open
  }

  function Open(es: seq<Event>): seq<string>
  {
    if es == [] then [] else OpenAfter(Open(es[..|es| - 1]), es[|es| - 1])
  }

  /** Every end names a tag that is open at that point. */
  predicate Matched(es: seq<Event>)
  {
    forall i :: 0 <= i < |es| && es[i].End? ==> es[i].name in Open(es[..i])
  }

  lemma MatchedNext(es: seq<Event>, i: nat)
    requires i < |es|
    ensures es[..i + 1] == es[..i] + [es[i]]
    ensures Matched(es[..i + 1]) <==> Matched(es[..i]) && (es[i].End? ==> es[i].name in Open(es[..i]))
    ensures Matched(es) ==> Matched(es[..i + 1])
  {
    forall j | 0 <= j <= i ensures es[..i + 1][..j] == es[..j] {
    }
    forall j | 0 <= j < i ensures es[..i][..j] == es[..j] {
    }
    if Matched(es[..i + 1]) {
      assert es[..i + 1][i] == es[i];
      forall j | 0 <= j < i && es[..i][j].End?
        ensures es[..i][j].name in Open(es[..i][..j])
      {
        assert es[..i + 1][j] == es[j];
      }
    }
  }

  lemma MergeAppends(es: seq<Event>, e: Event)
    ensures Merge(es + [e]) == Absorb(Merge(es), e)
    ensures Open(es + [e]) == OpenAfter(Open(es), e)
  {
    assert (es + [e])[..|es|] == es;
  }

  function RenderAttributes(attrs: Attributes): string
  {
    if attrs == [] then "" else " " + attrs[0].0 + "=\"" + attrs[0].1 + "\"" + RenderAttributes(attrs[1..])
  }

  /** The text of one event; printing a character reference raises. */
  function Render(e: Event): Option<string>
  {
    match e
    case Start(name, attrs) => Some("<" + name + RenderAttributes(attrs) + ">")
    case End(name) => Some("</" + name + ">")
    case Text(data) => Some(data)
    case EntityRef(ref) => Some("&" + ref + ";")
    case CharacterRef(_) => None
    case Remark(comment) => Some("<!-- " + comment + " -->")
  }

  function RenderAll(es: seq<Event>): Option<string>
  {
    if es == [] then Some("") else Glue(Render(es[0]), RenderAll(es[1..]))
  }

  lemma GlueAssociates(a: Option<string>, b: Option<string>, c: Option<string>)
    ensures Glue(Glue(a, b), c) == Glue(a, Glue(b, c))
    ensures Glue(Some(""), a) == a == Glue(a, Some(""))
  {
    if a.Some? && b.Some? && c.Some? {
      assert (a.value + b.value) + c.value == a.value + (b.value + c.value);
    }
    if a.Some? {
      assert "" + a.value == a.value == a.value + "";
    }
  }

  lemma {:induction false} RenderAppends(a: seq<Event>, b: seq<Event>)
    ensures RenderAll(a + b) == Glue(RenderAll(a), RenderAll(b))
  {
    if a == [] {
      assert a + b == b;
      GlueAssociates(RenderAll(b), None, None);
    } else {
      assert (a + b)[0] == a[0] && (a + b)[1..] == a[1..] + b;
      RenderAppends(a[1..], b);
      GlueAssociates(Render(a[0]), RenderAll(a[1..]), RenderAll(b));
    }
  }

  lemma RenderOne(e: Event)
    ensures RenderAll([e]) == Render(e)
  {
    assert [e][1..] == [];
    GlueAssociates(Render(e), None, None);
  }

  lemma AbsorbRenders(es: seq<Event>, e: Event)
    ensures RenderAll(Absorb(es, e)) == Glue(RenderAll(es), Render(e))
  {
    RenderAppends(es, [e]);
    RenderOne(e);
    if es != [] && es[|es| - 1].Text? && e.Text? {
      var front, last := es[..|es| - 1], es[|es| - 1];
      var joined := Text(last.data + e.data);
      assert es == front + [last];
      RenderAppends(front, [last]);
      RenderAppends(front, [joined]);
      RenderOne(last);
      RenderOne(joined);
      GlueAssociates(RenderAll(front), Render(last), Render(e));
    }
  }

  /** Joining runs of text does not change what is printed. */
  lemma {:induction false} MergeRenders(es: seq<Event>)
    ensures RenderAll(Merge(es)) == RenderAll(es)
  {
    if es != [] {
      var front, last := es[..|es| - 1], es[|es| - 1];
      MergeRenders(front);
      AbsorbRenders(Merge(front), last);
      RenderAppends(front, [last]);
      RenderOne(last);
      assert es == front + [last];
    }
  }

  /** Printing raises exactly when a character reference was among the events. */
  lemma {:induction false} RenderRaisesExactly(es: seq<Event>)
    ensures RenderAll(es).None? <==> exists i :: 0 <= i < |es| && es[i].CharacterRef?
  {
    if es != [] {
      RenderRaisesExactly(es[1..]);
      if i :| 0 <= i < |es| && es[i].CharacterRef? && i > 0 {
        assert es[1..][i - 1].CharacterRef?;
      }
      if RenderAll(es[1..]).None? {
        var j :| 0 <= j < |es[1..]| && es[1..][j].CharacterRef?;
        assert es[j + 1].CharacterRef?;
      }
    }
  }

  lemma {:induction false} CloseTagIsPrefix(open: seq<string>, name: string)
    ensures CloseTag(open, name) <= open
    ensures name in open ==> |CloseTag(open, name)| < |open| && open[|CloseTag(open, name)|] == name
    ensures name in open ==> name !in open[|CloseTag(open, name)| + 1..]
  {
    if open != [] && open[|open| - 1] != name {
      CloseTagIsPrefix(open[..|open| - 1], name);
      assert open == open[..|open| - 1] + [open[|open| - 1]];
    }
  }
}
