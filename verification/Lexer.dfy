/** A reader of the printed text, independent of the printer
    (qpid/python/mllib/transforms.py:100-140). */
module Lexer {
  import opened Wrappers
  import opened Sequences
  import opened Events

  /** The place of the first character that stops the scan, or the end. */
  function Until(s: string, stops: set<char>): (k: nat)
    ensures k <= |s| && (k < |s| ==> s[k] in stops)
    ensures forall j :: 0 <= j < k ==> s[j] !in stops
  {
    if s == "" || s[0] in stops then 0 else 1 + Until(s[1..], stops)
  }

  /** A comment ends here. */
  predicate EndsAt(s: string, i: nat)
  {
    i + 4 <= |s| && s[i..i + 4] == " -->"
  }

  function CommentEnd(s: string): (k: nat)
    ensures k <= |s| && (k < |s| ==> EndsAt(s, k))
  {
    if |s| < 4 then |s| else if EndsAt(s, 0) then 0 else (NextEnd(s, CommentEnd(s[1..])); 1 + CommentEnd(s[1..]))
  }

  lemma NextEnd(s: string, i: nat)
    requires s != ""
    ensures EndsAt(s[1..], i) <==> EndsAt(s, i + 1)
  {
    if i + 5 <= |s| {
      assert s[1..][i..i + 4] == s[i + 1..i + 5];
    }
  }

  /** Attributes up to the end of the tag: a blank, a name up to the equals sign, and
      a value between quotation marks. */
  function LexAttributes(s: string): (r: Option<(Attributes, string)>)
    ensures r.Some? ==> |r.value.1| < |s|
    decreases |s|
  {
    if s == "" then None
    else if s[0] == '>' then Some(([], s[1..]))
    else if s[0] != ' ' then None
    else
      var k := Until(s, {'='});
      if k + 1 >= |s| || s[k + 1] != '\"' then None
      else
        var quoted := s[k + 2..];
        var n := Until(quoted, {'\"'});
        var more := if n == |quoted| then None else LexAttributes(quoted[n + 1..]);
        if more.None? then None else Some(([(s[1..k], quoted[..n])] + more.value.0, more.value.1))
  }

  /** The next event and what follows it. */
  function LexEvent(s: string): (r: Option<(Event, string)>)
    requires s != ""
    ensures r.Some? ==> |r.value.1| < |s|
  {
    if s[0] == '&' then
      var k := Until(s, {';'});
      if k == |s| then None else Some((EntityRef(s[1..k]), s[k + 1..]))
    else if s[0] != '<' then
      var k := Until(s, {'<', '&'});
      Some((Text(s[..k]), s[k..]))
    else if |s| > 1 && s[1] == '/' then
      var k := Until(s, {'>'});
      if k == |s| then None else Some((End(s[2..k]), s[k + 1..]))
    else if |s| >= 5 && s[..5] == "<!-- " then
      var k := CommentEnd(s[5..]);
      if k == |s[5..]| then None else Some((Remark(s[5..][..k]), s[5..][k + 4..]))
    else LexStart(s)
  }

  function LexStart(s: string): (r: Option<(Event, string)>)
    requires s != "" && s[0] == '<'
    ensures r.Some? ==> |r.value.1| < |s|
  {
    var k := Until(s, {' ', '>'});
    var attrs := LexAttributes(s[k..]);
    if attrs.None? then None else Some((Start(s[1..k], attrs.value.0), attrs.value.1))
  }

  function Lex(s: string): Option<seq<Event>>
    decreases |s|
  {
    if s == "" then Some([])
    else
      var e := LexEvent(s);
      var es := if e.None? then None else Lex(e.value.1);
      if es.None? then None else Some([e.value.0] + es.value)
  }

  // ----- What the printer writes is read back -----

  predicate Without(s: string, stops: set<char>)
  {
    forall i :: 0 <= i < |s| ==> s[i] !in stops
  }

  predicate ReadableAttributes(attrs: Attributes)
  {
    forall i :: 0 <= i < |attrs| ==> Without(attrs[i].0, {'='}) && Without(attrs[i].1, {'\"'})
  }

  /** The delimiters do not occur in what they delimit; a character reference is not
      printed at all. */
  predicate Readable(e: Event)
  {
    match e
    case Start(name, attrs) =>
      Without(name, {' ', '>'}) && (name != "" ==> name[0] != '/' && name[0] != '!') && ReadableAttributes(attrs)
    case End(name) => Without(name, {'>'})
    case Text(data) => data != "" && Without(data, {'<', '&'})
    case EntityRef(ref) => Without(ref, {';'})
    case CharacterRef(_) => false
    case Remark(comment) => forall i :: 0 <= i < |comment| ==> !EndsAt(comment, i)
  }

  /** Every event is readable, and no two texts stand side by side. */
  predicate AllReadable(es: seq<Event>)
  {
    && (forall i :: 0 <= i < |es| ==> Readable(es[i]))
    && TextsApart(es)
  }

  predicate TextsApart(es: seq<Event>)
  {
    forall i :: 0 <= i < |es| - 1 && es[i].Text? ==> !es[i + 1].Text?
  }

  lemma {:induction false} UntilStops(s: string, rest: string, stops: set<char>)
    requires Without(s, stops) && (rest == "" || rest[0] in stops)
    ensures Until(s + rest, stops) == |s|
  {
    var all := s + rest;
    var k := Until(all, stops);
    assert forall i :: 0 <= i < |s| ==> all[i] == s[i];
    assert rest != "" ==> all[|s|] == rest[0];
  }

  lemma {:induction false} CommentStops(s: string, rest: string)
    requires forall i :: 0 <= i < |s| ==> !EndsAt(s, i)
    ensures CommentEnd(s + (" -->" + rest)) == |s|
  {
    var all := s + (" -->" + rest);
    if s == "" {
      assert all[0..4] == " -->";
    } else {
      NotYet(s, rest);
      assert all[1..] == s[1..] + (" -->" + rest);
      forall i | 0 <= i < |s[1..]|
        ensures !EndsAt(s[1..], i)
      {
        NextEnd(s, i);
      }
      CommentStops(s[1..], rest);
    }
  }

  /** The end of a comment does not begin inside the comment. */
  lemma NotYet(s: string, rest: string)
    requires s != "" && !EndsAt(s, 0)
    ensures !EndsAt(s + (" -->" + rest), 0)
  {
    var all := s + (" -->" + rest);
    if |s| >= 4 {
      assert all[0..4] == s[0..4];
    } else {
      assert all[0..4][|s|] == ' ' && " -->"[|s|] != ' ';
    }
  }

  /** One attribute, whatever follows it. */
  lemma AttributeBack(name: string, value: string, more: string)
    requires Without(name, {'='}) && Without(value, {'\"'})
    ensures var r := LexAttributes(" " + name + ("=\"" + (value + ("\"" + more))));
            if LexAttributes(more).None? then r.None?
            else r == Some(([(name, value)] + LexAttributes(more).value.0, LexAttributes(more).value.1))
  {
    var quoted := value + ("\"" + more);
    var s := " " + name + ("=\"" + quoted);
    UntilStops(" " + name, "=\"" + quoted, {'='});
    CutAt(" " + name, "=\"" + quoted);
    var k := |name| + 1;
    assert s[0] == ' ' && s[k..] == "=\"" + quoted;
    assert s[k + 1] == s[k..][1] == '\"' && s[k + 2..] == s[k..][2..] == quoted;
    assert s[1..k] == s[..k][1..] == name;
    UntilStops(value, "\"" + more, {'\"'});
    CutAt(value, "\"" + more);
    assert quoted[|value| + 1..] == quoted[|value|..][1..] == more;
  }

  lemma {:induction false} AttributesBack(attrs: Attributes, rest: string)
    requires ReadableAttributes(attrs)
    ensures LexAttributes(RenderAttributes(attrs) + (">" + rest)) == Some((attrs, rest))
  {
    var s := RenderAttributes(attrs) + (">" + rest);
    if attrs == [] {
      assert s[0] == '>' && s[1..] == rest;
    } else {
      var name, value := attrs[0].0, attrs[0].1;
      var more := RenderAttributes(attrs[1..]) + (">" + rest);
      assert ReadableAttributes(attrs[1..]) && Without(name, {'='}) && Without(value, {'\"'});
      AttributesBack(attrs[1..], rest);
      OneBeforeOthers(name, value, RenderAttributes(attrs[1..]), ">" + rest);
      AttributeBack(name, value, more);
      assert attrs == [(name, value)] + attrs[1..];
    }
  }

  lemma OneBeforeOthers(name: string, value: string, others: string, rest: string)
    ensures (" " + name + "=\"" + value + "\"" + others) + rest
            == " " + name + ("=\"" + (value + ("\"" + (others + rest))))
  {
  }

  lemma StartText(name: string, attrs: Attributes, rest: string)
    ensures var tail := RenderAttributes(attrs) + (">" + rest);
            && Render(Start(name, attrs)).value + rest == ("<" + name) + tail
            && (tail[0] == ' ' || tail[0] == '>')
  {
    Associate("<" + name + RenderAttributes(attrs), ">", rest);
    Associate("<" + name, RenderAttributes(attrs), ">" + rest);
  }

  lemma StartRead(name: string, attrs: Attributes, tail: string, rest: string)
    requires Without(name, {' ', '>'}) && tail != "" && (tail[0] == ' ' || tail[0] == '>')
    requires LexAttributes(tail) == Some((attrs, rest))
    ensures LexStart(("<" + name) + tail) == Some((Start(name, attrs), rest))
  {
    var s := ("<" + name) + tail;
    UntilStops("<" + name, tail, {' ', '>'});
    CutAt("<" + name, tail);
    assert s[1..|name| + 1] == s[..|name| + 1][1..] == name;
  }

  /** A start tag is taken neither for an end nor for a comment. */
  lemma StartIsStart(name: string, tail: string)
    requires name != "" ==> name[0] != '/' && name[0] != '!'
    requires tail != "" && (tail[0] == ' ' || tail[0] == '>')
    ensures LexEvent(("<" + name) + tail) == LexStart(("<" + name) + tail)
  {
    var s := ("<" + name) + tail;
    assert s[0] == '<' && s[1] == if name == "" then tail[0] else name[0];
    assert |s| >= 5 ==> s[..5][1] == s[1];
  }

  lemma StartBack(name: string, attrs: Attributes, rest: string)
    requires Readable(Start(name, attrs))
    ensures LexEvent(Render(Start(name, attrs)).value + rest) == Some((Start(name, attrs), rest))
  {
    var tail := RenderAttributes(attrs) + (">" + rest);
    StartText(name, attrs, rest);
    AttributesBack(attrs, rest);
    StartIsStart(name, tail);
    StartRead(name, attrs, tail, rest);
  }

  lemma EndBack(name: string, rest: string)
    requires Readable(End(name))
    ensures LexEvent(Render(End(name)).value + rest) == Some((End(name), rest))
  {
    var s := Render(End(name)).value + rest;
    assert s == ("</" + name) + (">" + rest);
    UntilStops("</" + name, ">" + rest, {'>'});
    var k := |name| + 2;
    assert s[2..k] == name && s[k + 1..] == rest;
  }

  lemma RemarkText(comment: string, rest: string)
    ensures ("<!-- " + comment + " -->") + rest == "<!-- " + (comment + (" -->" + rest))
  {
    Associate("<!-- " + comment, " -->", rest);
    Associate("<!-- ", comment, " -->" + rest);
  }

  lemma RemarkBack(comment: string, rest: string)
    requires Readable(Remark(comment))
    ensures LexEvent(Render(Remark(comment)).value + rest) == Some((Remark(comment), rest))
  {
    var s, tail := Render(Remark(comment)).value + rest, comment + (" -->" + rest);
    RemarkText(comment, rest);
    CutAt("<!-- ", tail);
    assert s[..5] == "<!-- " && s[5..] == tail && s[0] == s[..5][0] && s[1] == s[..5][1];
    CommentStops(comment, rest);
    CutAt(comment, " -->" + rest);
    CutAt(" -->", rest);
    assert tail[|comment| + 4..] == tail[|comment|..][4..] == rest;
  }

  lemma EntityBack(ref: string, rest: string)
    requires Readable(EntityRef(ref))
    ensures LexEvent(Render(EntityRef(ref)).value + rest) == Some((EntityRef(ref), rest))
  {
    var s := Render(EntityRef(ref)).value + rest;
    assert s == ("&" + ref) + (";" + rest);
    UntilStops("&" + ref, ";" + rest, {';'});
    var k := |ref| + 1;
    assert s[1..k] == ref && s[k + 1..] == rest;
  }

  lemma TextBack(data: string, rest: string)
    requires Readable(Text(data)) && (rest == "" || rest[0] == '<' || rest[0] == '&')
    ensures LexEvent(data + rest) == Some((Text(data), rest))
  {
    UntilStops(data, rest, {'<', '&'});
    assert (data + rest)[0] == data[0];
    assert (data + rest)[..|data|] == data && (data + rest)[|data|..] == rest;
  }

  lemma EventBack(e: Event, rest: string)
    requires Readable(e) && (e.Text? ==> rest == "" || rest[0] == '<' || rest[0] == '&')
    ensures Render(e).Some? && Render(e).value + rest != ""
    ensures LexEvent(Render(e).value + rest) == Some((e, rest))
  {
    match e
    case Start(name, attrs) => StartBack(name, attrs, rest);
    case End(name) => EndBack(name, rest);
    case Text(data) => TextBack(data, rest);
    case EntityRef(ref) => EntityBack(ref, rest);
    case Remark(comment) => RemarkBack(comment, rest);
    case CharacterRef(_) =>
  }

  /** Whatever was printed for readable events, the reader finds those events in it:
      names, attributes with their values, ends, texts, references and comments, in
      order. */
  lemma {:induction false} EventsBack(es: seq<Event>)
    requires AllReadable(es)
    ensures RenderAll(es).Some? && Lex(RenderAll(es).value) == Some(es)
    ensures es != [] && !es[0].Text? ==>
      RenderAll(es).value != "" && (RenderAll(es).value[0] == '<' || RenderAll(es).value[0] == '&')
  {
    if es != [] {
      var rest := es[1..];
      assert forall i :: 0 <= i < |rest| ==> rest[i] == es[i + 1];
      EventsBack(rest);
      EventBack(es[0], RenderAll(rest).value);
      assert es == [es[0]] + rest;
    }
  }

  /** Merging leaves no two texts side by side. */
  lemma {:induction false} MergedApart(es: seq<Event>)
    ensures TextsApart(Merge(es))
  {
    if es != [] {
      MergedApart(es[..|es| - 1]);
    }
  }

  /** No event, with runs of text joined, holds its own delimiter. */
  predicate Clear(es: seq<Event>)
  {
    forall i :: 0 <= i < |Merge(es)| ==> Readable(Merge(es)[i])
  }

  /** The printed text of any events tells those events, with runs of text joined. */
  lemma PrintedTells(es: seq<Event>)
    ensures RenderAll(Merge(es)) == RenderAll(es)
    ensures Clear(es) ==> RenderAll(es).Some? && Lex(RenderAll(es).value) == Some(Merge(es))
  {
    MergeRenders(es);
    if Clear(es) {
      MergedApart(es);
      EventsBack(Merge(es));
    }
  }
}
