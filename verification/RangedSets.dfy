/** The ordered list of ranges that records completed commands
    (qpid/python/qpid/datatypes.py, class RangedSet). */
module RangedSets {
  import opened Wrappers
  import opened Sequences
  import opened Serials

  /** What one `add_range` makes of the list, front to back. */
  function Insert(s: seq<Range>, r: Range): seq<Range>
  {
    if s == [] then [r]
    else if Touches(r, s[0]) then Insert(s[1..], Span(r, s[0]))
    else if Compare(r.upper, s[0].lower) < 0 then [r] + s
    else [s[0]] + Insert(s[1..], r)
  }

  function InsertAll(s: seq<Range>, rs: seq<Range>): seq<Range>
    decreases |rs|
  {
    if rs == [] then s else InsertAll(Insert(s, rs[0]), rs[1..])
  }

  predicate Member(s: seq<Range>, n: Serial)
  {
    exists i :: 0 <= i < |s| && Contains(s[i], n)
  }

  /** One iteration of the loop, with the first `idx` ranges already passed. */
  lemma InsertStep(ranges: seq<Range>, idx: nat, r: Range)
    requires idx < |ranges|
    ensures var c, cut := ranges[idx], ranges[..idx] + ranges[idx + 1..];
            ranges[..idx] + Insert(ranges[idx..], r) ==
            if Touches(r, c) then cut[..idx] + Insert(cut[idx..], Span(r, c))
            else if Compare(r.upper, c.lower) < 0 then ranges[..idx] + [r] + ranges[idx..]
            else ranges[..idx + 1] + Insert(ranges[idx + 1..], r)
  {
    Delete(ranges, idx);
    Pass(ranges, idx, Insert(ranges[idx + 1..], r));
    Associate(ranges[..idx], [r], ranges[idx..]);
  }

  class RangedSet {
    var ranges: seq<Range>

    constructor ()
      ensures ranges == []
    {
      ranges := [];
    }

    method AddRange(range: Range)
      modifies this
      ensures ranges == Insert(old(ranges), range)
    {
      var r := range;
      var idx := 0;
      while idx < |ranges|
        invariant 0 <= idx <= |ranges|
        invariant ranges[..idx] + Insert(ranges[idx..], r) == Insert(old(ranges), range)
        decreases |ranges| - idx
      {
        var c := ranges[idx];
        InsertStep(ranges, idx, r);
        if Touches(r, c) {
          ranges := ranges[..idx] + ranges[idx + 1..];
          r := Span(r, c);
        } else if Compare(r.upper, c.lower) < 0 {
          ranges := ranges[..idx] + [r] + ranges[idx..];
          return;
        } else {
          idx := idx + 1;
        }
      }
      ranges := ranges + [r];
    }

    /** The least member, None for an empty set. */
    method Min() returns (least: Option<Serial>)
      ensures least.None? <==> ranges == []
      ensures forall base: Serial, offset :: Canonical(base, ranges) && In(base, ranges, offset) ==>
        Offset(base, least.value) <= offset && In(base, ranges, Offset(base, least.value))
    {
      if ranges == [] {
        return None;
      }
      least := Some(ranges[0].lower);
      forall base: Serial, offset: int | Canonical(base, ranges) && In(base, ranges, offset)
        ensures Offset(base, least.value) <= offset && In(base, ranges, Offset(base, least.value))
      {
        EndsBound(base, ranges, offset);
        assert Covers(base, ranges[0], Offset(base, ranges[0].lower));
      }
    }

    /** The greatest member, None for an empty set. */
    method Max() returns (greatest: Option<Serial>)
      ensures greatest.None? <==> ranges == []
      ensures forall base: Serial, offset :: Canonical(base, ranges) && In(base, ranges, offset) ==>
        Offset(base, greatest.value) >= offset && In(base, ranges, Offset(base, greatest.value))
    {
      if ranges == [] {
        return None;
      }
      greatest := Some(ranges[|ranges| - 1].upper);
      forall base: Serial, offset: int | Canonical(base, ranges) && In(base, ranges, offset)
        ensures Offset(base, greatest.value) >= offset && In(base, ranges, Offset(base, greatest.value))
      {
        EndsBound(base, ranges, offset);
        assert Covers(base, ranges[|ranges| - 1], Offset(base, ranges[|ranges| - 1].upper));
      }
    }

    method Add(lower: Serial, upper: Serial)
      modifies this
      ensures ranges == Insert(old(ranges), Range(lower, upper))
    {
      AddRange(Range(lower, upper));
    }

    method Has(n: Serial) returns (found: bool)
      ensures found <==> Member(ranges, n)
    {
      for i := 0 to |ranges|
        invariant forall k :: 0 <= k < i ==> !Contains(ranges[k], n)
      {
        if Contains(ranges[i], n) {
          return true;
        }
      }
      return false;
    }
  }

  /** The list is sorted, its ranges are non-empty, and between two neighbours
      at least one serial is missing, all within a window of 2^31-1 serials. */
  ghost predicate Canonical(base: Serial, s: seq<Range>)
  {
    && (forall i :: 0 <= i < |s| ==> Proper(base, s[i]))
    && (forall i, j :: 0 <= i < j < |s| ==> Offset(base, s[i].upper) + 1 < Offset(base, s[j].lower))
  }

  /** Membership as distance from the window's start. */
  ghost predicate In(base: Serial, s: seq<Range>, offset: int)
  {
    exists i :: 0 <= i < |s| && Covers(base, s[i], offset)
  }

  /** The first and the last range bound the whole set. */
  lemma EndsBound(base: Serial, s: seq<Range>, offset: int)
    requires Canonical(base, s) && In(base, s, offset)
    ensures Offset(base, s[0].lower) <= offset <= Offset(base, s[|s| - 1].upper)
  {
    var i :| 0 <= i < |s| && Covers(base, s[i], offset);
    assert Proper(base, s[0]) && Proper(base, s[i]) && Proper(base, s[|s| - 1]);
    assert i > 0 ==> Offset(base, s[0].upper) + 1 < Offset(base, s[i].lower);
    assert i < |s| - 1 ==> Offset(base, s[i].upper) + 1 < Offset(base, s[|s| - 1].lower);
  }

  lemma MemberInWindow(base: Serial, s: seq<Range>, n: Serial)
    requires Canonical(base, s) && Offset(base, n) < HALF
    ensures Member(s, n) <==> In(base, s, Offset(base, n))
  {
    forall i | 0 <= i < |s|
      ensures Contains(s[i], n) <==> Covers(base, s[i], Offset(base, n))
    {
      ContainsInWindow(base, s[i], n);
    }
  }

  lemma InCons(base: Serial, s: seq<Range>, offset: int)
    requires s != []
    ensures In(base, s, offset) <==> Covers(base, s[0], offset) || In(base, s[1..], offset)
  {
    if In(base, s[1..], offset) {
      var i :| 0 <= i < |s[1..]| && Covers(base, s[1..][i], offset);
      assert s[i + 1] == s[1..][i];
    }
    if i :| 1 <= i < |s| && Covers(base, s[i], offset) {
      assert s[1..][i - 1] == s[i];
    }
  }

  /** Every proper first element bounds the whole canonical list from below. */
  lemma CanonicalCons(base: Serial, r: Range, s: seq<Range>)
    requires Canonical(base, s) && Proper(base, r)
    requires s != [] ==> Offset(base, r.upper) + 1 < Offset(base, s[0].lower)
    ensures Canonical(base, [r] + s)
  {
    var t := [r] + s;
    forall i, j | 0 <= i < j < |t|
      ensures Offset(base, t[i].upper) + 1 < Offset(base, t[j].lower)
    {
      assert t[j] == s[j - 1];
      if i > 0 {
        assert t[i] == s[i - 1];
      } else if j > 1 {
        assert Offset(base, s[0].upper) + 1 < Offset(base, s[j - 1].lower);
      }
    }
  }

  /** One insertion keeps the list canonical and adds exactly the new range to
      what it denotes. */
  lemma {:induction false} InsertInWindow(base: Serial, s: seq<Range>, r: Range)
    requires Canonical(base, s) && Proper(base, r)
    ensures Canonical(base, Insert(s, r))
    ensures forall o :: In(base, Insert(s, r), o) <==> In(base, s, o) || Covers(base, r, o)
  {
    if s == [] {
      ConsDenotes(base, r, []);
    } else {
      var c, rest := s[0], s[1..];
      assert Proper(base, c);
      assert s == [c] + rest;
      ConsDenotes(base, c, rest);
      TouchesInWindow(base, r, c);
      CompareOrdersWindow(base, r.upper, c.lower);
      if Touches(r, c) {
        SpanInWindow(base, r, c);
        InsertInWindow(base, rest, Span(r, c));
      } else if Compare(r.upper, c.lower) < 0 {
        CanonicalCons(base, r, s);
        ConsDenotes(base, r, s);
      } else {
        InsertInWindow(base, rest, r);
        var tail := Insert(rest, r);
        if tail != [] {
          assert Covers(base, tail[0], Offset(base, tail[0].lower));
          assert In(base, tail, Offset(base, tail[0].lower));
        }
        CanonicalCons(base, c, tail);
        ConsDenotes(base, c, tail);
      }
    }
  }

  lemma ConsDenotes(base: Serial, c: Range, rest: seq<Range>)
    ensures forall o :: In(base, [c] + rest, o) <==> Covers(base, c, o) || In(base, rest, o)
  {
    forall o ensures In(base, [c] + rest, o) <==> Covers(base, c, o) || In(base, rest, o) {
      InCons(base, [c] + rest, o);
      assert ([c] + rest)[1..] == rest;
    }
  }

  /** The list is determined by what it denotes. */
  lemma {:induction false} CanonicalIsUnique(base: Serial, s: seq<Range>, t: seq<Range>)
    requires Canonical(base, s) && Canonical(base, t)
    requires forall o :: In(base, s, o) <==> In(base, t, o)
    ensures s == t
  {
    if s == [] || t == [] {
      if s != [] { assert Covers(base, s[0], Offset(base, s[0].lower)); assert In(base, s, Offset(base, s[0].lower)); }
      if t != [] { assert Covers(base, t[0], Offset(base, t[0].lower)); assert In(base, t, Offset(base, t[0].lower)); }
    } else {
      FirstIsNoLater(base, s, t);
      FirstIsNoLater(base, t, s);
      FirstReachesNoFurther(base, s, t);
      FirstReachesNoFurther(base, t, s);
      assert s[0] == t[0];
      forall o ensures In(base, s[1..], o) <==> In(base, t[1..], o) {
        InCons(base, s, o);
        InCons(base, t, o);
        TailIsApart(base, s, o);
        TailIsApart(base, t, o);
      }
      CanonicalIsUnique(base, s[1..], t[1..]);
      assert s == [s[0]] + s[1..] && t == [t[0]] + t[1..];
    }
  }

  lemma TailIsApart(base: Serial, s: seq<Range>, o: int)
    requires Canonical(base, s) && s != []
    ensures In(base, s[1..], o) ==> Offset(base, s[0].upper) + 1 < o
  {
  }

  lemma FirstIsNoLater(base: Serial, s: seq<Range>, t: seq<Range>)
    requires Canonical(base, s) && Canonical(base, t) && s != [] && t != []
    requires forall o :: In(base, t, o) ==> In(base, s, o)
    ensures Offset(base, s[0].lower) <= Offset(base, t[0].lower)
  {
    var o := Offset(base, t[0].lower);
    assert Covers(base, t[0], o);
    InCons(base, s, o);
    TailIsApart(base, s, o);
  }

  lemma FirstReachesNoFurther(base: Serial, s: seq<Range>, t: seq<Range>)
    requires Canonical(base, s) && Canonical(base, t) && s != [] && t != []
    requires s[0].lower == t[0].lower
    requires forall o :: In(base, s, o) ==> In(base, t, o)
    ensures Offset(base, s[0].upper) <= Offset(base, t[0].upper)
  {
    var o := Offset(base, t[0].upper) + 1;
    if o <= Offset(base, s[0].upper) {
      assert Covers(base, s[0], o);
      InCons(base, t, o);
      TailIsApart(base, t, o);
    }
  }

  ghost predicate AllProper(base: Serial, rs: seq<Range>)
  {
    forall i :: 0 <= i < |rs| ==> Proper(base, rs[i])
  }

  lemma {:induction false} InsertAllInWindow(base: Serial, s: seq<Range>, rs: seq<Range>)
    requires Canonical(base, s) && AllProper(base, rs)
    ensures Canonical(base, InsertAll(s, rs))
    ensures forall o :: In(base, InsertAll(s, rs), o) <==> In(base, s, o) || In(base, rs, o)
    decreases |rs|
  {
    if rs != [] {
      InsertInWindow(base, s, rs[0]);
      InsertAllInWindow(base, Insert(s, rs[0]), rs[1..]);
      forall o ensures In(base, rs, o) <==> Covers(base, rs[0], o) || In(base, rs[1..], o) {
        InCons(base, rs, o);
      }
    }
  }

  /** Adding the same ranges in any order, any number of times, gives the very
      same list. */
  lemma OrderAndRepetitionDoNotMatter(base: Serial, s: seq<Range>, first: seq<Range>, second: seq<Range>)
    requires Canonical(base, s) && AllProper(base, first) && AllProper(base, second)
    requires forall r :: r in first <==> r in second
    ensures InsertAll(s, first) == InsertAll(s, second)
  {
    InsertAllInWindow(base, s, first);
    InsertAllInWindow(base, s, second);
    SameDenotation(base, first, second);
    SameDenotation(base, second, first);
    CanonicalIsUnique(base, InsertAll(s, first), InsertAll(s, second));
  }

  lemma SameDenotation(base: Serial, first: seq<Range>, second: seq<Range>)
    requires forall r :: r in first ==> r in second
    ensures forall o :: In(base, first, o) ==> In(base, second, o)
  {
    forall o | In(base, first, o)
      ensures In(base, second, o)
    {
      var i :| 0 <= i < |first| && Covers(base, first[i], o);
      assert first[i] in second;
    }
  }

  /** Rebuilding a canonical list from its own ranges changes nothing, so a set
      that crosses the wire arrives as the same list. */
  lemma RebuildIsIdentity(base: Serial, s: seq<Range>)
    requires Canonical(base, s)
    ensures InsertAll([], s) == s
  {
    InsertAllInWindow(base, [], s);
    CanonicalIsUnique(base, InsertAll([], s), s);
  }

  /** The width of the window cannot be raised: with two ids exactly 2^31-1
      apart, adding both also claims every id in between. */
  lemma WindowIsSharp()
    ensures var s := InsertAll([], [Range(0, 0), Range(HALF - 1, HALF - 1)]);
            s == [Range(0, HALF - 1)] && Member(s, 1)
  {
    var first, last := Range(0, 0), Range(HALF - 1, HALF - 1);
    assert Previous(0) == MODULUS - 1;
    assert Contains(last, MODULUS - 1);
    assert Insert([], first) == [first];
    assert Insert([first], last) == Insert([], Span(last, first));
    var s := [Range(0, HALF - 1)];
    assert InsertAll([first], [last]) == s;
    assert [first, last][1..] == [last];
    assert InsertAll([], [first, last]) == InsertAll(Insert([], first), [last]);
    assert Contains(s[0], 1);
  }

  /** The same as Proper and Canonical, for a window of any width. */
  predicate ProperWithin(base: Serial, width: nat, r: Range)
  {
    Offset(base, r.lower) <= Offset(base, r.upper) < width
  }

  ghost predicate CanonicalWithin(base: Serial, width: nat, s: seq<Range>)
  {
    && (forall i :: 0 <= i < |s| ==> ProperWithin(base, width, s[i]))
    && (forall i, j :: 0 <= i < j < |s| ==> Offset(base, s[i].upper) + 1 < Offset(base, s[j].lower))
  }

  ghost predicate AddsExactly(base: Serial, s: seq<Range>, r: Range)
  {
    forall o :: In(base, Insert(s, r), o) <==> In(base, s, o) || Covers(base, r, o)
  }

  ghost predicate RightWithin(width: nat)
  {
    forall base: Serial, s: seq<Range>, r: Range ::
      CanonicalWithin(base, width, s) && ProperWithin(base, width, r) ==> AddsExactly(base, s, r)
  }

  /** Insertion adds exactly the new range, for all lists and ranges in windows of
      that width, if and only if the width is at most 2^31-1. */
  lemma WidthIsExact(width: nat)
    ensures RightWithin(width) <==> width <= HALF - 1
  {
    if width <= HALF - 1 {
      forall base: Serial, s: seq<Range>, r: Range | CanonicalWithin(base, width, s) && ProperWithin(base, width, r)
        ensures AddsExactly(base, s, r)
      {
        assert forall i :: 0 <= i < |s| ==> ProperWithin(base, width, s[i]);
        InsertInWindow(base, s, r);
      }
    } else {
      TooWide(width);
    }
  }

  lemma TooWide(width: nat)
    requires width >= HALF
    ensures !RightWithin(width)
  {
    var s, r := [Range(0, 0)], Range(HALF - 1, HALF - 1);
    WindowIsSharp();
    assert [s[0], r][1..] == [r] && InsertAll([], [s[0], r]) == Insert(Insert([], s[0]), r);
    assert Insert([], s[0]) == s;
    var t := Insert(s, r);
    assert Covers(0, t[0], 1) && In(0, t, 1);
    assert !In(0, s, 1) && !Covers(0, r, 1);
    assert !AddsExactly(0, s, r);
    assert CanonicalWithin(0, width, s) && ProperWithin(0, width, r);
  }
}
