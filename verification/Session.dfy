/** The two ends of one session direction: the sender that numbers commands and
    the receiver that completes them (qpid/python/qpid/session.py). */
module Session {
  import opened Wrappers
  import opened Sequences
  import opened Serials
  import opened RangedSets

  type Payload = string

  /** A command once an end has numbered it. */
  datatype Command = Command(id: Serial, payload: Payload)

  /** What travels from sender to receiver; no control or transfer carries the
      id of a transfer. */
  datatype Forward =
    | CommandPoint(id: Serial)
    | Transfer(payload: Payload)
    | KnownCompleted(known: seq<Range>)
    | Flush(wantCompleted: bool)

  datatype SenderState = SenderState(sendId: bool, nextId: Serial, commands: seq<Command>, completed: seq<Range>)

  datatype ReceiverState = ReceiverState(nextId: Option<Serial>, completed: seq<Range>)

  function Issued(s: SenderState, payload: Payload): SenderState
  {
    SenderState(false, Plus(s.nextId, 1), s.commands + [Command(s.nextId, payload)], s.completed)
  }

  function Announcement(s: SenderState, payload: Payload): seq<Forward>
  {
    (if s.sendId then [CommandPoint(s.nextId)] else []) + [Transfer(payload)]
  }

  function Outstanding(commands: seq<Command>, completed: seq<Range>): seq<Command>
  {
    if commands == [] then []
    else (if Member(completed, commands[0].id) then [] else [commands[0]]) + Outstanding(commands[1..], completed)
  }

  /** One iteration of the loop, with the first `idx` commands already passed. */
  lemma OutstandingStep(commands: seq<Command>, idx: nat, completed: seq<Range>)
    requires idx < |commands|
    ensures var cut := commands[..idx] + commands[idx + 1..];
            commands[..idx] + Outstanding(commands[idx..], completed) ==
            if Member(completed, commands[idx].id) then cut[..idx] + Outstanding(cut[idx..], completed)
            else commands[..idx + 1] + Outstanding(commands[idx + 1..], completed)
  {
    Delete(commands, idx);
    Pass(commands, idx, Outstanding(commands[idx + 1..], completed));
  }

  function Acknowledged(s: SenderState, reported: seq<Range>): SenderState
  {
    s.(commands := Outstanding(s.commands, reported), completed := InsertAll(s.completed, reported))
  }

  predicate Inside(c: Range, known: seq<Range>)
  {
    exists j :: 0 <= j < |known| && Contains(known[j], c.lower) && Contains(known[j], c.upper)
  }

  function Unknown(completed: seq<Range>, known: seq<Range>): seq<Range>
  {
    if completed == [] then []
    else (if Inside(completed[0], known) then [] else [completed[0]]) + Unknown(completed[1..], known)
  }

  function Forgotten(r: ReceiverState, known: seq<Range>): ReceiverState
  {
    r.(completed := InsertAll([], Unknown(r.completed, known)))
  }

  class Sender {
    var sendId: bool
    var nextId: Serial
    var commands: seq<Command>
    const completed: RangedSet

    function State(): SenderState
      reads this, completed
    {
      SenderState(sendId, nextId, commands, completed.ranges)
    }

    constructor ()
      ensures fresh(completed)
      ensures State() == SenderState(true, 0, [], [])
    {
      sendId, nextId, commands := true, 0, [];
      completed := new RangedSet();
    }

    /** Without a channel nothing is numbered, kept or written. */
    method Send(payload: Payload, attached: bool) returns (wire: Option<seq<Forward>>)
      modifies this
      ensures if attached
              then State() == Issued(old(State()), payload) && wire == Some(Announcement(old(State()), payload))
              else State() == old(State()) && wire == None
    {
      if !attached {
        return None;
      }
      var id := nextId;
      nextId := Plus(nextId, 1);
      var out: seq<Forward> := [];
      if sendId {
        sendId := false;
        out := [CommandPoint(id)];
      }
      commands := commands + [Command(id, payload)];
      wire := Some(out + [Transfer(payload)]);
    }

    method Completed(reported: RangedSet)
      requires reported != completed
      modifies this, completed
      ensures State() == Acknowledged(old(State()), reported.ranges)
      ensures unchanged(reported)
    {
      DropCompleted(reported);
      RecordCompleted(reported);
    }

    method DropCompleted(reported: RangedSet)
      modifies this`commands
      ensures commands == Outstanding(old(commands), reported.ranges)
    {
      var idx := 0;
      while idx < |commands|
        invariant 0 <= idx <= |commands|
        invariant commands[..idx] + Outstanding(commands[idx..], reported.ranges)
                  == Outstanding(old(commands), reported.ranges)
        decreases |commands| - idx
      {
        OutstandingStep(commands, idx, reported.ranges);
        var cmd := commands[idx];
        var known := reported.Has(cmd.id);
        if known {
          commands := commands[..idx] + commands[idx + 1..];
        } else {
          idx := idx + 1;
        }
      }
      assert commands[..idx] == commands;
    }

    method RecordCompleted(reported: RangedSet)
      requires reported != completed
      modifies completed
      ensures completed.ranges == InsertAll(old(completed.ranges), reported.ranges)
    {
      for i := 0 to |reported.ranges|
        invariant unchanged(reported)
        invariant InsertAll(completed.ranges, reported.ranges[i..]) == InsertAll(old(completed.ranges), reported.ranges)
      {
        var range := reported.ranges[i];
        assert reported.ranges[i..][0] == range && reported.ranges[i..][1..] == reported.ranges[i + 1..];
        completed.Add(range.lower, range.upper);
      }
    }
  }

  class Receiver {
    var nextId: Option<Serial>
    var completed: RangedSet

    function State(): ReceiverState
      reads this, completed
    {
      ReceiverState(nextId, completed.ranges)
    }

    constructor ()
      ensures fresh(completed)
      ensures State() == ReceiverState(None, [])
    {
      nextId := None;
      completed := new RangedSet();
    }

    /** The id the next command gets; none before a command point. */
    method Received() returns (id: Option<Serial>)
      modifies this`nextId
      ensures id == old(nextId)
      ensures nextId == if id.None? then None else Some(Plus(id.value, 1))
    {
      id := nextId;
      if id.Some? {
        nextId := Some(Plus(id.value, 1));
      }
    }

    /** A command that never got an id is refused. */
    method Completed(id: Option<Serial>) returns (ok: bool)
      modifies completed
      ensures ok == id.Some?
      ensures State() == if ok then old(State()).(completed := Insert(old(completed.ranges), Range(id.value, id.value)))
                         else old(State())
    {
      ok := id.Some?;
      if ok {
        completed.Add(id.value, id.value);
      }
    }

    method KnownCompleted(known: RangedSet)
      modifies this`completed
      ensures State() == Forgotten(old(State()), old(known.ranges))
      ensures forall base: Serial :: Canonical(base, old(completed.ranges)) && Canonical(base, known.ranges) ==>
        && Canonical(base, completed.ranges)
        && forall o :: In(base, completed.ranges, o) <==> StillUnknown(base, old(completed.ranges), known.ranges, o)
      ensures unchanged(old(completed)) && unchanged(known) && fresh(completed)
    {
      var kept := new RangedSet();
      ghost var all, knownRanges := completed.ranges, known.ranges;
      for i := 0 to |completed.ranges|
        invariant fresh(kept) && unchanged(this) && unchanged(completed) && unchanged(known)
        invariant InsertAll(kept.ranges, Unknown(all[i..], knownRanges)) == InsertAll([], Unknown(all, knownRanges))
      {
        var c := completed.ranges[i];
        assert all[i..] == [c] + all[i + 1..];
        UnknownStep(kept.ranges, c, all[i + 1..], knownRanges);
        var inside := FoundInside(c, known.ranges);
        if !inside {
          kept.AddRange(c);
        }
      }
      forall base: Serial | Canonical(base, all) && Canonical(base, knownRanges)
        ensures Canonical(base, kept.ranges)
        ensures forall o :: In(base, kept.ranges, o) <==> StillUnknown(base, all, knownRanges, o)
      {
        ForgottenExactly(base, State(), knownRanges);
      }
      completed := kept;
    }

    /** The inner loop: stops at the first known range that holds both ends. */
    static method FoundInside(c: Range, known: seq<Range>) returns (inside: bool)
      ensures inside <==> Inside(c, known)
    {
      for j := 0 to |known|
        invariant forall k :: 0 <= k < j ==> !(Contains(known[k], c.lower) && Contains(known[k], c.upper))
      {
        if Contains(known[j], c.lower) && Contains(known[j], c.upper) {
          return true;
        }
      }
      return false;
    }
  }

  lemma UnknownStep(kept: seq<Range>, c: Range, rest: seq<Range>, known: seq<Range>)
    ensures InsertAll(kept, Unknown([c] + rest, known))
            == InsertAll(if Inside(c, known) then kept else Insert(kept, c), Unknown(rest, known))
  {
    var later := Unknown(rest, known);
    assert ([c] + rest)[0] == c && ([c] + rest)[1..] == rest;
    assert ([c] + later)[0] == c && ([c] + later)[1..] == later;
    assert [] + later == later;
  }

  /** Forgetting keeps the list canonical; what it drops was known, and what it
      keeps was there. */
  lemma ForgottenInWindow(base: Serial, r: ReceiverState, known: seq<Range>)
    requires Canonical(base, r.completed) && Canonical(base, known)
    ensures Canonical(base, Forgotten(r, known).completed)
    ensures forall o :: In(base, Forgotten(r, known).completed, o) ==> In(base, r.completed, o)
    ensures forall o :: In(base, r.completed, o) ==> In(base, Forgotten(r, known).completed, o) || In(base, known, o)
  {
    UnknownInWindow(base, r.completed, known);
    InsertAllInWindow(base, [], Unknown(r.completed, known));
  }

  lemma {:induction false} UnknownInWindow(base: Serial, s: seq<Range>, known: seq<Range>)
    requires AllProper(base, s) && Canonical(base, known)
    ensures AllProper(base, Unknown(s, known))
    ensures forall o :: In(base, Unknown(s, known), o) ==> In(base, s, o)
    ensures forall o :: In(base, s, o) ==> In(base, Unknown(s, known), o) || In(base, known, o)
  {
    if s != [] {
      var c, rest := s[0], Unknown(s[1..], known);
      UnknownInWindow(base, s[1..], known);
      assert forall o :: In(base, s, o) <==> Covers(base, c, o) || In(base, s[1..], o) by {
        forall o ensures In(base, s, o) <==> Covers(base, c, o) || In(base, s[1..], o) { InCons(base, s, o); }
      }
      if Inside(c, known) {
        var j :| 0 <= j < |known| && Contains(known[j], c.lower) && Contains(known[j], c.upper);
        ContainsInWindow(base, known[j], c.lower);
        ContainsInWindow(base, known[j], c.upper);
        assert Unknown(s, known) == rest;
        forall o | Covers(base, c, o) ensures In(base, known, o) { assert Covers(base, known[j], o); }
      } else {
        assert Unknown(s, known) == [c] + rest;
        forall o ensures In(base, [c] + rest, o) <==> Covers(base, c, o) || In(base, rest,
            o) { InCons(base, [c] + rest, o); }
      }
    }
  }

  /** Every id of the range is known. */
  ghost predicate AllIn(base: Serial, c: Range, known: seq<Range>)
  {
    forall o :: Covers(base, c, o) ==> In(base, known, o)
  }

  /** Some range of the list holds this id, and not all of that range is known. */
  ghost predicate StillUnknown(base: Serial, s: seq<Range>, known: seq<Range>, offset: int)
  {
    exists i :: 0 <= i < |s| && Covers(base, s[i], offset) && !AllIn(base, s[i], known)
  }

  lemma NextIsMissing(base: Serial, s: seq<Range>, j: nat)
    requires Canonical(base, s) && j < |s|
    ensures !In(base, s, Offset(base, s[j].upper) + 1)
  {
    var next := Offset(base, s[j].upper) + 1;
    forall k | 0 <= k < |s|
      ensures !Covers(base, s[k], next)
    {
      assert j < k ==> Offset(base, s[j].upper) + 1 < Offset(base, s[k].lower);
      assert k < j ==> Offset(base, s[k].upper) + 1 < Offset(base, s[j].lower);
    }
  }

  /** A range is enclosed by one known range exactly when all its ids are known:
      between known ranges at least one id is missing. */
  lemma InsideExactly(base: Serial, c: Range, known: seq<Range>)
    requires Proper(base, c) && Canonical(base, known)
    ensures Inside(c, known) <==> AllIn(base, c, known)
  {
    forall j | 0 <= j < |known|
      ensures Contains(known[j], c.lower) <==> Covers(base, known[j], Offset(base, c.lower))
      ensures Contains(known[j], c.upper) <==> Covers(base, known[j], Offset(base, c.upper))
    {
      ContainsInWindow(base, known[j], c.lower);
      ContainsInWindow(base, known[j], c.upper);
    }
    if AllIn(base, c, known) {
      var low := Offset(base, c.lower);
      assert Covers(base, c, low) && In(base, known, low);
      var j :| 0 <= j < |known| && Covers(base, known[j], low);
      NextIsMissing(base, known, j);
      assert !Covers(base, c, Offset(base, known[j].upper) + 1);
      assert Contains(known[j], c.lower) && Contains(known[j], c.upper);
    } else if Inside(c, known) {
      var j :| 0 <= j < |known| && Contains(known[j], c.lower) && Contains(known[j], c.upper);
      forall o | Covers(base, c, o)
        ensures In(base, known, o)
      {
        assert Covers(base, known[j], o);
      }
    }
  }

  lemma UnknownRest(base: Serial, s: seq<Range>, known: seq<Range>, o: int)
    requires s != []
    ensures StillUnknown(base, s, known, o)
            <==> (Covers(base, s[0], o) && !AllIn(base, s[0], known)) || StillUnknown(base, s[1..], known, o)
  {
    if StillUnknown(base, s[1..], known, o) {
      var i :| 0 <= i < |s[1..]| && Covers(base, s[1..][i], o) && !AllIn(base, s[1..][i], known);
      assert s[i + 1] == s[1..][i];
    }
    if i :| 1 <= i < |s| && Covers(base, s[i], o) && !AllIn(base, s[i], known) {
      assert s[1..][i - 1] == s[i];
    }
  }

  lemma {:induction false} UnknownExactly(base: Serial, s: seq<Range>, known: seq<Range>)
    requires AllProper(base, s) && Canonical(base, known)
    ensures AllProper(base, Unknown(s, known))
    ensures forall o :: In(base, Unknown(s, known), o) <==> StillUnknown(base, s, known, o)
  {
    if s != [] {
      var c, rest := s[0], Unknown(s[1..], known);
      UnknownExactly(base, s[1..], known);
      InsideExactly(base, c, known);
      forall o
        ensures In(base, Unknown(s, known), o) <==> StillUnknown(base, s, known, o)
      {
        UnknownRest(base, s, known, o);
        if Inside(c, known) {
          assert Unknown(s, known) == rest;
        } else {
          assert Unknown(s, known) == [c] + rest && ([c] + rest)[1..] == rest;
          InCons(base, [c] + rest, o);
        }
      }
    }
  }

  /** Exactly what stays: the ranges that are not known as a whole. */
  lemma ForgottenExactly(base: Serial, r: ReceiverState, known: seq<Range>)
    requires Canonical(base, r.completed) && Canonical(base, known)
    ensures Canonical(base, Forgotten(r, known).completed) && Forgotten(r, known).nextId == r.nextId
    ensures forall o :: In(base, Forgotten(r, known).completed, o) <==> StillUnknown(base, r.completed, known, o)
  {
    UnknownExactly(base, r.completed, known);
    InsertAllInWindow(base, [], Unknown(r.completed, known));
  }

  lemma {:induction false} OutstandingAppends(a: seq<Command>, b: seq<Command>, completed: seq<Range>)
    ensures Outstanding(a + b, completed) == Outstanding(a, completed) + Outstanding(b, completed)
  {
    if a == [] {
      assert a + b == b;
    } else {
      OutstandingAppends(a[1..], b, completed);
      assert (a + b)[0] == a[0] && (a + b)[1..] == a[1..] + b;
      var head := if Member(completed, a[0].id) then [] else [a[0]];
      Associate(head, Outstanding(a[1..], completed), Outstanding(b, completed));
    }
  }

  /** Filtering by one report after another is filtering by both. */
  lemma {:induction false} OutstandingTwice(commands: seq<Command>, first: seq<Range>, second: seq<Range>,
      both: seq<Range>)
    requires forall c :: c in commands ==> (Member(both, c.id) <==> Member(first, c.id) || Member(second, c.id))
    ensures Outstanding(Outstanding(commands, first), second) == Outstanding(commands, both)
  {
    if commands != [] {
      var c := commands[0];
      OutstandingTwice(commands[1..], first, second, both);
      assert c in commands;
      if Member(first, c.id) {
        assert Outstanding(commands, first) == Outstanding(commands[1..], first);
      } else {
        var later := [c] + Outstanding(commands[1..], first);
        assert later[0] == c && later[1..] == Outstanding(commands[1..], first);
      }
    }
  }
}
