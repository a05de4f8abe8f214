/** Both ends of a session direction joined by a FIFO each way. `issued`, `received`
    and `done` record history: the commands as each end numbered them, and the
    ids the receiving application completed. */
module SessionProtocol {
  import opened Wrappers
  import opened Sequences
  import opened Serials
  import opened RangedSets
  import opened Session
  import opened Delegates

  datatype System = System(
    sender: SenderState,
    receiver: ReceiverState,
    forward: seq<Forward>,
    backward: seq<Backward>,
    issued: seq<Command>,
    received: seq<Command>,
    done: set<Serial>,
    fault: bool)

  datatype Action =
    | Issue(payload: Payload)          // the sending application invokes a command
    | AskFlush(wantCompleted: bool)    // the sender sends session.flush
    | Arrive                           // the receiver handles the next message
    | Finish(k: nat)                   // the application completes its k-th command, perhaps again
    | Report(timelyReply: bool)        // the receiver sends session.completed
    | Return                           // the sender handles the next message

  const START := System(SenderState(true, 0, [], []), ReceiverState(None, []), [], [], [], [], {}, false)

  function Step(y: System, a: Action): System
  {
    match a
    case Issue(payload) =>
      y.(sender := Issued(y.sender, payload),
         forward := y.forward + Announcement(y.sender, payload),
         issued := y.issued + [Command(y.sender.nextId, payload)])
    case AskFlush(wantCompleted) =>
      y.(forward := y.forward + [Flush(wantCompleted)])
    case Arrive =>
      if y.forward == [] then y else Handle(y.(forward := y.forward[1..]), y.forward[0])
    case Finish(k) =>
      if k >= |y.received| then y
      else
        var id := y.received[k].id;
        y.(receiver := y.receiver.(completed := Insert(y.receiver.completed, Range(id, id))), done := y.done + {id})
    case Report(timelyReply) =>
      y.(backward := y.backward + Reports(y.receiver.completed, timelyReply))
    case Return =>
      if y.backward == [] then y
      else
        var m := y.backward[0];
        y.(backward := y.backward[1..],
           sender := Acknowledged(y.sender, m.reported),
           forward := y.forward + Replies(m.reported, m.timelyReply))
  }

  function Handle(y: System, m: Forward): System
  {
    if !m.Transfer? then
      y.(receiver := Controlled(y.receiver, m), backward := y.backward + Responses(y.receiver, m))
    else if y.receiver.nextId.None? then y.(fault := true)
    else
      var id := y.receiver.nextId.value;
      y.(receiver := y.receiver.(nextId := Some(Plus(id, 1))), received := y.received + [Command(id, m.payload)])
  }

  function RunFrom(y: System, actions: seq<Action>): System
    decreases |actions|
  {
    if actions == [] then y else RunFrom(Step(y, actions[0]), actions[1..])
  }

  function Run(actions: seq<Action>): System
  {
    RunFrom(START, actions)
  }

  // ----- Numbering: both ends count, and agree -----

  function InFlight(forward: seq<Forward>): seq<Payload>
  {
    if forward == [] then []
    else (if forward[0].Transfer? then [forward[0].payload] else []) + InFlight(forward[1..])
  }

  function Payloads(commands: seq<Command>): seq<Payload>
  {
    seq(|commands|, i requires 0 <= i < |commands| => commands[i].payload)
  }

  ghost predicate NoPoint(forward: seq<Forward>)
  {
    forall i :: 0 <= i < |forward| ==> !forward[i].CommandPoint?
  }

  /** The only command point is for id 0 and lies before every transfer. */
  ghost predicate PointFirst(forward: seq<Forward>)
  {
    && forward != []
    && if forward[0].CommandPoint? then forward[0].id == 0 && NoPoint(forward[1..])
       else !forward[0].Transfer? && PointFirst(forward[1..])
  }

  ghost predicate Counted(commands: seq<Command>)
  {
    forall k :: 0 <= k < |commands| ==> commands[k].id == Mask(k)
  }

  ghost predicate Agree(y: System)
  {
    && !y.fault
    && Counted(y.issued)
    && y.received <= y.issued
    && y.sender.nextId == Mask(|y.issued|)
    && InFlight(y.forward) == Payloads(y.issued[|y.received|..])
    && (y.sender.sendId <==> y.issued == [])
    && match y.receiver.nextId
       case None => y.received == [] && if y.issued == [] then NoPoint(y.forward) else PointFirst(y.forward)
       case Some(id) => id == Mask(|y.received|) && NoPoint(y.forward) && y.issued != []
  }

  lemma {:induction false} InFlightAppends(f: seq<Forward>, g: seq<Forward>)
    ensures InFlight(f + g) == InFlight(f) + InFlight(g)
  {
    if f == [] {
      assert f + g == g;
    } else {
      InFlightAppends(f[1..], g);
      assert (f + g)[0] == f[0] && (f + g)[1..] == f[1..] + g;
      var head := if f[0].Transfer? then [f[0].payload] else [];
      Associate(head, InFlight(f[1..]), InFlight(g));
    }
  }

  lemma {:induction false} PointFirstAppends(f: seq<Forward>, g: seq<Forward>)
    requires NoPoint(g)
    requires PointFirst(f)
    ensures PointFirst(f + g)
  {
    assert (f + g)[0] == f[0] && (f + g)[1..] == f[1..] + g;
    if !f[0].CommandPoint? {
      PointFirstAppends(f[1..], g);
    }
  }

  lemma {:induction false} PointFirstStarts(f: seq<Forward>, payload: Payload)
    requires NoPoint(f) && InFlight(f) == []
    ensures PointFirst(f + [CommandPoint(0), Transfer(payload)])
  {
    var g := [CommandPoint(0), Transfer(payload)];
    if f == [] {
      assert f + g == g;
    } else {
      assert (f + g)[0] == f[0] && (f + g)[1..] == f[1..] + g;
      PointFirstStarts(f[1..], payload);
    }
  }

  lemma QuietAppends(y: System, g: seq<Forward>)
    requires Agree(y) && NoPoint(g) && InFlight(g) == []
    ensures Agree(y.(forward := y.forward + g))
  {
    InFlightAppends(y.forward, g);
    if y.receiver.nextId.None? && y.issued != [] {
      PointFirstAppends(y.forward, g);
    }
  }

  lemma MaskStep(n: nat)
    ensures Plus(Mask(n), 1) == Mask(n + 1)
  {
  }

  lemma AnnouncementCarries(s: SenderState, payload: Payload)
    ensures InFlight(Announcement(s, payload)) == [payload]
  {
    var t := [Transfer(payload)];
    assert t[1..] == [] && InFlight(t) == [payload];
    if s.sendId {
      var g := [CommandPoint(s.nextId)] + t;
      assert g[0].CommandPoint? && g[1..] == t;
    }
  }

  lemma IssueCarries(y: System, payload: Payload)
    requires Agree(y)
    ensures InFlight(y.forward + Announcement(y.sender, payload))
            == Payloads((y.issued + [Command(y.sender.nextId, payload)])[|y.received|..])
  {
    var c := Command(y.sender.nextId, payload);
    InFlightAppends(y.forward, Announcement(y.sender, payload));
    AnnouncementCarries(y.sender, payload);
    assert (y.issued + [c])[|y.received|..] == y.issued[|y.received|..] + [c];
    assert Payloads(y.issued[|y.received|..] + [c]) == Payloads(y.issued[|y.received|..]) + [payload];
  }

  lemma IssueAgrees(y: System, payload: Payload)
    requires Agree(y)
    ensures Agree(Step(y, Issue(payload)))
  {
    var g := Announcement(y.sender, payload);
    MaskStep(|y.issued|);
    IssueCarries(y, payload);
    if y.receiver.nextId.None? {
      if y.issued == [] {
        PointFirstStarts(y.forward, payload);
        assert g == [CommandPoint(0), Transfer(payload)];
      } else {
        PointFirstAppends(y.forward, g);
      }
    }
  }

  lemma TransferAgrees(y: System)
    requires Agree(y) && y.forward != [] && y.forward[0].Transfer?
    ensures Agree(Step(y, Arrive))
  {
    var m, rest := y.forward[0], y.forward[1..];
    var todo := y.issued[|y.received|..];
    assert InFlight(y.forward) == [m.payload] + InFlight(rest);
    assert |Payloads(todo)| == 1 + |InFlight(rest)|;
    assert todo[0].payload == Payloads(todo)[0] == m.payload;
    MaskStep(|y.received|);
    var z := Step(y, Arrive);
    assert z.received == y.received + [todo[0]];
    assert z.issued[|z.received|..] == todo[1..];
    assert Payloads(todo[1..]) == Payloads(todo)[1..] == InFlight(rest);
  }

  lemma ArriveAgrees(y: System)
    requires Agree(y) && y.forward != []
    ensures Agree(Step(y, Arrive))
  {
    if y.forward[0].Transfer? {
      TransferAgrees(y);
    } else {
      assert InFlight(y.forward) == InFlight(y.forward[1..]);
    }
  }

  lemma StepAgrees(y: System, a: Action)
    requires Agree(y)
    ensures Agree(Step(y, a))
  {
    match a
    case Issue(payload) => IssueAgrees(y, payload);
    case AskFlush(wantCompleted) => QuietAppends(y, [Flush(wantCompleted)]);
    case Arrive => if y.forward != [] { ArriveAgrees(y); }
    case Finish(_) =>
    case Report(_) =>
    case Return =>
      if y.backward != [] {
        var m := y.backward[0];
        QuietAppends(y, Replies(m.reported, m.timelyReply));
      }
  }

  lemma {:induction false} RunAgrees(y: System, actions: seq<Action>)
    requires Agree(y)
    ensures Agree(RunFrom(y, actions))
    decreases |actions|
  {
    if actions != [] {
      StepAgrees(y, actions[0]);
      RunAgrees(Step(y, actions[0]), actions[1..]);
    }
  }

  /** In every run, however often the 32-bit ids wrap, no command arrives before
      its command point, and the commands the receiver has numbered are a prefix
      of the commands the sender numbered: same ids, same order, same bodies. */
  lemma IdsAgree(actions: seq<Action>)
    ensures var y := Run(actions);
            && !y.fault
            && y.received <= y.issued
            && (forall k :: 0 <= k < |y.issued| ==> y.issued[k].id == k % MODULUS)
            && Payloads(y.issued) == Payloads(y.received) + InFlight(y.forward)
            && (y.receiver.nextId.Some? ==>
                  y.sender.nextId == Plus(y.receiver.nextId.value, |InFlight(y.forward)|))
  {
    RunAgrees(START, actions);
    AgreementMeans(Run(actions));
  }

  lemma AgreementMeans(y: System)
    requires Agree(y)
    ensures Payloads(y.issued) == Payloads(y.received) + InFlight(y.forward)
    ensures y.receiver.nextId.Some? ==>
              y.sender.nextId == Plus(y.receiver.nextId.value, |InFlight(y.forward)|)
  {
    var todo := y.issued[|y.received|..];
    assert y.issued == y.received + todo;
    assert Payloads(y.issued) == Payloads(y.received) + Payloads(todo);
    MaskSum(|y.received|, |todo|);
  }

  lemma MaskSum(m: nat, n: nat)
    ensures Plus(Mask(m), n) == Mask(m + n)
  {
  }

  // ----- Completion: nothing is lost, nothing is invented -----

  ghost predicate Reported(done: set<Serial>, s: seq<Range>)
  {
    && Canonical(0, s)
    && forall n: Serial :: In(0, s, n) ==> n in done
  }

  ghost predicate Known(completed: seq<Range>, s: seq<Range>)
  {
    && Canonical(0, s)
    && forall n: Serial :: In(0, s, n) ==> In(0, completed, n)
  }

  ghost predicate Conserving(y: System)
  {
    && Agree(y)
    && (forall n: Serial :: n in y.done ==> n < |y.received|)
    && (forall n: Serial :: n in y.done ==> In(0, y.receiver.completed, n) || In(0, y.sender.completed, n))
    && Reported(y.done, y.receiver.completed)
    && Reported(y.done, y.sender.completed)
    && (forall i :: 0 <= i < |y.backward| ==> Reported(y.done, y.backward[i].reported))
    && (forall i :: 0 <= i < |y.forward| && y.forward[i].KnownCompleted? ==> Known(y.sender.completed,
        y.forward[i].known))
    && y.sender.commands == Outstanding(y.issued, y.sender.completed)
  }

  /** The id of a new command is not in any set of completed ids. */
  lemma NewIdIsOutstanding(y: System, payload: Payload)
    requires Conserving(y) && |y.issued| < HALF
    ensures var c := Command(y.sender.nextId, payload);
            Outstanding(y.issued + [c], y.sender.completed) == y.sender.commands + [c]
  {
    var c := Command(y.sender.nextId, payload);
    OutstandingAppends(y.issued, [c], y.sender.completed);
    MemberInWindow(0, y.sender.completed, c.id);
    assert c.id == |y.issued|;
    assert !Member(y.sender.completed, c.id);
    assert [c][1..] == [] && Outstanding([c], y.sender.completed) == [c];
  }

  lemma IssueConserves(y: System, payload: Payload)
    requires Conserving(y) && |y.issued| + 1 < HALF
    ensures Conserving(Step(y, Issue(payload)))
  {
    IssueAgrees(y, payload);
    NewIdIsOutstanding(y, payload);
    var z := Step(y, Issue(payload));
    forall i | 0 <= i < |z.forward| && z.forward[i].KnownCompleted?
      ensures Known(z.sender.completed, z.forward[i].known)
    {
      assert i < |y.forward| && z.forward[i] == y.forward[i];
    }
  }

  lemma FinishConserves(y: System, k: nat)
    requires Conserving(y) && |y.issued| < HALF
    ensures Conserving(Step(y, Finish(k)))
  {
    if k < |y.received| {
      var id := y.received[k].id;
      assert y.received[k] == y.issued[k] && id == k;
      InsertOne(y.receiver.completed, id);
    }
  }

  lemma InsertOne(s: seq<Range>, id: Serial)
    requires Canonical(0, s) && id <= HALF - 2
    ensures Canonical(0, Insert(s, Range(id, id)))
    ensures forall n: Serial :: In(0, Insert(s, Range(id, id)), n) <==> In(0, s, n) || n == id
  {
    InsertInWindow(0, s, Range(id, id));
  }

  lemma ReportConserves(y: System, timelyReply: bool)
    requires Conserving(y)
    ensures Conserving(y.(backward := y.backward + Reports(y.receiver.completed, timelyReply)))
  {
    RebuildIsIdentity(0, y.receiver.completed);
  }

  lemma ArriveConserves(y: System)
    requires Conserving(y) && y.forward != [] && |y.issued| < HALF
    ensures Conserving(Step(y, Arrive))
  {
    ArriveAgrees(y);
    var m := y.forward[0];
    if m.KnownCompleted? {
      ForgottenInWindow(0, y.receiver, m.known);
    } else if m.Flush? && m.wantCompleted {
      var z := y.(forward := y.forward[1..]);
      RebuildIsIdentity(0, y.receiver.completed);
    }
  }

  /** What the sender has recorded after a report. */
  lemma AcknowledgedRecords(y: System, reported: seq<Range>)
    requires Conserving(y) && Reported(y.done, reported) && |y.issued| < HALF
    ensures var s := Acknowledged(y.sender, reported);
            && Reported(y.done, s.completed)
            && (forall o :: In(0, s.completed, o) <==> In(0, y.sender.completed, o) || In(0, reported, o))
            && s.commands == Outstanding(y.issued, s.completed)
  {
    var after := InsertAll(y.sender.completed, reported);
    InsertAllInWindow(0, y.sender.completed, reported);
    forall c | c in y.issued
      ensures Member(after, c.id) <==> Member(y.sender.completed, c.id) || Member(reported, c.id)
    {
      MemberInWindow(0, after, c.id);
      MemberInWindow(0, y.sender.completed, c.id);
      MemberInWindow(0, reported, c.id);
    }
    OutstandingTwice(y.issued, y.sender.completed, reported, after);
  }

  lemma ReturnConserves(y: System)
    requires Conserving(y) && y.backward != [] && |y.issued| < HALF
    ensures Conserving(Step(y, Return))
  {
    StepAgrees(y, Return);
    var m := y.backward[0];
    AcknowledgedRecords(y, m.reported);
    RebuildIsIdentity(0, m.reported);
    var z := Step(y, Return);
    forall i | 0 <= i < |z.forward| && z.forward[i].KnownCompleted?
      ensures Known(z.sender.completed, z.forward[i].known)
    {
      if i < |y.forward| {
        assert z.forward[i] == y.forward[i];
      } else {
        assert z.forward[i].known == m.reported;
      }
    }
  }

  lemma StepConserves(y: System, a: Action)
    requires Conserving(y) && |Step(y, a).issued| < HALF
    ensures Conserving(Step(y, a))
  {
    match a
    case Issue(payload) => IssueConserves(y, payload);
    case AskFlush(wantCompleted) => StepAgrees(y, a);
    case Arrive => if y.forward != [] { ArriveConserves(y); }
    case Finish(k) => FinishConserves(y, k);
    case Report(timelyReply) => ReportConserves(y, timelyReply);
    case Return => if y.backward != [] { ReturnConserves(y); }
  }

  lemma {:induction false} IssuedGrows(y: System, actions: seq<Action>)
    ensures |y.issued| <= |RunFrom(y, actions).issued|
    decreases |actions|
  {
    if actions != [] {
      IssuedGrows(Step(y, actions[0]), actions[1..]);
    }
  }

  lemma {:induction false} RunConserves(y: System, actions: seq<Action>)
    requires Conserving(y) && |RunFrom(y, actions).issued| < HALF
    ensures Conserving(RunFrom(y, actions))
    decreases |actions|
  {
    if actions != [] {
      IssuedGrows(Step(y, actions[0]), actions[1..]);
      StepConserves(y, actions[0]);
      RunConserves(Step(y, actions[0]), actions[1..]);
    }
  }

  /** What the protocol owes its users, in terms of the sets' own membership
      test: no completed id is lost, none is invented, nothing is called known
      before the sender knows it, and the replay buffer holds exactly the
      commands not yet known complete, in issue order. */
  ghost predicate Conserved(y: System)
  {
    && (forall n: Serial :: n in y.done ==> Member(y.receiver.completed, n) || Member(y.sender.completed, n))
    && (forall n: Serial :: n < |y.issued| && Member(y.sender.completed, n) ==> n in y.done)
    && (forall i, n: Serial :: 0 <= i < |y.forward| && y.forward[i].KnownCompleted? && n < |y.issued| ==>
          Member(y.forward[i].known, n) ==> Member(y.sender.completed, n))
    && y.sender.commands == Outstanding(y.issued, y.sender.completed)
  }

  lemma ConservingImpliesConserved(y: System)
    requires Conserving(y) && |y.issued| < HALF
    ensures Conserved(y)
  {
    forall n: Serial | n < HALF
      ensures Member(y.receiver.completed, n) <==> In(0, y.receiver.completed, n)
      ensures Member(y.sender.completed, n) <==> In(0, y.sender.completed, n)
    {
      MemberInWindow(0, y.receiver.completed, n);
      MemberInWindow(0, y.sender.completed, n);
    }
    forall i, n: Serial | 0 <= i < |y.forward| && y.forward[i].KnownCompleted? && n < HALF
      ensures Member(y.forward[i].known, n) <==> In(0, y.forward[i].known, n)
    {
      MemberInWindow(0, y.forward[i].known, n);
    }
  }

  lemma CompletionIsConserved(actions: seq<Action>)
    requires |Run(actions).issued| < HALF
    ensures Conserved(Run(actions))
  {
    RunConserves(START, actions);
    ConservingImpliesConserved(Run(actions));
  }

  lemma AcknowledgedSettles(y: System)
    requires Conserving(y) && |y.issued| < HALF
    ensures forall c :: c in Acknowledged(y.sender, y.receiver.completed).commands <==> c in y.issued && c.id !in y.done
  {
    AcknowledgedRecords(y, y.receiver.completed);
    var after := Acknowledged(y.sender, y.receiver.completed).completed;
    forall c | c in y.issued
      ensures Member(after, c.id) <==> c.id in y.done
    {
      MemberInWindow(0, after, c.id);
      assert Offset(0, c.id) == c.id;
    }
    OutstandingElements(y.issued, after);
  }

  /** Once nothing is on its way back, one report settles the account: the
      sender then holds exactly the issued commands that were never completed. */
  lemma {:induction false} ReportSettles(actions: seq<Action>, timelyReply: bool)
    requires var y := Run(actions);
             |y.issued| < HALF && y.backward == [] && Encodable(y.receiver.completed)
    ensures var y := Run(actions);
            var z := Step(Step(y, Report(timelyReply)), Return);
            && z.issued == y.issued && z.done == y.done
            && (forall c :: c in z.sender.commands <==> c in y.issued && c.id !in y.done)
  {
    RunConserves(START, actions);
    ReportReturns(Run(actions), timelyReply);
    AcknowledgedSettles(Run(actions));
  }

  lemma ReportReturns(y: System, timelyReply: bool)
    requires y.backward == [] && Encodable(y.receiver.completed) && Canonical(0, y.receiver.completed)
    ensures var z := Step(Step(y, Report(timelyReply)), Return);
            z.issued == y.issued && z.done == y.done && z.sender == Acknowledged(y.sender, y.receiver.completed)
  {
    RebuildIsIdentity(0, y.receiver.completed);
    assert Step(y, Report(timelyReply)).backward == [Completed(y.receiver.completed, timelyReply)];
  }

  lemma {:induction false} OutstandingElements(commands: seq<Command>, completed: seq<Range>)
    ensures forall c :: c in Outstanding(commands, completed) <==> c in commands && !Member(completed, c.id)
  {
    if commands != [] {
      OutstandingElements(commands[1..], completed);
      assert commands == [commands[0]] + commands[1..];
    }
  }

  lemma {:induction false} AllForgotten(r: ReceiverState)
    requires Canonical(0, r.completed)
    ensures Forgotten(r, r.completed) == r.(completed := [])
  {
    ForgottenExactly(0, r, r.completed);
    forall o
      ensures !In(0, Forgotten(r, r.completed).completed, o)
    {
      forall i | 0 <= i < |r.completed|
        ensures AllIn(0, r.completed[i], r.completed)
      {
      }
    }
    CanonicalIsUnique(0, Forgotten(r, r.completed).completed, []);
  }

  /** The sender handles a report, when the set crosses the wire as it is. */
  lemma Returned(y: System, s: seq<Range>, timelyReply: bool)
    requires y.forward == [] && Encodable(s) && InsertAll([], s) == s
    ensures Step(y.(backward := [Completed(s, timelyReply)]), Return)
            == y.(sender := Acknowledged(y.sender, s), backward := [],
                  forward := if timelyReply then [KnownCompleted(s)] else [])
  {
    assert [Completed(s, timelyReply)][1..] == [];
  }

  /** The three steps, when a set crosses the wire as it is. */
  lemma ReplyComesBack(y: System)
    requires y.forward == [] && y.backward == [] && Encodable(y.receiver.completed)
    requires InsertAll([], y.receiver.completed) == y.receiver.completed
    ensures Step(Step(Step(y, Report(true)), Return), Arrive)
            == y.(sender := Acknowledged(y.sender, y.receiver.completed),
                  receiver := Forgotten(y.receiver, y.receiver.completed))
  {
    var s := y.receiver.completed;
    var a := Step(y, Report(true));
    assert a == y.(backward := [Completed(s, true)]);
    Returned(y, s, true);
    var b := Step(a, Return);
    assert b == y.(sender := Acknowledged(y.sender, s), forward := [KnownCompleted(s)]);
  }

  /** The same for a flush. */
  lemma FlushComesBack(y: System)
    requires y.forward == [] && y.backward == [] && Encodable(y.receiver.completed)
    requires InsertAll([], y.receiver.completed) == y.receiver.completed
    ensures Step(Step(Step(y, AskFlush(true)), Arrive), Return)
            == y.(sender := Acknowledged(y.sender, y.receiver.completed))
  {
    var s := y.receiver.completed;
    var a := Step(y, AskFlush(true));
    assert a == y.(forward := [Flush(true)]);
    var b := Step(a, Arrive);
    assert b == y.(backward := [Completed(s, false)]);
    Returned(y, s, false);
  }

  lemma FlushForNothing(y: System)
    requires y.forward == [] && y.backward == []
    ensures Step(Step(y, AskFlush(false)), Arrive) == y
  {
    assert Step(y, AskFlush(false)) == y.(forward := [Flush(false)]);
  }

  /** With nothing on its way, a report that asks for a reply is answered, and the
      receiver then forgets everything: both ends have settled. */
  lemma {:induction false} TimelyReplySettles(actions: seq<Action>, y: System)
    requires y == Run(actions) && |y.issued| < HALF
    requires y.forward == [] && y.backward == [] && Encodable(y.receiver.completed)
    ensures var z := Step(Step(Step(y, Report(true)), Return), Arrive);
            && z.forward == [] && z.backward == [] && z.issued == y.issued && z.done == y.done
            && z.receiver == y.receiver.(completed := [])
            && (forall c :: c in z.sender.commands <==> c in y.issued && c.id !in y.done)
  {
    RunConserves(START, actions);
    RebuildIsIdentity(0, y.receiver.completed);
    AcknowledgedSettles(y);
    AllForgotten(y.receiver);
    ReplyComesBack(y);
  }

  /** A report that does not ask for a reply gets none. */
  lemma NoReplyUnasked(y: System)
    requires y.backward != [] && !y.backward[0].timelyReply
    ensures Step(y, Return).forward == y.forward
  {
    assert y.forward + [] == y.forward;
  }

  /** With nothing on its way, a flush settles like a report when it asks for
      completed, and is not answered when it does not. */
  lemma {:induction false} FlushSettles(actions: seq<Action>, y: System)
    requires y == Run(actions) && |y.issued| < HALF
    requires y.forward == [] && y.backward == [] && Encodable(y.receiver.completed)
    ensures Step(Step(y, AskFlush(false)), Arrive) == y
    ensures var z := Step(Step(Step(y, AskFlush(true)), Arrive), Return);
            && z.forward == [] && z.backward == [] && z.receiver == y.receiver
            && z.issued == y.issued && z.done == y.done
            && (forall c :: c in z.sender.commands <==> c in y.issued && c.id !in y.done)
  {
    RunConserves(START, actions);
    RebuildIsIdentity(0, y.receiver.completed);
    AcknowledgedSettles(y);
    FlushComesBack(y);
    FlushForNothing(y);
  }

  // ----- The bound on conservation is exact -----

  function Issues(n: nat): seq<Action>
  {
    if n == 0 then [] else [Issue("")] + Issues(n - 1)
  }

  function Arrivals(n: nat): seq<Action>
  {
    if n == 0 then [] else [Arrive] + Arrivals(n - 1)
  }

  lemma {:induction false} RunConcatenates(y: System, first: seq<Action>, second: seq<Action>)
    ensures RunFrom(y, first + second) == RunFrom(RunFrom(y, first), second)
    decreases |first|
  {
    if first == [] {
      assert first + second == second;
    } else {
      assert (first + second)[0] == first[0] && (first + second)[1..] == first[1..] + second;
      RunConcatenates(Step(y, first[0]), first[1..], second);
    }
  }

  /** Only issues and arrivals so far: nothing was completed or reported. */
  ghost predicate Untouched(y: System)
  {
    && y.backward == [] && y.done == {}
    && y.receiver.completed == [] && y.sender.completed == []
    && forall i :: 0 <= i < |y.forward| ==> y.forward[i].Transfer? || y.forward[i].CommandPoint?
  }

  lemma {:induction false} IssuesRun(y: System, n: nat)
    requires Untouched(y)
    ensures var z := RunFrom(y, Issues(n));
            Untouched(z) && |z.issued| == |y.issued| + n
    decreases n
  {
    if n > 0 {
      var a := [Issue("")] + Issues(n - 1);
      assert a[0] == Issue("") && a[1..] == Issues(n - 1);
      IssuesRun(Step(y, Issue("")), n - 1);
    }
  }

  lemma {:induction false} ArrivalsRun(y: System, n: nat)
    requires Untouched(y) && n == |y.forward|
    ensures var z := RunFrom(y, Arrivals(n));
            Untouched(z) && z.forward == [] && z.issued == y.issued
    decreases n
  {
    if n > 0 {
      var a := [Arrive] + Arrivals(n - 1);
      assert a[0] == Arrive && a[1..] == Arrivals(n - 1);
      ArrivalsRun(Step(y, Arrive), n - 1);
    }
  }

  /** Any number of commands can all be issued and received. */
  lemma AllReceived(n: nat) returns (actions: seq<Action>)
    ensures var y := Run(actions);
            Untouched(y) && Agree(y) && |y.issued| == n && y.received == y.issued
  {
    var filled := RunFrom(START, Issues(n));
    IssuesRun(START, n);
    ArrivalsRun(filled, |filled.forward|);
    actions := Issues(n) + Arrivals(|filled.forward|);
    RunConcatenates(START, Issues(n), Arrivals(|filled.forward|));
    RunAgrees(START, actions);
    var y := Run(actions);
    assert |InFlight(y.forward)| == |y.issued[|y.received|..]|;
  }

  /** With 2^31 commands issued and received, completing only the first and the
      last makes the sender drop a command that was never completed. */
  lemma ConservationFailsAtHalf()
    ensures exists actions :: |Run(actions).issued| == HALF && !Conserved(Run(actions))
  {
    var actions := AllReceived(HALF);
    var y := Run(actions);
    var tail := [Finish(0), Finish(HALF - 1), Report(false), Return];
    EndsOnly(y);
    RunConcatenates(START, actions, tail);
    assert Run(actions + tail) == RunFrom(y, tail);
  }

  lemma EndsOnly(y: System)
    requires Untouched(y) && |y.received| == |y.issued| == HALF
    requires y.received[0].id == 0 && y.received[HALF - 1].id == HALF - 1
    ensures var z := RunFrom(y, [Finish(0), Finish(HALF - 1), Report(false), Return]);
            |z.issued| == HALF && !Conserved(z)
  {
    WindowIsSharp();
    var first, last := Range(0, 0), Range(HALF - 1, HALF - 1);
    var both := [Range(0, HALF - 1)];
    assert [first, last][1..] == [last] && [last][1..] == [];
    assert InsertAll([], [first, last]) == InsertAll(Insert([], first), [last]) == Insert(Insert([], first), last);
    assert both[1..] == [] && InsertAll([], both) == Insert([], both[0]) == both;
    var x := Step(Step(y, Finish(0)), Finish(HALF - 1));
    assert x.receiver.completed == both && x.done == {0, HALF - 1};
    var w := Step(x, Report(false));
    assert w.backward == [Completed(both, false)];
    var z := Step(w, Return);
    assert z.sender.completed == both && Member(both, 1) && 1 !in z.done;
    UnrollFour(y, Finish(0), Finish(HALF - 1), Report(false), Return);
  }

  lemma UnrollFour(y: System, a: Action, b: Action, c: Action, d: Action)
    ensures RunFrom(y, [a, b, c, d]) == Step(Step(Step(Step(y, a), b), c), d)
  {
    var w := Step(y, a);
    var x := Step(w, b);
    var z := Step(x, c);
    assert [a, b, c, d][1..] == [b, c, d] && [b, c, d][1..] == [c, d] && [c, d][1..] == [d] && [d][1..] == [];
    assert RunFrom(z, [d]) == RunFrom(Step(z, d), []) == Step(z, d);
    assert RunFrom(x, [c, d]) == RunFrom(z, [d]);
    assert RunFrom(w, [b, c, d]) == RunFrom(x, [c, d]);
  }

  /** Conservation holds in all runs of up to `limit` commands exactly when the
      limit is below 2^31. */
  lemma ConservationBoundIsExact(limit: nat)
    ensures (forall actions | |Run(actions).issued| <= limit :: Conserved(Run(actions))) <==> limit < HALF
  {
    if limit < HALF {
      forall actions | |Run(actions).issued| <= limit
        ensures Conserved(Run(actions))
      {
        CompletionIsConserved(actions);
      }
    } else {
      ConservationFailsAtHalf();
    }
  }
}
