/** The console's table of agents: filtering, updates and ageing, and the events
    that mirror them (qpid/cpp/src/qmf/ConsoleSession.cpp, qpid/cpp/src/qmf/AgentImpl.h). */
module Console {
  import opened Wrappers
  import opened Sequences
  import opened Notifier

  const WORD64: nat := 0x1_0000_0000_0000_0000
  const WORD32: nat := 0x1_0000_0000

  /** An agent's name is its place in the order of names, where the empty name is
      first. */
  type Name = nat

  const EMPTY_NAME: Name := 0

  /** Attributes by number, the epoch and the time of the last schema update among
      them. */
  type Attributes = map<nat, nat>

  const EPOCH: nat := 0
  const SCHEMA_UPDATED: nat := 1

  /** `id` tells one AgentImpl object from another: the agent of the connected broker
      may be in the table and be held apart at once. */
  datatype Agent = Agent(id: nat, name: Name, epoch: nat, attributes: Attributes, touched: bool, untouched: nat)

  function Touched(a: Agent): Agent
  {
    a.(touched := true)
  }

  /** `age()`, on a counter of 32 bits. */
  function Aged(a: Agent): Agent
  {
    a.(untouched := if a.touched then 0 else (a.untouched + 1) % WORD32, touched := false)
  }

  datatype Reason = Filtered | AgedOut

  datatype Event =
    | AgentAdd(name: Name)
    | AgentDel(name: Name, reason: Reason)
    | AgentRestart(name: Name)
    | SchemaUpdate(name: Name)

  // ----- The table, a std::map in the order of names -----

  function Find(agents: seq<Agent>, name: Name): Option<Agent>
  {
    if agents == [] then None else if agents[0].name == name then Some(agents[0]) else Find(agents[1..], name)
  }

  /** `agents[a.name] = a`. */
  function Put(agents: seq<Agent>, a: Agent): seq<Agent>
  {
    if agents == [] || a.name < agents[0].name then [a] + agents
    else if a.name == agents[0].name then [a] + agents[1..]
    else [agents[0]] + Put(agents[1..], a)
  }

  function Names(agents: seq<Agent>): set<Name>
  {
    set a | a in agents :: a.name
  }

  function Erase(agents: seq<Agent>, name: Name): seq<Agent>
  {
    if agents == [] then [] else if agents[0].name == name then agents[1..] else [agents[0]] + Erase(agents[1..], name)
  }

  /** Those of which `p` is true, or those of which it is not. */
  function Chosen(agents: seq<Agent>, p: Agent -> bool, wanted: bool): seq<Agent>
  {
    if agents == [] then []
    else (if p(agents[0]) == wanted then [agents[0]] else []) + Chosen(agents[1..], p, wanted)
  }

  function Deletions(agents: seq<Agent>, reason: Reason): seq<Event>
  {
    if agents == [] then [] else [AgentDel(agents[0].name, reason)] + Deletions(agents[1..], reason)
  }

  /** One pass over the table: every agent but the connected broker's grows older,
      and those that are too old are taken out. */
  function Older(agents: seq<Agent>, broker: Option<Agent>): seq<Agent>
  {
    if agents == [] then []
    else [if IsBroker(broker, agents[0].name) then agents[0] else Aged(agents[0])] + Older(agents[1..], broker)
  }

  /** While no broker is known its handle is invalid, and `getName()` of that is
      the empty name. */
  predicate IsBroker(broker: Option<Agent>, name: Name)
  {
    name == if broker.None? then EMPTY_NAME else broker.value.name
  }

  predicate HoldsBroker(broker: Option<Agent>, agents: seq<Agent>)
  {
    agents != [] && (IsBroker(broker, agents[0].name) || HoldsBroker(broker, agents[1..]))
  }

  function TooOld(broker: Option<Agent>, limit: nat): Agent -> bool
  {
    (a: Agent) => !IsBroker(broker, a.name) && a.untouched > limit
  }

  function Mismatched(matches: Attributes -> bool): Agent -> bool
  {
    (a: Agent) => !matches(a.attributes)
  }

  // ----- The session -----

  datatype Session = Session(
    agents: seq<Agent>, broker: Option<Agent>, brokerInList: bool, filter: Option<Attributes -> bool>,
    lastVisit: nat, lastAgePass: nat, nextId: nat, log: seq<Event>)

  function Logged(s: Session, e: Event): Session
  {
    s.(log := s.log + [e])
  }

  function Passes(s: Session, attributes: Attributes): bool
  {
    s.filter.None? || s.filter.value(attributes)
  }

  function FilterSet(s: Session, matches: Attributes -> bool): Session
  {
    var gone := Chosen(s.agents, Mismatched(matches), true);
    var t := s.(filter := Some(matches), agents := Chosen(s.agents, Mismatched(matches), false),
                brokerInList := s.brokerInList && !HoldsBroker(s.broker, gone),
                log := s.log + Deletions(gone, Filtered));
    if !t.brokerInList && t.broker.Some? && matches(t.broker.value.attributes)
    then Logged(t.(agents := Put(t.agents, t.broker.value), brokerInList := true), AgentAdd(t.broker.value.name))
    else t
  }

  /** A new object; the epoch is not kept among its attributes. */
  function Made(s: Session, name: Name, attributes: Attributes): Agent
  {
    Agent(s.nextId, name, Epoch(attributes), attributes - {EPOCH}, true, 0)
  }

  function Epoch(attributes: Attributes): nat
  {
    if EPOCH in attributes then attributes[EPOCH] else 0
  }

  /** A change to an object in the table shows wherever the object is held. */
  function Changed(s: Session, a: Agent): Session
  {
    s.(agents := Put(s.agents, a), broker := if s.broker.Some? && s.broker.value.id == a.id then Some(a) else s.broker)
  }

  function BrokerLocated(s: Session, name: Name, attributes: Attributes): Session
  {
    var a := Made(s, name, attributes);
    var t := s.(broker := Some(a), nextId := s.nextId + 1);
    if Passes(s, attributes)
    then Logged(t.(brokerInList := true, agents := Put(s.agents, a)), AgentAdd(name))
    else t
  }

  function Refreshed(s: Session, a: Agent, attributes: Attributes): Session
  {
    var restarted := a.epoch != Epoch(attributes);
    var b := Touched(a).(epoch := Epoch(attributes));
    var t := if restarted then Logged(Changed(s, b), AgentRestart(a.name)) else Changed(s, b);
    if SCHEMA_UPDATED !in attributes || SCHEMA_UPDATED !in b.attributes
       || attributes[SCHEMA_UPDATED] <= b.attributes[SCHEMA_UPDATED] then t
    else
      var u := if restarted then t else Logged(t, SchemaUpdate(a.name));
      Changed(u, b.(attributes := b.attributes[SCHEMA_UPDATED := attributes[SCHEMA_UPDATED]]))
  }

  /** A heartbeat, or an answer to a locate request. */
  function Updated(s: Session, name: Name, brokerLocate: bool, attributes: Attributes): Session
  {
    if brokerLocate then BrokerLocated(s, name, attributes)
    else if !Passes(s, attributes) then s
    else
      var found := Find(s.agents, name);
      if found.Some? then Refreshed(s, found.value, attributes)
      else
        var a := Made(s, name, attributes);
        Logged(s.(agents := Put(s.agents, a), nextId := s.nextId + 1), AgentAdd(name))
  }

  /** `seconds - lastAgePass >= 60`, on unsigned words of 64 bits. */
  predicate PassDue(seconds: nat, last: nat)
  {
    (if seconds >= last then seconds - last else seconds + WORD64 - last) >= 60
  }

  function Ticked(s: Session, seconds: nat, limit: nat): Session
  {
    if seconds == s.lastVisit then s
    else
      var t := s.(lastVisit := seconds, lastAgePass := if s.lastAgePass == 0 then seconds else s.lastAgePass);
      if !PassDue(seconds, t.lastAgePass) then t
      else
        var older := Older(t.agents, t.broker);
        t.(lastAgePass := seconds, agents := Chosen(older, TooOld(t.broker, limit), false),
           log := t.log + Deletions(Chosen(older, TooOld(t.broker, limit), true), AgedOut))
  }

  /** Any message touches the agent that it comes from, if that is in the table. */
  function Heard(s: Session, name: Name): Session
  {
    var found := Find(s.agents, name);
    if found.None? then s else Changed(s, Touched(found.value))
  }

  datatype Content = Update(brokerLocate: bool, attributes: Attributes) | Anything

  function Dispatched(s: Session, name: Name, m: Content): Session
  {
    var t := Heard(s, name);
    if m.Update? then Updated(t, name, m.brokerLocate, m.attributes) else t
  }

  // ----- The session object -----

  ghost predicate Sorted(agents: seq<Agent>)
  {
    forall i, j :: 0 <= i < j < |agents| ==> agents[i].name < agents[j].name
  }

  function EraseAll(agents: seq<Agent>, gone: seq<Agent>): seq<Agent>
    decreases |gone|
  {
    if gone == [] then agents else EraseAll(Erase(agents, gone[0].name), gone[1..])
  }

  lemma {:induction false} ChosenAreThere(agents: seq<Agent>, p: Agent -> bool, wanted: bool, a: Agent)
    ensures a in Chosen(agents, p, wanted) <==> a in agents && p(a) == wanted
  {
    if agents != [] {
      ChosenAreThere(agents[1..], p, wanted, a);
    }
  }

  lemma {:induction false} ErasePastFirst(first: Agent, rest: seq<Agent>, gone: seq<Agent>)
    requires forall a :: a in gone ==> a.name != first.name
    ensures EraseAll([first] + rest, gone) == [first] + EraseAll(rest, gone)
    decreases |gone|
  {
    if gone != [] {
      assert ([first] + rest)[1..] == rest;
      ErasePastFirst(first, Erase(rest, gone[0].name), gone[1..]);
    }
  }

  /** Collecting some entries first and erasing them afterwards leaves the others. */
  lemma {:induction false} ErasingTheChosen(agents: seq<Agent>, p: Agent -> bool)
    requires Sorted(agents)
    ensures EraseAll(agents, Chosen(agents, p, true)) == Chosen(agents, p, false)
  {
    if agents != [] {
      var first, rest := agents[0], agents[1..];
      var gone := Chosen(rest, p, true);
      ErasingTheChosen(rest, p);
      assert agents == [first] + rest;
      if p(first) {
        assert ([first] + gone)[1..] == gone && ([first] + gone)[0] == first;
        assert [] + Chosen(rest, p, false) == Chosen(rest, p, false);
      } else {
        forall a | a in gone
          ensures a.name != first.name
        {
          ChosenAreThere(rest, p, true, a);
          var i :| 0 <= i < |rest| && rest[i] == a;
          assert agents[0].name < agents[i + 1].name;
        }
        ErasePastFirst(first, rest, gone);
        assert [] + gone == gone;
      }
    }
  }

  class ConsoleSession {
    var agents: seq<Agent>
    var connectedBroker: Option<Agent>
    var connectedBrokerInAgentList: bool
    var agentQuery: Option<Attributes -> bool>
    var lastVisit: nat
    var lastAgePass: nat
    var nextId: nat
    const maxAgentAge: nat
    const events: EventQueue<Event>

    function State(): Session
      reads this, events
    {
      Session(agents, connectedBroker, connectedBrokerInAgentList, agentQuery, lastVisit, lastAgePass, nextId,
          events.log)
    }

    constructor (maxAgentAge: nat)
      ensures this.maxAgentAge == maxAgentAge && fresh(events)
      ensures State() == Session([], None, false, None, 0, 0, 0, [])
    {
      this.maxAgentAge := maxAgentAge;
      agents, connectedBroker, connectedBrokerInAgentList, agentQuery := [], None, false, None;
      lastVisit, lastAgePass, nextId := 0, 0, 0;
      events := new EventQueue();
    }

    /** `agents.erase` and a deletion event for each. */
    method Remove(toDelete: seq<Agent>, reason: Reason)
      modifies this`agents, events`queue, events`log, events.Attached()
      ensures agents == EraseAll(old(agents), toDelete)
      ensures events.log == old(events.log) + Deletions(toDelete, reason) && events.Attached() == old(events.Attached())
    {
      for i := 0 to |toDelete|
        invariant EraseAll(agents, toDelete[i..]) == EraseAll(old(agents), toDelete)
        invariant events.log + Deletions(toDelete[i..], reason) == old(events.log) + Deletions(toDelete, reason)
        invariant events.notifier == old(events.notifier)
      {
        var a := toDelete[i];
        assert toDelete[i..][0] == a && toDelete[i..][1..] == toDelete[i + 1..];
        agents := Erase(agents, a.name);
        Associate(events.log, [AgentDel(a.name, reason)], Deletions(toDelete[i + 1..], reason));
        events.EnqueueEvent(AgentDel(a.name, reason));
      }
    }

    /** The agents that a filter does not let pass. */
    method Mismatching(matches: Attributes -> bool) returns (toDelete: seq<Agent>)
      modifies this`connectedBrokerInAgentList
      ensures toDelete == Chosen(agents, Mismatched(matches), true)
      ensures connectedBrokerInAgentList == (old(connectedBrokerInAgentList) && !HoldsBroker(connectedBroker, toDelete))
    {
      toDelete := [];
      ghost var p := Mismatched(matches);
      ghost var gone := Chosen(agents, p, true);
      assert agents[0..] == agents && [] + gone == gone;
      for i := 0 to |agents|
        invariant toDelete + Chosen(agents[i..], p, true) == gone
        invariant (connectedBrokerInAgentList && !HoldsBroker(connectedBroker, Chosen(agents[i..], p, true)))
                  == (old(connectedBrokerInAgentList) && !HoldsBroker(connectedBroker, gone))
      {
        var a := agents[i];
        ghost var rest := Chosen(agents[i + 1..], p, true);
        assert agents[i..][0] == a && agents[i..][1..] == agents[i + 1..];
        if !matches(a.attributes) {
          assert Chosen(agents[i..], p, true) == [a] + rest && ([a] + rest)[1..] == rest;
          Associate(toDelete, [a], rest);
          toDelete := toDelete + [a];
          if IsBroker(connectedBroker, a.name) {
            connectedBrokerInAgentList := false;
          }
        } else {
          assert Chosen(agents[i..], p, true) == [] + rest == rest;
        }
      }
      assert toDelete + [] == toDelete;
    }

    method SetAgentFilter(matches: Attributes -> bool)
      requires Sorted(agents)
      modifies this, events`queue, events`log, events.Attached()
      ensures State() == FilterSet(old(State()), matches) && events.Attached() == old(events.Attached())
    {
      agentQuery := Some(matches);
      var toDelete := Mismatching(matches);
      ErasingTheChosen(agents, Mismatched(matches));
      Remove(toDelete, Filtered);
      if !connectedBrokerInAgentList && connectedBroker.Some? && matches(connectedBroker.value.attributes) {
        agents := Put(agents, connectedBroker.value);
        connectedBrokerInAgentList := true;
        events.EnqueueEvent(AgentAdd(connectedBroker.value.name));
      }
    }

    /** An assignment to an agent object, wherever it is held. */
    method Change(a: Agent)
      modifies this`agents, this`connectedBroker
      ensures State() == Changed(old(State()), a)
    {
      agents := Put(agents, a);
      if connectedBroker.Some? && connectedBroker.value.id == a.id {
        connectedBroker := Some(a);
      }
    }

    method HandleAgentUpdate(name: Name, brokerLocate: bool, attrs: Attributes)
      modifies this, events`queue, events`log, events.Attached()
      ensures State() == Updated(old(State()), name, brokerLocate, attrs) && events.Attached() == old(events.Attached())
    {
      var epoch := if EPOCH in attrs then attrs[EPOCH] else 0;
      if brokerLocate {
        var agent := Agent(nextId, name, epoch, attrs - {EPOCH}, true, 0);
        nextId := nextId + 1;
        connectedBroker := Some(agent);
        if agentQuery.None? || agentQuery.value(attrs) {
          connectedBrokerInAgentList := true;
          agents := Put(agents, agent);
          events.EnqueueEvent(AgentAdd(name));
        }
        return;
      }
      if agentQuery.Some? && !agentQuery.value(attrs) {
        return;
      }
      var aIter := Find(agents, name);
      if aIter.None? {
        var agent := Agent(nextId, name, epoch, attrs - {EPOCH}, true, 0);
        nextId := nextId + 1;
        agents := Put(agents, agent);
        events.EnqueueEvent(AgentAdd(name));
      } else {
        Refresh(aIter.value, epoch, attrs);
      }
    }

    method Refresh(a: Agent, epoch: nat, attrs: Attributes)
      requires epoch == Epoch(attrs)
      modifies this, events`queue, events`log, events.Attached()
      ensures State() == Refreshed(old(State()), a, attrs) && events.Attached() == old(events.Attached())
    {
      var impl := a.(touched := true, epoch := epoch);
      Change(impl);
      var detectedRestart := false;
      if a.epoch != epoch {
        events.EnqueueEvent(AgentRestart(a.name));
        detectedRestart := true;
      }
      if SCHEMA_UPDATED in attrs && SCHEMA_UPDATED in impl.attributes {
        if attrs[SCHEMA_UPDATED] > impl.attributes[SCHEMA_UPDATED] {
          if !detectedRestart {
            events.EnqueueEvent(SchemaUpdate(a.name));
          }
          Change(impl.(attributes := impl.attributes[SCHEMA_UPDATED := attrs[SCHEMA_UPDATED]]));
        }
      }
    }

    method Dispatch(name: Name, m: Content)
      modifies this, events`queue, events`log, events.Attached()
      ensures State() == Dispatched(old(State()), name, m) && events.Attached() == old(events.Attached())
    {
      var aIter := Find(agents, name);
      if aIter.Some? {
        Change(aIter.value.(touched := true));
      }
      if m.Update? {
        HandleAgentUpdate(name, m.brokerLocate, m.attributes);
      }
    }

    /** The loop that ages the table, and what it finds too old. */
    method Age() returns (toDelete: seq<Agent>)
      modifies this`agents
      ensures agents == Older(old(agents), connectedBroker)
      ensures toDelete == Chosen(agents, TooOld(connectedBroker, maxAgentAge), true)
    {
      toDelete := [];
      ghost var p := TooOld(connectedBroker, maxAgentAge);
      ghost var older := Older(agents, connectedBroker);
      OlderAt(agents, connectedBroker);
      assert older[0..] == older && [] + Chosen(older, p, true) == Chosen(older, p, true);
      for i := 0 to |agents|
        invariant |agents| == |old(agents)| && agents == older[..i] + old(agents)[i..]
        invariant toDelete + Chosen(older[i..], p, true) == Chosen(older, p, true)
      {
        var a := agents[i];
        ghost var rest := Chosen(older[i + 1..], p, true);
        assert older[i..][0] == older[i] && older[i..][1..] == older[i + 1..];
        OneOlder(older, old(agents), i);
        if !IsBroker(connectedBroker, a.name) {
          a := Aged(a);
          agents := agents[i := a];
        }
        assert a == older[i];
        if !IsBroker(connectedBroker, a.name) && a.untouched > maxAgentAge {
          Associate(toDelete, [a], rest);
          toDelete := toDelete + [a];
        } else {
          assert [] + rest == rest;
        }
      }
      assert toDelete + [] == toDelete;
    }

    method PeriodicProcessing(seconds: nat)
      requires Sorted(agents)
      modifies this, events`queue, events`log, events.Attached()
      ensures State() == Ticked(old(State()), seconds, maxAgentAge) && events.Attached() == old(events.Attached())
    {
      if seconds == lastVisit {
        return;
      }
      lastVisit := seconds;
      if lastAgePass == 0 {
        lastAgePass := seconds;
      }
      if PassDue(seconds, lastAgePass) {
        lastAgePass := seconds;
        OlderStaysSorted(agents, connectedBroker);
        var toDelete := Age();
        ErasingTheChosen(agents, TooOld(connectedBroker, maxAgentAge));
        Remove(toDelete, AgedOut);
      }
    }
  }

  lemma {:induction false} OlderAt(agents: seq<Agent>, broker: Option<Agent>)
    ensures var older := Older(agents, broker);
            && |older| == |agents|
            && forall i :: 0 <= i < |agents| ==> older[i] == if IsBroker(broker, agents[i].name) then agents[i]
                else Aged(agents[i])
  {
    if agents != [] {
      OlderAt(agents[1..], broker);
      forall i | 0 <= i < |agents|
        ensures Older(agents, broker)[i] == if IsBroker(broker, agents[i].name) then agents[i] else Aged(agents[i])
      {
        if i > 0 {
          assert Older(agents, broker)[i] == Older(agents[1..], broker)[i - 1] && agents[i] == agents[1..][i - 1];
        }
      }
    }
  }

  lemma OlderStaysSorted(agents: seq<Agent>, broker: Option<Agent>)
    requires Sorted(agents)
    ensures Sorted(Older(agents, broker))
  {
    OlderAt(agents, broker);
  }

  lemma OneOlder(older: seq<Agent>, was: seq<Agent>, i: nat)
    requires i < |older| == |was|
    ensures (older[..i] + was[i..])[i] == was[i]
    ensures (older[..i] + was[i..])[i := older[i]] == older[..i + 1] + was[i + 1..]
  {
  }

  // ----- The events mirror the table -----

  function Seen(names: set<Name>, e: Event): set<Name>
  {
    if e.AgentAdd? then names + {e.name} else if e.AgentDel? then names - {e.name} else names
  }

  /** The agents that someone knows of who has seen these events. */
  function Replayed(log: seq<Event>): set<Name>
  {
    if log == [] then {} else Seen(Replayed(log[..|log| - 1]), log[|log| - 1])
  }

  lemma ReplayedOne(log: seq<Event>, e: Event)
    ensures Replayed(log + [e]) == Seen(Replayed(log), e)
  {
    assert (log + [e])[..|log|] == log;
  }

  lemma {:induction false} ReplayedDeletions(log: seq<Event>, gone: seq<Agent>, reason: Reason)
    ensures Replayed(log + Deletions(gone, reason)) == Replayed(log) - Names(gone)
    decreases |gone|
  {
    if gone == [] {
      assert log + [] == log;
    } else {
      var e := AgentDel(gone[0].name, reason);
      ReplayedOne(log, e);
      ReplayedDeletions(log + [e], gone[1..], reason);
      Associate(log, [e], Deletions(gone[1..], reason));
      assert Names(gone) == {gone[0].name} + Names(gone[1..]) by {
        assert gone == [gone[0]] + gone[1..];
      }
    }
  }

  ghost predicate Mirrored(s: Session)
  {
    Sorted(s.agents) && Replayed(s.log) == Names(s.agents)
  }

  lemma {:induction false} PutIsSorted(agents: seq<Agent>, a: Agent)
    requires Sorted(agents)
    ensures Sorted(Put(agents, a)) && Put(agents, a) != []
    ensures Put(agents, a)[0].name == if agents == [] || a.name < agents[0].name then a.name else agents[0].name
  {
    if agents != [] && a.name > agents[0].name {
      PutIsSorted(agents[1..], a);
      var rest := Put(agents[1..], a);
      forall i | 0 <= i < |rest|
        ensures agents[0].name < rest[i].name
      {
        assert rest[0].name <= rest[i].name;
      }
    }
  }

  lemma {:induction false} PutHolds(agents: seq<Agent>, a: Agent, b: Agent)
    requires Sorted(agents)
    ensures b in Put(agents, a) <==> b == a || (b in agents && b.name != a.name)
  {
    if agents != [] {
      assert b in agents <==> b == agents[0] || b in agents[1..];
      if a.name > agents[0].name {
        PutHolds(agents[1..], a, b);
      }
    }
  }

  lemma PutInTable(agents: seq<Agent>, a: Agent)
    requires Sorted(agents)
    ensures Sorted(Put(agents, a))
    ensures forall b :: b in Put(agents, a) <==> b == a || (b in agents && b.name != a.name)
  {
    PutIsSorted(agents, a);
    forall b
      ensures b in Put(agents, a) <==> b == a || (b in agents && b.name != a.name)
    {
      PutHolds(agents, a, b);
    }
  }

  lemma PutNames(agents: seq<Agent>, a: Agent)
    requires Sorted(agents)
    ensures Names(Put(agents, a)) == Names(agents) + {a.name}
  {
    PutInTable(agents, a);
    assert a in Put(agents, a);
    forall n | n in Names(agents)
      ensures n in Names(Put(agents, a))
    {
      var b :| b in agents && b.name == n;
      assert n == a.name || b in Put(agents, a);
    }
  }

  lemma {:induction false} ChosenStaysSorted(agents: seq<Agent>, p: Agent -> bool, wanted: bool)
    requires Sorted(agents)
    ensures Sorted(Chosen(agents, p, wanted))
  {
    if agents != [] {
      ChosenStaysSorted(agents[1..], p, wanted);
      var rest := Chosen(agents[1..], p, wanted);
      forall i | 0 <= i < |rest|
        ensures agents[0].name < rest[i].name
      {
        ChosenAreThere(agents[1..], p, wanted, rest[i]);
        var j :| 0 <= j < |agents[1..]| && agents[1..][j] == rest[i];
        assert agents[1..][j] == agents[j + 1];
      }
    }
  }

  lemma ChosenNames(agents: seq<Agent>, p: Agent -> bool)
    requires Sorted(agents)
    ensures Names(Chosen(agents, p, false)) == Names(agents) - Names(Chosen(agents, p, true))
  {
    forall a
      ensures a in Chosen(agents, p, false) <==> a in agents && !p(a)
      ensures a in Chosen(agents, p, true) <==> a in agents && p(a)
    {
      ChosenAreThere(agents, p, false, a);
      ChosenAreThere(agents, p, true, a);
    }
    forall n | n in Names(Chosen(agents, p, false))
      ensures n in Names(agents) && n !in Names(Chosen(agents, p, true))
    {
      var a :| a in Chosen(agents, p, false) && a.name == n;
      if n in Names(Chosen(agents, p, true)) {
        var b :| b in Chosen(agents, p, true) && b.name == n;
        SameName(agents, a, b);
      }
    }
    forall n | n in Names(agents) && n !in Names(Chosen(agents, p, true))
      ensures n in Names(Chosen(agents, p, false))
    {
      var a :| a in agents && a.name == n;
      assert a in Chosen(agents, p, true) || a in Chosen(agents, p, false);
    }
  }

  lemma SameName(agents: seq<Agent>, a: Agent, b: Agent)
    requires Sorted(agents) && a in agents && b in agents && a.name == b.name
    ensures a == b
  {
    var i :| 0 <= i < |agents| && agents[i] == a;
    var j :| 0 <= j < |agents| && agents[j] == b;
    assert i == j;
  }

  lemma {:induction false} FindInTable(agents: seq<Agent>, name: Name)
    ensures Find(agents, name).Some? ==> Find(agents, name).value in agents && Find(agents, name).value.name == name
    ensures Find(agents, name).None? <==> name !in Names(agents)
  {
    if agents != [] {
      FindInTable(agents[1..], name);
      assert Names(agents) == {agents[0].name} + Names(agents[1..]) by {
        assert agents == [agents[0]] + agents[1..];
      }
    }
  }

  lemma AddedMirrors(s: Session, t: Session, a: Agent)
    requires Mirrored(s) && t.agents == Put(s.agents, a) && t.log == s.log + [AgentAdd(a.name)]
    ensures Mirrored(t)
  {
    PutInTable(s.agents, a);
    PutNames(s.agents, a);
    ReplayedOne(s.log, AgentAdd(a.name));
  }

  lemma ChangedMirrors(s: Session, a: Agent)
    requires Mirrored(s) && a.name in Names(s.agents)
    ensures Mirrored(Changed(s, a)) && Names(Changed(s, a).agents) == Names(s.agents)
  {
    PutInTable(s.agents, a);
    PutNames(s.agents, a);
  }

  lemma RemovedMirrors(s: Session, agents: seq<Agent>, p: Agent -> bool, reason: Reason)
    requires Mirrored(s) && Sorted(agents) && Names(agents) == Names(s.agents)
    ensures Mirrored(s.(agents := Chosen(agents, p, false), log := s.log + Deletions(Chosen(agents, p, true), reason)))
  {
    ChosenStaysSorted(agents, p, false);
    ChosenNames(agents, p);
    ReplayedDeletions(s.log, Chosen(agents, p, true), reason);
  }

  lemma FilterMirrors(s: Session, matches: Attributes -> bool)
    requires Mirrored(s)
    ensures Mirrored(FilterSet(s, matches))
  {
    RemovedMirrors(s, s.agents, Mismatched(matches), Filtered);
    var gone := Chosen(s.agents, Mismatched(matches), true);
    var t := s.(agents := Chosen(s.agents, Mismatched(matches), false), log := s.log + Deletions(gone, Filtered));
    if s.broker.Some? {
      AddedMirrors(t, Logged(t.(agents := Put(t.agents, s.broker.value)), AgentAdd(s.broker.value.name)),
          s.broker.value);
    }
  }

  lemma RefreshMirrors(s: Session, a: Agent, attributes: Attributes)
    requires Mirrored(s) && a.name in Names(s.agents)
    ensures Mirrored(Refreshed(s, a, attributes))
  {
    var b := Touched(a).(epoch := Epoch(attributes));
    ChangedMirrors(s, b);
    var t := Changed(s, b);
    ReplayedOne(t.log, AgentRestart(a.name));
    var u := if a.epoch != Epoch(attributes) then Logged(t, AgentRestart(a.name)) else t;
    ReplayedOne(u.log, SchemaUpdate(a.name));
    if SCHEMA_UPDATED in attributes && SCHEMA_UPDATED in b.attributes {
      var c := b.(attributes := b.attributes[SCHEMA_UPDATED := attributes[SCHEMA_UPDATED]]);
      ChangedMirrors(u, c);
      ChangedMirrors(Logged(u, SchemaUpdate(a.name)), c);
    }
  }

  lemma UpdateMirrors(s: Session, name: Name, brokerLocate: bool, attributes: Attributes)
    requires Mirrored(s)
    ensures Mirrored(Updated(s, name, brokerLocate, attributes))
  {
    var a := Made(s, name, attributes);
    FindInTable(s.agents, name);
    var found := Find(s.agents, name);
    if !brokerLocate && found.Some? {
      RefreshMirrors(s, found.value, attributes);
    } else {
      AddedMirrors(s, Logged(s.(agents := Put(s.agents, a)), AgentAdd(name)), a);
    }
  }

  lemma MessageMirrors(s: Session, name: Name, m: Content)
    requires Mirrored(s)
    ensures Mirrored(Dispatched(s, name, m))
  {
    FindInTable(s.agents, name);
    if Find(s.agents, name).Some? {
      ChangedMirrors(s, Touched(Find(s.agents, name).value));
    }
    if m.Update? {
      UpdateMirrors(Heard(s, name), name, m.brokerLocate, m.attributes);
    }
  }

  lemma OlderNames(agents: seq<Agent>, broker: Option<Agent>)
    ensures Names(Older(agents, broker)) == Names(agents)
  {
    var older := Older(agents, broker);
    OlderAt(agents, broker);
    forall n | n in Names(agents)
      ensures n in Names(older)
    {
      var i :| 0 <= i < |agents| && agents[i].name == n;
      assert older[i] in older && older[i].name == n;
    }
    forall n | n in Names(older)
      ensures n in Names(agents)
    {
      var i :| 0 <= i < |older| && older[i].name == n;
      assert agents[i] in agents && agents[i].name == n;
    }
  }

  lemma TickMirrors(s: Session, seconds: nat, limit: nat)
    requires Mirrored(s)
    ensures Mirrored(Ticked(s, seconds, limit))
  {
    OlderStaysSorted(s.agents, s.broker);
    OlderNames(s.agents, s.broker);
    RemovedMirrors(s, Older(s.agents, s.broker), TooOld(s.broker, limit), AgedOut);
  }

  // ----- Runs -----

  datatype Action = SetFilter(matches: Attributes -> bool) | Message(name: Name, m: Content) | Tick

  /** A session, the time, and when the last message came from each agent. */
  datatype World = World(session: Session, now: nat, heard: map<Name, nat>)

  function Stepped(w: World, limit: nat, a: Action, at: nat): World
  {
    match a
    case SetFilter(matches) => World(FilterSet(w.session, matches), at, w.heard)
    case Message(name, m) => World(Dispatched(w.session, name, m), at, w.heard[name := at])
    case Tick => World(Ticked(w.session, at, limit), at, w.heard)
  }

  function Ran(w: World, limit: nat, run: seq<(Action, nat)>): World
    decreases |run|
  {
    if run == [] then w else Ran(Stepped(w, limit, run[0].0, run[0].1), limit, run[1..])
  }

  function Start(): World
  {
    World(Session([], None, false, None, 0, 0, 0, []), 0, map[])
  }

  lemma {:induction false} RunMirrors(w: World, limit: nat, run: seq<(Action, nat)>)
    requires Mirrored(w.session)
    ensures Mirrored(Ran(w, limit, run).session)
    decreases |run|
  {
    if run != [] {
      match run[0].0 {
        case SetFilter(matches) => FilterMirrors(w.session, matches);
        case Message(name, m) => MessageMirrors(w.session, name, m);
        case Tick => TickMirrors(w.session, run[0].1, limit);
      }
      RunMirrors(Stepped(w, limit, run[0].0, run[0].1), limit, run[1..]);
    }
  }

  /** In every state of every run, through filters, locate replies, heartbeats and
      ageing, and whatever the clock does: replaying the add and delete events from
      the start gives exactly the agents in the table. */
  lemma EventsMirrorTheTable(limit: nat, run: seq<(Action, nat)>)
    ensures var s := Ran(Start(), limit, run).session; Replayed(s.log) == Names(s.agents)
  {
    assert Names([]) == {};
    RunMirrors(Start(), limit, run);
  }

  // ----- Ageing -----

  /** What the counter of an agent says about when it was last heard of. */
  predicate Dated(w: World, a: Agent)
  {
    && a.name in w.heard && w.heard[a.name] <= w.now
    && (!a.touched ==> w.heard[a.name] + 60 * a.untouched <= w.session.lastAgePass)
  }

  ghost predicate AllDated(w: World)
  {
    && Sorted(w.session.agents) && w.session.lastAgePass <= w.now
    && (forall a :: a in w.session.agents ==> Dated(w, a))
    && (w.session.broker.Some? ==> w.session.broker.value.touched && Dated(w, w.session.broker.value))
  }

  lemma FilterKeeps(s: Session, matches: Attributes -> bool)
    requires Sorted(s.agents)
    ensures var t := FilterSet(s, matches);
            && Sorted(t.agents) && t.broker == s.broker && t.lastAgePass == s.lastAgePass
            && forall a :: a in t.agents ==> a in s.agents || s.broker == Some(a)
  {
    var kept := Chosen(s.agents, Mismatched(matches), false);
    KeptAreThere(s.agents, Mismatched(matches));
    if s.broker.Some? {
      PutInTable(kept, s.broker.value);
    }
    var t := FilterSet(s, matches);
    assert t.agents == kept || (s.broker.Some? && t.agents == Put(kept, s.broker.value));
  }

  lemma KeptAreThere(agents: seq<Agent>, p: Agent -> bool)
    requires Sorted(agents)
    ensures Sorted(Chosen(agents, p, false)) && forall a :: a in Chosen(agents, p, false) ==> a in agents
  {
    ChosenStaysSorted(agents, p, false);
    forall a | a in Chosen(agents, p, false)
      ensures a in agents
    {
      ChosenAreThere(agents, p, false, a);
    }
  }

  /** What a message from `name` does to the table. */
  ghost predicate OnlyTouches(s: Session, t: Session, name: Name)
  {
    && Sorted(t.agents) && t.lastAgePass == s.lastAgePass
    && (forall a :: a in t.agents ==> if a.name == name then a.touched else a in s.agents)
    && (t.broker == s.broker || (t.broker.Some? && t.broker.value.name == name && t.broker.value.touched))
  }

  lemma PutOnlyTouches(s: Session, t: Session, u: Session, a: Agent)
    requires OnlyTouches(s, t, a.name) && a.touched
    requires u.agents == Put(t.agents, a) && u.lastAgePass == t.lastAgePass
    requires u.broker == t.broker || u.broker == Some(a)
    ensures OnlyTouches(s, u, a.name)
  {
    PutInTable(t.agents, a);
  }

  lemma RefreshOnlyTouches(s: Session, t: Session, a: Agent, attributes: Attributes)
    requires OnlyTouches(s, t, a.name)
    ensures OnlyTouches(s, Refreshed(t, a, attributes), a.name)
  {
    var b := Touched(a).(epoch := Epoch(attributes));
    var u := Changed(t, b);
    PutOnlyTouches(s, t, u, b);
    if SCHEMA_UPDATED in attributes && SCHEMA_UPDATED in b.attributes {
      var c := b.(attributes := b.attributes[SCHEMA_UPDATED := attributes[SCHEMA_UPDATED]]);
      PutOnlyTouches(s, u, Changed(u, c), c);
    }
  }

  lemma MessageOnlyTouches(s: Session, name: Name, m: Content)
    requires Sorted(s.agents)
    ensures OnlyTouches(s, Dispatched(s, name, m), name)
  {
    var t := Heard(s, name);
    var found := Find(s.agents, name);
    FindInTable(s.agents, name);
    if found.Some? {
      PutInTable(s.agents, Touched(found.value));
    } else {
      assert forall a :: a in s.agents ==> a.name in Names(s.agents);
    }
    assert OnlyTouches(s, t, name);
    if m.Update? {
      var a := Made(t, name, m.attributes);
      FindInTable(t.agents, name);
      if !m.brokerLocate && Find(t.agents, name).Some? {
        RefreshOnlyTouches(s, t, Find(t.agents, name).value, m.attributes);
      } else {
        PutOnlyTouches(s, t, t.(agents := Put(t.agents, a)), a);
      }
    }
  }

  lemma MessageDates(w: World, limit: nat, name: Name, m: Content, at: nat)
    requires AllDated(w) && w.now <= at
    ensures AllDated(Stepped(w, limit, Message(name, m), at))
  {
    MessageOnlyTouches(w.session, name, m);
    var v := Stepped(w, limit, Message(name, m), at);
    forall a | a in v.session.agents
      ensures Dated(v, a)
    {
      assert a.name == name || Dated(w, a);
    }
  }

  lemma FilterDates(w: World, limit: nat, matches: Attributes -> bool, at: nat)
    requires AllDated(w) && w.now <= at
    ensures AllDated(Stepped(w, limit, SetFilter(matches), at))
  {
    FilterKeeps(w.session, matches);
    var v := Stepped(w, limit, SetFilter(matches), at);
    forall a | a in v.session.agents
      ensures Dated(v, a)
    {
      assert Dated(w, a);
    }
  }

  /** The table as a pass at `at` leaves it before anything is taken out. */
  lemma OlderDated(w: World, at: nat, a: Agent)
    requires AllDated(w) && w.session.lastAgePass + 60 <= at && w.now <= at
    requires a in Older(w.session.agents, w.session.broker)
    ensures a.name in w.heard && w.heard[a.name] <= at
    ensures !a.touched ==> w.heard[a.name] + 60 * a.untouched <= at
    ensures !IsBroker(w.session.broker, a.name) ==> !a.touched
  {
    OlderAt(w.session.agents, w.session.broker);
    var i :| 0 <= i < |w.session.agents| && Older(w.session.agents, w.session.broker)[i] == a;
    assert Dated(w, w.session.agents[i]);
  }

  lemma TickDates(w: World, limit: nat, at: nat)
    requires AllDated(w) && w.now <= at < WORD64
    ensures AllDated(Stepped(w, limit, Tick, at))
  {
    var s := w.session;
    var v := Stepped(w, limit, Tick, at);
    var p := TooOld(s.broker, limit);
    OlderStaysSorted(s.agents, s.broker);
    ChosenStaysSorted(Older(s.agents, s.broker), p, false);
    forall a | a in v.session.agents
      ensures Dated(v, a)
    {
      if a in s.agents && v.session.agents == s.agents {
        assert Dated(w, a);
      } else {
        ChosenAreThere(Older(s.agents, s.broker), p, false, a);
        OlderDated(w, at, a);
      }
    }
  }

  /** Time does not go back. */
  ghost predicate InTime(now: nat, run: seq<(Action, nat)>)
    decreases |run|
  {
    run != [] ==> now <= run[0].1 < WORD64 && InTime(run[0].1, run[1..])
  }

  lemma {:induction false} RunDates(w: World, limit: nat, run: seq<(Action, nat)>)
    requires AllDated(w) && InTime(w.now, run)
    ensures AllDated(Ran(w, limit, run))
    decreases |run|
  {
    if run != [] {
      match run[0].0 {
        case SetFilter(matches) => FilterDates(w, limit, matches, run[0].1);
        case Message(name, m) => MessageDates(w, limit, name, m, run[0].1);
        case Tick => TickDates(w, limit, run[0].1);
      }
      RunDates(Stepped(w, limit, run[0].0, run[0].1), limit, run[1..]);
    }
  }

  /** The agents that a tick takes out of the table. */
  function AgedOutBy(s: Session, seconds: nat, limit: nat): seq<Agent>
  {
    var last := if s.lastAgePass == 0 then seconds else s.lastAgePass;
    if seconds == s.lastVisit || !PassDue(seconds, last) then []
    else Chosen(Older(s.agents, s.broker), TooOld(s.broker, limit), true)
  }

  /** After any run in which the clock does not go back: an agent that is taken out
      for its age was last heard of at least sixty seconds ago for each minute of the
      limit and one more, and the agent of the connected broker is never taken out. */
  lemma AgeingBound(limit: nat, run: seq<(Action, nat)>, at: nat)
    requires InTime(0, run) && Ran(Start(), limit, run).now <= at < WORD64
    ensures var w := Ran(Start(), limit, run);
            && Ticked(w.session, at, limit).log
               == w.session.log + Deletions(AgedOutBy(w.session, at, limit), AgedOut)
            && forall a :: a in AgedOutBy(w.session, at, limit) ==>
                 && !IsBroker(w.session.broker, a.name)
                 && a.name in w.heard && w.heard[a.name] + 60 * (limit + 1) <= at
  {
    RunDates(Start(), limit, run);
    var w := Ran(Start(), limit, run);
    var s := w.session;
    assert s.log + [] == s.log;
    forall a | a in AgedOutBy(s, at, limit)
      ensures !IsBroker(s.broker, a.name) && a.name in w.heard && w.heard[a.name] + 60 * (limit + 1) <= at
    {
      ChosenAreThere(Older(s.agents, s.broker), TooOld(s.broker, limit), true, a);
      OlderDated(w, at, a);
    }
  }

  // ----- A silent agent leaves, and at which pass -----

  /** Nothing comes from the agent. */
  ghost predicate Silent(run: seq<(Action, nat)>, name: Name)
  {
    forall i :: 0 <= i < |run| ==> !(run[i].0.Message? && run[i].0.name == name)
  }

  ghost predicate NoFilter(run: seq<(Action, nat)>)
  {
    forall i :: 0 <= i < |run| ==> !run[i].0.SetFilter?
  }

  /** The clock ticks, and a pass over the table is due. */
  predicate Due(s: Session, a: Action, at: nat)
  {
    a.Tick? && at != s.lastVisit && s.lastAgePass != 0 && PassDue(at, s.lastAgePass)
  }

  /** How many passes are made in a run. */
  function PassesIn(w: World, limit: nat, run: seq<(Action, nat)>): nat
    decreases |run|
  {
    if run == [] then 0
    else
      (if Due(w.session, run[0].0, run[0].1) then 1 else 0)
      + PassesIn(Stepped(w, limit, run[0].0, run[0].1), limit, run[1..])
  }

  /** The agent is not the broker's, and `k` passes were made since its last message. */
  ghost predicate Waits(s: Session, name: Name, k: nat)
  {
    && Sorted(s.agents) && !IsBroker(s.broker, name)
    && forall a :: a in s.agents && a.name == name ==> if k == 0 then a.touched else !a.touched && a.untouched == k - 1
  }

  /** A message leaves the other agents alone. */
  ghost predicate OthersStay(s: Session, t: Session, name: Name)
  {
    && Sorted(t.agents) && (forall a: Agent :: a.name != name ==> (a in t.agents <==> a in s.agents))
    && (t.broker == s.broker
        || (t.broker.Some?
            && (t.broker.value.name == name || (s.broker.Some? && t.broker.value.name == s.broker.value.name))))
  }

  lemma PutOthersStay(s: Session, t: Session, u: Session, a: Agent)
    requires OthersStay(s, t, a.name) && u.agents == Put(t.agents, a)
    requires u.broker == t.broker || u.broker == Some(a)
    ensures OthersStay(s, u, a.name)
  {
    PutInTable(t.agents, a);
  }

  lemma RefreshOthersStay(s: Session, t: Session, a: Agent, attributes: Attributes)
    requires OthersStay(s, t, a.name)
    ensures OthersStay(s, Refreshed(t, a, attributes), a.name)
  {
    var b := Touched(a).(epoch := Epoch(attributes));
    var u := Changed(t, b);
    PutOthersStay(s, t, u, b);
    if SCHEMA_UPDATED in attributes && SCHEMA_UPDATED in b.attributes {
      var c := b.(attributes := b.attributes[SCHEMA_UPDATED := attributes[SCHEMA_UPDATED]]);
      PutOthersStay(s, u, Changed(u, c), c);
    }
  }

  lemma MessageOthersStay(s: Session, name: Name, m: Content)
    requires Sorted(s.agents)
    ensures OthersStay(s, Dispatched(s, name, m), name)
  {
    var t, found := Heard(s, name), Find(s.agents, name);
    FindInTable(s.agents, name);
    if found.Some? {
      PutOthersStay(s, s, t, Touched(found.value));
    }
    if m.Update? {
      var a := Made(t, name, m.attributes);
      FindInTable(t.agents, name);
      if !m.brokerLocate && Find(t.agents, name).Some? {
        RefreshOthersStay(s, t, Find(t.agents, name).value, m.attributes);
      } else {
        PutOthersStay(s, t, t.(agents := Put(t.agents, a)), a);
      }
    }
  }

  lemma NamesStay(s: Session, t: Session, name: Name, other: Name)
    requires OthersStay(s, t, name) && other != name
    ensures other in Names(t.agents) <==> other in Names(s.agents)
  {
    if other in Names(t.agents) {
      var a :| a in t.agents && a.name == other;
      assert a in s.agents;
    }
    if other in Names(s.agents) {
      var a :| a in s.agents && a.name == other;
      assert a in t.agents;
    }
  }

  lemma MessageWaits(s: Session, from: Name, m: Content, name: Name, k: nat)
    requires Waits(s, name, k) && from != name
    ensures Waits(Dispatched(s, from, m), name, k)
    ensures name in Names(Dispatched(s, from, m).agents) <==> name in Names(s.agents)
  {
    MessageOthersStay(s, from, m);
    NamesStay(s, Dispatched(s, from, m), from, name);
  }

  lemma FilterWaits(s: Session, matches: Attributes -> bool, name: Name, k: nat)
    requires Waits(s, name, k)
    ensures Waits(FilterSet(s, matches), name, k)
    ensures name in Names(FilterSet(s, matches).agents) ==> name in Names(s.agents)
  {
    FilterKeeps(s, matches);
    var t := FilterSet(s, matches);
    if name in Names(t.agents) {
      var a :| a in t.agents && a.name == name;
      assert a in s.agents;
    }
  }

  /** What a pass makes of one agent. */
  lemma PassOver(s: Session, limit: nat, name: Name, k: nat, a: Agent)
    requires Waits(s, name, k) && k <= limit + 1 < WORD32 && a in s.agents && a.name == name
    ensures a.(touched := false, untouched := k) in Older(s.agents, s.broker)
    ensures forall b :: b in Older(s.agents, s.broker) && b.name == name ==> b == a.(touched := false, untouched := k)
  {
    var older := Older(s.agents, s.broker);
    OlderAt(s.agents, s.broker);
    OlderStaysSorted(s.agents, s.broker);
    var i :| 0 <= i < |s.agents| && s.agents[i] == a;
    var c := a.(touched := false, untouched := k);
    assert older[i] == Aged(a) == c;
    forall b | b in older && b.name == name
      ensures b == c
    {
      SameName(older, b, c);
    }
  }

  lemma OlderHas(s: Session, name: Name)
    ensures (exists b :: b in Older(s.agents, s.broker) && b.name == name) ==> name in Names(s.agents)
  {
    OlderNames(s.agents, s.broker);
    if b :| b in Older(s.agents, s.broker) && b.name == name {
      assert name in Names(Older(s.agents, s.broker));
    }
  }

  /** The pass itself: the agent is taken out when more passes than the limit were
      made before it. */
  lemma PassTakesOut(s: Session, limit: nat, name: Name, k: nat, t: Session)
    requires Waits(s, name, k) && limit + 1 < WORD32 && (name in Names(s.agents) ==> k <= limit + 1)
    requires t.agents == Chosen(Older(s.agents, s.broker), TooOld(s.broker, limit), false) && t.broker == s.broker
    ensures Waits(t, name, k + 1)
    ensures name in Names(t.agents) <==> name in Names(s.agents) && k <= limit
  {
    var older, p := Older(s.agents, s.broker), TooOld(s.broker, limit);
    OlderStaysSorted(s.agents, s.broker);
    ChosenStaysSorted(older, p, false);
    OlderHas(s, name);
    if name in Names(s.agents) {
      var a :| a in s.agents && a.name == name;
      PassOver(s, limit, name, k, a);
      ChosenAreThere(older, p, false, a.(touched := false, untouched := k));
    }
    forall b | b in t.agents
      ensures b in older
    {
      ChosenAreThere(older, p, false, b);
    }
  }

  lemma TickWaits(s: Session, limit: nat, at: nat, name: Name, k: nat)
    requires Waits(s, name, k) && limit + 1 < WORD32 && (name in Names(s.agents) ==> k <= limit + 1)
    ensures var t, n := Ticked(s, at, limit), if Due(s, Tick, at) then 1 else 0;
            && Waits(t, name, k + n)
            && (name in Names(t.agents) <==> name in Names(s.agents) && k + n <= limit + 1)
  {
    if Due(s, Tick, at) {
      PassTakesOut(s, limit, name, k, Ticked(s, at, limit));
    } else {
      assert Ticked(s, at, limit).agents == s.agents;
    }
  }

  lemma {:induction false} RunWaits(w: World, limit: nat, run: seq<(Action, nat)>, name: Name, k: nat)
    requires Waits(w.session, name, k) && limit + 1 < WORD32 && Silent(run, name)
    requires name in Names(w.session.agents) ==> k <= limit + 1
    ensures var s, n := Ran(w, limit, run).session, k + PassesIn(w, limit, run);
            && (name in Names(s.agents) ==> name in Names(w.session.agents) && n <= limit + 1)
            && (NoFilter(run) && name in Names(w.session.agents) && n <= limit + 1 ==> name in Names(s.agents))
    decreases |run|
  {
    if run != [] {
      var a, at := run[0].0, run[0].1;
      var v := Stepped(w, limit, a, at);
      match a {
        case SetFilter(matches) => FilterWaits(w.session, matches, name, k);
        case Message(from, m) => MessageWaits(w.session, from, m, name, k);
        case Tick => TickWaits(w.session, limit, at, name, k);
      }
      assert forall i :: 0 <= i < |run[1..]| ==> run[1..][i] == run[i + 1];
      RunWaits(v, limit, run[1..], name, if Due(w.session, a, at) then k + 1 else k);
    }
  }

  /** After the last message from an agent that is not the broker's: it leaves the
      table at the pass number limit + 2, if no filter has taken it out before. */
  lemma SilentAgentLeaves(limit: nat, before: seq<(Action, nat)>, name: Name, m: Content, at: nat,
                          run: seq<(Action, nat)>)
    requires limit + 1 < WORD32 && Silent(run, name)
    requires !IsBroker(Stepped(Ran(Start(), limit, before), limit, Message(name, m), at).session.broker, name)
    ensures var v := Stepped(Ran(Start(), limit, before), limit, Message(name, m), at);
            var s := Ran(v, limit, run).session;
            && (PassesIn(v, limit, run) >= limit + 2 ==> name !in Names(s.agents))
            && (NoFilter(run) ==>
                  (name in Names(s.agents) <==> name in Names(v.session.agents) && PassesIn(v, limit, run) < limit + 2))
  {
    var w := Ran(Start(), limit, before);
    assert Names([]) == {};
    RunMirrors(Start(), limit, before);
    MessageOnlyTouches(w.session, name, m);
    var v := Stepped(w, limit, Message(name, m), at);
    assert Waits(v.session, name, 0);
    RunWaits(v, limit, run, name, 0);
  }

  /** The last pass is less than a minute before the last tick. */
  predicate Timely(w: World)
  {
    && w.session.lastAgePass <= w.session.lastVisit < w.session.lastAgePass + 60 && w.session.lastVisit <= w.now
    && (w.session.lastVisit > 0 ==> w.session.lastAgePass > 0)
  }

  /** Ticks are never more than `gap` seconds apart. */
  ghost predicate Ticking(last: nat, run: seq<(Action, nat)>, gap: nat)
    decreases |run|
  {
    run != [] ==>
      if run[0].0.Tick? then run[0].1 <= last + gap && Ticking(run[0].1, run[1..], gap)
      else Ticking(last, run[1..], gap)
  }

  lemma MessageKeepsTime(s: Session, name: Name, m: Content)
    ensures var t := Dispatched(s, name, m); t.lastVisit == s.lastVisit && t.lastAgePass == s.lastAgePass
  {
  }

  lemma StepIsTimely(w: World, limit: nat, a: Action, at: nat)
    requires Timely(w) && w.now <= at < WORD64
    ensures var v := Stepped(w, limit, a, at);
            && Timely(v) && v.session.lastVisit == (if a.Tick? then at else w.session.lastVisit)
            && (w.session.lastVisit > 0 ==>
                  v.session.lastAgePass == if Due(w.session, a, at) then at else w.session.lastAgePass)
  {
    if a.Message? {
      MessageKeepsTime(w.session, a.name, a.m);
    }
  }

  lemma {:induction false} RunIsTimely(w: World, limit: nat, run: seq<(Action, nat)>)
    requires Timely(w) && InTime(w.now, run)
    ensures Timely(Ran(w, limit, run)) && w.now <= Ran(w, limit, run).now
    ensures w.session.lastVisit <= Ran(w, limit, run).session.lastVisit
    decreases |run|
  {
    if run != [] {
      StepIsTimely(w, limit, run[0].0, run[0].1);
      RunIsTimely(Stepped(w, limit, run[0].0, run[0].1), limit, run[1..]);
    }
  }

  lemma OneMoreTime(n: nat, a: nat)
    ensures (n + 1) * a == n * a + a
  {
  }

  /** Each pass comes within a minute and one gap of the pass before it. */
  lemma {:induction false} PassesComeInTime(w: World, limit: nat, run: seq<(Action, nat)>, gap: nat)
    requires Timely(w) && w.session.lastVisit > 0 && InTime(w.now, run) && Ticking(w.session.lastVisit, run, gap)
    ensures Ran(w, limit, run).session.lastAgePass
            <= w.session.lastAgePass + PassesIn(w, limit, run) * (60 + gap)
    decreases |run|
  {
    if run != [] {
      var a, at := run[0].0, run[0].1;
      var v := Stepped(w, limit, a, at);
      StepIsTimely(w, limit, a, at);
      PassesComeInTime(v, limit, run[1..], gap);
      if Due(w.session, a, at) {
        OneMoreTime(PassesIn(v, limit, run[1..]), 60 + gap);
      }
    }
  }

  lemma EnoughPasses(passes: nat, needed: nat, unit: nat)
    requires passes < needed
    ensures passes * unit <= (needed - 1) * unit
  {
  }

  /** By the clock: when the timer ticks at least every `gap` seconds, an agent that is
      not the broker's is gone after 60 + (60 + gap) * (limit + 1) seconds of silence. */
  lemma SilentAgentIsGoneInTime(limit: nat, before: seq<(Action, nat)>, name: Name, m: Content, at: nat,
                                run: seq<(Action, nat)>, gap: nat)
    requires limit + 1 < WORD32 && Silent(run, name)
    requires InTime(0, before) && Ran(Start(), limit, before).now <= at < WORD64 && InTime(at, run)
    requires !IsBroker(Stepped(Ran(Start(), limit, before), limit, Message(name, m), at).session.broker, name)
    requires Ran(Start(), limit, before).session.lastVisit > 0
    requires Ticking(Ran(Start(), limit, before).session.lastVisit, run, gap)
    ensures var s := Ran(Stepped(Ran(Start(), limit, before), limit, Message(name, m), at), limit, run).session;
            s.lastVisit >= at + (limit + 1) * (60 + gap) + 60 ==> name !in Names(s.agents)
  {
    RunIsTimely(Start(), limit, before);
    var w := Ran(Start(), limit, before);
    StepIsTimely(w, limit, Message(name, m), at);
    var v := Stepped(w, limit, Message(name, m), at);
    RunIsTimely(v, limit, run);
    PassesComeInTime(v, limit, run, gap);
    var passes := PassesIn(v, limit, run);
    if passes < limit + 2 {
      EnoughPasses(passes, limit + 2, 60 + gap);
    }
    SilentAgentLeaves(limit, before, name, m, at, run);
  }

  // ----- What a filter and an update do, told by the table -----

  /** After a filter is set the table holds only agents that satisfy it, and no agent
      that does has left, but for an agent whose place the broker's takes. */
  lemma FilterExactly(s: Session, matches: Attributes -> bool)
    requires Sorted(s.agents)
    ensures var t := FilterSet(s, matches);
            && t.filter == Some(matches)
            && (forall a :: a in t.agents ==> matches(a.attributes))
            && (forall a :: a in s.agents && matches(a.attributes) ==>
                  a in t.agents || (s.broker.Some? && a.name == s.broker.value.name && s.broker.value in t.agents))
            && (s.broker.Some? && matches(s.broker.value.attributes) && !s.brokerInList ==>
                  s.broker.value in t.agents)
  {
    var p := Mismatched(matches);
    var kept := Chosen(s.agents, p, false);
    forall a
      ensures a in kept <==> a in s.agents && matches(a.attributes)
    {
      ChosenAreThere(s.agents, p, false, a);
    }
    ChosenStaysSorted(s.agents, p, false);
    if s.broker.Some? {
      PutInTable(kept, s.broker.value);
    }
  }

  lemma {:induction false} DeletionsTell(agents: seq<Agent>, reason: Reason, e: Event)
    ensures e in Deletions(agents, reason) <==> exists a :: a in agents && e == AgentDel(a.name, reason)
  {
    if agents != [] {
      DeletionsTell(agents[1..], reason, e);
      assert forall a :: a in agents <==> a == agents[0] || a in agents[1..];
    }
  }

  lemma {:induction false} HoldsBrokerTells(broker: Option<Agent>, agents: seq<Agent>)
    requires broker.Some?
    ensures HoldsBroker(broker, agents) <==> exists a :: a in agents && a.name == broker.value.name
  {
    if agents != [] {
      HoldsBrokerTells(broker, agents[1..]);
      assert forall a :: a in agents <==> a == agents[0] || a in agents[1..];
    }
  }

  /** Setting a filter tells a deletion, with the filter as its reason, of exactly the
      agents that do not satisfy it, and the return of the broker's agent exactly when
      that satisfies it and is not in the table or just left it; nothing else. */
  lemma FilterEvents(s: Session, matches: Attributes -> bool, e: Event)
    ensures var t := FilterSet(s, matches);
            && s.log <= t.log
            && (e in t.log[|s.log|..] <==>
                || (exists a :: a in s.agents && !matches(a.attributes) && e == AgentDel(a.name, Filtered))
                || (s.broker.Some? && e == AgentAdd(s.broker.value.name) && matches(s.broker.value.attributes)
                    && (s.brokerInList ==>
                          exists a :: a in s.agents && !matches(a.attributes) && a.name == s.broker.value.name)))
  {
    var p := Mismatched(matches);
    var gone := Chosen(s.agents, p, true);
    forall a
      ensures a in gone <==> a in s.agents && !matches(a.attributes)
    {
      ChosenAreThere(s.agents, p, true, a);
    }
    DeletionsTell(gone, Filtered, e);
    if s.broker.Some? {
      HoldsBrokerTells(s.broker, gone);
    }
    var deletions := Deletions(gone, Filtered);
    assert (s.log + deletions)[|s.log|..] == deletions;
    var t := FilterSet(s, matches);
    assert t.log == s.log + deletions || t.log == s.log + deletions + [AgentAdd(s.broker.value.name)];
    assert t.log[|s.log|..] == deletions || t.log[|s.log|..] == deletions + [AgentAdd(s.broker.value.name)];
  }

  /** An update that the filter does not admit changes nothing. A new agent is added
      with what it sent. A known one takes over the epoch, and a newer time of its
      schema; a changed epoch is told as a restart, and only without one is a newer
      schema told. All other agents stay as they are. */
  lemma UpdateTells(s: Session, name: Name, attributes: Attributes)
    requires Sorted(s.agents)
    ensures var t := Updated(s, name, false, attributes);
            && (s.filter.Some? && !s.filter.value(attributes) ==> t == s)
            && (forall a: Agent :: a.name != name ==> (a in t.agents <==> a in s.agents))
    ensures (s.filter.Some? ==> s.filter.value(attributes)) && name !in Names(s.agents) ==>
      var t, epoch := Updated(s, name, false, attributes), if EPOCH in attributes then attributes[EPOCH] else 0;
      && t.log == s.log + [AgentAdd(name)]
      && Agent(s.nextId, name, epoch, attributes - {EPOCH}, true, 0) in t.agents
    ensures (s.filter.Some? ==> s.filter.value(attributes)) ==>
      forall a :: a in s.agents && a.name == name ==>
        var t, epoch := Updated(s, name, false, attributes), if EPOCH in attributes then attributes[EPOCH] else 0;
        var newer := SCHEMA_UPDATED in attributes && SCHEMA_UPDATED in a.attributes
                     && attributes[SCHEMA_UPDATED] > a.attributes[SCHEMA_UPDATED];
        && t.log == s.log + (if a.epoch != epoch then [AgentRestart(name)]
                             else if newer then [SchemaUpdate(name)] else [])
        && a.(epoch := epoch, touched := true,
              attributes := if newer then a.attributes[SCHEMA_UPDATED := attributes[SCHEMA_UPDATED]] else a.attributes)
           in t.agents
  {
    assert s.log + [] == s.log;
    FindInTable(s.agents, name);
    var found := Find(s.agents, name);
    PutInTable(s.agents, Made(s, name, attributes));
    if found.Some? {
      RefreshTells(s, found.value, attributes);
      forall a | a in s.agents && a.name == name
        ensures a == found.value
      {
        SameName(s.agents, a, found.value);
      }
    } else {
      assert forall a :: a in s.agents ==> a.name in Names(s.agents);
    }
  }

  lemma RefreshTells(s: Session, a: Agent, attributes: Attributes)
    requires Sorted(s.agents) && a in s.agents
    ensures var t, epoch := Refreshed(s, a, attributes), if EPOCH in attributes then attributes[EPOCH] else 0;
            var newer := SCHEMA_UPDATED in attributes && SCHEMA_UPDATED in a.attributes
                         && attributes[SCHEMA_UPDATED] > a.attributes[SCHEMA_UPDATED];
            && t.log == s.log + (if a.epoch != epoch then [AgentRestart(a.name)]
                                 else if newer then [SchemaUpdate(a.name)] else [])
            && a.(epoch := epoch, touched := true,
                  attributes := if newer then a.attributes[SCHEMA_UPDATED := attributes[SCHEMA_UPDATED]]
                                else a.attributes)
               in t.agents
            && forall b: Agent :: b.name != a.name ==> (b in t.agents <==> b in s.agents)
  {
    var b := Touched(a).(epoch := Epoch(attributes));
    var t := Changed(s, b);
    PutInTable(s.agents, b);
    assert s.log + [] == s.log;
    if SCHEMA_UPDATED in attributes && SCHEMA_UPDATED in b.attributes {
      PutInTable(t.agents, b.(attributes := b.attributes[SCHEMA_UPDATED := attributes[SCHEMA_UPDATED]]));
    }
  }

  /** A locate reply always names the broker's agent; the table and the events show it
      when the filter admits it. */
  lemma LocateTells(s: Session, name: Name, attributes: Attributes)
    requires Sorted(s.agents)
    ensures var t, admitted := Updated(s, name, true, attributes), s.filter.Some? ==> s.filter.value(attributes);
            && t.broker.Some? && t.broker.value.name == name && t.broker.value.attributes == attributes - {EPOCH}
            && t.log == s.log + (if admitted then [AgentAdd(name)] else [])
            && (if admitted then t.brokerInList && t.broker.value in t.agents
                else t.brokerInList == s.brokerInList && t.agents == s.agents)
            && (forall a: Agent :: a.name != name ==> (a in t.agents <==> a in s.agents))
  {
    assert s.log + [] == s.log;
    PutInTable(s.agents, Made(s, name, attributes));
  }

  /** The pass is due after a minute, or when the clock has gone back by less than
      all but a minute of its range. */
  lemma PassDueExactly(seconds: nat, last: nat)
    requires seconds < WORD64 && last < WORD64
    ensures PassDue(seconds, last) <==> seconds >= last + 60 || 0 < last - seconds <= WORD64 - 60
  {
  }
}
