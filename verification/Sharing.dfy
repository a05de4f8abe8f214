/** One AgentImpl object for one agent: what the console's table and its connected
    broker share (qpid/cpp/src/qmf/ConsoleSession.cpp). */
module Sharing {
  import opened Wrappers
  import opened Console

  /** An id stands for an object. No object is in the table twice, the broker's agent
      in the table is the one that is held apart, and new objects are new. */
  ghost predicate Shared(s: Session)
  {
    && Sorted(s.agents)
    && (forall a :: a in s.agents ==> a.id < s.nextId)
    && (forall a, b :: a in s.agents && b in s.agents && a.id == b.id ==> a == b)
    && (s.broker.Some? ==> s.broker.value.id < s.nextId)
    && (s.broker.Some? ==> forall a :: a in s.agents && a.id == s.broker.value.id ==> a == s.broker.value)
  }

  /** A new object goes into the table. */
  lemma NewIsShared(s: Session, t: Session, a: Agent)
    requires Shared(s) && a.id == s.nextId && t.nextId == s.nextId + 1 && t.agents == Put(s.agents, a)
    requires t.broker == s.broker || t.broker == Some(a)
    ensures Shared(t)
  {
    PutInTable(s.agents, a);
  }

  /** An object of the table changes, but for its id and its name. */
  lemma ChangeIsShared(s: Session, was: Agent, a: Agent)
    requires Shared(s) && was in s.agents && was.id == a.id && was.name == a.name
    ensures Shared(Changed(s, a)) && a in Changed(s, a).agents
    ensures forall b :: b in Changed(s, a).agents ==> b == a || b.id != a.id
  {
    PutInTable(s.agents, a);
    forall b | b in s.agents && b.name != a.name
      ensures b.id != a.id
    {
      assert b != was;
    }
  }

  lemma FilterIsShared(s: Session, matches: Attributes -> bool)
    requires Shared(s)
    ensures Shared(FilterSet(s, matches))
  {
    var kept := Chosen(s.agents, Mismatched(matches), false);
    ChosenStaysSorted(s.agents, Mismatched(matches), false);
    forall a
      ensures a in kept ==> a in s.agents
    {
      ChosenAreThere(s.agents, Mismatched(matches), false, a);
    }
    if s.broker.Some? {
      PutInTable(kept, s.broker.value);
    }
  }

  lemma RefreshIsShared(s: Session, a: Agent, attributes: Attributes)
    requires Shared(s) && a in s.agents
    ensures Shared(Refreshed(s, a, attributes))
  {
    var b := Touched(a).(epoch := Epoch(attributes));
    ChangeIsShared(s, a, b);
    if SCHEMA_UPDATED in attributes && SCHEMA_UPDATED in b.attributes {
      var c := b.(attributes := b.attributes[SCHEMA_UPDATED := attributes[SCHEMA_UPDATED]]);
      var t := Changed(s, b);
      ChangeIsShared(t, b, c);
      var u := Refreshed(s, a, attributes);
      assert u.agents == Changed(t, c).agents || u.agents == t.agents;
    }
  }

  lemma UpdateIsShared(s: Session, name: Name, brokerLocate: bool, attributes: Attributes)
    requires Shared(s)
    ensures Shared(Updated(s, name, brokerLocate, attributes))
  {
    var a, t := Made(s, name, attributes), Updated(s, name, brokerLocate, attributes);
    FindInTable(s.agents, name);
    var found := Find(s.agents, name);
    if brokerLocate {
      if Passes(s, attributes) {
        NewIsShared(s, t, a);
      }
    } else if Passes(s, attributes) {
      if found.Some? {
        RefreshIsShared(s, found.value, attributes);
      } else {
        NewIsShared(s, t, a);
      }
    }
  }

  lemma MessageIsShared(s: Session, name: Name, m: Content)
    requires Shared(s)
    ensures Shared(Dispatched(s, name, m))
  {
    FindInTable(s.agents, name);
    var found := Find(s.agents, name);
    if found.Some? {
      ChangeIsShared(s, found.value, Touched(found.value));
    }
    if m.Update? {
      UpdateIsShared(Heard(s, name), name, m.brokerLocate, m.attributes);
    }
  }

  /** What is left after a pass was there before it, older or not. */
  lemma Survivor(s: Session, limit: nat, a: Agent)
    requires a in Chosen(Older(s.agents, s.broker), TooOld(s.broker, limit), false)
    ensures exists b :: b in s.agents && a == if IsBroker(s.broker, b.name) then b else Aged(b)
  {
    var older := Older(s.agents, s.broker);
    ChosenAreThere(older, TooOld(s.broker, limit), false, a);
    OlderAt(s.agents, s.broker);
    var i :| 0 <= i < |older| && older[i] == a;
    assert s.agents[i] in s.agents;
  }

  lemma TickIsShared(s: Session, seconds: nat, limit: nat)
    requires Shared(s)
    ensures Shared(Ticked(s, seconds, limit))
  {
    var older := Older(s.agents, s.broker);
    var left := Chosen(older, TooOld(s.broker, limit), false);
    OlderStaysSorted(s.agents, s.broker);
    ChosenStaysSorted(older, TooOld(s.broker, limit), false);
    forall a | a in left
      ensures exists b :: b in s.agents && a == if IsBroker(s.broker, b.name) then b else Aged(b)
    {
      Survivor(s, limit, a);
    }
  }

  lemma {:induction false} RunIsShared(w: World, limit: nat, run: seq<(Action, nat)>)
    requires Shared(w.session)
    ensures Shared(Ran(w, limit, run).session)
    decreases |run|
  {
    if run != [] {
      match run[0].0 {
        case SetFilter(matches) => FilterIsShared(w.session, matches);
        case Message(name, m) => MessageIsShared(w.session, name, m);
        case Tick => TickIsShared(w.session, run[0].1, limit);
      }
      RunIsShared(Stepped(w, limit, run[0].0, run[0].1), limit, run[1..]);
    }
  }

  /** In every state of every run no two agents of the table are one object, and when
      one of them is the connected broker's object, the two always hold the same: a
      change to one is a change to the other. */
  lemma BrokerIsShared(limit: nat, run: seq<(Action, nat)>)
    ensures var s := Ran(Start(), limit, run).session;
            && (forall a, b :: a in s.agents && b in s.agents && a.id == b.id ==> a == b)
            && (s.broker.Some? ==> forall a :: a in s.agents && a.id == s.broker.value.id ==> a == s.broker.value)
  {
    RunIsShared(Start(), limit, run);
  }
}
