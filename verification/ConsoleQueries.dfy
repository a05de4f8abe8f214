/** The console's side of a query: the context that collects partial responses
    (qpid/cpp/src/qmf/Agent.cpp), and queries from end to end. */
module ConsoleQueries {
  import opened Wrappers
  import opened Sequences
  import opened AgentData

  /** A ConsoleEvent, of type CONSOLE_EXCEPTION or CONSOLE_QUERY_RESPONSE. */
  datatype Event = Event(exception: bool, data: seq<Data>, schemaIds: seq<SchemaId>, final: bool)

  /** The list of a response, by its content type. */
  datatype Content =
    | DataContent(data: seq<Data>)
    | SchemaIdContent(ids: seq<SchemaId>)
    | SchemaContent(schemata: seq<Schema>)
    | OtherContent

  function Joined(e: Event, c: Content): Event
  {
    match c
    case DataContent(data) => e.(data := e.data + data)
    case SchemaIdContent(ids) => e.(schemaIds := e.schemaIds + ids)
    case _ => e
  }

  /** The schema ids that a response mentions, in order. */
  function Mentioned(c: Content): seq<SchemaId>
  {
    match c
    case DataContent(data) => IdsOf(data)
    case SchemaIdContent(ids) => ids
    case _ => []
  }

  function IdsOf(data: seq<Data>): seq<SchemaId>
  {
    if data == [] then []
    else (if data[0].schema.Some? then [data[0].schema.value] else []) + IdsOf(data[1..])
  }

  /** The cache of schemata: an id may be known before its schema is. */
  type Known = map<SchemaId, Option<Schema>>

  function Learnt(known: Known, ids: seq<SchemaId>): Known
    decreases |ids|
  {
    if ids == [] then known else Learnt(if ids[0] in known then known else known[ids[0] := None], ids[1..])
  }

  function Declared(known: Known, schemata: seq<Schema>): Known
    decreases |schemata|
  {
    if schemata == [] then known
    else
      var s := schemata[0];
      Declared(if s.id in known && known[s.id].Some? then known else known[s.id := Some(s)], schemata[1..])
  }

  function Cached(known: Known, c: Content): Known
  {
    if c.SchemaContent? then Declared(known, c.schemata) else Learnt(known, Mentioned(c))
  }

  /** What the context of a synchronous request holds after one more response; one
      of another content type is ignored. */
  function Answered(r: Option<Event>, partial: bool, c: Content): Option<Event>
  {
    if c.OtherContent? then r
    else
      var e := Joined(if r.None? then Event(false, [], [], false) else r.value, c);
      Some(e.(final := e.final || !partial))
  }

  /** The same for the agent's messages in answer to a query for data. */
  function Received(r: Option<Event>, m: Message): Option<Event>
  {
    match m
    case QueryResponse(partial, body) => Answered(r, partial, DataContent(body))
    case Exception(content) => Some(Event(true, [content], [], false))
  }

  function ReceivedAll(r: Option<Event>, ms: seq<Message>): Option<Event>
    decreases |ms|
  {
    if ms == [] then r else ReceivedAll(Received(r, ms[0]), ms[1..])
  }

  /** A query returns its context's event when that is final or an exception. */
  predicate Finished(r: Option<Event>)
  {
    r.Some? && (r.value.exception || r.value.final)
  }

  class SyncContext {
    var response: Option<Event>

    constructor ()
      ensures response == None
    {
      response := None;
    }
  }

  class AgentImpl {
    var contextMap: map<nat, SyncContext>
    var events: seq<(nat, Event)>
    var schemaCache: Known
    var schemaIds: set<SchemaId>

    constructor (schemaCache: Known)
      ensures contextMap == map[] && events == [] && this.schemaCache == schemaCache && schemaIds == {}
    {
      contextMap, events, this.schemaCache, schemaIds := map[], [], schemaCache, {};
    }

    /** The context that belongs to a correlator, if any. */
    function Context(correlator: nat): set<SyncContext>
      reads this
    {
      if correlator in contextMap then {contextMap[correlator]} else {}
    }

    method LearnSchemaId(id: SchemaId)
      modifies this`schemaCache, this`schemaIds
      ensures schemaCache == (if id in old(schemaCache) then old(schemaCache) else old(schemaCache)[id := None])
      ensures schemaIds == old(schemaIds) + {id}
    {
      if id !in schemaCache {
        schemaCache := schemaCache[id := None];
      }
      schemaIds := schemaIds + {id};
    }

    method DeclareSchema(s: Schema)
      modifies this`schemaCache
      ensures schemaCache == if s.id in old(schemaCache) && old(schemaCache)[s.id].Some? then old(schemaCache)
                             else old(schemaCache)[s.id := Some(s)]
    {
      if s.id !in schemaCache || schemaCache[s.id].None? {
        schemaCache := schemaCache[s.id := Some(s)];
      }
    }

    /** The loop over the list, for its content type. */
    method Extend(event: Event, c: Content) returns (e: Event)
      modifies this`schemaCache, this`schemaIds
      ensures e == Joined(event, c) && schemaCache == Cached(old(schemaCache), c)
      ensures schemaIds == old(schemaIds) + (set id | id in Mentioned(c))
    {
      e := event;
      match c {
        case DataContent(list) => e := ExtendData(event, list);
        case SchemaIdContent(list) => e := ExtendIds(event, list);
        case SchemaContent(list) => DeclareAll(list);
        case OtherContent =>
      }
    }

    method ExtendData(event: Event, list: seq<Data>) returns (e: Event)
      modifies this`schemaCache, this`schemaIds
      ensures e == event.(data := event.data + list) && schemaCache == Learnt(old(schemaCache), IdsOf(list))
      ensures schemaIds == old(schemaIds) + (set id | id in IdsOf(list))
    {
      e := event;
      for i := 0 to |list|
        invariant e == event.(data := event.data + list[..i])
        invariant Learnt(schemaCache, IdsOf(list[i..])) == Learnt(old(schemaCache), IdsOf(list))
        invariant schemaIds + (set id | id in IdsOf(list[i..])) == old(schemaIds) + (set id | id in IdsOf(list))
      {
        assert list[i..][0] == list[i] && list[i..][1..] == list[i + 1..];
        assert list[..i + 1] == list[..i] + [list[i]];
        Associate(event.data, list[..i], [list[i]]);
        ghost var rest := IdsOf(list[i + 1..]);
        e := e.(data := e.data + [list[i]]);
        if list[i].schema.Some? {
          assert ([list[i].schema.value] + rest)[1..] == rest;
          LearnSchemaId(list[i].schema.value);
        } else {
          assert [] + rest == rest;
        }
      }
      assert list[..|list|] == list;
    }

    method ExtendIds(event: Event, list: seq<SchemaId>) returns (e: Event)
      modifies this`schemaCache, this`schemaIds
      ensures e == event.(schemaIds := event.schemaIds + list) && schemaCache == Learnt(old(schemaCache), list)
      ensures schemaIds == old(schemaIds) + (set id | id in list)
    {
      e := event;
      for i := 0 to |list|
        invariant e == event.(schemaIds := event.schemaIds + list[..i])
        invariant Learnt(schemaCache, list[i..]) == Learnt(old(schemaCache), list)
        invariant schemaIds == old(schemaIds) + (set id | id in list[..i])
      {
        assert list[i..][0] == list[i] && list[i..][1..] == list[i + 1..];
        assert list[..i + 1] == list[..i] + [list[i]];
        Associate(event.schemaIds, list[..i], [list[i]]);
        e := e.(schemaIds := e.schemaIds + [list[i]]);
        LearnSchemaId(list[i]);
      }
      assert list[..|list|] == list;
    }

    method DeclareAll(list: seq<Schema>)
      modifies this`schemaCache
      ensures schemaCache == Declared(old(schemaCache), list)
    {
      for i := 0 to |list|
        invariant Declared(schemaCache, list[i..]) == Declared(old(schemaCache), list)
      {
        assert list[i..][0] == list[i] && list[i..][1..] == list[i + 1..];
        DeclareSchema(list[i]);
      }
    }

    /** A response joins its request's context, or becomes an event of its own when
        nobody waits for it, unless it only brings schemata. */
    method HandleQueryResponse(correlator: nat, partial: bool, content: Content)
      modifies this`events, this`schemaCache, this`schemaIds, Context(correlator)
      ensures schemaCache == Cached(old(schemaCache), content)
      ensures schemaIds == old(schemaIds) + (set id | id in Mentioned(content))
      ensures correlator in contextMap ==>
        && contextMap[correlator].response == Answered(old(contextMap[correlator].response), partial, content)
        && events == old(events)
      ensures correlator !in contextMap ==>
        events == old(events) + (if content.SchemaContent? || content.OtherContent? then []
                                 else [(correlator, Answered(None, partial, content).value)])
    {
      if content.OtherContent? {
        return;
      }
      var event := Event(false, [], [], false);
      if correlator in contextMap && contextMap[correlator].response.Some? {
        event := contextMap[correlator].response.value;
      }
      event := Extend(event, content);
      if !partial {
        event := event.(final := true);
      }
      if correlator in contextMap {
        contextMap[correlator].response := Some(event);
      } else if !content.SchemaContent? {
        events := events + [(correlator, event)];
      }
    }

    method HandleException(correlator: nat, content: Data)
      modifies this`events, Context(correlator)
      ensures correlator in contextMap ==>
        && contextMap[correlator].response == Received(old(contextMap[correlator].response), Exception(content))
        && events == old(events)
      ensures correlator !in contextMap ==> events == old(events) + [(correlator, Event(true, [content], [], false))]
    {
      if correlator in contextMap {
        contextMap[correlator].response := Some(Event(true, [content], [], false));
      } else {
        events := events + [(correlator, Event(true, [content], [], false))];
      }
    }
  }

  // ----- From end to end -----

  /** Whatever was collected before: the batches add all objects in order, and the
      response is final after the last of them. */
  lemma {:induction false} BatchesAccumulate(got: seq<Data>, objects: seq<Data>)
    ensures ReceivedAll(Some(Event(false, got, [], false)), Batches(objects))
            == Some(Event(false, got + objects, [], true))
    decreases |objects|
  {
    var ms := Batches(objects);
    if |objects| < 8 {
      assert ms[1..] == [];
    } else {
      assert ms[1..] == Batches(objects[8..]);
      Associate(got, objects[..8], objects[8..]);
      assert objects[..8] + objects[8..] == objects;
      BatchesAccumulate(got + objects[..8], objects[8..]);
    }
  }

  /** Before the last message the request is not finished. */
  lemma {:induction false} NotFinishedEarly(got: seq<Data>, objects: seq<Data>, n: nat)
    requires n < |Batches(objects)|
    ensures !Finished(ReceivedAll(Some(Event(false, got, [], false)), Batches(objects)[..n]))
    decreases |objects|
  {
    if n > 0 {
      var ms := Batches(objects);
      assert ms[..n][0] == ms[0] && ms[..n][1..] == Batches(objects[8..])[..n - 1];
      NotFinishedEarly(got + objects[..8], objects[8..], n - 1);
    }
  }

  lemma FirstBatch(objects: seq<Data>, n: nat)
    requires n <= |Batches(objects)|
    ensures n > 0 ==>
      ReceivedAll(None, Batches(objects)[..n]) == ReceivedAll(Some(Event(false, [], [], false)), Batches(objects)[..n])
  {
    if n > 0 {
      var first := Batches(objects)[..n][0];
      assert first == Batches(objects)[0];
      assert [] + first.body == first.body;
    }
  }

  /** A valid query from end to end: what the console ends up with is what the agent
      found, in order, and it is complete exactly with the last message. */
  lemma QueryReturnsWhatIsFound(x: Indexes, q: Query, n: nat)
    requires Found(x, q).Some? && n <= |Answer(x, q)|
    ensures ReceivedAll(None, Answer(x, q)) == Some(Event(false, Found(x, q).value, [], true))
    ensures Finished(ReceivedAll(None, Answer(x, q)[..n])) <==> n == |Answer(x, q)|
  {
    var objects := Found(x, q).value;
    var ms := Answer(x, q);
    assert ms[..|ms|] == ms && [] + objects == objects;
    BatchesOfEight(objects);
    FirstBatch(objects, |ms|);
    BatchesAccumulate([], objects);
    if n < |ms| {
      FirstBatch(objects, n);
      NotFinishedEarly([], objects, n);
    }
  }

  lemma InvalidQueryFails(x: Indexes, q: Query)
    requires Found(x, q).None?
    ensures ReceivedAll(None, Answer(x, q))
            == Some(Event(true, [Data(None, map["error_text" := "Query is Invalid"])], [], false))
  {
    assert Answer(x, q)[1..] == [];
  }

  /** A query by schema, after any run of registering, adding and deleting in the
      agent, returns to the console the live objects of that schema that match, in
      the order of their addresses, except the orphans; after an orderly run, all of
      them. */
  lemma SchemaQueryReturnsTheLive(ops: seq<Operation>, q: Query)
    requires q.addr.None? && q.schema.Some?
    ensures var x := After(ops);
            ReceivedAll(None, Answer(x, q))
            == Some(Event(false, Matching(OfSchema(x.global, q.schema.value.name, Orphans(ops)), q.matches), [], true))
    ensures Orderly(ops) ==>
      var x := After(ops);
      ReceivedAll(None, Answer(x, q))
      == Some(Event(false, Matching(OfSchema(x.global, q.schema.value.name, {}), q.matches), [], true))
  {
    IndexIsPartition(ops);
    QueryReturnsWhatIsFound(After(ops), q, 0);
    if Orderly(ops) {
      OrderlyRunsAgree(ops);
    }
  }

  /** The same by the history alone: the console receives the live objects of the
      schema that match, by increasing address, but for those lost to a registration. */
  lemma SchemaQueryReceives(ops: seq<Operation>, q: Query) returns (addrs: seq<Addr>)
    requires q.addr.None? && q.schema.Some?
    ensures forall i, j :: 0 <= i < j < |addrs| ==> addrs[i] < addrs[j]
    ensures forall a :: a in addrs <==>
      && a in Live(ops) && IsOf(Live(ops)[a], q.schema.value.name)
      && a !in Lost(ops) && q.matches(Live(ops)[a].properties)
    ensures var r := ReceivedAll(None, Answer(After(ops), q));
            && r.Some? && !r.value.exception && r.value.final && r.value.schemaIds == []
            && |r.value.data| == |addrs|
            && forall k :: 0 <= k < |addrs| ==> addrs[k] in Live(ops) && r.value.data[k] == Live(ops)[addrs[k]]
  {
    addrs := SchemaQueryFinds(ops, q);
    QueryReturnsWhatIsFound(After(ops), q, 0);
  }

  /** A query by address receives the live object there, if there is one. */
  lemma AddressQueryReceives(ops: seq<Operation>, q: Query)
    requires q.addr.Some?
    ensures ReceivedAll(None, Answer(After(ops), q))
            == Some(Event(false, if q.addr.value in Live(ops) then [Live(ops)[q.addr.value]] else [], [], true))
  {
    AddressQueryFinds(ops, q);
    QueryReturnsWhatIsFound(After(ops), q, 0);
  }

  // ----- What the other responses bring -----

  /** Schema ids that are learnt become known without a schema; nothing known changes. */
  lemma {:induction false} LearntExactly(known: Known, ids: seq<SchemaId>)
    ensures Learnt(known, ids).Keys == known.Keys + set id | id in ids
    ensures forall id :: id in Learnt(known, ids) ==>
      Learnt(known, ids)[id] == if id in known then known[id] else None
    decreases |ids|
  {
    if ids != [] {
      LearntExactly(if ids[0] in known then known else known[ids[0] := None], ids[1..]);
      assert ids == [ids[0]] + ids[1..];
    }
  }

  function FirstOf(schemata: seq<Schema>, id: SchemaId): Option<Schema>
  {
    if schemata == [] then None
    else if schemata[0].id == id then Some(schemata[0]) else FirstOf(schemata[1..], id)
  }

  /** A schema that is declared stays the one first declared under its id. */
  lemma {:induction false} DeclaredExactly(known: Known, schemata: seq<Schema>, id: SchemaId)
    ensures id in Declared(known, schemata) <==> id in known || FirstOf(schemata, id).Some?
    ensures id in Declared(known, schemata) ==>
      Declared(known, schemata)[id]
      == if id in known && (known[id].Some? || FirstOf(schemata, id).None?) then known[id] else FirstOf(schemata, id)
    decreases |schemata|
  {
    if schemata != [] {
      var s := schemata[0];
      DeclaredExactly(if s.id in known && known[s.id].Some? then known else known[s.id := Some(s)], schemata[1..], id);
    }
  }

  /** The ids that a response mentions: those of its objects that have one, or the
      ones it lists. */
  lemma {:induction false} MentionedExactly(c: Content, id: SchemaId)
    ensures id in Mentioned(c) <==>
      || (c.DataContent? && exists d :: d in c.data && d.schema == Some(id))
      || (c.SchemaIdContent? && id in c.ids)
  {
    if c.DataContent? {
      IdsExactly(c.data, id);
    }
  }

  lemma {:induction false} IdsExactly(data: seq<Data>, id: SchemaId)
    ensures id in IdsOf(data) <==> exists d :: d in data && d.schema == Some(id)
  {
    if data != [] {
      IdsExactly(data[1..], id);
      assert data == [data[0]] + data[1..];
    }
  }

  function AnsweredAll(r: Option<Event>, responses: seq<(bool, Content)>): Option<Event>
    decreases |responses|
  {
    if responses == [] then r
    else AnsweredAll(Answered(r, responses[0].0, responses[0].1), responses[1..])
  }

  /** All the objects, or all the schema ids, of the responses. */
  function AllData(responses: seq<(bool, Content)>): seq<Data>
  {
    if responses == [] then []
    else (if responses[0].1.DataContent? then responses[0].1.data else []) + AllData(responses[1..])
  }

  function AllIds(responses: seq<(bool, Content)>): seq<SchemaId>
  {
    if responses == [] then []
    else (if responses[0].1.SchemaIdContent? then responses[0].1.ids else []) + AllIds(responses[1..])
  }

  /** A synchronous request collects everything its responses bring, in order; it is
      final once one of them was not partial, and responses of other content types
      count for nothing. */
  lemma {:induction false} ResponsesCollect(e: Event, responses: seq<(bool, Content)>)
    ensures var r := AnsweredAll(Some(e), responses);
            && r.Some? && r.value.exception == e.exception
            && r.value.data == e.data + AllData(responses)
            && r.value.schemaIds == e.schemaIds + AllIds(responses)
            && (r.value.final <==>
                  e.final || exists i :: 0 <= i < |responses| && !responses[i].0 && !responses[i].1.OtherContent?)
    decreases |responses|
  {
    if responses == [] {
      assert e.data + [] == e.data && e.schemaIds + [] == e.schemaIds;
    } else {
      var c, rest := responses[0].1, responses[1..];
      var next := Answered(Some(e), responses[0].0, c).value;
      ResponsesCollect(next, rest);
      var data, ids := if c.DataContent? then c.data else [], if c.SchemaIdContent? then c.ids else [];
      assert next.data == e.data + data && next.schemaIds == e.schemaIds + ids;
      Associate(e.data, data, AllData(rest));
      Associate(e.schemaIds, ids, AllIds(rest));
      assert responses == [responses[0]] + rest;
      if i :| 1 <= i < |responses| && !responses[i].0 && !responses[i].1.OtherContent? {
        assert rest[i - 1] == responses[i];
      }
      if j :| 0 <= j < |rest| && !rest[j].0 && !rest[j].1.OtherContent? {
        assert responses[j + 1] == rest[j];
      }
    }
  }
}
