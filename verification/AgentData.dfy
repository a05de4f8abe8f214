/** The data an agent manages, its two indexes, and the batched answers to queries
    (qpid/cpp/src/qmf/AgentSession.cpp, qpid/cpp/src/qmf/AgentEvent.cpp). */
module AgentData {
  import opened Wrappers
  import opened Sequences

  /** An address is its place in the order of DataAddrCompare. */
  type Addr = nat
  type Properties = map<string, string>

  /** SchemaIdCompareNoHash looks at everything but the hash. */
  datatype SchemaId = SchemaId(name: string, hash: nat)

  /** A finalized schema; what it defines is opaque. */
  datatype Schema = Schema(id: SchemaId, definition: string)

  datatype Data = Data(schema: Option<SchemaId>, properties: Properties)

  datatype Entry = Entry(addr: Addr, data: Data)

  /** A std::map from addresses to data, as the list of its entries in order. */
  type Index = seq<Entry>

  ghost predicate Sorted(ix: Index)
  {
    forall i, j :: 0 <= i < j < |ix| ==> ix[i].addr < ix[j].addr
  }

  function Find(ix: Index, addr: Addr): (d: Option<Data>)
  {
    if ix == [] then None else if ix[0].addr == addr then Some(ix[0].data) else Find(ix[1..], addr)
  }

  function Put(ix: Index, addr: Addr, data: Data): Index
  {
    if ix == [] || addr < ix[0].addr then [Entry(addr, data)] + ix
    else if addr == ix[0].addr then [Entry(addr, data)] + ix[1..]
    else [ix[0]] + Put(ix[1..], addr, data)
  }

  function Erase(ix: Index, addr: Addr): Index
  {
    if ix == [] then [] else if ix[0].addr == addr then ix[1..] else [ix[0]] + Erase(ix[1..], addr)
  }

  // ----- The session -----

  datatype Indexes = Indexes(global: Index, schemas: map<string, Index>)

  function At(x: Indexes, name: string): Index
  {
    if name in x.schemas then x.schemas[name] else []
  }

  function Registered(x: Indexes, id: SchemaId): Indexes
  {
    x.(schemas := x.schemas[id.name := []])
  }

  /** None for the exception about a duplicate address. */
  function Added(x: Indexes, addr: Addr, data: Data): Option<Indexes>
  {
    if Find(x.global, addr).Some? then None
    else
      Some(Indexes(Put(x.global, addr, data),
                   if data.schema.None? then x.schemas
                   else x.schemas[data.schema.value.name := Put(At(x, data.schema.value.name), addr, data)]))
  }

  function Deleted(x: Indexes, addr: Addr): Indexes
  {
    var found := Find(x.global, addr);
    if found.None? then x
    else
      Indexes(Erase(x.global, addr),
              if found.value.schema.None? then x.schemas
              else x.schemas[found.value.schema.value.name := Erase(At(x, found.value.schema.value.name), addr)])
  }

  /** The predicate of a query is a parameter. */
  datatype Query = Query(addr: Option<Addr>, schema: Option<SchemaId>, matches: Properties -> bool)

  datatype Message = QueryResponse(partial: bool, body: seq<Data>) | Exception(content: Data)

  function Error(text: string): Data
  {
    Data(None, map["error_text" := text])
  }

  /** Every eight objects are sent as a partial response, the rest as the final one. */
  function Batches(objects: seq<Data>): seq<Message>
  {
    if |objects| < 8 then [QueryResponse(false, objects)]
    else [QueryResponse(true, objects[..8])] + Batches(objects[8..])
  }

  function Matching(ix: Index, matches: Properties -> bool): seq<Data>
  {
    if ix == [] then []
    else (if matches(ix[0].data.properties) then [ix[0].data] else []) + Matching(ix[1..], matches)
  }

  /** What a query finds; None when it is invalid. */
  function Found(x: Indexes, q: Query): Option<seq<Data>>
  {
    if q.addr.Some? then
      var d := Find(x.global, q.addr.value);
      Some(if d.None? then [] else [d.value])
    else if q.schema.Some? then Some(Matching(At(x, q.schema.value.name), q.matches))
    else None
  }

  function Answer(x: Indexes, q: Query): seq<Message>
  {
    var found := Found(x, q);
    if found.None? then [Exception(Error("Query is Invalid"))] else Batches(found.value)
  }

  class AgentEvent {
    var dataQueue: seq<Data>

    constructor ()
      ensures dataQueue == []
    {
      dataQueue := [];
    }

    method EnqueueData(data: Data) returns (count: nat)
      modifies this
      ensures dataQueue == old(dataQueue) + [data] && count == |dataQueue|
    {
      dataQueue := dataQueue + [data];
      count := |dataQueue|;
    }

    /** None for the invalid handle that tells the end. */
    method DequeueData() returns (data: Option<Data>)
      modifies this
      ensures if old(dataQueue) == [] then data.None? && dataQueue == []
              else data == Some(old(dataQueue)[0]) && dataQueue == old(dataQueue)[1..]
    {
      if dataQueue == [] {
        return None;
      }
      data := Some(dataQueue[0]);
      dataQueue := dataQueue[1..];
    }
  }

  class AgentSession {
    var globalIndex: Index
    var schemaIndex: map<string, Index>
    var schemata: map<SchemaId, Schema>
    var schemaUpdateTime: nat
    var forceHeartbeat: bool
    var sent: seq<Message>

    function State(): Indexes
      reads this
    {
      Indexes(globalIndex, schemaIndex)
    }

    constructor (now: nat)
      ensures State() == Indexes([], map[]) && sent == []
      ensures schemata == map[] && schemaUpdateTime == now && !forceHeartbeat
    {
      globalIndex, schemaIndex, sent := [], map[], [];
      schemata, schemaUpdateTime, forceHeartbeat := map[], now, false;
    }

    method RegisterSchema(schema: Schema, now: nat)
      modifies this
      ensures State() == Registered(old(State()), schema.id) && sent == old(sent)
      ensures schemata == old(schemata)[schema.id := schema] && schemaUpdateTime == now && forceHeartbeat
    {
      schemata := schemata[schema.id := schema];
      schemaIndex := schemaIndex[schema.id.name := []];
      schemaUpdateTime := now;
      forceHeartbeat := true;
    }

    method AddData(addr: Addr, data: Data) returns (ok: bool)
      modifies this`globalIndex, this`schemaIndex
      ensures var x := Added(old(State()), addr, data);
              ok == x.Some? && State() == (if ok then x.value else old(State()))
    {
      var iter := Find(globalIndex, addr);
      if iter.Some? {
        return false;
      }
      globalIndex := Put(globalIndex, addr, data);
      if data.schema.Some? {
        var name := data.schema.value.name;
        schemaIndex := schemaIndex[name := Put(if name in schemaIndex then schemaIndex[name] else [], addr, data)];
      }
      return true;
    }

    method DelData(addr: Addr)
      modifies this`globalIndex, this`schemaIndex
      ensures State() == Deleted(old(State()), addr)
    {
      var iter := Find(globalIndex, addr);
      if iter.None? {
        return;
      }
      if iter.value.schema.Some? {
        var name := iter.value.schema.value.name;
        schemaIndex := schemaIndex[name := Erase(if name in schemaIndex then schemaIndex[name] else [], addr)];
      }
      globalIndex := Erase(globalIndex, addr);
    }

    method AuthAccept(q: Query)
      modifies this`sent
      ensures sent == old(sent) + Answer(State(), q)
    {
      var event := new AgentEvent();
      if q.addr.Some? {
        var iter := Find(globalIndex, q.addr.value);
        if iter.Some? {
          Response(event, iter.value);
        }
        assert event.dataQueue == Found(State(), q).value && |event.dataQueue| < 8;
        Complete(event);
        return;
      }
      if q.schema.Some? {
        if q.schema.value.name in schemaIndex {
          var index := schemaIndex[q.schema.value.name];
          assert index[0..] == index && [] + Matching(index, q.matches) == Matching(index, q.matches);
          for i := 0 to |index|
            invariant State() == old(State()) && |event.dataQueue| < 8
            invariant sent + Batches(event.dataQueue + Matching(index[i..], q.matches)) == old(sent)
                + Answer(State(), q)
          {
            assert index[i..][1..] == index[i + 1..];
            var d := index[i].data;
            ghost var queued, rest := event.dataQueue, Matching(index[i + 1..], q.matches);
            if q.matches(d.properties) {
              Associate(queued, [d], rest);
              FullBatch(sent, queued + [d], rest);
              Response(event, d);
            } else {
              assert [] + rest == rest;
            }
          }
          assert event.dataQueue + [] == event.dataQueue;
        }
        Complete(event);
        return;
      }
      sent := sent + [Exception(Error("Query is Invalid"))];
    }

    method Response(event: AgentEvent, data: Data)
      modifies this`sent, event
      ensures var queue := old(event.dataQueue) + [data];
              if |queue| >= 8 then sent == old(sent) + [QueryResponse(true, queue)] && event.dataQueue == []
              else sent == old(sent) && event.dataQueue == queue
    {
      var count := event.EnqueueData(data);
      if count >= 8 {
        FlushResponses(event, false);
      }
    }

    method Complete(event: AgentEvent)
      modifies this`sent, event
      ensures sent == old(sent) + [QueryResponse(false, old(event.dataQueue))] && event.dataQueue == []
    {
      FlushResponses(event, true);
    }

    method FlushResponses(event: AgentEvent, final: bool)
      modifies this`sent, event
      ensures sent == old(sent) + [QueryResponse(!final, old(event.dataQueue))] && event.dataQueue == []
    {
      var body: seq<Data> := [];
      var data := event.DequeueData();
      while data.Some?
        invariant sent == old(sent)
        invariant data.None? ==> event.dataQueue == [] && body == old(event.dataQueue)
        invariant data.Some? ==> body + ([data.value] + event.dataQueue) == old(event.dataQueue)
        decreases |event.dataQueue|, data.Some?
      {
        Associate(body, [data.value], event.dataQueue);
        body := body + [data.value];
        data := event.DequeueData();
      }
      sent := sent + [QueryResponse(!final, body)];
    }
  }

  lemma FullBatch(sent: seq<Message>, queue: seq<Data>, rest: seq<Data>)
    requires 0 < |queue| <= 8
    ensures |queue| == 8 ==>
      sent + Batches(queue + rest) == (sent + [QueryResponse(true, queue)]) + Batches([] + rest)
  {
    if |queue| == 8 {
      assert (queue + rest)[..8] == queue && (queue + rest)[8..] == rest && [] + rest == rest;
      Associate(sent, [QueryResponse(true, queue)], Batches(rest));
    }
  }

  // ----- The batches -----

  /** Of n objects, n / 8 partial responses carry eight each, in order, and the one
      final response carries the rest. */
  lemma {:induction false} BatchesOfEight(objects: seq<Data>)
    ensures var ms := Batches(objects);
            && |ms| == |objects| / 8 + 1
            && (forall i :: 0 <= i < |ms| - 1 ==> ms[i] == QueryResponse(true, objects[8 * i..8 * i + 8]))
            && ms[|ms| - 1] == QueryResponse(false, objects[8 * (|objects| / 8)..])
    decreases |objects|
  {
    if |objects| >= 8 {
      var rest := objects[8..];
      BatchesOfEight(rest);
      var ms, tail := Batches(objects), Batches(rest);
      assert ms == [QueryResponse(true, objects[..8])] + tail;
      assert |rest| / 8 == |objects| / 8 - 1;
      forall i | 0 <= i < |ms| - 1
        ensures ms[i] == QueryResponse(true, objects[8 * i..8 * i + 8])
      {
        if i > 0 {
          assert ms[i] == tail[i - 1];
          assert rest[8 * (i - 1)..8 * (i - 1) + 8] == objects[8 * i..8 * i + 8];
        }
      }
      assert rest[8 * (|rest| / 8)..] == objects[8 * (|objects| / 8)..];
    }
  }

  // ----- The two indexes -----

  predicate Of(e: Entry, name: string)
  {
    e.data.schema.Some? && e.data.schema.value.name == name
  }

  /** The entries of one schema, but for some addresses. */
  function OfSchema(ix: Index, name: string, without: set<Addr>): Index
  {
    if ix == [] then []
    else (if Of(ix[0], name) && ix[0].addr !in without then [ix[0]] else []) + OfSchema(ix[1..], name, without)
  }

  /** A first entry that is below all others stays so among those of a schema. */
  lemma {:induction false} FirstOfSchema(ix: Index, name: string, without: set<Addr>, addr: Addr)
    requires Sorted(ix) && (ix != [] ==> addr < ix[0].addr)
    ensures var f := OfSchema(ix, name, without); f != [] ==> addr < f[0].addr
  {
    if ix != [] {
      FirstOfSchema(ix[1..], name, without, addr);
    }
  }

  lemma {:induction false} PutStaysSorted(ix: Index, addr: Addr, data: Data)
    requires Sorted(ix)
    ensures Sorted(Put(ix, addr, data))
    ensures Put(ix, addr, data) != []
    ensures var first := Put(ix, addr, data)[0].addr;
            first == if ix == [] || addr < ix[0].addr then addr else ix[0].addr
  {
    if ix != [] && addr > ix[0].addr {
      PutStaysSorted(ix[1..], addr, data);
      var rest := Put(ix[1..], addr, data);
      forall i | 0 <= i < |rest|
        ensures ix[0].addr < rest[i].addr
      {
        assert rest[0].addr <= rest[i].addr;
      }
    }
  }

  lemma {:induction false} EraseStaysSorted(ix: Index, addr: Addr)
    requires Sorted(ix)
    ensures Sorted(Erase(ix, addr))
    ensures forall e :: e in Erase(ix, addr) ==> e in ix
  {
    if ix != [] && ix[0].addr != addr {
      EraseStaysSorted(ix[1..], addr);
      var rest := Erase(ix[1..], addr);
      forall i | 0 <= i < |rest|
        ensures ix[0].addr < rest[i].addr
      {
        assert rest[i] in ix[1..];
      }
    }
  }

  lemma OfSchemaCons(e: Entry, ix: Index, name: string, without: set<Addr>)
    ensures OfSchema([e] + ix, name, without)
            == if Of(e, name) && e.addr !in without then [e] + OfSchema(ix, name, without)
                else OfSchema(ix, name, without)
  {
    assert ([e] + ix)[1..] == ix;
    assert [] + OfSchema(ix, name, without) == OfSchema(ix, name, without);
  }

  lemma PutCons(e: Entry, ix: Index, addr: Addr, data: Data)
    requires addr > e.addr
    ensures Put([e] + ix, addr, data) == [e] + Put(ix, addr, data)
  {
    assert ([e] + ix)[1..] == ix;
  }

  /** Adding an object adds it to its own schema's part and to no other. */
  lemma {:induction false} PutOfSchema(ix: Index, addr: Addr, data: Data, name: string, without: set<Addr>)
    requires Sorted(ix) && Find(ix, addr).None? && addr !in without
    ensures OfSchema(Put(ix, addr, data), name, without)
            == if Of(Entry(addr, data), name) then Put(OfSchema(ix, name, without), addr, data)
               else OfSchema(ix, name, without)
  {
    if ix == [] || addr < ix[0].addr {
      FirstOfSchema(ix, name, without, addr);
      OfSchemaCons(Entry(addr, data), ix, name, without);
    } else {
      var e, rest := ix[0], ix[1..];
      PutOfSchema(rest, addr, data, name, without);
      OfSchemaCons(e, rest, name, without);
      OfSchemaCons(e, Put(rest, addr, data), name, without);
      PutCons(e, OfSchema(rest, name, without), addr, data);
      assert ix == [e] + rest;
    }
  }

  lemma {:induction false} EraseAbsent(ix: Index, addr: Addr)
    requires forall e :: e in ix ==> e.addr != addr
    ensures Erase(ix, addr) == ix
  {
    if ix != [] {
      EraseAbsent(ix[1..], addr);
    }
  }

  lemma {:induction false} OfSchemaSelects(ix: Index, name: string, without: set<Addr>, e: Entry)
    ensures e in OfSchema(ix, name, without) <==> e in ix && Of(e, name) && e.addr !in without
  {
    if ix != [] {
      OfSchemaSelects(ix[1..], name, without, e);
    }
  }

  /** Deleting an object deletes it from its own schema's part and from no other. */
  lemma {:induction false} EraseOfSchema(ix: Index, addr: Addr, name: string, without: set<Addr>)
    requires Sorted(ix)
    ensures OfSchema(Erase(ix, addr), name, without) == Erase(OfSchema(ix, name, without), addr)
  {
    if ix == [] {
    } else if ix[0].addr == addr {
      var rest := OfSchema(ix[1..], name, without);
      forall e | e in rest
        ensures e.addr != addr
      {
        OfSchemaSelects(ix[1..], name, without, e);
      }
      EraseAbsent(rest, addr);
      assert ([ix[0]] + rest)[1..] == rest && [] + rest == rest;
    } else {
      var rest := OfSchema(ix[1..], name, without);
      EraseOfSchema(ix[1..], addr, name, without);
      assert ([ix[0]] + Erase(ix[1..], addr))[1..] == Erase(ix[1..], addr);
      assert ([ix[0]] + rest)[1..] == rest && [] + rest == rest && [] + Erase(rest, addr) == Erase(rest, addr);
    }
  }

  /** Addresses that are not there may as well be left out. */
  lemma {:induction false} OfSchemaWithout(ix: Index, name: string, a: set<Addr>, b: set<Addr>)
    requires forall e :: e in ix && Of(e, name) ==> (e.addr in a <==> e.addr in b)
    ensures OfSchema(ix, name, a) == OfSchema(ix, name, b)
  {
    if ix != [] {
      assert ix[0] in ix;
      OfSchemaWithout(ix[1..], name, a, b);
    }
  }

  lemma {:induction false} FindFinds(ix: Index, addr: Addr)
    requires Sorted(ix)
    ensures Find(ix, addr).None? ==> forall e :: e in ix ==> e.addr != addr
    ensures Find(ix, addr).Some? ==> forall e :: e in ix && e.addr == addr ==> e.data == Find(ix, addr).value
    ensures Find(ix, addr).Some? ==> Entry(addr, Find(ix, addr).value) in ix
  {
    if ix != [] {
      FindFinds(ix[1..], addr);
    }
  }

  datatype Operation = Register(id: SchemaId) | Add(addr: Addr, data: Data) | Delete(addr: Addr)

  function Next(x: Indexes, op: Operation): Indexes
  {
    match op
    case Register(id) => Registered(x, id)
    case Add(addr, data) => var y := Added(x, addr, data); if y.None? then x else y.value
    case Delete(addr) => Deleted(x, addr)
  }

  function Addresses(ix: Index): set<Addr>
  {
    set e | e in ix :: e.addr
  }

  /** The live objects whose schema has been registered again since they were added:
      registering empties the schema's part of the index. */
  function Orphaned(x: Indexes, orphans: set<Addr>, op: Operation): set<Addr>
  {
    match op
    case Register(id) => orphans + Addresses(OfSchema(x.global, id.name, {}))
    case Add(_, _) => orphans
    case Delete(addr) => orphans - {addr}
  }

  function After(ops: seq<Operation>): Indexes
  {
    if ops == [] then Indexes([], map[]) else Next(After(ops[..|ops| - 1]), ops[|ops| - 1])
  }

  function Orphans(ops: seq<Operation>): set<Addr>
  {
    if ops == [] then {}
    else
      var before := ops[..|ops| - 1];
      Orphaned(After(before), Orphans(before), ops[|ops| - 1])
  }

  ghost predicate Kept(x: Indexes, orphans: set<Addr>)
  {
    && Sorted(x.global)
    && (forall a :: a in orphans ==> exists e :: e in x.global && e.addr == a && e.data.schema.Some?)
    && (forall name :: At(x, name) == OfSchema(x.global, name, orphans))
  }

  lemma RegisterKeeps(x: Indexes, orphans: set<Addr>, id: SchemaId)
    requires Kept(x, orphans)
    ensures Kept(Registered(x, id), Orphaned(x, orphans, Register(id)))
  {
    var o := Orphaned(x, orphans, Register(id));
    forall a | a in o
      ensures exists e :: e in x.global && e.addr == a && e.data.schema.Some?
    {
      if a !in orphans {
        var e :| e in OfSchema(x.global, id.name, {}) && e.addr == a;
        OfSchemaSelects(x.global, id.name, {}, e);
      }
    }
    forall name
      ensures At(Registered(x, id), name) == OfSchema(x.global, name, o)
    {
      forall e | e in x.global && Of(e, name)
        ensures name == id.name ==> e.addr in o
        ensures name != id.name ==> (e.addr in o <==> e.addr in orphans)
      {
        OfSchemaSelects(x.global, id.name, {}, e);
        if e.addr in o && e.addr !in orphans {
          var f :| f in OfSchema(x.global, id.name, {}) && f.addr == e.addr;
          OfSchemaSelects(x.global, id.name, {}, f);
          SameAddress(x.global, e, f);
        }
      }
      if name == id.name {
        NoneOfSchema(x.global, name, o);
      } else {
        OfSchemaWithout(x.global, name, orphans, o);
      }
    }
  }

  lemma SameAddress(ix: Index, e: Entry, f: Entry)
    requires Sorted(ix) && e in ix && f in ix && e.addr == f.addr
    ensures e == f
  {
    FindFinds(ix, e.addr);
  }

  lemma {:induction false} NoneOfSchema(ix: Index, name: string, without: set<Addr>)
    requires forall e :: e in ix && Of(e, name) ==> e.addr in without
    ensures OfSchema(ix, name, without) == []
  {
    if ix != [] {
      assert ix[0] in ix;
      NoneOfSchema(ix[1..], name, without);
    }
  }

  lemma AddKeeps(x: Indexes, orphans: set<Addr>, addr: Addr, data: Data)
    requires Kept(x, orphans)
    ensures Kept(Next(x, Add(addr, data)), orphans)
  {
    FindFinds(x.global, addr);
    if Find(x.global, addr).None? {
      var y := Next(x, Add(addr, data));
      assert addr !in orphans;
      PutStaysSorted(x.global, addr, data);
      forall a | a in orphans
        ensures exists e :: e in y.global && e.addr == a && e.data.schema.Some?
      {
        var e :| e in x.global && e.addr == a && e.data.schema.Some?;
        PutHas(x.global, addr, data, e);
      }
      forall name
        ensures At(y, name) == OfSchema(y.global, name, orphans)
      {
        PutOfSchema(x.global, addr, data, name, orphans);
        assert At(x, name) == OfSchema(x.global, name, orphans);
      }
    }
  }

  lemma {:induction false} PutHas(ix: Index, addr: Addr, data: Data, e: Entry)
    requires e in ix && e.addr != addr
    ensures e in Put(ix, addr, data)
  {
    if !(ix == [] || addr <= ix[0].addr) && e != ix[0] {
      PutHas(ix[1..], addr, data, e);
    }
  }

  lemma {:induction false} EraseHas(ix: Index, addr: Addr, e: Entry)
    requires e in ix && e.addr != addr
    ensures e in Erase(ix, addr)
  {
    if ix[0].addr != addr && e != ix[0] {
      EraseHas(ix[1..], addr, e);
    }
  }

  lemma DeleteKeeps(x: Indexes, orphans: set<Addr>, addr: Addr)
    requires Kept(x, orphans)
    ensures Kept(Deleted(x, addr), orphans - {addr})
  {
    var y, o := Deleted(x, addr), orphans - {addr};
    FindFinds(x.global, addr);
    if Find(x.global, addr).None? {
      assert o == orphans;
    } else {
      EraseStaysSorted(x.global, addr);
      forall a | a in o
        ensures exists e :: e in y.global && e.addr == a && e.data.schema.Some?
      {
        var e :| e in x.global && e.addr == a && e.data.schema.Some?;
        EraseHas(x.global, addr, e);
      }
      forall name
        ensures At(y, name) == OfSchema(y.global, name, o)
      {
        EraseOfSchema(x.global, addr, name, orphans);
        assert At(x, name) == OfSchema(x.global, name, orphans);
        if !Of(Entry(addr, Find(x.global, addr).value), name) {
          DeletedElsewhere(x.global, addr, name, orphans);
        }
        ErasedIsGone(x.global, addr);
        OfSchemaWithout(y.global, name, orphans, o);
      }
    }
  }

  lemma {:induction false} ErasedIsGone(ix: Index, addr: Addr)
    requires Sorted(ix)
    ensures forall e :: e in Erase(ix, addr) ==> e.addr != addr
  {
    if ix != [] && ix[0].addr != addr {
      ErasedIsGone(ix[1..], addr);
    }
  }

  /** Another schema's part does not hold the object. */
  lemma DeletedElsewhere(ix: Index, addr: Addr, name: string, without: set<Addr>)
    requires Sorted(ix) && Find(ix, addr).Some? && !Of(Entry(addr, Find(ix, addr).value), name)
    ensures Erase(OfSchema(ix, name, without), addr) == OfSchema(ix, name, without)
  {
    FindFinds(ix, addr);
    forall e | e in OfSchema(ix, name, without)
      ensures e.addr != addr
    {
      OfSchemaSelects(ix, name, without, e);
    }
    EraseAbsent(OfSchema(ix, name, without), addr);
  }

  /** After any run of registering, adding and deleting: the part of the index under
      a schema holds, in order, the live objects of that schema except the orphans. */
  lemma {:induction false} IndexIsPartition(ops: seq<Operation>)
    ensures Kept(After(ops), Orphans(ops))
  {
    if ops != [] {
      var before, op := ops[..|ops| - 1], ops[|ops| - 1];
      IndexIsPartition(before);
      match op
      case Register(id) => RegisterKeeps(After(before), Orphans(before), id);
      case Add(addr, data) => AddKeeps(After(before), Orphans(before), addr, data);
      case Delete(addr) => DeleteKeeps(After(before), Orphans(before), addr);
    }
  }

  /** Each schema's part holds all live objects of that schema. */
  ghost predicate Agree(x: Indexes)
  {
    forall name :: At(x, name) == OfSchema(x.global, name, {})
  }

  lemma OrphanIsMissing(x: Indexes, orphans: set<Addr>, e: Entry)
    requires Kept(x, orphans) && e.addr in orphans && e in x.global && e.data.schema.Some?
    ensures At(x, e.data.schema.value.name) != OfSchema(x.global, e.data.schema.value.name, {})
  {
    var name := e.data.schema.value.name;
    OfSchemaSelects(x.global, name, {}, e);
    OfSchemaSelects(x.global, name, orphans, e);
  }

  lemma AgreeExactly(x: Indexes, orphans: set<Addr>)
    requires Kept(x, orphans)
    ensures Agree(x) <==> orphans == {}
  {
    if orphans != {} {
      var a :| a in orphans;
      var e :| e in x.global && e.addr == a && e.data.schema.Some?;
      OrphanIsMissing(x, orphans, e);
      assert !Agree(x);
    } else {
      forall name
        ensures At(x, name) == OfSchema(x.global, name, {})
      {
        assert At(x, name) == OfSchema(x.global, name, orphans);
      }
    }
  }

  /** The two indexes agree exactly when no live object is an orphan. */
  lemma IndexesAgreeExactly(ops: seq<Operation>)
    ensures Agree(After(ops)) <==> Orphans(ops) == {}
  {
    IndexIsPartition(ops);
    AgreeExactly(After(ops), Orphans(ops));
  }

  /** No schema is registered while an object of an equal one is live. */
  predicate Orderly(ops: seq<Operation>)
  {
    ops != [] ==>
      && Orderly(ops[..|ops| - 1])
      && (ops[|ops| - 1].Register? ==> OfSchema(After(ops[..|ops| - 1]).global, ops[|ops| - 1].id.name, {}) == [])
  }

  lemma {:induction false} OrderlyRunsAgree(ops: seq<Operation>)
    requires Orderly(ops)
    ensures Orphans(ops) == {}
  {
    if ops != [] {
      OrderlyRunsAgree(ops[..|ops| - 1]);
    }
  }

  // ----- The history alone: what is live, and what a query finds -----

  /** The objects that were added, and not deleted since, by their addresses; an
      address that is live is not added again. */
  function Live(ops: seq<Operation>): map<Addr, Data>
  {
    if ops == [] then map[]
    else
      var live, op := Live(ops[..|ops| - 1]), ops[|ops| - 1];
      match op
      case Register(_) => live
      case Add(addr, data) => if addr in live then live else live[addr := data]
      case Delete(addr) => live - {addr}
  }

  predicate IsOf(d: Data, name: string)
  {
    d.schema.Some? && d.schema.value.name == name
  }

  /** Live when their schema was registered again. */
  function Lost(ops: seq<Operation>): set<Addr>
  {
    if ops == [] then {}
    else
      var before, op := ops[..|ops| - 1], ops[|ops| - 1];
      match op
      case Register(id) => Lost(before) + set a | a in Live(before) && IsOf(Live(before)[a], id.name)
      case Add(_, _) => Lost(before)
      case Delete(addr) => Lost(before) - {addr}
  }

  /** The index lists exactly the entries of the map. */
  ghost predicate Lists(ix: Index, live: map<Addr, Data>)
  {
    && Sorted(ix)
    && (forall e :: e in ix ==> e.addr in live && live[e.addr] == e.data)
    && (forall a :: a in live ==> Entry(a, live[a]) in ix)
  }

  lemma {:induction false} PutOnly(ix: Index, addr: Addr, data: Data)
    ensures Entry(addr, data) in Put(ix, addr, data)
    ensures forall e :: e in Put(ix, addr, data) ==> e in ix || e == Entry(addr, data)
  {
    if !(ix == [] || addr <= ix[0].addr) {
      PutOnly(ix[1..], addr, data);
    }
  }

  lemma FindLists(ix: Index, live: map<Addr, Data>, addr: Addr)
    requires Lists(ix, live)
    ensures Find(ix, addr) == if addr in live then Some(live[addr]) else None
  {
    FindFinds(ix, addr);
    if addr in live {
      assert Entry(addr, live[addr]) in ix;
    }
  }

  lemma PutLists(ix: Index, live: map<Addr, Data>, addr: Addr, data: Data)
    requires Lists(ix, live) && addr !in live
    ensures Lists(Put(ix, addr, data), live[addr := data])
  {
    PutStaysSorted(ix, addr, data);
    PutOnly(ix, addr, data);
    forall a | a in live
      ensures Entry(a, live[a]) in Put(ix, addr, data)
    {
      PutHas(ix, addr, data, Entry(a, live[a]));
    }
  }

  lemma EraseLists(ix: Index, live: map<Addr, Data>, addr: Addr)
    requires Lists(ix, live)
    ensures Lists(Erase(ix, addr), live - {addr})
  {
    EraseStaysSorted(ix, addr);
    ErasedIsGone(ix, addr);
    forall a | a in live && a != addr
      ensures Entry(a, live[a]) in Erase(ix, addr)
    {
      EraseHas(ix, addr, Entry(a, live[a]));
    }
  }

  /** The global index is the map that the history makes. */
  lemma {:induction false} GlobalIsLive(ops: seq<Operation>)
    ensures Lists(After(ops).global, Live(ops))
  {
    if ops != [] {
      var before, op := ops[..|ops| - 1], ops[|ops| - 1];
      GlobalIsLive(before);
      var x := After(before);
      match op {
        case Register(_) =>
        case Add(addr, data) =>
          FindLists(x.global, Live(before), addr);
          if addr !in Live(before) {
            PutLists(x.global, Live(before), addr, data);
          }
        case Delete(addr) =>
          FindLists(x.global, Live(before), addr);
          if addr in Live(before) {
            EraseLists(x.global, Live(before), addr);
          } else {
            assert Live(before) - {addr} == Live(before);
          }
      }
    }
  }

  lemma {:induction false} OrphansAreLost(ops: seq<Operation>)
    ensures Orphans(ops) == Lost(ops)
  {
    if ops != [] {
      var before, op := ops[..|ops| - 1], ops[|ops| - 1];
      OrphansAreLost(before);
      GlobalIsLive(before);
      if op.Register? {
        RegisteredOver(After(before).global, Live(before), op.id.name);
      }
    }
  }

  lemma RegisteredOver(ix: Index, live: map<Addr, Data>, name: string)
    requires Lists(ix, live)
    ensures Addresses(OfSchema(ix, name, {})) == set a | a in live && IsOf(live[a], name)
  {
    forall a
      ensures a in Addresses(OfSchema(ix, name, {})) <==> a in live && IsOf(live[a], name)
    {
      if a in Addresses(OfSchema(ix, name, {})) {
        var e :| e in OfSchema(ix, name, {}) && e.addr == a;
        OfSchemaSelects(ix, name, {}, e);
      }
      if a in live && IsOf(live[a], name) {
        OfSchemaSelects(ix, name, {}, Entry(a, live[a]));
      }
    }
  }

  predicate Wanted(e: Entry, name: string, without: set<Addr>, matches: Properties -> bool)
  {
    IsOf(e.data, name) && e.addr !in without && matches(e.data.properties)
  }

  lemma OneMoreSelected(e: Entry, ix: Index, name: string, without: set<Addr>, matches: Properties -> bool)
    ensures Matching(OfSchema([e] + ix, name, without), matches)
            == (if Wanted(e, name, without, matches) then [e.data] else [])
               + Matching(OfSchema(ix, name, without), matches)
  {
    var part := OfSchema(ix, name, without);
    OfSchemaCons(e, ix, name, without);
    assert ([e] + part)[1..] == part && [] + Matching(part, matches) == Matching(part, matches);
  }

  function DataOf(es: Index): seq<Data>
  {
    seq(|es|, k requires 0 <= k < |es| => es[k].data)
  }

  function Only(ix: Index, name: string, without: set<Addr>, matches: Properties -> bool): Index
  {
    if ix == [] then []
    else (if Wanted(ix[0], name, without, matches) then [ix[0]] else []) + Only(ix[1..], name, without, matches)
  }

  lemma {:induction false} OnlyWanted(ix: Index, name: string, without: set<Addr>, matches: Properties -> bool,
      e: Entry)
    ensures e in Only(ix, name, without, matches) <==> e in ix && Wanted(e, name, without, matches)
  {
    if ix != [] {
      OnlyWanted(ix[1..], name, without, matches, e);
      assert ix == [ix[0]] + ix[1..];
    }
  }

  lemma {:induction false} OnlySorted(ix: Index, name: string, without: set<Addr>, matches: Properties -> bool)
    requires Sorted(ix)
    ensures Sorted(Only(ix, name, without, matches))
  {
    if ix != [] {
      var rest := Only(ix[1..], name, without, matches);
      OnlySorted(ix[1..], name, without, matches);
      forall k | 0 <= k < |rest|
        ensures ix[0].addr < rest[k].addr
      {
        OnlyWanted(ix[1..], name, without, matches, rest[k]);
      }
    }
  }

  lemma {:induction false} OnlyMatches(ix: Index, name: string, without: set<Addr>, matches: Properties -> bool)
    ensures Matching(OfSchema(ix, name, without), matches) == DataOf(Only(ix, name, without, matches))
  {
    if ix != [] {
      var rest := Only(ix[1..], name, without, matches);
      OnlyMatches(ix[1..], name, without, matches);
      OneMoreSelected(ix[0], ix[1..], name, without, matches);
      assert [ix[0]] + ix[1..] == ix;
      assert DataOf([ix[0]] + rest) == [ix[0].data] + DataOf(rest);
      assert [] + rest == rest && [] + DataOf(rest) == DataOf(rest);
    }
  }

  /** What is selected from an index: some of its entries, in order. */
  lemma Selected(ix: Index, name: string, without: set<Addr>, matches: Properties -> bool) returns (es: Index)
    requires Sorted(ix)
    ensures Sorted(es)
    ensures forall e :: e in es <==> e in ix && Wanted(e, name, without, matches)
    ensures Matching(OfSchema(ix, name, without), matches) == DataOf(es)
  {
    es := Only(ix, name, without, matches);
    OnlySorted(ix, name, without, matches);
    OnlyMatches(ix, name, without, matches);
    forall e
      ensures e in es <==> e in ix && Wanted(e, name, without, matches)
    {
      OnlyWanted(ix, name, without, matches, e);
    }
  }

  function AddressesOf(es: Index): seq<Addr>
  {
    seq(|es|, k requires 0 <= k < |es| => es[k].addr)
  }

  lemma AddressAt(es: Index, a: Addr)
    ensures a in AddressesOf(es) <==> exists e :: e in es && e.addr == a
  {
    if a in AddressesOf(es) {
      var k :| 0 <= k < |es| && AddressesOf(es)[k] == a;
      assert es[k] in es;
    }
    if e :| e in es && e.addr == a {
      var k :| 0 <= k < |es| && es[k] == e;
      assert AddressesOf(es)[k] == a;
    }
  }

  /** The selection told by addresses. */
  lemma SelectedAddresses(es: Index, ix: Index, live: map<Addr, Data>, name: string, without: set<Addr>,
                          matches: Properties -> bool)
    requires Lists(ix, live) && forall e :: e in es <==> e in ix && Wanted(e, name, without, matches)
    ensures forall a :: a in AddressesOf(es) <==> a in live && Wanted(Entry(a, live[a]), name, without, matches)
    ensures forall k :: 0 <= k < |es| ==> es[k].addr in live && live[es[k].addr] == es[k].data
  {
    forall k | 0 <= k < |es|
      ensures es[k].addr in live && live[es[k].addr] == es[k].data
    {
      assert es[k] in es;
    }
    forall a
      ensures a in AddressesOf(es) <==> a in live && Wanted(Entry(a, live[a]), name, without, matches)
    {
      AddressAt(es, a);
      assert a in live ==> Entry(a, live[a]) in ix;
    }
  }

  /** A query by schema finds the live objects of that schema that match, by
      increasing address, but for those whose schema was registered again. */
  lemma SchemaQueryFinds(ops: seq<Operation>, q: Query) returns (addrs: seq<Addr>)
    requires q.addr.None? && q.schema.Some?
    ensures forall i, j :: 0 <= i < j < |addrs| ==> addrs[i] < addrs[j]
    ensures forall a :: a in addrs <==>
      && a in Live(ops) && IsOf(Live(ops)[a], q.schema.value.name)
      && a !in Lost(ops) && q.matches(Live(ops)[a].properties)
    ensures var found := Found(After(ops), q);
            && found.Some? && |found.value| == |addrs|
            && forall k :: 0 <= k < |addrs| ==> addrs[k] in Live(ops) && found.value[k] == Live(ops)[addrs[k]]
  {
    var x, name := After(ops), q.schema.value.name;
    IndexIsPartition(ops);
    GlobalIsLive(ops);
    OrphansAreLost(ops);
    assert At(x, name) == OfSchema(x.global, name, Orphans(ops));
    var es := Selected(x.global, name, Lost(ops), q.matches);
    SelectedAddresses(es, x.global, Live(ops), name, Lost(ops), q.matches);
    addrs := AddressesOf(es);
  }

  /** A query by address finds the live object there, if there is one. */
  lemma AddressQueryFinds(ops: seq<Operation>, q: Query)
    requires q.addr.Some?
    ensures Found(After(ops), q)
            == Some(if q.addr.value in Live(ops) then [Live(ops)[q.addr.value]] else [])
  {
    GlobalIsLive(ops);
    FindLists(After(ops).global, Live(ops), q.addr.value);
  }
}
