/** Schema discovery by the old management client, and how it detects that the
    discovery is over (qpid/python/qpid/management.py). One channel and a broker
    that answers requests in order. */
module Discovery {
  import opened Wrappers
  import opened Sequences

  type Name = string

  datatype ClassKey = ClassKey(package: Name, name: Name, hash: seq<nat>)

  /** 'B', 'P', 'Q' and 'S'. */
  datatype Request =
    | BrokerRequest
    | PackageRequest(number: nat)
    | ClassQuery(number: nat, package: Name)
    | SchemaRequest(number: nat, key: ClassKey)

  /** 'b', 'p', 'q', 'z' and 's'. */
  datatype Reply =
    | BrokerResponse
    | PackageInd(package: Name)
    | ClassInd(kind: nat, key: ClassKey)
    | CommandComplete(number: nat)
    | SchemaResponse(kind: nat, key: ClassKey)

  datatype Context = Outstanding | Other

  /** `loaded` counts the CTRL_SCHEMA_LOADED callbacks, and `atLoaded` is what the
      last of them finds in `schema`. The description of a class is left out. */
  datatype Client = Client(
    reqs: int, packages: map<Name, set<(Name, seq<nat>)>>, schema: set<ClassKey>,
    sequence: nat, pending: map<nat, Context>, loaded: nat, atLoaded: set<ClassKey>)

  // ----- The handlers -----

  function Reserved(c: Client): Client
  {
    c.(sequence := c.sequence + 1, pending := c.pending[c.sequence := Outstanding])
  }

  function Increased(c: Client): Client
  {
    c.(reqs := c.reqs + 1)
  }

  function Decreased(c: Client): Client
  {
    var d := c.(reqs := c.reqs - 1);
    if d.reqs == 0 then d.(loaded := d.loaded + 1, atLoaded := d.schema) else d
  }

  function Handled(c: Client, m: Reply): (Client, seq<Request>)
  {
    match m
    case BrokerResponse => (Reserved(c), [PackageRequest(c.sequence)])
    case PackageInd(package) =>
      if package in c.packages then (c, [])
      else (Increased(Reserved(c.(packages := c.packages[package := {}]))), [ClassQuery(c.sequence, package)])
    case ClassInd(kind, key) =>
      if kind != 1 || key.package !in c.packages || (key.name, key.hash) in c.packages[key.package] then (c, [])
      else (Increased(Reserved(c)), [SchemaRequest(c.sequence, key)])
    case CommandComplete(n) =>
      if n !in c.pending then (c, [])
      else
        var d := c.(pending := c.pending - {n});
        (if c.pending[n] == Outstanding then Decreased(d) else d, [])
    case SchemaResponse(kind, key) =>
      var d := Decreased(c);
      (if kind != 1 || key.package !in d.packages || (key.name, key.hash) in d.packages[key.package] then d
       else d.(schema := d.schema + {key}), [])
  }

  class SequenceManager {
    var sequence: nat
    var pending: map<nat, Context>

    constructor ()
      ensures sequence == 0 && pending == map[]
    {
      sequence, pending := 0, map[];
    }

    method Reserve(data: Context) returns (result: nat)
      modifies this
      ensures result == old(sequence) && sequence == old(sequence) + 1
      ensures pending == old(pending)[result := data]
    {
      result := sequence;
      sequence := sequence + 1;
      pending := pending[result := data];
    }

    method Release(n: nat) returns (data: Option<Context>)
      modifies this
      ensures sequence == old(sequence) && pending == old(pending) - {n}
      ensures data == if n in old(pending) then Some(old(pending)[n]) else None
    {
      data := None;
      if n in pending {
        data := Some(pending[n]);
        pending := pending - {n};
      }
    }
  }

  class ManagementClient {
    var reqsOutstanding: int
    var packages: map<Name, set<(Name, seq<nat>)>>
    var schema: set<ClassKey>
    const seqMgr: SequenceManager
    var loaded: nat
    var atLoaded: set<ClassKey>
    var sent: seq<Request>

    function State(): Client
      reads this, seqMgr
    {
      Client(reqsOutstanding, packages, schema, seqMgr.sequence, seqMgr.pending, loaded, atLoaded)
    }

    constructor ()
      ensures fresh(seqMgr) && State() == Client(0, map[], {}, 0, map[], 0, {}) && sent == []
    {
      reqsOutstanding, packages, schema, loaded, atLoaded, sent := 0, map[], {}, 0, {}, [];
      seqMgr := new SequenceManager();
    }

    method AddChannel()
      modifies this
      ensures State() == Increased(old(State())) && sent == old(sent) + [BrokerRequest]
    {
      IncOutstanding();
      sent := sent + [BrokerRequest];
    }

    method IncOutstanding()
      modifies this`reqsOutstanding
      ensures State() == Increased(old(State()))
    {
      reqsOutstanding := reqsOutstanding + 1;
    }

    method DecOutstanding()
      modifies this`reqsOutstanding, this`loaded, this`atLoaded
      ensures State() == Decreased(old(State()))
    {
      reqsOutstanding := reqsOutstanding - 1;
      if reqsOutstanding == 0 {
        loaded := loaded + 1;
        atLoaded := schema;
      }
    }

    method HandleBrokerResponse()
      modifies this, seqMgr
      ensures var h := Handled(old(State()), BrokerResponse);
              State() == h.0 && sent == old(sent) + h.1
    {
      var n := seqMgr.Reserve(Outstanding);
      sent := sent + [PackageRequest(n)];
    }

    method HandlePackageInd(pname: Name)
      modifies this, seqMgr
      ensures var h := Handled(old(State()), PackageInd(pname));
              State() == h.0 && sent == old(sent) + h.1
    {
      if pname !in packages {
        packages := packages[pname := {}];
        var n := seqMgr.Reserve(Outstanding);
        IncOutstanding();
        sent := sent + [ClassQuery(n, pname)];
      }
    }

    method HandleClassInd(kind: nat, key: ClassKey)
      modifies this, seqMgr
      ensures var h := Handled(old(State()), ClassInd(kind, key));
              State() == h.0 && sent == old(sent) + h.1
    {
      if kind != 1 {
        return;
      }
      if key.package !in packages {
        return;
      }
      if (key.name, key.hash) !in packages[key.package] {
        var n := seqMgr.Reserve(Outstanding);
        IncOutstanding();
        sent := sent + [SchemaRequest(n, key)];
      }
    }

    method HandleCommandComplete(n: nat)
      modifies this, seqMgr
      ensures var h := Handled(old(State()), CommandComplete(n));
              State() == h.0 && sent == old(sent) + h.1
    {
      var context := seqMgr.Release(n);
      if context == Some(Outstanding) {
        DecOutstanding();
      }
      assert n !in old(seqMgr.pending) ==> seqMgr.pending == old(seqMgr.pending);
    }

    method ParseSchema(kind: nat, key: ClassKey)
      modifies this
      ensures var h := Handled(old(State()), SchemaResponse(kind, key));
              State() == h.0 && sent == old(sent) + h.1
    {
      DecOutstanding();
      if kind != 1 {
        return;
      }
      if key.package !in packages {
        return;
      }
      if (key.name, key.hash) in packages[key.package] {
        return;
      }
      if key in schema {
        return;
      }
      schema := schema + {key};
    }
  }

  // ----- Client and broker -----

  /** The two queues, the packages and the classes of kind 1 that the client has
      been told of, and the packages that it has asked for. */
  datatype System = System(
    client: Client, toBroker: seq<Request>, toClient: seq<Reply>,
    packagesSeen: set<Name>, announced: seq<ClassKey>, asked: seq<Name>)

  /** The client handles the next reply, or the broker answers the next request
      with the packages, or the classes of the package, that it then has. */
  datatype Action = Deliver | Answer(packages: seq<Name>, classes: seq<Reply>)

  predicate ClassesOf(package: Name, classes: seq<Reply>)
  {
    forall i :: 0 <= i < |classes| ==> classes[i].ClassInd? && classes[i].key.package == package
  }

  function PackageInds(packages: seq<Name>): seq<Reply>
  {
    seq(|packages|, i requires 0 <= i < |packages| => PackageInd(packages[i]))
  }

  /** P is answered by any packages and one completion, Q by any classes of the
      package and one completion, S by one schema. */
  function Answers(r: Request, a: Action): seq<Reply>
    requires a.Answer?
  {
    match r
    case BrokerRequest => [BrokerResponse]
    case PackageRequest(n) => PackageInds(a.packages) + [CommandComplete(n)]
    case ClassQuery(n, package) => a.classes + [CommandComplete(n)]
    case SchemaRequest(_, key) => [SchemaResponse(1, key)]
  }

  predicate Enabled(s: System, a: Action)
  {
    match a
    case Deliver => s.toClient != []
    case Answer(packages, classes) =>
      s.toBroker != [] && (s.toBroker[0].ClassQuery? ==> ClassesOf(s.toBroker[0].package, classes))
  }

  function Asked(rs: seq<Request>): seq<Name>
  {
    if rs == [] then [] else (if rs[0].ClassQuery? then [rs[0].package] else []) + Asked(rs[1..])
  }

  function Step(s: System, a: Action): System
    requires Enabled(s, a)
  {
    match a
    case Deliver =>
      var m := s.toClient[0];
      var h := Handled(s.client, m);
      System(h.0, s.toBroker + h.1, s.toClient[1..],
             s.packagesSeen + (if m.PackageInd? then {m.package} else {}),
             s.announced + (if m.ClassInd? && m.kind == 1 then [m.key] else []),
             s.asked + Asked(h.1))
    case Answer(_, _) => s.(toBroker := s.toBroker[1..], toClient := s.toClient + Answers(s.toBroker[0], a))
  }

  ghost predicate Runs(s: System, actions: seq<Action>)
    decreases |actions|
  {
    actions != [] ==> Enabled(s, actions[0]) && Runs(Step(s, actions[0]), actions[1..])
  }

  function Run(s: System, actions: seq<Action>): System
    requires Runs(s, actions)
    decreases |actions|
  {
    if actions == [] then s else Run(Step(s, actions[0]), actions[1..])
  }

  /** A new client whose channel has just been added. */
  function Start(): System
  {
    System(Client(1, map[], {}, 0, map[], 0, {}), [BrokerRequest], [], {}, [], [])
  }

  // ----- What every step keeps -----

  /** The reply that answers its request. */
  predicate Final(m: Reply)
  {
    m.BrokerResponse? || m.CommandComplete? || m.SchemaResponse?
  }

  function Finals(ms: seq<Reply>): nat
  {
    if ms == [] then 0 else (if Final(ms[0]) then 1 else 0) + Finals(ms[1..])
  }

  /** The requests that have not been answered. */
  function Unanswered(s: System): nat
  {
    |s.toBroker| + Finals(s.toClient)
  }

  /** The sequence numbers that completions will release, in the order in which
      they will come. */
  function Completions(ms: seq<Reply>): seq<nat>
  {
    if ms == [] then [] else (if ms[0].CommandComplete? then [ms[0].number] else []) + Completions(ms[1..])
  }

  function Queries(rs: seq<Request>): seq<nat>
  {
    if rs == [] then []
    else (if rs[0].PackageRequest? || rs[0].ClassQuery? then [rs[0].number] else []) + Queries(rs[1..])
  }

  /** Strictly increasing, below the next number, and all pending. */
  ghost predicate Waiting(c: Client, ns: seq<nat>)
  {
    && (forall i :: 0 <= i < |ns| ==> ns[i] < c.sequence && ns[i] in c.pending && c.pending[ns[i]] == Outstanding)
    && (forall i, j :: 0 <= i < j < |ns| ==> ns[i] < ns[j])
  }

  ghost predicate RequestKnown(s: System, r: Request)
  {
    && (r.ClassQuery? ==> r.package in s.client.packages)
    && (r.SchemaRequest? ==> r.key.package in s.client.packages)
  }

  ghost predicate ReplyKnown(s: System, m: Reply)
  {
    && (m.ClassInd? ==> m.key.package in s.client.packages)
    && (m.SchemaResponse? ==> m.kind == 1 && m.key.package in s.client.packages)
  }

  /** The classes whose schema is asked for in these requests. */
  function Wanted(rs: seq<Request>): seq<ClassKey>
  {
    if rs == [] then [] else (if rs[0].SchemaRequest? then [rs[0].key] else []) + Wanted(rs[1..])
  }

  /** The classes whose schema is in these replies. */
  function Described(ms: seq<Reply>): seq<ClassKey>
  {
    if ms == [] then [] else (if ms[0].SchemaResponse? then [ms[0].key] else []) + Described(ms[1..])
  }

  function Classes(keys: seq<ClassKey>): set<ClassKey>
  {
    set key | key in keys
  }

  /** The schemata still to come, in the order in which they will come. */
  function ToCome(s: System): seq<ClassKey>
  {
    Described(s.toClient) + Wanted(s.toBroker)
  }

  /** The schemata that have come are those of the classes announced first. */
  ghost predicate InOrder(s: System, come: seq<ClassKey>)
  {
    s.announced == come + ToCome(s) && s.client.schema == Classes(come)
  }

  ghost predicate Distinct(names: seq<Name>)
  {
    forall i, j :: 0 <= i < j < |names| ==> names[i] != names[j]
  }

  /** The last reply on its way answers something, so that indications are always
      followed by what they belong to. */
  ghost predicate EndsFinal(ms: seq<Reply>)
  {
    ms != [] ==> Final(ms[|ms| - 1])
  }

  ghost predicate Counted(s: System)
  {
    && s.client.reqs == Unanswered(s)
    && s.client.loaded == (if Unanswered(s) == 0 then 1 else 0)
    && Waiting(s.client, Completions(s.toClient) + Queries(s.toBroker))
    && EndsFinal(s.toClient)
  }

  ghost predicate PackagesKept(s: System)
  {
    && s.packagesSeen == s.client.packages.Keys
    && (forall p :: p in s.client.packages ==> s.client.packages[p] == {})
    && Distinct(s.asked) && (forall p :: p in s.asked <==> p in s.client.packages)
  }

  ghost predicate ClassesKept(s: System)
  {
    && (forall i :: 0 <= i < |s.toBroker| ==> RequestKnown(s, s.toBroker[i]))
    && (forall i :: 0 <= i < |s.toClient| ==> ReplyKnown(s, s.toClient[i]))
    && |ToCome(s)| <= |s.announced|
    && InOrder(s, s.announced[..|s.announced| - |ToCome(s)|])
  }

  /** What comes before the first class is announced. */
  predicate Early(r: Request)
  {
    r.BrokerRequest? || r.PackageRequest?
  }

  /** The opening exchange has the queues to itself. */
  ghost predicate Opening(s: System)
  {
    && (forall i :: 0 <= i < |s.toBroker| && Early(s.toBroker[i]) ==> |s.toBroker| == 1 && s.toClient == [])
    && (forall i :: 0 <= i < |s.toClient| && s.toClient[i].BrokerResponse? ==> |s.toClient| == 1 && s.toBroker == [])
  }

  /** All packages are indicated before the first class. */
  ghost predicate PackagesFirst(s: System)
  {
    && (forall i, j :: 0 <= i < j < |s.toClient| && s.toClient[j].PackageInd? ==> !s.toClient[i].ClassInd?)
    && (s.announced != [] ==>
          && (forall i :: 0 <= i < |s.toBroker| ==> !Early(s.toBroker[i]))
          && (forall i :: 0 <= i < |s.toClient| ==> !s.toClient[i].PackageInd? && !s.toClient[i].BrokerResponse?))
  }

  /** Once a class is announced, the last thing on its way is a schema. */
  ghost predicate SchemaLast(s: System)
  {
    s.announced != [] ==>
      if s.toBroker != [] then s.toBroker[|s.toBroker| - 1].SchemaRequest?
      else s.toClient != [] ==> s.toClient[|s.toClient| - 1].SchemaResponse?
  }

  ghost predicate StagesKept(s: System)
  {
    Opening(s) && PackagesFirst(s) && SchemaLast(s)
  }

  lemma {:induction false} FinalsAppend(a: seq<Reply>, b: seq<Reply>)
    ensures Finals(a + b) == Finals(a) + Finals(b)
    ensures Completions(a + b) == Completions(a) + Completions(b)
  {
    if a == [] {
      assert a + b == b;
    } else {
      assert (a + b)[1..] == a[1..] + b && (a + b)[0] == a[0];
      FinalsAppend(a[1..], b);
      Associate(if a[0].CommandComplete? then [a[0].number] else [], Completions(a[1..]), Completions(b));
    }
  }

  lemma {:induction false} QueriesAppend(a: seq<Request>, r: Request)
    ensures Queries(a + [r]) == Queries(a) + (if r.PackageRequest? || r.ClassQuery? then [r.number] else [])
  {
    if a == [] {
      assert a + [r] == [r] && [r][1..] == [];
    } else {
      assert (a + [r])[1..] == a[1..] + [r] && (a + [r])[0] == a[0];
      QueriesAppend(a[1..], r);
      Associate(if a[0].PackageRequest? || a[0].ClassQuery? then [a[0].number] else [], Queries(a[1..]),
                if r.PackageRequest? || r.ClassQuery? then [r.number] else []);
    }
  }

  lemma {:induction false} NoFinals(ms: seq<Reply>)
    requires forall i :: 0 <= i < |ms| ==> !Final(ms[i])
    ensures Finals(ms) == 0 && Completions(ms) == []
  {
    if ms != [] {
      NoFinals(ms[1..]);
    }
  }

  lemma {:induction false} EndsFinalCounts(ms: seq<Reply>)
    requires ms != [] && EndsFinal(ms)
    ensures Finals(ms) > 0
  {
    if |ms| > 1 {
      EndsFinalCounts(ms[1..]);
    }
  }

  /** Every answer has one final reply, its last, and completes its request's own
      number. */
  lemma AnswersComplete(r: Request, a: Action)
    requires a.Answer? && (r.ClassQuery? ==> ClassesOf(r.package, a.classes))
    ensures Finals(Answers(r, a)) == 1 && EndsFinal(Answers(r, a)) && Answers(r, a) != []
    ensures Completions(Answers(r, a)) == if r.PackageRequest? || r.ClassQuery? then [r.number] else []
  {
    var ms := Answers(r, a);
    var last := ms[|ms| - 1];
    var before := ms[..|ms| - 1];
    assert ms == before + [last];
    FinalsAppend(before, [last]);
    assert [last][1..] == [];
    if r.PackageRequest? {
      assert before == PackageInds(a.packages);
    } else if r.ClassQuery? {
      assert before == a.classes;
    } else {
      assert before == [];
    }
    NoFinals(before);
  }

  /** An answer takes over its request's place among the numbers to come. */
  lemma AnswerInPlace(toClient: seq<Reply>, toBroker: seq<Request>, ans: seq<Reply>)
    requires toBroker != []
    requires Completions(ans)
             == if toBroker[0].PackageRequest? || toBroker[0].ClassQuery? then [toBroker[0].number] else []
    ensures Completions(toClient + ans) + Queries(toBroker[1..]) == Completions(toClient) + Queries(toBroker)
  {
    FinalsAppend(toClient, ans);
    Associate(Completions(toClient), Completions(ans), Queries(toBroker[1..]));
  }

  lemma EndsFinalAppends(a: seq<Reply>, b: seq<Reply>)
    requires b != [] && EndsFinal(b)
    ensures EndsFinal(a + b)
  {
    assert (a + b)[|a + b| - 1] == b[|b| - 1];
  }

  lemma AnswerKeepsCount(s: System, a: Action)
    requires Counted(s) && Enabled(s, a) && a.Answer?
    ensures Counted(Step(s, a))
  {
    var ans := Answers(s.toBroker[0], a);
    AnswersComplete(s.toBroker[0], a);
    FinalsAppend(s.toClient, ans);
    AnswerInPlace(s.toClient, s.toBroker, ans);
    EndsFinalAppends(s.toClient, ans);
    AnswerCounts(s, Step(s, a), ans);
  }

  lemma AnswerCounts(s: System, t: System, ans: seq<Reply>)
    requires Counted(s) && s.toBroker != [] && t.client == s.client
    requires t.toClient == s.toClient + ans && t.toBroker == s.toBroker[1..] && EndsFinal(t.toClient)
    requires Finals(t.toClient) == Finals(s.toClient) + 1
    requires Completions(t.toClient) + Queries(t.toBroker) == Completions(s.toClient) + Queries(s.toBroker)
    ensures Counted(t)
  {
    assert Unanswered(t) == Unanswered(s);
  }

  /** Sending a query reserves a number above those that are waiting. */
  lemma ReservedWaits(c: Client, ns: seq<nat>)
    requires Waiting(c, ns)
    ensures Waiting(Reserved(c), ns) && Waiting(Reserved(c), ns + [c.sequence])
  {
  }

  lemma ReleasedWaits(c: Client, ns: seq<nat>)
    requires Waiting(c, ns) && ns != []
    ensures Waiting(c.(pending := c.pending - {ns[0]}), ns[1..])
  {
  }

  /** What a handled reply does to the count. */
  lemma DeliverCounts(s: System)
    requires Counted(s) && PackagesKept(s) && s.toClient != []
    ensures var t := Step(s, Deliver);
            && t.client.reqs == Unanswered(t)
            && t.client.loaded == (if Unanswered(t) == 0 then 1 else 0)
            && EndsFinal(t.toClient)
  {
    var m, rest := s.toClient[0], s.toClient[1..];
    EndsFinalCounts(s.toClient);
    assert rest != [] ==> rest[|rest| - 1] == s.toClient[|s.toClient| - 1];
    if m.CommandComplete? {
      var ns := Completions(s.toClient) + Queries(s.toBroker);
      assert ns[0] == m.number;
    }
  }

  /** A handler that sends nothing leaves the numbers alone, unless it releases one. */
  lemma SilentHandler(c: Client, m: Reply)
    requires Handled(c, m).1 == [] && !m.CommandComplete?
    ensures Handled(c, m).0.sequence == c.sequence && Handled(c, m).0.pending == c.pending
  {
  }

  lemma SendingHandler(c: Client, m: Reply)
    requires Handled(c, m).1 != []
    ensures !m.CommandComplete? && |Handled(c, m).1| == 1
    ensures var r := Handled(c, m).1[0]; !r.BrokerRequest? && r.number == c.sequence
    ensures Handled(c, m).0.sequence == Reserved(c).sequence && Handled(c, m).0.pending == Reserved(c).pending
  {
  }

  lemma DeliverWaits(s: System)
    requires Counted(s) && PackagesKept(s) && s.toClient != []
    ensures var t := Step(s, Deliver); Waiting(t.client, Completions(t.toClient) + Queries(t.toBroker))
  {
    var m, rest := s.toClient[0], Completions(s.toClient[1..]);
    var h := Handled(s.client, m);
    if h.1 != [] {
      SendingHandler(s.client, m);
      assert Completions(s.toClient) == [] + rest == rest;
      SentWaits(s.client, rest, s.toBroker, h.1[0]);
      assert h.1 == [h.1[0]];
    } else {
      assert s.toBroker + [] == s.toBroker;
      if m.CommandComplete? {
        CompletedWaits(s.client, m.number, rest, Queries(s.toBroker));
      } else {
        SilentHandler(s.client, m);
        assert Completions(s.toClient) == [] + rest == rest;
      }
    }
  }

  lemma CompletedWaits(c: Client, n: nat, completions: seq<nat>, queries: seq<nat>)
    requires Waiting(c, ([n] + completions) + queries)
    ensures n in c.pending && c.pending[n] == Outstanding
    ensures Waiting(c.(pending := c.pending - {n}), completions + queries)
  {
    var ns := ([n] + completions) + queries;
    assert ns[0] == n && ns[1..] == completions + queries;
    ReleasedWaits(c, ns);
  }

  lemma SentWaits(c: Client, completions: seq<nat>, toBroker: seq<Request>, r: Request)
    requires Waiting(c, completions + Queries(toBroker))
    requires !r.BrokerRequest? && r.number == c.sequence
    ensures Waiting(Reserved(c), completions + Queries(toBroker + [r]))
  {
    QueriesAppend(toBroker, r);
    ReservedWaits(c, completions + Queries(toBroker));
    if r.SchemaRequest? {
      assert Queries(toBroker) + [] == Queries(toBroker);
    } else {
      Associate(completions, Queries(toBroker), [c.sequence]);
    }
  }

  lemma DeliverKeepsPackages(s: System)
    requires PackagesKept(s) && s.toClient != []
    ensures PackagesKept(Step(s, Deliver))
  {
    var m := s.toClient[0];
    var out := Handled(s.client, m).1;
    if out != [] {
      assert out[1..] == [];
    }
    var t := Step(s, Deliver);
    if m.PackageInd? && m.package !in s.client.packages {
      assert Asked(out) == [m.package] + [] == [m.package];
      assert t.asked == s.asked + [m.package];
    } else {
      assert out != [] ==> Asked(out) == [] + [] == [];
      assert t.asked == s.asked;
    }
  }

  lemma {:induction false} DescribedAppends(a: seq<Reply>, b: seq<Reply>)
    ensures Described(a + b) == Described(a) + Described(b)
  {
    if a == [] {
      assert a + b == b;
    } else {
      assert (a + b)[1..] == a[1..] + b && (a + b)[0] == a[0];
      DescribedAppends(a[1..], b);
      Associate(if a[0].SchemaResponse? then [a[0].key] else [], Described(a[1..]), Described(b));
    }
  }

  lemma {:induction false} WantedAppends(a: seq<Request>, r: Request)
    ensures Wanted(a + [r]) == Wanted(a) + (if r.SchemaRequest? then [r.key] else [])
  {
    if a == [] {
      assert a + [r] == [r] && [r][1..] == [];
    } else {
      assert (a + [r])[1..] == a[1..] + [r] && (a + [r])[0] == a[0];
      WantedAppends(a[1..], r);
      Associate(if a[0].SchemaRequest? then [a[0].key] else [], Wanted(a[1..]),
                if r.SchemaRequest? then [r.key] else []);
    }
  }

  lemma {:induction false} NoneDescribed(ms: seq<Reply>)
    requires forall i :: 0 <= i < |ms| ==> !ms[i].SchemaResponse?
    ensures Described(ms) == []
  {
    if ms != [] {
      NoneDescribed(ms[1..]);
    }
  }

  /** The schemata to come, before and after one reply is handled. */
  lemma DeliverToCome(s: System)
    requires PackagesKept(s) && ClassesKept(s) && s.toClient != []
    ensures var m, t := s.toClient[0], Step(s, Deliver);
            if m.SchemaResponse? then ToCome(s) == [m.key] + ToCome(t)
            else ToCome(t) == ToCome(s) + (if m.ClassInd? && m.kind == 1 then [m.key] else [])
  {
    var m, t := s.toClient[0], Step(s, Deliver);
    var h := Handled(s.client, m);
    assert ReplyKnown(s, m);
    var rest := Described(s.toClient[1..]);
    if h.1 != [] {
      SendingHandler(s.client, m);
      assert h.1 == [h.1[0]];
      WantedAppends(s.toBroker, h.1[0]);
      Associate(rest, Wanted(s.toBroker), if m.ClassInd? then [m.key] else []);
    } else {
      assert s.toBroker + [] == s.toBroker;
    }
    if m.SchemaResponse? {
      Associate([m.key], rest, Wanted(s.toBroker));
    } else {
      assert Described(s.toClient) == [] + rest == rest;
    }
  }

  lemma ClassesGrow(come: seq<ClassKey>, key: ClassKey)
    ensures Classes(come + [key]) == Classes(come) + {key}
  {
  }

  /** What has come and what is to come are told apart by the lengths. */
  lemma Come(s: System, come: seq<ClassKey>)
    requires InOrder(s, come)
    ensures |ToCome(s)| <= |s.announced| && come == s.announced[..|s.announced| - |ToCome(s)|]
  {
  }

  lemma DeliverKeepsOrder(s: System)
    requires PackagesKept(s) && ClassesKept(s) && s.toClient != []
    ensures var come, m := s.announced[..|s.announced| - |ToCome(s)|], s.toClient[0];
            InOrder(Step(s, Deliver), if m.SchemaResponse? then come + [m.key] else come)
  {
    var m, t := s.toClient[0], Step(s, Deliver);
    var come := s.announced[..|s.announced| - |ToCome(s)|];
    assert ReplyKnown(s, m);
    DeliverToCome(s);
    if m.SchemaResponse? {
      Associate(come, [m.key], ToCome(t));
      ClassesGrow(come, m.key);
      assert s.announced + [] == s.announced;
    } else {
      Associate(come, ToCome(s), if m.ClassInd? && m.kind == 1 then [m.key] else []);
    }
  }

  lemma DeliverKeepsClasses(s: System)
    requires PackagesKept(s) && ClassesKept(s) && s.toClient != []
    ensures ClassesKept(Step(s, Deliver))
  {
    var t := Step(s, Deliver);
    var m := s.toClient[0];
    assert ReplyKnown(s, m);
    forall i | 0 <= i < |t.toBroker|
      ensures RequestKnown(t, t.toBroker[i])
    {
      assert i < |s.toBroker| ==> RequestKnown(s, s.toBroker[i]) && t.toBroker[i] == s.toBroker[i];
    }
    forall i | 0 <= i < |t.toClient|
      ensures ReplyKnown(t, t.toClient[i])
    {
      assert ReplyKnown(s, s.toClient[i + 1]);
    }
    DeliverKeepsOrder(s);
    var come := s.announced[..|s.announced| - |ToCome(s)|];
    Come(t, if m.SchemaResponse? then come + [m.key] else come);
  }

  lemma AnswerToCome(s: System, a: Action)
    requires Enabled(s, a) && a.Answer?
    ensures ToCome(Step(s, a)) == ToCome(s)
  {
    var r := s.toBroker[0];
    var ans, rest := Answers(r, a), Wanted(s.toBroker[1..]);
    DescribedAppends(s.toClient, ans);
    if r.SchemaRequest? {
      assert ans[1..] == [];
      Associate(Described(s.toClient), [r.key], rest);
    } else {
      NoneDescribed(ans);
      assert Wanted(s.toBroker) == [] + rest == rest;
      assert Described(s.toClient) + [] == Described(s.toClient);
    }
  }

  lemma AnswerKeepsClasses(s: System, a: Action)
    requires ClassesKept(s) && Enabled(s, a) && a.Answer?
    ensures ClassesKept(Step(s, a))
  {
    var t := Step(s, a);
    assert RequestKnown(s, s.toBroker[0]);
    forall i | 0 <= i < |t.toBroker|
      ensures RequestKnown(t, t.toBroker[i])
    {
      assert RequestKnown(s, s.toBroker[i + 1]);
    }
    forall i | 0 <= i < |t.toClient|
      ensures ReplyKnown(t, t.toClient[i])
    {
      if i < |s.toClient| {
        assert ReplyKnown(s, s.toClient[i]);
      } else {
        assert t.toClient[i] == Answers(s.toBroker[0], a)[i - |s.toClient|];
      }
    }
    AnswerToCome(s, a);
  }

  // ----- Every class is announced before the first schema comes -----

  /** A reply was handled: `out` was sent, and a class announced exactly when its
      schema was asked for. */
  ghost predicate Moves(s: System, t: System, out: seq<Request>)
  {
    && s.toClient != [] && t.toClient == s.toClient[1..] && t.toBroker == s.toBroker + out
    && var m := s.toClient[0];
    && (out == [] || (|out| == 1 && match out[0]
                                    case BrokerRequest => false
                                    case PackageRequest(_) => m.BrokerResponse?
                                    case ClassQuery(_, _) => m.PackageInd?
                                    case SchemaRequest(_, key) => m.ClassInd? && m.key == key))
    && t.announced == s.announced + (if out != [] && out[0].SchemaRequest? then [out[0].key] else [])
  }

  lemma DeliverMoves(s: System)
    requires PackagesKept(s) && ClassesKept(s) && s.toClient != []
    ensures Moves(s, Step(s, Deliver), Handled(s.client, s.toClient[0]).1)
  {
    assert ReplyKnown(s, s.toClient[0]);
  }

  lemma OpeningMoves(s: System, t: System, out: seq<Request>)
    requires Opening(s) && Moves(s, t, out)
    ensures Opening(t)
  {
    forall i | 0 <= i < |t.toClient|
      ensures t.toClient[i] == s.toClient[i + 1]
    {
    }
  }

  lemma PackagesFirstMoves(s: System, t: System, out: seq<Request>)
    requires Opening(s) && PackagesFirst(s) && Moves(s, t, out)
    ensures PackagesFirst(t)
  {
    forall i | 0 <= i < |t.toClient|
      ensures t.toClient[i] == s.toClient[i + 1]
    {
    }
  }

  lemma SchemaLastMoves(s: System, t: System, out: seq<Request>)
    requires PackagesFirst(s) && SchemaLast(s) && Moves(s, t, out)
    ensures SchemaLast(t)
  {
    if out == [] {
      assert s.toBroker + [] == s.toBroker && s.announced + [] == s.announced;
      assert t.toClient != [] ==> t.toClient[|t.toClient| - 1] == s.toClient[|s.toClient| - 1];
    } else {
      assert t.toBroker[|t.toBroker| - 1] == out[0];
      assert s.toClient[0].PackageInd? || s.toClient[0].BrokerResponse? ==> s.announced == [];
    }
  }

  lemma DeliverKeepsStages(s: System)
    requires PackagesKept(s) && ClassesKept(s) && StagesKept(s) && s.toClient != []
    ensures StagesKept(Step(s, Deliver))
  {
    DeliverMoves(s);
    var t, out := Step(s, Deliver), Handled(s.client, s.toClient[0]).1;
    OpeningMoves(s, t, out);
    PackagesFirstMoves(s, t, out);
    SchemaLastMoves(s, t, out);
  }

  lemma AnswerKeepsStages(s: System, a: Action)
    requires StagesKept(s) && Enabled(s, a) && a.Answer?
    ensures StagesKept(Step(s, a))
  {
    var t, ans := Step(s, a), Answers(s.toBroker[0], a);
    forall i | |s.toClient| <= i < |t.toClient|
      ensures t.toClient[i] == ans[i - |s.toClient|]
    {
    }
  }

  /** All but the last. */
  function Front(keys: seq<ClassKey>): seq<ClassKey>
  {
    if keys == [] then [] else keys[..|keys| - 1]
  }

  /** The callback finds the schemata of all classes announced but the last. */
  ghost predicate LoadedKept(s: System)
  {
    s.client.loaded > 0 ==> s.client.atLoaded == Classes(Front(s.announced))
  }

  ghost predicate Invariant(s: System)
  {
    Counted(s) && PackagesKept(s) && ClassesKept(s) && StagesKept(s) && LoadedKept(s)
  }

  /** Nothing is left when the count comes to zero. */
  lemma NothingOnItsWay(s: System)
    requires Counted(s) && Unanswered(s) == 0
    ensures s.toBroker == [] && s.toClient == []
  {
    if s.toClient != [] {
      EndsFinalCounts(s.toClient);
    }
  }

  lemma DeliverKeepsLoaded(s: System)
    requires Invariant(s) && s.toClient != []
    requires Counted(Step(s, Deliver))
    ensures LoadedKept(Step(s, Deliver))
  {
    var m, t := s.toClient[0], Step(s, Deliver);
    EndsFinalCounts(s.toClient);
    if t.client.loaded > 0 {
      NothingOnItsWay(t);
      assert s.toClient == [m];
      DeliverMoves(s);
      LastDelivered(s, m);
      CallbackSees(s.client, m);
      assert t.announced == s.announced + [] == s.announced;
      assert Classes([]) == {};
    }
  }

  lemma CallbackSees(c: Client, m: Reply)
    requires Handled(c, m).0.loaded != c.loaded
    ensures Handled(c, m).0.atLoaded == c.schema && (m.CommandComplete? || m.SchemaResponse?)
  {
  }

  /** The reply that brings the count to zero. */
  lemma LastDelivered(s: System, m: Reply)
    requires Invariant(s) && s.toClient == [m] && s.toBroker == []
    ensures m.SchemaResponse? ==> s.announced != [] && s.client.schema == Classes(Front(s.announced))
    ensures !m.SchemaResponse? ==> s.announced == [] && s.client.schema == {}
  {
    assert [m][1..] == [];
    assert ToCome(s) == Described([m]) == if m.SchemaResponse? then [m.key] else [];
  }

  lemma StepKeeps(s: System, a: Action)
    requires Invariant(s) && Enabled(s, a)
    ensures Invariant(Step(s, a))
  {
    if a.Deliver? {
      DeliverCounts(s);
      DeliverWaits(s);
      DeliverKeepsPackages(s);
      DeliverKeepsClasses(s);
      DeliverKeepsStages(s);
      DeliverKeepsLoaded(s);
    } else {
      AnswerKeepsCount(s, a);
      AnswerKeepsClasses(s, a);
      AnswerKeepsStages(s, a);
      AnswersComplete(s.toBroker[0], a);
    }
  }

  lemma {:induction false} RunKeeps(s: System, actions: seq<Action>)
    requires Invariant(s) && Runs(s, actions)
    ensures Invariant(Run(s, actions))
    decreases |actions|
  {
    if actions != [] {
      StepKeeps(s, actions[0]);
      RunKeeps(Step(s, actions[0]), actions[1..]);
    }
  }

  lemma StartKeeps()
    ensures Invariant(Start())
  {
    assert Queries([BrokerRequest]) == [] && Wanted([BrokerRequest]) == [] by {
      assert [BrokerRequest][1..] == [];
    }
    assert Classes([]) == {};
  }

  /** In every state that can be reached, between two handlers: the counter is the
      number of requests that have not been answered, so it is never negative, and
      it is zero exactly when nothing is on its way in either direction. */
  lemma CounterDetectsTheEnd(actions: seq<Action>)
    requires Runs(Start(), actions)
    ensures var s := Run(Start(), actions);
            && s.client.reqs == Unanswered(s) >= 0
            && (s.client.reqs == 0 <==> s.toBroker == [] && s.toClient == [])
            && s.client.loaded == (if s.client.reqs == 0 then 1 else 0)
  {
    StartKeeps();
    RunKeeps(Start(), actions);
    var s := Run(Start(), actions);
    if s.toClient != [] {
      EndsFinalCounts(s.toClient);
    }
  }

  /** When the counter is zero, every package announced has been asked for its
      classes, once, and the schema holds exactly the classes of kind 1 that were
      announced. */
  lemma ZeroMeansComplete(actions: seq<Action>)
    requires Runs(Start(), actions) && Run(Start(), actions).client.reqs == 0
    ensures var s := Run(Start(), actions);
            && Distinct(s.asked) && (forall p :: p in s.asked <==> p in s.packagesSeen)
            && s.client.schema == Classes(s.announced)
  {
    StartKeeps();
    RunKeeps(Start(), actions);
    var s := Run(Start(), actions);
    NothingOnItsWay(s);
    SchemaComplete(s);
  }

  /** The callback always comes before the schema of the class announced last is
      stored: it finds the schemata of those before it. So it misses one exactly
      when a class was announced and the last of them had not been before. */
  lemma CallbackMissesTheLast(actions: seq<Action>)
    requires Runs(Start(), actions) && Run(Start(), actions).client.reqs == 0
    ensures var s := Run(Start(), actions);
            && s.client.loaded == 1
            && s.client.atLoaded == Classes(Front(s.announced))
            && (s.announced != [] ==> s.client.schema == s.client.atLoaded + {s.announced[|s.announced| - 1]})
            && (s.client.atLoaded == s.client.schema
                <==> s.announced == [] || s.announced[|s.announced| - 1] in Front(s.announced))
  {
    StartKeeps();
    RunKeeps(Start(), actions);
    ZeroMeansComplete(actions);
    FrontMissesTheLast(Run(Start(), actions).announced);
  }

  lemma FrontMissesTheLast(keys: seq<ClassKey>)
    ensures keys != [] ==> Classes(keys) == Classes(Front(keys)) + {keys[|keys| - 1]}
    ensures Classes(Front(keys)) == Classes(keys) <==> keys == [] || keys[|keys| - 1] in Front(keys)
  {
    if keys != [] {
      assert keys == Front(keys) + [keys[|keys| - 1]];
      ClassesGrow(Front(keys), keys[|keys| - 1]);
      assert keys[|keys| - 1] in Classes(Front(keys)) <==> keys[|keys| - 1] in Front(keys);
    }
  }

  /** The reply that brings the count to zero describes a class whenever one was
      announced, and the callback then finds the schemata that came before it. */
  lemma CallbackMayMissTheLast(actions: seq<Action>, s: System)
    requires Runs(Start(), actions) && s == Run(Start(), actions)
    requires s.client.reqs == 1 && s.toClient != [] && Step(s, Deliver).client.reqs == 0
    ensures s.toClient[0].SchemaResponse? <==> s.announced != []
    ensures var t := Step(s, Deliver);
            && t.client.loaded == 1
            && t.client.schema == Classes(t.announced)
            && (t.client.atLoaded == Classes(t.announced)
                <==> !(s.toClient[0].SchemaResponse? && s.toClient[0].key !in s.client.schema))
  {
    StartKeeps();
    RunKeeps(Start(), actions);
    StepKeeps(s, Deliver);
    LastReply(s);
  }

  lemma LastReply(s: System)
    requires Invariant(s) && s.toClient != [] && Invariant(Step(s, Deliver)) && Step(s, Deliver).client.reqs == 0
    ensures s.toClient[0].SchemaResponse? <==> s.announced != []
    ensures var t := Step(s, Deliver);
            && t.client.loaded == 1
            && t.client.schema == Classes(t.announced)
            && (t.client.atLoaded == Classes(t.announced)
                <==> !(s.toClient[0].SchemaResponse? && s.toClient[0].key !in s.client.schema))
  {
    var m, t := s.toClient[0], Step(s, Deliver);
    NothingOnItsWay(t);
    assert s.toClient == [m];
    DeliverMoves(s);
    LastDelivered(s, m);
    SchemaComplete(t);
    assert ReplyKnown(s, m);
  }

  lemma SchemaComplete(s: System)
    requires ClassesKept(s) && s.toBroker == [] && s.toClient == []
    ensures s.client.schema == Classes(s.announced)
  {
    assert s.announced[..|s.announced|] == s.announced;
  }

  // ----- Replies that nobody asked for -----

  function CompletedAll(c: Client, ns: seq<nat>): Client
    decreases |ns|
  {
    if ns == [] then c else CompletedAll(Handled(c, CommandComplete(ns[0])).0, ns[1..])
  }

  /** The numbers among `ns` that were reserved for discovery and not completed yet. */
  function StillAwaited(c: Client, ns: seq<nat>): set<nat>
  {
    set n | n in ns && n in c.pending && c.pending[n] == Outstanding
  }

  /** What is pending in `c` and not among `ns` is what is pending in `d`. */
  ghost predicate Without(c: Client, ns: seq<nat>, d: Client)
  {
    forall n :: (n in d.pending <==> n in c.pending && n !in ns) && (n in d.pending ==> d.pending[n] == c.pending[n])
  }

  lemma OneCompletion(c: Client, n: nat)
    ensures var d := Handled(c, CommandComplete(n)).0;
            && Without(c, [n], d)
            && d.reqs == c.reqs - (if n in c.pending && c.pending[n] == Outstanding then 1 else 0)
            && d.packages == c.packages && d.schema == c.schema && d.sequence == c.sequence
  {
  }

  lemma AwaitedAfterOne(c: Client, n: nat, more: seq<nat>, d: Client)
    requires Without(c, [n], d)
    ensures |StillAwaited(c, [n] + more)|
            == |StillAwaited(d, more)| + if n in c.pending && c.pending[n] == Outstanding then 1 else 0
  {
    assert forall m :: m in [n] + more <==> m == n || m in more;
    if n in c.pending && c.pending[n] == Outstanding {
      assert StillAwaited(c, [n] + more) == {n} + StillAwaited(d, more);
      assert n !in StillAwaited(d, more);
    } else {
      assert StillAwaited(c, [n] + more) == StillAwaited(d, more);
    }
  }

  /** Completions with any numbers, repeated, unknown or reserved for something else:
      each number that was awaited counts once, and no other counts at all. */
  lemma {:induction false} CompletionsCountOnce(c: Client, ns: seq<nat>)
    ensures var d := CompletedAll(c, ns);
            && Without(c, ns, d)
            && d.reqs == c.reqs - |StillAwaited(c, ns)|
            && d.packages == c.packages && d.schema == c.schema && d.sequence == c.sequence
    decreases |ns|
  {
    if ns == [] {
      assert StillAwaited(c, ns) == {};
    } else {
      var n, more := ns[0], ns[1..];
      var d := Handled(c, CommandComplete(n)).0;
      OneCompletion(c, n);
      CompletionsCountOnce(d, more);
      AwaitedAfterOne(c, n, more, d);
      assert ns == [n] + more;
      assert forall m :: m in ns <==> m == n || m in more;
    }
  }

  /** A class that is announced is asked for exactly when it is of kind 1 and new in a
      known package, and anything else changes nothing. A schema that comes counts as
      an answer whatever it describes, and is stored under the same condition. */
  lemma OnlyNewClassesCount(c: Client, kind: nat, key: ClassKey)
    ensures var asked, answered := Handled(c, ClassInd(kind, key)), Handled(c, SchemaResponse(kind, key));
            var wanted := kind == 1 && key.package in c.packages && (key.name, key.hash) !in c.packages[key.package];
            && asked.1 == (if wanted then [SchemaRequest(c.sequence, key)] else [])
            && asked.0.reqs == c.reqs + |asked.1| && (!wanted ==> asked.0 == c)
            && answered.1 == [] && answered.0.reqs == c.reqs - 1 && answered.0.packages == c.packages
            && answered.0.schema == c.schema + (if wanted then {key} else {})
  {
  }
}
