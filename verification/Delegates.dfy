/** The handlers for the session controls (qpid/python/qpid/delegates.py). */
module Delegates {
  import opened Wrappers
  import opened Serials
  import opened RangedSets
  import opened Session

  /** What travels from receiver to sender. */
  datatype Backward = Completed(reported: seq<Range>, timelyReply: bool)

  /** A set crosses the wire only while its length in octets fits 16 bits; the
      reader adds the ranges one by one to an empty set. */
  predicate Encodable(s: seq<Range>)
  {
    8 * |s| <= 65535
  }

  function Reports(s: seq<Range>, timelyReply: bool): seq<Backward>
  {
    if Encodable(s) then [Completed(InsertAll([], s), timelyReply)] else []
  }

  function Replies(reported: seq<Range>, timelyReply: bool): seq<Forward>
  {
    if timelyReply && Encodable(reported) then [KnownCompleted(InsertAll([], reported))] else []
  }

  /** What a control does to the receiving end. */
  function Controlled(r: ReceiverState, m: Forward): ReceiverState
    requires !m.Transfer?
  {
    match m
    case CommandPoint(id) => r.(nextId := Some(id))
    case KnownCompleted(known) => Forgotten(r, known)
    case Flush(_) => r
  }

  /** What the receiving end sends back at once. */
  function Responses(r: ReceiverState, m: Forward): seq<Backward>
    requires !m.Transfer?
  {
    match m
    case CommandPoint(_) => []
    case KnownCompleted(_) => []
    case Flush(wantCompleted) => if wantCompleted then Reports(r.completed, false) else []
  }

  /** The controls that answer a flush. */
  datatype FlushReply =
    | SayExpected(next: Option<seq<Range>>)
    | SayConfirmed(commands: seq<Range>)
    | SayCompleted(control: Backward)

  /** The id of the next command as a set of its own. */
  function OneId(id: Option<Serial>): Option<seq<Range>>
  {
    if id.None? then None else Some([Range(id.value, id.value)])
  }

  /** The parts that were asked for, in this order; the sets arrive rebuilt. */
  function Flushed(r: ReceiverState, expected: bool, confirmed: bool, completed: bool): seq<FlushReply>
  {
    (if expected then [SayExpected(OneId(r.nextId))] else [])
    + (if confirmed && Encodable(r.completed) then [SayConfirmed(InsertAll([], r.completed))] else [])
    + ReportsOf(Responses(r, Flush(completed)))
  }

  function ReportsOf(controls: seq<Backward>): seq<FlushReply>
  {
    seq(|controls|, i requires 0 <= i < |controls| => SayCompleted(controls[i]))
  }

  class Delegate {
    const sender: Sender
    const receiver: Receiver

    constructor (sender: Sender, receiver: Receiver)
      ensures this.sender == sender && this.receiver == receiver
    {
      this.sender, this.receiver := sender, receiver;
    }

    method SessionCommandPoint(id: Serial)
      modifies receiver`nextId
      ensures receiver.State() == Controlled(old(receiver.State()), CommandPoint(id))
    {
      receiver.nextId := Some(id);
    }

    method SessionCompleted(reported: RangedSet, timelyReply: bool) returns (out: seq<Forward>)
      requires reported != sender.completed
      modifies sender, sender.completed
      ensures sender.State() == Acknowledged(old(sender.State()), old(reported.ranges))
      ensures out == Replies(old(reported.ranges), timelyReply)
    {
      sender.Completed(reported);
      out := [];
      if timelyReply {
        var m := Transmit(reported);
        out := if m.Some? then [KnownCompleted(m.value)] else [];
      }
    }

    method SessionKnownCompleted(known: RangedSet)
      modifies receiver`completed
      ensures receiver.State() == Controlled(old(receiver.State()), KnownCompleted(old(known.ranges)))
    {
      receiver.KnownCompleted(known);
    }

    method SessionFlush(expected: bool, confirmed: bool, completed: bool) returns (out: seq<FlushReply>)
      ensures out == Flushed(receiver.State(), expected, confirmed, completed)
    {
      out := [];
      if expected {
        var exp: Option<seq<Range>> := None;
        if receiver.nextId.Some? {
          var next := new RangedSet();
          next.Add(receiver.nextId.value, receiver.nextId.value);
          exp := Transmit(next);
          assert InsertAll([], next.ranges) == next.ranges by {
            assert next.ranges[1..] == [];
          }
        }
        out := out + [SayExpected(exp)];
      }
      if confirmed {
        var m := Transmit(receiver.completed);
        if m.None? {
          return;
        }
        out := out + [SayConfirmed(m.value)];
      }
      if completed {
        var m := Transmit(receiver.completed);
        if m.Some? {
          out := out + [SayCompleted(Completed(m.value, false))];
        }
      }
    }
  }

  /** `write_sequence_set` and `read_sequence_set` at the two ends of the wire. */
  method Transmit(s: RangedSet) returns (arrived: Option<seq<Range>>)
    ensures arrived == if Encodable(s.ranges) then Some(InsertAll([], s.ranges)) else None
  {
    if 8 * |s.ranges| > 65535 {
      return None;
    }
    var result := new RangedSet();
    for i := 0 to |s.ranges|
      invariant fresh(result) && unchanged(s)
      invariant InsertAll(result.ranges, s.ranges[i..]) == InsertAll([], s.ranges)
    {
      assert s.ranges[i..][0] == s.ranges[i] && s.ranges[i..][1..] == s.ranges[i + 1..];
      result.AddRange(s.ranges[i]);
    }
    arrived := Some(result.ranges);
  }

  /** What the answer to a flush tells: the parts that were asked for, in order, the
      next id as the only member of its set and the completed set as it is. */
  lemma FlushTells(base: Serial, r: ReceiverState, expected: bool, confirmed: bool, completed: bool)
    requires Canonical(base, r.completed) && Encodable(r.completed)
    ensures var out := Flushed(r, expected, confirmed, completed);
            var e, c := if expected then 1 else 0, if confirmed then 1 else 0;
            && |out| == e + c + (if completed then 1 else 0)
            && (expected ==>
                  && out[0].SayExpected? && (out[0].next.Some? <==> r.nextId.Some?)
                  && (r.nextId.Some? ==>
                        forall n: Serial :: Offset(r.nextId.value, n) < HALF ==>
                          (Member(out[0].next.value, n) <==> n == r.nextId.value)))
            && (confirmed ==> out[e] == SayConfirmed(r.completed))
            && (completed ==> out[e + c] == SayCompleted(Completed(r.completed, false)))
  {
    RebuildIsIdentity(base, r.completed);
    if r.nextId.Some? {
      OnlyMember(r.nextId.value);
    }
  }

  lemma OnlyMember(id: Serial)
    ensures forall n: Serial :: Offset(id, n) < HALF ==> (Member([Range(id, id)], n) <==> n == id)
  {
    forall n: Serial | Offset(id, n) < HALF
      ensures Member([Range(id, id)], n) <==> n == id
    {
      ContainsExactly(Range(id, id), n);
      assert n == id ==> Contains([Range(id, id)][0], n);
    }
  }

  /** A set that cannot be written ends the handler. */
  lemma FlushEndsEarly(r: ReceiverState, expected: bool, confirmed: bool, completed: bool)
    requires !Encodable(r.completed)
    ensures |Flushed(r, expected, confirmed, completed)| == if expected then 1 else 0
  {
  }
}
