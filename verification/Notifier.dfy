/** The event queue of a QMF session and the pipe that tells an application about
    it (qpid/cpp/src/qmf/AgentSession.cpp, qpid/cpp/src/qmf/ConsoleSession.cpp,
    qpid/cpp/src/qmf/EventNotifierImpl.cpp, qpid/cpp/src/qmf/PosixEventNotifierImpl.cpp). */
module Notifier {
  import opened Wrappers
  import opened Sequences

  const BUFFER_SIZE: nat := 10

  datatype NotifierState = NotifierState(readable: bool, pipe: nat)

  /** A byte goes in when the flag rises, and up to ten come out when it falls. */
  function Set(n: NotifierState, readable: bool): NotifierState
  {
    NotifierState(readable,
                  if readable && !n.readable then n.pipe + 1
                  else if !readable && n.readable then (if n.pipe > BUFFER_SIZE then n.pipe - BUFFER_SIZE else 0)
                  else n.pipe)
  }

  /** The pipe is known by the number of bytes it holds. */
  class PosixEventNotifier {
    var readable: bool
    var pipe: nat

    function State(): NotifierState
      reads this
    {
      NotifierState(readable, pipe)
    }

    constructor ()
      ensures State() == NotifierState(false, 0)
    {
      readable, pipe := false, 0;
    }

    method SetReadable(readable: bool)
      modifies this
      ensures State() == Set(old(State()), readable)
    {
      Update(readable);
      this.readable := readable;
    }

    method Update(readable: bool)
      modifies this`pipe
      ensures NotifierState(readable, pipe) == Set(old(State()), readable)
    {
      if readable && !this.readable {
        pipe := pipe + 1;
      } else if !readable && this.readable {
        pipe := if pipe > BUFFER_SIZE then pipe - BUFFER_SIZE else 0;
      }
    }
  }

  /** `log` is the history of all events that were ever put in. */
  datatype QueueState<T> = QueueState(queue: seq<T>, log: seq<T>, notifier: Option<NotifierState>)

  function Alerted(n: Option<NotifierState>, readable: bool): Option<NotifierState>
  {
    if n.None? then None else Some(Set(n.value, readable))
  }

  function Enqueued<T>(q: QueueState<T>, e: T): QueueState<T>
  {
    QueueState(q.queue + [e], q.log + [e], if q.queue == [] then Alerted(q.notifier, true) else q.notifier)
  }

  function Taken<T>(q: QueueState<T>): QueueState<T>
  {
    if q.queue == [] then q
    else q.(queue := q.queue[1..], notifier := if |q.queue| == 1 then Alerted(q.notifier, false) else q.notifier)
  }

  class EventQueue<T> {
    var queue: seq<T>
    var log: seq<T>
    var notifier: PosixEventNotifier?

    function Attached(): set<object>
      reads this
    {
      if notifier == null then {} else {notifier}
    }

    function State(): QueueState<T>
      reads this, Attached()
    {
      QueueState(queue, log, if notifier == null then None else Some(notifier.State()))
    }

    constructor ()
      ensures State() == QueueState([], [], None) && notifier == null
    {
      queue, log, notifier := [], [], null;
    }

    method SetEventNotifier(n: PosixEventNotifier?)
      modifies this`notifier
      ensures notifier == n
    {
      notifier := n;
    }

    method AlertEventNotifier(readable: bool)
      modifies Attached()
      ensures State() == old(State()).(notifier := Alerted(old(State()).notifier, readable))
    {
      if notifier != null {
        notifier.SetReadable(readable);
      }
    }

    method EnqueueEvent(e: T)
      modifies this`queue, this`log, Attached()
      ensures State() == Enqueued(old(State()), e)
    {
      var notify := |queue| == 0;
      queue := queue + [e];
      log := log + [e];
      if notify {
        AlertEventNotifier(true);
      }
    }

    /** None when the queue is still empty after the wait. */
    method NextEvent() returns (e: Option<T>)
      modifies this`queue, Attached()
      ensures State() == Taken(old(State()))
      ensures e == if old(queue) == [] then None else Some(old(queue)[0])
    {
      if |queue| == 0 {
        return None;
      }
      e := Some(queue[0]);
      queue := queue[1..];
      if |queue| == 0 {
        AlertEventNotifier(false);
      }
    }
  }

  /** The flag says whether there are events, and the pipe holds a byte exactly when
      it is up. */
  predicate Agrees<T>(q: QueueState<T>)
  {
    q.notifier.Some? ==>
      && (q.notifier.value.readable <==> q.queue != [])
      && q.notifier.value.pipe == if q.notifier.value.readable then 1 else 0
  }

  datatype Use<T> = Enqueue(e: T) | Next

  function Used<T>(q: QueueState<T>, u: Use<T>): QueueState<T>
  {
    match u
    case Enqueue(e) => Enqueued(q, e)
    case Next => Taken(q)
  }

  function UsedAll<T>(q: QueueState<T>, us: seq<Use<T>>): QueueState<T>
    decreases |us|
  {
    if us == [] then q else UsedAll(Used(q, us[0]), us[1..])
  }

  lemma {:induction false} AgreementIsKept<T>(q: QueueState<T>, us: seq<Use<T>>)
    requires Agrees(q)
    ensures Agrees(UsedAll(q, us))
    decreases |us|
  {
    if us != [] {
      AgreementIsKept(Used(q, us[0]), us[1..]);
    }
  }

  /** A notifier agrees for ever exactly when it is attached to an empty queue; when
      it is attached to another, it agrees from the moment the queue has run empty. */
  lemma AttachWhileEmpty<T>(queue: seq<T>, log: seq<T>)
    ensures var q := QueueState(queue, log, Some(NotifierState(false, 0)));
            (forall us :: Agrees(UsedAll(q, us))) <==> queue == []
  {
    var q := QueueState(queue, log, Some(NotifierState(false, 0)));
    if queue == [] {
      forall us
        ensures Agrees(UsedAll(q, us))
      {
        AgreementIsKept(q, us);
      }
    } else {
      assert !Agrees(UsedAll(q, []));
    }
  }

  lemma {:induction false} AgreesOnceEmpty<T>(q: QueueState<T>, us: seq<Use<T>>)
    requires q.notifier == Some(NotifierState(false, 0)) || Agrees(q)
    ensures UsedAll(q, us).queue == [] ==> Agrees(UsedAll(q, us))
    decreases |us|
  {
    if us != [] {
      AgreesOnceEmpty(Used(q, us[0]), us[1..]);
    }
  }

  // ----- What is taken out -----

  /** The events that the uses take out, in order. */
  function TakenBy<T>(q: QueueState<T>, us: seq<Use<T>>): seq<T>
    decreases |us|
  {
    if us == [] then []
    else (if us[0].Next? && q.queue != [] then [q.queue[0]] else []) + TakenBy(Used(q, us[0]), us[1..])
  }

  function PutBy<T>(us: seq<Use<T>>): seq<T>
  {
    if us == [] then [] else (if us[0].Enqueue? then [us[0].e] else []) + PutBy(us[1..])
  }

  /** First in, first out: whatever the uses, what has been taken out and then what
      is left is what was there and then what was put in. */
  lemma {:induction false} FirstInFirstOut<T>(q: QueueState<T>, us: seq<Use<T>>)
    ensures TakenBy(q, us) + UsedAll(q, us).queue == q.queue + PutBy(us)
    ensures UsedAll(q, us).log == q.log + PutBy(us)
    decreases |us|
  {
    if us != [] {
      var t := Used(q, us[0]);
      FirstInFirstOut(t, us[1..]);
      var first, last := if us[0].Next? && q.queue != [] then [q.queue[0]] else [],
                         if us[0].Enqueue? then [us[0].e] else [];
      assert first + t.queue == q.queue + last;
      Associate(first, TakenBy(t, us[1..]), UsedAll(q, us).queue);
      Associate(first, t.queue, PutBy(us[1..]));
      Associate(q.queue, last, PutBy(us[1..]));
      Associate(q.log, last, PutBy(us[1..]));
      assert t.log == q.log + last;
    }
  }

  /** A pipe that holds `p` bytes while the flag is up is empty once the queue is,
      if and only if one read of ten bytes empties it. */
  lemma {:induction false} TenBytesAreRead<T>(q: QueueState<T>, us: seq<Use<T>>, p: nat)
    requires q.queue != [] && q.notifier == Some(NotifierState(true, p))
    requires |us| == |q.queue| && forall u :: u in us ==> u.Next?
    ensures UsedAll(q, us).queue == []
    ensures UsedAll(q, us).notifier.Some? && !UsedAll(q, us).notifier.value.readable
    ensures UsedAll(q, us).notifier.value.pipe == 0 <==> p <= 10
    decreases |us|
  {
    var t := Used(q, us[0]);
    assert us[0] in us;
    if |us| > 1 {
      TenBytesAreRead(t, us[1..], p);
    } else {
      assert UsedAll(t, us[1..]) == t;
    }
  }
}
