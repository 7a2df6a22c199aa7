/**
 The whole service as one sequential run: startup bootstraps the fresh cell
 from the store and then launches the listener; afterwards the run is a trace
 of events, each either a message delivered to the listener or a request
 served by the endpoint.
 */
module Service {
  import opened StatusCache
  import opened Listener

  /** The process after startup: the cell, and whether the listener runs. */
  datatype State = State(cell: string, listening: bool)

  /** One thing that happens after startup. */
  datatype Event = Deliver(m: Message) | Query

  /** What a run leaves behind: the final cell and every response served,
      in order. */
  datatype Outcome = Outcome(cell: string, responses: seq<Response>)

  /** Startup: bootstrap once from the store, then start the listener,
      whatever the store read returned. `listening` is true by construction:
      the only path of the source that skips starting the listener is an
      exception other than a store error, which is not modelled. */
  function Startup(read: StoreRead): (s: State)
    ensures s.listening
    ensures Truthy(read) ==> s.cell == read.s
    ensures !Truthy(read) ==> s.cell == Default
  {
    State(Bootstrap(Initial(), read), true)
  }

  /** The messages the listener sees in a trace, in order. */
  function Messages(es: seq<Event>): (ms: seq<Message>)
    ensures |ms| + Queries(es) == |es|
    decreases |es|
  {
    if es == [] then []
    else if es[0].Deliver? then [es[0].m] + Messages(es[1..])
    else Messages(es[1..])
  }

  /** Number of requests in a trace. */
  function Queries(es: seq<Event>): nat
    decreases |es|
  {
    if es == [] then 0 else (if es[0].Query? then 1 else 0) + Queries(es[1..])
  }

  /** A run of the trace `es` from `cell`: deliveries update the cell,
      requests read it and append a response. */
  function Run(cell: string, es: seq<Event>): Outcome
    decreases |es|
  {
    if es == [] then Outcome(cell, [])
    else
      match es[0]
      case Deliver(m) => Run(Apply(cell, m), es[1..])
      case Query =>
        var rest := Run(cell, es[1..]);
        Outcome(rest.cell, [Respond(cell)] + rest.responses)
  }

  /** The value the cell holds after startup with `read` and the trace `es`:
      the last payload delivered, else the bootstrapped value, else the
      default. */
  function Current(read: StoreRead, es: seq<Event>): string
  {
    match LastData(Messages(es))
    case Some(v) => v
    case None => if Truthy(read) then read.s else Default
  }

  lemma {:induction false} MessagesAppend(a: seq<Event>, b: seq<Event>)
    ensures Messages(a + b) == Messages(a) + Messages(b)
    decreases |a|
  {
    if a != [] {
      assert (a + b)[0] == a[0];
      assert (a + b)[1..] == a[1..] + b;
      MessagesAppend(a[1..], b);
    } else {
      assert a + b == b;
    }
  }

  /** Requests are read-only: the cell after a run is the listener's fold
      over the delivered messages alone, and one response is produced per
      request. */
  lemma {:induction false} RunCellIsReplay(cell: string, es: seq<Event>)
    ensures Run(cell, es).cell == Replay(cell, Messages(es))
    ensures |Run(cell, es).responses| == Queries(es)
    decreases |es|
  {
    if es != [] {
      match es[0]
      case Deliver(m) =>
        RunCellIsReplay(Apply(cell, m), es[1..]);
      case Query =>
        RunCellIsReplay(cell, es[1..]);
    }
  }

  /** A request appended to a trace is answered from the cell as the trace
      left it. */
  lemma {:induction false} RunSnocQuery(cell: string, es: seq<Event>)
    ensures Run(cell, es + [Query]).cell == Run(cell, es).cell
    ensures Run(cell, es + [Query]).responses
         == Run(cell, es).responses + [Respond(Run(cell, es).cell)]
    decreases |es|
  {
    if es == [] {
      assert es + [Query] == [Query];
    } else {
      assert (es + [Query])[0] == es[0];
      assert (es + [Query])[1..] == es[1..] + [Query];
      match es[0]
      case Deliver(m) =>
        RunSnocQuery(Apply(cell, m), es[1..]);
      case Query =>
        RunSnocQuery(cell, es[1..]);
    }
  }

  /** A run extended by more events keeps every response it already gave:
      later events never change what an earlier request received. */
  lemma {:induction false} RunPrefix(cell: string, a: seq<Event>, b: seq<Event>)
    ensures Run(cell, a).responses <= Run(cell, a + b).responses
    decreases |a|
  {
    if a == [] {
      assert a + b == b;
    } else {
      assert (a + b)[0] == a[0];
      assert (a + b)[1..] == a[1..] + b;
      match a[0]
      case Deliver(m) =>
        RunPrefix(Apply(cell, m), a[1..], b);
      case Query =>
        RunPrefix(cell, a[1..], b);
    }
  }

  /** Removing a request from anywhere in a trace leaves the final cell
      unchanged. */
  lemma QueryIsReadOnly(cell: string, a: seq<Event>, b: seq<Event>)
    ensures Run(cell, a + [Query] + b).cell == Run(cell, a + b).cell
  {
    RunCellIsReplay(cell, a + [Query] + b);
    RunCellIsReplay(cell, a + b);
    MessagesAppend(a + [Query], b);
    MessagesAppend(a, [Query]);
    assert Messages([Query]) == [];
    assert Messages(a + [Query]) == Messages(a);
    MessagesAppend(a, b);
  }

  /** The end-to-end gate: a request made after startup with `read` and the
      trace `es` is answered 200 with the greeting exactly when the last
      write (payload, else truthy bootstrap value, else default) is "up",
      and 503 "not available" otherwise. */
  lemma ResponseFollowsLastWrite(read: StoreRead, es: seq<Event>)
    ensures var out := Run(Startup(read).cell, es + [Query]);
            && |out.responses| == Queries(es) + 1
            && (Current(read, es) == Up ==> out.responses[Queries(es)] == Available)
            && (Current(read, es) != Up ==> out.responses[Queries(es)] == NotAvailable)
  {
    var start := Startup(read).cell;
    RunSnocQuery(start, es);
    RunCellIsReplay(start, es);
    ReplayIsLastWrite(start, Messages(es));
  }

  /** The cell after startup with `read` and the trace `es` is the last
      write: the last payload delivered, else the truthy bootstrap value,
      else the default. */
  lemma RunCellIsCurrent(read: StoreRead, es: seq<Event>)
    ensures Run(Startup(read).cell, es).cell == Current(read, es)
  {
    RunCellIsReplay(Startup(read).cell, es);
    ReplayIsLastWrite(Startup(read).cell, Messages(es));
  }

  /** The gate for every request of a run, not only the last one: the
      request after the events `a` is answered from the last write of `a`,
      whatever follows it. */
  lemma QueryAnsweredFromLastWrite(read: StoreRead, a: seq<Event>, b: seq<Event>)
    ensures var out := Run(Startup(read).cell, a + [Query] + b);
            && Queries(a) < |out.responses|
            && (Current(read, a) == Up ==> out.responses[Queries(a)] == Available)
            && (Current(read, a) != Up ==> out.responses[Queries(a)] == NotAvailable)
  {
    var start := Startup(read).cell;
    ResponseFollowsLastWrite(read, a);
    RunPrefix(start, a + [Query], b);
  }

  /** Default safety and error isolation: when the store read fails or finds
      nothing, and no data message has arrived, every request is answered
      503, while the listener has been started all the same. */
  lemma {:induction false} FailedBootstrapServesUnavailable(read: StoreRead, es: seq<Event>)
    requires !Truthy(read)
    requires forall i :: 0 <= i < |es| ==> !(es[i].Deliver? && IsData(es[i].m))
    ensures Startup(read).listening
    ensures Startup(read).cell == Default
    ensures forall k :: 0 <= k < |Run(Startup(read).cell, es).responses| ==>
              Run(Startup(read).cell, es).responses[k] == NotAvailable
    decreases |es|
  {
    if es != [] {
      FailedBootstrapServesUnavailable(read, es[1..]);
    }
  }

  /** Last write wins across the whole service: a later data message
      overrides an earlier one and the bootstrap value. */
  lemma LaterWriteOverrides(read: StoreRead, a: seq<Event>, v: string, b: seq<Event>)
    requires forall i :: 0 <= i < |b| ==> !(b[i].Deliver? && IsData(b[i].m))
    ensures Current(read, a + [Deliver(Message(DataKind, v))] + b) == v
    ensures Run(Startup(read).cell, a + [Deliver(Message(DataKind, v))] + b).cell == v
  {
    var w := Message(DataKind, v);
    MessagesAppend(a + [Deliver(w)], b);
    MessagesAppend(a, [Deliver(w)]);
    assert Messages([Deliver(w)]) == [w];
    NoDataInMessages(b);
    LastDataAfterWrite(Messages(a), w, Messages(b));
    RunCellIsCurrent(read, a + [Deliver(w)] + b);
  }

  /** A trace with no data delivery hands the listener no data message. */
  lemma {:induction false} NoDataInMessages(es: seq<Event>)
    requires forall i :: 0 <= i < |es| ==> !(es[i].Deliver? && IsData(es[i].m))
    ensures forall i :: 0 <= i < |Messages(es)| ==> !IsData(Messages(es)[i])
    decreases |es|
  {
    if es != [] {
      NoDataInMessages(es[1..]);
    }
  }
}
