/**
  The streaming bridge as a step system: the producer task, the bounded channel
  and the reader, interleaved in any order, with cancellation and the dropping
  of the receiver. A schedule is any sequence of actions each of which is
  enabled when it is taken.
 */
module StreamBridge {
  import opened Common
  import opened StreamModel

  // ------------------------------------------------------------------- upstream

  /**
    What the server does with the query. `items` are the chunks the producer can
    pull, in order, with the error that ends them, if any, as the last item; a
    refused connection is that error alone.
   */
  datatype Upstream = Upstream(refused: bool, items: seq<Message>) {
    ghost predicate Valid() {
      && FailsLast(items)
      && (refused ==> |items| == 1 && items[0].Fail?)
    }

    /** The file the upstream stands for; chunk boundaries are gone. */
    function ToFile(hasTail: bool): File {
      File(BytesOf(items), ErrorOf(items), hasTail)
    }
  }

  // --------------------------------------------------------------------- states

  /** `Selecting(true)` is a waiter that the cancel notification has reached. */
  datatype Producer = Connecting | Selecting(notified: bool) | Sending(message: Message) | Halted

  datatype Reader = Idle | Pulling(req: Request) | Dropped

  datatype Event = Event(req: Request, result: ReadResult)

  /**
    `offered` counts what the upstream has come up with so far: its answer to the
    connection, then its items, then its end. `pulled` and `received` count items
    taken by the producer and messages taken by the reader; `delivered`, `history`
    and `cancelled` record what has happened.
   */
  datatype State = State(
    producer: Producer,
    offered: nat,
    pulled: nat,
    queue: seq<Message>,
    reader: Reader,
    inner: Inner,
    received: nat,
    delivered: seq<Byte>,
    history: seq<Event>,
    cancelled: bool)

  const SPAWNED := State(Connecting, 0, 0, [], Idle, FRESH, 0, [], [], false)

  // -------------------------------------------------------------------- actions

  datatype Action =
    | Connect | PullItem | PullEof | ObserveCancel | SendOk | SendClosed
    | Offer | Cancel | DropReceiver
    | BeginRead(req: Request) | Recv | FinishRead

  /** Whether the upstream has come up with what the producer would wait for next. */
  predicate Ready(s: State) {
    s.offered > (if s.producer.Connecting? then 0 else s.pulled + 1)
  }

  predicate Enabled(up: Upstream, s: State, a: Action) {
    match a
    case Connect => s.producer.Connecting? && Ready(s)
    case PullItem => s.producer.Selecting? && s.pulled < |up.items| && Ready(s)
    case PullEof => s.producer.Selecting? && s.pulled >= |up.items| && Ready(s)
    case ObserveCancel => s.producer == Selecting(true)
    case SendOk => s.producer.Sending? && !s.reader.Dropped? && |s.queue| < CHANNEL_CAPACITY
    case SendClosed => s.producer.Sending? && s.reader.Dropped?
    case Offer => s.offered < |up.items| + 2
    case Cancel => !s.reader.Dropped?
    case DropReceiver => s.reader.Idle? && s.cancelled
    case BeginRead(_) => s.reader.Idle?
    case Recv =>
      s.reader.Pulling? && WantsMore(s.inner, s.reader.req.size) && (s.queue != [] || s.producer.Halted?)
    case FinishRead => s.reader.Pulling? && !WantsMore(s.inner, s.reader.req.size)
  }

  function Apply(up: Upstream, hasTail: bool, s: State, a: Action): State
    requires Enabled(up, s, a)
  {
    match a
    case Connect =>
      if up.refused && s.pulled < |up.items| then
        s.(producer := Sending(up.items[s.pulled]), pulled := s.pulled + 1)
      else
        s.(producer := Selecting(false))
    case PullItem => s.(producer := Sending(up.items[s.pulled]), pulled := s.pulled + 1)
    case PullEof => s.(producer := Halted)
    case ObserveCancel => s.(producer := Halted)
    case SendOk =>
      s.(queue := s.queue + [s.producer.message],
         producer := if s.producer.message.Chunk? then Selecting(false) else Halted)
    case SendClosed => s.(producer := Halted)
    case Offer => s.(offered := s.offered + 1)
    case Cancel =>
      s.(cancelled := true,
         producer := if s.producer.Selecting? then Selecting(true) else s.producer)
    case DropReceiver => s.(reader := Dropped, queue := [])
    case BeginRead(req) =>
      (match Enter(hasTail, s.inner, req)
       case Answered(i, result) => s.(inner := i, history := s.history + [Event(req, result)])
       case Pull(i) => s.(inner := i, reader := Pulling(req)))
    case Recv =>
      if s.queue != [] then
        s.(inner := Receive(s.inner, Some(s.queue[0])), queue := s.queue[1..], received := s.received + 1)
      else
        s.(inner := Receive(s.inner, None))
    case FinishRead =>
      var (i, result) := Finish(s.inner, s.reader.req.size);
      s.(inner := i,
         reader := Idle,
         delivered := if result.Data? then s.delivered + result.bytes else s.delivered,
         history := s.history + [Event(s.reader.req, result)])
  }

  /** The state a schedule leads to, or None when an action in it was not enabled. */
  function Run(up: Upstream, hasTail: bool, s: State, schedule: seq<Action>): Option<State> {
    if schedule == [] then Some(s)
    else
      match Run(up, hasTail, s, schedule[..|schedule| - 1])
      case None => None
      case Some(t) =>
        var a := schedule[|schedule| - 1];
        if Enabled(up, t, a) then Some(Apply(up, hasTail, t, a)) else None
  }

  // ------------------------------------------------------------------ invariant

  function InFlight(p: Producer): seq<Message> {
    if p.Sending? then [p.message] else []
  }

  /** Queue and producer hold the items numbered `from` up to `to`. */
  ghost predicate Holds(items: seq<Message>, from: nat, to: nat, queue: seq<Message>, flight: seq<Message>) {
    from <= to <= |items| && queue + flight == items[from..to]
  }

  lemma HoldsPulled(items: seq<Message>, from: nat, to: nat, queue: seq<Message>)
    requires Holds(items, from, to, queue, []) && to < |items|
    ensures Holds(items, from, to + 1, queue, [items[to]])
  {
    assert items[from..to + 1] == items[from..to] + [items[to]];
  }

  lemma HoldsSent(items: seq<Message>, from: nat, to: nat, queue: seq<Message>, m: Message)
    requires Holds(items, from, to, queue, [m])
    ensures Holds(items, from, to, queue + [m], [])
  {
  }

  lemma HoldsReceived(items: seq<Message>, from: nat, to: nat, queue: seq<Message>, flight: seq<Message>)
    requires Holds(items, from, to, queue, flight) && queue != []
    ensures from < to && queue[0] == items[from]
    ensures Holds(items, from + 1, to, queue[1..], flight)
    ensures items[from..][1..] == items[from + 1..]
  {
    assert queue[1..] + flight == (queue + flight)[1..];
    assert queue[0] == (queue + flight)[0];
  }

  lemma HoldsNothing(items: seq<Message>, from: nat, to: nat)
    requires Holds(items, from, to, [], [])
    ensures from == to
  {
    assert |items[from..to]| == to - from;
  }

  /** Channel and producer hold exactly the items pulled but not yet received. */
  ghost predicate ChannelOk(up: Upstream, s: State) {
    && up.Valid()
    && s.received <= s.pulled <= |up.items|
    && s.offered <= |up.items| + 2
    && (s.producer.Selecting? || (s.producer.Sending? && s.producer.message.Chunk?) ==> s.offered > s.pulled)
    && |s.queue| <= CHANNEL_CAPACITY
    && (s.producer.Connecting? ==> s.pulled == 0)
    && (s.producer.Sending? ==> s.pulled > 0 && s.producer.message == up.items[s.pulled - 1])
    && (s.producer == Selecting(true) ==> s.cancelled)
    && (s.reader.Dropped? ==> s.cancelled && s.queue == [])
    && (!s.reader.Dropped? ==> Holds(up.items, s.received, s.pulled, s.queue, InFlight(s.producer)))
    && (s.producer.Halted? && !s.cancelled ==> s.pulled == |up.items|)
  }

  /** No byte is lost, duplicated or reordered. */
  ghost predicate KeepsAll(items: seq<Message>, delivered: seq<Byte>, pending: seq<Byte>, received: nat) {
    received <= |items| && delivered + pending + BytesOf(items[received..]) == BytesOf(items)
  }

  /** The reader has every byte received, and `pos` counts those it has delivered. */
  ghost predicate Conserved(up: Upstream, s: State) {
    && s.inner.pos == |s.delivered|
    && KeepsAll(up.items, s.delivered, s.inner.pending, s.received)
  }

  function Requests(history: seq<Event>): (reqs: seq<Request>)
    ensures |reqs| == |history|
  {
    if history == [] then []
    else Requests(history[..|history| - 1]) + [history[|history| - 1].req]
  }

  /** Every answered read got what the byte string answers to the same reads. */
  ghost predicate Answers(file: File, history: seq<Event>) {
    history == [] ||
    (var before, last := history[..|history| - 1], history[|history| - 1];
     Answers(file, before) && last.result == ViewRead(file, ViewAfter(file, Requests(before)), last.req).1)
  }

  /** A read in progress will end as one read of the view, however the rest arrives. */
  ghost predicate WillFinish(file: File, inner: Inner, rx: seq<Message>, v: View, req: Request) {
    var (i', rx') := PullAll(inner, rx, req.size);
    var (i'', result) := Finish(i', req.size);
    && ViewValid(file, v)
    && (var (v', expected) := ViewRead(file, v, req);
        result == expected && Couples(file, i'', rx', v'))
  }

  /** What the reader holds, with `rx` still to come, stands for the view its history led to. */
  ghost predicate Refines(file: File, rx: seq<Message>, reader: Reader, inner: Inner, history: seq<Event>) {
    var v := ViewAfter(file, Requests(history));
    && Answers(file, history)
    && (reader.Idle? ==> Couples(file, inner, rx, v))
    && (reader.Pulling? ==> WillFinish(file, inner, rx, v, reader.req))
  }

  ghost predicate StateRefines(up: Upstream, hasTail: bool, s: State)
    requires s.received <= |up.items|
  {
    Refines(up.ToFile(hasTail), up.items[s.received..], s.reader, s.inner, s.history)
  }

  ghost predicate Inv(up: Upstream, hasTail: bool, s: State) {
    && ChannelOk(up, s)
    && Conserved(up, s)
    && (!s.cancelled ==> StateRefines(up, hasTail, s))
  }

  lemma InitInv(up: Upstream, hasTail: bool)
    requires up.Valid()
    ensures Inv(up, hasTail, SPAWNED)
  {
    assert up.items[0..] == up.items;
    assert [] + BytesOf(up.items) == BytesOf(up.items)[0..];
  }

  predicate ReaderAction(a: Action) {
    a.BeginRead? || a.Recv? || a.FinishRead?
  }

  /** The producer, a cancellation and the drop leave what the reader holds alone. */
  lemma ReaderUntouched(up: Upstream, hasTail: bool, s: State, a: Action)
    requires Enabled(up, s, a) && !ReaderAction(a)
    ensures
      var t := Apply(up, hasTail, s, a);
      && t.inner == s.inner && t.received == s.received && t.delivered == s.delivered
      && t.history == s.history && (t.reader == s.reader || t.reader.Dropped?)
  {
  }

  lemma ChannelProducerStep(up: Upstream, hasTail: bool, s: State, a: Action)
    requires ChannelOk(up, s) && Enabled(up, s, a)
    requires a.Connect? || a.PullItem? || a.SendOk?
    ensures ChannelOk(up, Apply(up, hasTail, s, a))
  {
    hide Holds;
    if a.SendOk? {
      HoldsSent(up.items, s.received, s.pulled, s.queue, s.producer.message);
    } else if s.pulled < |up.items| && !s.reader.Dropped? {
      HoldsPulled(up.items, s.received, s.pulled, s.queue);
    }
  }

  lemma ChannelReaderStep(up: Upstream, hasTail: bool, s: State, a: Action)
    requires ChannelOk(up, s) && Enabled(up, s, a) && ReaderAction(a)
    ensures ChannelOk(up, Apply(up, hasTail, s, a))
  {
    hide Holds;
    if a.Recv? && s.queue != [] {
      HoldsReceived(up.items, s.received, s.pulled, s.queue, InFlight(s.producer));
    }
  }

  lemma {:induction false} ChannelStep(up: Upstream, hasTail: bool, s: State, a: Action)
    requires ChannelOk(up, s) && Enabled(up, s, a)
    ensures ChannelOk(up, Apply(up, hasTail, s, a))
  {
    hide Holds;
    if a.Connect? || a.PullItem? || a.SendOk? {
      ChannelProducerStep(up, hasTail, s, a);
    } else if ReaderAction(a) {
      ChannelReaderStep(up, hasTail, s, a);
    }
  }

  /** Moving bytes from one holder to the next keeps them all, in order. */
  lemma Regroup(delivered: seq<Byte>, pending: seq<Byte>, got: seq<Byte>, rest: seq<Byte>, take: nat)
    requires take <= |pending|
    ensures delivered + pending + (got + rest) == delivered + (pending + got) + rest
    ensures (delivered + pending[..take]) + pending[take..] + rest == delivered + pending + rest
  {
    assert (delivered + pending[..take]) + pending[take..] == delivered + pending;
  }

  lemma KeepsReceiving(items: seq<Message>, delivered: seq<Byte>, pending: seq<Byte>, received: nat)
    requires KeepsAll(items, delivered, pending, received) && received < |items|
    ensures
      var got := if items[received].Chunk? then items[received].bytes else [];
      KeepsAll(items, delivered, pending + got, received + 1)
  {
    var rx := items[received..];
    assert rx[1..] == items[received + 1..];
    var got := if rx[0].Chunk? then rx[0].bytes else [];
    Regroup(delivered, pending, got, BytesOf(rx[1..]), 0);
  }

  lemma KeepsDelivering(items: seq<Message>, delivered: seq<Byte>, pending: seq<Byte>, received: nat, take: nat)
    requires KeepsAll(items, delivered, pending, received) && take <= |pending|
    ensures KeepsAll(items, delivered + pending[..take], pending[take..], received)
  {
    Regroup(delivered, pending, [], BytesOf(items[received..]), take);
  }

  lemma {:induction false} ConservedStep(up: Upstream, hasTail: bool, s: State, a: Action)
    requires ChannelOk(up, s) && Conserved(up, s) && Enabled(up, s, a)
    ensures Conserved(up, Apply(up, hasTail, s, a))
  {
    hide Holds, KeepsAll;
    if a.FinishRead? {
      var take := Min(s.reader.req.size, |s.inner.pending|);
      KeepsDelivering(up.items, s.delivered, s.inner.pending, s.received, take);
    } else if a.Recv? && s.queue != [] {
      HoldsReceived(up.items, s.received, s.pulled, s.queue, InFlight(s.producer));
      KeepsReceiving(up.items, s.delivered, s.inner.pending, s.received);
      assert s.inner.pending + [] == s.inner.pending;
    }
  }

  lemma AnswersExtends(file: File, history: seq<Event>, e: Event)
    requires Answers(file, history)
    requires e.result == ViewRead(file, ViewAfter(file, Requests(history)), e.req).1
    ensures Answers(file, history + [e])
    ensures ViewAfter(file, Requests(history + [e])) == ViewRead(file, ViewAfter(file, Requests(history)), e.req).0
  {
    assert (history + [e])[..|history|] == history;
    var reqs := Requests(history + [e]);
    assert reqs == Requests(history) + [e.req];
    assert reqs[..|history|] == Requests(history);
  }

  lemma RefinesBegin(file: File, rx: seq<Message>, inner: Inner, history: seq<Event>, req: Request)
    requires Refines(file, rx, Idle, inner, history)
    ensures
      match Enter(file.hasTail, inner, req)
      case Answered(i, result) => Refines(file, rx, Idle, i, history + [Event(req, result)])
      case Pull(i) => Refines(file, rx, Pulling(req), i, history)
  {
    var v := ViewAfter(file, Requests(history));
    ReadRefines(file, inner, rx, v, req);
    var entry := Enter(file.hasTail, inner, req);
    if entry.Answered? {
      AnswersExtends(file, history, Event(req, entry.result));
    }
  }

  lemma RefinesReceive(file: File, rx: seq<Message>, inner: Inner, history: seq<Event>, req: Request)
    requires Refines(file, rx, Pulling(req), inner, history) && WantsMore(inner, req.size)
    ensures
      if rx == [] then Refines(file, [], Pulling(req), Receive(inner, None), history)
      else Refines(file, rx[1..], Pulling(req), Receive(inner, Some(rx[0])), history)
  {
  }

  lemma RefinesFinish(file: File, rx: seq<Message>, inner: Inner, history: seq<Event>, req: Request)
    requires Refines(file, rx, Pulling(req), inner, history) && !WantsMore(inner, req.size)
    ensures
      var (i, result) := Finish(inner, req.size);
      Refines(file, rx, Idle, i, history + [Event(req, result)])
  {
    AnswersExtends(file, history, Event(req, Finish(inner, req.size).1));
  }

  lemma {:induction false} RefinesStep(up: Upstream, hasTail: bool, s: State, a: Action)
    requires ChannelOk(up, s) && StateRefines(up, hasTail, s) && Enabled(up, s, a)
    requires !Apply(up, hasTail, s, a).cancelled
    ensures
      var t := Apply(up, hasTail, s, a);
      t.received <= |up.items| && StateRefines(up, hasTail, t)
  {
    hide Refines, Holds;
    var file, rx := up.ToFile(hasTail), up.items[s.received..];
    match a
    case BeginRead(req) => RefinesBegin(file, rx, s.inner, s.history, req);
    case FinishRead => RefinesFinish(file, rx, s.inner, s.history, s.reader.req);
    case Recv =>
      RefinesReceive(file, rx, s.inner, s.history, s.reader.req);
      if s.queue != [] {
        HoldsReceived(up.items, s.received, s.pulled, s.queue, InFlight(s.producer));
      } else {
        HoldsNothing(up.items, s.received, s.pulled);
        assert rx == [];
      }
    case _ => ReaderUntouched(up, hasTail, s, a);
  }

  lemma {:induction false} InvStep(up: Upstream, hasTail: bool, s: State, a: Action)
    requires Inv(up, hasTail, s) && Enabled(up, s, a)
    ensures Inv(up, hasTail, Apply(up, hasTail, s, a))
  {
    ChannelStep(up, hasTail, s, a);
    ConservedStep(up, hasTail, s, a);
    if !Apply(up, hasTail, s, a).cancelled {
      RefinesStep(up, hasTail, s, a);
    }
  }

  lemma {:induction false} RunInv(up: Upstream, hasTail: bool, schedule: seq<Action>)
    requires up.Valid()
    ensures
      var end := Run(up, hasTail, SPAWNED, schedule);
      end.Some? ==> Inv(up, hasTail, end.value)
  {
    InitInv(up, hasTail);
    if schedule != [] && Run(up, hasTail, SPAWNED, schedule).Some? {
      var before := schedule[..|schedule| - 1];
      RunInv(up, hasTail, before);
      InvStep(up, hasTail, Run(up, hasTail, SPAWNED, before).value, schedule[|schedule| - 1]);
    }
  }
}
