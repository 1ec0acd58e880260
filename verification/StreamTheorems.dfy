/**
  What every schedule of the streaming bridge guarantees: conservation and
  order of bytes, answers that depend on nothing but the file, bounded memory,
  progress, and cancellation that cannot be lost.
 */
module StreamTheorems {
  import opened Common
  import opened StreamModel
  import opened StreamBridge
  import opened Pieces

  // --------------------------------------------------------------- conservation

  lemma {:induction false} BytesOfConcat(a: seq<Message>, b: seq<Message>)
    ensures BytesOf(a + b) == BytesOf(a) + BytesOf(b)
  {
    if a == [] {
      assert a + b == b;
    } else {
      BytesOfConcat(a[1..], b);
      assert (a + b)[1..] == a[1..] + b;
      Associate(if a[0].Chunk? then a[0].bytes else [], BytesOf(a[1..]), BytesOf(b));
    }
  }

  lemma Reassociate(held: seq<Byte>, a: seq<Byte>, b: seq<Byte>, c: seq<Byte>)
    ensures held + (a + b + c) == held + a + b + c
  {
  }

  lemma SplitBacklog(items: seq<Message>, from: nat, to: nat, queue: seq<Message>, flight: seq<Message>)
    requires from <= to <= |items| && queue + flight == items[from..to]
    ensures BytesOf(items[from..]) == BytesOf(queue) + BytesOf(flight) + BytesOf(items[to..])
  {
    assert items[from..] == items[from..to] + items[to..];
    BytesOfConcat(items[from..to], items[to..]);
    BytesOfConcat(queue, flight);
  }

  /**
    In every state before the receiver is dropped, cancelled or not, the bytes
    delivered, pending, queued, in flight and not yet pulled are the upstream's
    bytes in order.
   */
  lemma {:induction false} ByteConservation(up: Upstream, hasTail: bool, schedule: seq<Action>)
    requires up.Valid()
    requires Run(up, hasTail, SPAWNED, schedule).Some?
    ensures
      var s := Run(up, hasTail, SPAWNED, schedule).value;
      && s.inner.pos == |s.delivered|
      && s.delivered <= BytesOf(up.items)
      && s.pulled <= |up.items|
      && (!s.reader.Dropped? ==>
            s.delivered + s.inner.pending + BytesOf(s.queue) + BytesOf(InFlight(s.producer))
            + BytesOf(up.items[s.pulled..]) == BytesOf(up.items))
  {
    RunInv(up, hasTail, schedule);
    var s := Run(up, hasTail, SPAWNED, schedule).value;
    if !s.reader.Dropped? {
      SplitBacklog(up.items, s.received, s.pulled, s.queue, InFlight(s.producer));
      Reassociate(s.delivered + s.inner.pending, BytesOf(s.queue), BytesOf(InFlight(s.producer)),
                  BytesOf(up.items[s.pulled..]));
    }
  }

  // ----------------------------------------------------------------- refinement

  lemma {:induction false} RequestAt(history: seq<Event>, k: nat)
    requires k < |history|
    ensures Requests(history)[k] == history[k].req
  {
    if k < |history| - 1 {
      RequestAt(history[..|history| - 1], k);
    }
  }

  lemma {:induction false} AnswersAt(file: File, history: seq<Event>, k: nat)
    requires Answers(file, history) && k < |history|
    ensures Requests(history[..k]) == Requests(history)[..k]
    ensures history[k].req == Requests(history)[k]
    ensures history[k].result == ViewRead(file, ViewAfter(file, Requests(history)[..k]), history[k].req).1
  {
    var before := history[..|history| - 1];
    if k < |before| {
      AnswersAt(file, before, k);
      assert history[..k] == before[..k];
      assert Requests(before)[..k] == Requests(history)[..k];
    }
  }

  /**
    For every chunking and every schedule without cancellation, the k-th
    answered read got exactly what the k-th read of the byte string gets, and
    what was delivered is the content up to the cursor of that byte string.
   */
  lemma {:induction false} EveryScheduleReadsTheFile(up: Upstream, hasTail: bool, schedule: seq<Action>, k: nat)
    requires up.Valid()
    requires Run(up, hasTail, SPAWNED, schedule).Some?
    requires !Run(up, hasTail, SPAWNED, schedule).value.cancelled
    ensures
      var s := Run(up, hasTail, SPAWNED, schedule).value;
      var file := up.ToFile(hasTail);
      var reqs := Requests(s.history);
      && (k < |s.history| ==>
            s.history[k].result == ViewRead(file, ViewAfter(file, reqs[..k]), s.history[k].req).1)
      && (s.reader.Idle? ==>
            var v := ViewAfter(file, reqs);
            s.inner.pos == v.pos && s.inner.tail == v.tail && s.delivered == file.content[..v.pos])
  {
    hide Run, ViewAfter, ViewRead;
    RunInv(up, hasTail, schedule);
    var s := Run(up, hasTail, SPAWNED, schedule).value;
    var file := up.ToFile(hasTail);
    if k < |s.history| {
      AnswersAt(file, s.history, k);
    }
    if s.reader.Idle? {
      assert s.delivered == file.content[..|s.delivered|];
    }
  }

  /**
    Chunk boundaries and interleaving cannot be observed: two upstreams with
    the same bytes and the same ending give the same answers to the same reads
    and leave the reader at the same place.
   */
  lemma {:induction false} ScheduleIndependence(
      up1: Upstream, up2: Upstream, hasTail: bool, schedule1: seq<Action>, schedule2: seq<Action>)
    requires up1.Valid() && up2.Valid()
    requires up1.ToFile(hasTail) == up2.ToFile(hasTail)
    requires Run(up1, hasTail, SPAWNED, schedule1).Some? && Run(up2, hasTail, SPAWNED, schedule2).Some?
    requires
      var s1, s2 := Run(up1, hasTail, SPAWNED, schedule1).value, Run(up2, hasTail, SPAWNED, schedule2).value;
      && !s1.cancelled && !s2.cancelled && s1.reader.Idle? && s2.reader.Idle?
      && Requests(s1.history) == Requests(s2.history)
    ensures
      var s1, s2 := Run(up1, hasTail, SPAWNED, schedule1).value, Run(up2, hasTail, SPAWNED, schedule2).value;
      s1.history == s2.history && s1.delivered == s2.delivered && s1.inner.tail == s2.inner.tail
  {
    hide Run, ViewAfter, ViewRead, Requests;
    var s1, s2 := Run(up1, hasTail, SPAWNED, schedule1).value, Run(up2, hasTail, SPAWNED, schedule2).value;
    EveryScheduleReadsTheFile(up1, hasTail, schedule1, 0);
    EveryScheduleReadsTheFile(up2, hasTail, schedule2, 0);
    assert |s1.history| == |Requests(s1.history)| == |Requests(s2.history)| == |s2.history|;
    forall k | 0 <= k < |s1.history|
      ensures s1.history[k] == s2.history[k]
    {
      EveryScheduleReadsTheFile(up1, hasTail, schedule1, k);
      EveryScheduleReadsTheFile(up2, hasTail, schedule2, k);
      RequestAt(s1.history, k);
      RequestAt(s2.history, k);
    }
  }

  // ------------------------------------------------------------- bounded memory

  predicate SmallChunks(rx: seq<Message>, c: nat) {
    forall i :: 0 <= i < |rx| && rx[i].Chunk? ==> |rx[i].bytes| <= c
  }

  lemma {:induction false} BytesOfBound(rx: seq<Message>, c: nat, n: nat)
    requires SmallChunks(rx, c) && |rx| <= n
    ensures |BytesOf(rx)| <= n * c
  {
    if rx != [] {
      BytesOfBound(rx[1..], c, n - 1);
      assert n * c == c + (n - 1) * c;
    }
  }

  ghost predicate PendingOk(c: nat, s: State) {
    if s.reader.Pulling? then |s.inner.pending| < s.reader.req.size + c else |s.inner.pending| < c
  }

  lemma PendingStep(up: Upstream, hasTail: bool, c: nat, s: State, a: Action)
    requires ChannelOk(up, s) && Enabled(up, s, a) && SmallChunks(up.items, c) && c >= 1 && PendingOk(c, s)
    ensures PendingOk(c, Apply(up, hasTail, s, a))
  {
    hide Holds;
    if !ReaderAction(a) {
      ReaderUntouched(up, hasTail, s, a);
    } else if a.Recv? && s.queue != [] {
      HoldsReceived(up.items, s.received, s.pulled, s.queue, InFlight(s.producer));
    }
  }

  lemma {:induction false} PendingInv(up: Upstream, hasTail: bool, c: nat, schedule: seq<Action>)
    requires up.Valid() && c >= 1 && SmallChunks(up.items, c)
    ensures
      var end := Run(up, hasTail, SPAWNED, schedule);
      end.Some? ==> PendingOk(c, end.value)
  {
    if schedule != [] && Run(up, hasTail, SPAWNED, schedule).Some? {
      var before := schedule[..|schedule| - 1];
      PendingInv(up, hasTail, c, before);
      RunInv(up, hasTail, before);
      PendingStep(up, hasTail, c, Run(up, hasTail, SPAWNED, before).value, schedule[|schedule| - 1]);
    }
  }

  lemma {:induction false} HeldBound(
      items: seq<Message>, from: nat, to: nat, queue: seq<Message>, flight: seq<Message>, c: nat)
    requires from <= to <= |items| && queue + flight == items[from..to]
    requires |queue| <= 8 && |flight| <= 1 && SmallChunks(items, c)
    ensures |BytesOf(queue)| + |BytesOf(flight)| <= 9 * c
  {
    var held := items[from..to];
    BytesOfBound(held, c, 9);
    BytesOfConcat(queue, flight);
  }

  /**
    Backpressure: with chunks of at most c bytes, the channel never holds more
    than 8 messages, and between reads at most c-1 bytes are pending and at most
    10c-1 bytes have been pulled without being delivered.
   */
  lemma BoundedMemory(up: Upstream, hasTail: bool, c: nat, schedule: seq<Action>)
    requires up.Valid() && c >= 1 && SmallChunks(up.items, c)
    requires Run(up, hasTail, SPAWNED, schedule).Some?
    ensures
      var s := Run(up, hasTail, SPAWNED, schedule).value;
      && |s.queue| <= 8
      && (s.reader.Idle? ==>
            && |s.inner.pending| <= c - 1
            && |s.inner.pending| + |BytesOf(s.queue)| + |BytesOf(InFlight(s.producer))| <= 10 * c - 1)
  {
    RunInv(up, hasTail, schedule);
    PendingInv(up, hasTail, c, schedule);
    var s := Run(up, hasTail, SPAWNED, schedule).value;
    if s.reader.Idle? {
      HeldBound(up.items, s.received, s.pulled, s.queue, InFlight(s.producer), c);
    }
  }

  lemma RunSnoc(up: Upstream, hasTail: bool, s: State, schedule: seq<Action>, a: Action)
    requires Run(up, hasTail, s, schedule).Some? && Enabled(up, Run(up, hasTail, s, schedule).value, a)
    ensures Run(up, hasTail, s, schedule + [a]) == Some(Apply(up, hasTail, Run(up, hasTail, s, schedule).value, a))
  {
    assert (schedule + [a])[..|schedule|] == schedule;
  }

  lemma {:induction false} FillChannel(up: Upstream, hasTail: bool, n: nat) returns (schedule: seq<Action>)
    requires up.Valid() && !up.refused && n <= 8 && n <= |up.items|
    requires forall i :: 0 <= i < n ==> up.items[i].Chunk?
    ensures Run(up, hasTail, SPAWNED, schedule).Some?
    ensures
      var s := Run(up, hasTail, SPAWNED, schedule).value;
      && s.producer == Selecting(false) && s.reader.Idle? && s.inner == FRESH
      && s.offered == n + 1 && s.pulled == n && |s.queue| == n
  {
    var actions: seq<Action>;
    if n == 0 {
      schedule, actions := [], [Offer, Connect];
    } else {
      schedule := FillChannel(up, hasTail, n - 1);
      actions := [Offer, PullItem, SendOk];
    }
    hide Run;
    assert Run(up, hasTail, SPAWNED, []) == Some(SPAWNED) by {
      RunNothing(up, hasTail);
    }
    RunSnoc(up, hasTail, SPAWNED, schedule, actions[0]);
    schedule := schedule + [actions[0]];
    RunSnoc(up, hasTail, SPAWNED, schedule, actions[1]);
    schedule := schedule + [actions[1]];
    if n > 0 {
      RunSnoc(up, hasTail, SPAWNED, schedule, SendOk);
      schedule := schedule + [SendOk];
    }
  }

  lemma RunNothing(up: Upstream, hasTail: bool)
    ensures Run(up, hasTail, SPAWNED, []) == Some(SPAWNED)
  {
  }

  /** A producer that holds a ninth message waits, until a read takes one of the eight. */
  lemma NinthWaits(up: Upstream, hasTail: bool, s: State, size: nat)
    requires s.producer.Sending? && |s.queue| == 8 && s.reader.Idle? && s.inner == FRESH && size > 0
    ensures !Enabled(up, s, SendOk)
    ensures
      var reading := Apply(up, hasTail, s, BeginRead(Request(0, size, None)));
      Enabled(up, reading, Recv) && Enabled(up, Apply(up, hasTail, reading, Recv), SendOk)
  {
  }

  /**
    The channel takes 8 messages before anything is read, and no ninth: the
    producer that has pulled it waits, and goes on once the reader takes one.
   */
  lemma {:induction false} ChannelTakesEight(up: Upstream, hasTail: bool, size: nat)
    returns (schedule: seq<Action>)
    requires up.Valid() && !up.refused && |up.items| >= 9 && size > 0
    requires forall i :: 0 <= i < 9 ==> up.items[i].Chunk?
    ensures Run(up, hasTail, SPAWNED, schedule).Some?
    ensures
      var s := Run(up, hasTail, SPAWNED, schedule).value;
      && s.producer == Sending(up.items[8]) && |s.queue| == 8 && s.reader.Idle?
      && !Enabled(up, s, SendOk)
      && (var reading := Apply(up, hasTail, s, BeginRead(Request(0, size, None)));
          Enabled(up, reading, Recv) && Enabled(up, Apply(up, hasTail, reading, Recv), SendOk))
  {
    schedule := FillChannel(up, hasTail, 8);
    hide Run;
    RunSnoc(up, hasTail, SPAWNED, schedule, Offer);
    schedule := schedule + [Offer];
    RunSnoc(up, hasTail, SPAWNED, schedule, PullItem);
    schedule := schedule + [PullItem];
    NinthWaits(up, hasTail, Run(up, hasTail, SPAWNED, schedule).value, size);
  }

  // ------------------------------------------------------------------- progress

  /** The steps that do not come from the handle's user. */
  predicate Internal(a: Action) {
    a != Cancel && a != DropReceiver && !a.BeginRead?
  }

  function SendRank(p: Producer): nat {
    match p case Connecting => 2 case Selecting(_) => 1 case Sending(_) => 3 case Halted => 0
  }

  function ReaderRank(reader: Reader, inner: Inner): nat {
    if reader.Pulling? then (if WantsMore(inner, reader.req.size) then 2 else 1) else 0
  }

  /** Work left: events to offer, items to pull, messages to move, the step to close the read. */
  function Rank(up: Upstream, s: State): nat
    requires s.pulled <= |up.items| && s.offered <= |up.items| + 2
  {
    (|up.items| + 2 - s.offered)
    + 3 * (|up.items| - s.pulled) + SendRank(s.producer) + |s.queue|
    + ReaderRank(s.reader, s.inner)
  }

  /** The producer can do nothing until the upstream comes up with its next event. */
  predicate Stalled(s: State) {
    (s.producer.Connecting? || s.producer == Selecting(false)) && !Ready(s)
  }

  /** An empty channel, a reader that wants more, and a producer that waits for the upstream. */
  predicate ReadStalls(s: State) {
    s.reader.Pulling? && WantsMore(s.inner, s.reader.req.size) && s.queue == [] && Stalled(s)
  }

  lemma RankDrops(up: Upstream, hasTail: bool, s: State, a: Action)
    requires s.pulled <= |up.items| && s.offered <= |up.items| + 2 && Enabled(up, s, a) && Internal(a)
    ensures
      var t := Apply(up, hasTail, s, a);
      t.pulled <= |up.items| && t.offered <= |up.items| + 2 && Rank(up, t) < Rank(up, s)
  {
  }

  /** The step a handle with a waiting read takes, if it does not stall. */
  function NextMove(up: Upstream, s: State): Action {
    if s.reader.Pulling? && !WantsMore(s.inner, s.reader.req.size) then FinishRead
    else if s.queue != [] || s.producer.Halted? then Recv
    else if s.producer.Sending? then SendOk
    else if s.producer == Selecting(true) then ObserveCancel
    else if s.producer.Connecting? then Connect
    else if s.pulled < |up.items| then PullItem
    else PullEof
  }

  /**
    No deadlock: while a read waits, some step of producer or reader can be taken
    unless the channel is empty and the producer waits for the upstream, which
    then still has something to offer. Every step, an offer included, uses up
    rank, so a read ends within Rank steps of an upstream that keeps answering.
   */
  lemma {:induction false} ReadsFinish(up: Upstream, hasTail: bool, schedule: seq<Action>)
    requires up.Valid()
    requires Run(up, hasTail, SPAWNED, schedule).Some?
    ensures
      var s := Run(up, hasTail, SPAWNED, schedule).value;
      && s.pulled <= |up.items| && s.offered <= |up.items| + 2
      && (s.reader.Pulling? ==>
            ((exists a :: Internal(a) && a != Offer && Enabled(up, s, a)) <==> !ReadStalls(s)))
      && (ReadStalls(s) ==> Enabled(up, s, Offer))
      && (forall a :: Internal(a) && Enabled(up, s, a) ==>
            var t := Apply(up, hasTail, s, a);
            t.pulled <= |up.items| && t.offered <= |up.items| + 2 && Rank(up, t) < Rank(up, s))
  {
    RunInv(up, hasTail, schedule);
    var s := Run(up, hasTail, SPAWNED, schedule).value;
    if s.reader.Pulling? && !ReadStalls(s) {
      var a := NextMove(up, s);
      assert Internal(a) && a != Offer && Enabled(up, s, a);
    }
    forall a | Internal(a) && Enabled(up, s, a)
      ensures
        var t := Apply(up, hasTail, s, a);
        t.pulled <= |up.items| && t.offered <= |up.items| + 2 && Rank(up, t) < Rank(up, s)
    {
      RankDrops(up, hasTail, s, a);
    }
  }

  // ------------------------------------------------- cancelling by dropping the receiver

  predicate ProducerAction(a: Action) {
    a.Connect? || a.PullItem? || a.PullEof? || a.ObserveCancel? || a.SendOk? || a.SendClosed?
  }

  function ProducerRank(p: Producer): nat {
    match p case Connecting => 3 case Selecting(_) => 2 case Sending(_) => 1 case Halted => 0
  }

  function ProducerSteps(schedule: seq<Action>): nat {
    if schedule == [] then 0
    else ProducerSteps(schedule[..|schedule| - 1]) + (if ProducerAction(schedule[|schedule| - 1]) then 1 else 0)
  }

  function Offers(schedule: seq<Action>): nat {
    if schedule == [] then 0
    else Offers(schedule[..|schedule| - 1]) + (if schedule[|schedule| - 1].Offer? then 1 else 0)
  }

  /** The one item a producer that has not sent yet may still pull. */
  function MayPull(p: Producer): nat {
    if p.Connecting? || p.Selecting? then 1 else 0
  }

  /**
    Upstream events still missing before a producer whose receiver is gone can
    halt: none once it has been notified, is sending or has halted, else its next
    event, and before that the answer to the connection.
   */
  function EventsMissing(up: Upstream, s: State): nat {
    match s.producer
    case Halted => 0
    case Sending(_) => 0
    case Selecting(notified) => if notified || Ready(s) then 0 else 1
    case Connecting =>
      var needed := if up.refused then 1 else 2;
      if s.offered >= needed then 0 else needed - s.offered
  }

  /** With the receiver gone, every step of the producer brings it closer to its end. */
  lemma DroppedStep(up: Upstream, hasTail: bool, s: State, a: Action)
    requires ChannelOk(up, s) && s.reader.Dropped? && Enabled(up, s, a)
    ensures
      var t := Apply(up, hasTail, s, a);
      && t.reader.Dropped?
      && t.pulled + MayPull(t.producer) <= s.pulled + MayPull(s.producer)
      && s.pulled <= t.pulled
      && ProducerRank(t.producer) <= ProducerRank(s.producer)
      && (ProducerAction(a) ==> ProducerRank(t.producer) < ProducerRank(s.producer))
      && EventsMissing(up, s) <= EventsMissing(up, t) + (if a.Offer? then 1 else 0)
  {
    hide Holds;
  }

  lemma {:induction false} DroppedRun(up: Upstream, hasTail: bool, s: State, schedule: seq<Action>)
    requires ChannelOk(up, s) && s.reader.Dropped? && Run(up, hasTail, s, schedule).Some?
    ensures
      var t := Run(up, hasTail, s, schedule).value;
      && ChannelOk(up, t)
      && t.reader.Dropped?
      && s.pulled <= t.pulled
      && t.pulled + MayPull(t.producer) <= s.pulled + MayPull(s.producer)
      && ProducerSteps(schedule) + ProducerRank(t.producer) <= ProducerRank(s.producer)
      && EventsMissing(up, s) <= EventsMissing(up, t) + Offers(schedule)
  {
    if schedule != [] {
      hide ChannelOk, MayPull, ProducerRank, EventsMissing, Enabled, Apply;
      var before, a := schedule[..|schedule| - 1], schedule[|schedule| - 1];
      DroppedRun(up, hasTail, s, before);
      DroppedStep(up, hasTail, Run(up, hasTail, s, before).value, a);
      ChannelStep(up, hasTail, Run(up, hasTail, s, before).value, a);
    }
  }

  /**
    Cancellation is never lost. From any state in which the receiver is gone,
    wherever the producer was waiting and whether or not a notification reached
    it: it pulls at most one further item and takes at most three steps; until it
    has halted it can always move, unless it waits for the upstream, and that is
    so only while events are missing; it never waits for a reader.
   */
  lemma {:induction false} CancelNeverLost(up: Upstream, hasTail: bool, s: State, schedule: seq<Action>)
    requires ChannelOk(up, s) && s.reader.Dropped? && Run(up, hasTail, s, schedule).Some?
    ensures
      var t := Run(up, hasTail, s, schedule).value;
      && t.pulled <= s.pulled + 1
      && ProducerSteps(schedule) <= 3
      && (ProducerSteps(schedule) == ProducerRank(s.producer) ==> t.producer.Halted?)
      && (!t.producer.Halted? ==>
            ((exists a :: ProducerAction(a) && Enabled(up, t, a)) <==> !Stalled(t)))
      && (Stalled(t) ==> EventsMissing(up, t) > 0 && Enabled(up, t, Offer))
  {
    DroppedRun(up, hasTail, s, schedule);
    var t := Run(up, hasTail, s, schedule).value;
    if !t.producer.Halted? && !Stalled(t) {
      var a := DroppedMove(up, t);
      assert ProducerAction(a) && Enabled(up, t, a);
    }
  }

  /** The step a producer without a reader takes, if it does not stall. */
  function DroppedMove(up: Upstream, s: State): Action {
    if s.producer == Selecting(true) then ObserveCancel
    else if s.producer.Connecting? then Connect
    else if s.producer.Sending? then SendClosed
    else if s.pulled < |up.items| then PullItem
    else PullEof
  }

  /** The producer can come to its end after `n` more upstream events, and no more. */
  ghost predicate HaltsWithin(up: Upstream, hasTail: bool, s: State, n: nat) {
    exists more ::
      Offers(more) <= n && Run(up, hasTail, s, more).Some? && Run(up, hasTail, s, more).value.producer.Halted?
  }

  lemma {:induction false} RunOn(up: Upstream, hasTail: bool, s: State, a: Action, more: seq<Action>)
    requires Enabled(up, s, a)
    ensures Run(up, hasTail, s, [a] + more) == Run(up, hasTail, Apply(up, hasTail, s, a), more)
    ensures Offers([a] + more) == Offers(more) + (if a.Offer? then 1 else 0)
  {
    if more == [] {
      assert [a] + more == [a];
      assert [a][..0] == [];
      assert Run(up, hasTail, s, [a][..0]) == Some(s);
      assert Offers([a][..0]) == 0;
    } else {
      RunOn(up, hasTail, s, a, more[..|more| - 1]);
      assert ([a] + more)[..|more|] == [a] + more[..|more| - 1];
    }
  }

  lemma {:induction false} HaltsByMoving(up: Upstream, hasTail: bool, s: State, n: nat)
    requires ChannelOk(up, s) && s.reader.Dropped? && EventsMissing(up, s) <= n
    ensures HaltsWithin(up, hasTail, s, n)
    decreases n + ProducerRank(s.producer)
  {
    if s.producer.Halted? {
      assert Run(up, hasTail, s, []) == Some(s) && Offers([]) == 0;
    } else {
      var a := if Stalled(s) then Offer else DroppedMove(up, s);
      var t := Apply(up, hasTail, s, a);
      var m := if a.Offer? then n - 1 else n;
      ChannelStep(up, hasTail, s, a);
      HaltsByMoving(up, hasTail, t, m);
      var more :|
        Offers(more) <= m && Run(up, hasTail, t, more).Some? && Run(up, hasTail, t, more).value.producer.Halted?;
      RunOn(up, hasTail, s, a, more);
    }
  }

  /**
    Exactly how much a dropped producer still needs from the upstream: it can
    halt within n more events if and only if no more than n are missing. So it
    halts with nothing more just when it is notified, sending, halted or has its
    next event at hand, and a silent upstream holds up every other one.
   */
  lemma {:induction false} DroppedHaltCondition(up: Upstream, hasTail: bool, s: State, n: nat)
    requires ChannelOk(up, s) && s.reader.Dropped?
    ensures HaltsWithin(up, hasTail, s, n) <==> EventsMissing(up, s) <= n
  {
    if HaltsWithin(up, hasTail, s, n) {
      var more :|
        Offers(more) <= n && Run(up, hasTail, s, more).Some? && Run(up, hasTail, s, more).value.producer.Halted?;
      DroppedRun(up, hasTail, s, more);
    }
    if EventsMissing(up, s) <= n {
      HaltsByMoving(up, hasTail, s, n);
    }
  }

  // ------------------------------------------------------------- the notification alone

  /** Nobody cancels and nobody drops the receiver. */
  predicate Quiet(schedule: seq<Action>) {
    Cancel !in schedule && DropReceiver !in schedule
  }

  /** No notification is pending, and a producer that has halted has pulled everything. */
  ghost predicate Unnotified(up: Upstream, s: State) {
    && ChannelOk(up, s)
    && !s.reader.Dropped?
    && s.producer != Selecting(true)
    && (s.producer.Halted? ==> s.pulled == |up.items|)
  }

  lemma UnnotifiedStep(up: Upstream, hasTail: bool, s: State, a: Action)
    requires Unnotified(up, s) && Enabled(up, s, a) && a != Cancel && a != DropReceiver
    ensures a != ObserveCancel && Unnotified(up, Apply(up, hasTail, s, a))
  {
    hide Holds;
    ChannelStep(up, hasTail, s, a);
  }

  lemma {:induction false} UnnotifiedRun(up: Upstream, hasTail: bool, s: State, more: seq<Action>)
    requires Unnotified(up, s) && Quiet(more) && Run(up, hasTail, s, more).Some?
    ensures Unnotified(up, Run(up, hasTail, s, more).value) && ObserveCancel !in more
  {
    if more != [] {
      hide Unnotified;
      var before, a := more[..|more| - 1], more[|more| - 1];
      UnnotifiedRun(up, hasTail, s, before);
      UnnotifiedStep(up, hasTail, Run(up, hasTail, s, before).value, a);
      assert more == before + [a];
    }
  }

  /** From `s` on, with no further cancel and no drop, the producer can come to see a notification. */
  ghost predicate CanObserve(up: Upstream, hasTail: bool, s: State) {
    exists more ::
      Quiet(more) && Run(up, hasTail, s, more).Some? && Enabled(up, Run(up, hasTail, s, more).value, ObserveCancel)
  }

  /**
    Exactly which cancel notifications are lost: a cancel of a handle not
    cancelled before can be observed if and only if the producer was waiting at
    its select at that moment. Otherwise it halts only after pulling everything.
   */
  lemma {:induction false} NotificationReachesOnlyAWaiter(
      up: Upstream, hasTail: bool, schedule: seq<Action>, more: seq<Action>)
    requires up.Valid() && Run(up, hasTail, SPAWNED, schedule).Some?
    requires !Run(up, hasTail, SPAWNED, schedule).value.cancelled
    ensures
      var s := Run(up, hasTail, SPAWNED, schedule).value;
      && Enabled(up, s, Cancel)
      && (CanObserve(up, hasTail, Apply(up, hasTail, s, Cancel)) <==> s.producer.Selecting?)
    ensures
      var s := Run(up, hasTail, SPAWNED, schedule).value;
      var t := Apply(up, hasTail, s, Cancel);
      !s.producer.Selecting? && Quiet(more) && Run(up, hasTail, t, more).Some? ==>
        var end := Run(up, hasTail, t, more).value;
        end.producer.Halted? ==> end.pulled == |up.items|
  {
    RunInv(up, hasTail, schedule);
    var s := Run(up, hasTail, SPAWNED, schedule).value;
    var t := Apply(up, hasTail, s, Cancel);
    ChannelStep(up, hasTail, s, Cancel);
    if s.producer.Selecting? {
      assert Quiet([]) && Run(up, hasTail, t, []) == Some(t) && Enabled(up, t, ObserveCancel);
    } else {
      assert Unnotified(up, t);
      NoneObserved(up, hasTail, t);
      if Quiet(more) && Run(up, hasTail, t, more).Some? {
        UnnotifiedRun(up, hasTail, t, more);
      }
    }
  }

  lemma {:induction false} NoneObserved(up: Upstream, hasTail: bool, s: State)
    requires Unnotified(up, s)
    ensures !CanObserve(up, hasTail, s)
  {
    forall more | Quiet(more) && Run(up, hasTail, s, more).Some?
      ensures !Enabled(up, Run(up, hasTail, s, more).value, ObserveCancel)
    {
      UnnotifiedRun(up, hasTail, s, more);
    }
  }

  /**
    And a waiter that was reached can still lose it: if it takes a chunk that is
    ready instead, and sends it, the notification is gone for good.
   */
  lemma {:induction false} PullForgetsNotification(up: Upstream, hasTail: bool, schedule: seq<Action>)
    requires up.Valid() && Run(up, hasTail, SPAWNED, schedule).Some?
    requires
      var s := Run(up, hasTail, SPAWNED, schedule).value;
      && s.producer == Selecting(true) && !s.reader.Dropped? && Enabled(up, s, PullItem)
      && up.items[s.pulled].Chunk? && |s.queue| < CHANNEL_CAPACITY
    ensures
      var s := Run(up, hasTail, SPAWNED, schedule).value;
      var sending := Apply(up, hasTail, s, PullItem);
      && Enabled(up, sending, SendOk)
      && !CanObserve(up, hasTail, Apply(up, hasTail, sending, SendOk))
  {
    RunInv(up, hasTail, schedule);
    var s := Run(up, hasTail, SPAWNED, schedule).value;
    var sending := Apply(up, hasTail, s, PullItem);
    ChannelStep(up, hasTail, s, PullItem);
    ChannelStep(up, hasTail, sending, SendOk);
    NoneObserved(up, hasTail, Apply(up, hasTail, sending, SendOk));
  }
}
