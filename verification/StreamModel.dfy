/**
  The reader half of the streaming bridge, as pure steps over the fields the
  handle keeps under its lock, and the plain file it is meant to look like: a
  byte string with a cursor, plus a tail window pinned to PSEUDO_EOF.
 */
module StreamModel {
  import opened Common

  const CHANNEL_CAPACITY: nat := 8
  const PSEUDO_EOF: nat := 0x7FFF_FFFF_FFFF_FFFF
  const TAIL_TRIGGER_GAP: nat := 0x200_0000

  datatype QueryError = QueryError(code: nat)

  /** What travels through the channel from the producer task to the reader. */
  datatype Message = Chunk(bytes: seq<Byte>) | Fail(error: QueryError)

  datatype ReadResult =
    | Data(bytes: seq<Byte>)
    | QueryFailed(error: QueryError)
    | ReadOrder(expected: nat, got: nat)

  /** `buf` is the materialized tail; `attempted` records that the query was tried. */
  datatype Tail = Tail(buf: Option<seq<Byte>>, attempted: bool)

  /** A read, with the answer the tail query would give if this read issued it. */
  datatype Request = Request(offset: nat, size: nat, materialized: Option<seq<Byte>>)

  /** The fields behind the handle's lock, without the channel. */
  datatype Inner = Inner(
    pending: seq<Byte>,
    pos: nat,
    upstreamDone: bool,
    lastErr: Option<QueryError>,
    tail: Tail)

  const FRESH := Inner([], 0, false, None, Tail(None, false))

  // ---------------------------------------------------------------- tail window

  function SaturatingAdd(a: nat, b: nat): nat {
    Min(a + b, U64_MAX)
  }

  predicate NeedsTail(hasTail: bool, tail: Tail, pos: nat, offset: nat) {
    && offset != pos
    && !tail.attempted
    && tail.buf.None?
    && hasTail
    && offset > SaturatingAdd(pos, TAIL_TRIGGER_GAP)
  }

  function TailAfter(hasTail: bool, tail: Tail, pos: nat, req: Request): Tail {
    if NeedsTail(hasTail, tail, pos, req.offset) then Tail(req.materialized, true) else tail
  }

  function TailOrigin(buf: seq<Byte>): nat {
    if |buf| <= PSEUDO_EOF then PSEUDO_EOF - |buf| else 0
  }

  /** The bytes a materialized tail answers with, or None to fall through. */
  function TailHit(tail: Tail, offset: nat, size: nat): Option<seq<Byte>> {
    match tail.buf
    case None => None
    case Some(buf) =>
      var origin := TailOrigin(buf);
      if origin <= offset < PSEUDO_EOF then
        var local := offset - origin;
        if local >= |buf| then Some([]) else Some(buf[local..local + Min(size, |buf| - local)])
      else if offset >= PSEUDO_EOF then Some([])
      else None
  }

  // ------------------------------------------------------------- reader's steps

  datatype Entry = Answered(inner: Inner, result: ReadResult) | Pull(inner: Inner)

  /** Everything `read_blocking` does before its receive loop. */
  function Enter(hasTail: bool, inner: Inner, req: Request): Entry {
    var i := inner.(tail := TailAfter(hasTail, inner.tail, inner.pos, req));
    if req.offset == i.pos && i.lastErr.Some? then
      Answered(i.(lastErr := None), QueryFailed(i.lastErr.value))
    else
      match TailHit(i.tail, req.offset, req.size)
      case Some(bytes) => Answered(i, Data(bytes))
      case None =>
        if req.offset != i.pos then Answered(i, ReadOrder(i.pos, req.offset)) else Pull(i)
  }

  predicate WantsMore(inner: Inner, size: nat) {
    |inner.pending| < size && !inner.upstreamDone
  }

  /** One turn of the receive loop; None is a closed and drained channel. */
  function Receive(inner: Inner, message: Option<Message>): Inner {
    match message
    case Some(Chunk(bytes)) => inner.(pending := inner.pending + bytes)
    case Some(Fail(e)) => inner.(upstreamDone := true, lastErr := Some(e))
    case None => inner.(upstreamDone := true)
  }

  /** What happens after the receive loop. */
  function Finish(inner: Inner, size: nat): (Inner, ReadResult) {
    if inner.pending == [] && inner.lastErr.Some? then
      (inner.(lastErr := None), QueryFailed(inner.lastErr.value))
    else
      var take := Min(size, |inner.pending|);
      (inner.(pending := inner.pending[take..], pos := inner.pos + take),
       Data(inner.pending[..take]))
  }

  /** The receive loop run against the messages `rx` the channel still has to deliver. */
  function PullAll(inner: Inner, rx: seq<Message>, size: nat): (Inner, seq<Message>)
    decreases |rx|
  {
    if !WantsMore(inner, size) then (inner, rx)
    else if rx == [] then (Receive(inner, None), [])
    else PullAll(Receive(inner, Some(rx[0])), rx[1..], size)
  }

  /** A whole `read_blocking` call: new fields, messages left, result. */
  function ReadFrom(hasTail: bool, inner: Inner, rx: seq<Message>, req: Request):
    (Inner, seq<Message>, ReadResult)
  {
    match Enter(hasTail, inner, req)
    case Answered(i, result) => (i, rx, result)
    case Pull(i) =>
      var (i', rx') := PullAll(i, rx, req.size);
      var (i'', result) := Finish(i', req.size);
      (i'', rx', result)
  }

  // -------------------------------------------------- the file it should look like

  /** The whole result of the query: its bytes, and the error that cut it short, if any. */
  datatype File = File(content: seq<Byte>, outcome: Option<QueryError>, hasTail: bool)

  /** Whether the query's error is still ahead, waits for the next read, or was returned. */
  datatype Mark = Ahead | Stored | Taken

  datatype View = View(pos: nat, mark: Mark, tail: Tail)

  const START := View(0, Ahead, Tail(None, false))

  /** A read at the cursor of a byte string that may end in one error. */
  function CursorRead(file: File, v: View, size: nat): (View, ReadResult)
    requires v.pos <= |file.content|
  {
    var rest := file.content[v.pos..];
    if size <= |rest| then
      (v.(pos := v.pos + size), Data(rest[..size]))
    else if file.outcome.None? || v.mark != Ahead then
      (v.(pos := |file.content|), Data(rest))
    else if rest == [] then
      (v.(mark := Taken), QueryFailed(file.outcome.value))
    else
      (v.(pos := |file.content|, mark := Stored), Data(rest))
  }

  predicate ViewValid(file: File, v: View) {
    && v.pos <= |file.content|
    && (v.mark != Ahead ==> file.outcome.Some? && v.pos == |file.content|)
  }

  function ViewRead(file: File, v: View, req: Request): (r: (View, ReadResult))
    requires ViewValid(file, v)
    ensures ViewValid(file, r.0)
  {
    var v1 := v.(tail := TailAfter(file.hasTail, v.tail, v.pos, req));
    if req.offset == v.pos && v.mark == Stored then
      (v1.(mark := Taken), QueryFailed(file.outcome.value))
    else
      match TailHit(v1.tail, req.offset, req.size)
      case Some(bytes) => (v1, Data(bytes))
      case None =>
        if req.offset != v.pos then (v1, ReadOrder(v.pos, req.offset))
        else CursorRead(file, v1, req.size)
  }

  /** The view after a list of reads. */
  function ViewAfter(file: File, reqs: seq<Request>): (v: View)
    ensures ViewValid(file, v)
  {
    if reqs == [] then START
    else ViewRead(file, ViewAfter(file, reqs[..|reqs| - 1]), reqs[|reqs| - 1]).0
  }

  // --------------------------------------------------------- reader refines the file

  function BytesOf(rx: seq<Message>): seq<Byte> {
    if rx == [] then []
    else (if rx[0].Chunk? then rx[0].bytes else []) + BytesOf(rx[1..])
  }

  function ErrorOf(rx: seq<Message>): Option<QueryError> {
    if rx == [] then None
    else if rx[0].Fail? then Some(rx[0].error)
    else ErrorOf(rx[1..])
  }

  /** The producer stops after an error, so an error is the last message. */
  predicate FailsLast(rx: seq<Message>) {
    forall i :: 0 <= i < |rx| - 1 ==> rx[i].Chunk?
  }

  /**
    Between reads the handle holding `inner` with `rx` still to come stands for
    the view `v` of `file`.
   */
  ghost predicate Couples(file: File, inner: Inner, rx: seq<Message>, v: View) {
    && ViewValid(file, v)
    && inner.pos == v.pos
    && inner.tail == v.tail
    && FailsLast(rx)
    && inner.pending + BytesOf(rx) == file.content[v.pos..]
    && (if inner.upstreamDone then
          && inner.pending == []
          && rx == []
          && inner.lastErr == (if v.mark == Stored then file.outcome else None)
          && (v.mark == Ahead ==> file.outcome.None?)
        else
          && inner.lastErr.None?
          && v.mark == Ahead
          && ErrorOf(rx) == file.outcome)
  }

  /** The view a handle with these fields stands for between reads. */
  function ViewOf(file: File, inner: Inner): View {
    View(inner.pos,
         if inner.lastErr.Some? then Stored
         else if inner.upstreamDone && file.outcome.Some? then Taken
         else Ahead,
         inner.tail)
  }

  lemma CoupledViewIsUnique(file: File, inner: Inner, rx: seq<Message>, v: View)
    requires Couples(file, inner, rx, v)
    ensures v == ViewOf(file, inner)
  {
  }

  /** What the receive loop leaves behind depends on the bytes and error to come, not on the chunking. */
  lemma {:induction false} PullGathers(inner: Inner, rx: seq<Message>, size: nat)
    requires !inner.upstreamDone && inner.lastErr.None? && FailsLast(rx)
    ensures
      var rest := inner.pending + BytesOf(rx);
      var (i', rx') := PullAll(inner, rx, size);
      && i'.pos == inner.pos && i'.tail == inner.tail
      && FailsLast(rx')
      && i'.pending + BytesOf(rx') == rest
      && (if size <= |rest| then
            !i'.upstreamDone && i'.lastErr.None? && ErrorOf(rx') == ErrorOf(rx) && size <= |i'.pending|
          else
            i'.upstreamDone && i'.lastErr == ErrorOf(rx) && rx' == [] && i'.pending == rest)
    decreases |rx|
  {
    if WantsMore(inner, size) && rx != [] {
      if rx[0].Fail? {
        assert rx[1..] == [];
      } else {
        var next := Receive(inner, Some(rx[0]));
        assert next.pending + BytesOf(rx[1..]) == inner.pending + BytesOf(rx);
        PullGathers(next, rx[1..], size);
      }
    }
  }

  /** The receive loop and what follows it are one read at the cursor. */
  lemma PullRefines(file: File, inner: Inner, rx: seq<Message>, v: View, size: nat)
    requires Couples(file, inner, rx, v) && !inner.upstreamDone
    ensures
      var (i', rx') := PullAll(inner, rx, size);
      var (i'', result) := Finish(i', size);
      var (v', expected) := CursorRead(file, v, size);
      result == expected && Couples(file, i'', rx', v')
  {
    hide PullAll, BytesOf, ErrorOf, FailsLast;
    PullGathers(inner, rx, size);
    var rest := file.content[v.pos..];
    var (i', rx') := PullAll(inner, rx, size);
    var take := Min(size, |i'.pending|);
    if size <= |rest| {
      assert i'.pending[..take] == rest[..take];
      assert i'.pending[take..] + BytesOf(rx') == rest[take..] == file.content[v.pos + take..];
    } else {
      assert i'.pending[..take] == rest;
      assert file.content[|file.content|..] == [];
    }
  }

  /**
    One read of the handle is one read of the byte string, whatever the chunk
    boundaries of the messages still to come.
   */
  lemma ReadRefines(file: File, inner: Inner, rx: seq<Message>, v: View, req: Request)
    requires Couples(file, inner, rx, v)
    ensures
      var (i', rx', result) := ReadFrom(file.hasTail, inner, rx, req);
      var (v', expected) := ViewRead(file, v, req);
      result == expected && Couples(file, i', rx', v')
  {
    match Enter(file.hasTail, inner, req)
    case Answered(_, _) =>
    case Pull(i) =>
      var v1 := v.(tail := i.tail);
      assert Couples(file, i, rx, v1);
      if !i.upstreamDone {
        PullRefines(file, i, rx, v1, req.size);
      } else {
        assert PullAll(i, rx, req.size) == (i, rx);
        assert |file.content[v.pos..]| == 0;
      }
  }
}
