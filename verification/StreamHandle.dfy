/** The stream handle as an object whose fields `read_blocking` updates in place. */
module StreamHandles {
  import opened Common
  import opened StreamModel
  import Tsv

  class StreamHandle {
    /** Whether the handle was opened with a tail context. */
    const hasTail: bool
    /** What the messages of this handle amount to. */
    ghost const file: File

    /** The messages the channel will still hand over, in order. */
    var rx: seq<Message>
    var pending: seq<Byte>
    var pos: nat
    var upstreamDone: bool
    var lastErr: Option<QueryError>
    var tailBuf: Option<seq<Byte>>
    var tailAttempted: bool
    var reverseWarned: bool

    ghost function Fields(): Inner
      reads this
    {
      Inner(pending, pos, upstreamDone, lastErr, Tail(tailBuf, tailAttempted))
    }

    /** The byte string with a cursor this handle currently stands for. */
    ghost function Meaning(): View
      reads this
    {
      ViewOf(file, Fields())
    }

    ghost predicate Valid()
      reads this
    {
      && Couples(file, Fields(), rx, Meaning())
      && file.hasTail == hasTail
      && (tailBuf.Some? ==> tailAttempted)
    }

    constructor (messages: seq<Message>, hasTail: bool)
      requires FailsLast(messages)
      ensures Valid()
      ensures file == File(BytesOf(messages), ErrorOf(messages), hasTail)
      ensures Meaning() == START && !reverseWarned
    {
      this.hasTail := hasTail;
      file := File(BytesOf(messages), ErrorOf(messages), hasTail);
      rx := messages;
      pending, pos, upstreamDone, lastErr := [], 0, false, None;
      tailBuf, tailAttempted, reverseWarned := None, false, false;
    }

    /** The channel's receive: the next message, or None once it is closed and empty. */
    method Recv() returns (message: Option<Message>)
      modifies `rx
      ensures old(rx) == [] ==> message.None? && rx == []
      ensures old(rx) != [] ==> message == Some(old(rx)[0]) && rx == old(rx)[1..]
    {
      if rx == [] {
        message := None;
      } else {
        message := Some(rx[0]);
        rx := rx[1..];
      }
    }

    /** Pull until `size` bytes are pending or the upstream has ended. */
    method FillPending(size: nat)
      modifies `rx, `pending, `upstreamDone, `lastErr
      ensures (Fields(), rx) == PullAll(old(Fields()), old(rx), size)
    {
      while |pending| < size && !upstreamDone
        invariant PullAll(Fields(), rx, size) == PullAll(old(Fields()), old(rx), size)
        invariant pos == old(pos) && tailBuf == old(tailBuf) && tailAttempted == old(tailAttempted)
        decreases |rx|, !upstreamDone
      {
        var message := Recv();
        match message
        case Some(Chunk(bytes)) => pending := pending + bytes;
        case Some(Fail(e)) =>
          upstreamDone := true;
          lastErr := Some(e);
        case None => upstreamDone := true;
      }
    }

    /** Step 1 of a read: materialize the tail buffer, at most once, from the answer `body`. */
    method MaybeMaterialize(offset: nat, size: nat, body: Option<seq<Byte>>)
      modifies `tailBuf, `tailAttempted
      ensures
        Tail(tailBuf, tailAttempted)
        == TailAfter(hasTail, old(Fields()).tail, pos, Request(offset, size, Buffer(body)))
      ensures tailBuf.Some? ==> tailAttempted || tailBuf == old(tailBuf)
      ensures old(tailAttempted) ==> tailAttempted
      ensures
        var due := hasTail && !old(tailAttempted) && old(tailBuf).None? && offset > pos + 32 * 1024 * 1024;
        offset <= 0xFFFF_FFFF_FFFF_FFFF ==>
          && tailAttempted == (old(tailAttempted) || due)
          && tailBuf == (if due then Buffer(body) else old(tailBuf))
    {
      if offset != pos && !tailAttempted && tailBuf.None? && hasTail
         && offset > SaturatingAdd(pos, TAIL_TRIGGER_GAP) {
        tailAttempted := true;
        if body.Some? {
          var buf := Tsv.ReverseTsvRows(body.value);
          tailBuf := Some(buf);
        }
      }
    }

    /** Step 2 of a read: everything under the second lock, with the tail settled. */
    method Serve(offset: nat, size: nat) returns (result: ReadResult)
      requires !NeedsTail(hasTail, Fields().tail, pos, offset)
      modifies this
      ensures
        (Fields(), rx, result) == ReadFrom(hasTail, old(Fields()), old(rx), Request(offset, size, None))
      ensures reverseWarned == (old(reverseWarned) || (result.ReadOrder? && offset < old(pos)))
    {
      hide PullAll;
      if offset == pos && lastErr.Some? {
        result := QueryFailed(lastErr.value);
        lastErr := None;
        return;
      }
      if tailBuf.Some? {
        var buf := tailBuf.value;
        var origin := TailOrigin(buf);
        if origin <= offset < PSEUDO_EOF {
          // The guard for an index past the buffer cannot fire here.
          var local := offset - origin;
          return Data(buf[local..local + Min(size, |buf| - local)]);
        }
        if offset >= PSEUDO_EOF {
          return Data([]);
        }
      }
      if offset != pos {
        reverseWarned := reverseWarned || offset < pos;
        return ReadOrder(pos, offset);
      }
      FillPending(size);
      if pending == [] && lastErr.Some? {
        result := QueryFailed(lastErr.value);
        lastErr := None;
        return;
      }
      var take := Min(size, |pending|);
      result := Data(pending[..take]);
      pending := pending[take..];
      pos := pos + take;
    }

    /**
      A read of `size` bytes at `offset`; `body` is what the tail query would
      answer. The handle moves exactly as the file it stands for.
     */
    method ReadBlocking(offset: nat, size: nat, body: Option<seq<Byte>>) returns (result: ReadResult)
      requires Valid()
      modifies this
      ensures Valid()
      ensures (Meaning(), result) == ViewRead(file, old(Meaning()), Request(offset, size, Buffer(body)))
      ensures reverseWarned == (old(reverseWarned) || (result.ReadOrder? && offset < old(pos)))
      ensures
        var due := hasTail && !old(tailAttempted) && offset > old(pos) + 32 * 1024 * 1024;
        offset <= 0xFFFF_FFFF_FFFF_FFFF ==>
          && tailAttempted == (old(tailAttempted) || due)
          && tailBuf == (if due then Buffer(body) else old(tailBuf))
    {
      hide ReadFrom, ViewRead, NeedsTail, TailAfter, Buffer;
      ghost var before, backlog, req := Fields(), rx, Request(offset, size, Buffer(body));
      ReadRefines(file, before, backlog, Meaning(), req);
      MaybeMaterialize(offset, size, body);
      TailSettles(hasTail, before, backlog, req);
      ReadKeepsTail(hasTail, Fields(), rx, Request(offset, size, None));
      result := Serve(offset, size);
      assert (Fields(), rx, result) == ReadFrom(hasTail, before, backlog, req);
      CoupledViewIsUnique(file, Fields(), rx, ViewRead(file, ViewOf(file, before), req).0);
    }
  }

  function Buffer(body: Option<seq<Byte>>): Option<seq<Byte>> {
    if body.Some? then Some(Tsv.ReversedRows(body.value)) else None
  }

  /** A read after its own materialization step no longer wants one. */
  lemma TailSettles(hasTail: bool, inner: Inner, rx: seq<Message>, req: Request)
    ensures
      var settled := inner.(tail := TailAfter(hasTail, inner.tail, inner.pos, req));
      && !NeedsTail(hasTail, settled.tail, inner.pos, req.offset)
      && ReadFrom(hasTail, settled, rx, req.(materialized := None)) == ReadFrom(hasTail, inner, rx, req)
  {
  }

  lemma {:induction false} PullKeepsTail(inner: Inner, rx: seq<Message>, size: nat)
    ensures PullAll(inner, rx, size).0.tail == inner.tail
    decreases |rx|
  {
    if WantsMore(inner, size) && rx != [] {
      PullKeepsTail(Receive(inner, Some(rx[0])), rx[1..], size);
    }
  }

  /** With the tail settled, the rest of a read leaves it alone. */
  lemma ReadKeepsTail(hasTail: bool, inner: Inner, rx: seq<Message>, req: Request)
    requires !NeedsTail(hasTail, inner.tail, inner.pos, req.offset)
    ensures ReadFrom(hasTail, inner, rx, req).0.tail == inner.tail
  {
    PullKeepsTail(inner, rx, req.size);
  }
}
