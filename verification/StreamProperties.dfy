/**
  What a client of one handle can rely on over any serial run of reads. The
  statements are about the byte string with a cursor; the last section carries
  them over to every schedule of the bridge.
 */
module StreamProperties {
  import opened Common
  import opened StreamModel
  import opened StreamBridge
  import opened StreamTheorems

  // ----------------------------------------------------------- non-interference

  /** Whenever a tail is installed, the cursor is still below its window. */
  ghost predicate BelowTail(v: View) {
    v.tail.buf.Some? ==> v.pos < TailOrigin(v.tail.buf.value)
  }

  ghost predicate StaysBelowTail(file: File, reqs: seq<Request>) {
    && (reqs != [] ==> StaysBelowTail(file, reqs[..|reqs| - 1]))
    && BelowTail(ViewAfter(file, reqs))
  }

  ghost predicate TailFits(file: File, buf: Option<seq<Byte>>) {
    buf.Some? ==> |file.content| + |buf.value| < PSEUDO_EOF
  }

  lemma TailFitsStep(file: File, v: View, req: Request)
    requires ViewValid(file, v) && TailFits(file, v.tail.buf) && TailFits(file, req.materialized)
    ensures
      var v' := ViewRead(file, v, req).0;
      TailFits(file, v'.tail.buf) && BelowTail(v')
  {
  }

  /** Content and tail that together fit below PSEUDO_EOF keep every run below its tail. */
  lemma {:induction false} SmallFilesStayBelowTail(file: File, reqs: seq<Request>)
    requires forall k :: 0 <= k < |reqs| ==> TailFits(file, reqs[k].materialized)
    ensures StaysBelowTail(file, reqs)
    ensures TailFits(file, ViewAfter(file, reqs).tail.buf)
  {
    if reqs != [] {
      hide ViewRead, TailFits, BelowTail;
      var before, last := reqs[..|reqs| - 1], reqs[|reqs| - 1];
      SmallFilesStayBelowTail(file, before);
      TailFitsStep(file, ViewAfter(file, before), last);
    }
  }

  function Results(file: File, reqs: seq<Request>): seq<ReadResult> {
    if reqs == [] then []
    else
      var before, last := reqs[..|reqs| - 1], reqs[|reqs| - 1];
      Results(file, before) + [ViewRead(file, ViewAfter(file, before), last).1]
  }

  /** The reads of a run that were made at the cursor of their time. */
  function CursorReads(file: File, reqs: seq<Request>): seq<Request> {
    if reqs == [] then []
    else
      var before, last := reqs[..|reqs| - 1], reqs[|reqs| - 1];
      CursorReads(file, before) + (if last.offset == ViewAfter(file, before).pos then [last] else [])
  }

  /** What those reads got in the full run. */
  function CursorResults(file: File, reqs: seq<Request>): seq<ReadResult> {
    if reqs == [] then []
    else
      var before, last := reqs[..|reqs| - 1], reqs[|reqs| - 1];
      var v := ViewAfter(file, before);
      CursorResults(file, before) + (if last.offset == v.pos then [ViewRead(file, v, last).1] else [])
  }

  lemma OffCursorRead(file: File, v: View, req: Request)
    requires ViewValid(file, v) && req.offset != v.pos
    ensures
      var v' := ViewRead(file, v, req).0;
      v'.pos == v.pos && v'.mark == v.mark
  {
  }

  lemma AtCursorRead(file: File, v: View, plain: View, req: Request)
    requires ViewValid(file, v) && ViewValid(file, plain)
    requires req.offset == v.pos && BelowTail(v)
    requires plain.pos == v.pos && plain.mark == v.mark && plain.tail.buf.None?
    ensures
      var (v', result) := ViewRead(file, v, req);
      var (plain', expected) := ViewRead(file, plain, req);
      && result == expected
      && v'.pos == plain'.pos && v'.mark == plain'.mark && plain'.tail.buf.None?
  {
    assert TailHit(v.tail, req.offset, req.size).None?;
  }

  /**
    Failed seeks, tail reads and the read that triggers the tail query can be
    erased from a run without changing what any read at the cursor returns, or
    where the cursor ends.
   */
  lemma {:induction false} NonInterference(file: File, reqs: seq<Request>)
    requires StaysBelowTail(file, reqs)
    ensures Results(file, CursorReads(file, reqs)) == CursorResults(file, reqs)
    ensures
      var v, plain := ViewAfter(file, reqs), ViewAfter(file, CursorReads(file, reqs));
      v.pos == plain.pos && v.mark == plain.mark && plain.tail.buf.None?
  {
    if reqs != [] {
      var before, last := reqs[..|reqs| - 1], reqs[|reqs| - 1];
      NonInterference(file, before);
      var v, kept := ViewAfter(file, before), CursorReads(file, before);
      if last.offset == v.pos {
        AtCursorRead(file, v, ViewAfter(file, kept), last);
        assert (kept + [last])[..|kept|] == kept;
      } else {
        assert CursorReads(file, reqs) == kept;
        OffCursorRead(file, v, last);
      }
    }
  }

  /** The tail buffer a read is answered by: an earlier query's, or its own if it is the one to query. */
  function BufferFor(file: File, v: View, req: Request): Option<seq<Byte>> {
    if file.hasTail && !v.tail.attempted && req.offset > v.pos + 32 * 1024 * 1024 then req.materialized else v.tail.buf
  }

  lemma BufferIsFor(file: File, v: View, req: Request)
    requires v.tail.buf.Some? ==> v.tail.attempted
    requires req.offset <= 0xFFFF_FFFF_FFFF_FFFF
    ensures TailAfter(file.hasTail, v.tail, v.pos, req).buf == BufferFor(file, v, req)
  {
  }

  /**
    Exactly what a read away from the cursor answers: the bytes of the buffer, if
    there is one and it reaches there, nothing past its end, and otherwise an
    error that names the cursor and the offset. The cursor stays.
   */
  lemma OffCursorExactly(file: File, v: View, req: Request)
    requires ViewValid(file, v) && (v.tail.buf.Some? ==> v.tail.attempted)
    requires req.offset != v.pos && req.offset <= 0xFFFF_FFFF_FFFF_FFFF
    requires BufferFor(file, v, req).Some? ==> |BufferFor(file, v, req).value| <= 0x7FFF_FFFF_FFFF_FFFF
    ensures
      var (v', result) := ViewRead(file, v, req);
      && v'.pos == v.pos && v'.mark == v.mark
      && (match BufferFor(file, v, req)
          case None => result == ReadOrder(v.pos, req.offset)
          case Some(buf) =>
            if req.offset + |buf| < 0x7FFF_FFFF_FFFF_FFFF then result == ReadOrder(v.pos, req.offset)
            else if req.offset >= 0x7FFF_FFFF_FFFF_FFFF then result == Data([])
            else
              var local := req.offset + |buf| - 0x7FFF_FFFF_FFFF_FFFF;
              result == Data(buf[local..Min(local + req.size, |buf|)]))
  {
    BufferIsFor(file, v, req);
    if BufferFor(file, v, req).Some? {
      var buf := BufferFor(file, v, req).value;
      if 0x7FFF_FFFF_FFFF_FFFF - |buf| <= req.offset < 0x7FFF_FFFF_FFFF_FFFF {
        var local := req.offset + |buf| - 0x7FFF_FFFF_FFFF_FFFF;
        assert local + Min(req.size, |buf| - local) == Min(local + req.size, |buf|);
      }
    }
  }

  // -------------------------------------------------------------- error ordering

  lemma {:induction false} TakenStays(file: File, reqs: seq<Request>, k: nat)
    requires k <= |reqs| && ViewAfter(file, reqs[..k]).mark == Taken
    ensures ViewAfter(file, reqs).mark == Taken
    decreases |reqs|
  {
    if k < |reqs| {
      assert reqs[..|reqs| - 1][..k] == reqs[..k];
      TakenStays(file, reqs[..|reqs| - 1], k);
    } else {
      assert reqs[..k] == reqs;
    }
  }

  /**
    If read k returned an error, it is the file's error, every byte of the file
    was delivered before it, no other read of the run returned an error, and
    every later read at the cursor returned nothing.
   */
  lemma ErrorOrdering(file: File, reqs: seq<Request>, k: nat, j: nat)
    requires k < |reqs| && j < |reqs| && j != k
    requires ViewRead(file, ViewAfter(file, reqs[..k]), reqs[k]).1.QueryFailed?
    ensures file.outcome == Some(ViewRead(file, ViewAfter(file, reqs[..k]), reqs[k]).1.error)
    ensures ViewAfter(file, reqs[..k]).pos == |file.content|
    ensures !ViewRead(file, ViewAfter(file, reqs[..j]), reqs[j]).1.QueryFailed?
    ensures
      var v := ViewAfter(file, reqs[..j]);
      k < j && BelowTail(v) && reqs[j].offset == v.pos ==>
        ViewRead(file, v, reqs[j]).1 == Data([]) && v.pos == |file.content|
  {
    FailureTakes(file, reqs, k);
    if k < j {
      assert reqs[..j][..k + 1] == reqs[..k + 1];
      TakenStays(file, reqs[..j], k + 1);
    } else if ViewRead(file, ViewAfter(file, reqs[..j]), reqs[j]).1.QueryFailed? {
      FailureTakes(file, reqs, j);
      assert reqs[..k][..j + 1] == reqs[..j + 1];
      TakenStays(file, reqs[..k], j + 1);
    }
  }

  lemma FailureTakes(file: File, reqs: seq<Request>, k: nat)
    requires k < |reqs|
    requires ViewRead(file, ViewAfter(file, reqs[..k]), reqs[k]).1.QueryFailed?
    ensures ViewAfter(file, reqs[..k + 1]).mark == Taken
    ensures ViewAfter(file, reqs[..k]).mark != Taken
    ensures ViewAfter(file, reqs[..k]).pos == |file.content|
    ensures file.outcome == Some(ViewRead(file, ViewAfter(file, reqs[..k]), reqs[k]).1.error)
  {
    assert reqs[..k + 1][..k] == reqs[..k];
  }

  lemma {:induction false} TakenMeansFailed(file: File, reqs: seq<Request>)
    requires ViewAfter(file, reqs).mark == Taken
    ensures exists i :: 0 <= i < |reqs| && ViewRead(file, ViewAfter(file, reqs[..i]), reqs[i]).1.QueryFailed?
  {
    var before, k := reqs[..|reqs| - 1], |reqs| - 1;
    if ViewAfter(file, before).mark == Taken {
      TakenMeansFailed(file, before);
      var i :| 0 <= i < |before| && ViewRead(file, ViewAfter(file, before[..i]), before[i]).1.QueryFailed?;
      assert before[..i] == reqs[..i];
    } else {
      assert ViewRead(file, ViewAfter(file, reqs[..k]), reqs[k]).1.QueryFailed?;
    }
  }

  /**
    Exactly when the error comes: a read at the cursor for at least a byte fails
    if and only if the query failed, every byte is out, and no earlier read got
    the error.
   */
  lemma ErrorComes(file: File, reqs: seq<Request>, k: nat)
    requires k < |reqs| && reqs[k].size > 0
    requires reqs[k].offset == ViewAfter(file, reqs[..k]).pos && BelowTail(ViewAfter(file, reqs[..k]))
    ensures
      var v := ViewAfter(file, reqs[..k]);
      ViewRead(file, v, reqs[k]).1.QueryFailed? <==>
        && file.outcome.Some?
        && v.pos == |file.content|
        && forall i :: 0 <= i < k ==> !ViewRead(file, ViewAfter(file, reqs[..i]), reqs[i]).1.QueryFailed?
  {
    var v := ViewAfter(file, reqs[..k]);
    assert TailHit(v.tail, reqs[k].offset, reqs[k].size).None?;
    if v.mark == Taken {
      TakenMeansFailed(file, reqs[..k]);
      var i :| 0 <= i < k && ViewRead(file, ViewAfter(file, reqs[..k][..i]), reqs[..k][i]).1.QueryFailed?;
      assert reqs[..k][..i] == reqs[..i];
    }
    if ViewRead(file, v, reqs[k]).1.QueryFailed? {
      forall i | 0 <= i < k ensures !ViewRead(file, ViewAfter(file, reqs[..i]), reqs[i]).1.QueryFailed? {
        ErrorOrdering(file, reqs, k, i);
      }
    }
  }

  /** The two places `upstream_done` and `last_err` can be between a read and the next. */
  ghost predicate Drained(s: State) {
    && (s.inner.lastErr.Some? ==> s.inner.upstreamDone)
    && (s.inner.upstreamDone ==>
          if s.reader.Pulling? then s.inner.pending == [] || |s.inner.pending| < s.reader.req.size
          else s.inner.pending == [])
  }

  lemma DrainedStep(up: Upstream, hasTail: bool, s: State, a: Action)
    requires Drained(s) && Enabled(up, s, a)
    ensures Drained(Apply(up, hasTail, s, a))
  {
    if !ReaderAction(a) {
      ReaderUntouched(up, hasTail, s, a);
    }
  }

  /**
    In every state, cancelled or not, a stored error implies that the upstream
    is done; between reads nothing is then pending in front of it.
   */
  lemma {:induction false} StoredErrorMeansDrained(up: Upstream, hasTail: bool, schedule: seq<Action>)
    requires Run(up, hasTail, SPAWNED, schedule).Some?
    ensures Drained(Run(up, hasTail, SPAWNED, schedule).value)
  {
    if schedule != [] {
      var before := schedule[..|schedule| - 1];
      StoredErrorMeansDrained(up, hasTail, before);
      DrainedStep(up, hasTail, Run(up, hasTail, SPAWNED, before).value, schedule[|schedule| - 1]);
    }
  }

  // ----------------------------------------------------------------- tail window

  /** Read k of the run issues the tail query. */
  predicate Queries(file: File, reqs: seq<Request>, k: nat)
    requires k < |reqs|
  {
    var v := ViewAfter(file, reqs[..k]);
    NeedsTail(file.hasTail, v.tail, v.pos, reqs[k].offset)
  }

  lemma {:induction false} TailStays(file: File, reqs: seq<Request>, k: nat)
    requires k <= |reqs| && ViewAfter(file, reqs[..k]).tail.attempted
    ensures ViewAfter(file, reqs).tail == ViewAfter(file, reqs[..k]).tail
    decreases |reqs|
  {
    if k < |reqs| {
      assert reqs[..|reqs| - 1][..k] == reqs[..k];
      TailStays(file, reqs[..|reqs| - 1], k);
    } else {
      assert reqs[..k] == reqs;
    }
  }

  /** The tail was tried exactly if some read issued the query, and only then is there a buffer. */
  lemma {:induction false} AttemptedMeansQueried(file: File, reqs: seq<Request>)
    ensures ViewAfter(file, reqs).tail.attempted <==> exists i :: 0 <= i < |reqs| && Queries(file, reqs, i)
    ensures ViewAfter(file, reqs).tail.buf.Some? ==> ViewAfter(file, reqs).tail.attempted
  {
    if reqs != [] {
      var before, k := reqs[..|reqs| - 1], |reqs| - 1;
      AttemptedMeansQueried(file, before);
      forall i | 0 <= i < k ensures Queries(file, before, i) <==> Queries(file, reqs, i) {
        assert before[..i] == reqs[..i];
      }
      assert reqs[..k] == before;
      if ViewAfter(file, reqs).tail.attempted && !ViewAfter(file, before).tail.attempted {
        assert Queries(file, reqs, k);
      }
    }
  }

  /**
    Exactly which read issues the tail query: on a handle with a tail context, the
    first one for an offset more than 32 MiB past the cursor.
   */
  lemma QueryCondition(file: File, reqs: seq<Request>, k: nat)
    requires k < |reqs| && reqs[k].offset <= 0xFFFF_FFFF_FFFF_FFFF
    ensures Queries(file, reqs, k) <==>
              && file.hasTail
              && (forall i :: 0 <= i < k ==> !Queries(file, reqs, i))
              && reqs[k].offset > ViewAfter(file, reqs[..k]).pos + 32 * 1024 * 1024
  {
    AttemptedMeansQueried(file, reqs[..k]);
    forall i | 0 <= i < k ensures Queries(file, reqs[..k], i) <==> Queries(file, reqs, i) {
      assert reqs[..k][..i] == reqs[..i];
    }
  }

  /**
    So the first read anywhere in the window, once that is past the gap, gets the
    bytes of the buffer its own query filled.
   */
  lemma FirstTailRead(file: File, reqs: seq<Request>, k: nat, buf: seq<Byte>)
    requires k < |reqs| && file.hasTail && reqs[k].materialized == Some(buf)
    requires forall i :: 0 <= i < k ==> !Queries(file, reqs, i)
    requires reqs[k].offset > ViewAfter(file, reqs[..k]).pos + 32 * 1024 * 1024
    requires |buf| <= 0x7FFF_FFFF_FFFF_FFFF
    requires 0x7FFF_FFFF_FFFF_FFFF - |buf| <= reqs[k].offset <= 0x7FFF_FFFF_FFFF_FFFF
    ensures
      var local := reqs[k].offset - (0x7FFF_FFFF_FFFF_FFFF - |buf|);
      ViewRead(file, ViewAfter(file, reqs[..k]), reqs[k]).1 == Data(buf[local..Min(local + reqs[k].size, |buf|)])
  {
    var v := ViewAfter(file, reqs[..k]);
    QueryCondition(file, reqs, k);
    assert TailAfter(file.hasTail, v.tail, v.pos, reqs[k]).buf == Some(buf);
    var local := reqs[k].offset - (0x7FFF_FFFF_FFFF_FFFF - |buf|);
    if local == |buf| {
      assert buf[local..Min(local + reqs[k].size, |buf|)] == [];
    } else {
      assert local + Min(reqs[k].size, |buf| - local) == Min(local + reqs[k].size, |buf|);
    }
  }

  /**
    A run issues at most one tail query, for a 64-bit offset more than 32 MiB
    past the cursor, and only on a handle with a tail context. What it answered,
    buffer or failure, stays.
   */
  lemma OneTailQuery(file: File, reqs: seq<Request>, k: nat, j: nat)
    requires k < |reqs| && k < j <= |reqs| && Queries(file, reqs, k)
    requires reqs[k].offset <= U64_MAX
    ensures file.hasTail && reqs[k].offset > ViewAfter(file, reqs[..k]).pos + 32 * 1024 * 1024
    ensures ViewAfter(file, reqs[..j]).tail == Tail(reqs[k].materialized, true)
    ensures j < |reqs| ==> !Queries(file, reqs, j)
  {
    assert reqs[..k + 1][..k] == reqs[..k];
    assert ViewAfter(file, reqs[..k + 1]).tail == Tail(reqs[k].materialized, true);
    assert reqs[..j][..k + 1] == reqs[..k + 1];
    TailStays(file, reqs[..j], k + 1);
  }

  /** The index into the buffer is always in range: the guard against `local >= len` never fires. */
  lemma TailIndexInRange(buf: seq<Byte>, offset: nat)
    requires TailOrigin(buf) <= offset < PSEUDO_EOF
    ensures offset - TailOrigin(buf) < |buf|
  {
  }

  function Sum(sizes: seq<nat>): nat {
    if sizes == [] then 0 else sizes[0] + Sum(sizes[1..])
  }

  /** Bytes of consecutive reads, each starting where the previous one ended. */
  function ChainBytes(file: File, v: View, offset: nat, sizes: seq<nat>): seq<Byte>
    requires ViewValid(file, v)
    decreases |sizes|
  {
    if sizes == [] then []
    else
      var (v', result) := ViewRead(file, v, Request(offset, sizes[0], None));
      if !result.Data? then []
      else result.bytes + ChainBytes(file, v', offset + |result.bytes|, sizes[1..])
  }

  lemma TailRead(file: File, v: View, buf: seq<Byte>, offset: nat, size: nat)
    requires ViewValid(file, v)
    requires v.tail.buf == Some(buf) && |buf| <= PSEUDO_EOF && BelowTail(v)
    requires PSEUDO_EOF - |buf| <= offset <= PSEUDO_EOF
    ensures
      var local := offset - (PSEUDO_EOF - |buf|);
      ViewRead(file, v, Request(offset, size, None)) == (v, Data(buf[local..Min(local + size, |buf|)]))
  {
    var local := offset - (PSEUDO_EOF - |buf|);
    if offset == PSEUDO_EOF {
      assert buf[local..Min(local + size, |buf|)] == [];
    } else {
      assert local + Min(size, |buf| - local) == Min(local + size, |buf|);
    }
  }

  lemma JoinSlices(buf: seq<Byte>, lo: nat, mid: nat, hi: nat)
    requires lo <= mid <= hi <= |buf|
    ensures buf[lo..mid] + buf[mid..hi] == buf[lo..hi]
  {
  }

  /** `bytes` are those of `buf` from `offset` on, at most `total` of them. */
  ghost predicate IsWindow(buf: seq<Byte>, offset: nat, total: nat, bytes: seq<Byte>)
    requires |buf| <= PSEUDO_EOF && PSEUDO_EOF - |buf| <= offset <= PSEUDO_EOF
  {
    var local := offset - (PSEUDO_EOF - |buf|);
    bytes == buf[local..Min(local + total, |buf|)]
  }

  lemma EmptyWindow(buf: seq<Byte>, offset: nat)
    requires |buf| <= PSEUDO_EOF && PSEUDO_EOF - |buf| <= offset <= PSEUDO_EOF
    ensures IsWindow(buf, offset, 0, [])
  {
  }

  lemma JoinWindows(buf: seq<Byte>, offset: nat, total: nat, more: nat, bytes: seq<Byte>, rest: seq<Byte>)
    requires |buf| <= PSEUDO_EOF && PSEUDO_EOF - |buf| <= offset <= PSEUDO_EOF
    requires IsWindow(buf, offset, total, bytes)
    ensures offset + |bytes| <= PSEUDO_EOF
    ensures IsWindow(buf, offset + |bytes|, more, rest) ==> IsWindow(buf, offset, total + more, bytes + rest)
  {
    var local := offset - (PSEUDO_EOF - |buf|);
    JoinSlices(buf, local, Min(local + total, |buf|), Min(local + (total + more), |buf|));
  }

  lemma TailReadWindow(file: File, v: View, buf: seq<Byte>, offset: nat, size: nat)
    requires ViewValid(file, v)
    requires v.tail.buf == Some(buf) && |buf| <= PSEUDO_EOF && BelowTail(v)
    requires PSEUDO_EOF - |buf| <= offset <= PSEUDO_EOF
    ensures
      var (v', result) := ViewRead(file, v, Request(offset, size, None));
      v' == v && result.Data? && IsWindow(buf, offset, size, result.bytes)
  {
    TailRead(file, v, buf, offset, size);
  }

  lemma ChainStep(file: File, v: View, offset: nat, sizes: seq<nat>, bytes: seq<Byte>)
    requires ViewValid(file, v) && sizes != []
    requires ViewRead(file, v, Request(offset, sizes[0], None)) == (v, Data(bytes))
    ensures ChainBytes(file, v, offset, sizes) == bytes + ChainBytes(file, v, offset + |bytes|, sizes[1..])
  {
  }

  lemma {:induction false} TailReadsPrefix(file: File, v: View, buf: seq<Byte>, offset: nat, sizes: seq<nat>)
    requires ViewValid(file, v)
    requires v.tail.buf == Some(buf) && |buf| <= PSEUDO_EOF && BelowTail(v)
    requires PSEUDO_EOF - |buf| <= offset <= PSEUDO_EOF
    ensures IsWindow(buf, offset, Sum(sizes), ChainBytes(file, v, offset, sizes))
    decreases |sizes|
  {
    hide IsWindow, ViewRead, BelowTail;
    if sizes == [] {
      EmptyWindow(buf, offset);
    } else {
      hide ChainBytes;
      TailReadWindow(file, v, buf, offset, sizes[0]);
      var bytes := ViewRead(file, v, Request(offset, sizes[0], None)).1.bytes;
      ChainStep(file, v, offset, sizes, bytes);
      var rest := ChainBytes(file, v, offset + |bytes|, sizes[1..]);
      JoinWindows(buf, offset, sizes[0], Sum(sizes[1..]), bytes, rest);
      TailReadsPrefix(file, v, buf, offset + |bytes|, sizes[1..]);
    }
  }

  /**
    Once a buffer is installed, consecutive reads of any sizes from any offset in
    the window give back the buffer from there on, cut only by the sum of the
    sizes: enough of them give the whole suffix, and at PSEUDO_EOF there is
    nothing more.
   */
  lemma TailReadsTheBuffer(file: File, v: View, buf: seq<Byte>, offset: nat, sizes: seq<nat>)
    requires ViewValid(file, v)
    requires v.tail.buf == Some(buf) && |buf| <= PSEUDO_EOF && BelowTail(v)
    requires PSEUDO_EOF - |buf| <= offset <= PSEUDO_EOF
    ensures
      var local := offset - (PSEUDO_EOF - |buf|);
      && ChainBytes(file, v, offset, sizes) <= buf[local..]
      && |ChainBytes(file, v, offset, sizes)| == Min(Sum(sizes), |buf| - local)
      && (Sum(sizes) >= |buf| - local ==> ChainBytes(file, v, offset, sizes) == buf[local..])
  {
    TailReadsPrefix(file, v, buf, offset, sizes);
  }

  // -------------------------------------------------------------- every schedule

  function ResultsOf(history: seq<Event>): seq<ReadResult> {
    if history == [] then []
    else ResultsOf(history[..|history| - 1]) + [history[|history| - 1].result]
  }

  lemma {:induction false} AnswersAreResults(file: File, history: seq<Event>)
    requires Answers(file, history)
    ensures ResultsOf(history) == Results(file, Requests(history))
  {
    if history != [] {
      var before := history[..|history| - 1];
      AnswersAreResults(file, before);
      assert Requests(history)[..|before|] == Requests(before);
    }
  }

  /** On the bridge every uncancelled history holds exactly the file's answers to its requests. */
  lemma {:induction false} HistoryIsResults(up: Upstream, hasTail: bool, schedule: seq<Action>)
    requires up.Valid() && Run(up, hasTail, SPAWNED, schedule).Some?
    requires !Run(up, hasTail, SPAWNED, schedule).value.cancelled
    ensures
      var history := Run(up, hasTail, SPAWNED, schedule).value.history;
      ResultsOf(history) == Results(up.ToFile(hasTail), Requests(history))
  {
    RunInv(up, hasTail, schedule);
    AnswersAreResults(up.ToFile(hasTail), Run(up, hasTail, SPAWNED, schedule).value.history);
  }

  /**
    On the bridge: take any schedule of a handle, and any schedule of a handle on
    an equal file that makes only the reads the first one made at its cursor. The
    second gets, read by read, what the first got for them; both deliver the same
    bytes and end at the same position.
   */
  lemma {:induction false} ErasingOffCursorReads(
      up1: Upstream, up2: Upstream, hasTail: bool, schedule1: seq<Action>, schedule2: seq<Action>)
    requires up1.Valid() && up2.Valid() && up1.ToFile(hasTail) == up2.ToFile(hasTail)
    requires Run(up1, hasTail, SPAWNED, schedule1).Some? && Run(up2, hasTail, SPAWNED, schedule2).Some?
    requires
      var s1, s2 := Run(up1, hasTail, SPAWNED, schedule1).value, Run(up2, hasTail, SPAWNED, schedule2).value;
      && !s1.cancelled && !s2.cancelled && s1.reader.Idle? && s2.reader.Idle?
      && StaysBelowTail(up1.ToFile(hasTail), Requests(s1.history))
      && Requests(s2.history) == CursorReads(up1.ToFile(hasTail), Requests(s1.history))
    ensures
      var s1, s2 := Run(up1, hasTail, SPAWNED, schedule1).value, Run(up2, hasTail, SPAWNED, schedule2).value;
      && ResultsOf(s2.history) == CursorResults(up1.ToFile(hasTail), Requests(s1.history))
      && ResultsOf(s1.history) == Results(up1.ToFile(hasTail), Requests(s1.history))
      && s1.delivered == s2.delivered && s1.inner.pos == s2.inner.pos
  {
    hide Run, ViewAfter, ViewRead, Requests, Results, CursorReads, CursorResults, ResultsOf;
    EveryScheduleReadsTheFile(up1, hasTail, schedule1, 0);
    EveryScheduleReadsTheFile(up2, hasTail, schedule2, 0);
    HistoryIsResults(up1, hasTail, schedule1);
    HistoryIsResults(up2, hasTail, schedule2);
    NonInterference(up1.ToFile(hasTail), Requests(Run(up1, hasTail, SPAWNED, schedule1).value.history));
  }

  /** The file's bytes from the cursor, or its error once all bytes are out. */
  ghost predicate IsExact(content: seq<Byte>, outcome: Option<QueryError>, req: Request, result: ReadResult) {
    && req.offset <= |content|
    && (if result.QueryFailed? then
          req.offset == |content| && outcome == Some(result.error)
        else
          result == Data(content[req.offset..Min(req.offset + req.size, |content|)]))
  }

  lemma ViewCursorRead(file: File, v: View, req: Request)
    requires ViewValid(file, v) && req.offset == v.pos && BelowTail(v)
    ensures IsExact(file.content, file.outcome, req, ViewRead(file, v, req).1)
  {
    var rest := file.content[v.pos..];
    assert TailHit(v.tail, req.offset, req.size).None?;
    if req.size <= |rest| {
      assert rest[..req.size] == file.content[v.pos..v.pos + req.size];
    }
  }

  /**
    On the bridge: a read at the cursor of any schedule returned either exactly
    the file's bytes from there, as many as asked for or as there are, or the
    file's error once all bytes were out.
   */
  lemma CursorReadIsExact(up: Upstream, hasTail: bool, schedule: seq<Action>, k: nat)
    requires up.Valid() && Run(up, hasTail, SPAWNED, schedule).Some?
    requires !Run(up, hasTail, SPAWNED, schedule).value.cancelled
    requires k < |Run(up, hasTail, SPAWNED, schedule).value.history|
    requires
      var s := Run(up, hasTail, SPAWNED, schedule).value;
      var v := ViewAfter(up.ToFile(hasTail), Requests(s.history)[..k]);
      s.history[k].req.offset == v.pos && BelowTail(v)
    ensures
      var e := Run(up, hasTail, SPAWNED, schedule).value.history[k];
      IsExact(BytesOf(up.items), ErrorOf(up.items), e.req, e.result)
  {
    EveryScheduleReadsTheFile(up, hasTail, schedule, k);
    var s := Run(up, hasTail, SPAWNED, schedule).value;
    var file := up.ToFile(hasTail);
    ViewCursorRead(file, ViewAfter(file, Requests(s.history)[..k]), s.history[k].req);
  }
}
