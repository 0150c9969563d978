/** Whole runs of a `SocketStreamBuf`: which bytes went where, failures included. */
module SocketStreamRuns {
  import opened Machine
  import opened SocketAnswers
  import opened SocketStreamBuffer
  import opened Traces

  /** `Move` goes on with a stream buffer move-constructed from this one; `Close` carries what closing
      the socket reports. */
  datatype Op = Put(c: Byte) | Sync | Peek | Bump | NoBuffer | Close(closing: ErrorCode) | Move

  /** What the caller of an operation gets to see. */
  datatype Answer = Reported(ok: bool) | Character(c: Option<Byte>) | NoAnswer

  /** What one operation did.  As a writer: whether its flush succeeded, the bytes it put on the wire,
      took from the writer, and forgot.  As a reader: the bytes it received from the socket, gave to
      the reader, and forgot. */
  datatype Event = Event(answer: Answer, flushed: bool, sent: seq<Byte>, took: seq<Byte>, lost: seq<Byte>,
                         arrived: seq<Byte>, gave: seq<Byte>, dropped: seq<Byte>)
  {
    /** The bytes that the put area no longer holds. */
    function Gone(): seq<Byte> {
      (if flushed then sent else []) + lost
    }
  }

  /** What the caller knows to have been taken, and what it was given, from the answer alone. */
  function TakenFor(op: Op, answer: Answer): seq<Byte> {
    if op.Put? && answer == Reported(true) then [op.c] else []
  }

  function GivenFor(op: Op, answer: Answer): seq<Byte> {
    if op.Bump? && answer.Character? then Given(answer.c) else []
  }

  /** What `now` has more than `before`. */
  function Added(before: seq<Byte>, now: seq<Byte>): seq<Byte> {
    if before <= now then Behind(now, |before|) else []
  }

  function Perform(s: Stream, op: Op): (Stream, Event) {
    match op
    case Put(c) =>
      var (next, ok) := PutC(s, c);
      (next, Wrote(op, ok, Added(s.wire.sent, next.wire.sent)))
    case Sync =>
      var (next, ok) := Flush(s, None);
      (next, Wrote(op, ok, Added(s.wire.sent, next.wire.sent)))
    case Peek =>
      var (next, c) := PeekC(s);
      (next, Received(op, c, Added(s.wire.received, next.wire.received)))
    case Bump =>
      var (next, c) := BumpC(s);
      (next, Received(op, c, Added(s.wire.received, next.wire.received)))
    case NoBuffer =>
      var (next, granted) := Unbuffer(s);
      (next, Event(Reported(granted), true, [], [], [], [], [], []))
    case Close(closing) =>
      var (next, closed) := CloseStream(s, closing);
      var flushed := Flush(s, None).1;
      (next, Event(Reported(closed), flushed, Added(s.wire.sent, next.wire.sent), [],
                   if closed && !flushed then s.pending else [], [], [], if closed then s.unread else []))
    case Move =>
      (Moved(s), Event(NoAnswer, true, [], [], s.pending, [], [], []))
  }

  function Wrote(op: Op, ok: bool, sent: seq<Byte>): Event {
    Event(Reported(ok), ok, sent, TakenFor(op, Reported(ok)), [], [], [], [])
  }

  function Received(op: Op, c: Option<Byte>, arrived: seq<Byte>): Event {
    Event(Character(c), true, [], [], [], arrived, GivenFor(op, Character(c)), [])
  }

  /** What each operation promises, said of the value before, the answer, and the value after. */
  ghost predicate Lawful(s: Stream, op: Op, answer: Answer, next: Stream) {
    match op
    case Put(c) => answer.Reported? && Puts(s, c, next, answer.ok)
    case Sync => answer.Reported? && Flushed(s, None, next, answer.ok)
    case Peek => answer.Character? && Shows(s, next, answer.c)
    case Bump => answer.Character? && Takes(s, next, answer.c)
    case NoBuffer => answer.Reported? && Unbuffers(s, next, answer.ok)
    case Close(closing) => answer.Reported? && Closes(s, closing, next, answer.ok)
    case Move => answer == NoAnswer && next == Stream([], s.room, s.size, s.unread, s.ec, s.wire)
  }

  lemma PerformIsLawful(s: Stream, op: Op)
    requires Consistent(s)
    ensures var (next, e) := Perform(s, op); Lawful(s, op, e.answer, next)
  {
    match op
    case Put(c) => PutCPuts(s, c);
    case Sync => FlushIsFlushed(s, None);
    case Peek => PeekShows(s);
    case Bump => BumpTakes(s);
    case NoBuffer =>
    case Close(closing) => CloseCloses(s, closing);
    case Move =>
  }

  /** Which operations count as flushes that failed: puts and syncs that report it, and closes with more
      pending than the socket is ready to take. */
  lemma FailedFlushes(s: Stream, op: Op)
    requires Consistent(s)
    ensures var e := Perform(s, op).1;
      e.flushed <==>
        && ((op.Put? || op.Sync?) ==> e.answer == Reported(true))
        && (op.Close? ==> |s.pending| <= Reach(s.wire.toSend))
  {
    if op.Close? {
      FlushIsFlushed(s, None);
    }
  }

  /** A run of the first `n` operations. */
  function Run(s: Stream, ops: seq<Op>, n: nat): (r: (Stream, seq<Event>))
    requires n <= |ops|
    ensures |r.1| == n
  {
    Trace(Perform, s, ops, n)
  }

  /** One kind of bytes, gathered from all events. */
  function Gather(events: seq<Event>, part: Event -> seq<Byte>): seq<Byte> {
    if events == [] then [] else Gather(events[..|events| - 1], part) + part(events[|events| - 1])
  }

  lemma GatherSnoc(events: seq<Event>, e: Event, part: Event -> seq<Byte>)
    ensures Gather(events + [e], part) == Gather(events, part) + part(e)
  {
    assert (events + [e])[..|events|] == events;
  }

  const SENT := (e: Event) => e.sent
  const TOOK := (e: Event) => e.took
  const LOST := (e: Event) => e.lost
  const GONE := (e: Event) => e.Gone()
  const ARRIVED := (e: Event) => e.arrived
  const GAVE := (e: Event) => e.gave
  const DROPPED := (e: Event) => e.dropped
  const READ := (e: Event) => e.gave + e.dropped

  lemma FlushConserves(s: Stream, c: Option<Byte>)
    requires Consistent(s)
    ensures var (next, ok) := Flush(s, c);
      var sent := Added(s.wire.sent, next.wire.sent);
      && Consistent(next) && next.size == s.size
      && next.wire.sent == s.wire.sent + sent
      && next.wire.received == s.wire.received && next.unread == s.unread
      && (ok ==> s.pending + Given(c) == sent + next.pending)
      && (!ok ==> next.pending == s.pending && sent < Output(s, c))
  {
  }

  lemma PeekConserves(s: Stream)
    ensures var (next, c) := PeekC(s);
      var arrived := Added(s.wire.received, next.wire.received);
      && next.wire.received == s.wire.received + arrived
      && next.wire.sent == s.wire.sent && next.pending == s.pending
      && next.room == s.room && next.size == s.size
      && s.unread + arrived == next.unread
      && (if c.None? then next.unread == [] else next.unread != [] && next.unread[0] == c.value)
  {
  }

  /** The four ledgers: the wire and what was sent; the put area between what was taken and what is
      gone; the reception log and what arrived; the get area between what arrived and what was read. */
  ghost predicate Balanced(s: Stream, sent: seq<Byte>, took: seq<Byte>, gone: seq<Byte>,
                           arrived: seq<Byte>, read: seq<Byte>, end: Stream)
  {
    && end.wire.sent == s.wire.sent + sent
    && s.pending + took == gone + end.pending
    && end.wire.received == s.wire.received + arrived
    && s.unread + arrived == read + end.unread
  }

  /** One operation. */
  ghost predicate PerformedWell(s: Stream, op: Op) {
    var (next, e) := Perform(s, op);
    Consistent(next) && Balanced(s, e.sent, e.took, e.Gone(), e.arrived, e.gave + e.dropped, next)
  }

  /** What balances for an operation that only reads, and for one that only writes. */
  lemma ReadBalances(s: Stream, arrived: seq<Byte>, gave: seq<Byte>, next: Stream)
    requires next.wire.sent == s.wire.sent && next.pending == s.pending
    requires next.wire.received == s.wire.received + arrived && s.unread + arrived == gave + next.unread
    ensures Balanced(s, [], [], [] + [], arrived, gave + [], next)
  {
    assert gave + [] == gave;
  }

  lemma WriteBalances(s: Stream, sent: seq<Byte>, took: seq<Byte>, gone: seq<Byte>, next: Stream)
    requires next.wire.sent == s.wire.sent + sent && s.pending + took == gone + next.pending
    requires next.wire.received == s.wire.received && next.unread == s.unread
    ensures Balanced(s, sent, took, gone + [], [], [] + [], next)
  {
    assert gone + [] == gone;
  }

  lemma PutBalances(s: Stream, c: Byte)
    requires Consistent(s)
    ensures PerformedWell(s, Put(c))
  {
    var (next, e) := Perform(s, Put(c));
    if s.room == 0 {
      FlushConserves(s, Some(c));
    } else {
      assert next.wire.sent == s.wire.sent + [];
    }
    WriteBalances(s, e.sent, e.took, if e.flushed then e.sent else [], next);
  }

  lemma SyncBalances(s: Stream)
    requires Consistent(s)
    ensures PerformedWell(s, Sync)
  {
    var (next, e) := Perform(s, Sync);
    FlushConserves(s, None);
    WriteBalances(s, e.sent, [], if e.flushed then e.sent else [], next);
  }

  lemma PeekBalances(s: Stream)
    requires Consistent(s)
    ensures PerformedWell(s, Peek)
  {
    var (next, e) := Perform(s, Peek);
    PeekConserves(s);
    ReadBalances(s, e.arrived, [], next);
  }

  lemma BumpBalances(s: Stream)
    requires Consistent(s)
    ensures PerformedWell(s, Bump)
  {
    var (seen, c) := PeekC(s);
    var (next, e) := Perform(s, Bump);
    PeekConserves(s);
    assert seen.unread == Given(c) + next.unread;
    ReadBalances(s, e.arrived, Given(c), next);
  }

  lemma CloseBalances(s: Stream, closing: ErrorCode)
    requires Consistent(s)
    ensures PerformedWell(s, Close(closing))
  {
    var (flushed, ok) := Flush(s, None);
    var sent := Added(s.wire.sent, flushed.wire.sent);
    FlushConserves(s, None);
    WriteBalances(s, sent, [], if ok then sent else [], flushed);
    if closing == NoError {
      assert ([] + []) + s.unread == s.unread + [] == [] + s.unread + [];
      assert ok ==> flushed.pending == [] && sent + [] == sent + [] + [];
      assert !ok ==> s.pending + [] == ([] + s.pending) + [];
    }
  }

  lemma PerformBalances(s: Stream, op: Op)
    requires Consistent(s)
    ensures PerformedWell(s, op)
  {
    match op
    case Put(c) => PutBalances(s, c);
    case Sync => SyncBalances(s);
    case Peek => PeekBalances(s);
    case Bump => BumpBalances(s);
    case NoBuffer =>
    case Close(closing) => CloseBalances(s, closing);
    case Move =>
  }

  /** The same ledgers over a list of events. */
  ghost predicate Ledger(s: Stream, events: seq<Event>, end: Stream) {
    Balanced(s, Gather(events, SENT), Gather(events, TOOK), Gather(events, GONE),
             Gather(events, ARRIVED), Gather(events, READ), end)
  }

  lemma LedgerSnoc(s: Stream, events: seq<Event>, now: Stream, e: Event, next: Stream)
    requires Ledger(s, events, now)
    requires Balanced(now, e.sent, e.took, e.Gone(), e.arrived, e.gave + e.dropped, next)
    ensures Ledger(s, events + [e], next)
  {
    GatherSnoc(events, e, SENT);
    GatherSnoc(events, e, TOOK);
    GatherSnoc(events, e, GONE);
    GatherSnoc(events, e, ARRIVED);
    GatherSnoc(events, e, READ);
    BalancesAdd(s, Gather(events, SENT), Gather(events, TOOK), Gather(events, GONE), Gather(events, ARRIVED),
                Gather(events, READ), now, e.sent, e.took, e.Gone(), e.arrived, e.gave + e.dropped, next);
  }

  lemma BalancesAdd(s: Stream, sent1: seq<Byte>, took1: seq<Byte>, gone1: seq<Byte>, arrived1: seq<Byte>,
                    read1: seq<Byte>, now: Stream, sent2: seq<Byte>, took2: seq<Byte>, gone2: seq<Byte>,
                    arrived2: seq<Byte>, read2: seq<Byte>, end: Stream)
    requires Balanced(s, sent1, took1, gone1, arrived1, read1, now)
    requires Balanced(now, sent2, took2, gone2, arrived2, read2, end)
    ensures Balanced(s, sent1 + sent2, took1 + took2, gone1 + gone2, arrived1 + arrived2, read1 + read2, end)
  {
    assert s.wire.sent + (sent1 + sent2) == s.wire.sent + sent1 + sent2;
    assert s.wire.received + (arrived1 + arrived2) == s.wire.received + arrived1 + arrived2;
    Chain(s.pending, took1, gone1, now.pending, took2, gone2, end.pending);
    Chain(s.unread, arrived1, read1, now.unread, arrived2, read2, end.unread);
  }

  /** The state is well formed and its ledgers balance. */
  ghost predicate WellKept(s: Stream, events: seq<Event>, now: Stream) {
    Consistent(now) && Ledger(s, events, now)
  }

  lemma StepKeepsBooks(s: Stream, now: Stream, events: seq<Event>, op: Op)
    requires WellKept(s, events, now)
    ensures WellKept(s, events + [Perform(now, op).1], Perform(now, op).0)
  {
    PerformBalances(now, op);
    var (next, e) := Perform(now, op);
    LedgerSnoc(s, events, now, e, next);
  }

  /** Over every run, failed operations, closes and moves included: the wire grows by what was sent;
      the bytes taken from the writer are, in order, those of the successful flushes, with those
      forgotten on the way, and then those pending; what the socket delivered is, in order, what left
      the get area and then what is unread. */
  lemma BytesAreConserved(s: Stream, ops: seq<Op>, n: nat)
    requires Consistent(s) && n <= |ops|
    ensures var (end, events) := Run(s, ops, n); Consistent(end) && Ledger(s, events, end)
  {
    forall now: Stream, events, op | WellKept(s, events, now)
      ensures WellKept(s, events + [Perform(now, op).1], Perform(now, op).0)
    {
      StepKeepsBooks(s, now, events, op);
    }
    NothingBalances(s);
    Always(Perform, s, ops, n, (now: Stream, events: seq<Event>) => WellKept(s, events, now));
  }

  lemma NothingBalances(s: Stream)
    ensures Ledger(s, [], s)
  {
  }

  ghost predicate AllFlushed(events: seq<Event>) {
    forall e <- events :: e.flushed
  }

  lemma {:induction false} WhatIsGoneWasSent(events: seq<Event>)
    requires AllFlushed(events)
    ensures |Gather(events, GONE)| == |Gather(events, SENT)| + |Gather(events, LOST)|
    ensures Gather(events, LOST) == [] ==> Gather(events, GONE) == Gather(events, SENT)
  {
    if events != [] {
      WhatIsGoneWasSent(events[..|events| - 1]);
    }
  }

  /** If the operation at `k` is a move, nothing is pending before it. */
  predicate MovesQuietly(s: Stream, ops: seq<Op>, k: nat)
    requires k < |ops|
  {
    ops[k].Move? ==> Run(s, ops, k).0.pending == []
  }

  ghost predicate QuietMoves(s: Stream, ops: seq<Op>, n: nat)
    requires n <= |ops|
  {
    forall k: nat :: k < n ==> MovesQuietly(s, ops, k)
  }

  lemma LosesAtMoves(s: Stream, op: Op)
    requires Perform(s, op).1.flushed
    ensures Perform(s, op).1.lost == [] <==> (op.Move? ==> s.pending == [])
  {
  }

  lemma {:induction false} GathersNothing(events: seq<Event>, part: Event -> seq<Byte>)
    ensures Gather(events, part) == [] <==> forall k :: 0 <= k < |events| ==> part(events[k]) == []
  {
    if events != [] {
      GathersNothing(events[..|events| - 1], part);
    }
  }

  lemma LostExactlyAtMoves(s: Stream, ops: seq<Op>, n: nat)
    requires n <= |ops| && AllFlushed(Run(s, ops, n).1)
    ensures Gather(Run(s, ops, n).1, LOST) == [] <==> QuietMoves(s, ops, n)
  {
    var events := Run(s, ops, n).1;
    forall k | 0 <= k < n
      ensures LOST(events[k]) == [] <==> MovesQuietly(s, ops, k)
    {
      EventAt(Perform, s, ops, n, k);
      LosesAtMoves(Run(s, ops, k).0, ops[k]);
    }
    GathersNothing(events, LOST);
  }

  /** The wire followed by the put area is what was there and what the writer handed over. */
  ghost predicate AllSent(s: Stream, events: seq<Event>, end: Stream) {
    end.wire.sent + end.pending == s.wire.sent + s.pending + Gather(events, TOOK)
  }

  /** What was there and what the socket delivered is what the reader was given and what is unread. */
  ghost predicate AllGiven(s: Stream, events: seq<Event>, end: Stream) {
    s.unread + Gather(events, ARRIVED) == Gather(events, GAVE) + end.unread
  }

  /** While no flush fails, the wire followed by the put area is exactly what the writer handed over,
      in order and without repetition, if and only if nothing was pending at any move. */
  lemma SendConservation(s: Stream, ops: seq<Op>, n: nat)
    requires Consistent(s) && n <= |ops|
    requires AllFlushed(Run(s, ops, n).1)
    ensures var (end, events) := Run(s, ops, n); AllSent(s, events, end) <==> QuietMoves(s, ops, n)
  {
    BytesAreConserved(s, ops, n);
    var (end, events) := Run(s, ops, n);
    WhatIsGoneWasSent(events);
    Promise(s.wire.sent, s.pending, Gather(events, TOOK), Gather(events, GONE), Gather(events, SENT),
            Gather(events, LOST), end.pending);
    LostExactlyAtMoves(s, ops, n);
  }

  /** One byte put, and a move: everything is reported to have been written and flushed, and the byte
      is gone. */
  lemma MoveForgets(c: Byte, wire: Wire)
    ensures var s := Stream([], BUFFER_SIZE, BUFFER_SIZE, [], NoError, wire);
      var (end, events) := Run(s, [Put(c), Move, Sync], 3);
      && AllFlushed(events) && Gather(events, TOOK) == [c]
      && events[0].answer == events[2].answer == Reported(true)
      && end.wire.sent == wire.sent && end.pending == []
  {
    var s, ops := Stream([], BUFFER_SIZE, BUFFER_SIZE, [], NoError, wire), [Put(c), Move, Sync];
    var (put, e1) := Perform(s, Put(c));
    var (moved, e2) := Perform(put, Move);
    var (synced, e3) := Perform(moved, Sync);
    assert put.pending == [c] && wire.sent + [] == wire.sent;
    ThreeSteps(Perform, s, Put(c), Move, Sync);
    GatherOfThree(e1, e2, e3, TOOK);
  }

  lemma GatherOfThree(a: Event, b: Event, c: Event, part: Event -> seq<Byte>)
    ensures Gather([a] + [b] + [c], part) == part(a) + part(b) + part(c)
  {
    GatherSnoc([], a, part);
    GatherSnoc([a], b, part);
    GatherSnoc([a] + [b], c, part);
    assert [] + [a] == [a];
  }

  lemma Promise(wire: seq<Byte>, pending: seq<Byte>, took: seq<Byte>, gone: seq<Byte>, sent: seq<Byte>,
                lost: seq<Byte>, left: seq<Byte>)
    requires pending + took == gone + left
    requires |gone| == |sent| + |lost| && (lost == [] ==> gone == sent)
    ensures wire + sent + left == wire + pending + took <==> lost == []
  {
    assert wire + sent + left == wire + (sent + left);
    assert wire + pending + took == wire + (gone + left);
  }

  lemma {:induction false} WhatIsReadWasGiven(events: seq<Event>)
    ensures |Gather(events, READ)| == |Gather(events, GAVE)| + |Gather(events, DROPPED)|
    ensures Gather(events, DROPPED) == [] ==> Gather(events, READ) == Gather(events, GAVE)
  {
    if events != [] {
      WhatIsReadWasGiven(events[..|events| - 1]);
    }
  }

  /** If the operation at `k` is a successful close, nothing is unread before it. */
  predicate ClosesQuietly(s: Stream, ops: seq<Op>, k: nat)
    requires k < |ops|
  {
    ops[k] == Close(NoError) ==> Run(s, ops, k).0.unread == []
  }

  ghost predicate QuietCloses(s: Stream, ops: seq<Op>, n: nat)
    requires n <= |ops|
  {
    forall k: nat :: k < n ==> ClosesQuietly(s, ops, k)
  }

  lemma DropsAtCloses(s: Stream, op: Op)
    ensures Perform(s, op).1.dropped == [] <==> (op == Close(NoError) ==> s.unread == [])
  {
  }

  lemma DroppedExactlyAtCloses(s: Stream, ops: seq<Op>, n: nat)
    requires n <= |ops|
    ensures Gather(Run(s, ops, n).1, DROPPED) == [] <==> QuietCloses(s, ops, n)
  {
    var events := Run(s, ops, n).1;
    forall k | 0 <= k < n
      ensures DROPPED(events[k]) == [] <==> ClosesQuietly(s, ops, k)
    {
      EventAt(Perform, s, ops, n, k);
      DropsAtCloses(Run(s, ops, k).0, ops[k]);
    }
    GathersNothing(events, DROPPED);
  }

  /** Whatever fails, the reader is given exactly the bytes that the socket delivered, in order, and
      the rest of them is unread, if and only if nothing was unread at any successful close. */
  lemma ReceiveConservation(s: Stream, ops: seq<Op>, n: nat)
    requires Consistent(s) && n <= |ops|
    ensures var (end, events) := Run(s, ops, n); AllGiven(s, events, end) <==> QuietCloses(s, ops, n)
  {
    BytesAreConserved(s, ops, n);
    WhatIsReadWasGiven(Run(s, ops, n).1);
    DroppedExactlyAtCloses(s, ops, n);
  }

  /** `k` flushes in a row, with what each put on the wire. */
  function Retries(s: Stream, k: nat): (Stream, seq<seq<Byte>>)
    decreases k
  {
    if k == 0 then (s, [])
    else
      var next := Flush(s, None).0;
      var (end, chunks) := Retries(next, k - 1);
      (end, [Added(s.wire.sent, next.wire.sent)] + chunks)
  }

  predicate AllFail(s: Stream, k: nat)
    decreases k
  {
    k == 0 || (!Flush(s, None).1 && AllFail(Flush(s, None).0, k - 1))
  }

  ghost predicate ProperPrefixes(chunks: seq<seq<Byte>>, whole: seq<Byte>) {
    forall i :: 0 <= i < |chunks| ==> chunks[i] < whole
  }

  /** Flushes that fail leave the put area alone, and each puts a proper prefix of it on the wire. */
  lemma {:induction false} RetriesFail(s: Stream, k: nat)
    requires Consistent(s) && s.size > 0 && AllFail(s, k)
    ensures var (end, chunks) := Retries(s, k);
      && Consistent(end) && end.pending == s.pending && end.size == s.size
      && |chunks| == k && ProperPrefixes(chunks, s.pending)
      && end.wire.sent == s.wire.sent + Concat(chunks)
    decreases k
  {
    if k > 0 {
      FlushConserves(s, None);
      var next := Flush(s, None).0;
      RetriesFail(next, k - 1);
      ConcatCons(s.wire.sent, Added(s.wire.sent, next.wire.sent), Retries(next, k - 1).1);
    }
  }

  lemma ConcatCons(before: seq<Byte>, chunk: seq<Byte>, chunks: seq<seq<Byte>>)
    ensures before + Concat([chunk] + chunks) == before + chunk + Concat(chunks)
  {
  }

  /** So when a flush succeeds after k that failed, the wire holds k proper prefixes of the pending
      bytes and then all of them. */
  lemma RetriedFlush(s: Stream, k: nat)
    requires Consistent(s) && s.size > 0 && AllFail(s, k)
    requires Flush(Retries(s, k).0, None).1
    ensures var (tried, chunks) := Retries(s, k);
      var end := Flush(tried, None).0;
      && end.pending == []
      && end.wire.sent == s.wire.sent + Concat(chunks) + s.pending
      && |chunks| == k && ProperPrefixes(chunks, s.pending)
  {
    RetriesFail(s, k);
    FlushConserves(Retries(s, k).0, None);
  }

  // Without a buffer.

  ghost predicate Unbuffered(s: Stream) {
    Consistent(s) && s.size == 0
  }

  /** A stream without a buffer stays so, and whatever it accepts is on the wire at once: nothing is
      forgotten, and nothing sent twice, even when flushes fail. */
  lemma UnbufferedStep(s: Stream, op: Op)
    requires Unbuffered(s)
    ensures var (next, e) := Perform(s, op); Unbuffered(next) && e.sent == e.took && e.lost == []
  {
    PerformBalances(s, op);
    if op.Put? {
      FlushIsFlushed(s, Some(op.c));
    } else if op.Sync? || op.Close? {
      FlushNothing(s);
    }
  }

  lemma UnbufferedStays(s: Stream, ops: seq<Op>, k: nat, n: nat)
    requires k <= n <= |ops| && Unbuffered(Run(s, ops, k).0)
    ensures Unbuffered(Run(s, ops, n).0)
  {
    forall now: Stream, op | Unbuffered(now)
      ensures Unbuffered(Perform(now, op).0)
    {
      UnbufferedStep(now, op);
    }
    Stays(Perform, s, ops, k, n, (now: Stream) => Unbuffered(now));
  }

  /** What is accepted without a buffer is sent by the same operation. */
  lemma SentAtOnce(s: Stream, ops: seq<Op>, k: nat, n: nat, m: nat)
    requires k <= m < n <= |ops| && Unbuffered(Run(s, ops, k).0)
    ensures Run(s, ops, n).1[m].sent == Run(s, ops, n).1[m].took
  {
    EventAt(Perform, s, ops, n, m);
    UnbufferedStays(s, ops, k, m);
    UnbufferedStep(Run(s, ops, m).0, ops[m]);
  }

  lemma Granted(s: Stream)
    requires Consistent(s) && s.pending == []
    ensures var (next, e) := Perform(s, NoBuffer); Unbuffered(next) && e.answer == Reported(true)
  {
  }

  /** A request for no buffer made while nothing is pending is granted, and from then on every byte that
      is accepted has been sent by the same operation. */
  lemma UnbufferedSendsAtOnce(s: Stream, ops: seq<Op>, k: nat, n: nat)
    requires Consistent(s) && k < n <= |ops| && ops[k].NoBuffer? && Run(s, ops, k).0.pending == []
    ensures var (end, events) := Run(s, ops, n);
      && events[k].answer == Reported(true) && end.size == 0 && end.pending == []
      && forall m :: k < m < n ==> events[m].sent == events[m].took
  {
    BytesAreConserved(s, ops, k);
    Granted(Run(s, ops, k).0);
    EventAt(Perform, s, ops, n, k);
    StateAfter(Perform, s, ops, k);
    UnbufferedStays(s, ops, k + 1, n);
    forall m | k < m < n
      ensures Run(s, ops, n).1[m].sent == Run(s, ops, n).1[m].took
    {
      SentAtOnce(s, ops, k + 1, n, m);
    }
  }

  lemma {:induction false} GatherAlike(events: seq<Event>, part: Event -> seq<Byte>, other: Event -> seq<Byte>)
    requires forall k :: 0 <= k < |events| ==> part(events[k]) == other(events[k])
    ensures Gather(events, part) == Gather(events, other)
  {
    if events != [] {
      GatherAlike(events[..|events| - 1], part, other);
    }
  }

  /** So for a stream without a buffer the wire is exactly what the writer handed over, in order and
      without repetition, whatever fails, closes or moves. */
  lemma UnbufferedConservation(s: Stream, ops: seq<Op>, n: nat)
    requires Consistent(s) && s.size == 0 && n <= |ops|
    ensures var (end, events) := Run(s, ops, n); end.wire.sent == s.wire.sent + Gather(events, TOOK)
  {
    BytesAreConserved(s, ops, n);
    var events := Run(s, ops, n).1;
    forall k | 0 <= k < n
      ensures SENT(events[k]) == TOOK(events[k])
    {
      SentAtOnce(s, ops, 0, n, k);
    }
    GatherAlike(events, SENT, TOOK);
  }

  /** So many bytes have been put, and none sent. */
  ghost predicate Buffered(s: Stream, now: Stream, events: seq<Event>) {
    && now.wire == s.wire && now.ec == s.ec && now.room == s.room - |events|
    && now.pending == s.pending + Gather(events, TOOK) && |Gather(events, TOOK)| == |events|
  }

  lemma BufferedNext(s: Stream, now: Stream, events: seq<Event>, c: Byte)
    requires Buffered(s, now, events) && |events| < s.room
    ensures Buffered(s, Perform(now, Put(c)).0, events + [Perform(now, Put(c)).1])
  {
    var (next, e) := Perform(now, Put(c));
    GatherSnoc(events, e, TOOK);
    assert e.took == [c] && next.pending == now.pending + [c];
    assert s.pending + Gather(events, TOOK) + [c] == s.pending + (Gather(events, TOOK) + [c]);
  }

  /** With a buffer, puts send nothing while there is room for them. */
  lemma {:induction false} PutsAreBuffered(s: Stream, ops: seq<Op>, n: nat)
    requires n <= |ops| && n <= s.room && forall k :: 0 <= k < n ==> ops[k].Put?
    ensures var (end, events) := Run(s, ops, n); Buffered(s, end, events)
    decreases n
  {
    if n > 0 {
      PutsAreBuffered(s, ops, n - 1);
      var (now, events) := Run(s, ops, n - 1);
      OneMore(Perform, s, ops, n - 1, now, events);
      BufferedNext(s, now, events, ops[n - 1].c);
    }
  }

  lemma LosesNothing(s: Stream, op: Op)
    requires !op.Move? && !op.Close?
    ensures Perform(s, op).1.lost == []
  {
  }

  /** Nothing is forgotten in a run with neither moves nor closes. */
  lemma OnlyMovesAndClosesLose(s: Stream, ops: seq<Op>, n: nat)
    requires n <= |ops|
    requires forall k :: 0 <= k < n ==> !ops[k].Move? && !ops[k].Close?
    ensures Gather(Run(s, ops, n).1, LOST) == []
  {
    var events := Run(s, ops, n).1;
    forall k | 0 <= k < n
      ensures LOST(events[k]) == []
    {
      EventAt(Perform, s, ops, n, k);
      LosesNothing(Run(s, ops, k).0, ops[k]);
    }
    GathersNothing(events, LOST);
  }

  /** The buffers of `now` are those of `before`, or new. */
  twostate predicate Inherits(before: SocketStreamBuf, new now: SocketStreamBuf)
    reads now
  {
    && (now == before || fresh(now))
    && (now.getBuffer == old(before.getBuffer) || fresh(now.getBuffer))
    && (now.putBuffer == old(before.putBuffer) || fresh(now.putBuffer))
  }

  method MoveOn(sb: SocketStreamBuf) returns (now: SocketStreamBuf)
    requires sb.Valid()
    modifies sb
    ensures now.Valid() && Inherits(sb, now)
    ensures now.View() == Moved(old(sb.View()))
  {
    now := new SocketStreamBuf.Move(sb);
  }

  /** One operation on the real stream buffer, with what it answers. */
  method Apply(sb: SocketStreamBuf, op: Op) returns (now: SocketStreamBuf, answer: Answer)
    requires sb.Valid()
    modifies sb, sb.getBuffer, sb.putBuffer
    ensures now.Valid() && Inherits(sb, now)
    ensures now.View() == Perform(old(sb.View()), op).0
    ensures answer == Perform(old(sb.View()), op).1.answer
    ensures Lawful(old(sb.View()), op, answer, now.View())
  {
    now := sb;
    match op
    case Put(c) =>
      var ok := sb.SPutC(c);
      answer := Reported(ok);
    case Sync =>
      var ok := sb.Sync();
      answer := Reported(ok);
    case Peek =>
      var c := sb.SGetC();
      answer := Character(c);
    case Bump =>
      var c := sb.SBumpC();
      answer := Character(c);
    case NoBuffer =>
      var granted := sb.SetBuf(true, 0);
      answer := Reported(granted);
    case Close(closing) =>
      var closed := sb.Close(closing);
      answer := Reported(closed);
    case Move =>
      now := MoveOn(sb);
      answer := NoAnswer;
  }

  /** The events have the answers that were observed, and take and give what these say. */
  ghost predicate Explained(ops: seq<Op>, answers: seq<Answer>, events: seq<Event>) {
    |answers| == |events| <= |ops| &&
    forall k :: 0 <= k < |events| ==> ExplainedBy(ops[k], answers[k], events[k])
  }

  predicate ExplainedBy(op: Op, answer: Answer, e: Event) {
    e.answer == answer && e.took == TakenFor(op, answer) && e.gave == GivenFor(op, answer)
  }

  lemma Explains(s: Stream, op: Op)
    ensures var e := Perform(s, op).1; ExplainedBy(op, e.answer, e)
  {
  }

  /** The operation at `k` has kept what it promises. */
  ghost predicate LawfulAt(s: Stream, ops: seq<Op>, answers: seq<Answer>, k: nat)
    requires k < |ops| && k < |answers|
  {
    Lawful(Run(s, ops, k).0, ops[k], answers[k], Run(s, ops, k + 1).0)
  }

  lemma RunIsLawful(s: Stream, ops: seq<Op>, answers: seq<Answer>, k: nat)
    requires Consistent(s) && k < |ops| == |answers|
    requires answers[k] == Run(s, ops, |ops|).1[k].answer
    ensures LawfulAt(s, ops, answers, k)
  {
    BytesAreConserved(s, ops, k);
    EventAt(Perform, s, ops, |ops|, k);
    StateAfter(Perform, s, ops, k);
    PerformIsLawful(Run(s, ops, k).0, ops[k]);
  }

  lemma RunIsExplained(s: Stream, ops: seq<Op>, answers: seq<Answer>)
    requires |answers| == |ops|
    requires forall k :: 0 <= k < |ops| ==> answers[k] == Run(s, ops, |ops|).1[k].answer
    ensures Explained(ops, answers, Run(s, ops, |ops|).1)
  {
    forall k | 0 <= k < |ops|
      ensures ExplainedBy(ops[k], answers[k], Run(s, ops, |ops|).1[k])
    {
      EventAt(Perform, s, ops, |ops|, k);
      Explains(Run(s, ops, k).0, ops[k]);
    }
  }

  /** The conservation laws for the first `n` operations. */
  ghost predicate AccountedFor(s: Stream, ops: seq<Op>, n: nat, events: seq<Event>, end: Stream)
    requires n <= |ops|
  {
    && Ledger(s, events, end)
    && (AllFlushed(events) ==> (AllSent(s, events, end) <==> QuietMoves(s, ops, n)))
    && (AllGiven(s, events, end) <==> QuietCloses(s, ops, n))
    && (s.size == 0 ==> end.wire.sent == s.wire.sent + Gather(events, TOOK))
  }

  lemma RunsAreAccountedFor(s: Stream, ops: seq<Op>, n: nat)
    requires Consistent(s) && n <= |ops|
    ensures AccountedFor(s, ops, n, Run(s, ops, n).1, Run(s, ops, n).0)
  {
    BytesAreConserved(s, ops, n);
    ReceiveConservation(s, ops, n);
    if AllFlushed(Run(s, ops, n).1) {
      SendConservation(s, ops, n);
    }
    if s.size == 0 {
      UnbufferedConservation(s, ops, n);
    }
  }

  /** Every run of the real stream buffer is a run of its value, and with what it answered on the way
      its bytes are accounted for. */
  method Drive(sb: SocketStreamBuf, ops: seq<Op>)
    returns (now: SocketStreamBuf, answers: seq<Answer>, ghost events: seq<Event>)
    requires sb.Valid()
    modifies sb, sb.getBuffer, sb.putBuffer
    ensures now.Valid()
    ensures (now.View(), events) == Run(old(sb.View()), ops, |ops|)
    ensures |answers| == |ops| && Explained(ops, answers, events)
    ensures forall k: nat :: k < |ops| ==> LawfulAt(old(sb.View()), ops, answers, k)
    ensures AccountedFor(old(sb.View()), ops, |ops|, events, now.View())
  {
    now, answers, events := sb, [], [];
    ghost var before := sb.View();
    var i := 0;
    while i < |ops|
      invariant 0 <= i <= |ops| && |events| == |answers| == i
      invariant now.Valid() && Inherits(sb, now)
      invariant Trace(Perform, before, ops, i) == (now.View(), events)
      invariant forall k :: 0 <= k < i ==> answers[k] == events[k].answer
    {
      OneMore(Perform, before, ops, i, now.View(), events);
      ghost var e := Perform(now.View(), ops[i]).1;
      var answer;
      now, answer := Apply(now, ops[i]);
      answers, events := answers + [answer], events + [e];
      i := i + 1;
    }
    RunIsExplained(before, ops, answers);
    forall k: nat | k < |ops|
      ensures LawfulAt(before, ops, answers, k)
    {
      RunIsLawful(before, ops, answers, k);
    }
    RunsAreAccountedFor(before, ops, |ops|);
  }
}
