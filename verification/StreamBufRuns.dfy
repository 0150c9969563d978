/** Whole runs of a `StreamBuf`, checked against a plain bounded queue of bytes. */
module StreamBufferRuns {
  import opened Machine
  import opened StreamBuffer

  datatype Queue = Queue(limit: nat, data: seq<Byte>) {
    ghost predicate Valid() {
      |data| <= limit
    }
  }

  /** `Write` is prepare(n), storing bytes into the region and committing those stored. */
  datatype Op =
    | Write(n: SizeT, bytes: seq<Byte>)
    | Drop(n: SizeT)
    | Put(c: Byte)
    | Peek
    | Get

  /** What came of an operation, with the bytes that went in or out. */
  datatype Event =
    | Wrote(bytes: seq<Byte>)
    | Refused
    | Dropped(bytes: seq<Byte>)
    | Stored(c: Byte)
    | Full
    | Saw(next: Option<Byte>)
    | Got(got: Option<Byte>)

  function Clip(bytes: seq<Byte>, n: SizeT): (r: seq<Byte>)
    ensures r <= bytes && |r| == Min(|bytes|, n as int)
  {
    bytes[..Min(|bytes|, n as int)]
  }

  function Step(q: Queue, op: Op): (r: (Queue, Event))
    requires q.Valid()
    ensures r.0.Valid() && r.0.limit == q.limit
  {
    match op
    case Write(n, bytes) =>
      if |q.data| + n as int > q.limit then (q, Refused)
      else (q.(data := q.data + Clip(bytes, n)), Wrote(Clip(bytes, n)))
    case Drop(n) =>
      var m := Min(n as int, |q.data|);
      (q.(data := Behind(q.data, m)), Dropped(q.data[..m]))
    case Put(c) =>
      if |q.data| == q.limit then (q, Full) else (q.(data := q.data + [c]), Stored(c))
    case Peek =>
      (q, Saw(if q.data == [] then None else Some(q.data[0])))
    case Get =>
      if q.data == [] then (q, Got(None)) else (q.(data := Behind(q.data, 1)), Got(Some(q.data[0])))
  }

  /** The run has come to a refused `prepare`, and goes no further. */
  predicate Stopped(events: seq<Event>) {
    events != [] && events[|events| - 1] == Refused
  }

  /** A run of the first `n` operations, or up to the first refused `prepare`. */
  function Run(q: Queue, ops: seq<Op>, n: nat): (r: (Queue, seq<Event>))
    requires q.Valid() && n <= |ops|
    ensures r.0.Valid() && r.0.limit == q.limit
    decreases n
  {
    if n == 0 then (q, [])
    else
      var (now, events) := Run(q, ops, n - 1);
      if Stopped(events) then (now, events)
      else
        var (next, event) := Step(now, ops[n - 1]);
        (next, events + [event])
  }

  /** The bytes an event reports as taken in, and those it reports as gone from the front. */
  function AcceptedBy(event: Event): seq<Byte> {
    match event
    case Wrote(bytes) => bytes
    case Stored(c) => [c]
    case _ => []
  }

  function TakenBy(event: Event): seq<Byte> {
    match event
    case Dropped(bytes) => bytes
    case Got(Some(c)) => [c]
    case _ => []
  }

  function Accepted(events: seq<Event>): seq<Byte> {
    if events == [] then [] else Accepted(events[..|events| - 1]) + AcceptedBy(events[|events| - 1])
  }

  function Taken(events: seq<Event>): seq<Byte> {
    if events == [] then [] else Taken(events[..|events| - 1]) + TakenBy(events[|events| - 1])
  }

  /** What was there plus what was accepted is what was taken plus what is left, in order. */
  ghost predicate Conserved(before: seq<Byte>, events: seq<Event>, after: seq<Byte>) {
    before + Accepted(events) == Taken(events) + after
  }

  /** What the operation and the readable bytes before it demand of the event. */
  predicate Demanded(limit: nat, present: seq<Byte>, op: Op, event: Event) {
    match op
    case Write(n, bytes) =>
      if |present| + n as int > limit then event == Refused
      else event.Wrote? && event.bytes <= bytes && |event.bytes| == Min(|bytes|, n as int)
    case Drop(n) => event.Dropped? && event.bytes <= present && |event.bytes| == Min(n as int, |present|)
    case Put(c) => event == if |present| == limit then Full else Stored(c)
    case Peek => event == Saw(if present == [] then None else Some(present[0]))
    case Get => event == Got(if present == [] then None else Some(present[0]))
  }

  lemma StepIsDemanded(q: Queue, op: Op)
    requires q.Valid()
    ensures Demanded(q.limit, q.data, op, Step(q, op).1)
  {
  }

  /** The readable bytes after these events: what was there and what came in, but for what went out. */
  function Present(before: seq<Byte>, events: seq<Event>): seq<Byte> {
    var all := before + Accepted(events);
    Behind(all, Min(|Taken(events)|, |all|))
  }

  lemma ConservedIsPresent(before: seq<Byte>, events: seq<Event>, after: seq<Byte>)
    requires Conserved(before, events, after)
    ensures Present(before, events) == after
  {
    var all := before + Accepted(events);
    assert forall k :: 0 <= k < |after| ==> after[k] == (Taken(events) + after)[|Taken(events)| + k];
  }

  /** The event at `k` is what its operation demands after those before it. */
  predicate LawfulAt(limit: nat, before: seq<Byte>, ops: seq<Op>, events: seq<Event>, k: nat)
    requires k < |events| && k < |ops|
  {
    Demanded(limit, Present(before, events[..k]), ops[k], events[k])
  }

  /** Each event is what its operation demands, and only the last one can be a refusal. */
  ghost predicate Lawful(limit: nat, before: seq<Byte>, ops: seq<Op>, events: seq<Event>) {
    && |events| <= |ops|
    && (forall k: nat :: k < |events| ==> LawfulAt(limit, before, ops, events, k))
    && (forall k: nat :: k < |events| && events[k] == Refused ==> k == |events| - 1)
  }

  lemma LawfulSnoc(limit: nat, before: seq<Byte>, ops: seq<Op>, events: seq<Event>, event: Event)
    requires |events| < |ops| && Lawful(limit, before, ops, events) && !Stopped(events)
    requires Demanded(limit, Present(before, events), ops[|events|], event)
    ensures Lawful(limit, before, ops, events + [event])
  {
    var now := events + [event];
    assert now[..|events|] == events;
    forall k: nat | k < |now|
      ensures LawfulAt(limit, before, ops, now, k)
    {
      if k < |events| {
        assert now[..k] == events[..k];
        assert LawfulAt(limit, before, ops, events, k);
      }
    }
  }

  lemma ConservedSnoc(a: seq<Byte>, events: seq<Event>, b: seq<Byte>, event: Event, c: seq<Byte>)
    requires Conserved(a, events, b)
    requires b + AcceptedBy(event) == TakenBy(event) + c
    ensures Conserved(a, events + [event], c)
  {
    assert (events + [event])[..|events|] == events;
    Chain(a, Accepted(events), Taken(events), b, AcceptedBy(event), TakenBy(event), c);
  }

  /** One operation: what was there and what comes in is what goes out and what remains. */
  lemma StepConserves(q: Queue, op: Op)
    requires q.Valid()
    ensures var (next, event) := Step(q, op); q.data + AcceptedBy(event) == TakenBy(event) + next.data
  {
  }

  lemma OneOperationMore(q: Queue, ops: seq<Op>, n: nat, now: Queue, events: seq<Event>)
    requires q.Valid() && n < |ops| && Run(q, ops, n) == (now, events) && !Stopped(events)
    ensures Run(q, ops, n + 1) == (Step(now, ops[n]).0, events + [Step(now, ops[n]).1])
    ensures Stopped(events + [Step(now, ops[n]).1]) <==> Step(now, ops[n]).1 == Refused
  {
  }

  lemma StepKeepsConserved(a: seq<Byte>, now: Queue, events: seq<Event>, op: Op)
    requires now.Valid() && Conserved(a, events, now.data)
    ensures var (next, event) := Step(now, op); Conserved(a, events + [event], next.data)
  {
    StepConserves(now, op);
    var (next, event) := Step(now, op);
    ConservedSnoc(a, events, now.data, event, next.data);
  }

  lemma LawfulNext(q: Queue, ops: seq<Op>, now: Queue, events: seq<Event>)
    requires now.Valid() && now.limit == q.limit && |events| < |ops| && !Stopped(events)
    requires Lawful(q.limit, q.data, ops, events) && Conserved(q.data, events, now.data)
    ensures Lawful(q.limit, q.data, ops, events + [Step(now, ops[|events|]).1])
  {
    ConservedIsPresent(q.data, events, now.data);
    StepIsDemanded(now, ops[|events|]);
    LawfulSnoc(q.limit, q.data, ops, events, Step(now, ops[|events|]).1);
  }

  /** What is true at the start and kept by every operation is true after every run. */
  lemma {:induction false} Always(q: Queue, ops: seq<Op>, n: nat, p: (Queue, seq<Event>) -> bool)
    requires q.Valid() && n <= |ops| && p(q, [])
    requires forall now: Queue, events: seq<Event> ::
      now.Valid() && |events| < |ops| && !Stopped(events) && p(now, events) ==>
        p(Step(now, ops[|events|]).0, events + [Step(now, ops[|events|]).1])
    ensures var (now, events) := Run(q, ops, n); p(now, events) && (|events| == n || Stopped(events))
    decreases n
  {
    if n > 0 {
      Always(q, ops, n - 1, p);
    }
  }

  /** The bytes are accounted for and the events are those demanded. */
  ghost predicate WellKept(q: Queue, ops: seq<Op>, now: Queue, events: seq<Event>) {
    now.limit == q.limit && Conserved(q.data, events, now.data) && Lawful(q.limit, q.data, ops, events)
  }

  lemma WellKeptNext(q: Queue, ops: seq<Op>, now: Queue, events: seq<Event>)
    requires now.Valid() && |events| < |ops| && !Stopped(events) && WellKept(q, ops, now, events)
    ensures var (next, event) := Step(now, ops[|events|]); WellKept(q, ops, next, events + [event])
  {
    StepKeepsConserved(q.data, now, events, ops[|events|]);
    LawfulNext(q, ops, now, events);
  }

  lemma RunIsWellKept(q: Queue, ops: seq<Op>, n: nat)
    requires q.Valid() && n <= |ops|
    ensures var (now, events) := Run(q, ops, n);
      WellKept(q, ops, now, events) && (|events| == n || Stopped(events))
  {
    forall now: Queue, events: seq<Event> |
        now.Valid() && |events| < |ops| && !Stopped(events) && WellKept(q, ops, now, events)
      ensures WellKept(q, ops, Step(now, ops[|events|]).0, events + [Step(now, ops[|events|]).1])
    {
      WellKeptNext(q, ops, now, events);
    }
    assert Conserved(q.data, [], q.data);
    Always(q, ops, n, (now: Queue, events: seq<Event>) => WellKept(q, ops, now, events));
  }

  /** First in, first out, over every run. */
  lemma FirstInFirstOut(q: Queue, ops: seq<Op>, n: nat)
    requires q.Valid() && n <= |ops|
    ensures var (now, events) := Run(q, ops, n); Conserved(q.data, events, now.data)
  {
    RunIsWellKept(q, ops, n);
  }

  /** What a run reports is what its operations demand, and its bytes are those that the events leave. */
  lemma RunIsLawful(q: Queue, ops: seq<Op>, n: nat)
    requires q.Valid() && n <= |ops|
    ensures var (now, events) := Run(q, ops, n);
      && Lawful(q.limit, q.data, ops, events) && (|events| == n || Stopped(events))
      && Present(q.data, events) == now.data
  {
    RunIsWellKept(q, ops, n);
    var (now, events) := Run(q, ops, n);
    ConservedIsPresent(q.data, events, now.data);
  }

  lemma {:induction false} StoppedForGood(q: Queue, ops: seq<Op>, n: nat, m: nat)
    requires q.Valid() && n <= m <= |ops| && Stopped(Run(q, ops, n).1)
    ensures Run(q, ops, m) == Run(q, ops, n)
    decreases m
  {
    if n < m {
      StoppedForGood(q, ops, n, m - 1);
    }
  }

  ghost predicate Shows(sb: StreamBuf, q: Queue)
    reads sb, sb.buffer
  {
    sb.Valid() && q.Valid() && q.limit == sb.maxSize as int && sb.Data() == q.data
  }

  method PrepareFillCommit(sb: StreamBuf, n: SizeT, bytes: seq<Byte>) returns (ok: bool)
    requires sb.Valid() && |bytes| <= n as int
    modifies sb, sb.buffer
    ensures sb.Valid() && sb.OwnsBuffer()
    ensures ok <==> |old(sb.Data())| + n as int <= sb.maxSize as int
    ensures ok ==> sb.Data() == old(sb.Data()) + bytes
    ensures !ok ==> sb.Data() == Shifted(old(sb.Data()), sb.get.next as int)
  {
    var region := sb.Prepare(n);
    if region.None? {
      return false;
    }
    sb.Fill(region.value, bytes);
    sb.Commit(|bytes| as SizeT);
    return true;
  }

  /** One operation on the real buffer answers what the queue answers and leaves what it leaves. */
  method Apply(sb: StreamBuf, op: Op, ghost q: Queue) returns (event: Event)
    requires Shows(sb, q)
    modifies sb, sb.buffer
    ensures sb.OwnsBuffer()
    ensures event == Step(q, op).1
    ensures event != Refused ==> Shows(sb, Step(q, op).0)
    ensures event == Refused ==> sb.Valid() && sb.Data() == Shifted(old(sb.Data()), sb.get.next as int)
    ensures Demanded(q.limit, old(sb.Data()), op, event)
  {
    StepIsDemanded(q, op);
    match op
    case Write(n, bytes) =>
      var ok := PrepareFillCommit(sb, n, Clip(bytes, n));
      return if ok then Wrote(Clip(bytes, n)) else Refused;
    case Drop(n) =>
      var count := Smaller(n, sb.Size());
      event := Dropped(Window(sb.buffer[..], sb.get.next as int, sb.get.next as int + count as int));
      assert event.bytes == sb.Data()[..count as int];
      sb.Consume(n);
    case Put(c) =>
      var r := sb.SPutC(c);
      return if r == Done then Stored(c) else Full;
    case Peek =>
      var next := sb.SGetC();
      return Saw(next);
    case Get =>
      var c := sb.SBumpC();
      return Got(c);
  }

  /** Every run of the real buffer is a run of the queue, up to the first refused `prepare`; and so what
      it was seen to take in and to give out accounts for all of its bytes. */
  method Drive(sb: StreamBuf, ops: seq<Op>, ghost q: Queue) returns (events: seq<Event>)
    requires Shows(sb, q)
    modifies sb, sb.buffer
    ensures sb.Valid() && sb.OwnsBuffer()
    ensures events == Run(q, ops, |ops|).1
    ensures (|events| == |ops| || Stopped(events)) && Lawful(sb.maxSize as int, old(sb.Data()), ops, events)
    ensures sb.Data() ==
      var left := Present(old(sb.Data()), events); if Stopped(events) then Shifted(left, sb.get.next as int) else left
    ensures !Stopped(events) ==> Conserved(old(sb.Data()), events, sb.Data())
  {
    events := Play(sb, ops, q);
    RunIsLawful(q, ops, |ops|);
    FirstInFirstOut(q, ops, |ops|);
  }

  method Play(sb: StreamBuf, ops: seq<Op>, ghost q: Queue) returns (events: seq<Event>)
    requires Shows(sb, q)
    modifies sb, sb.buffer
    ensures sb.Valid() && sb.OwnsBuffer()
    ensures events == Run(q, ops, |ops|).1
    ensures sb.Data() ==
      var left := Run(q, ops, |ops|).0.data; if Stopped(events) then Shifted(left, sb.get.next as int) else left
  {
    events := [];
    ghost var now := q;
    var i := 0;
    while i < |ops|
      invariant 0 <= i <= |ops|
      invariant Shows(sb, now) && sb.OwnsBuffer()
      invariant Run(q, ops, i) == (now, events) && !Stopped(events)
    {
      OneOperationMore(q, ops, i, now, events);
      var event := Apply(sb, ops[i], now);
      now := Step(now, ops[i]).0;
      events := events + [event];
      i := i + 1;
      if event == Refused {
        StoppedForGood(q, ops, i, |ops|);
        return;
      }
    }
  }

  /** A string that goes through a fresh buffer comes back as it was, cut at the maximum size. */
  method StringRoundTrip(maximumSize: SizeT, s: seq<Byte>) returns (back: seq<Byte>, r: Outcome)
    ensures back == s[..Min(|s|, maximumSize as int)]
    ensures r == Done <==> |s| <= maximumSize as int
  {
    var sb := new StreamBuf(maximumSize);
    var stored;
    stored, r := sb.XsPutN(s);
    back := sb.XsGetN(|s|);
  }

  /** A buffer that is full of the string. */
  method Filled(s: seq<Byte>) returns (sb: StreamBuf)
    requires |s| < 0x1_0000_0000_0000_0000
    ensures fresh(sb) && sb.Valid() && fresh(sb.buffer)
    ensures sb.maxSize as int == |s| && sb.Data() == s && sb.get.next == 0
  {
    sb := new StreamBuf(|s| as SizeT);
    var stored, _ := sb.XsPutN(s);
    assert s[..stored] == s;
  }

  /** `g` bytes of a full buffer are consumed and `n` asked for.  That is refused when n > g, and spoils
      what is left whenever that is longer than `g`. */
  method ReadAfterPrepare(s: seq<Byte>, g: SizeT, n: SizeT) returns (refused: bool, back: seq<Byte>)
    requires |s| < 0x1_0000_0000_0000_0000 && g as int <= |s|
    ensures refused <==> n > g
    ensures back == if refused then Shifted(s[g as int..], g as int) else s[g as int..]
  {
    WindowsAreSlices(s, g as int, |s|);
    var sb := Filled(s);
    sb.Consume(g);
    assert sb.get.next == g;
    var region := sb.Prepare(n);
    ghost var left := sb.Data();
    back := sb.XsGetN(|s|);
    assert back == left;
    refused := region.None?;
  }

  /** Three bytes, of which one is consumed and three more are asked for. */
  method RefusalSpoils(a: Byte, b: Byte, c: Byte) returns (refused: bool, back: seq<Byte>)
    ensures refused && back == [c, c]
  {
    refused, back := ReadAfterPrepare([a, b, c], 1, 3);
  }

  /** One round of a composed read: how much the completion condition allows, and what the device
      has ready. */
  datatype Round = Round(limit: SizeT, ready: seq<Byte>)

  /** Every round is allowed to read and delivers at least one byte. */
  ghost predicate Eager(script: seq<Round>) {
    forall i :: 0 <= i < |script| ==> script[i].limit > 0 && script[i].ready != []
  }

  /** What a round may deliver: a front part of what is ready, within the limit. */
  ghost predicate Serves(bytes: seq<Byte>, round: Round) {
    bytes <= round.ready && |bytes| <= round.limit as int
  }

  /** What it delivers at least when `free` more bytes may be stored: all that is ready, or as many as
      are allowed, or 512. */
  ghost predicate ServesWell(bytes: seq<Byte>, round: Round, free: int) {
    |bytes| >= Min(Min(|round.ready|, 512), Min(round.limit as int, free))
  }

  /** One round; `more` is false when the helper asks for nothing.  The `assert` says that
      `prepare` is never refused here. */
  method ReadRound(sb: StreamBuf, round: Round) returns (more: bool, bytes: seq<Byte>)
    requires sb.Valid()
    modifies sb, sb.buffer
    ensures sb.Valid() && sb.OwnsBuffer()
    ensures more <==> round.limit > 0 && |old(sb.Data())| < sb.maxSize as int
    ensures Serves(bytes, round) && ServesWell(bytes, round, sb.maxSize as int - |old(sb.Data())|)
    ensures sb.Data() == old(sb.Data()) + bytes
    ensures more && round.ready != [] ==> bytes != []
  {
    var n := sb.ReadSizeHelper(round.limit);
    assert sb.Preferable(round.limit, Min(512, Min(round.limit as int, sb.maxSize as int - |sb.Data()|)));
    if n == 0 {
      return false, [];
    }
    bytes := Clip(round.ready, n);
    more := PrepareFillCommit(sb, n, bytes);
    assert more;
  }

  /** Round `i` delivered enough, seeing what those before it have stored. */
  ghost predicate ServedAt(before: nat, max: nat, script: seq<Round>, got: seq<seq<Byte>>, i: nat)
    requires i < |got| && i < |script|
  {
    Serves(got[i], script[i]) && ServesWell(got[i], script[i], max - before - |Concat(got[..i])|)
  }

  /** The rounds have been served in order and their bytes appended to what was there before. */
  ghost predicate ReadSoFar(before: seq<Byte>, max: nat, script: seq<Round>, got: seq<seq<Byte>>, data: seq<Byte>) {
    && |got| <= |script|
    && (forall i: nat :: i < |got| ==> ServedAt(|before|, max, script, got, i))
    && data == before + Concat(got)
    && (Eager(script) ==> |got| <= |Concat(got)|)
  }

  lemma ReadNext(before: seq<Byte>, max: nat, script: seq<Round>, got: seq<seq<Byte>>, data: seq<Byte>,
                 bytes: seq<Byte>)
    requires ReadSoFar(before, max, script, got, data) && |got| < |script|
    requires Serves(bytes, script[|got|]) && ServesWell(bytes, script[|got|], max - |data|)
    requires Eager(script) ==> bytes != []
    ensures ReadSoFar(before, max, script, got + [bytes], data + bytes)
  {
    ConcatSnoc(got, bytes);
    assert before + Concat(got) + bytes == before + (Concat(got) + bytes);
    var now := got + [bytes];
    assert now[..|got|] == got;
    forall i: nat | i < |now|
      ensures ServedAt(|before|, max, script, now, i)
    {
      if i < |got| {
        assert now[..i] == got[..i];
        assert ServedAt(|before|, max, script, got, i);
      }
    }
  }

  /** `read_at` into a stream buffer, until the helper asks for nothing.  `got` lists what each
      round delivered. */
  method ReadRounds(sb: StreamBuf, script: seq<Round>) returns (got: seq<seq<Byte>>)
    requires sb.Valid()
    modifies sb, sb.buffer
    ensures sb.Valid() && sb.OwnsBuffer()
    ensures ReadSoFar(old(sb.Data()), sb.maxSize as int, script, got, sb.Data())
    // It stops early only because a round may not read or the buffer is full.
    ensures |got| < |script| ==> script[|got|].limit == 0 || |sb.Data()| == sb.maxSize as int
    ensures Eager(script) ==> |got| <= sb.maxSize as int - |old(sb.Data())|
  {
    got := [];
    assert sb.Data() == sb.Data() + Concat([]);
    while |got| < |script|
      invariant sb.Valid() && sb.OwnsBuffer()
      invariant ReadSoFar(old(sb.Data()), sb.maxSize as int, script, got, sb.Data())
    {
      ghost var data := sb.Data();
      var more, bytes := ReadRound(sb, script[|got|]);
      if !more {
        assert data == data + [];
        break;
      }
      ReadNext(old(sb.Data()), sb.maxSize as int, script, got, data, bytes);
      got := got + [bytes];
    }
  }

  /** What a refused `prepare` makes of the readable bytes. */
  lemma ShiftedIsOverlap(data: seq<Byte>, g: nat)
    ensures Shifted(data, g) == if 0 < g < |data| then data[g..] + data[|data| - g..] else data
  {
  }

  /** A refused `prepare` leaves the readable bytes as they were exactly when they repeat with the
      distance by which they were shifted. */
  lemma RefusalKeepsPeriodic(data: seq<Byte>, g: nat)
    ensures Shifted(data, g) == data <==>
      g == 0 || forall k :: 0 <= k < |data| - g ==> data[k] == data[k + g]
  {
  }

  /** So a caller can rely on that, whatever the bytes are, exactly when the get area is at the front
      or no longer than what was consumed in front of it. */
  lemma RefusalKeepsAll(size: nat, g: nat)
    ensures (forall data: seq<Byte> :: |data| == size ==> Shifted(data, g) == data)
      <==> g == 0 || size <= g
  {
    if 0 < g < size {
      var data: seq<Byte> := seq(size, i => if i == 0 then 1 else 0);
      assert Shifted(data, g)[0] == data[g];
    }
  }
}
