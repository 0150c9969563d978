/** What the socket, the clock and the poller may answer, as scripts, and what the loops of
    `basic_socket_streambuf` make of them. */
module SocketAnswers {
  import opened Machine

  /** `asio::error_code`; `NoError` is the one that converts to false. */
  datatype ErrorCode =
    | NoError
    | WouldBlock
    | TryAgain
    | InProgress
    | TimedOut
    | EndOfFile
    | NotFound
    | Other(value: nat)

  type Failure = e: ErrorCode | e != NoError witness TimedOut

  predicate Retryable(ec: ErrorCode) {
    ec == WouldBlock || ec == TryAgain
  }

  /** A positive, zero or negative result of `poll_read`, `poll_write` or `poll_connect`. */
  datatype PollAnswer = Ready | StillWaiting | PollFailed(ec: Failure)

  /** One round of the send loop.  `SendLate`: the expiry time has passed.  `Accepts(k)`: the
      socket takes k bytes, or all that are offered if they are fewer; k = 0 is a zero result.
      `SendFails`: the error, and what polling answers when the error makes the loop poll. */
  datatype SendAnswer =
    | SendLate
    | Accepts(k: nat)
    | SendFails(error: Failure, poll: PollAnswer)

  /** One round of the receive loop; `Delivers([])` is the peer's end of file. */
  datatype RecvAnswer =
    | RecvLate
    | Delivers(bytes: seq<Byte>)
    | RecvFails(error: Failure, poll: PollAnswer)

  /** A connected socket: what went out, what came in, and how it will go on answering.  A script
      that has run out answers that the expiry time has passed. */
  datatype Wire = Wire(sent: seq<Byte>, toSend: seq<SendAnswer>,
                       received: seq<Byte>, toReceive: seq<RecvAnswer>)

  const DISCONNECTED := Wire([], [], [], [])

  datatype SendResult = SendResult(count: nat, ec: ErrorCode, left: seq<SendAnswer>)

  /** How far the loop gets with `n` bytes to send. */
  function SendAll(n: nat, answers: seq<SendAnswer>, ec: ErrorCode): (r: SendResult)
    ensures r.count <= n
    decreases |answers|
  {
    if n == 0 then SendResult(0, ec, answers)
    else if answers == [] then SendResult(0, TimedOut, [])
    else
      match answers[0]
      case SendLate => SendResult(0, TimedOut, answers[1..])
      case Accepts(k) =>
        if k == 0 then SendResult(0, NoError, answers[1..])
        else
          var later := SendAll(n - Min(k, n), answers[1..], NoError);
          later.(count := Min(k, n) + later.count)
      case SendFails(error, poll) =>
        if !Retryable(error) then SendResult(0, error, answers[1..])
        else if poll.PollFailed? then SendResult(0, poll.ec, answers[1..])
        else SendAll(n, answers[1..], NoError)
  }

  /** A round that neither ends the loop nor loses anything. */
  predicate Cooperates(a: SendAnswer) {
    match a
    case SendLate => false
    case Accepts(k) => k > 0
    case SendFails(error, poll) => Retryable(error) && !poll.PollFailed?
  }

  /** What the socket is ready to take before the first round that does not cooperate. */
  function Reach(answers: seq<SendAnswer>): nat {
    if answers == [] || !Cooperates(answers[0]) then 0
    else (if answers[0].Accepts? then answers[0].k else 0) + Reach(answers[1..])
  }

  /** Why the loop stops when it does not get everything out: the first round that does not
      cooperate, or the end of the script. */
  function WhyStopped(answers: seq<SendAnswer>): ErrorCode {
    if answers == [] then TimedOut
    else if Cooperates(answers[0]) then WhyStopped(answers[1..])
    else
      match answers[0]
      case SendLate => TimedOut
      case Accepts(_) => NoError
      case SendFails(error, poll) => if Retryable(error) && poll.PollFailed? then poll.ec else error
  }

  /** The loop sends exactly what the socket is ready to take, and so everything if and only if that
      is enough; otherwise it reports why it stopped.  Only a zero result is reported as no error. */
  lemma {:induction false} SendsWithinReach(n: nat, answers: seq<SendAnswer>, ec: ErrorCode)
    ensures var r := SendAll(n, answers, ec);
      && r.count == Min(n, Reach(answers))
      && r.ec == (if n == 0 then ec else if r.count == n then NoError else WhyStopped(answers))
    decreases |answers|
  {
    if n > 0 && answers != [] && Cooperates(answers[0]) {
      var left := if answers[0].Accepts? then n - Min(answers[0].k, n) else n;
      SendsWithinReach(left, answers[1..], NoError);
    }
  }

  /** How many rounds cooperate before the first one that does not. */
  function Cooperating(answers: seq<SendAnswer>): (i: nat)
    ensures i <= |answers|
    ensures forall j :: 0 <= j < i ==> Cooperates(answers[j])
    ensures i < |answers| ==> !Cooperates(answers[i])
  {
    if answers == [] || !Cooperates(answers[0]) then 0 else 1 + Cooperating(answers[1..])
  }

  /** The loop has used up the first `j` rounds of the script: as many as it took to get `n` bytes out,
      or all up to the one that stopped it. */
  ghost predicate UsesUp(n: nat, answers: seq<SendAnswer>, j: nat)
    requires j <= |answers|
  {
    if n == 0 then j == 0
    else if n <= Reach(answers) then j > 0 && Reach(answers[..j - 1]) < n <= Reach(answers[..j])
    else j == Min(Cooperating(answers) + 1, |answers|)
  }

  lemma {:induction false} SendUsesUp(n: nat, answers: seq<SendAnswer>, ec: ErrorCode) returns (j: nat)
    ensures j <= |answers| && SendAll(n, answers, ec).left == Behind(answers, j)
    ensures UsesUp(n, answers, j)
    decreases |answers|
  {
    if n == 0 || answers == [] {
      return 0;
    }
    if !Cooperates(answers[0]) {
      return 1;
    }
    var k := if answers[0].Accepts? then answers[0].k else 0;
    j := SendUsesUp(n - Min(k, n), answers[1..], NoError);
    ReachOfPrefix(answers, j + 1);
    if n > k {
      ReachOfPrefix(answers, j);
    }
    j := j + 1;
  }

  lemma ReachOfPrefix(answers: seq<SendAnswer>, j: nat)
    requires j <= |answers| && answers != [] && Cooperates(answers[0])
    ensures Reach(answers[..j]) ==
      if j == 0 then 0 else (if answers[0].Accepts? then answers[0].k else 0) + Reach(answers[1..][..j - 1])
  {
    if j > 0 {
      assert answers[..j][1..] == answers[1..][..j - 1];
    }
  }

  datatype RecvResult = RecvResult(bytes: Option<seq<Byte>>, ec: ErrorCode, left: seq<RecvAnswer>)

  /** What the receive loop brings into `room` bytes. */
  function Receive(room: nat, answers: seq<RecvAnswer>): (r: RecvResult)
    requires room > 0
    ensures r.bytes.Some? ==> 0 < |r.bytes.value| <= room
    ensures r.bytes.Some? <==> r.ec == NoError
    decreases |answers|
  {
    if answers == [] then RecvResult(None, TimedOut, [])
    else
      match answers[0]
      case RecvLate => RecvResult(None, TimedOut, answers[1..])
      case Delivers(bytes) =>
        if bytes == [] then RecvResult(None, EndOfFile, answers[1..])
        else RecvResult(Some(bytes[..Min(|bytes|, room)]), NoError, answers[1..])
      case RecvFails(error, poll) =>
        if !Retryable(error) then RecvResult(None, error, answers[1..])
        else if poll.PollFailed? then RecvResult(None, poll.ec, answers[1..])
        else Receive(room, answers[1..])
  }

  /** A round of the receive loop that only waits. */
  predicate Waits(a: RecvAnswer) {
    a.RecvFails? && Retryable(a.error) && !a.poll.PollFailed?
  }

  /** The first round that does not merely wait; behind the last one when there is none. */
  function Waiting(answers: seq<RecvAnswer>): (i: nat)
    ensures i <= |answers|
    ensures forall j :: 0 <= j < i ==> Waits(answers[j])
    ensures i < |answers| ==> !Waits(answers[i])
  {
    if answers == [] || !Waits(answers[0]) then 0 else 1 + Waiting(answers[1..])
  }

  /** What a reception comes to, as the first round decides that does not merely wait: the bytes there
      are now, the error, and what is left of the script. */
  ghost predicate Decided(room: nat, answers: seq<RecvAnswer>, bytes: seq<Byte>, ec: ErrorCode, left: seq<RecvAnswer>) {
    var i := Waiting(answers);
    if i == |answers| then bytes == [] && ec == TimedOut && left == []
    else
      left == answers[i + 1..] &&
      match answers[i]
      case RecvLate => bytes == [] && ec == TimedOut
      case Delivers(delivered) =>
        if delivered == [] then bytes == [] && ec == EndOfFile
        else bytes <= delivered && |bytes| == Min(|delivered|, room) && ec == NoError
      case RecvFails(error, poll) =>
        bytes == [] && ec == if Retryable(error) && poll.PollFailed? then poll.ec else error
  }

  lemma {:induction false} ReceiveDecides(room: nat, answers: seq<RecvAnswer>)
    requires room > 0
    ensures var r := Receive(room, answers);
      Decided(room, answers, if r.bytes.Some? then r.bytes.value else [], r.ec, r.left)
    decreases |answers|
  {
    if answers != [] && Waits(answers[0]) {
      ReceiveDecides(room, answers[1..]);
    }
  }

  datatype OptionAnswer = SoError(ec: ErrorCode) | OptionFailed(error: Failure)

  /** One endpoint of `connect_to_endpoints`: whether the expiry time has passed before it, and
      what opening, connecting, polling and reading SO_ERROR would answer. */
  datatype EndpointAnswer = EndpointAnswer(late: bool, open: ErrorCode, connect: ErrorCode,
                                           poll: PollAnswer, option: OptionAnswer)
  {
    /** The connect call did not finish, and waiting for it did not fail. */
    predicate AsksForResult() {
      open == NoError && (connect == InProgress || connect == WouldBlock) && !poll.PollFailed?
    }

    /** The connect call or the SO_ERROR read reports success, which is what the search goes by. */
    predicate Succeeds() {
      !late && ((open == NoError && connect == NoError) || (AsksForResult() && option == SoError(NoError)))
    }

    /** There is a connection: `connect` says so, or it was in progress, the poll found it finished
        and SO_ERROR names no error. */
    predicate Connected() {
      && !late && open == NoError
      && (connect == NoError
          || ((connect == InProgress || connect == WouldBlock) && poll == Ready && option == SoError(NoError)))
    }

    /** The connection is still being made when the time for it has passed, so that there is no error
        to be read yet. */
    predicate RunsOutOfTime() {
      && !late && open == NoError && (connect == InProgress || connect == WouldBlock)
      && poll == StillWaiting && option == SoError(NoError)
    }

    /** The search ends here without success. */
    predicate Aborts() {
      late || (AsksForResult() && option.OptionFailed?)
    }

    predicate Decides() {
      Succeeds() || Aborts()
    }

    /** The connection is in progress, and waiting for it did not fail. */
    predicate Awaited() {
      !late && open == NoError && (connect == InProgress || connect == WouldBlock) && !poll.PollFailed?
    }

    /** An endpoint after which the search goes on: it failed to open, to connect, or to be waited for,
        or SO_ERROR names an error. */
    predicate GoesOn() {
      && !late
      && (open != NoError || connect != NoError)
      && (Awaited() ==> option.SoError? && option.ec != NoError)
    }

    /** This is the error that the endpoint leaves behind. */
    predicate Leaves(ec: ErrorCode) {
      && (late ==> ec == TimedOut)
      && (!late && open != NoError ==> ec == open)
      && (!late && open == NoError && connect != InProgress && connect != WouldBlock ==> ec == connect)
      && (!late && open == NoError && (connect == InProgress || connect == WouldBlock) && poll.PollFailed? ==>
          ec == poll.ec)
      && (Awaited() && option.SoError? ==> ec == option.ec)
      && (Awaited() && option.OptionFailed? ==> ec == option.error)
    }

    lemma DecidesUnlessGoesOn()
      ensures Decides() <==> !GoesOn()
    {
    }

    /** The error this endpoint leaves behind. */
    function Error(): (ec: ErrorCode)
      ensures Leaves(ec)
      ensures ec == NoError <==> Succeeds()
    {
      if late then TimedOut
      else if open != NoError then open
      else if connect != InProgress && connect != WouldBlock then connect
      else if poll.PollFailed? then poll.ec
      else if option.SoError? then option.ec
      else option.error
    }
  }

  /** The first endpoint from `i` on at which the search for a connection ends. */
  function FirstFrom(endpoints: seq<EndpointAnswer>, i: nat): (first: nat)
    requires i <= |endpoints|
    ensures i <= first <= |endpoints|
    ensures forall j :: i <= j < first ==> !endpoints[j].Decides()
    ensures first < |endpoints| ==> endpoints[first].Decides()
    decreases |endpoints| - i
  {
    if i == |endpoints| || endpoints[i].Decides() then i else FirstFrom(endpoints, i + 1)
  }

  function FirstDecisive(endpoints: seq<EndpointAnswer>): nat {
    FirstFrom(endpoints, 0)
  }

  /** The error that the search over a list leaves behind. */
  function SearchError(endpoints: seq<EndpointAnswer>): ErrorCode {
    var i := FirstDecisive(endpoints);
    if i < |endpoints| then endpoints[i].Error()
    else if endpoints == [] then NotFound
    else endpoints[|endpoints| - 1].Error()
  }

  /** This endpoint is the one at which the search ends. */
  ghost predicate EndsAt(endpoints: seq<EndpointAnswer>, i: nat) {
    i < |endpoints| && !endpoints[i].GoesOn() && forall j :: 0 <= j < i ==> endpoints[j].GoesOn()
  }

  /** The search has looked at the endpoints up to the one at `last`, where it ended or which is the last
      there is, and it leaves the error of that one; a late one is not touched. */
  ghost predicate LeftBy(endpoints: seq<EndpointAnswer>, last: nat, ec: ErrorCode, touched: nat) {
    && last < |endpoints|
    && (forall j :: 0 <= j < last ==> endpoints[j].GoesOn())
    && (last == |endpoints| - 1 || !endpoints[last].GoesOn())
    && endpoints[last].Leaves(ec)
    && touched == last + if endpoints[last].late then 0 else 1
  }

  ghost predicate SearchLeaves(endpoints: seq<EndpointAnswer>, ec: ErrorCode, touched: nat) {
    if endpoints == [] then ec == NotFound && touched == 0
    else exists last: nat :: LeftBy(endpoints, last, ec, touched)
  }

  function Touched(endpoints: seq<EndpointAnswer>): nat {
    var i := FirstDecisive(endpoints);
    if i == |endpoints| || endpoints[i].late then i else i + 1
  }

  /** Which error is left: not_found for an empty list, else that of the last endpoint looked at. */
  lemma SearchLeavesLastError(endpoints: seq<EndpointAnswer>)
    ensures SearchLeaves(endpoints, SearchError(endpoints), Touched(endpoints))
  {
    if endpoints != [] {
      var i := FirstDecisive(endpoints);
      var last := if i < |endpoints| then i else i - 1;
      forall j | 0 <= j < |endpoints|
        ensures endpoints[j].Decides() <==> !endpoints[j].GoesOn()
      {
        endpoints[j].DecidesUnlessGoesOn();
      }
      assert LeftBy(endpoints, last, SearchError(endpoints), Touched(endpoints));
    }
  }

  /** The search over a list reports success exactly when it ends at an endpoint that is connected,
      or at one that has run out of time; only in the second case is there no connection. */
  lemma SuccessWithoutConnection(endpoints: seq<EndpointAnswer>)
    ensures SearchError(endpoints) == NoError <==>
      exists i: nat :: EndsAt(endpoints, i) && (endpoints[i].Connected() || endpoints[i].RunsOutOfTime())
    ensures SearchError(endpoints) == NoError && !(exists i: nat :: EndsAt(endpoints, i) && endpoints[i].Connected())
      <==> exists i: nat :: EndsAt(endpoints, i) && endpoints[i].RunsOutOfTime()
  {
    var first := FirstDecisive(endpoints);
    forall j | 0 <= j < |endpoints|
      ensures endpoints[j].Decides() <==> !endpoints[j].GoesOn()
    {
      endpoints[j].DecidesUnlessGoesOn();
    }
    if first < |endpoints| {
      assert EndsAt(endpoints, first);
    }
    forall i: nat | EndsAt(endpoints, i)
      ensures i == first
    {
      assert first < |endpoints| ==> endpoints[first].Decides();
    }
  }

  /** One endpoint, in progress until the time has passed. */
  lemma SlowEndpointCountsAsConnected()
    ensures var slow := EndpointAnswer(false, NoError, InProgress, StillWaiting, SoError(NoError));
      SearchError([slow]) == NoError && !slow.Connected()
  {
    var slow := EndpointAnswer(false, NoError, InProgress, StillWaiting, SoError(NoError));
    assert [slow][0].Decides();
  }
}
