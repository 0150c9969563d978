/** `asio::basic_socket_streambuf`: a buffered stream over a non-blocking socket. */
module SocketStreamBuffer {
  import opened Machine
  import opened SocketAnswers

  const BUFFER_SIZE := 512
  const PUTBACK_MAX := 8

  /** The value of a stream buffer: the bytes accepted but not sent, the room behind them, the
      size of the put buffer (0 when unbuffered), the bytes received but not read, the last error
      and the socket. */
  datatype Stream = Stream(pending: seq<Byte>, room: nat, size: nat, unread: seq<Byte>,
                           ec: ErrorCode, wire: Wire)

  ghost predicate Consistent(s: Stream) {
    |s.pending| + s.room <= s.size
  }

  // What the operations do to that value.

  function Output(s: Stream, c: Option<Byte>): seq<Byte> {
    if s.size > 0 then s.pending else Given(c)
  }

  function Given(c: Option<Byte>): seq<Byte> {
    if c.None? then [] else [c.value]
  }

  /** Sending the output; the flag says whether all of it went out. */
  function Attempt(s: Stream, c: Option<Byte>): (Stream, bool) {
    var output := Output(s, c);
    var result := SendAll(|output|, s.wire.toSend, s.ec);
    var wire := s.wire.(sent := s.wire.sent + output[..result.count], toSend := result.left);
    (s.(ec := result.ec, wire := wire), result.count == |output|)
  }

  /** `overflow(c)`; the flag is false when it returns eof. */
  function Flush(s: Stream, c: Option<Byte>): (Stream, bool) {
    var (tried, ok) := Attempt(s, c);
    if ok && s.size > 0 then (tried.(pending := Given(c), room := s.size - |Given(c)|), true) else (tried, ok)
  }

  lemma FlushNothing(s: Stream)
    requires s.size == 0
    ensures Attempt(s, None) == Flush(s, None) == (s, true)
  {
    assert s.wire.sent + [] == s.wire.sent;
  }

  /** What is sent in two parts is sent as a whole. */
  lemma PrefixGrows(now: seq<Byte>, before: seq<Byte>, all: seq<Byte>, done: nat, more: nat)
    requires done + more <= |all| && now == before + all[..done]
    ensures now + Window(all, done, done + more) == before + all[..done + more]
  {
    assert all[..done] + Window(all, done, done + more) == all[..done + more];
  }

  function PutC(s: Stream, c: Byte): (Stream, bool) {
    if s.room > 0 then (s.(pending := s.pending + [c], room := s.room - 1), true)
    else Flush(s, Some(c))
  }

  /** `setbuf(0, 0)`. */
  function Unbuffer(s: Stream): (Stream, bool) {
    if s.pending == [] then (s.(room := 0, size := 0), true) else (s, false)
  }

  /** `sgetc()`: receives when nothing is left to read. */
  function PeekC(s: Stream): (Stream, Option<Byte>) {
    if s.unread != [] then (s, Some(s.unread[0]))
    else
      var result := Receive(BUFFER_SIZE - PUTBACK_MAX, s.wire.toReceive);
      var bytes := if result.bytes.Some? then result.bytes.value else [];
      var wire := s.wire.(received := s.wire.received + bytes, toReceive := result.left);
      (s.(unread := bytes, ec := result.ec, wire := wire),
       if bytes == [] then None else Some(bytes[0]))
  }

  /** `sbumpc()`. */
  function BumpC(s: Stream): (Stream, Option<Byte>) {
    var (next, c) := PeekC(s);
    (if c.Some? then next.(unread := next.unread[1..]) else next, c)
  }

  function Initialised(s: Stream): Stream {
    s.(pending := [], room := s.size, unread := [])
  }

  /** `close()`, where `closing` is the error that closing the socket reports. */
  function CloseStream(s: Stream, closing: ErrorCode): (Stream, bool) {
    var flushed := Flush(s, None).0.(ec := closing);
    if closing == NoError then (Initialised(flushed), true) else (flushed, false)
  }

  /** The bytes that a close was to deliver have arrived. */
  predicate Delivered(s: Stream, end: Stream) {
    end.wire.sent == s.wire.sent + s.pending
  }

  function WithScript(s: Stream, script: seq<SendAnswer>): Stream {
    s.(wire := s.wire.(toSend := script))
  }

  /** Closing reports success whenever the socket could be closed.  The pending bytes have then been
      delivered exactly when there are no more than the socket is ready to take, so that success can
      be relied on for every socket exactly when nothing is pending. */
  lemma CloseDelivers(s: Stream)
    requires Consistent(s)
    ensures CloseStream(s, NoError).1
    ensures Delivered(s, CloseStream(s, NoError).0) <==> |s.pending| <= Reach(s.wire.toSend)
    ensures s.pending == [] <==>
      forall script :: Delivered(WithScript(s, script), CloseStream(WithScript(s, script), NoError).0)
  {
    CloseSends(s);
    if s.pending != [] {
      CloseSends(WithScript(s, []));
    } else {
      forall script
        ensures Delivered(WithScript(s, script), CloseStream(WithScript(s, script), NoError).0)
      {
        CloseSends(WithScript(s, script));
      }
    }
  }

  lemma CloseSends(s: Stream)
    requires Consistent(s)
    ensures Delivered(s, CloseStream(s, NoError).0) <==> |s.pending| <= Reach(s.wire.toSend)
  {
    SendsWithinReach(|s.pending|, s.wire.toSend, s.ec);
    var n := Min(|s.pending|, Reach(s.wire.toSend));
    assert Output(s, None) == s.pending;
    assert CloseStream(s, NoError).0.wire.sent == s.wire.sent + s.pending[..n];
  }

  /** One byte that the socket never takes. */
  lemma CloseForgets()
    ensures var s := Stream([65], 511, 512, [], NoError, DISCONNECTED);
      var (end, ok) := CloseStream(s, NoError);
      ok && end.pending == [] && end.wire.sent == []
  {
  }

  /** What a move hands on: everything but the pending bytes. */
  function Moved(s: Stream): Stream {
    s.(pending := [])
  }

  // What the operations promise, said of the value before and the one after.

  /** The put area is as it was, and so is the sending side of the socket. */
  predicate WritesNothing(s: Stream, next: Stream) {
    && next.pending == s.pending && next.room == s.room && next.size == s.size
    && next.wire.sent == s.wire.sent && next.wire.toSend == s.wire.toSend
  }

  predicate ReadsNothing(s: Stream, next: Stream) {
    && next.unread == s.unread
    && next.wire.received == s.wire.received && next.wire.toReceive == s.wire.toReceive
  }

  /** As many bytes as the socket is ready to take have gone out, in order; the rounds that took are
      used up, and if bytes are left over, the error says what stopped them. */
  predicate Sends(s: Stream, bytes: seq<Byte>, next: Stream, ok: bool) {
    var n := Min(|bytes|, Reach(s.wire.toSend));
    && (ok <==> n == |bytes|)
    && next.wire.sent == s.wire.sent + bytes[..n]
    && next.wire.toSend == SendAll(|bytes|, s.wire.toSend, s.ec).left
    && next.ec == (if bytes == [] then s.ec else if ok then NoError else WhyStopped(s.wire.toSend))
  }

  /** A flush: sends what is pending, or the character itself when there is no buffer; when all of it
      is out, the put area starts again with the character. */
  predicate Flushed(s: Stream, c: Option<Byte>, next: Stream, ok: bool) {
    && Sends(s, if s.size > 0 then s.pending else Given(c), next, ok)
    && ReadsNothing(s, next) && next.size == s.size
    && next.pending == (if ok && s.size > 0 then Given(c) else s.pending)
    && next.room == (if ok && s.size > 0 then s.size - |Given(c)| else s.room)
  }

  lemma FlushIsFlushed(s: Stream, c: Option<Byte>)
    ensures var (next, ok) := Flush(s, c); Flushed(s, c, next, ok)
  {
    SendsWithinReach(|Output(s, c)|, s.wire.toSend, s.ec);
  }

  /** One character more: into the put area without any sending while there is room, by a flush when
      there is none. */
  predicate Puts(s: Stream, c: Byte, next: Stream, ok: bool) {
    if s.room > 0 then
      && ok && next.pending == s.pending + [c] && next.room == s.room - 1 && next.size == s.size
      && next.wire == s.wire && next.ec == s.ec && next.unread == s.unread
    else Flushed(s, Some(c), next, ok)
  }

  lemma PutCPuts(s: Stream, c: Byte)
    ensures var (next, ok) := PutC(s, c); Puts(s, c, next, ok)
  {
    FlushIsFlushed(s, Some(c));
  }

  /** A request for no buffer is granted exactly while nothing is pending; then there is none. */
  predicate Unbuffers(s: Stream, next: Stream, granted: bool) {
    && (granted <==> s.pending == [])
    && next.pending == s.pending
    && next.room == (if granted then 0 else s.room) && next.size == (if granted then 0 else s.size)
    && next.wire == s.wire && next.ec == s.ec && next.unread == s.unread
  }

  /** With something unread, its first byte is shown and nothing happens; with nothing unread, the
      answers of the socket decide, and the first byte they bring is shown. */
  ghost predicate Shows(s: Stream, next: Stream, c: Option<Byte>) {
    if s.unread != [] then next == s && c == Some(s.unread[0])
    else
      && WritesNothing(s, next)
      && Decided(BUFFER_SIZE - PUTBACK_MAX, s.wire.toReceive, next.unread, next.ec, next.wire.toReceive)
      && next.wire.received == s.wire.received + next.unread
      && c == if next.unread == [] then None else Some(next.unread[0])
  }

  lemma PeekShows(s: Stream)
    ensures var (next, c) := PeekC(s); Shows(s, next, c)
  {
    if s.unread == [] {
      ReceiveDecides(BUFFER_SIZE - PUTBACK_MAX, s.wire.toReceive);
    }
  }

  /** The byte that is shown is taken. */
  ghost predicate Takes(s: Stream, next: Stream, c: Option<Byte>) {
    Shows(s, next.(unread := Given(c) + next.unread), c)
  }

  lemma BumpTakes(s: Stream)
    ensures var (next, c) := BumpC(s); Takes(s, next, c)
  {
    PeekShows(s);
    var (seen, c) := PeekC(s);
    var next := BumpC(s).0;
    assert Given(c) + next.unread == seen.unread;
  }

  /** Closing flushes, whatever comes of it, and empties both areas when the socket could be closed. */
  predicate Closes(s: Stream, closing: ErrorCode, next: Stream, ok: bool) {
    var delivered := |s.pending| <= Reach(s.wire.toSend);
    && (ok <==> closing == NoError) && next.ec == closing && next.size == s.size
    && Sends(s, s.pending, next.(ec := if s.pending == [] then s.ec else if delivered then NoError
                                       else WhyStopped(s.wire.toSend)), delivered)
    && next.wire.received == s.wire.received && next.wire.toReceive == s.wire.toReceive
    && next.unread == (if ok then [] else s.unread)
    && next.pending == (if ok || delivered then [] else s.pending)
    && next.room == (if ok || delivered then s.size else s.room)
  }

  lemma CloseCloses(s: Stream, closing: ErrorCode)
    requires Consistent(s)
    ensures var (next, ok) := CloseStream(s, closing); Closes(s, closing, next, ok)
  {
    FlushIsFlushed(s, None);
    var (flushed, ok) := Flush(s, None);
    assert Sends(s, s.pending, flushed, ok);
  }

  predicate Within(area: Area<nat>, length: nat) {
    area.base <= area.next <= area.end <= length
  }

  class SocketStreamBuf {
    var getBuffer: array<Byte>
    var putBuffer: array<Byte>
    var get: Area<nat>
    var put: Area<nat>
    var ec: ErrorCode
    var wire: Wire

    ghost predicate Shaped()
      reads this`getBuffer, this`putBuffer
    {
      && getBuffer != putBuffer
      && getBuffer.Length == BUFFER_SIZE
      && (putBuffer.Length == 0 || putBuffer.Length == BUFFER_SIZE)
    }

    ghost predicate Valid()
      reads this`getBuffer, this`putBuffer
      reads this`get, this`put
    {
      && Shaped()
      && get.base == 0 && Within(get, BUFFER_SIZE)
      && Within(put, putBuffer.Length)
    }

    ghost function Pending(): (bytes: seq<Byte>)
      requires put.base <= put.next <= putBuffer.Length
      reads this`putBuffer, this`put, putBuffer
      ensures |bytes| == put.next - put.base
    {
      Window(putBuffer[..], put.base, put.next)
    }

    ghost function Unread(): (bytes: seq<Byte>)
      requires get.next <= get.end <= getBuffer.Length
      reads this`getBuffer, this`get, getBuffer
      ensures |bytes| == get.end - get.next
    {
      Window(getBuffer[..], get.next, get.end)
    }

    ghost function View(): (s: Stream)
      requires Valid()
      reads this, getBuffer, putBuffer
      ensures Consistent(s) && |s.unread| <= BUFFER_SIZE
    {
      Stream(Pending(), put.end - put.next, putBuffer.Length, Unread(), ec, wire)
    }

    constructor (connected: Wire)
      ensures Valid() && fresh(getBuffer) && fresh(putBuffer)
      ensures View() == Stream([], BUFFER_SIZE, BUFFER_SIZE, [], NoError, connected)
    {
      getBuffer := new Byte[BUFFER_SIZE](_ => 0);
      putBuffer := new Byte[BUFFER_SIZE](_ => 0);
      get := Area(0, PUTBACK_MAX, PUTBACK_MAX);
      put := Area(0, 0, BUFFER_SIZE);
      ec := NoError;
      wire := connected;
    }

    method InitBuffers()
      requires Shaped()
      modifies this`get, this`put
      ensures Valid() && View() == Stream([], putBuffer.Length, putBuffer.Length, [], ec, wire)
    {
      get := Area(0, PUTBACK_MAX, PUTBACK_MAX);
      if putBuffer.Length == 0 {
        put := Area(0, 0, 0);
      } else {
        put := Area(0, 0, putBuffer.Length);
      }
      assert Pending() == [] && Unread() == [];
    }

    /** `c` is `None` for `traits_type::eof()`; `ok` is false when eof is returned. */
    method Overflow(c: Option<Byte>) returns (ok: bool)
      requires Valid()
      modifies this, putBuffer
      ensures Valid() && getBuffer == old(getBuffer) && putBuffer == old(putBuffer)
      ensures (View(), ok) == Flush(old(View()), c)
      ensures Flushed(old(View()), c, View(), ok)
    {
      FlushIsFlushed(View(), c);
      ok := SendOutput(c);
      if ok && putBuffer.Length != 0 {
        StartPutArea(c);
      }
    }

    /** What has to be sent is what is pending, or the character itself when there is no put area. */
    method SendOutput(c: Option<Byte>) returns (ok: bool)
      requires Valid()
      modifies this`ec, this`wire
      ensures (View(), ok) == Attempt(old(View()), c)
    {
      var output := Window(putBuffer[..], put.base, put.next);
      if putBuffer.Length == 0 {
        if c.None? {
          FlushNothing(View());
          return true;
        }
        output := [c.value];
      }
      assert output == Output(View(), c);
      ok := SendLoop(output);
    }

    /** The put area after everything in it has been sent, with the character that found it full. */
    method StartPutArea(c: Option<Byte>)
      requires Valid() && putBuffer.Length > 0
      modifies this`put, putBuffer
      ensures Valid()
      ensures View() == old(View()).(pending := Given(c), room := putBuffer.Length - |Given(c)|)
    {
      put := Area(0, 0, putBuffer.Length);
      if c.Some? {
        putBuffer[put.next] := c.value;
        put := put.(next := put.next + 1);
      }
      assert Pending() == Given(c);
    }

    /** The loop of `overflow`. */
    method SendLoop(all: seq<Byte>) returns (ok: bool)
      modifies this`ec, this`wire
      ensures var r := SendAll(|all|, old(wire.toSend), old(ec));
        && ok == (r.count == |all|) && ec == r.ec
        && wire == old(wire).(sent := old(wire.sent) + all[..r.count], toSend := r.left)
    {
      var done := 0;
      while done < |all|
        invariant 0 <= done <= |all|
        invariant wire == old(wire).(sent := old(wire.sent) + all[..done], toSend := wire.toSend)
        invariant
          var r := SendAll(|all|, old(wire.toSend), old(ec));
          && done <= r.count
          && SendAll(|all| - done, wire.toSend, ec) == r.(count := r.count - done)
        decreases |wire.toSend|
      {
        var answer := if wire.toSend == [] then SendLate else wire.toSend[0];
        wire := wire.(toSend := if wire.toSend == [] then [] else wire.toSend[1..]);

        if answer.SendLate? {
          ec := TimedOut;
          return false;
        }

        // What this round sends goes on behind what the earlier ones have sent.
        var bytes := if answer.Accepts? then Min(answer.k, |all| - done) else 0;
        ec := if answer.Accepts? then NoError else answer.error;
        if bytes > 0 {
          PrefixGrows(wire.sent, old(wire.sent), all, done, bytes);
          wire := wire.(sent := wire.sent + Window(all, done, done + bytes));
          done := done + bytes;
          continue;
        }

        if !Retryable(ec) {
          return false;
        }

        if answer.poll.PollFailed? {
          ec := answer.poll.ec;
          return false;
        }
        ec := NoError;
      }
      return true;
    }

    method SPutC(c: Byte) returns (ok: bool)
      requires Valid()
      modifies this, putBuffer
      ensures Valid() && getBuffer == old(getBuffer) && putBuffer == old(putBuffer)
      ensures (View(), ok) == PutC(old(View()), c)
      ensures Puts(old(View()), c, View(), ok)
      // Without a buffer, a character that is accepted is on its way at once.
      ensures old(putBuffer).Length == 0 && ok ==> wire.sent == old(wire.sent) + [c] && View().pending == []
    {
      PutCPuts(View(), c);
      if put.next < put.end {
        ghost var pending := Pending();
        putBuffer[put.next] := c;
        put := put.(next := put.next + 1);
        assert Pending() == pending + [c];
        return true;
      } else {
        ok := Overflow(Some(c));
      }
    }

    method Sync() returns (ok: bool)
      requires Valid()
      modifies this, putBuffer
      ensures Valid() && getBuffer == old(getBuffer) && putBuffer == old(putBuffer)
      ensures (View(), ok) == Flush(old(View()), None)
      ensures Flushed(old(View()), None, View(), ok)
    {
      ok := Overflow(None);
    }

    /** `setbuf(s, n)`; only the request for no buffer at all is granted, and only while nothing
        is pending. */
    method SetBuf(isNull: bool, n: int) returns (granted: bool)
      requires Valid()
      modifies this, putBuffer
      ensures Valid() && getBuffer == old(getBuffer)
      ensures putBuffer == old(putBuffer) || fresh(putBuffer)
      ensures (View(), granted) ==
        if isNull && n == 0 then Unbuffer(old(View())) else (old(View()), false)
      ensures granted <==> isNull && n == 0 && old(View()).pending == []
      ensures if isNull && n == 0 then Unbuffers(old(View()), View(), granted) else View() == old(View())
      ensures granted ==> putBuffer.Length == 0 && View().room == 0 && View().size == 0
    {
      if put.next == put.base && isNull && n == 0 {
        ClearPutArea();
        FlushNothing(View());
        var _ := Sync();
        return true;
      }
      return false;
    }

    method ClearPutArea()
      requires Valid()
      modifies this`put, this`putBuffer
      ensures Valid() && fresh(putBuffer)
      ensures View() == old(View()).(pending := [], room := 0, size := 0)
    {
      putBuffer := new Byte[0];
      put := Area(0, 0, 0);
      assert Pending() == [];
    }

    /** What the destructor does before the socket goes away. */
    method FlushOnDestruction()
      requires Valid()
      modifies this, putBuffer
      ensures Valid()
      ensures if old(View()).pending == [] then View() == old(View())
        else Flushed(old(View()), None, View(), |old(View()).pending| <= Reach(old(wire.toSend)))
    {
      if put.next != put.base {
        var _ := Overflow(None);
      }
    }

    method Underflow() returns (c: Option<Byte>)
      requires Valid()
      modifies this`get, this`ec, this`wire, getBuffer
      ensures Valid()
      // Called with bytes left to read, it returns eof and does nothing.
      ensures old(View()).unread != [] ==> c == None && View() == old(View())
      ensures old(View()).unread == [] ==> (View(), c) == PeekC(old(View())) && Shows(old(View()), View(), c)
      ensures getBuffer[..PUTBACK_MAX] == old(getBuffer[..PUTBACK_MAX])
    {
      if get.next != get.end {
        return None;
      }
      PeekShows(View());
      var bytes := ReceiveLoop();
      assert View() == old(View()).(ec := ec, wire := wire);
      if bytes.None? {
        return None;
      }
      StoreReceived(bytes.value);
      return Some(getBuffer[get.next]);
    }

    /** The loop of `underflow`. */
    method ReceiveLoop() returns (received: Option<seq<Byte>>)
      modifies this`ec, this`wire
      ensures var r := Receive(BUFFER_SIZE - PUTBACK_MAX, old(wire.toReceive));
        && received == r.bytes && ec == r.ec
        && wire == old(wire).(received := old(wire.received) + (if r.bytes.Some? then r.bytes.value else []),
                              toReceive := r.left)
    {
      assert wire.received + [] == wire.received;
      while true
        invariant wire == old(wire).(toReceive := wire.toReceive)
        invariant Receive(BUFFER_SIZE - PUTBACK_MAX, old(wire.toReceive))
               == Receive(BUFFER_SIZE - PUTBACK_MAX, wire.toReceive)
        decreases |wire.toReceive|
      {
        var answer := if wire.toReceive == [] then RecvLate else wire.toReceive[0];
        wire := wire.(toReceive := if wire.toReceive == [] then [] else wire.toReceive[1..]);

        if answer.RecvLate? {
          ec := TimedOut;
          return None;
        }

        if answer.Delivers? {
          var bytes := answer.bytes[..Min(|answer.bytes|, BUFFER_SIZE - PUTBACK_MAX)];
          wire := wire.(received := wire.received + bytes);
          ec := if |bytes| > 0 then NoError else EndOfFile;
          return if |bytes| > 0 then Some(bytes) else None;
        }
        ec := answer.error;

        if !Retryable(ec) {
          return None;
        }

        if answer.poll.PollFailed? {
          ec := answer.poll.ec;
          return None;
        }
        ec := NoError;
      }
    }

    /** What `recv` stores behind the put-back region. */
    method Fill(bytes: seq<Byte>)
      requires |bytes| <= BUFFER_SIZE - PUTBACK_MAX && getBuffer.Length == BUFFER_SIZE
      modifies getBuffer
      ensures Window(getBuffer[..], PUTBACK_MAX, PUTBACK_MAX + |bytes|) == bytes
      ensures getBuffer[..PUTBACK_MAX] == old(getBuffer[..PUTBACK_MAX])
    {
      var i := 0;
      while i < |bytes|
        invariant 0 <= i <= |bytes|
        invariant forall k :: 0 <= k < PUTBACK_MAX ==> getBuffer[k] == old(getBuffer[k])
        invariant forall k :: 0 <= k < i ==> getBuffer[PUTBACK_MAX + k] == bytes[k]
      {
        getBuffer[PUTBACK_MAX + i] := bytes[i];
        i := i + 1;
      }
    }

    /** Reception into an exhausted get area, and the `setg` that shows it. */
    method StoreReceived(bytes: seq<Byte>)
      requires Valid() && 0 < |bytes| <= BUFFER_SIZE - PUTBACK_MAX
      modifies this`get, getBuffer
      ensures Valid() && get.next < get.end && getBuffer[get.next] == bytes[0]
      ensures View() == old(View()).(unread := bytes)
      ensures getBuffer[..PUTBACK_MAX] == old(getBuffer[..PUTBACK_MAX])
    {
      Fill(bytes);
      get := Area(0, PUTBACK_MAX, PUTBACK_MAX + |bytes|);
      assert getBuffer[get.next] == Unread()[0];
    }

    /** `gbump(1)`. */
    method Advance()
      requires Valid() && get.next < get.end
      modifies this`get
      ensures Valid() && View() == old(View()).(unread := old(View()).unread[1..])
    {
      ghost var unread := Unread();
      get := get.(next := get.next + 1);
      assert Unread() == unread[1..];
    }

    method SGetC() returns (c: Option<Byte>)
      requires Valid()
      modifies this`get, this`ec, this`wire, getBuffer
      ensures Valid()
      ensures (View(), c) == PeekC(old(View())) && Shows(old(View()), View(), c)
    {
      PeekShows(View());
      if get.next < get.end {
        return Some(getBuffer[get.next]);
      } else {
        c := Underflow();
      }
    }

    method SBumpC() returns (c: Option<Byte>)
      requires Valid()
      modifies this`get, this`ec, this`wire, getBuffer
      ensures Valid()
      ensures (View(), c) == BumpC(old(View())) && Takes(old(View()), View(), c)
    {
      BumpTakes(View());
      ghost var before := View();
      if get.next < get.end {
        c := Some(getBuffer[get.next]);
        assert (before, c) == PeekC(before);
        Advance();
      } else {
        c := Underflow();
        assert (View(), c) == PeekC(before);
        if c.Some? {
          assert View().unread != [];
          Advance();
        }
      }
    }

    /** `closing` is the error that closing the socket reports; the outcome of the flush before it
        is not looked at, so that success says nothing about the bytes. */
    method Close(closing: ErrorCode) returns (ok: bool)
      requires Valid()
      modifies this, putBuffer
      ensures Valid() && getBuffer == old(getBuffer) && putBuffer == old(putBuffer)
      ensures (View(), ok) == CloseStream(old(View()), closing)
      ensures Closes(old(View()), closing, View(), ok)
    {
      CloseCloses(View(), closing);
      var _ := Sync();
      ok := Shut(closing);
    }

    /** What `close()` does after the flush. */
    method Shut(closing: ErrorCode) returns (ok: bool)
      requires Valid()
      modifies this
      ensures Valid() && getBuffer == old(getBuffer) && putBuffer == old(putBuffer)
      ensures ok == (closing == NoError)
      ensures var shut := old(View()).(ec := closing); View() == if ok then Initialised(shut) else shut
    {
      ec := closing;
      if ec == NoError {
        InitBuffers();
      }
      return ec == NoError;
    }

    /** The search over a sequence of endpoints.  `touched` counts those whose turn came to be
        opened, in order. */
    method ConnectToEndpoints(endpoints: seq<EndpointAnswer>) returns (touched: nat)
      modifies this`ec
      // An error from before is final.
      ensures old(ec) != NoError ==> ec == old(ec) && touched == 0
      // Otherwise not_found is left for an empty list, else the error of the last endpoint looked at.
      ensures old(ec) == NoError ==>
        && SearchLeaves(endpoints, ec, touched)
        && ec == SearchError(endpoints) && touched == Touched(endpoints)
      // No error is left exactly if the decisive endpoint reports success, which it may do without a
      // connection when its time has run out.
      ensures old(ec) == NoError ==>
        var i := FirstDecisive(endpoints);
        && (ec == NoError <==> i < |endpoints| && endpoints[i].Succeeds())
        && (ec == NoError && !endpoints[i].Connected() <==> i < |endpoints| && endpoints[i].RunsOutOfTime())
    {
      touched := 0;
      if ec != NoError {
        return;
      }
      SearchLeavesLastError(endpoints);
      ec := NotFound;
      var i := 0;
      while i < |endpoints|
        invariant 0 <= i <= |endpoints| && touched == i
        invariant FirstDecisive(endpoints) == FirstFrom(endpoints, i)
        invariant ec == if i == 0 then NotFound else endpoints[i - 1].Error()
        invariant ec != NoError
      {
        var answer := endpoints[i];
        if answer.late {
          ec := TimedOut;
          return;
        }

        // From here on this endpoint counts as touched.
        touched := touched + 1;
        ec := answer.open;
        i := i + 1;
        if ec != NoError {
          continue;
        }

        ec := answer.connect;
        if ec == NoError {
          return;
        }

        if ec != InProgress && ec != WouldBlock {
          continue;
        }

        if answer.poll.PollFailed? {
          ec := answer.poll.ec;
          continue;
        }

        // A poll that only ran out of time gets here, too.
        if answer.option.OptionFailed? {
          ec := answer.option.error;
          return;
        }

        ec := answer.option.ec;
        if ec == NoError {
          return;
        }
      }
    }

    /** `connect(endpoint)`. */
    method Connect(endpoint: EndpointAnswer) returns (ok: bool)
      requires Valid()
      modifies this
      ensures Valid() && getBuffer == old(getBuffer) && putBuffer == old(putBuffer)
      ensures View() == Stream([], old(View()).size, old(View()).size, [], endpoint.Error(), old(wire))
      ensures endpoint.Leaves(ec)
      ensures ok <==> endpoint.Succeeds()
      ensures ok && !endpoint.Connected() <==> endpoint.RunsOutOfTime()
    {
      InitBuffers();
      ec := NoError;
      var _ := ConnectToEndpoints([endpoint]);
      return ec == NoError;
    }

    /** `connect(x...)`: `resolved` is the error that resolving the query reports, `endpoints` what it
        found. */
    method ConnectByQuery(resolved: ErrorCode, endpoints: seq<EndpointAnswer>) returns (ok: bool)
      requires Valid()
      modifies this
      ensures Valid() && getBuffer == old(getBuffer) && putBuffer == old(putBuffer)
      ensures View() == Stream([], old(View()).size, old(View()).size, [], ec, old(wire))
      ensures ok <==> resolved == NoError && FirstDecisive(endpoints) < |endpoints|
                      && endpoints[FirstDecisive(endpoints)].Succeeds()
      ensures resolved == NoError ==> ec == SearchError(endpoints) && SearchLeaves(endpoints, ec, Touched(endpoints))
      ensures resolved != NoError ==> ec == resolved
    {
      InitBuffers();
      ec := resolved;
      var _ := ConnectToEndpoints(endpoints);
      return ec == NoError;
    }

    /** The move constructor.  The put area is taken over from `pptr`, not from `pbase`. */
    constructor Move(other: SocketStreamBuf)
      requires other.Valid()
      modifies other
      ensures Valid() && other.Valid()
      ensures getBuffer == old(other.getBuffer) && putBuffer == old(other.putBuffer)
      ensures fresh(other.getBuffer) && fresh(other.putBuffer)
      ensures var s := old(other.View()); View() == Stream([], s.room, s.size, s.unread, s.ec, s.wire)
      ensures other.View() == Stream([], BUFFER_SIZE, BUFFER_SIZE, [], NoError, DISCONNECTED)
    {
      wire := other.wire;
      ec := other.ec;
      getBuffer := other.getBuffer;
      putBuffer := other.putBuffer;
      get := other.get;
      put := Area(other.put.next, other.put.next, other.put.end);
      new;
      var getDefault := new Byte[BUFFER_SIZE](_ => 0);
      var putDefault := new Byte[BUFFER_SIZE](_ => 0);
      other.LeaveMovedFrom(getDefault, putDefault, DISCONNECTED);
    }

    /** What a move leaves behind: the other side's buffers, emptied, and the given connection. */
    method LeaveMovedFrom(theirGet: array<Byte>, theirPut: array<Byte>, left: Wire)
      requires theirGet != theirPut && theirGet.Length == BUFFER_SIZE
      requires theirPut.Length == 0 || theirPut.Length == BUFFER_SIZE
      modifies this
      ensures Valid() && getBuffer == theirGet
      ensures if theirPut.Length == 0 then fresh(putBuffer) else putBuffer == theirPut
      ensures View() == Stream([], BUFFER_SIZE, BUFFER_SIZE, [], NoError, left)
    {
      getBuffer, putBuffer, wire, ec := theirGet, theirPut, left, NoError;
      // An unbuffered side gets a put area again.
      if putBuffer.Length != BUFFER_SIZE {
        putBuffer := new Byte[BUFFER_SIZE](_ => 0);
      }
      InitBuffers();
    }

    /** What a move takes: everything but the bytes between `pbase` and `pptr`. */
    method TakeFrom(other: SocketStreamBuf)
      requires other.Valid() && this != other
      modifies this
      ensures Valid() && getBuffer == other.getBuffer && putBuffer == other.putBuffer
      ensures View() == Moved(other.View())
    {
      getBuffer, putBuffer, wire, ec := other.getBuffer, other.putBuffer, other.wire, other.ec;
      get, put := other.get, Area(other.put.next, other.put.next, other.put.end);
      assert Pending() == [];
    }

    /** Move assignment; `closing` is what closing the socket of this stream reports, and `closed`
        is that socket as it was left.  `other` may be `this`. */
    method MoveAssign(other: SocketStreamBuf, closing: ErrorCode) returns (closed: Wire)
      requires Valid() && other.Valid()
      requires other != this ==> {getBuffer, putBuffer} !! {other.getBuffer, other.putBuffer}
      modifies this, other, putBuffer
      ensures Valid() && other.Valid()
      ensures getBuffer == old(other.getBuffer) && other.getBuffer == old(getBuffer)
      ensures other != this ==> putBuffer == old(other.putBuffer)
      ensures other.putBuffer == old(putBuffer) || fresh(other.putBuffer)
      ensures closed == CloseStream(old(View()), closing).0.wire
      ensures other != this ==>
        && (var s := old(other.View()); View() == Stream([], s.room, s.size, s.unread, s.ec, s.wire))
        && other.View() == Stream([], BUFFER_SIZE, BUFFER_SIZE, [], NoError, DISCONNECTED)
      ensures other == this ==> View() == Stream([], BUFFER_SIZE, BUFFER_SIZE, [], NoError, closed)
    {
      var _ := Close(closing);
      closed := wire;
      if other != this {
        Exchange(other);
      } else {
        // The assignment of a socket to itself does nothing, nor does swapping the buffers.
        LeaveMovedFrom(getBuffer, putBuffer, closed);
      }
    }

    method Exchange(other: SocketStreamBuf)
      requires Valid() && other.Valid() && other != this
      modifies this, other
      ensures Valid() && other.Valid()
      ensures getBuffer == old(other.getBuffer) && putBuffer == old(other.putBuffer)
      ensures other.getBuffer == old(getBuffer)
      ensures other.putBuffer == old(putBuffer) || fresh(other.putBuffer)
      ensures var s := old(other.View()); View() == Stream([], s.room, s.size, s.unread, s.ec, s.wire)
      ensures other.View() == Stream([], BUFFER_SIZE, BUFFER_SIZE, [], NoError, DISCONNECTED)
    {
      var theirGet, theirPut := getBuffer, putBuffer;
      TakeFrom(other);
      other.LeaveMovedFrom(theirGet, theirPut, DISCONNECTED);
    }
  }
}
