/** `asio::basic_streambuf`: a growable byte queue kept in one contiguous vector. */
module StreamBuffer {
  import opened Machine

  const BUFFER_DELTA: SizeT := 128

  /** The readable bytes that are left behind when `reserve` has shifted a get area whose offset
      was `g` to the start of the vector and then throws without updating the positions. */
  function Shifted(data: seq<Byte>, g: nat): (r: seq<Byte>)
    ensures |r| == |data|
  {
    seq(|data|, k requires 0 <= k < |data| => if k + g < |data| then data[k + g] else data[k])
  }

  function MovedToFront(bytes: seq<Byte>, from: nat, count: nat): (r: seq<Byte>)
    requires from + count <= |bytes|
    ensures |r| == |bytes|
  {
    seq(|bytes|, i requires 0 <= i < |bytes| => if i < count then bytes[from + i] else bytes[i])
  }

  /** After the move, the front shows what the window [g, p) showed, and the window itself shows
      its old bytes shifted. */
  lemma WindowAfterMove(bytes: seq<Byte>, g: nat, p: nat)
    requires g <= p <= |bytes|
    ensures MovedToFront(bytes, g, p - g)[..p - g] == Window(bytes, g, p)
    ensures Window(MovedToFront(bytes, g, p - g), g, p) == Shifted(Window(bytes, g, p), g)
  {
  }

  lemma OneMore(before: seq<Byte>, s: seq<Byte>, n: nat)
    requires n < |s|
    ensures before + s[..n] + [s[n]] == before + s[..n + 1]
  {
  }

  lemma WindowSplits(bytes: seq<Byte>, g: nat, m: nat, p: nat)
    requires g <= m <= p <= |bytes|
    ensures Window(bytes, g, m) == Window(bytes, g, p)[..m - g]
    ensures Window(bytes, m, p) == Behind(Window(bytes, g, p), m - g)
  {
  }

  lemma WindowGrows(bytes: seq<Byte>, g: nat, m: nat)
    requires g <= m <= |bytes|
    ensures m < |bytes| ==> Window(bytes, g, m + 1) == Window(bytes, g, m) + [bytes[m]]
  {
  }

  /** What a mutable buffer handed out by `prepare` designates. */
  datatype Region = Region(offset: SizeT, length: SizeT)

  /** `LengthError` is the `std::length_error` thrown out of the call. */
  datatype Outcome = Done | LengthError

  class StreamBuf {
    const maxSize: SizeT
    var buffer: array<Byte>
    var capacity: SizeT
    var get: Area<SizeT>
    var put: Area<SizeT>

    ghost predicate Valid()
      reads this
    {
      && get.base == 0 && put.base <= put.next
      && get.next <= get.end <= put.next <= put.end <= maxSize
      && buffer.Length == Max(put.end as int, 1)
      && buffer.Length <= capacity as int
    }

    /** The input sequence. */
    ghost function Data(): (data: seq<Byte>)
      requires Valid()
      reads this, buffer
      ensures |data| == Size() as int <= maxSize as int
    {
      Window(buffer[..], get.next as int, put.next as int)
    }

    function Size(): SizeT
      requires Valid()
      reads this
    {
      put.next - get.next
    }

    /** No call may replace the vector by one that somebody else holds. */
    twostate predicate OwnsBuffer()
      reads this
    {
      buffer == old(buffer) || fresh(buffer)
    }

    twostate predicate SamePositions()
      reads this
    {
      && get == old(get) && put == old(put)
      && buffer == old(buffer) && capacity == old(capacity)
    }

    constructor (maximumSize: SizeT)
      ensures Valid() && fresh(buffer)
      ensures maxSize == maximumSize
      ensures Data() == [] && get == Area(0, 0, 0)
      ensures put.next == 0 && put.end as int == Min(maximumSize as int, 128)
    {
      var pend := Smaller(maximumSize, BUFFER_DELTA);
      var length := Larger(pend, 1);
      maxSize := maximumSize;
      buffer := new Byte[length](_ => 0);
      var obtained :| length <= obtained;
      capacity := obtained;
      get := Area(0, 0, 0);
      put := Area(0, 0, pend);
    }

    /** `std::memmove(&buffer_[0], &buffer_[0] + from, count)`, as a forward copy. */
    method MoveToFront(from: SizeT, count: SizeT)
      requires from as int + count as int <= buffer.Length
      modifies buffer
      ensures buffer[..] == MovedToFront(old(buffer[..]), from as int, count as int)
    {
      var i: SizeT := 0;
      while i < count
        invariant i <= count
        invariant forall k :: 0 <= k < i as int ==> buffer[k] == old(buffer[from as int + k])
        invariant forall k :: i as int <= k < buffer.Length ==> buffer[k] == old(buffer[k])
      {
        buffer[i] := buffer[from as int + i as int];
        i := i + 1;
      }
    }

    /** `buffer_.resize(length)` for a vector that grows: the elements are kept, the new ones are
        zero, and the capacity becomes anything that is large enough. */
    method Grow(length: SizeT)
      requires buffer.Length <= length as int
      modifies this`buffer, this`capacity
      ensures fresh(buffer) && buffer.Length == length as int <= capacity as int
      ensures buffer[..old(buffer.Length)] == old(buffer[..])
    {
      var smaller := buffer;
      var larger := new Byte[length](_ => 0);
      var i := 0;
      while i < smaller.Length
        invariant 0 <= i <= smaller.Length
        invariant forall k :: 0 <= k < i ==> larger[k] == smaller[k]
        modifies larger
      {
        larger[i] := smaller[i];
        i := i + 1;
      }
      if capacity < length {
        var obtained :| length <= obtained;
        capacity := obtained;
      }
      buffer := larger;
    }

    /** Moves the readable bytes to the front while the positions still designate the old place;
        returns where they now end. */
    method ShiftGetArea() returns (pnext: SizeT)
      requires Valid()
      modifies buffer
      ensures pnext == Size() && buffer[..pnext as int] == old(Data())
      ensures Data() == Shifted(old(Data()), get.next as int)
    {
      WindowAfterMove(buffer[..], get.next as int, put.next as int);
      pnext := put.next;
      if get.next > 0 {
        pnext := pnext - get.next;
        MoveToFront(get.next, pnext);
      }
    }

    /** `setg` and `setp` after the readable bytes have been brought to the front. */
    method SetPositions(pnext: SizeT, pend: SizeT)
      requires pnext <= pend <= maxSize
      requires buffer.Length == Max(pend as int, 1) && buffer.Length <= capacity as int
      modifies this`get, this`put
      ensures Valid() && Data() == buffer[..pnext as int]
      ensures get.next == 0 && get.end == put.next == pnext && put.end == pend
    {
      get := Area(0, 0, pnext);
      put := Area(pnext, pnext, pend);
    }

    method Reserve(n: SizeT) returns (r: Outcome)
      requires Valid()
      modifies this, buffer
      ensures Valid() && OwnsBuffer()
      // Exactly the requests that would take the whole sequence over the maximum are refused.
      ensures r == LengthError <==> |old(Data())| + n as int > maxSize as int
      // Enough room already: nothing happens at all.
      ensures n <= old(put.end - put.next) ==> SamePositions() && buffer[..] == old(buffer[..])
      // Accepted: the readable bytes are untouched, wherever they were moved.
      ensures r == Done ==> Data() == old(Data()) && n <= put.end - put.next
      ensures r == Done && old(put.end - put.next) < n ==>
        get.next == 0 && get.end == put.next && put.end as int == Max(old(put.end) as int, put.next as int + n as int)
      // Refused: the shift has happened, the positions have not moved.
      ensures r == LengthError ==> SamePositions() && Data() == Shifted(old(Data()), old(get.next) as int)
    {
      var pnext := put.next;
      var pend := put.end;

      if n <= pend - pnext {
        return Done;
      }

      pnext := ShiftGetArea();

      if n > pend - pnext {
        if n <= maxSize && pnext <= maxSize - n {
          pend := pnext + n;
          Grow(Larger(pend, 1));
          assert buffer[..pnext as int] == old(Data());
        } else {
          return LengthError;
        }
      }

      SetPositions(pnext, pend);
      return Done;
    }

    method Prepare(n: SizeT) returns (region: Option<Region>)
      requires Valid()
      modifies this, buffer
      ensures Valid() && OwnsBuffer()
      ensures region.None? <==> |old(Data())| + n as int > maxSize as int
      ensures region.Some? ==>
        && region.value == Region(put.next, n)
        && put.next as int + n as int <= put.end as int
        && Data() == old(Data())
      ensures region.None? ==> SamePositions() && Data() == Shifted(old(Data()), old(get.next) as int)
    {
      var r := Reserve(n);
      return if r == Done then Some(Region(put.next, n)) else None;
    }

    /** What the caller does with a prepared region: store bytes into it. */
    method Fill(region: Region, bytes: seq<Byte>)
      requires Valid()
      requires put.next <= region.offset && region.offset as int + region.length as int <= put.end as int
      requires |bytes| <= region.length as int
      modifies buffer
      ensures Data() == old(Data())
      ensures Window(buffer[..], region.offset as int, region.offset as int + |bytes|) == bytes
    {
      var i := 0;
      while i < |bytes|
        invariant 0 <= i <= |bytes|
        invariant forall k :: 0 <= k < region.offset as int ==> buffer[k] == old(buffer[k])
        invariant forall k :: 0 <= k < i ==> buffer[region.offset as int + k] == bytes[k]
      {
        buffer[region.offset as int + i] := bytes[i];
        i := i + 1;
      }
    }

    method Commit(n: SizeT)
      requires Valid()
      modifies this
      ensures Valid() && buffer == old(buffer) && capacity == old(capacity)
      ensures get.next == old(get.next) && put.end == old(put.end) && get.end == put.next
      ensures var m := Min(n as int, old(put.end - put.next) as int);
        Data() == old(Data()) + Window(buffer[..], old(put.next) as int, old(put.next) as int + m)
    {
      var m := Smaller(n, put.end - put.next);
      put := put.(next := put.next + m);
      get := Area(get.base, get.next, put.next);
    }

    method Consume(n: SizeT)
      requires Valid()
      modifies this
      ensures Valid() && buffer == old(buffer) && capacity == old(capacity)
      ensures put.next == old(put.next) && put.end == old(put.end) && get.end == put.next
      ensures Data() == Behind(old(Data()), Min(n as int, |old(Data())|))
    {
      if get.end < put.next {
        get := Area(0, get.next, put.next);
      }
      var m := n;
      // The sum is an address computation, not one on size_t.
      if get.next as int + n as int > put.next as int {
        m := put.next - get.next;
      }
      get := get.(next := get.next + m);
    }

    method Underflow() returns (c: Option<Byte>)
      requires Valid()
      modifies this`get
      ensures Valid() && Data() == old(Data())
      ensures c == if Data() == [] then None else Some(Data()[0])
      ensures c.Some? ==> get.next < get.end
    {
      if get.next < put.next {
        get := Area(0, get.next, put.next);
        return Some(buffer[get.next]);
      } else {
        return None;
      }
    }

    /** `*pptr() = c; pbump(1)`: `egptr` is left to lag behind. */
    method Store(c: Byte)
      requires Valid() && put.next < put.end
      modifies this`put, buffer
      ensures Valid() && Data() == old(Data()) + [c]
    {
      ghost var data := Data();
      buffer[put.next] := c;
      put := put.(next := put.next + 1);
      assert Data() == data + [c];
    }

    /** `c` is `None` for `traits_type::eof()`. */
    method Overflow(c: Option<Byte>) returns (r: Outcome)
      requires Valid()
      modifies this, buffer
      ensures Valid() && OwnsBuffer()
      ensures r == LengthError <==> c.Some? && old(put.next == put.end) && |old(Data())| == maxSize as int
      // A refused character finds the get area at the front, so the refusal moves nothing.
      ensures r == LengthError ==> get.next == 0 && SamePositions()
      ensures c.None? || r == LengthError ==> Data() == old(Data())
      ensures c.Some? && r == Done ==> Data() == old(Data()) + [c.value]
      ensures get.next == if c.Some? && old(put.next == put.end) then 0 else old(get.next)
      // A full put area gets room for 128 more bytes, or as many as there may be.
      ensures put.end as int ==
        if c.Some? && r == Done && old(put.next == put.end) then
          Max(old(put.end) as int, |old(Data())| + Min(128, maxSize as int - |old(Data())|))
        else old(put.end) as int
    {
      if c.Some? {
        if put.next == put.end {
          var size := put.next - get.next;
          if size < maxSize && maxSize - size < BUFFER_DELTA {
            r := Reserve(maxSize - size);
          } else {
            r := Reserve(BUFFER_DELTA);
          }
          if r == LengthError {
            return;
          }
        }
        Store(c.value);
      }
      return Done;
    }

    // The public character interface of std::streambuf (section 29.6.3 of ISO/IEC 14882:2020).

    method SPutC(c: Byte) returns (r: Outcome)
      requires Valid()
      modifies this, buffer
      ensures Valid() && OwnsBuffer()
      ensures r == LengthError <==> |old(Data())| == maxSize as int
      ensures Data() == if r == Done then old(Data()) + [c] else old(Data())
      ensures get.next == if old(put.next == put.end) then 0 else old(get.next)
    {
      if put.next < put.end {
        Store(c);
        return Done;
      } else {
        r := Overflow(Some(c));
      }
    }

    method SGetC() returns (c: Option<Byte>)
      requires Valid()
      modifies this`get
      ensures Valid() && Data() == old(Data())
      ensures c == if Data() == [] then None else Some(Data()[0])
    {
      if get.next < get.end {
        return Some(buffer[get.next]);
      } else {
        c := Underflow();
      }
    }

    method SBumpC() returns (c: Option<Byte>)
      requires Valid()
      modifies this`get
      ensures Valid()
      ensures c == if old(Data()) == [] then None else Some(old(Data())[0])
      ensures Data() == if old(Data()) == [] then [] else Behind(old(Data()), 1)
      ensures c.Some? ==> get.next == old(get.next) + 1
    {
      if get.next < get.end {
        c := Some(buffer[get.next]);
        GBump();
      } else {
        c := Underflow();
        if c.Some? {
          GBump();
        }
      }
    }

    /** `gbump(1)`. */
    method GBump()
      requires Valid() && get.next < get.end
      modifies this`get
      ensures Valid() && Data() == Behind(old(Data()), 1)
      ensures get.next == old(get.next) + 1
    {
      WindowSplits(buffer[..], get.next as int, get.next as int + 1, put.next as int);
      get := get.(next := get.next + 1);
    }

    /** `xsputn`: as if by repeated calls of `sputc`; the exception of the last one propagates. */
    method XsPutN(s: seq<Byte>) returns (stored: nat, r: Outcome)
      requires Valid()
      modifies this, buffer
      ensures Valid() && OwnsBuffer()
      ensures stored == Min(|s|, maxSize as int - |old(Data())|)
      ensures r == LengthError <==> stored < |s|
      ensures Data() == old(Data()) + s[..stored]
      ensures get.next == old(get.next) || get.next == 0
    {
      stored := 0;
      while stored < |s|
        invariant stored <= |s|
        invariant Valid() && OwnsBuffer()
        invariant Data() == old(Data()) + s[..stored]
        invariant get.next == old(get.next) || get.next == 0
      {
        OneMore(old(Data()), s, stored);
        r := SPutC(s[stored]);
        if r == LengthError {
          return;
        }
        stored := stored + 1;
      }
      r := Done;
    }

    /** `xsgetn`: as if by repeated calls of `sbumpc`. */
    method XsGetN(n: nat) returns (s: seq<Byte>)
      requires Valid()
      modifies this`get
      ensures Valid()
      ensures s == old(Data())[..Min(n, |old(Data())|)]
      ensures Data() == Behind(old(Data()), |s|)
    {
      s := [];
      while |s| < n
        invariant Valid() && |s| <= n
        invariant get.next as int == old(get.next) as int + |s| <= put.next as int
        invariant s == Window(buffer[..], old(get.next) as int, get.next as int)
      {
        WindowGrows(buffer[..], old(get.next) as int, get.next as int);
        var c := SBumpC();
        if c.None? {
          break;
        }
        s := s + [c.value];
      }
      WindowSplits(buffer[..], old(get.next) as int, get.next as int, put.next as int);
    }

    predicate Preferable(limit: SizeT, n: nat)
      requires Valid()
      reads this
    {
      && n <= limit as int && Size() as int + n <= maxSize as int
      && (n <= 512 || Size() as int + n <= capacity as int)
    }

    /** The friend `read_size_helper(sb, max_size)`: how much to ask `prepare` for. */
    method ReadSizeHelper(limit: SizeT) returns (n: SizeT)
      requires Valid()
      ensures n <= limit
      ensures |Data()| + n as int <= maxSize as int
      ensures n == 0 <==> limit == 0 || |Data()| == maxSize as int
      // It is the most that is within the limits and is no more than 512 or fits into the vector.
      ensures Preferable(limit, n as int) && forall m: nat :: Preferable(limit, m) ==> m <= n as int
    {
      var spare := capacity - Size();
      n := Smaller(Larger(512, spare), Smaller(limit, maxSize - Size()));
    }
  }
}
