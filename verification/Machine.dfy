/** Machine-level types shared by the models of the buffer classes. */
module Machine {

  /** `std::size_t` on a 64-bit platform.  Arithmetic on this type is checked by the verifier to
      stay in range, so no addition or subtraction written with it can wrap around. */
  newtype SizeT = x: int | 0 <= x < 0x1_0000_0000_0000_0000

  type Byte = x: int | 0 <= x < 256

  datatype Option<+T> = None | Some(value: T)

  /** The three pointers of a get or put area of `std::streambuf`, as offsets into a vector: `eback`,
      `gptr` and `egptr`, or `pbase`, `pptr` and `epptr`. */
  datatype Area<T> = Area(base: T, next: T, end: T)

  function Min(a: int, b: int): int {
    if a < b then a else b
  }

  function Max(a: int, b: int): int {
    if a < b then b else a
  }

  /** `std::min<std::size_t>` and `std::max<std::size_t>`. */
  function Smaller(a: SizeT, b: SizeT): SizeT {
    if b < a then b else a
  }

  function Larger(a: SizeT, b: SizeT): SizeT {
    if a < b then b else a
  }

  // A slice `s[n..]` in which n may be zero sends the verifier round in circles, since s[0..] is s again;
  // these say the same element by element.

  /** `s[from..to]`. */
  function Window<T>(s: seq<T>, from: nat, to: nat): (w: seq<T>)
    requires from <= to <= |s|
    ensures |w| == to - from
  {
    seq(to - from, k requires 0 <= k < to - from => s[from + k])
  }

  /** `s[n..]`. */
  function Behind<T>(s: seq<T>, n: nat): (w: seq<T>)
    requires n <= |s|
    ensures |w| == |s| - n
  {
    seq(|s| - n, k requires 0 <= k < |s| - n => s[n + k])
  }

  lemma WindowsAreSlices<T>(s: seq<T>, from: nat, to: nat)
    requires from <= to <= |s|
    ensures Window(s, from, to) == s[from..to] && Behind(s, from) == s[from..]
  {
  }

  /** All the sequences of `parts`, one after the other. */
  function Concat<T>(parts: seq<seq<T>>): seq<T> {
    if parts == [] then [] else parts[0] + Concat(parts[1..])
  }

  lemma {:induction false} ConcatSnoc<T>(parts: seq<seq<T>>, last: seq<T>)
    ensures Concat(parts + [last]) == Concat(parts) + last
  {
    if parts == [] {
      assert Concat([last]) == last + Concat([]) == last;
      assert parts + [last] == [last];
    } else {
      ConcatSnoc(parts[1..], last);
      assert (parts + [last])[1..] == parts[1..] + [last];
    }
  }

  /** Two ledgers that follow each other, as one: what was there plus what came in is what went out
      plus what is there. */
  lemma Chain<T>(a: seq<T>, in1: seq<T>, out1: seq<T>, b: seq<T>, in2: seq<T>, out2: seq<T>, c: seq<T>)
    requires a + in1 == out1 + b && b + in2 == out2 + c
    ensures a + (in1 + in2) == (out1 + out2) + c
  {
    calc {
      a + (in1 + in2);
      (a + in1) + in2;
      out1 + (b + in2);
      (out1 + out2) + c;
    }
  }
}
