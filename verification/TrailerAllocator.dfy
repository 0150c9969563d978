/** `any_completion_handler_impl::allocate` and `deallocate`: aligned blocks cut out of raw ones,
    where a trailer behind the user's bytes remembers how far in the block starts. */
module TrailerAllocator {
  import opened Machine

  const WORD: nat := 0x1_0000_0000_0000_0000

  function ToBytes(n: nat, width: nat): (bytes: seq<Byte>)
    ensures |bytes| == width
  {
    if width == 0 then [] else [n % 256] + ToBytes(n / 256, width - 1)
  }

  function FromBytes(bytes: seq<Byte>): nat {
    if bytes == [] then 0 else bytes[0] + 256 * FromBytes(bytes[1..])
  }

  function Pow256(width: nat): nat {
    if width == 0 then 1 else 256 * Pow256(width - 1)
  }

  lemma {:induction false} TrailerRoundTrip(n: nat, width: nat)
    requires n < Pow256(width)
    ensures FromBytes(ToBytes(n, width)) == n
  {
    if width > 0 {
      TrailerRoundTrip(n / 256, width - 1);
      assert ToBytes(n, width)[1..] == ToBytes(n / 256, width - 1);
    }
  }

  /** An addition on `std::size_t`. */
  function Add(a: nat, b: nat): (sum: nat)
    requires a < WORD && b < WORD
    ensures sum < WORD
  {
    if a + b < WORD then a + b else a + b - WORD
  }

  /** What a caller asks for; `trailer` is `sizeof(std::ptrdiff_t)`.  Every power of two in
      `std::size_t` is an admissible alignment. */
  datatype Request = Request(size: SizeT, align: SizeT) {
    ghost predicate Admissible() {
      0 < align as int <= WORD / 2
    }

    /** `size + align - 1`; subtracting first or last makes no difference on `std::size_t`. */
    function Space(): (space: nat)
      requires align > 0
      ensures space < WORD
    {
      Add(size as int, align as int - 1)
    }

    function RawLength(trailer: nat): (length: nat)
      requires align > 0 && trailer < WORD
      ensures length < WORD
    {
      Add(Space(), trailer)
    }

    /** `size + align - 1 + trailer` over the integers. */
    function Needed(trailer: nat): int {
      size as int + align as int - 1 + trailer
    }

    /** Neither sum wraps around. */
    predicate Fits(trailer: nat) {
      Needed(trailer) < WORD
    }

    /** Already the first sum wraps around. */
    predicate Overflows() {
      Needed(0) >= WORD
    }
  }

  /** The k-th multiple of an alignment. */
  function Times(k: nat, align: nat): nat {
    k * align
  }

  ghost predicate Aligned(p: nat, align: nat) {
    exists k: nat :: Times(k, align) == p
  }

  /** The first multiple of `align` that is not below `p`. */
  function AlignUp(align: nat, p: nat): (aligned: nat)
    requires align > 0
    ensures p <= aligned < p + align
    decreases p
  {
    if p == 0 then 0
    else if p <= align then align
    else align + AlignUp(align, p - align)
  }

  lemma {:induction false} AlignUpIsMultiple(align: nat, p: nat) returns (k: nat)
    requires align > 0
    ensures AlignUp(align, p) == Times(k, align)
    decreases p
  {
    if p == 0 {
      k := 0;
    } else if p <= align {
      k := 1;
    } else {
      k := AlignUpIsMultiple(align, p - align);
      k := k + 1;
    }
  }

  /** Every multiple that is not below `p` is as far as this one. */
  lemma {:induction false} AlignUpIsFirst(align: nat, p: nat, k: nat)
    requires align > 0 && p <= Times(k, align)
    ensures AlignUp(align, p) <= Times(k, align)
    decreases p
  {
    if p > align {
      assert Times(k, align) == align + Times(k - 1, align);
      AlignUpIsFirst(align, p - align, k - 1);
    }
  }

  /** `std::align` ([ptr.align] of ISO/IEC 14882:2020): the first aligned address, if `size` bytes from
      there on are still inside the `space` bytes from `p` on. */
  function Align(align: nat, size: nat, p: nat, space: nat): (r: Option<nat>)
    requires align > 0
    ensures r.Some? ==> p <= r.value < p + align && r.value + size <= p + space
    ensures space >= size + align - 1 ==> r.Some?
  {
    var aligned := AlignUp(align, p);
    if aligned + size <= p + space then Some(aligned) else None
  }

  /** This is an aligned address from `p` on with `size` bytes behind it inside the space. */
  predicate Fitting(align: nat, size: nat, p: nat, space: nat, k: nat) {
    p <= Times(k, align) && Times(k, align) + size <= p + space
  }

  /** It finds the first of all fitting addresses, and fails exactly when there is none. */
  lemma AlignFindsFirst(align: nat, size: nat, p: nat, space: nat)
    requires align > 0
    ensures var r := Align(align, size, p, space);
      && (r.Some? <==> exists k: nat :: Fitting(align, size, p, space, k))
      && (r.Some? ==> Aligned(r.value, align))
      && (r.Some? ==> forall k: nat :: Fitting(align, size, p, space, k) ==> r.value <= Times(k, align))
  {
    var k := AlignUpIsMultiple(align, p);
    assert Align(align, size, p, space).Some? ==> Fitting(align, size, p, space, k);
    forall k: nat | Fitting(align, size, p, space, k)
      ensures AlignUp(align, p) <= Times(k, align)
    {
      AlignUpIsFirst(align, p, k);
    }
  }

  /** For every request and every raw block: placement fails exactly when the first sum wraps, and a
      placed block keeps its bytes and its trailer inside the raw block exactly when no sum wraps. */
  lemma PlacementIsInside(r: Request, base: nat, trailer: nat)
    requires r.Admissible() && 0 < trailer < WORD / 2
    ensures var p := Align(r.align as int, r.size as int, base, r.Space());
      && (p.None? <==> r.Overflows())
      && (p.Some? ==> (p.value + r.size as int + trailer <= base + r.RawLength(trailer) <==> r.Fits(trailer)))
  {
  }

  /** A request without a byte to spare: the raw length wraps around to zero, the block is placed all the
      same, and its trailer is not inside. */
  lemma TrailerBehindBlock(base: nat)
    ensures var r := Request(0xFFFF_FFFF_FFFF_FFF8, 1);
      && r.Admissible() && r.RawLength(8) == 0
      && Align(r.align as int, r.size as int, base, r.Space()) == Some(base)
      && base + r.size as int + 8 > base + r.RawLength(8)
  {
  }

  /** A request so large that no block is placed in the raw block that it gets. */
  lemma NothingPlaced(base: nat)
    ensures var r := Request(0xFFFF_FFFF_FFFF_FFFF, 2);
      && r.Admissible() && r.RawLength(8) == 8
      && Align(r.align as int, r.size as int, base, r.Space()) == None
  {
  }

  predicate Apart(a: nat, m: nat, b: nat, n: nat) {
    a + m <= b || b + n <= a
  }

  /** What became of a raw block of the underlying allocator: it holds the block at `p`, or nothing
      refers to it any more. */
  datatype Use = HeldBy(p: nat) | Lost
  datatype RawBlock = RawBlock(length: nat, use: Use)
  /** A block in the hands of a user: what was asked for, and the raw block behind it. */
  datatype Block = Block(request: Request, base: nat)

  /** The books of the two allocators. */
  datatype Books = Books(raw: map<nat, RawBlock>, live: map<nat, Block>)

  /** A live block is aligned, lies with its trailer in its raw block, and the trailer is intact. */
  ghost predicate BlockSound(memory: seq<Byte>, raw: map<nat, RawBlock>, p: nat, block: Block, trailer: nat) {
    var Block(r, b) := block;
    var end := p + r.size as int;
    && r.Admissible() && r.Fits(trailer)
    && b in raw && raw[b] == RawBlock(r.Needed(trailer), HeldBy(p))
    && b <= p && Aligned(p, r.align as int)
    && end + trailer <= b + raw[b].length <= |memory|
    && Window(memory, end, end + trailer) == ToBytes(p - b, trailer)
  }

  ghost predicate RawSound(raw: map<nat, RawBlock>, size: nat) {
    && (forall b <- raw :: b + raw[b].length <= size)
    && (forall b, c :: b in raw && c in raw && b != c ==> Apart(b, raw[b].length, c, raw[c].length))
  }

  ghost predicate Sound(memory: seq<Byte>, books: Books, trailer: nat) {
    && 0 < trailer < WORD / 2 <= Pow256(trailer)
    && RawSound(books.raw, |memory|)
    && BlocksSound(memory, books, trailer)
    && HoldersLive(books)
  }

  ghost predicate BlocksSound(memory: seq<Byte>, books: Books, trailer: nat) {
    forall p <- books.live :: BlockSound(memory, books.raw, p, books.live[p], trailer)
  }

  /** A raw block that is not lost holds a live block. */
  ghost predicate HoldersLive(books: Books) {
    forall b <- books.raw :: books.raw[b].use.HeldBy? ==>
      books.raw[b].use.p in books.live && books.live[books.raw[b].use.p].base == b
  }

  /** The underlying allocator may hand out this block. */
  predicate Available(raw: map<nat, RawBlock>, size: nat, b: nat, length: nat) {
    && b + length <= size
    && b !in raw
    && forall c <- raw :: Apart(b, length, c, raw[c].length)
  }

  /** The bytes of a live block that belong to the user. */
  ghost function Contents(memory: seq<Byte>, p: nat, r: Request): seq<Byte> {
    if p + r.size as int <= |memory| then Window(memory, p, p + r.size as int) else []
  }

  /** The live blocks of before, but for `gone`, are there as they were, contents included. */
  ghost predicate Undisturbed(before: seq<Byte>, live: map<nat, Block>, after: seq<Byte>, live': map<nat, Block>,
                              gone: set<nat>)
  {
    forall q <- live :: q !in gone ==>
      && q in live' && live'[q] == live[q]
      && Contents(after, q, live[q].request) == Contents(before, q, live[q].request)
  }

  /** The two memories differ in the given window only. */
  ghost predicate SameOutside(before: seq<Byte>, after: seq<Byte>, b: nat, length: nat) {
    |before| == |after|
    && forall k :: 0 <= k < |before| && !(b <= k < b + length) ==> after[k] == before[k]
  }

  /** Losing a raw block that was just taken. */
  lemma LoseKeepsSound(memory: seq<Byte>, books: Books, trailer: nat, b: nat, length: nat)
    requires Sound(memory, books, trailer) && Available(books.raw, |memory|, b, length)
    ensures Sound(memory, books.(raw := books.raw[b := RawBlock(length, Lost)]), trailer)
  {
  }

  /** Writing inside one raw block disturbs no live block that lies in another one. */
  lemma OthersUndisturbed(before: seq<Byte>, after: seq<Byte>, raw: map<nat, RawBlock>, p: nat, block: Block,
                          trailer: nat, b: nat)
    requires BlockSound(before, raw, p, block, trailer) && RawSound(raw, |before|)
    requires b in raw && b != block.base && SameOutside(before, after, b, raw[b].length)
    ensures BlockSound(after, raw, p, block, trailer)
    ensures Contents(after, p, block.request) == Contents(before, p, block.request)
  {
  }

  /** The books after a raw block has been taken and cut. */
  function WithBlock(books: Books, trailer: nat, p: nat, block: Block): Books {
    Books(books.raw[block.base := RawBlock(Max(0, block.request.Needed(trailer)), HeldBy(p))],
          books.live[p := block])
  }

  /** What a cut has to establish for the new block. */
  ghost predicate CutSound(memory: seq<Byte>, p: nat, block: Block, trailer: nat) {
    var Block(r, b) := block;
    var end := p + r.size as int;
    && r.Admissible() && r.Fits(trailer)
    && b <= p && Aligned(p, r.align as int)
    && end + trailer <= b + r.Needed(trailer) <= |memory|
    && Window(memory, end, end + trailer) == ToBytes(p - b, trailer)
  }

  /** How an allocation ends: with a block, with `bad_alloc`, or, when the trailer would be written
      behind the raw block, in a way that the language does not define. */
  datatype Allocation = Placed(p: nat) | BadAlloc | Undefined

  function Outcome(r: Request, answer: Option<nat>, trailer: nat): Allocation
    requires r.align > 0
  {
    if answer.None? then BadAlloc
    else
      match Align(r.align as int, r.size as int, answer.value, r.Space())
      case None => BadAlloc
      case Some(p) => if r.Fits(trailer) then Placed(p) else Undefined
  }

  /** The books after an allocation: one that finds no place for its block loses the raw block. */
  function Allocated(books: Books, r: Request, answer: Option<nat>, trailer: nat): Books
    requires r.align > 0 && trailer < WORD
  {
    match Outcome(r, answer, trailer)
    case Placed(p) => WithBlock(books, trailer, p, Block(r, answer.value))
    case BadAlloc =>
      if answer.None? then books
      else books.(raw := books.raw[answer.value := RawBlock(r.RawLength(trailer), Lost)])
    case Undefined => books
  }

  function Freed(books: Books, p: nat): Books
    requires p in books.live
  {
    Books(books.raw - {books.live[p].base}, books.live - {p})
  }

  /** Writing the trailer is all that a cut has to do. */
  lemma TrailerIsCut(before: seq<Byte>, after: seq<Byte>, trailer: nat, p: nat, block: Block)
    requires var Block(r, b) := block;
      var end := p + r.size as int;
      && r.Admissible() && r.Fits(trailer) && b <= p && Aligned(p, r.align as int)
      && end + trailer <= b + r.Needed(trailer) <= |before| == |after|
      && SameOutside(before, after, end, trailer)
      && Window(after, end, end + trailer) == ToBytes(p - b, trailer)
    ensures CutSound(after, p, block, trailer)
    ensures SameOutside(before, after, block.base, block.request.Needed(trailer))
  {
  }

  lemma CutIsRawSound(before: seq<Byte>, books: Books, trailer: nat, p: nat, block: Block)
    requires RawSound(books.raw, |before|) && block.request.Admissible()
    requires Available(books.raw, |before|, block.base, block.request.Needed(trailer))
    ensures RawSound(WithBlock(books, trailer, p, block).raw, |before|)
  {
  }

  lemma NewBlockSound(after: seq<Byte>, books: Books, trailer: nat, p: nat, block: Block)
    requires CutSound(after, p, block, trailer)
    ensures BlockSound(after, WithBlock(books, trailer, p, block).raw, p, block, trailer)
  {
  }

  lemma CutSparesOther(before: seq<Byte>, after: seq<Byte>, books: Books, trailer: nat, p: nat, block: Block, q: nat)
    requires Sound(before, books, trailer) && CutSound(after, p, block, trailer) && q in books.live
    requires Available(books.raw, |before|, block.base, block.request.Needed(trailer))
    requires SameOutside(before, after, block.base, block.request.Needed(trailer))
    requires RawSound(WithBlock(books, trailer, p, block).raw, |before|)
    ensures q != p && BlockSound(after, WithBlock(books, trailer, p, block).raw, q, books.live[q], trailer)
    ensures Contents(after, q, books.live[q].request) == Contents(before, q, books.live[q].request)
  {
    var b, raw, other := block.base, WithBlock(books, trailer, p, block).raw, books.live[q];
    assert BlockSound(before, books.raw, q, other, trailer);
    assert Apart(b, raw[b].length, other.base, raw[other.base].length);
    OthersUndisturbed(before, after, raw, q, other, trailer, b);
  }

  lemma CutSparesOthers(before: seq<Byte>, after: seq<Byte>, books: Books, trailer: nat, p: nat, block: Block)
    requires Sound(before, books, trailer) && CutSound(after, p, block, trailer)
    requires Available(books.raw, |before|, block.base, block.request.Needed(trailer))
    requires SameOutside(before, after, block.base, block.request.Needed(trailer))
    requires RawSound(WithBlock(books, trailer, p, block).raw, |before|)
    ensures p !in books.live
    ensures BlocksSound(after, Books(WithBlock(books, trailer, p, block).raw, books.live), trailer)
    ensures Undisturbed(before, books.live, after, books.live, {})
  {
    forall q | q in books.live
      ensures q != p
      ensures BlockSound(after, WithBlock(books, trailer, p, block).raw, q, books.live[q], trailer)
      ensures Contents(after, q, books.live[q].request) == Contents(before, q, books.live[q].request)
    {
      CutSparesOther(before, after, books, trailer, p, block, q);
    }
  }

  lemma OneMoreBlock(before: seq<Byte>, after: seq<Byte>, raw: map<nat, RawBlock>, live: map<nat, Block>, p: nat,
                     block: Block, trailer: nat)
    requires BlocksSound(after, Books(raw, live), trailer) && BlockSound(after, raw, p, block, trailer)
    requires Undisturbed(before, live, after, live, {}) && p !in live
    ensures BlocksSound(after, Books(raw, live[p := block]), trailer)
    ensures Undisturbed(before, live, after, live[p := block], {})
  {
  }

  lemma OneMoreHolder(books: Books, trailer: nat, p: nat, block: Block)
    requires HoldersLive(books) && p !in books.live
    ensures HoldersLive(WithBlock(books, trailer, p, block))
  {
  }

  /** Cutting a block out of a raw block that was just taken. */
  lemma CutKeepsSound(before: seq<Byte>, after: seq<Byte>, books: Books, trailer: nat, p: nat, block: Block)
    requires Sound(before, books, trailer) && CutSound(after, p, block, trailer)
    requires Available(books.raw, |before|, block.base, block.request.Needed(trailer))
    requires SameOutside(before, after, block.base, block.request.Needed(trailer))
    ensures p !in books.live
    ensures Sound(after, WithBlock(books, trailer, p, block), trailer)
    ensures Undisturbed(before, books.live, after, WithBlock(books, trailer, p, block).live, {})
  {
    CutIsRawSound(before, books, trailer, p, block);
    NewBlockSound(after, books, trailer, p, block);
    CutSparesOthers(before, after, books, trailer, p, block);
    OneMoreBlock(before, after, WithBlock(books, trailer, p, block).raw, books.live, p, block, trailer);
    OneMoreHolder(books, trailer, p, block);
  }

  lemma WriteInWindow(bytes: seq<Byte>, from: nat, to: nat, i: nat, c: Byte)
    requires from + i < to <= |bytes|
    ensures Window(bytes[from + i := c], from, to) == Window(bytes, from, to)[i := c]
  {
  }

  lemma WriteInFront(bytes: seq<Byte>, from: nat, to: nat, k: nat, c: Byte)
    requires k < from <= to <= |bytes|
    ensures Window(bytes[k := c], from, to) == Window(bytes, from, to)
  {
  }

  /** A user's byte is in the raw block and in front of the trailer. */
  lemma WriteSparesTrailer(before: seq<Byte>, raw: map<nat, RawBlock>, trailer: nat, p: nat, block: Block, i: nat,
                           c: Byte)
    requires BlockSound(before, raw, p, block, trailer) && i < block.request.size as int
    ensures SameOutside(before, before[p + i := c], block.base, raw[block.base].length)
    ensures BlockSound(before[p + i := c], raw, p, block, trailer)
    ensures Contents(before[p + i := c], p, block.request) == Contents(before, p, block.request)[i := c]
  {
    var end := p + block.request.size as int;
    WriteInWindow(before, p, end, i, c);
    WriteInFront(before, end, end + trailer, p + i, c);
  }

  /** A user writes into one of the own bytes. */
  lemma WriteKeepsSound(before: seq<Byte>, books: Books, trailer: nat, p: nat, i: nat, c: Byte)
    requires Sound(before, books, trailer) && p in books.live && i < books.live[p].request.size as int
    ensures p + i < |before|
    ensures Sound(before[p + i := c], books, trailer)
    ensures Contents(before[p + i := c], p, books.live[p].request) == Contents(before, p, books.live[p].request)[i := c]
    ensures Undisturbed(before, books.live, before[p + i := c], books.live, {p})
  {
    assert BlockSound(before, books.raw, p, books.live[p], trailer);
    WriteSparesTrailer(before, books.raw, trailer, p, books.live[p], i, c);
    var after := before[p + i := c];
    forall q | q in books.live
      ensures BlockSound(after, books.raw, q, books.live[q], trailer)
      ensures q != p ==> Contents(after, q, books.live[q].request) == Contents(before, q, books.live[q].request)
    {
      if q != p {
        WriteSparesOther(before, after, books, trailer, p, q);
      }
    }
  }

  lemma WriteSparesOther(before: seq<Byte>, after: seq<Byte>, books: Books, trailer: nat, p: nat, q: nat)
    requires Sound(before, books, trailer) && p in books.live && q in books.live && p != q
    requires books.live[p].base in books.raw
    requires SameOutside(before, after, books.live[p].base, books.raw[books.live[p].base].length)
    ensures BlockSound(after, books.raw, q, books.live[q], trailer)
    ensures Contents(after, q, books.live[q].request) == Contents(before, q, books.live[q].request)
  {
    assert BlockSound(before, books.raw, p, books.live[p], trailer);
    assert BlockSound(before, books.raw, q, books.live[q], trailer);
    OthersUndisturbed(before, after, books.raw, q, books.live[q], trailer, books.live[p].base);
  }

  /** The raw block behind a live block has the length that its request computes again. */
  lemma RawBlockIsHeld(memory: seq<Byte>, books: Books, trailer: nat, p: nat)
    requires Sound(memory, books, trailer) && p in books.live
    ensures var Block(r, b) := books.live[p];
      r.align > 0 && b in books.raw && books.raw[b].length == r.RawLength(trailer)
  {
  }

  /** The trailer leads back to the raw block. */
  lemma TrailerLeadsBack(memory: seq<Byte>, books: Books, trailer: nat, p: nat)
    requires Sound(memory, books, trailer) && p in books.live
    ensures var Block(r, b) := books.live[p];
      var end := p + r.size as int;
      end + trailer <= |memory| && p - FromBytes(Window(memory, end, end + trailer)) == b
  {
    var Block(r, b) := books.live[p];
    assert BlockSound(memory, books.raw, p, books.live[p], trailer);
    TrailerRoundTrip(p - b, trailer);
  }

  /** A block other than the one that is freed is in another raw block. */
  lemma FreeSparesOther(memory: seq<Byte>, books: Books, trailer: nat, p: nat, q: nat)
    requires Sound(memory, books, trailer) && p in books.live && q in books.live && p != q
    ensures BlockSound(memory, Freed(books, p).raw, q, books.live[q], trailer)
  {
    assert BlockSound(memory, books.raw, p, books.live[p], trailer);
    assert BlockSound(memory, books.raw, q, books.live[q], trailer);
  }

  lemma FreeKeepsSound(memory: seq<Byte>, books: Books, trailer: nat, p: nat)
    requires Sound(memory, books, trailer) && p in books.live
    ensures Sound(memory, Freed(books, p), trailer)
    ensures Undisturbed(memory, books.live, memory, Freed(books, p).live, {p})
  {
    forall q | q in Freed(books, p).live
      ensures BlockSound(memory, Freed(books, p).raw, q, Freed(books, p).live[q], trailer)
    {
      FreeSparesOther(memory, books, trailer, p, q);
    }
    assert BlockSound(memory, books.raw, p, books.live[p], trailer);
    FreeKeepsHolders(books, p);
  }

  lemma FreeKeepsHolders(books: Books, p: nat)
    requires HoldersLive(books) && p in books.live
    ensures HoldersLive(Freed(books, p))
  {
    forall b | b in Freed(books, p).raw && books.raw[b].use.HeldBy?
      ensures books.raw[b].use.p in Freed(books, p).live
    {
    }
  }

  class Arena {
    const memory: array<Byte>
    const trailer: nat
    var books: Books

    ghost predicate Valid()
      reads this, memory
    {
      Sound(memory[..], books, trailer)
    }

    constructor (size: nat, trailer: nat)
      requires 0 < trailer < WORD / 2 <= Pow256(trailer)
      ensures Valid() && fresh(memory) && memory.Length == size && this.trailer == trailer
      ensures books == Books(map[], map[])
    {
      memory := new Byte[size](_ => 0);
      this.trailer := trailer;
      books := Books(map[], map[]);
    }

    /** `alloc.deallocate(b, length)`, which demands the address and the length that were allocated. */
    method GiveBack(b: nat, length: nat)
      requires b in books.raw && books.raw[b].length == length
      modifies this`books
      ensures books == old(books).(raw := old(books).raw - {b})
    {
      books := books.(raw := books.raw - {b});
    }

    /** `std::memcpy` of the offset behind the user's bytes. */
    method WriteTrailer(at: nat, offset: nat)
      requires at + trailer <= memory.Length
      modifies memory
      ensures Window(memory[..], at, at + trailer) == ToBytes(offset, trailer)
      ensures SameOutside(old(memory[..]), memory[..], at, trailer)
    {
      var bytes := ToBytes(offset, trailer);
      var i := 0;
      while i < trailer
        invariant 0 <= i <= trailer
        invariant forall k :: 0 <= k < i ==> memory[at + k] == bytes[k]
        invariant SameOutside(old(memory[..]), memory[..], at, trailer)
      {
        memory[at + i] := bytes[i];
        i := i + 1;
      }
    }

    /** `std::memcpy` of the trailer, as an offset: it leads back to the raw block. */
    method ReadTrailer(p: nat, size: SizeT) returns (offset: nat)
      requires Valid() && p in books.live && books.live[p].request.size == size
      ensures offset <= p && p - offset == books.live[p].base
    {
      TrailerLeadsBack(memory[..], books, trailer, p);
      var at := p + size as int;
      offset := FromBytes(Window(memory[..], at, at + trailer));
    }

    /** `answer` is what the underlying allocator returns, or `None` for its `bad_alloc`. */
    method Allocate(size: SizeT, align: SizeT, answer: Option<nat>) returns (r: Allocation)
      requires Valid() && Request(size, align).Admissible()
      requires answer.Some? ==>
        Available(books.raw, memory.Length, answer.value, Request(size, align).RawLength(trailer))
      modifies this, memory
      ensures Valid() && Undisturbed(old(memory[..]), old(books).live, memory[..], books.live, {})
      ensures r == Outcome(Request(size, align), answer, trailer)
      ensures books == Allocated(old(books), Request(size, align), answer, trailer)
      // A new block at the first aligned address of the raw block ...
      ensures r.Placed? ==>
        && r.p !in old(books).live && r.p in books.live
        && books.live[r.p] == Block(Request(size, align), answer.value)
        && Aligned(r.p, align as int) && answer.value <= r.p < answer.value + align as int
      // ... or none, and then the raw block, if there was one, is lost for good ...
      ensures r == BadAlloc <==> answer.None? || Request(size, align).Overflows()
      ensures r == BadAlloc ==> books.live == old(books).live
      ensures r == BadAlloc && answer.Some? ==> books.raw[answer.value].use == Lost
      // ... or a trailer that would not be inside; the model stops before it is written.
      ensures r == Undefined <==>
        answer.Some? && !Request(size, align).Overflows() && !Request(size, align).Fits(trailer)
      ensures r == Undefined ==> books == old(books) && memory[..] == old(memory[..])
    {
      if answer.None? {
        return BadAlloc;
      }
      var request := Request(size, align);
      var space, b := request.Space(), answer.value;
      var p := Align(align as int, size as int, b, space);
      PlacementIsInside(request, b, trailer);
      AlignFindsFirst(align as int, size as int, b, space);
      if p.None? {
        LoseKeepsSound(memory[..], books, trailer, b, request.RawLength(trailer));
        books := books.(raw := books.raw[b := RawBlock(request.RawLength(trailer), Lost)]);
        return BadAlloc;
      }
      if !request.Fits(trailer) {
        return Undefined;
      }
      Cut(request, b, p.value);
      return Placed(p.value);
    }

    /** The rest of a successful allocation. */
    method Cut(r: Request, b: nat, p: nat)
      requires Valid() && r.Admissible() && r.Fits(trailer)
      requires Available(books.raw, memory.Length, b, r.Needed(trailer))
      requires b <= p && Aligned(p, r.align as int)
      requires p + r.size as int + trailer <= b + r.Needed(trailer)
      modifies this`books, memory
      ensures Valid() && Undisturbed(old(memory[..]), old(books).live, memory[..], books.live, {})
      ensures p !in old(books).live
      ensures books == WithBlock(old(books), trailer, p, Block(r, b))
    {
      ghost var before := memory[..];
      WriteTrailer(p + r.size as int, p - b);
      TrailerIsCut(before, memory[..], trailer, p, Block(r, b));
      CutKeepsSound(before, memory[..], books, trailer, p, Block(r, b));
      books := WithBlock(books, trailer, p, Block(r, b));
    }

    /** A user writes into a live block. */
    method Write(p: nat, i: nat, c: Byte)
      requires Valid() && p in books.live && i < books.live[p].request.size as int
      modifies memory
      ensures Valid()
      ensures Undisturbed(old(memory[..]), books.live, memory[..], books.live, {p})
      ensures var r := books.live[p].request;
        Contents(memory[..], p, r) == Contents(old(memory[..]), p, r)[i := c]
    {
      ghost var before := memory[..];
      WriteKeepsSound(before, books, trailer, p, i, c);
      memory[p + i] := c;
      assert memory[..] == before[p + i := c];
    }

    /** `p` is `None` for the null pointer.  Reads the trailer and finds the raw block again: that
        `GiveBack` may be called is that its base and its length are those allocated. */
    method Deallocate(p: Option<nat>, size: SizeT, align: SizeT)
      requires Valid()
      requires p.Some? ==> p.value in books.live && books.live[p.value].request == Request(size, align)
      modifies this`books
      ensures Valid()
      ensures p.None? ==> books == old(books)
      ensures p.Some? ==>
        && Undisturbed(memory[..], old(books).live, memory[..], books.live, {p.value})
        && books == Freed(old(books), p.value)
        && books.live == old(books).live - {p.value}
        && books.raw == old(books).raw - {old(books).live[p.value].base}
    {
      if p.None? {
        return;
      }
      ghost var b := books.live[p.value].base;
      RawBlockIsHeld(memory[..], books, trailer, p.value);
      FreeKeepsSound(memory[..], books, trailer, p.value);
      var offset := ReadTrailer(p.value, size);
      assert p.value - offset == b;
      GiveBack(p.value - offset, Request(size, align).RawLength(trailer));
      books := books.(live := books.live - {p.value});
    }
  }

  /** What users do, with what the underlying allocator answers; an operation that the books do not
      allow is not part of a program, nor is an allocation whose end is undefined. */
  datatype Op =
    | Alloc(request: Request, answer: Option<nat>)
    | Store(p: nat, i: nat, c: Byte)
    | Free(p: nat)
  {
    predicate Allowed(books: Books, size: nat, trailer: nat) {
      match this
      case Alloc(r, answer) =>
        && 0 < r.align as int <= WORD / 2 && trailer < WORD
        && (answer.Some? ==> Available(books.raw, size, answer.value, r.RawLength(trailer)))
        && Outcome(r, answer, trailer) != Undefined
      case Store(p, i, _) => p in books.live && i < books.live[p].request.size as int
      case Free(p) => p in books.live
    }

    /** The request overflows, and there was a raw block for it. */
    predicate Leaks(books: Books, size: nat, trailer: nat) {
      Allowed(books, size, trailer) && Alloc? && request.Overflows() && answer.Some?
    }
  }

  /** The books, and for every live block what its user wrote last at each place. */
  datatype World = World(books: Books, written: map<nat, map<nat, Byte>>)

  function Step(w: World, op: Op, size: nat, trailer: nat): World {
    if !op.Allowed(w.books, size, trailer) then w
    else
      match op
      case Alloc(r, answer) => AfterAlloc(w, r, answer, trailer)
      case Store(p, i, c) => AfterStore(w, p, i, c)
      case Free(p) => World(Freed(w.books, p), w.written - {p})
  }

  function AfterAlloc(w: World, r: Request, answer: Option<nat>, trailer: nat): World
    requires r.align > 0 && trailer < WORD
  {
    var outcome := Outcome(r, answer, trailer);
    World(Allocated(w.books, r, answer, trailer),
          if outcome.Placed? then w.written[outcome.p := map[]] else w.written)
  }

  function AfterStore(w: World, p: nat, i: nat, c: Byte): World {
    w.(written := w.written[p := (if p in w.written then w.written[p] else map[])[i := c]])
  }

  /** After the first `n` operations. */
  function Run(w: World, ops: seq<Op>, n: nat, size: nat, trailer: nat): World
    requires n <= |ops|
    decreases n
  {
    if n == 0 then w else Step(Run(w, ops, n - 1, size, trailer), ops[n - 1], size, trailer)
  }

  // What the operations promise for the books, and the run for what is read back.

  /** A new block at the first aligned address in the raw block. */
  ghost predicate Gets(books: Books, r: Request, b: nat, p: nat, next: Books, trailer: nat) {
    && p !in books.live && Aligned(p, r.align as int) && b <= p < b + r.align as int
    && next.live == books.live[p := Block(r, b)]
    && next.raw == books.raw[b := RawBlock(Max(0, r.Needed(trailer)), HeldBy(p))]
  }

  /** What each operation promises.  What asks for something impossible does nothing. */
  ghost predicate Lawful(books: Books, op: Op, next: Books, size: nat, trailer: nat) {
    match op
    case Alloc(r, None) => next == books
    case Alloc(r, Some(b)) =>
      if !(0 < r.align as int <= WORD / 2) || trailer >= WORD
         || !Available(books.raw, size, b, r.RawLength(trailer))
      then next == books
      else if r.Overflows() then
        next.live == books.live && next.raw == books.raw[b := RawBlock(r.RawLength(trailer), Lost)]
      else if r.Fits(trailer) then exists p: nat :: Gets(books, r, b, p, next, trailer)
      else next == books
    case Store(_, _, _) => next == books
    case Free(p) =>
      if p in books.live then
        next.live == books.live - {p} && next.raw == books.raw - {books.live[p].base}
      else next == books
  }

  /** An address inside a raw block that was just taken is not that of a live block. */
  lemma PlacedIsNew(memory: seq<Byte>, books: Books, trailer: nat, r: Request, b: nat, p: nat)
    requires Sound(memory, books, trailer) && r.Admissible() && r.Fits(trailer)
    requires Available(books.raw, |memory|, b, r.Needed(trailer))
    requires b <= p && p + r.size as int + trailer <= b + r.Needed(trailer)
    ensures p !in books.live
  {
    forall q | q in books.live
      ensures q != p
    {
      assert BlockSound(memory, books.raw, q, books.live[q], trailer);
    }
  }

  lemma AllocIsLawful(memory: seq<Byte>, w: World, r: Request, b: nat, size: nat, trailer: nat)
    requires Sound(memory, w.books, trailer) && |memory| == size
    ensures Lawful(w.books, Alloc(r, Some(b)), Step(w, Alloc(r, Some(b)), size, trailer).books, size, trailer)
  {
    if 0 < r.align as int <= WORD / 2 && Available(w.books.raw, size, b, r.RawLength(trailer)) {
      PlacementIsInside(r, b, trailer);
      AlignFindsFirst(r.align as int, r.size as int, b, r.Space());
      if !r.Overflows() && r.Fits(trailer) {
        var p := Align(r.align as int, r.size as int, b, r.Space()).value;
        PlacedIsNew(memory, w.books, trailer, r, b, p);
        assert Gets(w.books, r, b, p, Step(w, Alloc(r, Some(b)), size, trailer).books, trailer);
      }
    }
  }

  lemma StepIsLawful(memory: seq<Byte>, w: World, op: Op, size: nat, trailer: nat)
    requires Sound(memory, w.books, trailer) && |memory| == size
    ensures Lawful(w.books, op, Step(w, op, size, trailer).books, size, trailer)
  {
    match op
    case Alloc(r, answer) => if answer.Some? { AllocIsLawful(memory, w, r, answer.value, size, trailer); }
    case Store(_, _, _) =>
    case Free(_) =>
  }

  predicate Stores(books: Books, op: Op) {
    op.Store? && op.p in books.live && op.i < books.live[op.p].request.size as int
  }

  /** The operation writes to that place, or ends the life of its block. */
  predicate Affects(op: Op, p: nat, i: nat) {
    (op.Store? && op.p == p && op.i == i) || (op.Free? && op.p == p)
  }

  /** The operation at `k` stores a byte, and none of those from there to `n` affects its place. */
  ghost predicate LastStore(w: World, ops: seq<Op>, k: nat, n: nat, size: nat, trailer: nat)
    requires k < n <= |ops|
  {
    && Stores(Run(w, ops, k, size, trailer).books, ops[k])
    && forall m :: k < m < n ==> !Affects(ops[m], ops[k].p, ops[k].i)
  }

  predicate Recorded(now: World, p: nat, i: nat, c: Byte) {
    && p in now.books.live && i < now.books.live[p].request.size as int
    && p in now.written && i in now.written[p] && now.written[p][i] == c
  }

  ghost predicate RecordedAt(w: World, ops: seq<Op>, k: nat, n: nat, size: nat, trailer: nat, now: World)
    requires k < n <= |ops|
  {
    LastStore(w, ops, k, n, size, trailer) ==> Recorded(now, ops[k].p, ops[k].i, ops[k].c)
  }

  lemma AllocPlacesNew(memory: seq<Byte>, now: World, r: Request, answer: Option<nat>, size: nat, trailer: nat)
    requires Sound(memory, now.books, trailer) && |memory| == size
    requires Alloc(r, answer).Allowed(now.books, size, trailer)
    ensures var outcome := Outcome(r, answer, trailer); outcome.Placed? ==> outcome.p !in now.books.live
  {
    if answer.Some? {
      PlacementIsInside(r, answer.value, trailer);
      var outcome := Outcome(r, answer, trailer);
      if outcome.Placed? {
        PlacedIsNew(memory, now.books, trailer, r, answer.value, outcome.p);
      }
    }
  }

  lemma RecordStays(memory: seq<Byte>, now: World, op: Op, size: nat, trailer: nat, p: nat, i: nat, c: Byte)
    requires Sound(memory, now.books, trailer) && |memory| == size
    requires Recorded(now, p, i, c) && !Affects(op, p, i)
    ensures Recorded(Step(now, op, size, trailer), p, i, c)
  {
    if op.Alloc? && op.Allowed(now.books, size, trailer) {
      AllocPlacesNew(memory, now, op.request, op.answer, size, trailer);
    }
  }

  ghost predicate AllRecorded(w: World, ops: seq<Op>, n: nat, size: nat, trailer: nat, now: World)
    requires n <= |ops|
  {
    forall k: nat :: k < n ==> RecordedAt(w, ops, k, n, size, trailer, now)
  }

  lemma RecordedNext(memory: seq<Byte>, w: World, ops: seq<Op>, k: nat, n: nat, size: nat, trailer: nat, now: World)
    requires k <= n < |ops| && now == Run(w, ops, n, size, trailer)
    requires Sound(memory, now.books, trailer) && |memory| == size
    requires k < n ==> RecordedAt(w, ops, k, n, size, trailer, now)
    ensures RecordedAt(w, ops, k, n + 1, size, trailer, Step(now, ops[n], size, trailer))
  {
    if k < n && LastStore(w, ops, k, n + 1, size, trailer) {
      assert !Affects(ops[n], ops[k].p, ops[k].i);
      RecordStays(memory, now, ops[n], size, trailer, ops[k].p, ops[k].i, ops[k].c);
    }
  }

  /** A live block holds at each place what its user wrote there last. */
  ghost predicate Kept(memory: seq<Byte>, w: World) {
    forall p <- w.books.live ::
      p in w.written && Holds(Contents(memory, p, w.books.live[p].request), w.written[p])
  }

  ghost predicate Holds(contents: seq<Byte>, written: map<nat, Byte>) {
    forall i <- written :: i < |contents| && contents[i] == written[i]
  }

  /** Blocks that are disturbed by nothing hold what they held. */
  lemma UndisturbedHolds(before: seq<Byte>, w: World, after: seq<Byte>, live: map<nat, Block>, gone: set<nat>, p: nat)
    requires Kept(before, w) && Undisturbed(before, w.books.live, after, live, gone)
    requires p in w.books.live && p !in gone
    ensures p in live && p in w.written && Holds(Contents(after, p, live[p].request), w.written[p])
  {
  }

  lemma AllocKeeps(before: seq<Byte>, w: World, after: seq<Byte>, r: Request, answer: Option<nat>, trailer: nat)
    requires r.align > 0 && trailer < WORD && Kept(before, w)
    requires Undisturbed(before, w.books.live, after, Allocated(w.books, r, answer, trailer).live, {})
    ensures Kept(after, AfterAlloc(w, r, answer, trailer))
  {
    var next := AfterAlloc(w, r, answer, trailer);
    forall p | p in next.books.live
      ensures p in next.written && Holds(Contents(after, p, next.books.live[p].request), next.written[p])
    {
      if next.written != w.written && p == Outcome(r, answer, trailer).p {
        assert next.written[p] == map[];
      } else if p in w.books.live {
        UndisturbedHolds(before, w, after, next.books.live, {}, p);
      }
    }
  }

  lemma StoreKeeps(before: seq<Byte>, w: World, after: seq<Byte>, p: nat, i: nat, c: Byte)
    requires Kept(before, w) && p in w.books.live
    requires Undisturbed(before, w.books.live, after, w.books.live, {p})
    requires var r := w.books.live[p].request;
      i < |Contents(before, p, r)| && Contents(after, p, r) == Contents(before, p, r)[i := c]
    ensures Kept(after, AfterStore(w, p, i, c))
  {
    var next := AfterStore(w, p, i, c);
    forall q | q in next.books.live
      ensures q in next.written && Holds(Contents(after, q, next.books.live[q].request), next.written[q])
    {
      if q != p {
        UndisturbedHolds(before, w, after, w.books.live, {p}, q);
      }
    }
  }

  lemma FreeKeeps(memory: seq<Byte>, w: World, p: nat)
    requires Kept(memory, w) && p in w.books.live
    ensures Kept(memory, World(Freed(w.books, p), w.written - {p}))
  {
  }

  ghost predicate NothingLost(books: Books) {
    forall b <- books.raw :: books.raw[b].use != Lost
  }

  lemma TakingLoses(raw: map<nat, RawBlock>, live: map<nat, Block>, b: nat, block: RawBlock, live': map<nat, Block>)
    requires b !in raw
    ensures NothingLost(Books(raw[b := block], live')) <==> NothingLost(Books(raw, live)) && block.use != Lost
  {
    var raw' := raw[b := block];
    assert b in raw' && raw'[b] == block;
    assert forall c <- raw :: c in raw' && raw'[c] == raw[c];
  }

  lemma FreeingLoses(books: Books, p: nat)
    requires p in books.live && books.live[p].base in books.raw && books.raw[books.live[p].base].use != Lost
    ensures NothingLost(Freed(books, p)) <==> NothingLost(books)
  {
    var b := books.live[p].base;
    assert forall c <- books.raw :: c != b ==> c in Freed(books, p).raw && Freed(books, p).raw[c] == books.raw[c];
  }

  lemma AllocLoses(books: Books, r: Request, answer: Option<nat>, trailer: nat)
    requires r.Admissible() && 0 < trailer < WORD / 2
    requires answer.Some? ==> answer.value !in books.raw
    requires Outcome(r, answer, trailer) != Undefined
    ensures NothingLost(Allocated(books, r, answer, trailer)) <==>
      NothingLost(books) && !(r.Overflows() && answer.Some?)
  {
    if answer.Some? {
      PlacementIsInside(r, answer.value, trailer);
      var after := Allocated(books, r, answer, trailer);
      TakingLoses(books.raw, books.live, answer.value, after.raw[answer.value], after.live);
    }
  }

  /** Lost blocks stay lost, and only an allocation that overflows loses one. */
  lemma LostByLeaks(memory: seq<Byte>, w: World, op: Op, size: nat, trailer: nat)
    requires Sound(memory, w.books, trailer)
    ensures NothingLost(Step(w, op, size, trailer).books) <==>
      NothingLost(w.books) && !op.Leaks(w.books, size, trailer)
  {
    if op.Allowed(w.books, size, trailer) {
      match op
      case Alloc(r, answer) => AllocLoses(w.books, r, answer, trailer);
      case Store(_, _, _) =>
      case Free(p) =>
        assert BlockSound(memory, w.books.raw, p, w.books.live[p], trailer);
        FreeingLoses(w.books, p);
    }
  }

  method PerformAlloc(a: Arena, r: Request, answer: Option<nat>, ghost w: World)
    requires a.Valid() && a.books == w.books && Kept(a.memory[..], w)
    requires Alloc(r, answer).Allowed(a.books, a.memory.Length, a.trailer)
    modifies a, a.memory
    ensures a.Valid() && a.books == AfterAlloc(w, r, answer, a.trailer).books
    ensures Kept(a.memory[..], AfterAlloc(w, r, answer, a.trailer))
  {
    var _ := a.Allocate(r.size, r.align, answer);
    AllocKeeps(old(a.memory[..]), w, a.memory[..], r, answer, a.trailer);
  }

  method PerformStore(a: Arena, p: nat, i: nat, c: Byte, ghost w: World)
    requires a.Valid() && a.books == w.books && Kept(a.memory[..], w)
    requires p in a.books.live && i < a.books.live[p].request.size as int
    modifies a.memory
    ensures a.Valid() && a.books == AfterStore(w, p, i, c).books && Kept(a.memory[..], AfterStore(w, p, i, c))
  {
    a.Write(p, i, c);
    StoreKeeps(old(a.memory[..]), w, a.memory[..], p, i, c);
  }

  method PerformFree(a: Arena, p: nat, ghost w: World)
    requires a.Valid() && a.books == w.books && Kept(a.memory[..], w) && p in a.books.live
    modifies a`books
    ensures a.Valid() && a.books == Freed(w.books, p)
    ensures Kept(a.memory[..], World(Freed(w.books, p), w.written - {p}))
  {
    var r := a.books.live[p].request;
    a.Deallocate(Some(p), r.size, r.align);
    FreeKeeps(a.memory[..], w, p);
  }

  method Perform(a: Arena, op: Op, ghost w: World)
    requires a.Valid() && a.books == w.books && Kept(a.memory[..], w)
    modifies a, a.memory
    ensures a.Valid() && a.books == Step(w, op, a.memory.Length, a.trailer).books
    ensures Kept(a.memory[..], Step(w, op, a.memory.Length, a.trailer))
  {
    if op.Allowed(a.books, a.memory.Length, a.trailer) {
      match op
      case Alloc(r, answer) => PerformAlloc(a, r, answer, w);
      case Store(p, i, c) => PerformStore(a, p, i, c, w);
      case Free(p) => PerformFree(a, p, w);
    }
  }

  /** The operation at `k` leaks, in the state that the run has come to. */
  predicate LeaksAt(w: World, ops: seq<Op>, k: nat, size: nat, trailer: nat)
    requires k < |ops|
  {
    ops[k].Leaks(Run(w, ops, k, size, trailer).books, size, trailer)
  }

  ghost predicate NoLeaks(w: World, ops: seq<Op>, n: nat, size: nat, trailer: nat)
    requires n <= |ops|
  {
    forall k: nat :: k < n ==> !LeaksAt(w, ops, k, size, trailer)
  }

  /** The run has come to this world, and has lost a raw block exactly if an operation leaked. */
  ghost predicate Reached(w: World, ops: seq<Op>, n: nat, size: nat, trailer: nat, now: World)
    requires n <= |ops|
  {
    && now == Run(w, ops, n, size, trailer)
    && (NothingLost(now.books) <==> NoLeaks(w, ops, n, size, trailer))
    && AllRecorded(w, ops, n, size, trailer, now)
    && (forall k: nat :: k < n ==> LawfulAt(w, ops, k, size, trailer))
  }

  /** The operation at `k` has kept what it promises. */
  ghost predicate LawfulAt(w: World, ops: seq<Op>, k: nat, size: nat, trailer: nat)
    requires k < |ops|
  {
    Lawful(Run(w, ops, k, size, trailer).books, ops[k], Run(w, ops, k + 1, size, trailer).books, size, trailer)
  }

  lemma NoLeaksNext(w: World, ops: seq<Op>, n: nat, size: nat, trailer: nat)
    requires n < |ops|
    ensures NoLeaks(w, ops, n + 1, size, trailer) <==>
      NoLeaks(w, ops, n, size, trailer) && !LeaksAt(w, ops, n, size, trailer)
  {
  }

  lemma ReachedNext(memory: seq<Byte>, w: World, ops: seq<Op>, n: nat, size: nat, trailer: nat, now: World)
    requires n < |ops| && Reached(w, ops, n, size, trailer, now)
    requires Sound(memory, now.books, trailer) && |memory| == size
    ensures Reached(w, ops, n + 1, size, trailer, Step(now, ops[n], size, trailer))
  {
    LostByLeaks(memory, now, ops[n], size, trailer);
    NoLeaksNext(w, ops, n, size, trailer);
    AllRecordedNext(memory, w, ops, n, size, trailer, now);
    NextIsLawful(memory, w, ops, n, size, trailer, now);
  }

  lemma NextIsLawful(memory: seq<Byte>, w: World, ops: seq<Op>, n: nat, size: nat, trailer: nat, now: World)
    requires n < |ops| && now == Run(w, ops, n, size, trailer)
    requires Sound(memory, now.books, trailer) && |memory| == size
    ensures LawfulAt(w, ops, n, size, trailer)
  {
    StepIsLawful(memory, now, ops[n], size, trailer);
  }

  lemma AllRecordedNext(memory: seq<Byte>, w: World, ops: seq<Op>, n: nat, size: nat, trailer: nat, now: World)
    requires n < |ops| && now == Run(w, ops, n, size, trailer) && AllRecorded(w, ops, n, size, trailer, now)
    requires Sound(memory, now.books, trailer) && |memory| == size
    ensures AllRecorded(w, ops, n + 1, size, trailer, Step(now, ops[n], size, trailer))
  {
    var m, next := n + 1, Step(now, ops[n], size, trailer);
    forall k: nat | k < m
      ensures RecordedAt(w, ops, k, m, size, trailer, next)
    {
      RecordedNext(memory, w, ops, k, n, size, trailer, now);
    }
  }

  /** The byte that the operation stored is read back from its place. */
  ghost predicate ReadsBack(memory: seq<Byte>, live: map<nat, Block>, op: Op) {
    op.Store? ==>
      && op.p in live
      && op.i < |Contents(memory, op.p, live[op.p].request)|
      && Contents(memory, op.p, live[op.p].request)[op.i] == op.c
  }

  ghost predicate ReadsBackAt(w: World, ops: seq<Op>, k: nat, size: nat, trailer: nat, memory: seq<Byte>,
                              live: map<nat, Block>)
    requires k < |ops|
  {
    LastStore(w, ops, k, |ops|, size, trailer) ==> ReadsBack(memory, live, ops[k])
  }

  lemma LastStoresAreKept(memory: seq<Byte>, w: World, ops: seq<Op>, size: nat, trailer: nat, now: World, k: nat)
    requires Reached(w, ops, |ops|, size, trailer, now) && Kept(memory, now) && k < |ops|
    ensures ReadsBackAt(w, ops, k, size, trailer, memory, now.books.live)
  {
    assert RecordedAt(w, ops, k, |ops|, size, trailer, now);
  }

  lemma NothingIsLeft(memory: seq<Byte>, books: Books, trailer: nat)
    requires Sound(memory, books, trailer) && books.live == map[]
    ensures books.raw == map[] <==> NothingLost(books)
  {
  }

  method PerformNext(a: Arena, ops: seq<Op>, n: nat, ghost w: World, ghost now: World) returns (ghost next: World)
    requires a.Valid() && a.books == now.books && Kept(a.memory[..], now)
    requires n < |ops| && Reached(w, ops, n, a.memory.Length, a.trailer, now)
    modifies a, a.memory
    ensures a.Valid() && a.books == next.books && Kept(a.memory[..], next)
    ensures Reached(w, ops, n + 1, a.memory.Length, a.trailer, next)
  {
    ReachedNext(a.memory[..], w, ops, n, a.memory.Length, a.trailer, now);
    Perform(a, ops[n], now);
    next := Step(now, ops[n], a.memory.Length, a.trailer);
  }

  /** Every run of the arena is a run of the books, and keeps what users have written. */
  method Play(a: Arena, ops: seq<Op>, ghost w: World) returns (ghost now: World)
    requires a.Valid() && a.books == w.books && Kept(a.memory[..], w) && NothingLost(w.books)
    modifies a, a.memory
    ensures a.Valid() && a.books == now.books && Kept(a.memory[..], now)
    ensures Reached(w, ops, |ops|, a.memory.Length, a.trailer, now)
  {
    now := w;
    for n := 0 to |ops|
      invariant a.Valid() && a.books == now.books && Kept(a.memory[..], now)
      invariant Reached(w, ops, n, a.memory.Length, a.trailer, now)
    {
      now := PerformNext(a, ops, n, w, now);
    }
  }

  /** Any interleaving of allocations, stores and frees keeps every trailer intact, and each operation
      keeps its promise; a byte that was stored is read back until its place is written to again or
      its block is freed.  Once every block has been freed, every raw block has been given back if and
      only if no request overflowed for which there was a raw block. */
  method Execute(a: Arena, ops: seq<Op>, ghost w: World)
    requires a.Valid() && a.books == w.books && Kept(a.memory[..], w) && NothingLost(w.books)
    modifies a, a.memory
    ensures a.Valid() && a.books == Run(w, ops, |ops|, a.memory.Length, a.trailer).books
    ensures forall k: nat :: k < |ops| ==> LawfulAt(w, ops, k, a.memory.Length, a.trailer)
    ensures forall k: nat :: k < |ops| ==>
      ReadsBackAt(w, ops, k, a.memory.Length, a.trailer, a.memory[..], a.books.live)
    ensures a.books.live == map[] ==>
      (a.books.raw == map[] <==> NoLeaks(w, ops, |ops|, a.memory.Length, a.trailer))
  {
    ghost var now := Play(a, ops, w);
    forall k: nat | k < |ops|
      ensures ReadsBackAt(w, ops, k, a.memory.Length, a.trailer, a.memory[..], a.books.live)
    {
      LastStoresAreKept(a.memory[..], w, ops, a.memory.Length, a.trailer, now, k);
    }
    if a.books.live == map[] {
      NothingIsLeft(a.memory[..], a.books, a.trailer);
    }
  }
}
