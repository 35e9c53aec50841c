// The forward bump allocator: a cursor word at the start of the heap, advanced by each request.
module Allocator {
  import opened Basics

  const HEAP_START_ADDRESS: nat := 0x3_0000_0000
  const HEAP_LENGTH: nat := 8 * 32 * 1024
  const TOP_ADDRESS: nat := HEAP_START_ADDRESS + HEAP_LENGTH
  const BOTTOM_ADDRESS: nat := HEAP_START_ADDRESS + 8
  const USIZE_MAX: nat := 0xffff_ffff_ffff_ffff

  function Pow2(n: nat): (r: nat)
    ensures r > 0
  {
    if n == 0 then 1 else 2 * Pow2(n - 1)
  }

  ghost predicate IsPowerOfTwo(a: nat) {
    exists k: nat :: k < 64 && Pow2(k) == a
  }

  /** A request, with the guarantees of Rust's `Layout`. */
  datatype Layout = Layout(size: nat, align: nat)

  ghost predicate ValidLayout(l: Layout) {
    IsPowerOfTwo(l.align) && l.size + l.align - 1 < 0x8000_0000_0000_0000
  }

  // ----- the mask expression

  /** Bitwise and. */
  function And(x: nat, y: nat): nat {
    if x == 0 then 0
    else (if x % 2 == 1 && y % 2 == 1 then 1 else 0) + 2 * And(x / 2, y / 2)
  }

  /** `(pos + align - 1) & !(align - 1)` on 64-bit words. */
  function AlignUp(pos: u64, align: u64): nat
    requires align > 0 && pos + align - 1 <= USIZE_MAX
  {
    And(pos + align - 1, USIZE_MAX - (align - 1))
  }

  /** The k low bits of a are zero. */
  predicate Aligned(a: nat, k: nat)
    decreases k
  {
    k == 0 || (a % 2 == 0 && Aligned(a / 2, k - 1))
  }

  /** Zero low bits mean divisibility. */
  lemma {:induction false} AlignedIsMultiple(a: nat, k: nat)
    ensures Aligned(a, k) <==> exists q: nat {:trigger q * Pow2(k)} :: a == q * Pow2(k)
    decreases k
  {
    if k == 0 {
      assert a == a * Pow2(0);
    } else {
      AlignedIsMultiple(a / 2, k - 1);
      if Aligned(a, k) {
        var q: nat :| a / 2 == q * Pow2(k - 1);
        Doubled(q, k);
        assert a == q * Pow2(k);
      }
      if q: nat :| a == q * Pow2(k) {
        Doubled(q, k);
        assert a / 2 == q * Pow2(k - 1);
      }
    }
  }

  lemma Doubled(q: nat, k: nat)
    requires k > 0
    ensures q * Pow2(k) == 2 * (q * Pow2(k - 1))
  {
  }

  ghost predicate MultipleOf(a: int, align: nat) {
    a >= 0 && exists k: nat :: k < 64 && Pow2(k) == align && Aligned(a, k)
  }

  lemma {:induction false} AndAllOnes(x: nat, width: nat)
    requires x < Pow2(width)
    ensures And(x, Pow2(width) - 1) == x
    decreases width
  {
    if width > 0 {
      AndAllOnes(x / 2, width - 1);
      AndOdd(x, Pow2(width) - 1, Pow2(width - 1) - 1);
    }
  }

  lemma {:induction false} AndOdd(x: nat, y: nat, half: nat)
    requires y == 2 * half + 1
    ensures And(x, y) == x % 2 + 2 * And(x / 2, half)
  {
    assert y / 2 == half && y % 2 == 1;
  }

  /** Clearing the k low bits rounds down to an aligned value. */
  lemma {:induction false} AndMask(x: nat, k: nat, width: nat)
    requires k <= width && x < Pow2(width)
    ensures Pow2(width) >= Pow2(k)
    ensures var r := And(x, Pow2(width) - Pow2(k));
            Aligned(r, k) && r <= x < r + Pow2(k)
    decreases width
  {
    if k == 0 {
      AndAllOnes(x, width);
    } else {
      AndMask(x / 2, k - 1, width - 1);
      AndEven(x, Pow2(width) - Pow2(k), Pow2(width - 1) - Pow2(k - 1));
      AlignedTwice(And(x / 2, Pow2(width - 1) - Pow2(k - 1)), k);
    }
  }

  lemma {:induction false} AndEven(x: nat, y: nat, half: nat)
    requires y == 2 * half
    ensures And(x, y) == 2 * And(x / 2, half)
  {
    assert y / 2 == half && y % 2 == 0;
  }

  lemma {:induction false} AlignedTwice(a: nat, k: nat)
    requires k > 0 && Aligned(a, k - 1)
    ensures Aligned(2 * a, k)
  {
    assert 2 * a / 2 == a;
  }

  /** Different aligned values are at least one alignment apart. */
  lemma {:induction false} AlignedApart(a: nat, b: nat, k: nat)
    requires Aligned(a, k) && Aligned(b, k) && a < b
    ensures a + Pow2(k) <= b
    decreases k
  {
    if k > 0 { AlignedApart(a / 2, b / 2, k - 1); }
  }

  lemma {:induction false} Pow2Injective(j: nat, k: nat)
    requires Pow2(j) == Pow2(k)
    ensures j == k
  {
    if j > 0 && k > 0 { Pow2Injective(j - 1, k - 1); }
  }

  lemma {:induction false} Pow2OfWord(width: nat)
    requires width == 64
    ensures Pow2(width) == USIZE_MAX + 1
  {
    assert Pow2(width - 63) == 2 * Pow2(width - 64);
    Squared(width - 62, width - 63, 2);
    Squared(width - 60, width - 62, 4);
    Squared(width - 56, width - 60, 0x10);
    Squared(width - 48, width - 56, 0x100);
    Squared(width - 32, width - 48, 0x1_0000);
    Squared(width, width - 32, 0x1_0000_0000);
  }

  lemma {:induction false} Squared(m: nat, n: nat, x: nat)
    requires m == n + n && Pow2(n) == x
    ensures Pow2(m) == x * x
  {
    Pow2Plus(n, n);
  }

  lemma {:induction false} Pow2Plus(m: nat, n: nat)
    ensures Pow2(m + n) == Pow2(m) * Pow2(n)
  {
    if m > 0 { Pow2Plus(m - 1, n); }
  }

  lemma {:induction false} AlignUpRounds(pos: u64, align: u64, k: nat)
    requires k < 64 && Pow2(k) == align && pos + align - 1 <= USIZE_MAX
    ensures align > 0
    ensures Aligned(AlignUp(pos, align), k)
    ensures pos <= AlignUp(pos, align) < pos + align
  {
    var width: nat :| width == 64;
    Pow2OfWord(width);
    AndMask(pos + align - 1, k, width);
  }

  /** The mask expression is the least multiple of the alignment at or above the cursor. */
  lemma AlignUpIsLeast(pos: u64, align: u64)
    requires IsPowerOfTwo(align) && pos + align - 1 <= USIZE_MAX
    ensures align > 0
    ensures MultipleOf(AlignUp(pos, align), align)
    ensures pos <= AlignUp(pos, align) < pos + align
    ensures forall a: int :: MultipleOf(a, align) && a >= pos ==> a >= AlignUp(pos, align)
  {
    var k: nat :| k < 64 && Pow2(k) == align;
    AlignUpRounds(pos, align, k);
    forall a: int | MultipleOf(a, align) && a >= pos ensures a >= AlignUp(pos, align) {
      NotBetween(a, AlignUp(pos, align), align, k);
    }
  }

  lemma {:induction false} NotBetween(a: int, r: nat, align: nat, k: nat)
    requires k < 64 && Pow2(k) == align && Aligned(r, k) && MultipleOf(a, align)
    ensures a >= r || a + align <= r
  {
    var j: nat :| j < 64 && Pow2(j) == align && Aligned(a, j);
    Pow2Injective(j, k);
    if a < r { AlignedApart(a, r, k); }
  }

  // ----- one request

  /** The cursor word holds 0 before the first success and an address in the heap afterwards. */
  predicate ValidCursor(cursor: nat) {
    cursor == 0 || 0x3_0000_0008 <= cursor <= 0x3_0004_0000
  }

  function Start(cursor: nat): nat {
    if cursor == 0 then 0x3_0000_0008 else cursor
  }

  /** What one request returns and leaves in the cursor word, stated by what a block must be. */
  ghost predicate Step(cursor: nat, l: Layout, block: Option<nat>, cursor': nat) {
    match block
    case Some(a) =>
      && MultipleOf(a, l.align) && Start(cursor) <= a < Start(cursor) + l.align
      && a + l.size <= 0x3_0004_0000
      && cursor' == a + l.size
    case None =>
      && cursor' == cursor
      && forall a: int :: MultipleOf(a, l.align) && a >= Start(cursor) ==> a + l.size > 0x3_0004_0000
  }

  class BumpAllocator {
    /** The word at HEAP_START_ADDRESS. */
    var cursor: nat

    constructor ()
      ensures cursor == 0
    {
      cursor := 0;
    }

    /** Null is `None`: only when no aligned block above the cursor fits. */
    method Alloc(l: Layout) returns (block: Option<nat>)
      requires ValidCursor(cursor) && ValidLayout(l)
      modifies this
      ensures ValidCursor(cursor)
      ensures Step(old(cursor), l, block, cursor)
    {
      var pos := cursor;
      if pos == 0 { pos := BOTTOM_ADDRESS; }
      AlignUpIsLeast(pos, l.align);
      pos := AlignUp(pos, l.align);
      var nextPos := if pos + l.size > USIZE_MAX then USIZE_MAX else pos + l.size;
      if nextPos > TOP_ADDRESS { return None; }
      cursor := nextPos;
      return Some(pos);
    }

    method Dealloc(address: nat, l: Layout)
      ensures cursor == old(cursor)
    {
    }
  }

  // ----- runs

  datatype Request = Request(layout: Layout, block: Option<nat>)

  function CursorAfter(cursor: nat, r: Request): nat {
    if r.block.Some? then r.block.value + r.layout.size else cursor
  }

  /** A run of requests with their answers, starting from the cursor word. */
  ghost predicate Run(cursor: nat, requests: seq<Request>)
    decreases |requests|
  {
    requests != [] ==>
      && ValidLayout(requests[0].layout)
      && Step(cursor, requests[0].layout, requests[0].block, CursorAfter(cursor, requests[0]))
      && Run(CursorAfter(cursor, requests[0]), requests[1..])
  }

  predicate InHeap(r: Request) {
    r.block.Some? ==> 0x3_0000_0008 <= r.block.value && r.block.value + r.layout.size <= 0x3_0004_0000
  }

  predicate Before(r: Request, s: Request) {
    r.block.Some? && s.block.Some? ==> r.block.value + r.layout.size <= s.block.value
  }

  lemma {:induction false} BlocksAboveCursor(cursor: nat, requests: seq<Request>, i: nat)
    requires ValidCursor(cursor) && Run(cursor, requests) && i < |requests|
    ensures requests[i].block.Some? ==>
              Start(cursor) <= requests[i].block.value
              && requests[i].block.value + requests[i].layout.size <= 0x3_0004_0000
              && MultipleOf(requests[i].block.value, requests[i].layout.align)
    decreases |requests|
  {
    if i > 0 {
      BlocksAboveCursor(CursorAfter(cursor, requests[0]), requests[1..], i - 1);
    }
  }

  lemma {:induction false} BlocksInOrder(cursor: nat, requests: seq<Request>, i: nat, j: nat)
    requires ValidCursor(cursor) && Run(cursor, requests) && i < j < |requests|
    ensures Before(requests[i], requests[j])
    decreases |requests|
  {
    var next := CursorAfter(cursor, requests[0]);
    if i == 0 {
      BlocksAboveCursor(next, requests[1..], j - 1);
    } else {
      BlocksInOrder(next, requests[1..], i - 1, j - 1);
    }
  }

  /**
   * Over every sequence of requests from a zeroed heap, every block is aligned, lies behind the
   * reserved word and inside the heap, and ends before every later block begins.
   */
  lemma {:induction false} AllocatorSafety(requests: seq<Request>)
    requires Run(0, requests)
    ensures forall i :: 0 <= i < |requests| ==> InHeap(requests[i])
    ensures forall i :: 0 <= i < |requests| && requests[i].block.Some?
              ==> MultipleOf(requests[i].block.value, requests[i].layout.align)
    ensures forall i, j :: 0 <= i < j < |requests| ==> Before(requests[i], requests[j])
  {
    forall i | 0 <= i < |requests|
      ensures InHeap(requests[i])
      ensures requests[i].block.Some? ==> MultipleOf(requests[i].block.value, requests[i].layout.align)
    {
      BlocksAboveCursor(0, requests, i);
    }
    forall i, j | 0 <= i < j < |requests| ensures Before(requests[i], requests[j]) {
      BlocksInOrder(0, requests, i, j);
    }
  }
}
