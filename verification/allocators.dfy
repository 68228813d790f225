/**
 Sizes: how many words a list takes, what the growing allocator asks for, and what the read limiter has left.
 */
module Allocators {
  import opened Wire
  import opened Reader
  import opened Layout
  import opened Sums

  /** `max_elements` of structs: one word of a segment is left for the tag. */
  function MaxElements(size: StructSize): u29 {
    if size.Total() == 0 then U29_MAX else (U29_MAX - 1) / size.Total()
  }

  /**
   Up to the bound the 32-bit word count is exact and the list fits a segment with its tag; above it, it
   does not fit.
   */
  lemma MaxElementsIsExact(size: StructSize, count: u29)
    ensures count <= MaxElements(size) <==> Times(count, size) + 1 <= U29_MAX
    ensures count <= MaxElements(size) ==>
              && TotalWords(CompositeShape(size, count)) == Times(count, size)
              && ObjectTotal(CompositeShape(size, count)) == Times(count, size) + 1
  {
    hide Times, TotalWords, ObjectTotal;
    TimesIsProduct(count, size);
    if size.Total() == 0 {
      ZeroTimes(count, size.Total());
    } else {
      Quotient(count, size.Total(), U29_MAX - 1);
    }
    if Times(count, size) + 1 <= U29_MAX {
      ExactTotal(size, count);
    }
  }

  /** Above the bound the 32-bit word count can wrap to nothing: such a list asks for its tag only. */
  lemma WordsWrap()
    ensures var shape := CompositeShape(StructSize(0x8000, 0x8000), 0x1_0000);
            && shape.count > MaxElements(shape.size) && Words(shape) == 0x1_0000_0000
            && TotalWords(shape) == 0 && ObjectTotal(shape) == 1 && !Fits(shape)
  {
    hide Times;
    TimesIsProduct(0x1_0000, StructSize(0x8000, 0x8000));
  }

  /** Such a list is placed in a message with one word of room, without an error and without its content. */
  lemma WrappedIsPlaced()
    ensures var shape := CompositeShape(StructSize(0x8000, 0x8000), 0x1_0000);
            var st, at := St([[NULL]], [2], 0, []), Addr(0, 0);
            && ValidSt(st) && InMem(st.mem, at) && AllocObject(st, at, shape).Placed?
            && var r := AllocObject(st, at, shape);
               && |r.st.mem| == 1 && |r.st.mem[0]| == 2
               && !Allocated(st, r.st, at, r.start, Words(shape))
  {
    WordsWrap();
    WrappedFits(St([[NULL]], [2], 0, []), Addr(0, 0), CompositeShape(StructSize(0x8000, 0x8000), 0x1_0000));
  }

  /** A list that asks for its tag only, and finds one word next to the pointer. */
  lemma WrappedFits(st: St, at: Addr, shape: Shape)
    requires ValidSt(st) && InMem(st.mem, at) && |st.mem| == 1
    requires shape.CompositeShape? && ObjectTotal(shape) == 1 && Words(shape) > U29_MAX
    requires |st.mem[0]| + 1 == st.caps[0]
    ensures var r := AllocObject(st, at, shape);
            && r.Placed? && |r.st.mem| == 1 && |r.st.mem[0]| == st.caps[0]
            && !Allocated(st, r.st, at, r.start, Words(shape))
  {
    hide Times, TotalWords, ObjectTotal, EncodeTag, PointerWord, Allocated;
    TryUseGood(st, at.seg, 1);
    RoomExactly(st, at, shape);
  }

  lemma ZeroTimes(count: nat, total: nat)
    requires total == 0
    ensures count * total == 0
  {
  }

  lemma ExactTotal(size: StructSize, count: u29)
    requires Times(count, size) + 1 <= U29_MAX
    ensures TotalWords(CompositeShape(size, count)) == Times(count, size)
    ensures ObjectTotal(CompositeShape(size, count)) == Times(count, size) + 1
  {
    hide Times;
  }

  lemma Quotient(count: nat, total: nat, bound: nat)
    requires total > 0
    ensures count <= bound / total <==> count * total <= bound
  {
    var q := bound / total;
    assert bound == q * total + bound % total;
    if count <= q {
      assert count * total <= q * total by { Monotone(count, q, total); }
    } else {
      Monotone(q + 1, count, total);
      assert (q + 1) * total == q * total + total;
    }
  }

  lemma Monotone(a: nat, b: nat, total: nat)
    requires a <= b
    ensures a * total <= b * total
  {
  }

  /** A list of plain elements always has its exact word count. */
  lemma PlainTotalIsExact(element: PtrElementSize, count: u29)
    ensures TotalWords(ListShape(element, count)) == ListWords(element, count) == (Bits(element) * count + 63) / 64
    ensures ObjectTotal(ListShape(element, count)) == ListWords(element, count) <= U29_MAX
  {
    ListWordsAreBits(element, count);
    hide ListWords;
  }

  /** `Growing`: the next segment is as large as everything before. */
  class Growing {
    const first: nat
    var nextSegment: nat
    ghost var issued: seq<nat>

    ghost predicate Valid()
      reads this
    {
      && 0 < first <= U29_MAX
      && nextSegment == (if first + Sum(issued) <= U29_MAX then first + Sum(issued) else U29_MAX)
    }

    constructor (size: nat)
      requires 0 < size <= U29_MAX
      ensures Valid() && first == size && issued == []
    {
      first, nextSegment, issued := size, size, [];
    }

    /** `alloc`: the size that is asked of the inner allocator. */
    method Alloc(size: nat) returns (allocSize: nat)
      requires Valid() && 0 < size <= U29_MAX
      modifies this
      ensures Valid() && issued == old(issued) + [allocSize]
      ensures size <= allocSize <= U29_MAX && old(nextSegment) <= allocSize
      ensures allocSize == size || allocSize == old(nextSegment)
    {
      allocSize := if size > nextSegment then size else nextSegment;
      var nextSize := if nextSegment + allocSize < U32_LIMIT then nextSegment + allocSize else U32_LIMIT - 1;
      nextSegment := if nextSize <= U29_MAX then nextSize else U29_MAX;
      assert (issued + [allocSize])[..|issued|] == issued;
      issued := issued + [allocSize];
    }
  }

  /** `ReadLimiter`. */
  class ReadLimiter {
    const initial: nat
    var limit: nat
    ghost var charged: seq<nat>

    /** What was charged and what is left make up the initial limit. */
    ghost predicate Valid()
      reads this
    {
      initial == limit + Sum(charged)
    }

    constructor (wordCount: nat)
      ensures Valid() && initial == limit == wordCount && charged == []
    {
      initial, limit, charged := wordCount, wordCount, [];
    }

    /** `try_read`: all of the words are charged, or none. */
    method TryRead(words: nat) returns (ok: bool)
      requires Valid()
      modifies this
      ensures Valid() && (ok <==> words <= old(limit))
      ensures limit == if ok then old(limit) - words else old(limit)
      ensures charged == if ok then old(charged) + [words] else old(charged)
    {
      ok := words <= limit;
      if ok {
        limit := limit - words;
        assert (charged + [words])[..|charged|] == charged;
        charged := charged + [words];
      }
    }
  }
}
