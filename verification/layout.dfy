/**
 The state of a message under construction and the allocation functions of `ObjectBuilder`.

 Segments are bump allocated: the words of a segment are its used words, and allocating appends null
 words, which is what the `Alloc` contract hands out. The segment allocator itself is not known: its
 answers are a plan, one grant or refusal for each call.
 */
module Layout {
  import opened Wire
  import opened Reader
  import opened Values

  const MAX_SEGMENTS: int := U32_LIMIT - 2

  /** One answer of the segment allocator: a segment of `extra` words more than asked for, or none. */
  datatype Grant = Refuse | Grant(extra: nat)

  datatype St = St(mem: Mem, caps: seq<nat>, last: nat, plan: seq<Grant>)

  ghost predicate ValidSt(st: St) {
    && |st.mem| == |st.caps|
    && 0 < |st.mem| <= MAX_SEGMENTS + 1
    && st.last < |st.mem|
    && forall s :: 0 <= s < |st.mem| ==> 0 < |st.mem[s]| <= st.caps[s] <= U29_MAX
  }

  function Zeros(n: nat): seq<Word> {
    seq(n, _ => NULL)
  }

  function SetWord(st: St, a: Addr, w: Word): St
    requires InMem(st.mem, a)
  {
    st.(mem := st.mem[a.seg := st.mem[a.seg][a.off := w]])
  }

  datatype Allocation = NoRoom(st: St) | Room(st: St, at: Addr)

  /** `ArenaSegment::try_use_len`. */
  function TryUse(st: St, seg: nat, n: nat): Allocation
    requires seg < |st.mem| && |st.mem| == |st.caps|
  {
    var used := |st.mem[seg]|;
    if used + n > st.caps[seg] then NoRoom(st)
    else Room(st.(mem := st.mem[seg := st.mem[seg] + Zeros(n)]), Addr(seg, used))
  }

  /** `BuildArena::alloc`: the last owned segment first, a new segment otherwise. */
  function ArenaAlloc(st: St, n: nat): Allocation
    requires st.last < |st.mem| && |st.mem| == |st.caps|
  {
    var inLast := TryUse(st, st.last, n);
    if inLast.Room? then
      inLast
    else if |st.mem| - 1 >= MAX_SEGMENTS || |st.plan| == 0 then
      NoRoom(st)
    else
      match st.plan[0]
      case Refuse => NoRoom(st.(plan := st.plan[1..]))
      case Grant(extra) =>
        var cap := if n + extra > U29_MAX then U29_MAX else n + extra;
        Room(St(st.mem + [Zeros(n)], st.caps + [cap], |st.mem|, st.plan[1..]), Addr(|st.mem|, 0))
  }

  /** `ObjectBuilder::alloc`: this segment first, the arena otherwise. */
  function AllocSomewhere(st: St, seg: nat, n: nat): Allocation
    requires seg < |st.mem| && st.last < |st.mem| && |st.mem| == |st.caps|
  {
    var here := TryUse(st, seg, n);
    if here.Room? then here else ArenaAlloc(st, n)
  }

  // ----- What an allocation changes

  /** A state that extends another by null words and nothing else. */
  ghost predicate Extends(st: St, st': St) {
    && ValidSt(st')
    && Keeps(st.mem, st'.mem, iset{})
    && forall a :: InMem(st'.mem, a) && !InMem(st.mem, a) ==> At(st'.mem, a) == NULL
  }

  /** `n` words from `at` on are in `mem` but were not in `before`. */
  ghost predicate Fresh(before: Mem, mem: Mem, at: Addr, n: nat) {
    && at.seg < |mem|
    && at.off + n <= |mem[at.seg]|
    && (at.seg < |before| ==> |before[at.seg]| <= at.off)
  }

  ghost predicate GoodAllocation(st: St, n: nat, r: Allocation) {
    && Extends(st, r.st)
    && (r.Room? ==>
          && Fresh(st.mem, r.st.mem, r.at, n)
          && |r.st.mem[r.at.seg]| == r.at.off + n)
  }

  lemma TryUseGood(st: St, seg: nat, n: nat)
    requires ValidSt(st) && seg < |st.mem|
    ensures GoodAllocation(st, n, TryUse(st, seg, n))
    ensures TryUse(st, seg, n).Room? ==> TryUse(st, seg, n).at.seg == seg
    ensures TryUse(st, seg, n).NoRoom? ==> TryUse(st, seg, n).st == st
  {
  }

  lemma ArenaAllocGood(st: St, n: nat)
    requires ValidSt(st) && 0 < n <= U29_MAX
    ensures GoodAllocation(st, n, ArenaAlloc(st, n))
  {
    hide TryUse;
    TryUseGood(st, st.last, n);
  }

  lemma AllocSomewhereGood(st: St, seg: nat, n: nat)
    requires ValidSt(st) && seg < |st.mem| && 0 < n <= U29_MAX
    ensures GoodAllocation(st, n, AllocSomewhere(st, seg, n))
  {
    hide TryUse, ArenaAlloc;
    TryUseGood(st, seg, n);
    ArenaAllocGood(st, n);
  }

  lemma SetWordGood(st: St, a: Addr, w: Word)
    requires ValidSt(st) && InMem(st.mem, a)
    ensures ValidSt(SetWord(st, a, w))
    ensures Keeps(st.mem, SetWord(st, a, w).mem, iset{a})
    ensures InMem(SetWord(st, a, w).mem, a) && At(SetWord(st, a, w).mem, a) == w
    ensures forall b :: InMem(SetWord(st, a, w).mem, b) <==> InMem(st.mem, b)
  {
  }

  // ----- Allocating objects

  datatype Placing = Failed(st: St, error: Error) | Placed(st: St, start: Addr)

  function ElementOf(shape: Shape): PtrElementSize
    requires !shape.StructShape?
  {
    if shape.CompositeShape? then InlineComposite else shape.element
  }

  /** `ElementSize::total_words`, truncated to 32 bits as the source truncates it. */
  function TotalWords(shape: Shape): u32 {
    Words(shape) % U32_LIMIT
  }

  /** The words an object asks for: its content and the tag, added in 32 bits. */
  function ObjectTotal(shape: Shape): u32 {
    (TotalWords(shape) + (if shape.CompositeShape? then 1 else 0)) % U32_LIMIT
  }

  /** The count written in a list pointer: the word count for composites. */
  function PointerCount(shape: Shape): u29
    requires 0 < ObjectTotal(shape) <= U29_MAX
  {
    match shape
    case StructShape(_) => 0
    case ListShape(_, count) => count
    case CompositeShape(_, _) => TotalWords(shape)
  }

  /** The pointer written for an object of the given shape. */
  function PointerWord(shape: Shape, offset: i30): Word
    requires 0 < ObjectTotal(shape) <= U29_MAX
  {
    if shape.StructShape? then EncodeStruct(offset, shape.size)
    else EncodeList(offset, ElementOf(shape), PointerCount(shape))
  }

  lemma InRange(st: St, a: Addr)
    requires ValidSt(st) && InMem(st.mem, a)
    ensures a.seg < U32_LIMIT && a.off < U29_MAX
  {
  }

  /** A pointer in the segment of its content: `offset_from_end_of`. */
  function PlaceNear(st: St, at: Addr, shape: Shape, start: Addr): St
    requires ValidSt(st) && InMem(st.mem, at) && InMem(st.mem, start)
    requires 0 < ObjectTotal(shape) <= U29_MAX
  {
    InRange(st, at);
    InRange(st, start);
    SetWord(st, at, PointerWord(shape, start.off - at.off - 1))
  }

  /** A far pointer to a one-word landing pad that directly precedes the content. */
  function PlaceFar(st: St, at: Addr, shape: Shape, pad: Addr): St
    requires ValidSt(st) && InMem(st.mem, at) && InMem(st.mem, pad)
    requires 0 < ObjectTotal(shape) <= U29_MAX
  {
    InRange(st, pad);
    var far := EncodeFar(pad.seg, pad.off, false);
    SetWordGood(st, at, far);
    SetWord(SetWord(st, at, far), pad, PointerWord(shape, 0))
  }

  /** A double-far pointer: the pad refers to the content and is followed by the tag. */
  function PlaceDoubleFar(st: St, at: Addr, pad: Addr, start: Addr, tag: Word): St
    requires ValidSt(st) && InMem(st.mem, at)
    requires InMem(st.mem, pad) && InMem(st.mem, Slot(pad, 1)) && InMem(st.mem, start)
  {
    InRange(st, pad);
    InRange(st, start);
    var far := EncodeFar(pad.seg, pad.off, true);
    SetWordGood(st, at, far);
    var landing := EncodeFar(start.seg, start.off, false);
    SetWordGood(SetWord(st, at, far), pad, landing);
    SetWord(SetWord(SetWord(st, at, far), pad, landing), Slot(pad, 1), tag)
  }

  /** `ObjectBuilder::alloc_struct`. */
  function AllocStruct(st: St, at: Addr, size: StructSize): Placing
    requires ValidSt(st) && InMem(st.mem, at)
  {
    hide TryUse, ArenaAlloc, PlaceNear, PlaceFar, EncodeStruct, SetWord;
    var n := size.Total();
    if n == 0 then
      Placed(SetWord(st, at, EncodeStruct(-1, EMPTY)), at)
    else
      TryUseGood(st, at.seg, n);
      var here := TryUse(st, at.seg, n);
      if here.Room? then
        Placed(PlaceNear(here.st, at, StructShape(size), here.at), here.at)
      else
        ArenaAllocGood(st, n + 1);
        var there := ArenaAlloc(st, n + 1);
        if there.NoRoom? then Failed(there.st, AllocFailed(n + 1))
        else Placed(PlaceFar(there.st, at, StructShape(size), there.at), Slot(there.at, 1))
  }

  /** `ObjectBuilder::alloc_segment_of_list`: a double-far pad first, then a whole segment. */
  function AllocSegmentOfList(st: St, at: Addr, shape: Shape): Placing
    requires ValidSt(st) && InMem(st.mem, at) && !shape.StructShape?
  {
    hide TryUse, ArenaAlloc, AllocSomewhere, PlaceDoubleFar, EncodeList;
    AllocSomewhereGood(st, at.seg, 2);
    var pad := AllocSomewhere(st, at.seg, 2);
    if pad.NoRoom? then
      Failed(pad.st, AllocFailed(2))
    else
      ArenaAllocGood(pad.st, U29_MAX);
      var list := ArenaAlloc(pad.st, U29_MAX);
      if list.NoRoom? then
        Failed(list.st, AllocFailed(U29_MAX))
      else
        // The tag is written with the element count, composites included.
        var tag := EncodeList(0, ElementOf(shape), shape.count);
        Placed(PlaceDoubleFar(list.st, at, pad.at, list.at, tag), list.at)
  }

  /** The part of `alloc_list` that finds room and writes the pointers, before the composite tag. */
  function AllocListBody(st: St, at: Addr, shape: Shape): Placing
    requires ValidSt(st) && InMem(st.mem, at) && !shape.StructShape?
    requires 0 < ObjectTotal(shape) <= U29_MAX
  {
    hide TryUse, ArenaAlloc, PlaceNear, PlaceFar, AllocSegmentOfList;
    var n := ObjectTotal(shape);
    TryUseGood(st, at.seg, n);
    var here := TryUse(st, at.seg, n);
    if here.Room? then
      Placed(PlaceNear(here.st, at, shape, here.at), here.at)
    else if n + 1 <= U29_MAX then
      ArenaAllocGood(st, n + 1);
      var there := ArenaAlloc(st, n + 1);
      if there.NoRoom? then Failed(there.st, AllocFailed(n + 1))
      else Placed(PlaceFar(there.st, at, shape, there.at), Slot(there.at, 1))
    else
      AllocSegmentOfList(st, at, shape)
  }

  lemma AllocListBodyStart(st: St, at: Addr, shape: Shape)
    requires ValidSt(st) && InMem(st.mem, at) && !shape.StructShape?
    requires 0 < ObjectTotal(shape) <= U29_MAX
    ensures AllocListBody(st, at, shape).Placed? ==>
              InMem(AllocListBody(st, at, shape).st.mem, AllocListBody(st, at, shape).start)
  {
    hide ObjectTotal, BodyPlaced, WrittenDescription;
    AllocListBodyGood(st, at, shape);
    BodyHasStart(st, AllocListBody(st, at, shape), at, WrittenDescription(shape), ObjectTotal(shape));
  }

  lemma BodyHasStart(st: St, r: Placing, at: Addr, desc: Description, n: nat)
    requires BodyPlaced(st, r, at, desc, n) && 0 < n
    ensures r.Placed? ==> InMem(r.st.mem, r.start)
  {
    hide Linked;
  }

  /** `ObjectBuilder::alloc_list`. */
  function AllocList(st: St, at: Addr, shape: Shape): Placing
    requires ValidSt(st) && InMem(st.mem, at) && !shape.StructShape?
  {
    hide AllocListBody, EncodeList, EncodeTag, SetWord, Words;
    var n := ObjectTotal(shape);
    if n == 0 then
      Placed(SetWord(st, at, EncodeList(0, ElementOf(shape), shape.count)), Slot(at, 1))
    else if n > U29_MAX then
      Failed(st, AllocTooLarge)
    else
      var r := AllocListBody(st, at, shape);
      if r.Failed? || !shape.CompositeShape? then
        r
      else
        AllocListBodyStart(st, at, shape);
        Placed(SetWord(r.st, r.start, EncodeTag(shape.count, shape.size)), Slot(r.start, 1))
  }

  /** Allocates an object of the given shape and makes the pointer at `at` refer to it. */
  function AllocObject(st: St, at: Addr, shape: Shape): Placing
    requires ValidSt(st) && InMem(st.mem, at)
  {
    if shape.StructShape? then AllocStruct(st, at, shape.size) else AllocList(st, at, shape)
  }

  // ----- What the written pointers say

  /** What a pointer says of its object, whatever its offset. */
  datatype Description = StructOf(size: StructSize) | ListOf(element: PtrElementSize, count: u29)

  /** The content pointer describes an object that way, and from its location leads to `start`. */
  predicate Leads(content: Content, desc: Description, start: Addr) {
    match Decode(content.ptr)
    case StructPtr(offset, size) => desc == StructOf(size) && Hits(content.location, offset, start)
    case ListPtr(offset, element, count) => desc == ListOf(element, count) && Hits(content.location, offset, start)
    case _ => false
  }

  predicate Hits(location: Location, offset: i30, start: Addr) {
    match location
    case Origin(a) => a.seg == start.seg && a.off + 1 + offset == start.off
    case Direct(seg, off) => start == Addr(seg, off)
  }

  /** The pointer at `at` leads to `start`, over pads that are not in `before`. */
  ghost predicate Linked(before: Mem, mem: Mem, at: Addr, desc: Description, start: Addr) {
    && InMem(mem, at)
    && !At(mem, at).IsNull()
    && Avoids(Pads(mem, at), AllWords(before))
    && (forall a :: a in Pads(mem, at) ==> InMem(mem, a))
    && LocationOf(mem, at, Unlimited).result.Ok?
    && LocationOf(mem, at, Unlimited).lim == Unlimited
    && Leads(LocationOf(mem, at, Unlimited).result.value, desc, start)
  }

  lemma LinkedFrame(before: Mem, mem: Mem, mem': Mem, at: Addr, desc: Description, start: Addr)
    requires Linked(before, mem, at, desc, start)
    requires Grows(mem, mem') && SameAt(mem, mem', at)
    requires forall a :: a in Pads(mem, at) ==> SameAt(mem, mem', a)
    ensures Linked(before, mem', at, desc, start)
    ensures Pads(mem', at) == Pads(mem, at)
  {
    hide LocationOf, Decode, Leads;
    LocationOfFrame(mem, mem', at);
  }

  lemma LinkedFacts(before: Mem, mem: Mem, at: Addr, desc: Description, start: Addr)
    requires Linked(before, mem, at, desc, start)
    ensures InMem(mem, at) && !At(mem, at).IsNull()
    ensures forall a :: a in Pads(mem, at) ==> InMem(mem, a) && a !in AllWords(before)
  {
  }

  function DescriptionOf(shape: Shape): Description
    requires 0 < ObjectTotal(shape) <= U29_MAX
  {
    if shape.StructShape? then StructOf(shape.size) else ListOf(ElementOf(shape), PointerCount(shape))
  }

  lemma PointerWordSays(shape: Shape, offset: i30, location: Location, start: Addr)
    requires 0 < ObjectTotal(shape) <= U29_MAX
    requires Hits(location, offset, start)
    ensures Leads(Content(PointerWord(shape, offset), location), DescriptionOf(shape), start)
    ensures !PointerWord(shape, offset).IsNull()
    ensures !Decode(PointerWord(shape, offset)).FarPtr?
  {
    hide Decode, EncodeStruct, EncodeList, ListWords, Times;
    if shape.StructShape? {
      StructRoundTrip(offset, shape.size);
    } else {
      ListRoundTrip(offset, ElementOf(shape), PointerCount(shape));
    }
  }

  /** One of the words of `mem` that were allocated after `before` holds the content. */
  ghost predicate FreshSpot(before: Mem, mem: Mem, a: Addr) {
    InMem(mem, a) && !InMem(before, a)
  }

  lemma PlaceNearGood(before: Mem, st: St, at: Addr, shape: Shape, start: Addr)
    requires ValidSt(st) && InMem(st.mem, at) && InMem(st.mem, start)
    requires 0 < ObjectTotal(shape) <= U29_MAX
    requires at.seg == start.seg && at.off < start.off
    ensures var st' := PlaceNear(st, at, shape, start);
            && ValidSt(st')
            && Keeps(st.mem, st'.mem, iset{at})
            && Linked(before, st'.mem, at, DescriptionOf(shape), start)
            && Pads(st'.mem, at) == {}
  {
    hide Decode, PointerWord, DescriptionOf, Leads;
    InRange(st, at);
    InRange(st, start);
    var offset := start.off - at.off - 1;
    PointerWordSays(shape, offset, Origin(at), start);
    SetWordGood(st, at, PointerWord(shape, offset));
  }

  lemma PlaceFarGood(before: Mem, st: St, at: Addr, shape: Shape, pad: Addr)
    requires ValidSt(st) && InMem(st.mem, at) && InMem(before, at)
    requires FreshSpot(before, st.mem, pad)
    requires 0 < ObjectTotal(shape) <= U29_MAX
    ensures var st' := PlaceFar(st, at, shape, pad);
            && ValidSt(st')
            && Keeps(st.mem, st'.mem, iset{at, pad})
            && Linked(before, st'.mem, at, DescriptionOf(shape), Slot(pad, 1))
            && Pads(st'.mem, at) == {pad}
  {
    hide Decode, PointerWord, DescriptionOf, Leads, EncodeFar;
    InRange(st, pad);
    FarRoundTrip(pad.seg, pad.off, false);
    PointerWordSays(shape, 0, Origin(pad), Slot(pad, 1));
    var far := EncodeFar(pad.seg, pad.off, false);
    SetWordGood(st, at, far);
    SetWordGood(SetWord(st, at, far), pad, PointerWord(shape, 0));
  }

  lemma PlaceDoubleFarGood(before: Mem, st: St, at: Addr, pad: Addr, start: Addr, element: PtrElementSize, count: u29)
    requires ValidSt(st) && InMem(st.mem, at) && InMem(before, at)
    requires FreshSpot(before, st.mem, pad) && FreshSpot(before, st.mem, Slot(pad, 1)) && InMem(st.mem, start)
    ensures var st' := PlaceDoubleFar(st, at, pad, start, EncodeList(0, element, count));
            && ValidSt(st')
            && Keeps(st.mem, st'.mem, iset{at, pad, Slot(pad, 1)})
            && Linked(before, st'.mem, at, ListOf(element, count), start)
            && Pads(st'.mem, at) == {pad, Slot(pad, 1)}
  {
    hide Decode, EncodeFar, EncodeList;
    InRange(st, pad);
    InRange(st, start);
    FarRoundTrip(pad.seg, pad.off, true);
    FarRoundTrip(start.seg, start.off, false);
    ListRoundTrip(0, element, count);
    var far := EncodeFar(pad.seg, pad.off, true);
    SetWordGood(st, at, far);
    var landing := EncodeFar(start.seg, start.off, false);
    SetWordGood(SetWord(st, at, far), pad, landing);
    SetWordGood(SetWord(SetWord(st, at, far), pad, landing), Slot(pad, 1), EncodeList(0, element, count));
  }

  // ----- What an allocation leaves behind

  /** Only `at` changed among the old words; `n` fresh null words start at `start`. */
  ghost predicate Allocated(st: St, st': St, at: Addr, start: Addr, n: nat) {
    && ValidSt(st')
    && Keeps(st.mem, st'.mem, iset{at})
    && (n > 0 ==> Fresh(st.mem, st'.mem, start, n))
    && forall i :: 0 <= i < n ==> At(st'.mem, Slot(start, i)) == NULL
  }

  ghost predicate BodyPlaced(st: St, r: Placing, at: Addr, desc: Description, n: nat) {
    && (r.Failed? ==> Extends(st, r.st))
    && (r.Placed? ==>
          && Allocated(st, r.st, at, r.start, n)
          && Linked(st.mem, r.st.mem, at, desc, r.start)
          && forall i :: 0 <= i < n ==> Slot(r.start, i) !in Pads(r.st.mem, at))
  }

  lemma NearBody(st: St, here: Allocation, at: Addr, shape: Shape)
    requires ValidSt(st) && InMem(st.mem, at)
    requires 0 < ObjectTotal(shape) <= U29_MAX
    requires GoodAllocation(st, ObjectTotal(shape), here) && here.Room? && here.at.seg == at.seg
    ensures BodyPlaced(st, Placed(PlaceNear(here.st, at, shape, here.at), here.at), at,
                       DescriptionOf(shape), ObjectTotal(shape))
  {
    hide PlaceNear, DescriptionOf, Linked, ObjectTotal;
    PlaceNearGood(st.mem, here.st, at, shape, here.at);
  }

  lemma FarBody(st: St, there: Allocation, at: Addr, shape: Shape)
    requires ValidSt(st) && InMem(st.mem, at)
    requires 0 < ObjectTotal(shape) <= U29_MAX
    requires GoodAllocation(st, ObjectTotal(shape) + 1, there) && there.Room?
    ensures BodyPlaced(st, Placed(PlaceFar(there.st, at, shape, there.at), Slot(there.at, 1)), at,
                       DescriptionOf(shape), ObjectTotal(shape))
  {
    hide PlaceFar, DescriptionOf, Linked, ObjectTotal;
    PlaceFarGood(st.mem, there.st, at, shape, there.at);
  }

  lemma SegmentBody(st: St, at: Addr, shape: Shape)
    requires ValidSt(st) && InMem(st.mem, at) && !shape.StructShape?
    ensures BodyPlaced(st, AllocSegmentOfList(st, at, shape), at, ListOf(ElementOf(shape), shape.count), U29_MAX)
  {
    hide PlaceDoubleFar, Linked, ArenaAlloc, AllocSomewhere, EncodeList;
    AllocSomewhereGood(st, at.seg, 2);
    var pad := AllocSomewhere(st, at.seg, 2);
    if pad.Room? {
      ArenaAllocGood(pad.st, U29_MAX);
      var list := ArenaAlloc(pad.st, U29_MAX);
      if list.Room? {
        PlaceDoubleFarGood(st.mem, list.st, at, pad.at, list.at, ElementOf(shape), shape.count);
      }
    }
  }

  /** The description `alloc_list` writes: at the largest size the element count takes the word count's place. */
  function WrittenDescription(shape: Shape): Description
    requires 0 < ObjectTotal(shape) <= U29_MAX
  {
    if !shape.StructShape? && ObjectTotal(shape) == U29_MAX then ListOf(ElementOf(shape), shape.count)
    else DescriptionOf(shape)
  }

  lemma AllocListBodyGood(st: St, at: Addr, shape: Shape)
    requires ValidSt(st) && InMem(st.mem, at) && !shape.StructShape?
    requires 0 < ObjectTotal(shape) <= U29_MAX
    ensures BodyPlaced(st, AllocListBody(st, at, shape), at, WrittenDescription(shape), ObjectTotal(shape))
  {
    hide PlaceNear, PlaceFar, AllocSegmentOfList, TryUse, ArenaAlloc, Linked, Allocated, DescriptionOf, ObjectTotal;
    var n := ObjectTotal(shape);
    TryUseGood(st, at.seg, n);
    var here := TryUse(st, at.seg, n);
    if here.Room? {
      NearBody(st, here, at, shape);
    } else if n + 1 <= U29_MAX {
      ArenaAllocGood(st, n + 1);
      var there := ArenaAlloc(st, n + 1);
      if there.Room? {
        FarBody(st, there, at, shape);
      }
    } else {
      SegmentBody(st, at, shape);
    }
  }

  /** Reading back what a link leads to. */
  lemma LinkedReads(before: Mem, mem: Mem, at: Addr, shape: Shape, start: Addr)
    requires 0 < ObjectTotal(shape) <= U29_MAX && !shape.CompositeShape? && ValidShape(shape)
    requires Linked(before, mem, at, DescriptionOf(shape), start)
    requires start.seg < |mem| && start.off + Words(shape) <= |mem[start.seg]|
    ensures Resolve(mem, at) == Ok(Object(shape, start))
  {
    hide LocationOf, Decode, ListWords, ReadComposite, ObjectTotal;
  }

  lemma LinkedReadsComposite(before: Mem, mem: Mem, at: Addr, size: StructSize, count: u29, words: u29, tag: Addr)
    requires words + 1 <= U29_MAX
    requires Linked(before, mem, at, ListOf(InlineComposite, words), tag)
    requires tag.seg < |mem| && tag.off + words + 1 <= |mem[tag.seg]|
    requires At(mem, tag) == EncodeTag(count, size)
    ensures Times(count, size) <= words ==>
              Resolve(mem, at) == Ok(Object(CompositeShape(size, count), Slot(tag, 1)))
    ensures Times(count, size) > words ==> Resolve(mem, at) == Err(InlineCompositeOverrun)
  {
    TagReads(mem, tag, size, count, words);
    hide LocationOf, Decode, Times, EncodeTag, TagElementCount, TagResult;
  }

  lemma TagReads(mem: Mem, tag: Addr, size: StructSize, count: u29, words: u29)
    requires InMem(mem, tag) && At(mem, tag) == EncodeTag(count, size)
    ensures TagResult(mem, tag, words)
         == if Times(count, size) > words then Err(InlineCompositeOverrun)
            else Ok(Object(CompositeShape(size, count), Slot(tag, 1)))
  {
    TagRoundTrip(count, size);
    hide Decode, Times, EncodeTag, TagElementCount;
  }

  // ----- Allocated objects are readable, and when they are not

  /** The element size of a plain list is a plain one. */
  predicate Proper(shape: Shape) {
    shape.ListShape? ==> shape.element != InlineComposite
  }

  /**
   The shapes the builder can write so that they can be read: an inline composite list must leave room
   for its tag in a segment, and may only fill a segment completely when its elements are at most one
   word wide.
   */
  predicate Fits(shape: Shape) {
    && Proper(shape)
    && (shape.CompositeShape? ==>
          && Words(shape) + 1 <= U29_MAX
          && (Words(shape) + 1 == U29_MAX ==> shape.size.Total() <= 1))
  }

  /** A request for the shape is served readably, or refused because no segment holds that much. */
  predicate Askable(shape: Shape) {
    Fits(shape) || ObjectTotal(shape) > U29_MAX
  }

  /** The content of the shape has its room, or the request is refused. */
  predicate Bounded(shape: Shape) {
    ValidShape(shape) || ObjectTotal(shape) > U29_MAX
  }

  lemma AskableIsBounded(shape: Shape)
    requires Askable(shape)
    ensures Bounded(shape)
  {
    hide ObjectTotal, Times;
  }

  /** The pointer at `at` resolves to the object; pads and tag are new, apart from the content and from each other. */
  ghost predicate Readable(before: Mem, mem: Mem, at: Addr, shape: Shape, start: Addr) {
    && InMem(mem, at)
    && !At(mem, at).IsNull()
    && Resolve(mem, at) == Ok(Object(shape, start))
    && Avoids(Pads(mem, at) + Tags(Object(shape, start)), AllWords(before))
    && Pads(mem, at) !! Tags(Object(shape, start))
    && forall i :: 0 <= i < Words(shape) ==> Slot(start, i) !in Pads(mem, at) + Tags(Object(shape, start))
  }

  /** What allocating an object of a readable shape achieves. */
  ghost predicate ObjectPlaced(st: St, at: Addr, shape: Shape, r: Placing) {
    && (r.Failed? ==> Extends(st, r.st))
    && (r.Placed? ==>
          && Allocated(st, r.st, at, r.start, Words(shape))
          && Readable(st.mem, r.st.mem, at, shape, r.start))
  }

  lemma PlainPlaced(st: St, at: Addr, shape: Shape, r: Placing)
    requires !shape.CompositeShape? && Proper(shape) && 0 < ObjectTotal(shape) <= U29_MAX
    requires ObjectTotal(shape) == Words(shape)
    requires BodyPlaced(st, r, at, DescriptionOf(shape), ObjectTotal(shape))
    ensures ObjectPlaced(st, at, shape, r)
  {
    hide Linked, Resolve, ListWords, DescriptionOf, ObjectTotal;
    if r.Placed? {
      LinkedFacts(st.mem, r.st.mem, at, DescriptionOf(shape), r.start);
      LinkedReads(st.mem, r.st.mem, at, shape, r.start);
    }
  }

  lemma AllocStructGood(st: St, at: Addr, size: StructSize)
    requires ValidSt(st) && InMem(st.mem, at)
    ensures ObjectPlaced(st, at, StructShape(size), AllocStruct(st, at, size))
  {
    hide PlaceNear, PlaceFar, TryUse, ArenaAlloc, Linked, Allocated, Readable, DescriptionOf;
    var n := size.Total();
    if n == 0 {
      EmptyStructGood(st, at);
    } else {
      var shape := StructShape(size);
      TryUseGood(st, at.seg, n);
      var here := TryUse(st, at.seg, n);
      if here.Room? {
        NearBody(st, here, at, shape);
        PlainPlaced(st, at, shape, AllocStruct(st, at, size));
      } else {
        ArenaAllocGood(st, n + 1);
        var there := ArenaAlloc(st, n + 1);
        if there.Room? {
          FarBody(st, there, at, shape);
          PlainPlaced(st, at, shape, AllocStruct(st, at, size));
        }
      }
    }
  }

  lemma EmptyStructGood(st: St, at: Addr)
    requires ValidSt(st) && InMem(st.mem, at)
    ensures ObjectPlaced(st, at, StructShape(EMPTY), Placed(SetWord(st, at, EncodeStruct(-1, EMPTY)), at))
  {
    hide Decode, EncodeStruct;
    StructRoundTrip(-1, EMPTY);
    SetWordGood(st, at, EncodeStruct(-1, EMPTY));
  }

  lemma EmptyListGood(st: St, at: Addr, shape: Shape)
    requires ValidSt(st) && InMem(st.mem, at)
    requires shape.ListShape? && Proper(shape) && Words(shape) == 0
    ensures ObjectPlaced(st, at, shape, Placed(SetWord(st, at, EncodeList(0, shape.element, shape.count)), Slot(at, 1)))
  {
    hide Decode, EncodeList, ListWords;
    ListRoundTrip(0, shape.element, shape.count);
    SetWordGood(st, at, EncodeList(0, shape.element, shape.count));
  }

  lemma PlainListGood(st: St, at: Addr, shape: Shape)
    requires ValidSt(st) && InMem(st.mem, at)
    requires shape.ListShape? && Proper(shape)
    ensures ObjectPlaced(st, at, shape, AllocList(st, at, shape))
  {
    hide AllocListBody, Linked, ListWords, Allocated, Readable;
    ListWordsAreBits(shape.element, shape.count);
    if Words(shape) == 0 {
      EmptyListGood(st, at, shape);
    } else {
      AllocListBodyGood(st, at, shape);
      PlainPlaced(st, at, shape, AllocListBody(st, at, shape));
    }
  }

  /** Writing the tag of a composite list. */
  lemma TagWritten(st: St, at: Addr, desc: Description, r: Placing, n: nat, w: Word)
    requires r.Placed? && 0 < n && InMem(st.mem, at)
    requires BodyPlaced(st, r, at, desc, n)
    ensures InMem(r.st.mem, r.start)
    ensures var st' := SetWord(r.st, r.start, w);
            && Allocated(st, st', at, Slot(r.start, 1), n - 1)
            && Linked(st.mem, st'.mem, at, desc, r.start)
            && r.start !in AllWords(st.mem)
            && InMem(st'.mem, r.start)
            && At(st'.mem, r.start) == w
            && r.start.off + n <= |st'.mem[r.start.seg]|
            && r.start !in Pads(st'.mem, at)
            && forall i :: 0 <= i < n - 1 ==> Slot(Slot(r.start, 1), i) !in Pads(st'.mem, at)
  {
    hide Linked, Pads;
    assert Slot(r.start, 0) !in Pads(r.st.mem, at);
    SetWordGood(r.st, r.start, w);
    var st' := SetWord(r.st, r.start, w);
    LinkedFacts(st.mem, r.st.mem, at, desc, r.start);
    LinkedFrame(st.mem, r.st.mem, st'.mem, at, desc, r.start);
    forall i | 0 <= i < n - 1
      ensures At(st'.mem, Slot(Slot(r.start, 1), i)) == NULL
      ensures Slot(Slot(r.start, 1), i) !in Pads(st'.mem, at)
    {
      assert Slot(Slot(r.start, 1), i) == Slot(r.start, i + 1);
    }
  }

  lemma {:induction false} TimesAgainstCount(count: nat, size: StructSize)
    ensures size.Total() == 0 ==> Times(count, size) == 0
    ensures size.Total() == 1 ==> Times(count, size) == count
    ensures size.Total() >= 2 && count > 0 ==> Times(count, size) > count
    ensures size.Total() >= 2 ==> Times(count, size) >= count
  {
    if count > 0 {
      TimesAgainstCount(count - 1, size);
    }
  }

  lemma CompositeListGood(st: St, at: Addr, shape: Shape)
    requires ValidSt(st) && InMem(st.mem, at)
    requires shape.CompositeShape? && Fits(shape)
    ensures ObjectPlaced(st, at, shape, AllocList(st, at, shape))
  {
    hide AllocListBody, Linked, Resolve, EncodeTag, Pads, Times;
    var n := ObjectTotal(shape);
    AllocListBodyGood(st, at, shape);
    var r := AllocListBody(st, at, shape);
    if r.Placed? {
      TimesAgainstCount(shape.count, shape.size);
      var words := if n == U29_MAX then shape.count else TotalWords(shape);
      TagWritten(st, at, ListOf(InlineComposite, words), r, n, EncodeTag(shape.count, shape.size));
      var st' := SetWord(r.st, r.start, EncodeTag(shape.count, shape.size));
      LinkedFacts(st.mem, st'.mem, at, ListOf(InlineComposite, words), r.start);
      LinkedReadsComposite(st.mem, st'.mem, at, shape.size, shape.count, words, r.start);
    }
  }

  /** Every allocation either changes nothing but unused words, or makes the pointer readable. */
  lemma AllocObjectGood(st: St, at: Addr, shape: Shape)
    requires ValidSt(st) && InMem(st.mem, at) && Askable(shape)
    ensures ObjectPlaced(st, at, shape, AllocObject(st, at, shape))
  {
    hide AllocStruct, AllocList, ObjectPlaced, ListWords, Times, ObjectTotal;
    if shape.StructShape? {
      AllocStructGood(st, at, shape.size);
    } else if !Fits(shape) {
      TooLargeRefused(st, at, shape);
    } else if shape.ListShape? {
      PlainListGood(st, at, shape);
    } else {
      CompositeListGood(st, at, shape);
    }
  }

  lemma TooLargeRefused(st: St, at: Addr, shape: Shape)
    requires ValidSt(st) && InMem(st.mem, at) && ObjectTotal(shape) > U29_MAX && !shape.StructShape?
    ensures AllocObject(st, at, shape).Failed? && AllocObject(st, at, shape).st == st
    ensures ObjectPlaced(st, at, shape, AllocObject(st, at, shape))
  {
    hide ObjectTotal, AllocListBody;
  }

  /**
   The same without asking for readability: for every shape a message can hold the content has its room,
   even where the written pointers do not lead to it.
   */
  lemma AllocObjectSafe(st: St, at: Addr, shape: Shape)
    requires ValidSt(st) && InMem(st.mem, at) && Bounded(shape)
    ensures var r := AllocObject(st, at, shape);
            && (r.Failed? ==> Extends(st, r.st))
            && (r.Placed? ==> Allocated(st, r.st, at, r.start, Words(shape)))
  {
    hide AllocStruct, AllocListBody, Linked, Resolve, EncodeTag, Pads, Times, ListWords, SetWord;
    if Askable(shape) {
      AllocObjectGood(st, at, shape);
    } else {
      var n := ObjectTotal(shape);
      AllocListBodyGood(st, at, shape);
      var r := AllocListBody(st, at, shape);
      if r.Placed? {
        TagWritten(st, at, WrittenDescription(shape), r, n, EncodeTag(shape.count, shape.size));
      }
    }
  }

  /** A composite list whose 32-bit total is zero reads back two words past the pointer, if at all. */
  lemma WrappedListUnreadable(mem: Mem, at: Addr, count: u29, start: Addr)
    requires InMem(mem, at) && At(mem, at) == EncodeList(0, InlineComposite, count)
    ensures forall shape :: Resolve(mem, at) != Ok(Object(shape, Slot(at, 1)))
  {
    hide EncodeList, Decode, Times, TagElementCount;
    ListRoundTrip(0, InlineComposite, count);
  }

  lemma UnfitReadBack(st: St, at: Addr, shape: Shape)
    requires ValidSt(st) && InMem(st.mem, at) && Proper(shape) && !Fits(shape) && ObjectTotal(shape) > 0
    requires AllocObject(st, at, shape).Placed?
    ensures var r := AllocObject(st, at, shape);
            InMem(r.st.mem, at) && Resolve(r.st.mem, at) != Ok(Object(shape, r.start))
  {
    hide AllocListBody, Linked, Resolve, EncodeTag, Pads, Times, AllocStruct, SetWord;
    var n := ObjectTotal(shape);
    AllocListBodyGood(st, at, shape);
    var r := AllocListBody(st, at, shape);
    TimesAgainstCount(shape.count, shape.size);
    var words := if n == U29_MAX then shape.count else TotalWords(shape);
    TagWritten(st, at, ListOf(InlineComposite, words), r, n, EncodeTag(shape.count, shape.size));
    var st' := SetWord(r.st, r.start, EncodeTag(shape.count, shape.size));
    LinkedFacts(st.mem, st'.mem, at, ListOf(InlineComposite, words), r.start);
    if words + 1 <= U29_MAX {
      LinkedReadsComposite(st.mem, st'.mem, at, shape.size, shape.count, words, r.start);
    } else {
      TooManyWords(st.mem, st'.mem, at, words, r.start);
    }
  }

  /**
   The exact limit of `alloc_list`: when it succeeds, the pointer resolves to the object that was asked
   for if and only if the shape fits. Otherwise the 32-bit word count was truncated, or the double-far
   tag holds the element count of a list of wider elements.
   */
  lemma ReadBackExactly(st: St, at: Addr, shape: Shape)
    requires ValidSt(st) && InMem(st.mem, at) && Proper(shape)
    requires AllocObject(st, at, shape).Placed?
    ensures var r := AllocObject(st, at, shape);
            InMem(r.st.mem, at) && (Resolve(r.st.mem, at) == Ok(Object(shape, r.start)) <==> Fits(shape))
  {
    hide Linked, Resolve, EncodeTag, EncodeList, Pads, Times, AllocStruct, SetWord;
    if Fits(shape) {
      hide AllocListBody;
      AllocObjectGood(st, at, shape);
    } else if ObjectTotal(shape) == 0 {
      SetWordGood(st, at, EncodeList(0, InlineComposite, shape.count));
      var st' := SetWord(st, at, EncodeList(0, InlineComposite, shape.count));
      WrappedListUnreadable(st'.mem, at, shape.count, Slot(at, 1));
    } else {
      hide *;
      UnfitReadBack(st, at, shape);
    }
  }

  /**
   The exact limit of the room: when `alloc_object` succeeds, the content has its room, fresh and zeroed, if and
   only if a message can hold the shape. Otherwise the 32-bit word count was truncated.
   */
  lemma RoomExactly(st: St, at: Addr, shape: Shape)
    requires ValidSt(st) && InMem(st.mem, at) && Proper(shape)
    requires AllocObject(st, at, shape).Placed?
    ensures var r := AllocObject(st, at, shape);
            Allocated(st, r.st, at, r.start, Words(shape)) <==> ValidShape(shape)
  {
    hide AllocStruct, AllocListBody, EncodeTag, EncodeList, Times, SetWord, TotalWords;
    var r := AllocObject(st, at, shape);
    if ValidShape(shape) {
      AllocObjectSafe(st, at, shape);
    } else {
      assert r.start.off > 0;
    }
  }

  lemma TooManyWords(before: Mem, mem: Mem, at: Addr, words: u29, tag: Addr)
    requires words == U29_MAX
    requires Linked(before, mem, at, ListOf(InlineComposite, words), tag)
    ensures Resolve(mem, at) == Err(PointerOutOfBounds)
  {
    hide LocationOf, Decode;
  }
}
