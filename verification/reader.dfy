/**
 Reading pointers out of arbitrary words: `ObjectReader` of the source.

 A memory is a sequence of segments, each a sequence of words. A segment of a message that is being
 built is seen up to its used length, as `ReadArena::segment` hands it out.
 */
module Reader {
  import opened Wire

  type Mem = seq<seq<Word>>

  datatype Addr = Addr(seg: nat, off: nat)

  predicate InMem(mem: Mem, a: Addr) {
    a.seg < |mem| && a.off < |mem[a.seg]|
  }

  function At(mem: Mem, a: Addr): Word
    requires InMem(mem, a)
  {
    mem[a.seg][a.off]
  }

  /** What an object looks like: a struct, a list of plain elements, or a list of inline composites. */
  datatype Shape =
    | StructShape(size: StructSize)
    | ListShape(element: PtrElementSize, count: u29)
    | CompositeShape(size: StructSize, count: u29)

  function Bits(element: PtrElementSize): nat {
    match element
    case Void => 0
    case Bit => 1
    case Byte => 8
    case TwoBytes => 16
    case FourBytes => 32
    case EightBytes => 64
    case Pointer => 64
    case InlineComposite => 0
  }

  /** `Word::round_up_bit_count` of the bits of `count` elements, element size by element size. */
  function ListWords(element: PtrElementSize, count: nat): nat {
    match element
    case Void => 0
    case Bit => (count + 63) / 64
    case Byte => (count + 7) / 8
    case TwoBytes => (count + 3) / 4
    case FourBytes => (count + 1) / 2
    case EightBytes => count
    case Pointer => count
    case InlineComposite => 0
  }

  /** The number of content words, the tag of a composite list not included. */
  function Words(shape: Shape): nat {
    match shape
    case StructShape(size) => size.Total()
    case ListShape(element, count) => ListWords(element, count)
    case CompositeShape(size, count) => Times(count, size)
  }

  /** The words of `count` structs laid end to end. */
  function Times(count: nat, size: StructSize): nat {
    if count == 0 then 0 else Times(count - 1, size) + size.Total()
  }

  /** Whether word `i` of structs laid end to end is a pointer. */
  predicate IsPtrOfStructs(size: StructSize, i: nat) {
    if i < size.Total() then size.data <= i
    else size.Total() > 0 && IsPtrOfStructs(size, i - size.Total())
  }

  /** Whether content word `i` is a pointer. */
  predicate IsPtrSlot(shape: Shape, i: nat) {
    match shape
    case StructShape(size) => size.data <= i
    case ListShape(element, _) => element == Pointer
    case CompositeShape(size, _) => IsPtrOfStructs(size, i)
  }

  /** A shape a message can hold: a composite list has room for its tag in a segment. */
  predicate ValidShape(shape: Shape) {
    match shape
    case StructShape(_) => true
    case ListShape(element, _) => element != InlineComposite
    case CompositeShape(size, count) => Times(count, size) + 1 <= U29_MAX
  }

  datatype Error =
    | MissingSegment(segment: nat)
    | PointerOutOfBounds
    | ReadLimitExceeded
    | NestingLimitExceeded
    | UnexpectedRead
    | UnsupportedInlineCompositeElementTag
    | InlineCompositeOverrun
    | AllocFailed(words: nat)
    | AllocTooLarge

  datatype Result<+T> = Ok(value: T) | Err(error: Error)

  /** `Option<&ReadLimiter>` with the words the limiter still allows. */
  datatype Limiter = Unlimited | Limited(left: nat) {
    predicate Allows(words: nat) {
      Limited? ==> words <= left
    }

    function Charge(words: nat): Limiter
      requires Allows(words)
    {
      if Limited? then Limited(left - words) else Unlimited
    }

    /** The words charged on the way from this limiter to `later`. */
    function Spent(later: Limiter): int {
      if Limited? && later.Limited? then left - later.left else 0
    }

    /** `later` can be reached from this limiter by charging it. */
    predicate AtLeast(later: Limiter) {
      if Limited? then later.Limited? && later.left <= left else later.Unlimited?
    }
  }

  datatype Reading<+T> = Reading(result: Result<T>, lim: Limiter)

  /** `Location`: near and far content is found from the end of a pointer, double-far content directly. */
  datatype Location = Origin(at: Addr) | Direct(seg: u32, off: u29)

  datatype Content = Content(ptr: Word, location: Location)

  datatype Target = Object(shape: Shape, start: Addr) | Capability(index: u32)

  /** `try_get_section` followed by the charge both read functions make. */
  function ReadSection(mem: Mem, seg: nat, start: int, len: nat, lim: Limiter): Reading<Addr> {
    if seg >= |mem| then
      Reading(Err(MissingSegment(seg)), lim)
    else if start < 0 || start + len > |mem[seg]| then
      Reading(Err(PointerOutOfBounds), lim)
    else if !lim.Allows(len) then
      Reading(Err(ReadLimitExceeded), lim)
    else
      Reading(Ok(Addr(seg, start)), lim.Charge(len))
  }

  function ReadContent(mem: Mem, location: Location, offset: i30, len: nat, lim: Limiter): Reading<Addr> {
    match location
    case Origin(at) => ReadSection(mem, at.seg, at.off + 1 + offset, len, lim)
    case Direct(seg, off) => ReadSection(mem, seg, off, len, lim)
  }

  function LocationOf(mem: Mem, at: Addr, lim: Limiter): Reading<Content>
    requires InMem(mem, at)
  {
    match Decode(At(mem, at))
    case FarPtr(padOff, double, segment) =>
      var pad := ReadSection(mem, segment, padOff, if double then 2 else 1, lim);
      if pad.result.Err? then
        Reading(Err(pad.result.error), pad.lim)
      else
        var padWord := mem[segment][padOff];
        if double then
          match Decode(padWord)
          case FarPtr(off, _, seg) => Reading(Ok(Content(mem[segment][padOff + 1], Direct(seg, off))), pad.lim)
          case _ => Reading(Err(UnexpectedRead), pad.lim)
        else
          Reading(Ok(Content(padWord, Origin(Addr(segment, padOff)))), pad.lim)
    case _ => Reading(Ok(Content(At(mem, at), Origin(at))), lim)
  }

  function ReadStruct(mem: Mem, location: Location, offset: i30, size: StructSize, lim: Limiter): Reading<Target> {
    var start := ReadContent(mem, location, offset, size.Total(), lim);
    if start.result.Err? then Reading(Err(start.result.error), start.lim)
    else Reading(Ok(Object(StructShape(size), start.result.value)), start.lim)
  }

  /** What the tag of an inline composite list says it is. */
  function TagResult(mem: Mem, first: Addr, wordCount: u29): Result<Target>
    requires InMem(mem, first)
  {
    var tag := At(mem, first);
    match Decode(tag)
    case StructPtr(_, size) =>
      var count := TagElementCount(tag);
      if Times(count, size) > wordCount then Err(InlineCompositeOverrun)
      else Ok(Object(CompositeShape(size, count), first.(off := first.off + 1)))
    case _ => Err(UnsupportedInlineCompositeElementTag)
  }

  /** The count of a list of empty structs, which is charged for it. */
  function EmptyCount(result: Result<Target>): nat {
    if result.Ok? && result.value.Object? && result.value.shape.CompositeShape?
       && result.value.shape.size.Total() == 0
    then result.value.shape.count else 0
  }

  function ReadTag(mem: Mem, first: Addr, wordCount: u29, lim: Limiter): Reading<Target>
    requires InMem(mem, first)
  {
    var result := TagResult(mem, first, wordCount);
    if lim.Allows(EmptyCount(result)) then Reading(result, lim.Charge(EmptyCount(result)))
    else Reading(Err(ReadLimitExceeded), lim)
  }

  function ReadComposite(mem: Mem, location: Location, offset: i30, wordCount: u29, lim: Limiter): Reading<Target> {
    if wordCount + 1 > U29_MAX then
      Reading(Err(PointerOutOfBounds), lim)
    else
      var section := ReadContent(mem, location, offset, wordCount + 1, lim);
      if section.result.Err? then Reading(Err(section.result.error), section.lim)
      else ReadTag(mem, section.result.value, wordCount, section.lim)
  }

  function ReadList(mem: Mem, location: Location, offset: i30, element: PtrElementSize, count: u29, lim: Limiter)
    : Reading<Target>
  {
    if element == InlineComposite then
      ReadComposite(mem, location, offset, count, lim)
    else if element == Void && !lim.Allows(count) then
      Reading(Err(ReadLimitExceeded), lim)
    else
      var shape := ListShape(element, count);
      var amplified := if element == Void then lim.Charge(count) else lim;
      var start := ReadContent(mem, location, offset, Words(shape), amplified);
      if start.result.Err? then Reading(Err(start.result.error), start.lim)
      else Reading(Ok(Object(shape, start.result.value)), start.lim)
  }

  /** `try_read_typed`. */
  function TryReadTyped(mem: Mem, at: Addr, lim: Limiter): Reading<Target>
    requires InMem(mem, at)
  {
    var content := LocationOf(mem, at, lim);
    if content.result.Err? then
      Reading(Err(content.result.error), content.lim)
    else
      var Content(ptr, location) := content.result.value;
      match Decode(ptr)
      case StructPtr(offset, size) => ReadStruct(mem, location, offset, size, content.lim)
      case ListPtr(offset, element, count) => ReadList(mem, location, offset, element, count, content.lim)
      case CapabilityPtr(index) => Reading(Ok(Capability(index)), content.lim)
      case _ => Reading(Err(UnexpectedRead), content.lim)
  }

  /** What a pointer resolves to when no limiter is attached. */
  function Resolve(mem: Mem, at: Addr): Result<Target>
    requires InMem(mem, at)
  {
    TryReadTyped(mem, at, Unlimited).result
  }

  /** The word of the object that precedes its content: only composite lists have one. */
  function TagWords(target: Target): nat {
    if target.Object? && target.shape.CompositeShape? then 1 else 0
  }

  /** Content lies inside one segment of the memory, tag included. */
  predicate Within(mem: Mem, target: Target) {
    target.Object? ==>
      && target.start.seg < |mem|
      && TagWords(target) <= target.start.off
      && target.start.off + Words(target.shape) <= |mem[target.start.seg]|
  }

  lemma ListWordsAreBits(element: PtrElementSize, count: nat)
    ensures ListWords(element, count) == (Bits(element) * count + 63) / 64
    ensures ListWords(element, count) <= count
  {
    match element
    case Void =>
    case Bit =>
    case Byte =>
    case TwoBytes =>
    case FourBytes =>
    case EightBytes =>
    case Pointer =>
    case InlineComposite =>
  }

  /** What every reading promises: the limiter went down by at least the words of the accepted object. */
  predicate SoundReading(mem: Mem, lim: Limiter, reading: Reading<Target>) {
    && lim.AtLeast(reading.lim)
    && (reading.result.Ok? ==>
          var target := reading.result.value;
          && Within(mem, target)
          && (target.Object? ==> ValidShape(target.shape))
          && (target.Object? && lim.Limited? ==>
                lim.Spent(reading.lim) >= Words(target.shape) + TagWords(target)))
  }

  lemma ReadContentSound(mem: Mem, location: Location, offset: i30, len: nat, lim: Limiter)
    ensures var r := ReadContent(mem, location, offset, len, lim);
            && lim.AtLeast(r.lim)
            && (r.result.Ok? ==>
                  && r.result.value.seg < |mem|
                  && r.result.value.off + len <= |mem[r.result.value.seg]|
                  && lim.Allows(len) && r.lim == lim.Charge(len))
  {
  }

  lemma LocationOfSound(mem: Mem, at: Addr, lim: Limiter)
    requires InMem(mem, at)
    ensures lim.AtLeast(LocationOf(mem, at, lim).lim)
  {
    hide Decode;
  }

  lemma ReadStructSound(mem: Mem, location: Location, offset: i30, size: StructSize, lim: Limiter)
    ensures SoundReading(mem, lim, ReadStruct(mem, location, offset, size, lim))
  {
    hide ReadContent;
    ReadContentSound(mem, location, offset, size.Total(), lim);
  }

  lemma ReadCompositeSound(mem: Mem, location: Location, offset: i30, wordCount: u29, lim: Limiter)
    ensures SoundReading(mem, lim, ReadComposite(mem, location, offset, wordCount, lim))
  {
    hide ReadContent, Times, Decode, TagElementCount;
    if wordCount + 1 <= U29_MAX {
      ReadContentSound(mem, location, offset, wordCount + 1, lim);
    }
  }

  lemma ReadListSound(mem: Mem, location: Location, offset: i30, element: PtrElementSize, count: u29, lim: Limiter)
    ensures SoundReading(mem, lim, ReadList(mem, location, offset, element, count, lim))
  {
    hide ReadContent, ReadComposite, ListWords;
    if element == InlineComposite {
      ReadCompositeSound(mem, location, offset, count, lim);
    } else if element != Void || lim.Allows(count) {
      var amplified := if element == Void then lim.Charge(count) else lim;
      ReadContentSound(mem, location, offset, ListWords(element, count), amplified);
    }
  }

  /**
   Whatever the words are: an accepted object has a valid shape and lies inside the one region that
   was checked, and the limiter has been charged for all of that region and only ever goes down.
   */
  lemma ReaderSound(mem: Mem, at: Addr, lim: Limiter)
    requires InMem(mem, at)
    ensures SoundReading(mem, lim, TryReadTyped(mem, at, lim))
  {
    hide LocationOf, ReadStruct, ReadList, Decode, Words, ValidShape;
    LocationOfSound(mem, at, lim);
    var content := LocationOf(mem, at, lim);
    if content.result.Ok? {
      var Content(ptr, location) := content.result.value;
      match Decode(ptr)
      case StructPtr(offset, size) => ReadStructSound(mem, location, offset, size, content.lim);
      case ListPtr(offset, element, count) => ReadListSound(mem, location, offset, element, count, content.lim);
      case _ =>
    }
  }

  /** A reading under a limiter against the same reading without one. */
  predicate OnlyRefuses<T(==)>(limited: Reading<T>, free: Reading<T>) {
    free.lim == Unlimited && (limited.result == free.result || limited.result == Err(ReadLimitExceeded))
  }

  lemma LimiterOnlyRefusesContent(mem: Mem, location: Location, offset: i30, ptr: WirePtr, lim: Limiter)
    requires ptr.StructPtr? || ptr.ListPtr?
    ensures ptr.StructPtr? ==>
              OnlyRefuses(ReadStruct(mem, location, offset, ptr.size, lim),
                          ReadStruct(mem, location, offset, ptr.size, Unlimited))
    ensures ptr.ListPtr? ==>
              OnlyRefuses(ReadList(mem, location, offset, ptr.element, ptr.count, lim),
                          ReadList(mem, location, offset, ptr.element, ptr.count, Unlimited))
  {
    hide ListWords, Times, Decode, TagElementCount;
  }

  lemma LimiterOnlyRefusesLocation(mem: Mem, at: Addr, lim: Limiter)
    requires InMem(mem, at)
    ensures OnlyRefuses(LocationOf(mem, at, lim), LocationOf(mem, at, Unlimited))
  {
    hide Decode;
  }

  /** Attaching a limiter can only turn a reading into `ReadLimitExceeded`. */
  lemma LimiterOnlyRefuses(mem: Mem, at: Addr, lim: Limiter)
    requires InMem(mem, at)
    ensures OnlyRefuses(TryReadTyped(mem, at, lim), TryReadTyped(mem, at, Unlimited))
  {
    hide LocationOf, ReadStruct, ReadList, Decode;
    LimiterOnlyRefusesLocation(mem, at, lim);
    var free := LocationOf(mem, at, Unlimited);
    if free.result.Ok? {
      var Content(ptr, location) := free.result.value;
      var wire := Decode(ptr);
      if wire.StructPtr? || wire.ListPtr? {
        LimiterOnlyRefusesContent(mem, location, wire.offset, wire, LocationOf(mem, at, lim).lim);
      }
    }
  }

  lemma {:induction false} TimesIsProduct(count: nat, size: StructSize)
    ensures Times(count, size) == count * size.Total()
  {
    if count > 0 {
      TimesIsProduct(count - 1, size);
      Distribute(count, size.Total());
    }
  }

  lemma Distribute(count: nat, total: nat)
    requires count > 0
    ensures (count - 1) * total + total == count * total
  {
  }

  lemma {:induction false} TimesMonotone(index: nat, count: nat, size: StructSize)
    requires index <= count
    ensures Times(index, size) + (if index < count then size.Total() else 0) <= Times(count, size)
  {
    if index < count {
      TimesMonotone(index, count - 1, size);
    }
  }

  lemma {:induction false} SlotOfElement(index: nat, size: StructSize, j: nat)
    requires j < size.Total()
    ensures IsPtrOfStructs(size, Times(index, size) + j) <==> size.data <= j
  {
    if index > 0 {
      SlotOfElement(index - 1, size, j);
    }
  }

  /** Structs without data are all pointers, structs without pointers have none. */
  lemma PureComposites(size: StructSize)
    ensures size.data == 0 && size.ptrs > 0 ==> forall i: nat :: IsPtrOfStructs(size, i)
    ensures size.ptrs == 0 ==> forall i: nat :: !IsPtrOfStructs(size, i)
  {
    forall i: nat
      ensures size.data == 0 && size.ptrs > 0 ==> IsPtrOfStructs(size, i)
      ensures size.ptrs == 0 ==> !IsPtrOfStructs(size, i)
    {
      PureComposite(size, i);
    }
  }

  lemma {:induction false} PureComposite(size: StructSize, i: nat)
    ensures size.data == 0 && size.ptrs > 0 ==> IsPtrOfStructs(size, i)
    ensures size.ptrs == 0 ==> !IsPtrOfStructs(size, i)
    decreases i
  {
    if size.Total() > 0 && i >= size.Total() {
      PureComposite(size, i - size.Total());
    }
  }

  /** Word `k` of an object is one of the words whose bounds were checked. */
  predicate WordIn(mem: Mem, target: Target, k: int)
    requires target.Object?
  {
    0 <= k < Words(target.shape) && InMem(mem, target.start.(off := target.start.off + k))
  }

  /** Pointer field `index`, list element `index` or word `j` of composite `index` lies in the object. */
  predicate ElementIn(mem: Mem, target: Target, index: nat, j: nat)
    requires target.Object?
  {
    match target.shape
    case StructShape(size) =>
      index < size.ptrs ==>
        WordIn(mem, target, size.data + index) && IsPtrSlot(target.shape, size.data + index)
    case ListShape(element, count) =>
      index < count && Bits(element) > 0 ==>
        && WordIn(mem, target, Bits(element) * index / 64)
        && WordIn(mem, target, (Bits(element) * (index + 1) - 1) / 64)
    case CompositeShape(size, count) =>
      index < count && j < size.Total() ==>
        && WordIn(mem, target, Times(index, size) + j)
        && (IsPtrSlot(target.shape, Times(index, size) + j) <==> size.data <= j)
  }

  /** Every field slot and element of an accepted object was inside the region that was bounds-checked. */
  lemma ElementInside(mem: Mem, at: Addr, lim: Limiter, index: nat, j: nat)
    requires InMem(mem, at)
    requires TryReadTyped(mem, at, lim).result.Ok? && TryReadTyped(mem, at, lim).result.value.Object?
    ensures ElementIn(mem, TryReadTyped(mem, at, lim).result.value, index, j)
  {
    hide TryReadTyped;
    ReaderSound(mem, at, lim);
    var Object(shape, start) := TryReadTyped(mem, at, lim).result.value;
    match shape
    case StructShape(_) =>
    case ListShape(element, count) =>
      if index < count && Bits(element) > 0 {
        LastWordOfElement(element, index, count);
      }
    case CompositeShape(size, count) =>
      if index < count && j < size.Total() {
        SlotOfElement(index, size, j);
        TimesMonotone(index, count, size);
      }
  }

  lemma LastWordOfElement(element: PtrElementSize, index: nat, count: nat)
    requires index < count && Bits(element) > 0
    ensures 0 <= Bits(element) * index / 64 <= (Bits(element) * (index + 1) - 1) / 64 < ListWords(element, count)
  {
    match element
    case Bit =>
    case Byte =>
    case TwoBytes =>
    case FourBytes =>
    case _ =>
  }
}
