/**
 What a pointer refers to, as the encoding has it: reading accepts exactly these pointers, and says what they
 refer to.
 */
module Designation {
  import opened Wire
  import opened Reader
  import opened ReadCosts

  /** The word that describes the content, and where that is: behind the word itself, or where a pad says. */
  ghost predicate PointsBy(mem: Mem, at: Addr, ptr: Word, location: Location)
    requires InMem(mem, at)
  {
    || Near(mem, at, ptr, location)
    || (exists pad: Addr :: OneWordPad(mem, at, pad, ptr, location))
    || exists pad: Addr :: TwoWordPad(mem, at, pad, ptr, location)
  }

  predicate IsFar(w: Word) {
    w.lower % 4 == 2
  }

  predicate Near(mem: Mem, at: Addr, ptr: Word, location: Location)
    requires InMem(mem, at)
  {
    !IsFar(At(mem, at)) && ptr == At(mem, at) && location == Origin(at)
  }

  predicate PadAt(mem: Mem, at: Addr, pad: Addr, double: bool)
    requires InMem(mem, at)
  {
    InMem(mem, pad) && pad.seg < U32_LIMIT && pad.off <= U29_MAX && At(mem, at) == EncodeFar(pad.seg, pad.off, double)
  }

  /** A landing pad of one word is a pointer to what follows it at some offset. */
  predicate OneWordPad(mem: Mem, at: Addr, pad: Addr, ptr: Word, location: Location)
    requires InMem(mem, at)
  {
    PadAt(mem, at, pad, false) && ptr == At(mem, pad) && location == Origin(pad)
  }

  /** One of two words is a far pointer to the content, and a pointer without regard to its offset. */
  predicate TwoWordPad(mem: Mem, at: Addr, pad: Addr, ptr: Word, location: Location)
    requires InMem(mem, at)
  {
    && PadAt(mem, at, pad, true)
    && var second := pad.(off := pad.off + 1);
       && InMem(mem, second) && ptr == At(mem, second) && location.Direct?
       && (At(mem, pad) == EncodeFar(location.seg, location.off, false)
           || At(mem, pad) == EncodeFar(location.seg, location.off, true))
  }

  /** `n` words of a segment from `start` on, which is where the offset leads. */
  predicate Found(mem: Mem, location: Location, offset: i30, start: Addr, n: nat) {
    && start == (match location
                 case Origin(at) => Addr(at.seg, if at.off + 1 + offset < 0 then 0 else at.off + 1 + offset)
                 case Direct(seg, off) => Addr(seg, off))
    && (location.Origin? ==> location.at.off + 1 + offset >= 0)
    && start.seg < |mem| && start.off + n <= |mem[start.seg]|
  }

  predicate IsStruct(mem: Mem, ptr: Word, location: Location, size: StructSize, start: Addr, offset: i30) {
    ptr == EncodeStruct(offset, size) && Found(mem, location, offset, start, size.Total())
  }

  predicate IsPlainList(mem: Mem, ptr: Word, location: Location, element: PtrElementSize, count: u29, start: Addr,
                        offset: i30)
  {
    && element != InlineComposite && ptr == EncodeList(offset, element, count)
    && Found(mem, location, offset, start, (Bits(element) * count + 63) / 64)
  }

  /** The list pointer has the number of content words, the tag before them that of the structs. */
  predicate IsComposites(mem: Mem, ptr: Word, location: Location, size: StructSize, count: u29, start: Addr,
                         offset: i30, words: u29)
  {
    && ptr == EncodeList(offset, InlineComposite, words) && words < U29_MAX
    && start.off > 0 && Found(mem, location, offset, start.(off := start.off - 1), words + 1)
    && Tagged(mem, start, size, count) && count * size.Total() <= words
  }

  /** The top bit of the lower half of a tag is not looked at. */
  predicate Tagged(mem: Mem, start: Addr, size: StructSize, count: u29)
    requires start.off > 0
  {
    var at, tag := start.(off := start.off - 1), EncodeTag(count, size);
    && InMem(mem, at) && At(mem, at).upper == tag.upper
    && (At(mem, at).lower == tag.lower || At(mem, at).lower == tag.lower + 0x8000_0000)
  }

  ghost predicate Describes(mem: Mem, ptr: Word, location: Location, target: Target) {
    match target
    case Capability(index) => ptr == EncodeCapability(index)
    case Object(StructShape(size), start) => exists offset: i30 :: IsStruct(mem, ptr, location, size, start, offset)
    case Object(ListShape(element, count), start) =>
      exists offset: i30 :: IsPlainList(mem, ptr, location, element, count, start, offset)
    case Object(CompositeShape(size, count), start) =>
      exists offset: i30, words: u29 :: IsComposites(mem, ptr, location, size, count, start, offset, words)
  }

  /** The pointer at `at` refers to `target`. */
  ghost predicate Designates(mem: Mem, at: Addr, target: Target)
    requires InMem(mem, at)
  {
    exists ptr: Word, location: Location :: PointsBy(mem, at, ptr, location) && Describes(mem, ptr, location, target)
  }

  lemma PointsByExactly(mem: Mem, at: Addr, ptr: Word, location: Location)
    requires InMem(mem, at)
    ensures LocationOf(mem, at, Unlimited).result == Ok(Content(ptr, location)) <==> PointsBy(mem, at, ptr, location)
  {
    hide PadAt, OneWordPad, TwoWordPad;
    FarExactly(At(mem, at));
    if IsFar(At(mem, at)) {
      var FarPtr(off, double, segment) := Decode(At(mem, at));
      var pad := Addr(segment, off);
      forall other: Addr
        ensures OneWordPad(mem, at, other, ptr, location) ==> other == pad
        ensures TwoWordPad(mem, at, other, ptr, location) ==> other == pad
      {
        PadIs(mem, at, other, ptr, location);
      }
      PadReads(mem, at, pad, ptr, location);
    } else {
      forall other: Addr
        ensures !OneWordPad(mem, at, other, ptr, location) && !TwoWordPad(mem, at, other, ptr, location)
      {
        PadIs(mem, at, other, ptr, location);
      }
    }
  }

  lemma FarExactly(w: Word)
    ensures IsFar(w) <==> Decode(w).FarPtr?
    ensures IsFar(w) ==> w == EncodeFar(Decode(w).segment, Decode(w).pad, Decode(w).double)
  {
    EncodeDecode(w);
  }

  lemma PadIs(mem: Mem, at: Addr, pad: Addr, ptr: Word, location: Location)
    requires InMem(mem, at)
    ensures OneWordPad(mem, at, pad, ptr, location) || TwoWordPad(mem, at, pad, ptr, location) ==>
              && IsFar(At(mem, at)) && pad == Addr(Decode(At(mem, at)).segment, Decode(At(mem, at)).pad)
  {
    if pad.seg < U32_LIMIT && pad.off <= U29_MAX {
      FarRoundTrip(pad.seg, pad.off, false);
      FarRoundTrip(pad.seg, pad.off, true);
    }
    FarExactly(At(mem, at));
    hide Decode, EncodeFar;
  }

  lemma PadReads(mem: Mem, at: Addr, pad: Addr, ptr: Word, location: Location)
    requires InMem(mem, at) && IsFar(At(mem, at))
    requires Decode(At(mem, at)).FarPtr? && pad == Addr(Decode(At(mem, at)).segment, Decode(At(mem, at)).pad)
    ensures LocationOf(mem, at, Unlimited).result == Ok(Content(ptr, location))
       <==> OneWordPad(mem, at, pad, ptr, location) || TwoWordPad(mem, at, pad, ptr, location)
  {
    FarExactly(At(mem, at));
    FarRoundTrip(pad.seg, pad.off, false);
    FarRoundTrip(pad.seg, pad.off, true);
    if InMem(mem, pad) {
      FarExactly(At(mem, pad));
      if location.Direct? {
        FarRoundTrip(location.seg, location.off, false);
        FarRoundTrip(location.seg, location.off, true);
      }
    }
    hide Decode, EncodeFar, IsFar;
  }

  lemma FoundReads(mem: Mem, location: Location, offset: i30, start: Addr, n: nat)
    ensures ReadContent(mem, location, offset, n, Unlimited).result == Ok(start)
       <==> Found(mem, location, offset, start, n)
  {
  }

  lemma DescribesExactly(mem: Mem, ptr: Word, location: Location, target: Target)
    ensures ReadAs(mem, Content(ptr, location), Unlimited).result == Ok(target)
       <==> Describes(mem, ptr, location, target)
  {
    hide ReadStruct, ReadList, Decode, IsStruct, IsPlainList, IsComposites, EncodeCapability;
    EncodeDecode(ptr);
    if target.Capability? {
      CapabilityRoundTrip(target.index);
      NoCapability(mem, ptr, location);
      hide EncodeStruct, EncodeList, EncodeFar;
    } else {
      NoCapability(mem, ptr, location);
      var start := target.start;
      match target.shape
      case StructShape(size) => StructExactly(mem, ptr, location, size, start);
      case ListShape(element, count) => PlainExactly(mem, ptr, location, element, count, start);
      case CompositeShape(size, count) => CompositesExactly(mem, ptr, location, size, count, start);
    }
  }

  lemma NoCapability(mem: Mem, ptr: Word, location: Location)
    ensures var wire := Decode(ptr);
            && (wire.StructPtr? ==> var r := ReadStruct(mem, location, wire.offset, wire.size, Unlimited).result;
                                    r.Ok? ==> r.value.Object? && r.value.shape.StructShape?)
            && (wire.ListPtr? ==>
                  var r := ReadList(mem, location, wire.offset, wire.element, wire.count, Unlimited).result;
                  r.Ok? ==> r.value.Object? && !r.value.shape.StructShape?)
  {
    hide Decode, ReadContent, ListWords, Times, TagElementCount;
  }

  lemma StructExactly(mem: Mem, ptr: Word, location: Location, size: StructSize, start: Addr)
    ensures ReadAs(mem, Content(ptr, location), Unlimited).result == Ok(Object(StructShape(size), start))
       <==> exists offset: i30 :: IsStruct(mem, ptr, location, size, start, offset)
  {
    hide ReadContent, ReadList, Decode, Found, EncodeStruct, EncodeList, EncodeFar, EncodeCapability;
    EncodeDecode(ptr);
    NoCapability(mem, ptr, location);
    forall offset: i30
      ensures IsStruct(mem, ptr, location, size, start, offset)
         <==> Decode(ptr) == StructPtr(offset, size)
              && ReadContent(mem, location, offset, size.Total(), Unlimited).result == Ok(start)
    {
      StructRoundTrip(offset, size);
      FoundReads(mem, location, offset, start, size.Total());
    }
  }

  lemma PlainExactly(mem: Mem, ptr: Word, location: Location, element: PtrElementSize, count: u29, start: Addr)
    ensures ReadAs(mem, Content(ptr, location), Unlimited).result == Ok(Object(ListShape(element, count), start))
       <==> exists offset: i30 :: IsPlainList(mem, ptr, location, element, count, start, offset)
  {
    hide ReadContent, ReadStruct, ReadComposite, Decode, Found, EncodeStruct, EncodeList, EncodeFar, EncodeCapability,
         ListWords, Bits;
    EncodeDecode(ptr);
    NoCapability(mem, ptr, location);
    ListWordsAreBits(element, count);
    forall offset: i30
      ensures IsPlainList(mem, ptr, location, element, count, start, offset)
         <==> Decode(ptr) == ListPtr(offset, element, count) && element != InlineComposite
              && ReadContent(mem, location, offset, ListWords(element, count), Unlimited).result == Ok(start)
    {
      ListRoundTrip(offset, element, count);
      FoundReads(mem, location, offset, start, ListWords(element, count));
    }
    CompositesAreNoPlain(mem, ptr, location);
    var wire := Decode(ptr);
    if wire.ListPtr? && wire.element == element != InlineComposite && wire.count == count {
      assert IsPlainList(mem, ptr, location, element, count, start, wire.offset)
        <==> ReadList(mem, location, wire.offset, element, count, Unlimited).result
             == Ok(Object(ListShape(element, count), start));
    }
  }

  lemma CompositesAreNoPlain(mem: Mem, ptr: Word, location: Location)
    ensures var wire := Decode(ptr);
            wire.ListPtr? && wire.element == InlineComposite ==>
              var r := ReadComposite(mem, location, wire.offset, wire.count, Unlimited).result;
              r.Ok? ==> r.value.Object? && r.value.shape.CompositeShape?
  {
    hide Decode, ReadContent, Times, TagElementCount;
  }

  lemma CompositesExactly(mem: Mem, ptr: Word, location: Location, size: StructSize, count: u29, start: Addr)
    ensures ReadAs(mem, Content(ptr, location), Unlimited).result == Ok(Object(CompositeShape(size, count), start))
       <==> exists offset: i30, words: u29 ::
              IsComposites(mem, ptr, location, size, count, start, offset, words)
  {
    hide ReadContent, ReadStruct, ReadComposite, Decode, EncodeStruct, EncodeList, EncodeFar, EncodeCapability,
         ListWords, IsComposites;
    EncodeDecode(ptr);
    NoCapability(mem, ptr, location);
    forall offset: i30, words: u29
      ensures IsComposites(mem, ptr, location, size, count, start, offset, words)
         <==> Decode(ptr) == ListPtr(offset, InlineComposite, words)
              && ReadComposite(mem, location, offset, words, Unlimited).result
                 == Ok(Object(CompositeShape(size, count), start))
    {
      CompositeExactly(mem, ptr, location, size, count, start, offset, words);
    }
    var wire := Decode(ptr);
    if wire.ListPtr? && wire.element == InlineComposite {
      assert IsComposites(mem, ptr, location, size, count, start, wire.offset, wire.count)
        <==> ReadComposite(mem, location, wire.offset, wire.count, Unlimited).result
             == Ok(Object(CompositeShape(size, count), start));
    }
  }

  lemma CompositeExactly(mem: Mem, ptr: Word, location: Location, size: StructSize, count: u29, start: Addr,
                         offset: i30, words: u29)
    ensures IsComposites(mem, ptr, location, size, count, start, offset, words)
       <==> Decode(ptr) == ListPtr(offset, InlineComposite, words)
            && ReadComposite(mem, location, offset, words, Unlimited).result
               == Ok(Object(CompositeShape(size, count), start))
  {
    hide ReadContent, Decode, Found, EncodeList, Times, TagResult, Tagged, EncodeStruct, EncodeFar, EncodeCapability;
    EncodeDecode(ptr);
    ListRoundTrip(offset, InlineComposite, words);
    TimesIsProduct(count, size);
    if words < U29_MAX {
      ReadContentSound(mem, location, offset, words + 1, Unlimited);
      var section := ReadContent(mem, location, offset, words + 1, Unlimited).result;
      if section.Ok? {
        TagExactly(mem, section.value, words, size, count, start);
      }
      if start.off > 0 {
        FoundReads(mem, location, offset, start.(off := start.off - 1), words + 1);
      }
    }
  }

  lemma TagExactly(mem: Mem, first: Addr, words: u29, size: StructSize, count: u29, start: Addr)
    requires InMem(mem, first)
    ensures TagResult(mem, first, words) == Ok(Object(CompositeShape(size, count), start))
       <==> start.off > 0 && first == start.(off := start.off - 1) && Tagged(mem, start, size, count)
            && Times(count, size) <= words
  {
    hide Times;
    TagHalves(At(mem, first), count, size);
    hide Decode, EncodeTag, TagElementCount;
  }

  lemma TagHalves(w: Word, count: u29, size: StructSize)
    ensures Decode(w).StructPtr? && Decode(w).size == size && TagElementCount(w) == count
       <==> var tag := EncodeTag(count, size);
            w.upper == tag.upper && (w.lower == tag.lower || w.lower == tag.lower + 0x8000_0000)
  {
  }

  /** Reading accepts exactly the pointers that refer to something, and that is what it says. */
  lemma ReadsExactly(mem: Mem, at: Addr, target: Target)
    requires InMem(mem, at)
    ensures Resolve(mem, at) == Ok(target) <==> Designates(mem, at, target)
  {
    hide LocationOf, ReadAs, PointsBy, Describes, TryReadTyped;
    TypedIs(mem, at, Unlimited);
    LimiterOnlyRefusesLocation(mem, at, Unlimited);
    var content := LocationOf(mem, at, Unlimited).result;
    forall ptr: Word, location: Location
      ensures PointsBy(mem, at, ptr, location) <==> content == Ok(Content(ptr, location))
    {
      PointsByExactly(mem, at, ptr, location);
    }
    if content.Ok? {
      DescribesExactly(mem, content.value.ptr, content.value.location, target);
      assert PointsBy(mem, at, content.value.ptr, content.value.location);
    }
  }
}
