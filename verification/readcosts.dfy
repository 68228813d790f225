/**
 What a reading costs: the words it charges, and that it is refused exactly when the limiter has fewer.
 */
module ReadCosts {
  import opened Wire
  import opened Reader
  import opened Values

  /** The words of a section, if it is inside its segment; otherwise nothing is charged. */
  function SectionCost(mem: Mem, location: Location, offset: i30, len: nat): nat {
    if ReadContent(mem, location, offset, len, Unlimited).result.Ok? then len else 0
  }

  /** The landing pad of a far pointer. */
  function PadCost(mem: Mem, at: Addr): nat
    requires InMem(mem, at)
  {
    match Decode(At(mem, at))
    case FarPtr(pad, double, segment) =>
      var n := if double then 2 else 1;
      if segment < |mem| && pad + n <= |mem[segment]| then n else 0
    case _ => 0
  }

  /** An inline composite list: the words its pointer names, the tag, and its count if its structs are empty. */
  function CompositeCost(mem: Mem, location: Location, offset: i30, wordCount: u29): nat {
    if wordCount + 1 > U29_MAX then
      0
    else
      SectionCost(mem, location, offset, wordCount + 1)
      + EmptyCount(ReadComposite(mem, location, offset, wordCount, Unlimited).result)
  }

  /** A list without content words is charged its count instead. */
  function ListCost(mem: Mem, location: Location, offset: i30, element: PtrElementSize, count: u29): nat {
    if element == InlineComposite then CompositeCost(mem, location, offset, count)
    else (if element == Void then count else 0) + SectionCost(mem, location, offset, ListWords(element, count))
  }

  function ContentCost(mem: Mem, content: Content): nat {
    match Decode(content.ptr)
    case StructPtr(offset, size) => SectionCost(mem, content.location, offset, size.Total())
    case ListPtr(offset, element, count) => ListCost(mem, content.location, offset, element, count)
    case _ => 0
  }

  /** All a reading of the pointer charges. */
  function Cost(mem: Mem, at: Addr): nat
    requires InMem(mem, at)
  {
    PadCost(mem, at)
    + match LocationOf(mem, at, Unlimited).result
      case Ok(content) => ContentCost(mem, content)
      case Err(_) => 0
  }

  /** A reading under a limiter: the one without a limiter if the words are left, refused otherwise. */
  predicate Metered<T(==)>(limited: Reading<T>, free: Reading<T>, left: nat, cost: nat) {
    if cost <= left then limited == Reading(free.result, Limited(left - cost))
    else limited.result == Err(ReadLimitExceeded)
  }

  lemma SectionMetered(mem: Mem, location: Location, offset: i30, len: nat, left: nat)
    ensures Metered(ReadContent(mem, location, offset, len, Limited(left)),
                    ReadContent(mem, location, offset, len, Unlimited), left, SectionCost(mem, location, offset, len))
  {
  }

  lemma LocationMetered(mem: Mem, at: Addr, left: nat)
    requires InMem(mem, at)
    ensures Metered(LocationOf(mem, at, Limited(left)), LocationOf(mem, at, Unlimited), left, PadCost(mem, at))
  {
    hide Decode;
  }

  lemma StructMetered(mem: Mem, location: Location, offset: i30, size: StructSize, left: nat)
    ensures Metered(ReadStruct(mem, location, offset, size, Limited(left)),
                    ReadStruct(mem, location, offset, size, Unlimited), left,
                    SectionCost(mem, location, offset, size.Total()))
  {
    hide ReadContent, SectionCost;
    SectionMetered(mem, location, offset, size.Total(), left);
  }

  lemma TagMetered(mem: Mem, first: Addr, wordCount: u29, left: nat)
    requires InMem(mem, first)
    ensures var free := ReadTag(mem, first, wordCount, Unlimited);
            && free.lim == Unlimited
            && Metered(ReadTag(mem, first, wordCount, Limited(left)), free, left, EmptyCount(free.result))
  {
    hide TagResult, EmptyCount;
  }

  lemma CompositeMetered(mem: Mem, location: Location, offset: i30, wordCount: u29, left: nat)
    ensures Metered(ReadComposite(mem, location, offset, wordCount, Limited(left)),
                    ReadComposite(mem, location, offset, wordCount, Unlimited), left,
                    CompositeCost(mem, location, offset, wordCount))
  {
    hide SectionCost, ReadTag, EmptyCount, TagResult, ReadContent;
    if wordCount + 1 <= U29_MAX {
      SectionMetered(mem, location, offset, wordCount + 1, left);
      SectionFails(mem, location, offset, wordCount + 1);
      ReadContentSound(mem, location, offset, wordCount + 1, Unlimited);
      var section := ReadContent(mem, location, offset, wordCount + 1, Unlimited);
      if section.result.Ok? && SectionCost(mem, location, offset, wordCount + 1) <= left {
        TagMetered(mem, section.result.value, wordCount, left - SectionCost(mem, location, offset, wordCount + 1));
      }
      NothingCounted(section.result);
    }
  }

  lemma NothingCounted(result: Result<Addr>)
    ensures result.Err? ==> EmptyCount(Err(result.error)) == 0
  {
  }

  lemma SectionFails(mem: Mem, location: Location, offset: i30, len: nat)
    ensures ReadContent(mem, location, offset, len, Unlimited).result.Err? ==>
              SectionCost(mem, location, offset, len) == 0
  {
  }

  lemma ListMetered(mem: Mem, location: Location, offset: i30, element: PtrElementSize, count: u29, left: nat)
    ensures Metered(ReadList(mem, location, offset, element, count, Limited(left)),
                    ReadList(mem, location, offset, element, count, Unlimited), left,
                    ListCost(mem, location, offset, element, count))
  {
    hide ReadComposite, CompositeCost, ListWords, ReadContent;
    if element == InlineComposite {
      CompositeMetered(mem, location, offset, count, left);
    } else {
      var extra := if element == Void then count else 0;
      if extra <= left {
        SectionMetered(mem, location, offset, ListWords(element, count), left - extra);
      }
    }
  }

  /**
   A reading is refused for the limiter exactly if its cost is more than is left; otherwise it ends as it does
   without one, and its cost is charged.
   */
  lemma ReadingMetered(mem: Mem, at: Addr, left: nat)
    requires InMem(mem, at)
    ensures Metered(TryReadTyped(mem, at, Limited(left)), TryReadTyped(mem, at, Unlimited), left, Cost(mem, at))
  {
    hide LocationOf, ReadStruct, ReadList, Decode, PadCost, ContentCost;
    LocationMetered(mem, at, left);
    LimiterOnlyRefusesLocation(mem, at, Unlimited);
    TypedIs(mem, at, Limited(left));
    TypedIs(mem, at, Unlimited);
    hide TryReadTyped, ReadAs;
    var free := LocationOf(mem, at, Unlimited);
    if PadCost(mem, at) <= left && free.result.Ok? {
      ContentMetered(mem, free.result.value, left - PadCost(mem, at));
    }
  }

  lemma TypedIs(mem: Mem, at: Addr, lim: Limiter)
    requires InMem(mem, at)
    ensures var content := LocationOf(mem, at, lim);
            TryReadTyped(mem, at, lim)
            == if content.result.Err? then Reading(Err(content.result.error), content.lim)
               else ReadAs(mem, content.result.value, content.lim)
  {
    hide LocationOf, ReadStruct, ReadList, Decode;
  }

  lemma ContentMetered(mem: Mem, content: Content, left: nat)
    ensures Metered(ReadAs(mem, content, Limited(left)), ReadAs(mem, content, Unlimited), left,
                    ContentCost(mem, content))
  {
    hide ReadStruct, ReadList, Decode, ListCost, SectionCost;
    var wire := Decode(content.ptr);
    if wire.StructPtr? {
      StructMetered(mem, content.location, wire.offset, wire.size, left);
    } else if wire.ListPtr? {
      ListMetered(mem, content.location, wire.offset, wire.element, wire.count, left);
    }
  }

  /** The content, by its pointer word. */
  function ReadAs(mem: Mem, content: Content, lim: Limiter): Reading<Target> {
    match Decode(content.ptr)
    case StructPtr(offset, size) => ReadStruct(mem, content.location, offset, size, lim)
    case ListPtr(offset, element, count) => ReadList(mem, content.location, offset, element, count, lim)
    case CapabilityPtr(index) => Reading(Ok(Capability(index)), lim)
    case _ => Reading(Err(UnexpectedRead), lim)
  }

  /** What an accepted object costs at least; and all it costs if it is no inline composite list. */
  predicate CostsOf(target: Target, pads: nat, cost: nat) {
    match target
    case Capability(_) => cost == pads
    case Object(StructShape(size), _) => cost == pads + size.Total()
    case Object(ListShape(element, count), _) =>
      cost == pads + ListWords(element, count) + if element == Void then count else 0
    case Object(CompositeShape(size, count), _) =>
      cost >= pads + Times(count, size) + 1 + if size.Total() == 0 then count else 0
  }

  /**
   An accepted object costs its landing pads, its content and its tag; and a list whose elements take no words, of
   empty structs included, its count.
   */
  lemma AcceptedCosts(mem: Mem, at: Addr)
    requires InMem(mem, at) && Resolve(mem, at).Ok?
    ensures CostsOf(Resolve(mem, at).value, |Pads(mem, at)|, Cost(mem, at))
  {
    hide ListWords, Times, Decode, TagElementCount;
  }
}
