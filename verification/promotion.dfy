/**
 In-place promotion of a struct to a larger size: `to_struct_mut_inner`, `promote_struct` and
 `transfer_ptr`. The struct moves, and with it every pointer it holds.
 */
module Promotion {
  import opened Wire
  import opened Reader
  import opened Values
  import opened Layout
  import opened Putting

  /** Where the content of a near pointer word starts. */
  function ContentStart(at: Addr, w: Word): int {
    at.off + 1 + ContentOffset(w)
  }

  /** A pointer of a message under construction: null, or one that resolves. */
  predicate Sane(mem: Mem, at: Addr) {
    InMem(mem, at) && (At(mem, at).IsNull() || Resolve(mem, at).Ok?)
  }

  lemma NearContentInside(mem: Mem, at: Addr)
    requires InMem(mem, at) && Resolve(mem, at).Ok?
    requires Decode(At(mem, at)).StructPtr? || Decode(At(mem, at)).ListPtr?
    ensures 0 <= ContentStart(at, At(mem, at)) <= |mem[at.seg]|
  {
    hide ListWords, Times, TagElementCount, StructSizeOf, SizeOfCode;
  }

  datatype Moving = Stuck(st: St) | Moved(st: St)

  /** `transfer_ptr`: writes a pointer at `to` that refers to what the pointer at `from` refers to. */
  function Transfer(st: St, from: Addr, to: Addr): Moving
    requires ValidSt(st) && Sane(st.mem, from) && InMem(st.mem, to)
  {
    var w := At(st.mem, from);
    if w.IsNull() then
      Moved(st)
    else if !(Decode(w).StructPtr? || Decode(w).ListPtr?) then
      Moved(SetWord(st, to, w))
    else
      NearContentInside(st.mem, from);
      InRange(st, from);
      InRange(st, to);
      var content := ContentStart(from, w);
      if from.seg == to.seg then
        Moved(SetWord(st, to, WithContentOffset(w, content - to.off - 1)))
      else
        TryUseGood(st, from.seg, 1);
        var pad := TryUse(st, from.seg, 1);
        if pad.Room? then
          InRange(pad.st, pad.at);
          Moved(PadNear(pad.st, to, pad.at, WithContentOffset(w, content - pad.at.off - 1)))
        else
          AllocSomewhereGood(st, to.seg, 2);
          var double := AllocSomewhere(st, to.seg, 2);
          if double.NoRoom? then
            Stuck(double.st)
          else
            Moved(PadDouble(double.st, to, double.at, Addr(from.seg, content), WithContentOffset(w, 0)))
  }

  /** A far pointer at `to` to a landing pad that holds `w`. */
  function PadNear(st: St, to: Addr, pad: Addr, w: Word): St
    requires ValidSt(st) && InMem(st.mem, to) && InMem(st.mem, pad)
  {
    InRange(st, pad);
    SetWordGood(st, pad, w);
    SetWord(SetWord(st, pad, w), to, EncodeFar(pad.seg, pad.off, false))
  }

  /** A double-far pointer at `to` to a landing pad that leads to `content`, described by `tag`. */
  function PadDouble(st: St, to: Addr, pad: Addr, content: Addr, tag: Word): St
    requires ValidSt(st) && InMem(st.mem, to) && InMem(st.mem, pad) && InMem(st.mem, Slot(pad, 1))
    requires content.seg < U32_LIMIT && content.off <= U29_MAX
  {
    InRange(st, pad);
    var landing := EncodeFar(content.seg, content.off, false);
    SetWordGood(st, pad, landing);
    var st1 := SetWord(st, pad, landing);
    SetWordGood(st1, Slot(pad, 1), tag);
    SetWord(SetWord(st1, Slot(pad, 1), tag), to, EncodeFar(pad.seg, pad.off, true))
  }

  /** The pointer at `to` refers to what the one at `from` referred to, over old pads or new ones. */
  ghost predicate RefersAlike(mem: Mem, mem': Mem, from: Addr, to: Addr) {
    && InMem(mem, from) && InMem(mem', to)
    && (At(mem, from).IsNull() <==> At(mem', to).IsNull())
    && (!At(mem, from).IsNull() ==>
          && Resolve(mem', to) == Resolve(mem, from)
          && forall a :: a in Pads(mem', to) ==> a in Pads(mem, from) || !InMem(mem, a))
  }

  /** What a description reads at a start, however it was reached. */
  function ReadAt(mem: Mem, desc: Description, start: Addr): Result<Target>
    requires start.seg < U32_LIMIT && start.off <= U29_MAX
  {
    match desc
    case StructOf(size) => ReadStruct(mem, Direct(start.seg, start.off), 0, size, Unlimited).result
    case ListOf(element, count) => ReadList(mem, Direct(start.seg, start.off), 0, element, count, Unlimited).result
  }

  lemma HitsAlike(mem: Mem, location: Location, offset: i30, start: Addr, len: nat)
    requires start.seg < U32_LIMIT && start.off <= U29_MAX && Hits(location, offset, start)
    ensures ReadContent(mem, location, offset, len, Unlimited)
         == ReadContent(mem, Direct(start.seg, start.off), 0, len, Unlimited)
  {
  }

  lemma LeadsReads(mem: Mem, at: Addr, content: Content, desc: Description, start: Addr)
    requires InMem(mem, at) && LocationOf(mem, at, Unlimited) == Reading(Ok(content), Unlimited)
    requires Leads(content, desc, start) && start.seg < U32_LIMIT && start.off <= U29_MAX
    ensures Resolve(mem, at) == ReadAt(mem, desc, start)
  {
    hide LocationOf, Decode, ListWords, ReadContent, Times, TagElementCount;
    var wire := Decode(content.ptr);
    match desc
    case StructOf(size) => HitsAlike(mem, content.location, wire.offset, start, size.Total());
    case ListOf(element, count) =>
      HitsAlike(mem, content.location, wire.offset, start, count + 1);
      HitsAlike(mem, content.location, wire.offset, start, ListWords(element, count));
  }

  lemma ReadAtFrame(mem: Mem, mem': Mem, desc: Description, start: Addr)
    requires start.seg < U32_LIMIT && start.off <= U29_MAX && Grows(mem, mem')
    requires ReadAt(mem, desc, start).Ok?
    requires forall a :: a in Tags(ReadAt(mem, desc, start).value) ==> SameAt(mem, mem', a)
    ensures ReadAt(mem', desc, start) == ReadAt(mem, desc, start)
  {
    hide ListWords, ReadContent, ReadComposite, Tags, Decode;
    var location := Direct(start.seg, start.off);
    match desc
    case StructOf(size) => ReadContentFrame(mem, mem', location, 0, size.Total());
    case ListOf(element, count) =>
      if element == InlineComposite {
        ReadCompositeFrame(mem, mem', location, 0, count);
      } else {
        ReadContentFrame(mem, mem', location, 0, ListWords(element, count));
      }
  }

  /** The description in a near pointer word. */
  function DescriptionIn(w: Word): Description
    requires Decode(w).StructPtr? || Decode(w).ListPtr?
  {
    match Decode(w)
    case StructPtr(_, size) => StructOf(size)
    case ListPtr(_, element, count) => ListOf(element, count)
  }

  lemma NearLeads(at: Addr, w: Word)
    requires Decode(w).StructPtr? || Decode(w).ListPtr?
    requires ContentStart(at, w) >= 0
    ensures Leads(Content(w, Origin(at)), DescriptionIn(w), Addr(at.seg, ContentStart(at, w)))
  {
    hide StructSizeOf, SizeOfCode, TagElementCount;
  }

  /** The moved word leads to the same start, and is null only if it describes an empty struct next to it. */
  lemma MovedLeads(w: Word, offset: i30, location: Location, start: Addr)
    requires Decode(w).StructPtr? || Decode(w).ListPtr?
    requires Hits(location, offset, start)
    ensures Leads(Content(WithContentOffset(w, offset), location), DescriptionIn(w), start)
    ensures WithContentOffset(w, offset).IsNull() ==> offset == 0
    ensures !Decode(WithContentOffset(w, offset)).FarPtr?
  {
    MovedPointer(w, offset);
    MovedWordNull(w, offset);
    hide Decode, WithContentOffset;
  }

  lemma MovedWordNull(w: Word, offset: i30)
    ensures WithContentOffset(w, offset).IsNull() ==> offset == 0
  {
  }

  /** `to` may receive the pointer at `from`: it is none of the words that pointer depends on, and follows them. */
  ghost predicate MayReceive(mem: Mem, from: Addr, to: Addr) {
    && InMem(mem, to) && to != from && At(mem, to).IsNull()
    && InMem(mem, from)
    && (!At(mem, from).IsNull() ==>
          && Resolve(mem, from).Ok?
          && to !in Pads(mem, from) && to !in Tags(Resolve(mem, from).value)
          && (from.seg == to.seg && (Decode(At(mem, from)).StructPtr? || Decode(At(mem, from)).ListPtr?) ==>
                ContentStart(from, At(mem, from)) <= to.off))
  }

  /** A transfer that succeeded changes only `to` among the old words. */
  ghost predicate TransferredWell(st: St, from: Addr, to: Addr, r: Moving) {
    && ValidSt(r.st)
    && (r.Stuck? ==> Keeps(st.mem, r.st.mem, iset{}))
    && (r.Moved? ==> Keeps(st.mem, r.st.mem, iset{to}) && RefersAlike(st.mem, r.st.mem, from, to))
  }

  /** Near content: what is written at the new place leads to the old content. */
  lemma LedToContent(st: St, from: Addr, to: Addr, st': St, content: Content)
    requires ValidSt(st) && InMem(st.mem, from) && InMem(st'.mem, to)
    requires Decode(At(st.mem, from)).StructPtr? || Decode(At(st.mem, from)).ListPtr?
    requires !At(st.mem, from).IsNull() && !At(st'.mem, to).IsNull()
    requires Resolve(st.mem, from).Ok? && to !in Tags(Resolve(st.mem, from).value)
    requires Keeps(st.mem, st'.mem, iset{to})
    requires LocationOf(st'.mem, to, Unlimited) == Reading(Ok(content), Unlimited)
    requires ContentStart(from, At(st.mem, from)) >= 0
    requires Leads(content, DescriptionIn(At(st.mem, from)), Addr(from.seg, ContentStart(from, At(st.mem, from))))
    requires forall a :: a in Pads(st'.mem, to) ==> !InMem(st.mem, a)
    ensures RefersAlike(st.mem, st'.mem, from, to)
  {
    hide ContentOffset, StructSizeOf, SizeOfCode, Resolve, Pads, ReadAt, Leads, LocationOf;
    var w := At(st.mem, from);
    NearContentInside(st.mem, from);
    InRange(st, from);
    NearLeads(from, w);
    NearLocation(st.mem, from);
    var start := Addr(from.seg, ContentStart(from, w));
    LeadsReads(st.mem, from, Content(w, Origin(from)), DescriptionIn(w), start);
    TagsInMem(st.mem, from);
    ReadAtFrame(st.mem, st'.mem, DescriptionIn(w), start);
    LeadsReads(st'.mem, to, content, DescriptionIn(w), start);
  }

  lemma NearLocation(mem: Mem, at: Addr)
    requires InMem(mem, at) && !Decode(At(mem, at)).FarPtr?
    ensures LocationOf(mem, at, Unlimited) == Reading(Ok(Content(At(mem, at), Origin(at))), Unlimited)
    ensures Pads(mem, at) == {}
  {
    hide Decode;
  }

  lemma TagsInMem(mem: Mem, at: Addr)
    requires InMem(mem, at) && Resolve(mem, at).Ok?
    ensures forall a :: a in Tags(Resolve(mem, at).value) ==> InMem(mem, a)
  {
    hide TryReadTyped;
    ReaderSound(mem, at, Unlimited);
  }

  lemma TransferNear(st: St, from: Addr, to: Addr)
    requires ValidSt(st) && MayReceive(st.mem, from, to) && !At(st.mem, from).IsNull()
    requires Decode(At(st.mem, from)).StructPtr? || Decode(At(st.mem, from)).ListPtr?
    requires from.seg == to.seg
    ensures TransferredWell(st, from, to, Transfer(st, from, to))
  {
    hide Resolve, Pads, WithContentOffset, DescriptionIn, Leads, ContentOffset, StructSizeOf, SizeOfCode, LocationOf;
    var w := At(st.mem, from);
    NearContentInside(st.mem, from);
    InRange(st, from);
    InRange(st, to);
    var content := ContentStart(from, w);
    var offset := content - to.off - 1;
    var start := Addr(from.seg, content);
    MovedLeads(w, offset, Origin(to), start);
    SetWordGood(st, to, WithContentOffset(w, offset));
    var st' := SetWord(st, to, WithContentOffset(w, offset));
    NearLocation(st'.mem, to);
    LedToContent(st, from, to, st', Content(WithContentOffset(w, offset), Origin(to)));
  }

  lemma PadNearGood(st: St, to: Addr, pad: Addr, w: Word)
    requires ValidSt(st) && InMem(st.mem, to) && InMem(st.mem, pad) && to != pad
    requires !Decode(w).FarPtr?
    ensures var st' := PadNear(st, to, pad, w);
            && ValidSt(st') && Keeps(st.mem, st'.mem, iset{to, pad})
            && InMem(st'.mem, to) && !At(st'.mem, to).IsNull()
            && LocationOf(st'.mem, to, Unlimited) == Reading(Ok(Content(w, Origin(pad))), Unlimited)
            && Pads(st'.mem, to) == {pad}
  {
    hide Decode, EncodeFar;
    InRange(st, pad);
    FarRoundTrip(pad.seg, pad.off, false);
    SetWordGood(st, pad, w);
    SetWordGood(SetWord(st, pad, w), to, EncodeFar(pad.seg, pad.off, false));
  }

  lemma PadDoubleGood(st: St, to: Addr, pad: Addr, content: Addr, tag: Word)
    requires ValidSt(st) && InMem(st.mem, to) && InMem(st.mem, pad) && InMem(st.mem, Slot(pad, 1))
    requires to != pad && to != Slot(pad, 1)
    requires content.seg < U32_LIMIT && content.off <= U29_MAX
    ensures var st' := PadDouble(st, to, pad, content, tag);
            && ValidSt(st') && Keeps(st.mem, st'.mem, iset{to, pad, Slot(pad, 1)})
            && InMem(st'.mem, to) && !At(st'.mem, to).IsNull()
            && LocationOf(st'.mem, to, Unlimited)
               == Reading(Ok(Content(tag, Direct(content.seg, content.off))), Unlimited)
            && Pads(st'.mem, to) == {pad, Slot(pad, 1)}
  {
    hide Decode, EncodeFar;
    InRange(st, pad);
    FarRoundTrip(pad.seg, pad.off, true);
    FarRoundTrip(content.seg, content.off, false);
    var landing := EncodeFar(content.seg, content.off, false);
    SetWordGood(st, pad, landing);
    SetWordGood(SetWord(st, pad, landing), Slot(pad, 1), tag);
    SetWordGood(SetWord(SetWord(st, pad, landing), Slot(pad, 1), tag), to, EncodeFar(pad.seg, pad.off, true));
  }

  lemma TransferApart(st: St, from: Addr, to: Addr)
    requires ValidSt(st) && MayReceive(st.mem, from, to) && !At(st.mem, from).IsNull()
    requires Decode(At(st.mem, from)).StructPtr? || Decode(At(st.mem, from)).ListPtr?
    requires from.seg != to.seg
    ensures TransferredWell(st, from, to, Transfer(st, from, to))
  {
    hide Resolve, Pads, WithContentOffset, DescriptionIn, Leads, ContentOffset, StructSizeOf, SizeOfCode, LocationOf,
         PadNear, PadDouble, TryUse, ArenaAlloc;
    var w := At(st.mem, from);
    NearContentInside(st.mem, from);
    InRange(st, from);
    InRange(st, to);
    var content := ContentStart(from, w);
    TryUseGood(st, from.seg, 1);
    var pad := TryUse(st, from.seg, 1);
    if pad.Room? {
      InRange(pad.st, pad.at);
      var moved := WithContentOffset(w, content - pad.at.off - 1);
      MovedLeads(w, content - pad.at.off - 1, Origin(pad.at), Addr(from.seg, content));
      PadNearGood(pad.st, to, pad.at, moved);
      LedToContent(st, from, to, PadNear(pad.st, to, pad.at, moved), Content(moved, Origin(pad.at)));
    } else {
      AllocSomewhereGood(st, to.seg, 2);
      var double := AllocSomewhere(st, to.seg, 2);
      if double.Room? {
        var direct := Direct(from.seg, content);
        MovedLeads(w, 0, direct, Addr(from.seg, content));
        PadDoubleGood(double.st, to, double.at, Addr(from.seg, content), WithContentOffset(w, 0));
        LedToContent(st, from, to,
                     PadDouble(double.st, to, double.at, Addr(from.seg, content), WithContentOffset(w, 0)),
                     Content(WithContentOffset(w, 0), direct));
      }
    }
  }

  /** Far pointers and capabilities are copied as they are. */
  lemma TransferVerbatim(st: St, from: Addr, to: Addr)
    requires ValidSt(st) && MayReceive(st.mem, from, to) && !At(st.mem, from).IsNull()
    requires !(Decode(At(st.mem, from)).StructPtr? || Decode(At(st.mem, from)).ListPtr?)
    ensures TransferredWell(st, from, to, Transfer(st, from, to))
  {
    var w := At(st.mem, from);
    SetWordGood(st, to, w);
    var st' := SetWord(st, to, w);
    if Decode(w).FarPtr? {
      FarVerbatim(st.mem, st'.mem, from, to);
    } else {
      CapVerbatim(st.mem, st'.mem, from, to);
    }
    hide Decode, Resolve, Pads, Tags;
  }

  lemma CapVerbatim(mem: Mem, mem': Mem, from: Addr, to: Addr)
    requires InMem(mem, from) && InMem(mem', to) && At(mem', to) == At(mem, from)
    requires var wire := Decode(At(mem, from)); !wire.FarPtr? && !wire.StructPtr? && !wire.ListPtr?
    ensures Resolve(mem', to) == Resolve(mem, from) && Pads(mem', to) == Pads(mem, from)
  {
    hide Decode;
  }

  lemma FarVerbatim(mem: Mem, mem': Mem, from: Addr, to: Addr)
    requires InMem(mem, from) && InMem(mem', to) && At(mem', to) == At(mem, from)
    requires Decode(At(mem, from)).FarPtr? && Resolve(mem, from).Ok?
    requires Keeps(mem, mem', iset{to})
    requires to !in Pads(mem, from) && to !in Tags(Resolve(mem, from).value)
    ensures Resolve(mem', to) == Resolve(mem, from) && Pads(mem', to) == Pads(mem, from)
  {
    hide Decode, ReadStruct, ReadList, Tags;
    TagsInMem(mem, from);
    FarLocation(mem, mem', from, to);
    ContentFrame(mem, mem', from);
  }

  lemma FarLocation(mem: Mem, mem': Mem, from: Addr, to: Addr)
    requires InMem(mem, from) && InMem(mem', to) && At(mem', to) == At(mem, from)
    requires Decode(At(mem, from)).FarPtr? && LocationOf(mem, from, Unlimited).result.Ok?
    requires Keeps(mem, mem', iset{to}) && to !in Pads(mem, from)
    ensures LocationOf(mem', to, Unlimited) == LocationOf(mem, from, Unlimited)
    ensures LocationOf(mem, from, Unlimited).lim == Unlimited
  {
    hide Decode;
    var wire := Decode(At(mem, from));
    assert Addr(wire.segment, wire.pad) in Pads(mem, from);
    assert SameAt(mem, mem', Addr(wire.segment, wire.pad));
    if wire.double {
      assert Addr(wire.segment, wire.pad + 1) in Pads(mem, from);
      assert SameAt(mem, mem', Addr(wire.segment, wire.pad + 1));
    }
  }

  /** The reading after the location depends on the tag only. */
  lemma ContentFrame(mem: Mem, mem': Mem, at: Addr)
    requires InMem(mem, at) && Resolve(mem, at).Ok? && Grows(mem, mem')
    requires LocationOf(mem, at, Unlimited).lim == Unlimited
    requires forall a :: a in Tags(Resolve(mem, at).value) ==> SameAt(mem, mem', a)
    ensures var Content(ptr, location) := LocationOf(mem, at, Unlimited).result.value;
            match Decode(ptr)
            case StructPtr(offset, size) =>
              ReadStruct(mem', location, offset, size, Unlimited).result == Resolve(mem, at)
            case ListPtr(offset, element, count) =>
              ReadList(mem', location, offset, element, count, Unlimited).result == Resolve(mem, at)
            case _ => true
  {
    hide LocationOf, Decode, ReadContent, ReadComposite, ListWords, Tags;
    var Content(ptr, location) := LocationOf(mem, at, Unlimited).result.value;
    match Decode(ptr)
    case StructPtr(offset, size) => ReadContentFrame(mem, mem', location, offset, size.Total());
    case ListPtr(offset, element, count) =>
      if element == InlineComposite {
        ReadCompositeFrame(mem, mem', location, offset, count);
      } else {
        ReadContentFrame(mem, mem', location, offset, ListWords(element, count));
      }
    case _ =>
  }

  /** However a pointer has to be moved, it refers to the same object afterwards. */
  lemma TransferGood(st: St, from: Addr, to: Addr)
    requires ValidSt(st) && MayReceive(st.mem, from, to)
    ensures TransferredWell(st, from, to, Transfer(st, from, to))
  {
    hide Resolve, Transfer, Decode, RefersAlike, Pads, Tags;
    if At(st.mem, from).IsNull() {
      TransferNull(st, from, to);
    } else if Decode(At(st.mem, from)).StructPtr? || Decode(At(st.mem, from)).ListPtr? {
      if from.seg == to.seg {
        TransferNear(st, from, to);
      } else {
        TransferApart(st, from, to);
      }
    } else {
      TransferVerbatim(st, from, to);
    }
  }

  lemma TransferNull(st: St, from: Addr, to: Addr)
    requires ValidSt(st) && MayReceive(st.mem, from, to) && At(st.mem, from).IsNull()
    ensures TransferredWell(st, from, to, Transfer(st, from, to))
  {
    hide Decode, Resolve;
  }

  // ----- Meanings move along

  /** A pointer that was transferred means at its new place what it meant at the old one. */
  lemma MovedMeans(st: St, r: Moving, from: Addr, to: Addr, v: Value, touched: iset<Addr>)
    requires r.Moved? && TransferredWell(st, from, to, r)
    requires Denotes(st.mem, from, v, touched)
    requires to in touched && touched <= AllWords(st.mem)
    ensures Denotes(r.st.mem, to, v, touched)
  {
    hide Resolve, Words, IsPtrSlot, Pads;
    NonNullMeaning(st.mem, from, v, touched);
    if v.Obj? {
      forall i | 0 <= i < |v.cells|
        ensures CellAt(r.st.mem, Slot(Resolve(st.mem, from).value.start, i), v.cells[i], IsPtrSlot(v.shape, i), touched)
      {
        var slot := Slot(Resolve(st.mem, from).value.start, i);
        assert CellAt(st.mem, slot, v.cells[i], IsPtrSlot(v.shape, i), touched);
        if v.cells[i].Ref? {
          DenotesFrame(st.mem, r.st.mem, slot, v.cells[i].value, touched);
        }
      }
    }
  }

  /** A transfer never leaves the state malformed, wherever the pointers are. */
  lemma TransferSafe(st: St, from: Addr, to: Addr)
    requires ValidSt(st) && Sane(st.mem, from) && InMem(st.mem, to)
    ensures ValidSt(Transfer(st, from, to).st) && Grows(st.mem, Transfer(st, from, to).st.mem)
  {
    hide Resolve, Decode, WithContentOffset, TryUse, ArenaAlloc, ContentOffset, EncodeFar, PadNear, PadDouble;
    var w := At(st.mem, from);
    if !w.IsNull() {
      if Decode(w).StructPtr? || Decode(w).ListPtr? {
        NearContentInside(st.mem, from);
        InRange(st, from);
        InRange(st, to);
        if from.seg == to.seg {
          SetWordGood(st, to, WithContentOffset(w, ContentStart(from, w) - to.off - 1));
        } else {
          PaddedSafe(st, from, to);
        }
      } else {
        SetWordGood(st, to, w);
      }
    }
  }

  lemma PaddedSafe(st: St, from: Addr, to: Addr)
    requires ValidSt(st) && Sane(st.mem, from) && InMem(st.mem, to) && !At(st.mem, from).IsNull()
    requires (Decode(At(st.mem, from)).StructPtr? || Decode(At(st.mem, from)).ListPtr?) && from.seg != to.seg
    ensures ValidSt(Transfer(st, from, to).st) && Grows(st.mem, Transfer(st, from, to).st.mem)
  {
    hide Resolve, Decode, WithContentOffset, TryUse, ArenaAlloc, ContentOffset, EncodeFar, PadNear, PadDouble;
    var w := At(st.mem, from);
    NearContentInside(st.mem, from);
    InRange(st, from);
    var content := ContentStart(from, w);
    TryUseGood(st, from.seg, 1);
    var pad := TryUse(st, from.seg, 1);
    if pad.Room? {
      InRange(pad.st, pad.at);
      PadNearSafe(pad.st, to, pad.at, WithContentOffset(w, content - pad.at.off - 1));
    } else {
      AllocSomewhereGood(st, to.seg, 2);
      var double := AllocSomewhere(st, to.seg, 2);
      if double.Room? {
        PadDoubleGood(double.st, to, double.at, Addr(from.seg, content), WithContentOffset(w, 0));
      }
    }
  }

  lemma PadNearSafe(st: St, to: Addr, pad: Addr, w: Word)
    requires ValidSt(st) && InMem(st.mem, to) && InMem(st.mem, pad)
    ensures ValidSt(PadNear(st, to, pad, w)) && Grows(st.mem, PadNear(st, to, pad, w).mem)
  {
    InRange(st, pad);
    SetWordGood(st, pad, w);
    SetWordGood(SetWord(st, pad, w), to, EncodeFar(pad.seg, pad.off, false));
  }

  /**
   `transfer_ptr_section`. A pointer that does not resolve is nothing a builder holds; the walk is stuck
   on it.
   */
  function TransferSection(st: St, from: Addr, to: Addr, n: nat): (r: Moving)
    requires ValidSt(st) && HasBody(st.mem, from, n) && HasBody(st.mem, to, n)
    ensures ValidSt(r.st) && Grows(st.mem, r.st.mem)
  {
    if n == 0 then
      Moved(st)
    else
      var before := TransferSection(st, from, to, n - 1);
      if before.Stuck? || !Sane(before.st.mem, Slot(from, n - 1)) then
        Stuck(before.st)
      else
        TransferSafe(before.st, Slot(from, n - 1), Slot(to, n - 1));
        Transfer(before.st, Slot(from, n - 1), Slot(to, n - 1))
  }

  /** The first `n` cells of the section, as pointers that read nothing in `touched`. */
  ghost predicate SectionMeans(mem: Mem, start: Addr, values: seq<Value>, touched: iset<Addr>) {
    forall i :: 0 <= i < |values| ==> Denotes(mem, Slot(start, i), values[i], touched)
  }

  /** What a section transfer needs to begin with. */
  ghost predicate SectionReady(past: Mem, st: St, from: Addr, to: Addr, values: seq<Value>, touched: iset<Addr>) {
    var n := |values|;
    && ValidSt(st) && Grows(past, st.mem)
    && HasBody(past, from, n) && HasBody(st.mem, to, n)
    && (n > 0 ==> (to.seg < |past| ==> |past[to.seg]| <= to.off))
    && Body(to, n) <= touched <= AllWords(st.mem)
    && (forall i :: 0 <= i < n ==> SameAt(past, st.mem, Slot(from, i)))
    && (forall i :: 0 <= i < n ==> Resolved(past, Slot(from, i)))
    && AllNull(st.mem, to, n)
    && SectionMeans(st.mem, from, values, touched)
  }

  ghost predicate Resolved(mem: Mem, at: Addr) {
    InMem(mem, at) && (!At(mem, at).IsNull() ==> Resolve(mem, at).Ok?)
  }

  /** Every pointer of a section means the same at its new place. */
  lemma {:induction false} TransferSectionGood(past: Mem, st: St, from: Addr, to: Addr, values: seq<Value>,
                                               touched: iset<Addr>)
    requires SectionReady(past, st, from, to, values, touched)
    ensures var r := TransferSection(st, from, to, |values|);
            && Keeps(st.mem, r.st.mem, Body(to, |values|))
            && (r.Moved? ==> SectionMeans(r.st.mem, to, values, touched))
    decreases |values|
  {
    hide Denotes, Transfer, Resolve, RefersAlike;
    var n := |values|;
    if n > 0 {
      var fore := values[..n - 1];
      assert SectionReady(past, st, from, to, fore, touched) by {
        assert Body(to, n - 1) <= Body(to, n);
      }
      TransferSectionGood(past, st, from, to, fore, touched);
      var before := TransferSection(st, from, to, n - 1);
      if before.Moved? && Sane(before.st.mem, Slot(from, n - 1)) {
        TransferLast(past, st, before.st, from, to, values, touched);
      }
    }
  }

  lemma TransferLast(past: Mem, st: St, st': St, from: Addr, to: Addr, values: seq<Value>, touched: iset<Addr>)
    requires |values| > 0 && SectionReady(past, st, from, to, values, touched)
    requires var n := |values| - 1;
             && ValidSt(st') && Keeps(st.mem, st'.mem, Body(to, n))
             && SectionMeans(st'.mem, to, values[..n], touched)
             && Sane(st'.mem, Slot(from, n))
    ensures var n := |values| - 1;
            var r := Transfer(st', Slot(from, n), Slot(to, n));
            && Keeps(st.mem, r.st.mem, Body(to, n + 1))
            && (r.Moved? ==> SectionMeans(r.st.mem, to, values, touched))
  {
    hide Resolve, Transfer, RefersAlike, Pads;
    var n := |values| - 1;
    var src, dst := Slot(from, n), Slot(to, n);
    assert Denotes(st.mem, src, values[n], touched);
    assert Keeps(st.mem, st'.mem, touched);
    DenotesFrame(st.mem, st'.mem, src, values[n], touched);
    ReadyToReceive(past, st', src, dst, values[n], touched);
    TransferGood(st', src, dst);
    var r := Transfer(st', src, dst);
    if r.Moved? {
      MovedMeans(st', r, src, dst, values[n], touched);
      forall i | 0 <= i < n
        ensures Denotes(r.st.mem, Slot(to, i), values[i], touched)
      {
        assert Denotes(st'.mem, Slot(to, i), values[..n][i], touched);
        DenotesFrame(st'.mem, r.st.mem, Slot(to, i), values[i], touched);
      }
    }
  }

  lemma ReadyToReceive(past: Mem, st: St, src: Addr, dst: Addr, v: Value, touched: iset<Addr>)
    requires ValidSt(st) && Grows(past, st.mem) && Resolved(past, src) && SameAt(past, st.mem, src)
    requires InMem(st.mem, dst) && At(st.mem, dst).IsNull() && dst in touched
    requires dst.seg < |past| ==> |past[dst.seg]| <= dst.off
    requires Denotes(st.mem, src, v, touched)
    ensures MayReceive(st.mem, src, dst)
  {
    hide Resolve, Pads, Words, IsPtrSlot, ContentOffset, StructSizeOf, SizeOfCode, TagElementCount;
    NonNullMeaning(st.mem, src, v, touched);
    if v != Null {
      var wire := Decode(At(past, src));
      if wire.StructPtr? || wire.ListPtr? {
        NearContentInside(past, src);
      }
    }
  }

  // ----- Copying and clearing words

  /** `copy_from_slice` of `n` words. */
  function CopyWords(st: St, from: Addr, to: Addr, n: nat): (r: St)
    requires ValidSt(st) && HasBody(st.mem, from, n) && HasBody(st.mem, to, n)
    ensures ValidSt(r) && Keeps(st.mem, r.mem, Body(to, n))
    ensures forall a :: InMem(r.mem, a) <==> InMem(st.mem, a)
  {
    if n == 0 then
      st
    else
      var before := CopyWords(st, from, to, n - 1);
      SetWordGood(before, Slot(to, n - 1), At(before.mem, Slot(from, n - 1)));
      SetWord(before, Slot(to, n - 1), At(before.mem, Slot(from, n - 1)))
  }

  /** `clear_section`. */
  function ClearWords(st: St, start: Addr, n: nat): (r: St)
    requires ValidSt(st) && HasBody(st.mem, start, n)
    ensures ValidSt(r) && Keeps(st.mem, r.mem, Body(start, n))
    ensures forall a :: InMem(r.mem, a) <==> InMem(st.mem, a)
  {
    if n == 0 then
      st
    else
      var before := ClearWords(st, start, n - 1);
      SetWordGood(before, Slot(start, n - 1), NULL);
      SetWord(before, Slot(start, n - 1), NULL)
  }

  lemma {:induction false} CopyWordsGood(st: St, from: Addr, to: Addr, n: nat)
    requires ValidSt(st) && HasBody(st.mem, from, n) && HasBody(st.mem, to, n)
    requires Body(from, n) !! Body(to, n)
    ensures forall i :: 0 <= i < n ==> At(CopyWords(st, from, to, n).mem, Slot(to, i)) == At(st.mem, Slot(from, i))
  {
    if n > 0 {
      assert Body(from, n - 1) <= Body(from, n) && Body(to, n - 1) <= Body(to, n);
      CopyWordsGood(st, from, to, n - 1);
      var before := CopyWords(st, from, to, n - 1);
      assert Slot(from, n - 1) in Body(from, n);
      SetWordGood(before, Slot(to, n - 1), At(before.mem, Slot(from, n - 1)));
    }
  }

  lemma {:induction false} ClearWordsGood(st: St, start: Addr, n: nat)
    requires ValidSt(st) && HasBody(st.mem, start, n)
    ensures AllNull(ClearWords(st, start, n).mem, start, n)
  {
    if n > 0 {
      ClearWordsGood(st, start, n - 1);
      SetWordGood(ClearWords(st, start, n - 1), Slot(start, n - 1), NULL);
    }
  }

  /** The words of a landing pad. */
  ghost function PadOf(pad: Addr, double: bool): iset<Addr> {
    iset{pad} + if double then iset{Slot(pad, 1)} else iset{}
  }

  /** The words of a landing pad become null. */
  function ClearPad(st: St, pad: Addr, double: bool): (r: St)
    requires ValidSt(st) && InMem(st.mem, pad) && (double ==> InMem(st.mem, Slot(pad, 1)))
    ensures ValidSt(r) && Keeps(st.mem, r.mem, PadOf(pad, double))
    ensures forall a :: InMem(r.mem, a) <==> InMem(st.mem, a)
    ensures At(r.mem, pad) == NULL && (double ==> At(r.mem, Slot(pad, 1)) == NULL)
  {
    SetWordGood(st, pad, NULL);
    var st1 := SetWord(st, pad, NULL);
    if double then
      SetWordGood(st1, Slot(pad, 1), NULL);
      SetWord(st1, Slot(pad, 1), NULL)
    else
      st1
  }

  function ClearFar(st: St, at: Addr, pad: Addr, double: bool): (r: St)
    requires ValidSt(st) && InMem(st.mem, at) && InMem(st.mem, pad) && (double ==> InMem(st.mem, Slot(pad, 1)))
    ensures ValidSt(r) && Keeps(st.mem, r.mem, iset{at} + PadOf(pad, double))
    ensures forall a :: InMem(r.mem, a) <==> InMem(st.mem, a)
  {
    hide ClearPad, SetWord, ValidSt;
    var cleared := ClearPad(st, pad, double);
    SetWordGood(cleared, at, NULL);
    SetWord(cleared, at, NULL)
  }

  lemma PadsOf(mem: Mem, at: Addr)
    requires InMem(mem, at)
    ensures var wire := Decode(At(mem, at));
            (iset a | a == at || a in Pads(mem, at))
            == if wire.FarPtr? then iset{at} + PadOf(Addr(wire.segment, wire.pad), wire.double) else iset{at}
  {
    hide Decode;
  }

  /** `clear_ptrs`: the pointer and its landing pads. */
  function ClearPtrs(st: St, at: Addr): (r: St)
    requires ValidSt(st) && InMem(st.mem, at)
    ensures ValidSt(r) && Keeps(st.mem, r.mem, iset a | a == at || a in Pads(st.mem, at))
    ensures forall a :: InMem(r.mem, a) <==> InMem(st.mem, a)
  {
    hide Decode, ClearFar, SetWord, ValidSt, Pads, PadOf;
    PadsOf(st.mem, at);
    match Decode(At(st.mem, at))
    case FarPtr(off, double, seg) =>
      var pad := Addr(seg, off);
      if !InMem(st.mem, pad) || (double && !InMem(st.mem, Slot(pad, 1))) then st
      else ClearFar(st, at, pad, double)
    case _ =>
      SetWordGood(st, at, NULL);
      SetWord(st, at, NULL)
  }

  lemma PadsInMem(mem: Mem, at: Addr)
    requires InMem(mem, at) && Resolve(mem, at).Ok?
    ensures forall a :: a in Pads(mem, at) ==> InMem(mem, a)
  {
    hide Decode, ReadStruct, ReadList;
  }

  lemma ClearPtrsGood(st: St, at: Addr)
    requires ValidSt(st) && InMem(st.mem, at)
    requires forall a :: a in Pads(st.mem, at) ==> InMem(st.mem, a)
    ensures forall a :: a == at || a in Pads(st.mem, at) ==> At(ClearPtrs(st, at).mem, a) == NULL
  {
    hide Decode, ClearPad, ValidSt, PadOf;
    var wire := Decode(At(st.mem, at));
    if wire.FarPtr? {
      assert Addr(wire.segment, wire.pad) in Pads(st.mem, at);
      assert wire.double ==> Addr(wire.segment, wire.pad + 1) in Pads(st.mem, at);
    }
  }

  // ----- Promotion of a struct

  datatype Promoted = Promoted(st: St, start: Addr, size: StructSize) | NotPromoted(st: St)

  predicate IsStruct(mem: Mem, at: Addr, size: StructSize, start: Addr) {
    InMem(mem, at) && Resolve(mem, at) == Ok(Object(StructShape(size), start))
  }

  lemma StructInside(mem: Mem, at: Addr, size: StructSize, start: Addr)
    requires IsStruct(mem, at, size, start)
    ensures start.seg < |mem| && start.off + size.Total() <= |mem[start.seg]|
  {
    hide TryReadTyped;
    ReaderSound(mem, at, Unlimited);
  }

  /** `promote_struct`: the old body stays as it is. */
  function MoveStruct(st: St, start: Addr, size: StructSize, to: Addr, newSize: StructSize): (r: Moving)
    requires ValidSt(st) && HasBody(st.mem, start, size.Total()) && HasBody(st.mem, to, newSize.Total())
    requires size.FitsInside(newSize)
    ensures ValidSt(r.st) && Grows(st.mem, r.st.mem)
  {
    var copied := CopyWords(st, start, to, size.data);
    TransferSection(copied, Slot(start, size.data), Slot(to, newSize.data), size.ptrs)
  }

  /** `promote_struct`, then the old body is cleared. */
  function PromoteInto(st: St, start: Addr, size: StructSize, to: Addr, newSize: StructSize): (r: Moving)
    requires ValidSt(st) && HasBody(st.mem, start, size.Total()) && HasBody(st.mem, to, newSize.Total())
    requires size.FitsInside(newSize)
    ensures ValidSt(r.st)
  {
    hide MoveStruct;
    var moved := MoveStruct(st, start, size, to, newSize);
    if moved.Stuck? then moved else Moved(ClearWords(moved.st, start, size.Total()))
  }

  /** `to_struct_mut_inner` of a pointer that resolves to the struct of `size` at `start`. */
  function ToStructMut(st: St, at: Addr, size: StructSize, start: Addr, expected: StructSize): Promoted
    requires ValidSt(st) && IsStruct(st.mem, at, size, start)
  {
    StructInside(st.mem, at, size, start);
    if expected.FitsInside(size) then
      Promoted(st, start, size)
    else
      var newSize := expected.Max(size);
      var cleared := ClearPtrs(st, at);
      AllocStructGood(cleared, at, newSize);
      var room := AllocStruct(cleared, at, newSize);
      if room.Failed? then
        NotPromoted(room.st)
      else
        var r := PromoteInto(room.st, start, size, room.start, newSize);
        if r.Stuck? then NotPromoted(r.st) else Promoted(r.st, room.start, newSize)
  }

  // ----- What promotion keeps

  /** The words a promotion gives up: the pointer, its pads and the old body. */
  ghost function Abandoned(mem: Mem, at: Addr, start: Addr, n: nat): iset<Addr>
    requires InMem(mem, at)
  {
    (iset a | a == at || a in Pads(mem, at)) + Body(start, n)
  }

  /** The pointers the struct holds. */
  function Fields(cells: seq<Cell>, size: StructSize): (values: seq<Value>)
    requires |cells| == size.Total() && forall i :: size.data <= i < |cells| ==> cells[i].Ref?
    ensures |values| == size.ptrs
  {
    seq(size.ptrs, i requires 0 <= i < size.ptrs => cells[size.data + i].value)
  }

  /** The content of a struct in the larger size: zero data words and null pointers are added. */
  function Enlarged(cells: seq<Cell>, size: StructSize, newSize: StructSize): (r: seq<Cell>)
    requires |cells| == size.Total() && size.FitsInside(newSize)
    ensures |r| == newSize.Total()
  {
    seq(newSize.Total(), i requires 0 <= i < newSize.Total() =>
      if i < size.data then cells[i]
      else if i < newSize.data then Data(NULL)
      else if i - newSize.data < size.ptrs then cells[i - newSize.data + size.data]
      else Ref(Null))
  }

  /**
   A struct that is held by one pointer only: the pointer, its pads and its body are apart, and nothing
   it refers to looks at them.
   */
  ghost predicate HeldStruct(mem: Mem, at: Addr, size: StructSize, start: Addr, cells: seq<Cell>, avoid: iset<Addr>) {
    && IsStruct(mem, at, size, start) && !At(mem, at).IsNull()
    && avoid <= AllWords(mem)
    && Denotes(mem, at, Obj(StructShape(size), cells), avoid)
    && at !in Body(start, size.Total())
    && (forall a :: a in Pads(mem, at) ==> a != at && a !in Body(start, size.Total()))
    && forall i :: size.data <= i < |cells| ==>
         cells[i].Ref? && Denotes(mem, Slot(start, i), cells[i].value, Abandoned(mem, at, start, size.Total()))
  }

  /** Not reading words that do not exist yet is no restriction. */
  lemma {:induction false} AvoidUnallocated(mem: Mem, at: Addr, v: Value, avoid: iset<Addr>, more: iset<Addr>)
    requires Denotes(mem, at, v, avoid)
    requires forall a :: a in more ==> a in avoid || !InMem(mem, a)
    ensures Denotes(mem, at, v, more)
    decreases v
  {
    hide Resolve, Words, IsPtrSlot, Pads;
    if v != Null {
      PadsInMem(mem, at);
      TagsInMem(mem, at);
    }
    if v.Obj? {
      forall i | 0 <= i < |v.cells|
        ensures CellAt(mem, Slot(Resolve(mem, at).value.start, i), v.cells[i], IsPtrSlot(v.shape, i), more)
      {
        var slot := Slot(Resolve(mem, at).value.start, i);
        assert CellAt(mem, slot, v.cells[i], IsPtrSlot(v.shape, i), avoid);
        if v.cells[i].Ref? {
          AvoidUnallocated(mem, slot, v.cells[i].value, avoid, more);
        }
      }
    }
  }

  /** The fields of a held struct read nothing of what a promotion touches. */
  lemma FieldsApart(mem: Mem, at: Addr, size: StructSize, start: Addr, cells: seq<Cell>, avoid: iset<Addr>,
                    touched: iset<Addr>)
    requires HeldStruct(mem, at, size, start, cells, avoid)
    requires forall a :: a in touched ==> a in avoid || a in Abandoned(mem, at, start, size.Total()) || !InMem(mem, a)
    ensures |cells| == size.Total()
    ensures forall i :: size.data <= i < |cells| ==> cells[i].Ref?
    ensures SectionMeans(mem, Slot(start, size.data), Fields(cells, size), touched)
    ensures forall i :: 0 <= i < size.ptrs ==> Resolved(mem, Slot(Slot(start, size.data), i))
    ensures forall i :: 0 <= i < size.data ==> CellAt(mem, Slot(start, i), cells[i], false, avoid)
  {
    hide Resolve, Pads, Abandoned, Tags;
    var gone := Abandoned(mem, at, start, size.Total());
    forall i | 0 <= i < |cells|
      ensures CellAt(mem, Slot(start, i), cells[i], size.data <= i, avoid)
    {
      assert IsPtrSlot(StructShape(size), i) == (size.data <= i);
    }
    var values := Fields(cells, size);
    forall i | 0 <= i < size.ptrs
      ensures Denotes(mem, Slot(Slot(start, size.data), i), values[i], touched)
      ensures Resolved(mem, Slot(Slot(start, size.data), i))
    {
      var slot := Slot(start, size.data + i);
      assert slot == Slot(Slot(start, size.data), i);
      assert CellAt(mem, slot, cells[size.data + i], true, avoid);
      FieldApart(mem, slot, cells[size.data + i].value, avoid, gone, touched);
    }
  }

  lemma FieldApart(mem: Mem, at: Addr, v: Value, avoid: iset<Addr>, gone: iset<Addr>, touched: iset<Addr>)
    requires Denotes(mem, at, v, avoid) && Denotes(mem, at, v, gone)
    requires forall a :: a in touched ==> a in avoid || a in gone || !InMem(mem, a)
    ensures Denotes(mem, at, v, touched) && Resolved(mem, at)
  {
    AvoidBoth(mem, at, v, avoid, gone, avoid + gone);
    AvoidUnallocated(mem, at, v, avoid + gone, touched);
    hide Resolve, Pads, Tags, Words, IsPtrSlot;
  }

  /** The room a struct is promoted into: fresh, null, and nothing was moved yet. */
  ghost predicate RoomReady(past: Mem, st: St, start: Addr, size: StructSize, to: Addr, newSize: StructSize,
                            touched: iset<Addr>)
  {
    && ValidSt(st) && Keeps(past, st.mem, touched)
    && size.FitsInside(newSize)
    && HasBody(past, start, size.Total()) && HasBody(st.mem, to, newSize.Total())
    && (to.seg < |past| ==> |past[to.seg]| <= to.off)
    && AllNull(st.mem, to, newSize.Total())
    && Body(to, newSize.Total()) <= touched <= AllWords(st.mem)
    && Body(start, size.Total()) <= touched
    && (forall i :: 0 <= i < size.Total() ==> SameAt(past, st.mem, Slot(start, i)))
  }

  /** The struct that is promoted, its fields reading nothing that is touched. */
  ghost predicate FieldsHeld(past: Mem, start: Addr, size: StructSize, cells: seq<Cell>, touched: iset<Addr>) {
    && |cells| == size.Total()
    && (forall i :: size.data <= i < |cells| ==> cells[i].Ref?)
    && (forall i :: 0 <= i < size.data ==> InMem(past, Slot(start, i)) && cells[i] == Data(At(past, Slot(start, i))))
    && (forall i :: 0 <= i < size.ptrs ==> Resolved(past, Slot(Slot(start, size.data), i)))
    && SectionMeans(past, Slot(start, size.data), Fields(cells, size), touched)
  }

  ghost predicate PromotionReady(past: Mem, st: St, start: Addr, size: StructSize, to: Addr, newSize: StructSize,
                                 cells: seq<Cell>, touched: iset<Addr>)
  {
    RoomReady(past, st, start, size, to, newSize, touched) && FieldsHeld(past, start, size, cells, touched)
  }

  /** The state after the data was copied: neither the fields nor the room for them were touched. */
  ghost predicate DataInPlace(past: Mem, st: St, start: Addr, size: StructSize, to: Addr, newSize: StructSize,
                              touched: iset<Addr>)
  {
    && ValidSt(st) && Keeps(past, st.mem, touched)
    && (forall i :: 0 <= i < size.ptrs ==> SameAt(past, st.mem, Slot(Slot(start, size.data), i)))
    && AllNull(st.mem, Slot(to, newSize.data), size.ptrs)
    && HasBody(st.mem, to, newSize.Total())
    && Body(Slot(to, newSize.data), size.ptrs) <= touched <= AllWords(st.mem)
  }

  lemma DataGetsInPlace(past: Mem, st: St, start: Addr, size: StructSize, to: Addr, newSize: StructSize,
                        touched: iset<Addr>)
    requires ValidSt(st) && HasBody(st.mem, start, size.data) && HasBody(st.mem, to, size.data)
    requires RoomReady(past, st, start, size, to, newSize, touched)
    ensures DataInPlace(past, CopyWords(st, start, to, size.data), start, size, to, newSize, touched)
  {
    hide CopyWords, ValidSt;
    var copied := CopyWords(st, start, to, size.data);
    var from, dst := Slot(start, size.data), Slot(to, newSize.data);
    assert Body(to, size.data) <= Body(to, newSize.Total());
    forall i | 0 <= i < size.ptrs
      ensures SameAt(past, copied.mem, Slot(from, i))
      ensures InMem(copied.mem, Slot(dst, i)) && At(copied.mem, Slot(dst, i)).IsNull()
    {
      assert Slot(from, i) == Slot(start, size.data + i);
      assert SameAt(past, st.mem, Slot(start, size.data + i));
      assert Slot(dst, i) == Slot(to, newSize.data + i);
    }
  }

  lemma SectionFrame(past: Mem, mem: Mem, from: Addr, values: seq<Value>, touched: iset<Addr>)
    requires SectionMeans(past, from, values, touched) && Keeps(past, mem, touched)
    requires forall i :: 0 <= i < |values| ==> SameAt(past, mem, Slot(from, i))
    ensures SectionMeans(mem, from, values, touched)
  {
    hide Denotes;
    forall i | 0 <= i < |values|
      ensures Denotes(mem, Slot(from, i), values[i], touched)
    {
      DenotesFrame(past, mem, Slot(from, i), values[i], touched);
    }
  }

  /** Once the data is copied, the fields are ready to be transferred. */
  ghost predicate FieldsCanMove(past: Mem, st: St, start: Addr, size: StructSize, to: Addr, newSize: StructSize,
                                values: seq<Value>, touched: iset<Addr>)
    requires ValidSt(st) && HasBody(st.mem, start, size.data) && HasBody(st.mem, to, size.data)
  {
    SectionReady(past, CopyWords(st, start, to, size.data), Slot(start, size.data), Slot(to, newSize.data), values,
                 touched)
  }

  lemma RoomFacts(past: Mem, st: St, start: Addr, size: StructSize, to: Addr, newSize: StructSize, touched: iset<Addr>)
    requires RoomReady(past, st, start, size, to, newSize, touched)
    ensures ValidSt(st) && Grows(past, st.mem) && size.FitsInside(newSize)
    ensures HasBody(st.mem, start, size.Total()) && HasBody(st.mem, to, newSize.Total())
    ensures HasBody(past, start, size.Total())
    ensures to.seg < |past| ==> |past[to.seg]| <= to.off
    ensures Body(start, size.Total()) <= touched && Body(to, newSize.Total()) <= touched <= AllWords(st.mem)
  {
  }

  /** What the steps of a promotion need to make sense. */
  ghost predicate CanPromote(st: St, start: Addr, size: StructSize, to: Addr, newSize: StructSize, cells: seq<Cell>) {
    && ValidSt(st) && HasBody(st.mem, start, size.Total()) && HasBody(st.mem, to, newSize.Total())
    && size.FitsInside(newSize)
    && |cells| == size.Total() && forall i :: size.data <= i < |cells| ==> cells[i].Ref?
  }

  lemma ReadyToPromote(past: Mem, st: St, start: Addr, size: StructSize, to: Addr, newSize: StructSize,
                       cells: seq<Cell>, touched: iset<Addr>)
    requires PromotionReady(past, st, start, size, to, newSize, cells, touched)
    ensures CanPromote(st, start, size, to, newSize, cells)
  {
    hide RoomReady, SectionMeans, Resolved;
    RoomFacts(past, st, start, size, to, newSize, touched);
  }

  lemma SectionIsReady(past: Mem, st: St, start: Addr, size: StructSize, to: Addr, newSize: StructSize,
                       values: seq<Value>, touched: iset<Addr>)
    requires DataInPlace(past, st, start, size, to, newSize, touched) && size.FitsInside(newSize)
    requires HasBody(past, start, size.Total()) && |values| == size.ptrs
    requires to.seg < |past| ==> |past[to.seg]| <= to.off
    requires forall i :: 0 <= i < size.ptrs ==> Resolved(past, Slot(Slot(start, size.data), i))
    requires SectionMeans(past, Slot(start, size.data), values, touched)
    ensures SectionReady(past, st, Slot(start, size.data), Slot(to, newSize.data), values, touched)
  {
    hide SectionMeans, Resolved, AllNull, Body, AllWords;
    SectionFrame(past, st.mem, Slot(start, size.data), values, touched);
  }

  lemma FieldsReady(past: Mem, st: St, start: Addr, size: StructSize, to: Addr, newSize: StructSize,
                    cells: seq<Cell>, touched: iset<Addr>)
    requires CanPromote(st, start, size, to, newSize, cells)
    requires PromotionReady(past, st, start, size, to, newSize, cells, touched)
    ensures FieldsCanMove(past, st, start, size, to, newSize, Fields(cells, size), touched)
  {
    hide SectionMeans, Resolved, CopyWords, RoomReady, DataInPlace, SectionReady, Body, AllWords;
    RoomFacts(past, st, start, size, to, newSize, touched);
    DataGetsInPlace(past, st, start, size, to, newSize, touched);
    SectionIsReady(past, CopyWords(st, start, to, size.data), start, size, to, newSize, Fields(cells, size), touched);
  }

  /** A struct that was moved is found at its new place, enlarged. */
  lemma MovedStruct(past: Mem, st: St, start: Addr, size: StructSize, to: Addr, newSize: StructSize,
                    cells: seq<Cell>, touched: iset<Addr>)
    requires CanPromote(st, start, size, to, newSize, cells)
    requires PromotionReady(past, st, start, size, to, newSize, cells, touched)
    ensures var r := MoveStruct(st, start, size, to, newSize);
            && Keeps(st.mem, r.st.mem, Body(to, newSize.Total()))
            && (r.Moved? ==> AllStored(r.st.mem, to, Enlarged(cells, size, newSize), touched))
  {
    hide TransferSection, CopyWords, PromotionReady, CellStored, Enlarged, Body;
    MoveKeeps(past, st, start, size, to, newSize, cells, touched);
    var r := MoveStruct(st, start, size, to, newSize);
    if r.Moved? {
      forall i | 0 <= i < newSize.Total()
        ensures CellStored(r.st.mem, Slot(to, i), Enlarged(cells, size, newSize)[i], touched)
      {
        MovedCell(past, st, start, size, to, newSize, cells, touched, i);
      }
    }
  }

  lemma MoveKeeps(past: Mem, st: St, start: Addr, size: StructSize, to: Addr, newSize: StructSize,
                  cells: seq<Cell>, touched: iset<Addr>)
    requires CanPromote(st, start, size, to, newSize, cells)
    requires PromotionReady(past, st, start, size, to, newSize, cells, touched)
    ensures Keeps(st.mem, MoveStruct(st, start, size, to, newSize).st.mem, Body(to, newSize.Total()))
  {
    hide TransferSection, CopyWords, PromotionReady, SectionReady, SectionMeans, Body;
    var copied := CopyWords(st, start, to, size.data);
    var from, dst := Slot(start, size.data), Slot(to, newSize.data);
    FieldsReady(past, st, start, size, to, newSize, cells, touched);
    BodyStarts(to, size.data, newSize.Total());
    BodyEnds(to, newSize.data, size.ptrs, newSize.Total());
    TransferSectionGood(past, copied, from, dst, Fields(cells, size), touched);
  }

  lemma BodyEnds(start: Addr, skip: nat, n: nat, m: nat)
    requires skip + n <= m
    ensures Body(Slot(start, skip), n) <= Body(start, m)
  {
  }

  /** `n` words were copied from `start` to `to`, and nothing else changed. */
  ghost predicate CopiedOver(mem: Mem, copied: Mem, start: Addr, to: Addr, n: nat)
    requires HasBody(mem, start, n)
  {
    && Keeps(mem, copied, Body(to, n))
    && forall i :: 0 <= i < n ==>
         InMem(copied, Slot(to, i)) && At(copied, Slot(to, i)) == At(mem, Slot(start, i))
  }

  lemma WordsCopiedOver(st: St, start: Addr, to: Addr, n: nat)
    requires ValidSt(st) && HasBody(st.mem, start, n) && HasBody(st.mem, to, n)
    requires Body(start, n) !! Body(to, n)
    ensures CopiedOver(st.mem, CopyWords(st, start, to, n).mem, start, to, n)
  {
    hide CopyWords, Body, Keeps;
    CopyWordsGood(st, start, to, n);
    HasSlots(st.mem, to, n);
  }

  /** The memories of a move: after the data was copied, and after the fields were moved. */
  ghost predicate MoveSteps(mem: Mem, copied: Mem, moved: Mem, start: Addr, size: StructSize, to: Addr,
                            newSize: StructSize, values: seq<Value>, touched: iset<Addr>)
  {
    var dst := Slot(to, newSize.data);
    && HasBody(mem, start, size.Total()) && HasBody(mem, to, newSize.Total())
    && CopiedOver(mem, copied, start, to, size.data)
    && Keeps(copied, moved, Body(dst, size.ptrs))
    && |values| == size.ptrs && SectionMeans(moved, dst, values, touched)
  }

  ghost predicate StepsOf(st: St, start: Addr, size: StructSize, to: Addr, newSize: StructSize, cells: seq<Cell>,
                          touched: iset<Addr>)
    requires CanPromote(st, start, size, to, newSize, cells)
  {
    MoveSteps(st.mem, CopyWords(st, start, to, size.data).mem, MoveStruct(st, start, size, to, newSize).st.mem, start,
              size, to, newSize, Fields(cells, size), touched)
  }

  lemma StepsTaken(past: Mem, st: St, start: Addr, size: StructSize, to: Addr, newSize: StructSize,
                   cells: seq<Cell>, touched: iset<Addr>)
    requires CanPromote(st, start, size, to, newSize, cells)
    requires PromotionReady(past, st, start, size, to, newSize, cells, touched)
    requires MoveStruct(st, start, size, to, newSize).Moved?
    ensures StepsOf(st, start, size, to, newSize, cells, touched)
  {
    hide TransferSection, CopyWords, SectionReady, SectionMeans, FieldsHeld, RoomReady, Body, Keeps, CopiedOver;
    RoomFacts(past, st, start, size, to, newSize, touched);
    FieldsReady(past, st, start, size, to, newSize, cells, touched);
    var copied := CopyWords(st, start, to, size.data);
    TransferSectionGood(past, copied, Slot(start, size.data), Slot(to, newSize.data), Fields(cells, size), touched);
    BodiesApart(past, start, size.Total(), to, newSize.Total());
    BodyStarts(start, size.data, size.Total());
    BodyStarts(to, size.data, newSize.Total());
    WordsCopiedOver(st, start, to, size.data);
  }

  lemma BodyStarts(start: Addr, n: nat, m: nat)
    requires n <= m
    ensures Body(start, n) <= Body(start, m)
  {
  }

  lemma HasSlots(mem: Mem, start: Addr, n: nat)
    requires HasBody(mem, start, n)
    ensures forall i :: 0 <= i < n ==> InMem(mem, Slot(start, i))
  {
  }

  lemma BodiesApart(past: Mem, start: Addr, n: nat, to: Addr, m: nat)
    requires HasBody(past, start, n)
    requires to.seg < |past| ==> |past[to.seg]| <= to.off
    ensures Body(to, m) !! Body(start, n)
  {
  }

  lemma DataKept(mem: Mem, copied: Mem, moved: Mem, start: Addr, size: StructSize, to: Addr,
                 newSize: StructSize, values: seq<Value>, touched: iset<Addr>, i: nat)
    requires MoveSteps(mem, copied, moved, start, size, to, newSize, values, touched)
    requires size.FitsInside(newSize) && i < size.data
    ensures InMem(moved, Slot(to, i)) && At(moved, Slot(to, i)) == At(mem, Slot(start, i))
  {
    hide Denotes;
  }

  lemma RestNull(mem: Mem, copied: Mem, moved: Mem, start: Addr, size: StructSize, to: Addr,
                 newSize: StructSize, values: seq<Value>, touched: iset<Addr>, i: nat)
    requires MoveSteps(mem, copied, moved, start, size, to, newSize, values, touched)
    requires size.data <= i < newSize.data || newSize.data + size.ptrs <= i < newSize.Total()
    requires size.FitsInside(newSize) && InMem(mem, Slot(to, i)) && At(mem, Slot(to, i)).IsNull()
    ensures InMem(moved, Slot(to, i)) && At(moved, Slot(to, i)).IsNull()
  {
    hide Denotes;
  }

  lemma MovedCell(past: Mem, st: St, start: Addr, size: StructSize, to: Addr, newSize: StructSize,
                  cells: seq<Cell>, touched: iset<Addr>, i: nat)
    requires CanPromote(st, start, size, to, newSize, cells)
    requires MoveStruct(st, start, size, to, newSize).Moved?
    requires PromotionReady(past, st, start, size, to, newSize, cells, touched) && i < newSize.Total()
    ensures CellStored(MoveStruct(st, start, size, to, newSize).st.mem, Slot(to, i),
                       Enlarged(cells, size, newSize)[i], touched)
  {
    hide Denotes, Resolve, CopyWords, MoveSteps, SectionMeans, MoveStruct, Resolved;
    StepsTaken(past, st, start, size, to, newSize, cells, touched);
    var copied := CopyWords(st, start, to, size.data);
    var moved := MoveStruct(st, start, size, to, newSize).st;
    var values := Fields(cells, size);
    if i < size.data {
      DataKept(st.mem, copied.mem, moved.mem, start, size, to, newSize, values, touched, i);
      assert SameAt(past, st.mem, Slot(start, i));
    } else if newSize.data <= i && i - newSize.data < size.ptrs {
      FieldMoved(st.mem, copied.mem, moved.mem, start, size, to, newSize, values, touched, i - newSize.data);
    } else {
      RestNull(st.mem, copied.mem, moved.mem, start, size, to, newSize, values, touched, i);
      NullStored(st.mem, moved.mem, Slot(to, i), touched, i < newSize.data);
    }
  }

  lemma FieldMoved(mem: Mem, copied: Mem, moved: Mem, start: Addr, size: StructSize, to: Addr,
                   newSize: StructSize, values: seq<Value>, touched: iset<Addr>, i: nat)
    requires MoveSteps(mem, copied, moved, start, size, to, newSize, values, touched) && i < size.ptrs
    ensures InMem(moved, Slot(to, newSize.data + i)) && Denotes(moved, Slot(to, newSize.data + i), values[i], touched)
  {
    hide Resolve, Pads, Tags, Words, IsPtrSlot;
    assert Slot(Slot(to, newSize.data), i) == Slot(to, newSize.data + i);
  }

  lemma AllStoredFrame(mem: Mem, mem': Mem, start: Addr, cells: seq<Cell>, touched: iset<Addr>, changed: iset<Addr>)
    requires AllStored(mem, start, cells, touched)
    requires Keeps(mem, mem', changed) && changed <= touched && Body(start, |cells|) !! changed
    ensures AllStored(mem', start, cells, touched)
  {
    hide CellStored;
    forall i | 0 <= i < |cells|
      ensures CellStored(mem', Slot(start, i), cells[i], touched)
    {
      CellStoredIn(mem, Slot(start, i), cells[i], touched);
      assert Slot(start, i) in Body(start, |cells|);
      CellStoredFrame(mem, mem', Slot(start, i), cells[i], touched);
    }
  }

  /** The old words are cleared; what was moved out of them stays. */
  lemma OldWordsCleared(st: St, tag: Addr, n: nat, to: Addr, cells: seq<Cell>, touched: iset<Addr>)
    requires ValidSt(st) && HasBody(st.mem, tag, n)
    requires AllStored(st.mem, to, cells, touched) && Body(tag, n) <= touched && Body(to, |cells|) !! Body(tag, n)
    ensures AllStored(ClearWords(st, tag, n).mem, to, cells, touched)
    ensures AllNull(ClearWords(st, tag, n).mem, tag, n)
  {
    hide ClearWords, AllStored, Body;
    ClearWordsGood(st, tag, n);
    AllStoredFrame(st.mem, ClearWords(st, tag, n).mem, to, cells, touched, Body(tag, n));
  }

  /** The promoted struct: data copied, new words null, every field meaning what it meant; the old body is null. */
  lemma PromoteIntoGood(past: Mem, st: St, start: Addr, size: StructSize, to: Addr, newSize: StructSize,
                        cells: seq<Cell>, touched: iset<Addr>)
    requires CanPromote(st, start, size, to, newSize, cells)
    requires PromotionReady(past, st, start, size, to, newSize, cells, touched)
    ensures var r := PromoteInto(st, start, size, to, newSize);
            && Keeps(st.mem, r.st.mem, Body(to, newSize.Total()) + Body(start, size.Total()))
            && (r.Moved? ==>
                  && AllStored(r.st.mem, to, Enlarged(cells, size, newSize), touched)
                  && AllNull(r.st.mem, start, size.Total()))
  {
    hide AllStored, AllNull, RoomReady, FieldsHeld, MoveStruct, ClearWords, Body, Enlarged;
    RoomFacts(past, st, start, size, to, newSize, touched);
    MovedStruct(past, st, start, size, to, newSize, cells, touched);
    var moved := MoveStruct(st, start, size, to, newSize);
    if moved.Moved? {
      BodiesApart(past, start, size.Total(), to, newSize.Total());
      OldWordsCleared(moved.st, start, size.Total(), to, Enlarged(cells, size, newSize), touched);
    }
  }

  lemma NullStored(mem: Mem, mem': Mem, at: Addr, touched: iset<Addr>, isData: bool)
    requires InMem(mem, at) && At(mem, at).IsNull() && SameAt(mem, mem', at)
    ensures CellStored(mem', at, if isData then Data(NULL) else Ref(Null), touched)
  {
  }

  lemma AbandonedInside(mem: Mem, at: Addr, size: StructSize, start: Addr)
    requires IsStruct(mem, at, size, start)
    ensures Abandoned(mem, at, start, size.Total()) <= AllWords(mem)
    ensures HasBody(mem, start, size.Total())
  {
    hide TryReadTyped, Pads;
    PadsInMem(mem, at);
    StructInside(mem, at, size, start);
  }

  lemma RoomIsFresh(st: St, at: Addr, size: StructSize, start: Addr, newSize: StructSize, room: Placing,
                    touched: iset<Addr>, avoid: iset<Addr>)
    requires ValidSt(st) && IsStruct(st.mem, at, size, start) && avoid <= AllWords(st.mem)
    requires size.FitsInside(newSize) && newSize.Total() > 0
    requires at !in Body(start, size.Total())
    requires forall a :: a in Pads(st.mem, at) ==> a !in Body(start, size.Total())
    requires room.Placed? && Allocated(ClearPtrs(st, at), room.st, at, room.start, newSize.Total())
    requires touched == Abandoned(st.mem, at, start, size.Total()) + avoid + Body(room.start, newSize.Total())
    ensures HasBody(room.st.mem, start, size.Total())
    ensures RoomReady(st.mem, room.st, start, size, room.start, newSize, touched)
  {
    hide Resolve, Pads, ClearPtrs;
    AbandonedInside(st.mem, at, size, start);
    FreshBody(ClearPtrs(st, at).mem, room.st.mem, room.start, newSize.Total());
    BodySlots(start, size.Total());
  }

  lemma HeldFields(mem: Mem, at: Addr, size: StructSize, start: Addr, cells: seq<Cell>, avoid: iset<Addr>,
                   touched: iset<Addr>)
    requires HeldStruct(mem, at, size, start, cells, avoid)
    requires forall a :: a in touched ==> a in avoid || a in Abandoned(mem, at, start, size.Total()) || !InMem(mem, a)
    ensures FieldsHeld(mem, start, size, cells, touched)
  {
    hide Denotes, Resolve, Pads;
    FieldsApart(mem, at, size, start, cells, avoid, touched);
    DataInMem(mem, start, cells, size.data, avoid);
  }

  /** What the allocation of the larger body leaves for the promotion to work on. */
  lemma RoomIsReady(st: St, at: Addr, size: StructSize, start: Addr, cells: seq<Cell>, newSize: StructSize,
                    avoid: iset<Addr>)
    requires ValidSt(st) && HeldStruct(st.mem, at, size, start, cells, avoid)
    requires size.FitsInside(newSize) && newSize.Total() > 0
    requires AllocStruct(ClearPtrs(st, at), at, newSize).Placed?
    ensures var room := AllocStruct(ClearPtrs(st, at), at, newSize);
            && HasBody(room.st.mem, start, size.Total())
            && ObjectPlaced(ClearPtrs(st, at), at, StructShape(newSize), room)
            && PromotionReady(st.mem, room.st, start, size, room.start, newSize, cells,
                              Abandoned(st.mem, at, start, size.Total()) + avoid + Body(room.start, newSize.Total()))
  {
    hide Denotes, Resolve, Pads, AllocStruct, ClearPtrs, Readable, RoomReady, FieldsHeld;
    var cleared := ClearPtrs(st, at);
    AllocStructGood(cleared, at, newSize);
    var room := AllocStruct(cleared, at, newSize);
    var touched := Abandoned(st.mem, at, start, size.Total()) + avoid + Body(room.start, newSize.Total());
    RoomIsFresh(st, at, size, start, newSize, room, touched, avoid);
    FreshBody(cleared.mem, room.st.mem, room.start, newSize.Total());
    HeldFields(st.mem, at, size, start, cells, avoid, touched);
  }

  lemma FreshBody(before: Mem, mem: Mem, start: Addr, n: nat)
    requires n > 0 && Fresh(before, mem, start, n)
    ensures forall a :: a in Body(start, n) ==> !InMem(before, a) && InMem(mem, a)
    ensures forall i :: 0 <= i < n ==> InMem(mem, Slot(start, i))
  {
  }

  lemma BodySlots(start: Addr, n: nat)
    ensures forall i :: 0 <= i < n ==> Slot(start, i) in Body(start, n)
  {
  }

  lemma DataInMem(mem: Mem, start: Addr, cells: seq<Cell>, n: nat, avoid: iset<Addr>)
    requires n <= |cells| && forall i :: 0 <= i < n ==> CellAt(mem, Slot(start, i), cells[i], false, avoid)
    ensures forall i :: 0 <= i < n ==> InMem(mem, Slot(start, i)) && cells[i] == Data(At(mem, Slot(start, i)))
  {
    forall i | 0 <= i < n
      ensures InMem(mem, Slot(start, i)) && cells[i] == Data(At(mem, Slot(start, i)))
    {
      assert CellAt(mem, Slot(start, i), cells[i], false, avoid);
    }
  }

  /** An object of any shape is found behind its pointer once its cells are stored. */
  lemma ObjectRead(before: Mem, mem: Mem, mem': Mem, at: Addr, shape: Shape, to: Addr, older: iset<Addr>,
                   cells: seq<Cell>, touched: iset<Addr>, avoid: iset<Addr>)
    requires Readable(before, mem, at, shape, to)
    requires forall a :: a in Body(to, Words(shape)) ==> !InMem(before, a)
    requires InMem(before, at) && at !in older && older <= AllWords(before)
    requires Keeps(mem, mem', Body(to, Words(shape)) + older)
    requires |cells| == Words(shape) && AllStored(mem', to, cells, touched)
    requires forall i :: 0 <= i < |cells| ==> cells[i].Ref? == IsPtrSlot(shape, i)
    requires avoid <= touched && avoid <= AllWords(before)
    ensures Denotes(mem', at, Obj(shape, cells), avoid)
  {
    hide Resolve, Pads, Tags, Denotes, Words, IsPtrSlot;
    ApartFromBody(Pads(mem, at) + Tags(Object(shape, to)), to, Words(shape));
    PadsInMem(mem, at);
    TagsInMem(mem, at);
    ResolveFrame(mem, mem', at);
    forall i | 0 <= i < |cells|
      ensures CellAt(mem', Slot(to, i), cells[i], IsPtrSlot(shape, i), avoid)
    {
      StoredCell(mem', Slot(to, i), cells[i], touched, avoid);
      assert Slot(to, i) in Body(to, Words(shape));
    }
    ObjectMeans(mem', at, shape, to, cells, avoid);
  }

  lemma StoredCell(mem: Mem, at: Addr, cell: Cell, touched: iset<Addr>, avoid: iset<Addr>)
    requires CellStored(mem, at, cell, touched) && avoid <= touched
    ensures at !in avoid ==> CellAt(mem, at, cell, cell.Ref?, avoid)
  {
    hide Resolve, Pads, Tags;
    if cell.Ref? {
      AvoidBoth(mem, at, cell.value, touched, touched, avoid);
    }
  }

  lemma ObjectMeans(mem: Mem, at: Addr, shape: Shape, start: Addr, cells: seq<Cell>, avoid: iset<Addr>)
    requires InMem(mem, at) && !At(mem, at).IsNull() && Resolve(mem, at) == Ok(Object(shape, start))
    requires Avoids(Pads(mem, at) + Tags(Object(shape, start)), avoid) && |cells| == Words(shape)
    requires forall i :: 0 <= i < |cells| ==> CellAt(mem, Slot(start, i), cells[i], IsPtrSlot(shape, i), avoid)
    ensures Denotes(mem, at, Obj(shape, cells), avoid)
  {
    hide Resolve, Pads, Tags, Words, IsPtrSlot;
  }

  /**
   Promotion preserves meaning. The pointer refers to a struct of the larger size with the old data words
   and, field by field, the old meanings, however many landing pads that took; what was added is zero and
   null; the old body and the old pads are cleared; and no other word that existed has changed.
   */
  lemma PromotionPreserves(st: St, at: Addr, size: StructSize, start: Addr, cells: seq<Cell>, expected: StructSize,
                           avoid: iset<Addr>)
    requires ValidSt(st) && HeldStruct(st.mem, at, size, start, cells, avoid)
    requires !expected.FitsInside(size)
    ensures var r := ToStructMut(st, at, size, start, expected);
            && Keeps(st.mem, r.st.mem, Abandoned(st.mem, at, start, size.Total()))
            && (r.Promoted? ==>
                  && r.size == expected.Max(size) && |cells| == size.Total()
                  && Denotes(r.st.mem, at, Obj(StructShape(r.size), Enlarged(cells, size, r.size)), avoid)
                  && AllNull(r.st.mem, start, size.Total())
                  && forall a :: a in Pads(st.mem, at) ==> InMem(r.st.mem, a) && At(r.st.mem, a).IsNull())
  {
    hide Denotes, Resolve, Pads, AllocStruct, ClearPtrs, PromoteInto, PromotionReady, AllStored, Readable;
    var newSize := expected.Max(size);
    var gone := Abandoned(st.mem, at, start, size.Total());
    var cleared := ClearPtrs(st, at);
    AllocStructGood(cleared, at, newSize);
    AbandonedInside(st.mem, at, size, start);
    var room := AllocStruct(cleared, at, newSize);
    if room.Placed? {
      RoomIsReady(st, at, size, start, cells, newSize, avoid);
      var body := Body(room.start, newSize.Total());
      var touched := gone + avoid + body;
      ReadyToPromote(st.mem, room.st, start, size, room.start, newSize, cells, touched);
      PromoteIntoGood(st.mem, room.st, start, size, room.start, newSize, cells, touched);
      FreshBody(cleared.mem, room.st.mem, room.start, newSize.Total());
      var r := PromoteInto(room.st, start, size, room.start, newSize);
      if r.Moved? {
        EnlargedPattern(st, room.st, start, size, room.start, newSize, cells, touched);
        ObjectRead(cleared.mem, room.st.mem, r.st.mem, at, StructShape(newSize), room.start, Body(start, size.Total()),
                   Enlarged(cells, size, newSize), touched, avoid);
        PadsInMem(st.mem, at);
        ClearPtrsGood(st, at);
      }
    }
  }

  lemma EnlargedPattern(st: St, st': St, start: Addr, size: StructSize, to: Addr, newSize: StructSize, cells: seq<Cell>,
                        touched: iset<Addr>)
    requires PromotionReady(st.mem, st', start, size, to, newSize, cells, touched)
    ensures |cells| == size.Total()
    ensures var larger := Enlarged(cells, size, newSize);
            forall i :: 0 <= i < |larger| ==> larger[i].Ref? == (newSize.data <= i)
  {
    hide Denotes, Resolve;
  }

  /** A pointer still leads to its object when content and older words are written. */
  lemma StillResolves(before: Mem, mem: Mem, mem': Mem, at: Addr, shape: Shape, to: Addr, older: iset<Addr>)
    requires Readable(before, mem, at, shape, to) && InMem(before, at)
    requires forall a :: a in Body(to, Words(shape)) ==> !InMem(before, a)
    requires at !in older && older <= AllWords(before)
    requires Keeps(mem, mem', Body(to, Words(shape)) + older)
    ensures InMem(mem', at) && !At(mem', at).IsNull() && Resolve(mem', at) == Ok(Object(shape, to))
  {
    hide Resolve, Pads, Tags, Words;
    ApartFromBody(Pads(mem, at) + Tags(Object(shape, to)), to, Words(shape));
    PadsInMem(mem, at);
    TagsInMem(mem, at);
    ResolveFrame(mem, mem', at);
  }

  /**
   What a refused promotion leaves in the pointer: null if there was no room for the new object, else the
   pointer to that object, which holds what was moved so far.
   */
  ghost predicate LeftBehind(st: St, at: Addr, shape: Shape, mem': Mem)
    requires ValidSt(st) && InMem(st.mem, at)
  {
    var room := AllocObject(ClearPtrs(st, at), at, shape);
    && InMem(mem', at)
    && (At(mem', at).IsNull() <==> room.Failed?)
    && (room.Placed? ==> Resolve(mem', at) == Ok(Object(shape, room.start)))
  }

  lemma NoRoomLeaves(st: St, at: Addr, shape: Shape)
    requires ValidSt(st) && InMem(st.mem, at) && Resolve(st.mem, at).Ok?
    requires var room := AllocObject(ClearPtrs(st, at), at, shape);
             ObjectPlaced(ClearPtrs(st, at), at, shape, room) && room.Failed?
    ensures LeftBehind(st, at, shape, AllocObject(ClearPtrs(st, at), at, shape).st.mem)
  {
    hide AllocObject, ClearPtrs, Resolve, Pads, Readable, Words;
    PadsInMem(st.mem, at);
    ClearPtrsGood(st, at);
  }

  /** The move was refused on the way, after it wrote some of the new content. */
  lemma StuckLeaves(st: St, at: Addr, shape: Shape, mem': Mem)
    requires ValidSt(st) && InMem(st.mem, at)
    requires var room := AllocObject(ClearPtrs(st, at), at, shape);
             && ObjectPlaced(ClearPtrs(st, at), at, shape, room) && room.Placed?
             && (forall a :: a in Body(room.start, Words(shape)) ==> !InMem(ClearPtrs(st, at).mem, a))
             && Keeps(room.st.mem, mem', Body(room.start, Words(shape)))
    ensures LeftBehind(st, at, shape, mem')
  {
    hide AllocObject, ClearPtrs, Resolve, Pads, Readable, Words, Body;
    var room := AllocObject(ClearPtrs(st, at), at, shape);
    assert Body(room.start, Words(shape)) + iset{} == Body(room.start, Words(shape));
    StillResolves(ClearPtrs(st, at).mem, room.st.mem, mem', at, shape, room.start, iset{});
  }

  /** A struct whose promotion was refused. */
  lemma RefusedPromotion(st: St, at: Addr, size: StructSize, start: Addr, cells: seq<Cell>, expected: StructSize,
                         avoid: iset<Addr>)
    requires ValidSt(st) && HeldStruct(st.mem, at, size, start, cells, avoid) && InMem(st.mem, at)
    requires !expected.FitsInside(size) && IsStruct(st.mem, at, size, start)
    requires ToStructMut(st, at, size, start, expected).NotPromoted?
    ensures LeftBehind(st, at, StructShape(expected.Max(size)), ToStructMut(st, at, size, start, expected).st.mem)
  {
    hide Denotes, Resolve, Pads, AllocStruct, ClearPtrs, MoveStruct, PromotionReady, Readable, Body, HeldStruct,
         LeftBehind, CanPromote;
    var newSize := expected.Max(size);
    var cleared := ClearPtrs(st, at);
    AllocStructGood(cleared, at, newSize);
    var room := AllocStruct(cleared, at, newSize);
    if room.Failed? {
      NoRoomLeaves(st, at, StructShape(newSize));
    } else {
      RoomIsReady(st, at, size, start, cells, newSize, avoid);
      var touched := Abandoned(st.mem, at, start, size.Total()) + avoid + Body(room.start, newSize.Total());
      ReadyToPromote(st.mem, room.st, start, size, room.start, newSize, cells, touched);
      CanPromoteParts(room.st, start, size, room.start, newSize, cells);
      MoveKeeps(st.mem, room.st, start, size, room.start, newSize, cells, touched);
      FreshBody(cleared.mem, room.st.mem, room.start, newSize.Total());
      StuckLeaves(st, at, StructShape(newSize), MoveStruct(room.st, start, size, room.start, newSize).st.mem);
    }
  }

  lemma CanPromoteParts(st: St, start: Addr, size: StructSize, to: Addr, newSize: StructSize, cells: seq<Cell>)
    requires CanPromote(st, start, size, to, newSize, cells)
    ensures ValidSt(st) && HasBody(st.mem, start, size.Total()) && HasBody(st.mem, to, newSize.Total())
    ensures size.FitsInside(newSize)
  {
  }

  /** Every pointer a section transfer comes to is null or resolves. */
  ghost predicate SaneSection(st: St, from: Addr, to: Addr, n: nat) {
    && ValidSt(st) && HasBody(st.mem, from, n) && HasBody(st.mem, to, n)
    && forall i :: 0 <= i < n && TransferSection(st, from, to, i).Moved? ==>
         Sane(TransferSection(st, from, to, i).st.mem, Slot(from, i))
  }

  /** A section that is ready never gets stuck on a pointer, only on a refused allocation. */
  lemma SectionIsSane(past: Mem, st: St, from: Addr, to: Addr, values: seq<Value>, touched: iset<Addr>)
    requires SectionReady(past, st, from, to, values, touched)
    ensures SaneSection(st, from, to, |values|)
  {
    hide Denotes, TransferSection, Resolve;
    var n := |values|;
    forall i | 0 <= i < n && TransferSection(st, from, to, i).Moved?
      ensures Sane(TransferSection(st, from, to, i).st.mem, Slot(from, i))
    {
      var fore := values[..i];
      assert SectionReady(past, st, from, to, fore, touched) by {
        assert Body(to, i) <= Body(to, n);
      }
      TransferSectionGood(past, st, from, to, fore, touched);
      var st' := TransferSection(st, from, to, i).st;
      assert Denotes(st.mem, Slot(from, i), values[i], touched);
      DenotesFrame(st.mem, st'.mem, Slot(from, i), values[i], touched);
      MeaningIsSane(st'.mem, Slot(from, i), values[i], touched);
    }
  }

  lemma MeaningIsSane(mem: Mem, at: Addr, v: Value, avoid: iset<Addr>)
    requires Denotes(mem, at, v, avoid)
    ensures Sane(mem, at)
  {
    hide Resolve, Pads, Tags, Words, IsPtrSlot;
  }
}
