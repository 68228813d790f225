/**
 List promotion as the source runs it, on the words of an arena.
 */
module PromotingLists {
  import opened Wire
  import opened Reader
  import opened Values
  import opened Layout
  import opened Putting
  import opened Promotion
  import opened ListPromotion
  import opened DataPromotion
  import opened PointerPromotion
  import opened Promoting
  import opened ArenaHeap

  // ----- Lists of structs

  /** `promote_list` of structs that are held by one list pointer only. */
  method MoveAllStructs(arena: Arena, start: Addr, size: StructSize, to: Addr, newSize: StructSize, count: nat,
                        ghost past: Mem, ghost cells: seq<Cell>, ghost touched: iset<Addr>)
    returns (ok: bool)
    requires arena.Valid() && size.FitsInside(newSize)
    requires HasBody(arena.st.mem, start, Times(count, size)) && HasBody(arena.st.mem, to, Times(count, newSize))
    requires ListRoom(past, arena.st, start, size, to, newSize, count, touched)
    requires ElementsHeld(past, start, size, cells, count, touched)
    modifies arena.Repr
    ensures arena.Valid() && fresh(arena.Repr - old(arena.Repr))
    ensures arena.st == MoveElements(old(arena.st), start, size, to, newSize, count).st
    ensures ok == MoveElements(old(arena.st), start, size, to, newSize, count).Moved?
  {
    hide MoveStruct, MoveElements, ListRoom, ElementsHeld, HasBody, Times, ValidSt;
    ghost var st := arena.st;
    ok := true;
    ValidArena(arena);
    NothingMovedYet(st, start, size, to, newSize);
    var i := 0;
    while i < count && ok
      invariant i <= count && arena.Valid() && fresh(arena.Repr - old(arena.Repr)) && ValidSt(st)
      invariant HasBody(st.mem, start, Times(i, size)) && HasBody(st.mem, to, Times(i, newSize))
      invariant arena.st == MoveElements(st, start, size, to, newSize, i).st
      invariant ok == MoveElements(st, start, size, to, newSize, i).Moved?
    {
      BodyOfMore(st.mem, start, size, i + 1, count);
      BodyOfMore(st.mem, to, newSize, i + 1, count);
      MoveStep(st, start, size, to, newSize, i + 1);
      ElementIsSane(past, st, arena.st, start, size, to, newSize, cells, count, i, touched);
      ok := MoveOneStruct(arena, Slot(start, Times(i, size)), size, Slot(to, Times(i, newSize)), newSize);
      i := i + 1;
    }
    if !ok {
      ListStays(st, start, size, to, newSize, i, count);
    }
  }

  lemma ValidArena(arena: Arena)
    requires arena.Valid()
    ensures ValidSt(arena.st)
  {
  }

  lemma NothingMovedYet(st: St, start: Addr, size: StructSize, to: Addr, newSize: StructSize)
    requires ValidSt(st) && size.FitsInside(newSize)
    ensures HasBody(st.mem, start, Times(0, size)) && HasBody(st.mem, to, Times(0, newSize))
    ensures MoveElements(st, start, size, to, newSize, 0) == Moved(st)
  {
    NothingMoved(st, start, size, to, newSize);
  }

  lemma BodyOfMore(mem: Mem, start: Addr, size: StructSize, n: nat, count: nat)
    requires n <= count && HasBody(mem, start, Times(count, size))
    ensures HasBody(mem, start, Times(n, size))
  {
    TimesMonotone(n, count, size);
    hide Times;
  }

  /** The pointers of element `n` are null or resolve when its turn comes. */
  lemma ElementIsSane(past: Mem, st: St, st': St, start: Addr, size: StructSize, to: Addr, newSize: StructSize,
                      cells: seq<Cell>, count: nat, n: nat, touched: iset<Addr>)
    requires ListRoom(past, st, start, size, to, newSize, count, touched) && n < count && ValidSt(st)
    requires ElementsHeld(past, start, size, cells, count, touched) && size.FitsInside(newSize)
    requires HasBody(st.mem, start, Times(n, size)) && HasBody(st.mem, to, Times(n, newSize))
    requires MoveElements(st, start, size, to, newSize, n) == Moved(st')
    requires HasBody(st'.mem, Slot(start, Times(n, size)), size.Total())
    requires HasBody(st'.mem, Slot(to, Times(n, newSize)), newSize.Total())
    ensures ValidSt(st')
    ensures SaneSection(CopyWords(st', Slot(start, Times(n, size)), Slot(to, Times(n, newSize)), size.data),
                        Slot(Slot(start, Times(n, size)), size.data),
                        Slot(Slot(to, Times(n, newSize)), newSize.data), size.ptrs)
  {
    hide MoveElements, ListRoom, Times, ValidSt, FieldsHeld, RoomReady, SaneSection, CopyWords, Part, Body;
    var part := Part(cells, size, n);
    ElementsMoved(past, st, start, size, to, newSize, cells, count, n, touched);
    ElementRoom(past, st, st', start, size, to, newSize, count, n, touched);
    ReadyToPromote(past, st', Slot(start, Times(n, size)), size, Slot(to, Times(n, newSize)), newSize, part, touched);
    PromotionIsSane(past, st', Slot(start, Times(n, size)), size, Slot(to, Times(n, newSize)), newSize, part, touched);
  }

  lemma {:induction false} ListStays(st: St, start: Addr, size: StructSize, to: Addr, newSize: StructSize, i: nat,
                                     n: nat)
    requires ValidSt(st) && HasBody(st.mem, start, Times(n, size)) && HasBody(st.mem, to, Times(n, newSize))
    requires HasBody(st.mem, start, Times(i, size)) && HasBody(st.mem, to, Times(i, newSize))
    requires size.FitsInside(newSize) && i <= n && MoveElements(st, start, size, to, newSize, i).Stuck?
    ensures MoveElements(st, start, size, to, newSize, n) == MoveElements(st, start, size, to, newSize, i)
    decreases n
  {
    hide MoveStruct, MoveElements, HasBody, Times, ValidSt;
    if i < n {
      MoveStep(st, start, size, to, newSize, n);
      ListStays(st, start, size, to, newSize, i, n - 1);
    }
  }

  /**
   `to_list_mut_inner` on a list of structs that is held by this pointer only, when the upgrade asks for a
   larger struct.
   */
  method PromoteStructs(arena: Arena, at: Addr, size: StructSize, count: u29, start: Addr, newSize: StructSize,
                        ghost cells: seq<Cell>, ghost avoid: iset<Addr>)
    returns (ok: bool, newStart: Addr)
    requires arena.Valid() && HeldList(arena.st.mem, at, size, count, start, cells, avoid)
    requires IsStructList(arena.st.mem, at, size, count, start)
    requires size.FitsInside(newSize) && newSize.Total() > 0
    requires Askable(CompositeShape(newSize, count)) && Bounded(CompositeShape(newSize, count))
    modifies arena.Repr
    ensures arena.Valid() && fresh(arena.Repr - old(arena.Repr))
    ensures arena.st == PromoteList(old(arena.st), at, size, count, start, newSize).st
    ensures ok == PromoteList(old(arena.st), at, size, count, start, newSize).ListPromoted?
    ensures ok ==> newStart == PromoteList(old(arena.st), at, size, count, start, newSize).start
    ensures ListPreserved(old(arena.st), at, size, count, start, cells, newSize, avoid,
                          PromoteList(old(arena.st), at, size, count, start, newSize))
  {
    hide Resolve, Pads, Layout.AllocObject, ClearPtrs, MoveElements, HeldList, ListPreserved, Times, ElementsHeld,
         ListRoom, Given, ClearWords, Askable, Bounded, HasBody, Readable, AllWords;
    ghost var st := arena.st;
    var shape := CompositeShape(newSize, count);
    ListPromotionPreserves(st, at, size, count, start, cells, newSize, avoid);
    ListInside(st.mem, at, size, count, start);
    AllocObjectGood(ClearPtrs(st, at), at, shape);
    PadsInMem(arena.st.mem, at);
    ClearPtr(arena, at);
    ok, newStart := arena.AllocObject(at, shape);
    if ok {
      ghost var room := Layout.AllocObject(ClearPtrs(st, at), at, shape);
      ghost var touched := Given(st.mem, at, start, Times(count, size)) + avoid + Body(newStart, Times(count, newSize));
      ListReady(st, at, size, count, start, cells, newSize, room, avoid, touched);
      BodyGrows(st.mem, room.st.mem, TagOf(start), Times(count, size) + 1);
      ok := MoveAndClearOld(arena, start, size, newStart, newSize, count, st.mem, cells, touched);
    }
  }

  /** The elements of the list, then `clear_list_section` of the old one. */
  method MoveAndClearOld(arena: Arena, start: Addr, size: StructSize, to: Addr, newSize: StructSize, count: nat,
                         ghost past: Mem, ghost cells: seq<Cell>, ghost touched: iset<Addr>)
    returns (ok: bool)
    requires arena.Valid() && size.FitsInside(newSize)
    requires HasBody(arena.st.mem, start, Times(count, size)) && HasBody(arena.st.mem, to, Times(count, newSize))
    requires HasBody(arena.st.mem, TagOf(start), Times(count, size) + 1)
    requires ListRoom(past, arena.st, start, size, to, newSize, count, touched)
    requires ElementsHeld(past, start, size, cells, count, touched)
    modifies arena.Repr
    ensures arena.Valid() && fresh(arena.Repr - old(arena.Repr))
    ensures Cleared(MoveElements(old(arena.st), start, size, to, newSize, count), TagOf(start), Times(count, size) + 1,
                    arena.st, ok)
  {
    hide MoveElements, ListRoom, ElementsHeld, HasBody, Times, ClearWords;
    ghost var st := arena.st;
    ok := MoveAllStructs(arena, start, size, to, newSize, count, past, cells, touched);
    if ok {
      BodyGrows(st.mem, arena.st.mem, TagOf(start), Times(count, size) + 1);
      ClearSection(arena, TagOf(start), Times(count, size) + 1);
    }
  }

  /** The state after a move that, if it succeeded, was followed by clearing the old words. */
  ghost predicate Cleared(moved: Moving, start: Addr, n: nat, st: St, ok: bool) {
    && ok == moved.Moved?
    && (moved.Stuck? ==> st == moved.st)
    && (moved.Moved? ==>
          ValidSt(moved.st) && HasBody(moved.st.mem, start, n) && st == ClearWords(moved.st, start, n))
  }

  // ----- Lists of plain elements

  /** `copy_data!`. */
  method WriteAllElements(arena: Arena, words: seq<Word>, element: PtrElementSize, to: Addr, newSize: StructSize,
                          count: nat)
    requires arena.Valid() && HasBody(arena.st.mem, to, Times(count, newSize)) && newSize.data > 0
    requires IsCopied(element) && count <= |words| * (8 / Width(element))
    modifies arena.Repr
    ensures arena.Valid() && arena.Repr == old(arena.Repr)
    ensures arena.st == WriteElements(old(arena.st), words, element, to, newSize, count)
  {
    hide ElementAt, Overwritten, SetWord, Times, ValidSt;
    ghost var st := arena.st;
    ValidArena(arena);
    NothingWritten(st, words, element, to, newSize);
    for i := 0 to count
      invariant arena.Valid() && arena.Repr == old(arena.Repr) && ValidSt(st)
      invariant HasBody(st.mem, to, Times(i, newSize))
      invariant arena.st == WriteElements(st, words, element, to, newSize, i)
    {
      BodyOfMore(st.mem, to, newSize, i + 1, count);
      ElementSlot(st.mem, arena.st.mem, to, newSize, i);
      var slot := Slot(to, Times(i, newSize));
      var word := arena.GetWord(slot);
      SetWordGood(arena.st, slot, Overwritten(word, element, ElementAt(words, element, i)));
      arena.SetPtr(slot, Overwritten(word, element, ElementAt(words, element, i)));
    }
  }

  lemma NothingWritten(st: St, words: seq<Word>, element: PtrElementSize, to: Addr, newSize: StructSize)
    requires ValidSt(st) && newSize.data > 0 && IsCopied(element)
    ensures HasBody(st.mem, to, Times(0, newSize))
    ensures WriteElements(st, words, element, to, newSize, 0) == st
  {
  }

  lemma ElementSlot(mem: Mem, mem': Mem, to: Addr, size: StructSize, n: nat)
    requires HasBody(mem, to, Times(n + 1, size)) && size.data > 0 && Grows(mem, mem')
    ensures InMem(mem', Slot(to, Times(n, size)))
  {
    ElementBounds(size, n, n + 1);
    hide Times;
  }

  /** `to_list_mut_inner` on a list of plain elements that is upgraded to structs. */
  method PromotePlainList(arena: Arena, at: Addr, element: PtrElementSize, count: u29, start: Addr, newSize: StructSize,
                          ghost avoid: iset<Addr>)
    returns (ok: bool, newStart: Addr)
    requires arena.Valid() && HeldPlain(arena.st.mem, at, element, count, start) && avoid <= AllWords(arena.st.mem)
    requires IsPlainList(arena.st.mem, at, element, count, start)
    requires newSize.data > 0 && Askable(CompositeShape(newSize, count)) && Bounded(CompositeShape(newSize, count))
    modifies arena.Repr
    ensures arena.Valid() && fresh(arena.Repr - old(arena.Repr))
    ensures HasBody(old(arena.st.mem), start, ListWords(element, count))
    ensures arena.st == PromotePlain(old(arena.st), at, element, count, start, newSize).st
    ensures ok == PromotePlain(old(arena.st), at, element, count, start, newSize).ListPromoted?
    ensures ok ==> newStart == PromotePlain(old(arena.st), at, element, count, start, newSize).start
    ensures PlainPreserved(old(arena.st), at, element, count, start, newSize, avoid,
                           PromotePlain(old(arena.st), at, element, count, start, newSize))
  {
    hide Resolve, Pads, Layout.AllocObject, ClearPtrs, WriteElements, HeldPlain, PlainPreserved, Times, ListWords,
         ClearWords, Askable, Bounded;
    ghost var st := arena.st;
    var shape := CompositeShape(newSize, count);
    var n := ListWords(element, count);
    PlainPromotionPreserves(st, at, element, count, start, newSize, avoid);
    PlainInside(st.mem, at, element, count, start);
    AllocObjectGood(ClearPtrs(st, at), at, shape);
    PadsInMem(arena.st.mem, at);
    ClearPtr(arena, at);
    ok, newStart := arena.AllocObject(at, shape);
    if ok {
      BodyGrows(st.mem, arena.st.mem, start, n);
      BodyThere(ClearPtrs(st, at), Layout.AllocObject(ClearPtrs(st, at), at, shape), at, Times(count, newSize));
      WriteAndClearOld(arena, element, start, n, newStart, newSize, count);
    }
  }

  /** `copy_data!`, then `clear_list_section` of the old list. */
  method WriteAndClearOld(arena: Arena, element: PtrElementSize, start: Addr, n: nat, to: Addr, newSize: StructSize,
                          count: u29)
    requires arena.Valid() && IsCopied(element) && newSize.data > 0 && n == ListWords(element, count)
    requires HasBody(arena.st.mem, start, n) && HasBody(arena.st.mem, to, Times(count, newSize))
    modifies arena.Repr
    ensures arena.Valid() && arena.Repr == old(arena.Repr)
    ensures count <= n * (8 / Width(element))
    ensures var words := ListedWords(old(arena.st.mem), start, n);
            var written := WriteElements(old(arena.st), words, element, to, newSize, count);
            HasBody(written.mem, start, n) && arena.st == ClearWords(written, start, n)
  {
    hide WriteElements, Times, ListWords, ClearWords;
    ghost var st := arena.st;
    var words := ReadWords(arena, start, n);
    ElementsThere(words, element, count);
    WriteAllElements(arena, words, element, to, newSize, count);
    BodyGrows(st.mem, arena.st.mem, start, n);
    ClearSection(arena, start, n);
  }

  method ReadWords(arena: Arena, start: Addr, n: nat) returns (words: seq<Word>)
    requires arena.Valid() && HasBody(arena.st.mem, start, n)
    ensures words == ListedWords(arena.st.mem, start, n)
  {
    words := [];
    for i := 0 to n
      invariant |words| == i && forall j :: 0 <= j < i ==> words[j] == At(arena.st.mem, Slot(start, j))
    {
      var word := arena.GetWord(Slot(start, i));
      words := words + [word];
    }
  }

  // ----- Lists of pointers, and of nothing

  /** `to_list_mut_inner` on a list of pointers that is held by this pointer only and upgraded to structs. */
  method PromotePointerList(arena: Arena, at: Addr, count: u29, start: Addr, newSize: StructSize,
                            ghost values: seq<Value>, ghost avoid: iset<Addr>)
    returns (ok: bool, newStart: Addr)
    requires arena.Valid() && HeldPointers(arena.st.mem, at, count, start, values, avoid)
    requires IsPointerList(arena.st.mem, at, count, start) && newSize.ptrs > 0
    requires Askable(CompositeShape(newSize, count)) && Bounded(CompositeShape(newSize, count))
    modifies arena.Repr
    ensures arena.Valid() && fresh(arena.Repr - old(arena.Repr))
    ensures arena.st == PromotePointers(old(arena.st), at, count, start, newSize).st
    ensures ok == PromotePointers(old(arena.st), at, count, start, newSize).ListPromoted?
    ensures ok ==> newStart == PromotePointers(old(arena.st), at, count, start, newSize).start
    ensures PointersPreserved(old(arena.st), at, count, start, values, newSize, avoid,
                              PromotePointers(old(arena.st), at, count, start, newSize))
  {
    hide Resolve, Pads, Layout.AllocObject, ClearPtrs, TransferSection, HeldPointers, PointersPreserved, Times,
         ClearWords, Askable, Bounded, SectionReady, SaneSection, Readable, Abandoned;
    ghost var st := arena.st;
    var shape := CompositeShape(newSize, count);
    PointerPromotionPreserves(st, at, count, start, values, newSize, avoid);
    PointersInside(st.mem, at, count, start);
    AllocObjectGood(ClearPtrs(st, at), at, shape);
    HeldFacts(st.mem, at, count, start, values, avoid);
    PadsInMem(arena.st.mem, at);
    ClearPtr(arena, at);
    ok, newStart := arena.AllocObject(at, shape);
    if ok {
      ghost var room := Layout.AllocObject(ClearPtrs(st, at), at, shape);
      ghost var touched := Abandoned(st.mem, at, start, count) + avoid + Body(newStart, Times(count, newSize));
      PointersReady(st, at, count, start, values, newSize, room, avoid, touched);
      SectionIsSane(st.mem, room.st, start, newStart, values, touched);
      BodyGrows(st.mem, arena.st.mem, start, count);
      BodyThere(ClearPtrs(st, at), room, at, Times(count, newSize));
      TimesAtLeast(count, newSize);
      FewerWords(room.st.mem, newStart, count, Times(count, newSize));
      ok := TransferAndClearOld(arena, start, newStart, count);
    }
  }

  /** The pointers of the list, then `clear_list_section` of the old one. */
  method TransferAndClearOld(arena: Arena, start: Addr, to: Addr, n: nat) returns (ok: bool)
    requires arena.Valid() && HasBody(arena.st.mem, start, n) && HasBody(arena.st.mem, to, n)
    requires SaneSection(arena.st, start, to, n)
    modifies arena.Repr
    ensures arena.Valid() && fresh(arena.Repr - old(arena.Repr))
    ensures Cleared(TransferSection(old(arena.st), start, to, n), start, n, arena.st, ok)
  {
    hide TransferSection, SaneSection, ClearWords;
    ghost var st := arena.st;
    ok := TransferPtrSection(arena, start, to, n);
    if ok {
      BodyGrows(st.mem, arena.st.mem, start, n);
      ClearSection(arena, start, n);
    }
  }

  /** `to_list_mut_inner` on a list without content that is upgraded to structs. */
  method PromoteVoidList(arena: Arena, at: Addr, count: u29, newSize: StructSize, ghost avoid: iset<Addr>)
    returns (ok: bool, newStart: Addr)
    requires arena.Valid() && InMem(arena.st.mem, at) && Resolve(arena.st.mem, at).Ok?
    requires avoid <= AllWords(arena.st.mem)
    requires Askable(CompositeShape(newSize, count))
    modifies arena.Repr
    ensures arena.Valid() && fresh(arena.Repr - old(arena.Repr))
    ensures arena.st == PromoteVoid(old(arena.st), at, count, newSize).st
    ensures ok == PromoteVoid(old(arena.st), at, count, newSize).ListPromoted?
    ensures ok ==> newStart == PromoteVoid(old(arena.st), at, count, newSize).start
    ensures VoidPreserved(old(arena.st), at, count, newSize, avoid, PromoteVoid(old(arena.st), at, count, newSize))
  {
    hide Resolve, Pads, Layout.AllocObject, ClearPtrs, VoidPreserved, Askable;
    VoidPromotionPreserves(arena.st, at, count, newSize, avoid);
    PadsInMem(arena.st.mem, at);
    ClearPtr(arena, at);
    ok, newStart := arena.AllocObject(at, CompositeShape(newSize, count));
  }
}
