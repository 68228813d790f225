/**
 Struct promotion as the source runs it, on the words of an arena.
 */
module Promoting {
  import opened Wire
  import opened Reader
  import opened Values
  import opened Layout
  import opened Putting
  import opened Promotion
  import opened ArenaHeap

  /** `transfer_ptr`. */
  method TransferPtr(arena: Arena, from: Addr, to: Addr) returns (ok: bool)
    requires arena.Valid() && Sane(arena.st.mem, from) && InMem(arena.st.mem, to)
    modifies arena.Repr
    ensures arena.Valid() && fresh(arena.Repr - old(arena.Repr))
    ensures arena.st == Transfer(old(arena.st), from, to).st && ok == Transfer(old(arena.st), from, to).Moved?
  {
    hide Resolve, Decode, WithContentOffset, SetWord, ContentOffset, PadNear, PadDouble, TryUse, ArenaAlloc;
    var w := arena.GetWord(from);
    ok := true;
    if !w.IsNull() {
      if Decode(w).StructPtr? || Decode(w).ListPtr? {
        NearContentInside(arena.st.mem, from);
        InRange(arena.st, from);
        InRange(arena.st, to);
        if from.seg == to.seg {
          arena.SetPtr(to, WithContentOffset(w, ContentStart(from, w) - to.off - 1));
        } else {
          ok := TransferOverPad(arena, from, to, w);
        }
      } else {
        arena.SetPtr(to, w);
      }
    }
  }

  /** The content is in another segment: a landing pad there, or a double-far pad somewhere. */
  method TransferOverPad(arena: Arena, from: Addr, to: Addr, w: Word) returns (ok: bool)
    requires arena.Valid() && Sane(arena.st.mem, from) && InMem(arena.st.mem, to) && w == At(arena.st.mem, from)
    requires !w.IsNull() && (Decode(w).StructPtr? || Decode(w).ListPtr?) && from.seg != to.seg
    modifies arena.Repr
    ensures arena.Valid() && fresh(arena.Repr - old(arena.Repr))
    ensures arena.st == Transfer(old(arena.st), from, to).st && ok == Transfer(old(arena.st), from, to).Moved?
  {
    hide Resolve, Decode, WithContentOffset, SetWord, ContentOffset, TryUse, AllocSomewhere, PadNear, PadDouble;
    NearContentInside(arena.st.mem, from);
    InRange(arena.st, from);
    var content := ContentStart(from, w);
    TryUseGood(arena.st, from.seg, 1);
    var pad;
    ok, pad := arena.TryUseLen(from.seg, 1);
    if ok {
      InRange(arena.st, pad);
      WritePad(arena, to, pad, WithContentOffset(w, content - pad.off - 1));
    } else {
      AllocSomewhereGood(arena.st, to.seg, 2);
      ok, pad := AllocDoublePad(arena, to.seg);
      if ok {
        WriteDoublePad(arena, to, pad, Addr(from.seg, content), WithContentOffset(w, 0));
      }
    }
  }

  /** `alloc_double_far_landing_pad`. */
  method AllocDoublePad(arena: Arena, seg: nat) returns (ok: bool, pad: Addr)
    requires arena.Valid() && seg < |arena.st.mem|
    modifies arena.Repr
    ensures arena.Valid() && fresh(arena.Repr - old(arena.Repr))
    ensures arena.st == AllocSomewhere(old(arena.st), seg, 2).st && ok == AllocSomewhere(old(arena.st), seg, 2).Room?
    ensures ok ==> pad == AllocSomewhere(old(arena.st), seg, 2).at
  {
    hide TryUse, ArenaAlloc;
    TryUseGood(arena.st, seg, 2);
    ok, pad := arena.TryUseLen(seg, 2);
    if !ok {
      ok, pad := arena.Alloc(2);
    }
  }

  method WritePad(arena: Arena, to: Addr, pad: Addr, w: Word)
    requires arena.Valid() && InMem(arena.st.mem, to) && InMem(arena.st.mem, pad)
    modifies arena.Repr
    ensures arena.Valid() && arena.Repr == old(arena.Repr)
    ensures arena.st == PadNear(old(arena.st), to, pad, w)
  {
    hide SetWord, EncodeFar;
    InRange(arena.st, pad);
    SetWordGood(arena.st, pad, w);
    arena.SetPtr(pad, w);
    arena.SetPtr(to, EncodeFar(pad.seg, pad.off, false));
  }

  method WriteDoublePad(arena: Arena, to: Addr, pad: Addr, content: Addr, tag: Word)
    requires arena.Valid() && InMem(arena.st.mem, to) && InMem(arena.st.mem, pad) && InMem(arena.st.mem, Slot(pad, 1))
    requires content.seg < Wire.U32_LIMIT && content.off <= U29_MAX
    modifies arena.Repr
    ensures arena.Valid() && arena.Repr == old(arena.Repr)
    ensures arena.st == PadDouble(old(arena.st), to, pad, content, tag)
  {
    hide SetWord, EncodeFar;
    InRange(arena.st, pad);
    var landing := EncodeFar(content.seg, content.off, false);
    SetWordGood(arena.st, pad, landing);
    arena.SetPtr(pad, landing);
    SetWordGood(arena.st, Slot(pad, 1), tag);
    arena.SetPtr(Slot(pad, 1), tag);
    arena.SetPtr(to, EncodeFar(pad.seg, pad.off, true));
  }

  /** `transfer_ptr_section`. */
  method TransferPtrSection(arena: Arena, from: Addr, to: Addr, n: nat) returns (ok: bool)
    requires arena.Valid() && HasBody(arena.st.mem, from, n) && HasBody(arena.st.mem, to, n)
    requires SaneSection(arena.st, from, to, n)
    modifies arena.Repr
    ensures arena.Valid() && fresh(arena.Repr - old(arena.Repr))
    ensures arena.st == TransferSection(old(arena.st), from, to, n).st
    ensures ok == TransferSection(old(arena.st), from, to, n).Moved?
  {
    hide Transfer, Sane;
    ghost var st := arena.st;
    ok := true;
    var i := 0;
    while i < n && ok
      invariant i <= n && arena.Valid() && fresh(arena.Repr - old(arena.Repr))
      invariant HasBody(arena.st.mem, from, n) && HasBody(arena.st.mem, to, n)
      invariant arena.st == TransferSection(st, from, to, i).st && ok == TransferSection(st, from, to, i).Moved?
    {
      TransferSafe(arena.st, Slot(from, i), Slot(to, i));
      ok := TransferPtr(arena, Slot(from, i), Slot(to, i));
      i := i + 1;
    }
    if !ok {
      SectionStays(st, from, to, i, n);
    }
  }

  lemma {:induction false} SectionStays(st: St, from: Addr, to: Addr, i: nat, n: nat)
    requires ValidSt(st) && HasBody(st.mem, from, n) && HasBody(st.mem, to, n)
    requires i <= n && TransferSection(st, from, to, i).Stuck?
    ensures TransferSection(st, from, to, n) == TransferSection(st, from, to, i)
  {
    hide Transfer, Sane;
    if i < n {
      SectionStays(st, from, to, i, n - 1);
    }
  }

  /** `promote_struct`. */
  method MoveOneStruct(arena: Arena, start: Addr, size: StructSize, to: Addr, newSize: StructSize) returns (ok: bool)
    requires arena.Valid() && size.FitsInside(newSize)
    requires HasBody(arena.st.mem, start, size.Total()) && HasBody(arena.st.mem, to, newSize.Total())
    requires SaneSection(CopyWords(arena.st, start, to, size.data), Slot(start, size.data), Slot(to, newSize.data),
                         size.ptrs)
    modifies arena.Repr
    ensures arena.Valid() && fresh(arena.Repr - old(arena.Repr))
    ensures arena.st == MoveStruct(old(arena.st), start, size, to, newSize).st
    ensures ok == MoveStruct(old(arena.st), start, size, to, newSize).Moved?
  {
    hide TransferSection, SaneSection, CopyWords;
    CopySection(arena, start, to, size.data);
    ok := TransferPtrSection(arena, Slot(start, size.data), Slot(to, newSize.data), size.ptrs);
  }

  /** `promote_struct`, then `clear_section` of the old body. */
  method PromoteStruct(arena: Arena, start: Addr, size: StructSize, to: Addr, newSize: StructSize) returns (ok: bool)
    requires arena.Valid() && size.FitsInside(newSize)
    requires HasBody(arena.st.mem, start, size.Total()) && HasBody(arena.st.mem, to, newSize.Total())
    requires SaneSection(CopyWords(arena.st, start, to, size.data), Slot(start, size.data), Slot(to, newSize.data),
                         size.ptrs)
    modifies arena.Repr
    ensures arena.Valid() && fresh(arena.Repr - old(arena.Repr))
    ensures arena.st == PromoteInto(old(arena.st), start, size, to, newSize).st
    ensures ok == PromoteInto(old(arena.st), start, size, to, newSize).Moved?
  {
    hide MoveStruct, SaneSection, CopyWords;
    ok := MoveOneStruct(arena, start, size, to, newSize);
    if ok {
      ClearSection(arena, start, size.Total());
    }
  }

  method CopySection(arena: Arena, from: Addr, to: Addr, n: nat)
    requires arena.Valid() && HasBody(arena.st.mem, from, n) && HasBody(arena.st.mem, to, n)
    modifies arena.Repr
    ensures arena.Valid() && arena.Repr == old(arena.Repr)
    ensures arena.st == CopyWords(old(arena.st), from, to, n)
  {
    hide CopyWords, ValidSt;
    ghost var st := arena.st;
    NoWordsCopied(st, from, to);
    for i := 0 to n
      invariant arena.Valid() && arena.Repr == old(arena.Repr)
      invariant arena.st == CopyWords(st, from, to, i)
    {
      CopyOneWord(arena, from, to, i, st);
    }
  }

  lemma NoWordsCopied(st: St, from: Addr, to: Addr)
    requires ValidSt(st)
    ensures CopyWords(st, from, to, 0) == st
  {
  }

  method CopyOneWord(arena: Arena, from: Addr, to: Addr, i: nat, ghost st: St)
    requires ValidSt(st) && HasBody(st.mem, from, i + 1) && HasBody(st.mem, to, i + 1)
    requires arena.Valid() && arena.st == CopyWords(st, from, to, i)
    modifies arena.Repr
    ensures arena.Valid() && arena.Repr == old(arena.Repr)
    ensures arena.st == CopyWords(st, from, to, i + 1)
  {
    hide SetWord;
    SetWordGood(arena.st, Slot(to, i), At(arena.st.mem, Slot(from, i)));
    var word := arena.GetWord(Slot(from, i));
    arena.SetPtr(Slot(to, i), word);
  }

  method ClearSection(arena: Arena, start: Addr, n: nat)
    requires arena.Valid() && HasBody(arena.st.mem, start, n)
    modifies arena.Repr
    ensures arena.Valid() && arena.Repr == old(arena.Repr)
    ensures arena.st == ClearWords(old(arena.st), start, n)
  {
    hide SetWord;
    ghost var st := arena.st;
    for i := 0 to n
      invariant arena.Valid() && arena.Repr == old(arena.Repr)
      invariant arena.st == ClearWords(st, start, i) && HasBody(arena.st.mem, start, n)
    {
      SetWordGood(arena.st, Slot(start, i), NULL);
      arena.SetPtr(Slot(start, i), NULL);
    }
  }

  /** `clear_ptrs`: the pointer and the pads it leads over; nothing when the segment of the pads is missing. */
  method ClearPtr(arena: Arena, at: Addr)
    requires arena.Valid() && InMem(arena.st.mem, at)
    requires forall a :: a in Pads(arena.st.mem, at) && a.seg < |arena.st.mem| ==> InMem(arena.st.mem, a)
    modifies arena.Repr
    ensures arena.Valid() && arena.Repr == old(arena.Repr)
    ensures arena.st == ClearPtrs(old(arena.st), at)
  {
    hide SetWord, Decode, ClearPad, ClearPtrs;
    ClearPtrsIs(arena.st, at);
    var word := arena.GetWord(at);
    var wire := Decode(word);
    if wire.FarPtr? {
      if wire.segment >= |arena.segments| {
        return;
      }
      ClearOnePad(arena, Addr(wire.segment, wire.pad), wire.double);
    }
    arena.SetPtr(at, NULL);
  }

  lemma ClearPtrsIs(st: St, at: Addr)
    requires ValidSt(st) && InMem(st.mem, at)
    requires forall a :: a in Pads(st.mem, at) && a.seg < |st.mem| ==> InMem(st.mem, a)
    ensures var wire := Decode(At(st.mem, at));
            if wire.FarPtr? && wire.segment >= |st.mem| then
              ClearPtrs(st, at) == st
            else if wire.FarPtr? then
              var pad := Addr(wire.segment, wire.pad);
              && InMem(st.mem, pad) && (wire.double ==> InMem(st.mem, Slot(pad, 1)))
              && ClearPtrs(st, at) == SetWord(ClearPad(st, pad, wire.double), at, NULL)
            else
              ClearPtrs(st, at) == SetWord(st, at, NULL)
  {
    hide Decode, ClearPad, SetWord, ValidSt;
    var wire := Decode(At(st.mem, at));
    if wire.FarPtr? {
      var pad := Addr(wire.segment, wire.pad);
      assert pad in Pads(st.mem, at) && (wire.double ==> Slot(pad, 1) in Pads(st.mem, at));
    }
  }

  method ClearOnePad(arena: Arena, pad: Addr, double: bool)
    requires arena.Valid() && InMem(arena.st.mem, pad) && (double ==> InMem(arena.st.mem, Slot(pad, 1)))
    modifies arena.Repr
    ensures arena.Valid() && arena.Repr == old(arena.Repr)
    ensures arena.st == ClearPad(old(arena.st), pad, double)
  {
    hide SetWord;
    SetWordGood(arena.st, pad, NULL);
    arena.SetPtr(pad, NULL);
    if double {
      SetWordGood(arena.st, Slot(pad, 1), NULL);
      arena.SetPtr(Slot(pad, 1), NULL);
    }
  }

  /**
   `to_struct_mut_inner` on a struct that is held by this pointer only: the struct stays where it is when
   it is large enough, and is promoted otherwise.
   */
  method ToStructMutInner(arena: Arena, at: Addr, size: StructSize, start: Addr, expected: StructSize,
                          ghost cells: seq<Cell>, ghost avoid: iset<Addr>)
    returns (ok: bool, newStart: Addr, newSize: StructSize)
    requires arena.Valid() && HeldStruct(arena.st.mem, at, size, start, cells, avoid)
    modifies arena.Repr
    ensures arena.Valid() && fresh(arena.Repr - old(arena.Repr))
    ensures expected.FitsInside(size) ==> ok && arena.st == old(arena.st) && newStart == start && newSize == size
    ensures Keeps(old(arena.st.mem), arena.st.mem, old(Abandoned(arena.st.mem, at, start, size.Total())))
    ensures ok ==>
              && newSize == expected.Max(size) && |cells| == size.Total()
              && Denotes(arena.st.mem, at, Obj(StructShape(newSize), Enlarged(cells, size, newSize)), avoid)
    ensures ok && !expected.FitsInside(size) ==> AllNull(arena.st.mem, start, size.Total())
    ensures IsStruct(old(arena.st.mem), at, size, start)
    ensures ok == ToStructMut(old(arena.st), at, size, start, expected).Promoted?
    ensures arena.st == ToStructMut(old(arena.st), at, size, start, expected).st
    ensures !ok ==> LeftBehind(old(arena.st), at, StructShape(expected.Max(size)), arena.st.mem)
  {
    hide Denotes, Resolve, Pads, HeldStruct, Enlarged, ToStructMut, LeftBehind, AllNull, Abandoned;
    HeldIsStruct(arena.st.mem, at, size, start, cells, avoid);
    ok, newStart, newSize := true, start, size;
    if expected.FitsInside(size) {
      NothingToDo(arena.st, at, size, start, expected);
      SameSize(cells, size);
    } else {
      newSize := expected.Max(size);
      PromotionPreserves(arena.st, at, size, start, cells, expected, avoid);
      ghost var st := arena.st;
      if ToStructMut(st, at, size, start, expected).NotPromoted? {
        RefusedPromotion(st, at, size, start, cells, expected, avoid);
      }
      ok, newStart := Promote(arena, at, size, start, expected, cells, avoid);
    }
  }

  /** The promotion itself: clear the pointer, find room, move the struct. */
  method Promote(arena: Arena, at: Addr, size: StructSize, start: Addr, expected: StructSize,
                 ghost cells: seq<Cell>, ghost avoid: iset<Addr>)
    returns (ok: bool, newStart: Addr)
    requires arena.Valid() && HeldStruct(arena.st.mem, at, size, start, cells, avoid) && !expected.FitsInside(size)
    requires IsStruct(arena.st.mem, at, size, start)
    modifies arena.Repr
    ensures arena.Valid() && fresh(arena.Repr - old(arena.Repr))
    ensures arena.st == ToStructMut(old(arena.st), at, size, start, expected).st
    ensures ok == ToStructMut(old(arena.st), at, size, start, expected).Promoted?
    ensures ok ==> newStart == ToStructMut(old(arena.st), at, size, start, expected).start
  {
    hide Resolve, Pads, Layout.AllocStruct, ClearPtrs, PromoteInto, PromotionReady, HeldStruct, SaneSection, Abandoned,
         ObjectPlaced;
    var newSize := expected.Max(size);
    ghost var st := arena.st;
    StructInside(st.mem, at, size, start);
    AllocStructGood(ClearPtrs(st, at), at, newSize);
    PadsInMem(arena.st.mem, at);
    ClearPtr(arena, at);
    ok, newStart := arena.AllocStruct(at, newSize);
    if ok {
      RoomIsReady(st, at, size, start, cells, newSize, avoid);
      ghost var touched := Abandoned(st.mem, at, start, size.Total()) + avoid + Body(newStart, newSize.Total());
      ReadyToPromote(st.mem, arena.st, start, size, newStart, newSize, cells, touched);
      PromotionIsSane(st.mem, arena.st, start, size, newStart, newSize, cells, touched);
      ok := PromoteStruct(arena, start, size, newStart, newSize);
    }
  }

  lemma HeldIsStruct(mem: Mem, at: Addr, size: StructSize, start: Addr, cells: seq<Cell>, avoid: iset<Addr>)
    requires HeldStruct(mem, at, size, start, cells, avoid)
    ensures IsStruct(mem, at, size, start) && |cells| == size.Total()
    ensures Denotes(mem, at, Obj(StructShape(size), cells), avoid)
  {
    hide Resolve, Pads;
  }

  lemma NothingToDo(st: St, at: Addr, size: StructSize, start: Addr, expected: StructSize)
    requires ValidSt(st) && IsStruct(st.mem, at, size, start) && expected.FitsInside(size)
    ensures ToStructMut(st, at, size, start, expected) == Promoted(st, start, size)
  {
    hide Resolve;
  }

  lemma SameSize(cells: seq<Cell>, size: StructSize)
    requires |cells| == size.Total()
    ensures Enlarged(cells, size, size) == cells
  {
  }

  lemma PromotionIsSane(past: Mem, st: St, start: Addr, size: StructSize, to: Addr, newSize: StructSize,
                        cells: seq<Cell>, touched: iset<Addr>)
    requires CanPromote(st, start, size, to, newSize, cells)
    requires PromotionReady(past, st, start, size, to, newSize, cells, touched)
    ensures SaneSection(CopyWords(st, start, to, size.data), Slot(start, size.data), Slot(to, newSize.data), size.ptrs)
  {
    hide PromotionReady, SectionReady, SaneSection, TransferSection, CopyWords;
    FieldsReady(past, st, start, size, to, newSize, cells, touched);
    SectionIsSane(past, CopyWords(st, start, to, size.data), Slot(start, size.data), Slot(to, newSize.data),
                  Fields(cells, size), touched);
  }
}
