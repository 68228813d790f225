/**
 Writing a tree of values into a message: what a deep copy does once the source has been read.

 The functions thread the state of the message the way the copy does: an object is allocated, then its
 words are filled in address order, each pointer by the same procedure. A failed allocation leaves the
 pointer null and is counted.
 */
module Putting {
  import opened Wire
  import opened Reader
  import opened Values
  import opened Layout

  /** Trees of objects that fit a message; the cells may stop short of the object's words. */
  ghost predicate Loose(v: Value)
    decreases v
  {
    v.Obj? ==>
      && ValidShape(v.shape)
      && |v.cells| <= Words(v.shape)
      && forall i :: 0 <= i < |v.cells| ==> LooseCell(v.cells[i], IsPtrSlot(v.shape, i))
  }

  ghost predicate LooseCell(cell: Cell, isPtr: bool)
    decreases cell
  {
    cell.Ref? == isPtr && (cell.Ref? ==> Loose(cell.value))
  }

  /** Complete trees whose objects can all be read back once they are written. */
  ghost predicate Whole(v: Value)
    decreases v
  {
    v.Obj? ==>
      && Fits(v.shape)
      && |v.cells| == Words(v.shape)
      && forall i :: 0 <= i < |v.cells| ==> WholeCell(v.cells[i], IsPtrSlot(v.shape, i))
  }

  ghost predicate WholeCell(cell: Cell, isPtr: bool)
    decreases cell
  {
    cell.Ref? == isPtr && (cell.Ref? ==> Whole(cell.value))
  }

  lemma CellsAreLoose(v: Value)
    requires v.Obj? && Loose(v)
    ensures LooseCells(v.cells)
  {
    hide IsPtrSlot, Words, ValidShape;
    forall i | 0 <= i < |v.cells|
      ensures LooseCell(v.cells[i], v.cells[i].Ref?)
    {
      assert LooseCell(v.cells[i], IsPtrSlot(v.shape, i));
    }
  }

  ghost predicate LooseCells(cells: seq<Cell>) {
    forall i :: 0 <= i < |cells| ==> LooseCell(cells[i], cells[i].Ref?)
  }

  datatype Put = Put(st: St, stored: Value, failures: nat)

  datatype PutBody = PutBody(st: St, stored: seq<Cell>, failures: nat)

  ghost function Body(start: Addr, n: nat): iset<Addr> {
    iset a: Addr | a.seg == start.seg && start.off <= a.off < start.off + n
  }

  predicate HasBody(mem: Mem, start: Addr, n: nat) {
    n > 0 ==> start.seg < |mem| && start.off + n <= |mem[start.seg]|
  }

  ghost function PutPtr(v: Value, at: Addr, st: St): (r: Put)
    requires ValidSt(st) && InMem(st.mem, at) && Loose(v)
    ensures ValidSt(r.st) && Keeps(st.mem, r.st.mem, iset{at})
    decreases v
  {
    hide AllocObject, SetWord, EncodeCapability, Words, ValidShape, IsPtrSlot;
    match v
    case Null => Put(st, Null, 0)
    case Cap(index) =>
      SetWordGood(st, at, EncodeCapability(index));
      Put(SetWord(st, at, EncodeCapability(index)), v, 0)
    case Obj(shape, cells) =>
      AllocObjectSafe(st, at, shape);
      var r := AllocObject(st, at, shape);
      if r.Failed? then
        Put(r.st, Null, 1)
      else
        CellsAreLoose(v);
        var body := PutCells(cells, r.start, r.st);
        Put(body.st, Obj(shape, body.stored), body.failures)
  }

  ghost function PutCell(cell: Cell, at: Addr, st: St): (r: PutBody)
    requires ValidSt(st) && InMem(st.mem, at) && LooseCell(cell, cell.Ref?)
    ensures ValidSt(r.st) && Keeps(st.mem, r.st.mem, iset{at})
    ensures |r.stored| == 1 && r.stored[0].Ref? == cell.Ref?
    decreases cell
  {
    match cell
    case Data(word) =>
      SetWordGood(st, at, word);
      PutBody(SetWord(st, at, word), [cell], 0)
    case Ref(value) =>
      var p := PutPtr(value, at, st);
      PutBody(p.st, [Ref(p.stored)], p.failures)
  }

  ghost function PutCells(cells: seq<Cell>, start: Addr, st: St): (r: PutBody)
    requires ValidSt(st) && HasBody(st.mem, start, |cells|) && LooseCells(cells)
    ensures ValidSt(r.st) && Keeps(st.mem, r.st.mem, Body(start, |cells|))
    ensures |r.stored| == |cells|
    ensures forall i :: 0 <= i < |cells| ==> r.stored[i].Ref? == cells[i].Ref?
    decreases cells
  {
    if |cells| == 0 then
      PutBody(st, [], 0)
    else
      var last := |cells| - 1;
      var before := PutCells(cells[..last], start, st);
      var cell := PutCell(cells[last], Slot(start, last), before.st);
      PutBody(cell.st, before.stored + cell.stored, before.failures + cell.failures)
  }

  lemma PutNothing(start: Addr, st: St)
    requires ValidSt(st)
    ensures PutCells([], start, st) == PutBody(st, [], 0)
  {
  }

  lemma PutNull(at: Addr, st: St)
    requires ValidSt(st) && InMem(st.mem, at)
    ensures PutCell(Ref(Null), at, st) == PutBody(st, [Ref(Null)], 0)
  {
  }

  lemma LooseSnoc(cells: seq<Cell>, cell: Cell)
    requires LooseCells(cells) && LooseCell(cell, cell.Ref?)
    ensures LooseCells(cells + [cell])
  {
    hide LooseCell;
  }

  lemma PutSnoc(cells: seq<Cell>, cell: Cell, start: Addr, st: St)
    requires ValidSt(st) && HasBody(st.mem, start, |cells| + 1)
    requires LooseCells(cells + [cell]) && LooseCells(cells) && LooseCell(cell, cell.Ref?)
    ensures InMem(PutCells(cells, start, st).st.mem, Slot(start, |cells|))
    ensures var before := PutCells(cells, start, st);
            var last := PutCell(cell, Slot(start, |cells|), before.st);
            PutCells(cells + [cell], start, st)
            == PutBody(last.st, before.stored + last.stored, before.failures + last.failures)
  {
    hide PutCell, LooseCell, ValidSt;
    var all := cells + [cell];
    assert all[..|all| - 1] == cells && all[|all| - 1] == cell;
  }

  /** Appending a cell is one more step of the walk. */
  lemma PutOneMore(cells: seq<Cell>, cell: Cell, start: Addr, st: St)
    requires ValidSt(st) && HasBody(st.mem, start, |cells| + 1)
    requires LooseCells(cells) && LooseCell(cell, cell.Ref?)
    ensures LooseCells(cells + [cell])
    ensures var before := PutCells(cells, start, st);
            && InMem(before.st.mem, Slot(start, |cells|))
            && PutCells(cells + [cell], start, st).st == PutCell(cell, Slot(start, |cells|), before.st).st
            && PutCells(cells + [cell], start, st).failures
               == before.failures + PutCell(cell, Slot(start, |cells|), before.st).failures
  {
    hide PutCell, PutCells, LooseCell, LooseCells, ValidSt;
    LooseSnoc(cells, cell);
    PutSnoc(cells, cell, start, st);
  }

  // ----- What was put is what is read

  /** If no allocation failed, the whole tree is stored. */
  lemma {:induction false} NothingLost(v: Value, at: Addr, st: St)
    requires ValidSt(st) && InMem(st.mem, at) && Loose(v)
    requires PutPtr(v, at, st).failures == 0
    ensures PutPtr(v, at, st).stored == v
    decreases v
  {
    hide AllocObject, SetWord;
    if v.Obj? {
      AllocObjectSafe(st, at, v.shape);
      CellsAreLoose(v);
      var r := AllocObject(st, at, v.shape);
      NoCellLost(v.cells, r.start, r.st);
    }
  }

  lemma {:induction false} NoCellLost(cells: seq<Cell>, start: Addr, st: St)
    requires ValidSt(st) && HasBody(st.mem, start, |cells|) && LooseCells(cells)
    requires PutCells(cells, start, st).failures == 0
    ensures PutCells(cells, start, st).stored == cells
    decreases cells
  {
    hide SetWord, PutPtr;
    if |cells| > 0 {
      var last := |cells| - 1;
      NoCellLost(cells[..last], start, st);
      var before := PutCells(cells[..last], start, st);
      CellNotLost(cells[last], Slot(start, last), before.st);
    }
  }

  lemma {:induction false} CellNotLost(cell: Cell, at: Addr, st: St)
    requires ValidSt(st) && InMem(st.mem, at) && LooseCell(cell, cell.Ref?)
    requires PutCell(cell, at, st).failures == 0
    ensures PutCell(cell, at, st).stored == [cell]
    decreases cell
  {
    hide PutPtr;
    if cell.Ref? {
      NothingLost(cell.value, at, st);
    }
  }

  /** The cell at `at`, its meaning avoiding the words of `avoid`. */
  ghost predicate CellStored(mem: Mem, at: Addr, cell: Cell, avoid: iset<Addr>) {
    && InMem(mem, at)
    && match cell
       case Data(word) => At(mem, at) == word
       case Ref(value) => Denotes(mem, at, value, avoid)
  }

  lemma CellStoredFrame(mem: Mem, mem': Mem, at: Addr, cell: Cell, avoid: iset<Addr>)
    requires CellStored(mem, at, cell, avoid)
    requires Keeps(mem, mem', avoid) && SameAt(mem, mem', at)
    ensures CellStored(mem', at, cell, avoid)
  {
    hide Denotes;
    if cell.Ref? {
      DenotesFrame(mem, mem', at, cell.value, avoid);
    }
  }

  ghost predicate WholeCells(cells: seq<Cell>) {
    forall i :: 0 <= i < |cells| ==> WholeCell(cells[i], cells[i].Ref?)
  }

  lemma {:induction false} WholeIsLoose(v: Value)
    requires Whole(v)
    ensures Loose(v)
    decreases v
  {
    hide IsPtrSlot, ListWords, Times;
    if v.Obj? {
      FitsIsValid(v.shape);
      forall i | 0 <= i < |v.cells|
        ensures LooseCell(v.cells[i], IsPtrSlot(v.shape, i))
      {
        assert WholeCell(v.cells[i], IsPtrSlot(v.shape, i));
        if v.cells[i].Ref? {
          WholeIsLoose(v.cells[i].value);
        }
      }
    }
  }

  lemma FitsIsValid(shape: Shape)
    requires Fits(shape)
    ensures ValidShape(shape)
  {
  }

  lemma WholeCellsOf(v: Value)
    requires v.Obj? && Whole(v)
    ensures WholeCells(v.cells)
  {
    hide IsPtrSlot, Words, Fits;
    forall i | 0 <= i < |v.cells|
      ensures WholeCell(v.cells[i], v.cells[i].Ref?)
    {
      assert WholeCell(v.cells[i], IsPtrSlot(v.shape, i));
    }
  }

  lemma {:induction false} WholeCellsAreLoose(cells: seq<Cell>)
    requires WholeCells(cells)
    ensures LooseCells(cells)
  {
    forall i | 0 <= i < |cells|
      ensures LooseCell(cells[i], cells[i].Ref?)
    {
      assert WholeCell(cells[i], cells[i].Ref?);
      if cells[i].Ref? {
        WholeIsLoose(cells[i].value);
      }
    }
  }

  /**
   Writing a complete tree into a null pointer and reading it back gives that tree, with every pointer
   whose allocation failed replaced by null. The reader looks at no word that was there before.
   */
  lemma {:induction false} PutReads(v: Value, at: Addr, st: St)
    requires ValidSt(st) && InMem(st.mem, at) && At(st.mem, at).IsNull() && Whole(v)
    ensures Loose(v)
    ensures Denotes(PutPtr(v, at, st).st.mem, at, PutPtr(v, at, st).stored, AllWords(st.mem))
    decreases v
  {
    hide AllocObject, SetWord, EncodeCapability, Words, Fits, IsPtrSlot, Resolve, Decode;
    WholeIsLoose(v);
    match v
    case Null =>
    case Cap(index) => CapReads(index, at, st);
    case Obj(shape, cells) =>
      AllocObjectGood(st, at, shape);
      var r := AllocObject(st, at, shape);
      if r.Placed? {
        WholeCellsOf(v);
        PutCellsRead(cells, r.start, r.st);
        var body := PutCells(cells, r.start, r.st);
        ObjectReads(st, r, at, v, body);
      }
  }

  lemma CapReads(index: u32, at: Addr, st: St)
    requires ValidSt(st) && InMem(st.mem, at)
    ensures Denotes(SetWord(st, at, EncodeCapability(index)).mem, at, Cap(index), AllWords(st.mem))
  {
    hide EncodeCapability, Decode;
    CapabilityRoundTrip(index);
    SetWordGood(st, at, EncodeCapability(index));
  }

  ghost predicate AllStored(mem: Mem, start: Addr, cells: seq<Cell>, avoid: iset<Addr>) {
    forall i :: 0 <= i < |cells| ==> CellStored(mem, Slot(start, i), cells[i], avoid)
  }

  ghost predicate AllNull(mem: Mem, start: Addr, n: nat) {
    forall i :: 0 <= i < n ==> InMem(mem, Slot(start, i)) && At(mem, Slot(start, i)).IsNull()
  }

  lemma {:induction false} PutCellsRead(cells: seq<Cell>, start: Addr, st: St)
    requires ValidSt(st) && HasBody(st.mem, start, |cells|) && WholeCells(cells)
    requires AllNull(st.mem, start, |cells|)
    ensures LooseCells(cells)
    ensures AllStored(PutCells(cells, start, st).st.mem, start, PutCells(cells, start, st).stored, AllWords(st.mem))
    decreases cells
  {
    hide Denotes, SetWord, CellStored, PutCell, WholeCell, LooseCell, ValidSt;
    WholeCellsAreLoose(cells);
    if |cells| > 0 {
      var last := |cells| - 1;
      PutCellsRead(cells[..last], start, st);
      var before := PutCells(cells[..last], start, st);
      var slot := Slot(start, last);
      assert WholeCell(cells[last], cells[last].Ref?);
      PutCellReads(cells[last], slot, before.st, st.mem);
      var cell := PutCell(cells[last], slot, before.st);
      AppendStored(before.st.mem, cell.st.mem, start, before.stored, cell.stored[0], AllWords(st.mem));
    }
  }

  lemma AppendStored(mem: Mem, mem': Mem, start: Addr, stored: seq<Cell>, cell: Cell, avoid: iset<Addr>)
    requires AllStored(mem, start, stored, avoid)
    requires Slot(start, |stored|) in avoid && Keeps(mem, mem', iset{Slot(start, |stored|)})
    requires CellStored(mem', Slot(start, |stored|), cell, avoid)
    ensures AllStored(mem', start, stored + [cell], avoid)
  {
    hide CellStored;
    forall i | 0 <= i < |stored|
      ensures CellStored(mem', Slot(start, i), stored[i], avoid)
    {
      CellStoredIn(mem, Slot(start, i), stored[i], avoid);
      CellStoredFrame(mem, mem', Slot(start, i), stored[i], avoid);
    }
  }

  lemma CellStoredIn(mem: Mem, at: Addr, cell: Cell, avoid: iset<Addr>)
    requires CellStored(mem, at, cell, avoid)
    ensures InMem(mem, at)
  {
  }

  lemma {:induction false} PutCellReads(cell: Cell, at: Addr, st: St, earlier: Mem)
    requires ValidSt(st) && InMem(st.mem, at) && At(st.mem, at).IsNull() && WholeCell(cell, cell.Ref?)
    requires Grows(earlier, st.mem)
    ensures LooseCell(cell, cell.Ref?)
    ensures CellStored(PutCell(cell, at, st).st.mem, at, PutCell(cell, at, st).stored[0], AllWords(earlier))
    decreases cell
  {
    hide Denotes, SetWord, PutPtr;
    match cell
    case Data(word) => SetWordGood(st, at, word);
    case Ref(value) =>
      PutReads(value, at, st);
      var p := PutPtr(value, at, st);
      AvoidBoth(p.st.mem, at, p.stored, AllWords(st.mem), AllWords(st.mem), AllWords(earlier));
  }

  lemma ApartFromBody(words: set<Addr>, start: Addr, n: nat)
    requires forall i :: 0 <= i < n ==> Slot(start, i) !in words
    ensures forall a :: a in words ==> a !in Body(start, n)
  {
    forall a | a in Body(start, n)
      ensures a !in words
    {
      assert a == Slot(start, a.off - start.off);
    }
  }

  /** The object whose pointer, body and children are in place. */
  lemma ObjectReads(st: St, r: Placing, at: Addr, v: Value, body: PutBody)
    requires v.Obj? && ValidSt(st) && InMem(st.mem, at) && r.Placed?
    requires |v.cells| == Words(v.shape) == |body.stored|
    requires ObjectPlaced(st, at, v.shape, r)
    requires Keeps(r.st.mem, body.st.mem, Body(r.start, |v.cells|))
    requires AllStored(body.st.mem, r.start, body.stored, AllWords(r.st.mem))
    requires forall i :: 0 <= i < |v.cells| ==> body.stored[i].Ref? == v.cells[i].Ref? == IsPtrSlot(v.shape, i)
    ensures Denotes(body.st.mem, at, Obj(v.shape, body.stored), AllWords(st.mem))
  {
    hide Resolve, Words, Fits, IsPtrSlot, Pads, Tags, ValidSt;
    var n := |v.cells|;
    ApartFromBody(Pads(r.st.mem, at) + Tags(Object(v.shape, r.start)), r.start, n);
    ResolveFrame(r.st.mem, body.st.mem, at);
    forall i | 0 <= i < n
      ensures CellAt(body.st.mem, Slot(r.start, i), body.stored[i], IsPtrSlot(v.shape, i), AllWords(st.mem))
    {
      var slot := Slot(r.start, i);
      assert CellStored(body.st.mem, slot, body.stored[i], AllWords(r.st.mem));
      if body.stored[i].Ref? {
        AvoidBoth(body.st.mem, slot, body.stored[i].value, AllWords(r.st.mem), AllWords(r.st.mem), AllWords(st.mem));
      }
    }
  }
}
