/**
 Trees the builder can write so that they are read back, and what becomes of the others: they are written without
 an error, and not read back.
 */
module Fitting {
  import opened Wire
  import opened Reader
  import opened Values
  import opened Layout
  import opened Putting
  import opened Promotion

  /** Every object of the tree can be read back from where the builder puts it. */
  ghost predicate AllFit(v: Value)
    decreases v
  {
    v.Obj? ==> Fits(v.shape) && forall i :: 0 <= i < |v.cells| ==> CellFits(v.cells[i])
  }

  ghost predicate CellFits(cell: Cell)
    decreases cell
  {
    cell.Ref? ==> AllFit(cell.value)
  }

  /** The pointer leads to a list whose tag asks for more words than the list pointer has. */
  ghost predicate Misread(before: Mem, mem: Mem, at: Addr, shape: Shape, start: Addr) {
    && shape.CompositeShape? && start.off > 0
    && var tag := TagOf(start);
       && Linked(before, mem, at, ListOf(InlineComposite, shape.count), tag)
       && InMem(mem, tag) && At(mem, tag) == EncodeTag(shape.count, shape.size) && !InMem(before, tag)
       && shape.count < Times(shape.count, shape.size) && shape.count + 1 <= U29_MAX
       && tag.off + shape.count + 1 <= |mem[tag.seg]|
       && forall i :: 0 <= i < Words(shape) ==> Slot(start, i) !in Pads(mem, at)
  }

  function TagOf(start: Addr): Addr
    requires start.off > 0
  {
    start.(off := start.off - 1)
  }

  lemma UnfitPlaced(st: St, at: Addr, shape: Shape)
    requires ValidSt(st) && InMem(st.mem, at) && ValidShape(shape) && !Fits(shape)
    requires AllocObject(st, at, shape).Placed?
    ensures Misread(st.mem, AllocObject(st, at, shape).st.mem, at, shape, AllocObject(st, at, shape).start)
  {
    hide AllocListBody, Linked, Resolve, EncodeTag, Pads, Times, SetWord, Allocated;
    TimesAgainstCount(shape.count, shape.size);
    AllocListBodyGood(st, at, shape);
    var r := AllocListBody(st, at, shape);
    TagWritten(st, at, ListOf(InlineComposite, shape.count), r, U29_MAX, EncodeTag(shape.count, shape.size));
    var placed := AllocObject(st, at, shape);
    assert TagOf(placed.start) == r.start;
  }

  lemma MisreadFails(before: Mem, mem: Mem, at: Addr, shape: Shape, start: Addr)
    requires Misread(before, mem, at, shape, start)
    ensures InMem(mem, at) && !At(mem, at).IsNull() && Resolve(mem, at) == Err(InlineCompositeOverrun)
  {
    hide Linked, Pads, Times, EncodeTag, Resolve;
    LinkedFacts(before, mem, at, ListOf(InlineComposite, shape.count), TagOf(start));
    LinkedReadsComposite(before, mem, at, shape.size, shape.count, shape.count, TagOf(start));
  }

  /** Words that were there before, the pointer excepted, do not matter. */
  ghost predicate KeepsNew(past: Mem, mem: Mem, mem': Mem, kept: iset<Addr>) {
    && Grows(mem, mem')
    && forall a :: InMem(mem, a) && (a in kept || !InMem(past, a)) ==> At(mem', a) == At(mem, a)
  }

  lemma MisreadStays(before: Mem, mem: Mem, mem': Mem, at: Addr, shape: Shape, start: Addr)
    requires Misread(before, mem, at, shape, start)
    requires Grows(mem, mem') && SameAt(mem, mem', at) && SameAt(mem, mem', TagOf(start))
    requires forall a :: a in Pads(mem, at) ==> SameAt(mem, mem', a)
    ensures Misread(before, mem', at, shape, start)
  {
    hide Linked, Times, EncodeTag, Words, Pads;
    LinkedFrame(before, mem, mem', at, ListOf(InlineComposite, shape.count), TagOf(start));
  }

  /** A tree of which not all objects fit is not what is read from where it was written. */
  lemma {:induction false} NotMeant(v: Value, at: Addr, st: St, mem': Mem, avoid: iset<Addr>)
    requires ValidSt(st) && InMem(st.mem, at) && Loose(v) && !AllFit(v)
    requires PutPtr(v, at, st).failures == 0
    requires KeepsNew(st.mem, PutPtr(v, at, st).st.mem, mem', iset{at})
    ensures !Denotes(mem', at, v, avoid)
    decreases v
  {
    hide AllocObject, SetWord, Fits, Words, IsPtrSlot, Resolve, Pads, Tags, Denotes, Misread, Readable;
    AllocObjectSafe(st, at, v.shape);
    CellsAreLoose(v);
    var r := AllocObject(st, at, v.shape);
    PutOfObject(v, at, st);
    var body := PutCells(v.cells, r.start, r.st);
    if !Fits(v.shape) {
      UnfitPlaced(st, at, v.shape);
      UnfitStays(st, at, v.shape, r, body.st.mem, mem', |v.cells|);
      MisreadFails(st.mem, mem', at, v.shape, r.start);
      FailedMeansNothing(mem', at, v, avoid);
    } else {
      var i :| 0 <= i < |v.cells| && !CellFits(v.cells[i]);
      AllocObjectGood(st, at, v.shape);
      if Denotes(mem', at, v, avoid) {
        FitStays(st, at, v.shape, r, body.st.mem, mem', |v.cells|);
        PartMeans(mem', at, v, r.start, i, avoid);
        BodyKept(st, at, v.shape, r, body.st.mem, mem', |v.cells|);
        CellsNotMeant(v.cells, r.start, r.st, i, mem', avoid);
        assert false;
      }
    }
  }

  lemma PutOfObject(v: Value, at: Addr, st: St)
    requires ValidSt(st) && InMem(st.mem, at) && Loose(v) && v.Obj? && PutPtr(v, at, st).failures == 0
    ensures AllocObject(st, at, v.shape).Placed?
    ensures var r := AllocObject(st, at, v.shape);
            && ValidSt(r.st) && HasBody(r.st.mem, r.start, |v.cells|) && LooseCells(v.cells)
            && |v.cells| <= Words(v.shape) && ValidShape(v.shape)
            && Allocated(st, r.st, at, r.start, Words(v.shape))
            && PutPtr(v, at, st).st == PutCells(v.cells, r.start, r.st).st
            && PutCells(v.cells, r.start, r.st).failures == 0
  {
    hide AllocObject, SetWord, Words, IsPtrSlot, PutCells;
    AllocObjectSafe(st, at, v.shape);
    CellsAreLoose(v);
  }

  lemma FailedMeansNothing(mem: Mem, at: Addr, v: Value, avoid: iset<Addr>)
    requires InMem(mem, at) && Resolve(mem, at).Err? && v.Obj?
    ensures !Denotes(mem, at, v, avoid)
  {
    hide Resolve, Words, IsPtrSlot, Pads, Tags;
  }

  lemma PartMeans(mem: Mem, at: Addr, v: Value, start: Addr, i: nat, avoid: iset<Addr>)
    requires Denotes(mem, at, v, avoid) && v.Obj? && i < |v.cells| && v.cells[i].Ref?
    requires InMem(mem, at) && Resolve(mem, at) == Ok(Object(v.shape, start))
    ensures Denotes(mem, Slot(start, i), v.cells[i].value, avoid)
  {
    hide Resolve, Words, IsPtrSlot, Pads, Tags;
    assert CellAt(mem, Slot(start, i), v.cells[i], IsPtrSlot(v.shape, i), avoid);
  }

  lemma UnfitStays(st: St, at: Addr, shape: Shape, r: Placing, mem: Mem, mem': Mem, n: nat)
    requires InMem(st.mem, at) && r.Placed? && Misread(st.mem, r.st.mem, at, shape, r.start)
    requires n <= Words(shape) && Allocated(st, r.st, at, r.start, Words(shape))
    requires Keeps(r.st.mem, mem, Body(r.start, n)) && KeepsNew(st.mem, mem, mem', iset{at})
    ensures Misread(st.mem, mem', at, shape, r.start)
  {
    hide Linked, Times, EncodeTag, Words, Pads;
    LinkedFacts(st.mem, r.st.mem, at, ListOf(InlineComposite, shape.count), TagOf(r.start));
    AtNotIn(st, r, at, Words(shape));
    ApartFromBody(Pads(r.st.mem, at), r.start, Words(shape));
    MisreadStays(st.mem, r.st.mem, mem', at, shape, r.start);
  }

  lemma AtNotIn(st: St, r: Placing, at: Addr, n: nat)
    requires InMem(st.mem, at) && r.Placed? && Allocated(st, r.st, at, r.start, n)
    ensures at !in Body(r.start, n) && forall a :: a in Body(r.start, n) ==> !InMem(st.mem, a)
  {
    if n > 0 {
      FreshBody(st.mem, r.st.mem, r.start, n);
    }
  }

  lemma FitStays(st: St, at: Addr, shape: Shape, r: Placing, mem: Mem, mem': Mem, n: nat)
    requires InMem(st.mem, at) && r.Placed? && ObjectPlaced(st, at, shape, r) && n <= Words(shape)
    requires Keeps(r.st.mem, mem, Body(r.start, n)) && KeepsNew(st.mem, mem, mem', iset{at})
    ensures InMem(mem', at) && Resolve(mem', at) == Ok(Object(shape, r.start))
  {
    hide Words, Pads, Tags, Resolve;
    AtNotIn(st, r, at, Words(shape));
    ApartFromBody(Pads(r.st.mem, at) + Tags(Object(shape, r.start)), r.start, Words(shape));
    PadsInMem(r.st.mem, at);
    TagsInMem(r.st.mem, at);
    ResolveFrame(r.st.mem, mem', at);
  }

  lemma BodyKept(st: St, at: Addr, shape: Shape, r: Placing, mem: Mem, mem': Mem, n: nat)
    requires InMem(st.mem, at) && r.Placed? && Allocated(st, r.st, at, r.start, Words(shape)) && n <= Words(shape)
    requires KeepsNew(st.mem, mem, mem', iset{at})
    ensures KeepsNew(r.st.mem, mem, mem', Body(r.start, n))
  {
    hide Words;
    AtNotIn(st, r, at, Words(shape));
  }

  lemma {:induction false} CellsNotMeant(cells: seq<Cell>, start: Addr, st: St, i: nat, mem': Mem, avoid: iset<Addr>)
    requires ValidSt(st) && HasBody(st.mem, start, |cells|) && LooseCells(cells) && i < |cells|
    requires PutCells(cells, start, st).failures == 0 && !CellFits(cells[i])
    requires KeepsNew(st.mem, PutCells(cells, start, st).st.mem, mem', Body(start, |cells|))
    ensures !Denotes(mem', Slot(start, i), cells[i].value, avoid)
    decreases cells
  {
    hide PutPtr, Denotes, SetWord, LooseCell;
    var last := |cells| - 1;
    var before := PutCells(cells[..last], start, st);
    var slot := Slot(start, last);
    if i < last {
      PrefixKept(st.mem, before.st.mem, PutCells(cells, start, st).st.mem, mem', start, last);
      CellsNotMeant(cells[..last], start, st, i, mem', avoid);
    } else {
      LastKept(st.mem, before.st.mem, PutCells(cells, start, st).st.mem, mem', start, last);
      CellNotMeant(cells[last], slot, before.st, mem', avoid);
    }
  }

  lemma PrefixKept(past: Mem, before: Mem, mem: Mem, mem': Mem, start: Addr, last: nat)
    requires Grows(past, before) && Keeps(before, mem, iset{Slot(start, last)}) && InMem(past, Slot(start, last))
    requires KeepsNew(past, mem, mem', Body(start, last + 1))
    ensures KeepsNew(past, before, mem', Body(start, last))
  {
  }

  lemma LastKept(past: Mem, before: Mem, mem: Mem, mem': Mem, start: Addr, last: nat)
    requires Grows(past, before) && KeepsNew(past, mem, mem', Body(start, last + 1))
    ensures KeepsNew(before, mem, mem', iset{Slot(start, last)})
  {
  }

  lemma {:induction false} CellNotMeant(cell: Cell, at: Addr, st: St, mem': Mem, avoid: iset<Addr>)
    requires ValidSt(st) && InMem(st.mem, at) && LooseCell(cell, cell.Ref?) && !CellFits(cell)
    requires PutCell(cell, at, st).failures == 0
    requires KeepsNew(st.mem, PutCell(cell, at, st).st.mem, mem', iset{at})
    ensures !Denotes(mem', at, cell.value, avoid)
    decreases cell
  {
    hide PutPtr, Denotes;
    NotMeant(cell.value, at, st, mem', avoid);
  }
}
