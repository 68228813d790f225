/**
 What the comparison of two pointers says of what they mean.
 */
module Walked {
  import opened Wire
  import opened Reader
  import opened Values
  import opened Copying
  import opened Equality
  import opened EqualityMeaning
  import opened Walking

  /** The cells of an object mean what is in the memory. */
  ghost predicate ContentMeans(mem: Mem, shape: Shape, start: Addr, cells: seq<Cell>) {
    && |cells| == Words(shape)
    && forall i :: 0 <= i < |cells| ==> CellAt(mem, Slot(start, i), cells[i], IsPtrSlot(shape, i), iset{})
  }

  /** Cells `i` to `i + n` of an object are pointers that mean what is in the memory. */
  ghost predicate RefsMean(mem: Mem, start: Addr, cells: seq<Cell>, i: nat, n: nat) {
    && i + n <= |cells|
    && forall k :: i <= k < i + n ==> CellAt(mem, Slot(start, k), cells[k], true, iset{})
  }

  ghost predicate DatasMean(mem: Mem, start: Addr, cells: seq<Cell>, i: nat, n: nat) {
    && i + n <= |cells|
    && forall k :: i <= k < i + n ==> CellAt(mem, Slot(start, k), cells[k], false, iset{})
  }

  ghost predicate StructMeans(mem: Mem, start: Addr, cells: seq<Cell>, base: nat, size: StructSize) {
    DatasMean(mem, start, cells, base, size.data) && RefsMean(mem, start, cells, base + size.data, size.ptrs)
  }

  ghost predicate EnoughIn(mem: Mem, start: Addr, i: nat, n: nat, lim: Limiter, fuel: nat) {
    forall k :: i <= k < i + n && InMem(mem, Slot(start, k)) && !At(mem, Slot(start, k)).IsNull() ==>
      fuel > 0 && Enough(mem, Slot(start, k), lim, fuel - 1)
  }

  lemma CellsFormed(mem: Mem, at: Addr, cell: Cell, isPtr: bool)
    requires CellAt(mem, at, cell, isPtr, iset{})
    ensures FormedCell(cell, isPtr)
  {
    hide Denotes, Formed;
    if cell.Ref? {
      MeaningIsFormed(mem, at, cell.value, iset{});
    }
  }

  lemma ContentFormed(mem: Mem, shape: Shape, start: Addr, cells: seq<Cell>)
    requires ContentMeans(mem, shape, start, cells)
    ensures FormedCells(shape, cells)
  {
    hide CellAt, FormedCell, Words, IsPtrSlot;
    forall i | 0 <= i < |cells|
      ensures FormedCell(cells[i], IsPtrSlot(shape, i))
    {
      CellsFormed(mem, Slot(start, i), cells[i], IsPtrSlot(shape, i));
    }
  }

  lemma RefsFormed(mem: Mem, start: Addr, cells: seq<Cell>, i: nat, n: nat)
    requires RefsMean(mem, start, cells, i, n)
    ensures Refs(cells, i, n)
  {
    hide CellAt, FormedCell;
    forall k | i <= k < i + n
      ensures FormedCell(cells[k], true)
    {
      CellsFormed(mem, Slot(start, k), cells[k], true);
    }
  }

  lemma StructFormed(mem: Mem, start: Addr, cells: seq<Cell>, base: nat, size: StructSize)
    requires StructMeans(mem, start, cells, base, size)
    ensures StructIn(cells, base, size)
  {
    hide CellAt, FormedCell;
    RefsFormed(mem, start, cells, base + size.data, size.ptrs);
    forall k | base <= k < base + size.data
      ensures FormedCell(cells[k], false)
    {
      CellsFormed(mem, Slot(start, k), cells[k], false);
    }
  }

  lemma DataIsSection(mem: Mem, start: Addr, cells: seq<Cell>, base: nat, n: nat)
    requires DatasMean(mem, start, cells, base, n) && SectionIn(mem, Slot(start, base), n)
    ensures base + n <= |cells| && cells[base..base + n] == Section(mem, Slot(start, base), n)
  {
    forall k | 0 <= k < n
      ensures cells[base + k] == Data(At(mem, Slot(Slot(start, base), k)))
    {
      assert CellAt(mem, Slot(start, base + k), cells[base + k], false, iset{});
      assert Slot(Slot(start, base), k) == Slot(start, base + k);
    }
  }

  /** A null pointer is compared like an empty struct. */
  lemma NullIsEmpty(shape: Shape, cells: seq<Cell>)
    requires FormedCells(shape, cells)
    ensures FormedCells(StructShape(EMPTY), [])
    ensures CmpObjects(StructShape(EMPTY), [], shape, cells) == CmpNull(Obj(shape, cells))
    ensures CmpObjects(shape, cells, StructShape(EMPTY), []) == CmpNull(Obj(shape, cells))
  {
    hide FormedCell, Times, ListWords, IsPtrOfStructs;
    if shape.StructShape? {
      var size := shape.size;
      forall k | 0 <= k < |cells|
        ensures FormedCell(cells[k], size.data <= k)
      {
        assert FormedCell(cells[k], IsPtrSlot(shape, k));
      }
      assert StructIn(cells, 0, size) && StructIn([], 0, EMPTY);
      if size.data == 0 {
        NothingShared(cells, size, [], EMPTY);
      } else {
        assert |cells[0..size.data]| > 0;
      }
      EmptySymmetric(cells, size);
    }
  }

  lemma EmptySymmetric(cells: seq<Cell>, size: StructSize)
    requires StructIn(cells, 0, size) && StructIn([], 0, EMPTY)
    ensures CmpStruct([], 0, EMPTY, cells, 0, size) == CmpStruct(cells, 0, size, [], 0, EMPTY)
  {
    hide StructIn, CmpStruct;
    StructsSymmetric(cells, 0, size, [], 0, EMPTY);
  }

  lemma ObjectsWalk(m: Sides, our: Target, their: Target, lims: Limits, rank: nat)
    requires Within(m.ours, our) && Within(m.theirs, their) && our.Object? && their.Object?
    ensures TargetWalk(m, our, their, lims, rank)
         == ContentWalk(m, our.shape, our.start, their.shape, their.start, lims, rank)
  {
    hide ContentWalk;
  }

  lemma OthersWalk(m: Sides, our: Target, their: Target, lims: Limits, rank: nat)
    requires Within(m.ours, our) && Within(m.theirs, their) && !(our.Object? && their.Object?)
    ensures TargetWalk(m, our, their, lims, rank)
         == Walk(Ok(if our.Capability? && their.Capability? then ContainsCaps else NotEqual), lims)
  {
  }

  lemma ElementInSection(mem: Mem, shape: Shape, start: Addr, e: nat)
    requires shape.CompositeShape? && e < shape.count && SectionIn(mem, start, Words(shape))
    ensures start.seg < |mem|
    ensures start.off + Times(e, shape.size) + shape.size.data + shape.size.ptrs <= |mem[start.seg]|
    ensures Times(e + 1, shape.size) <= Words(shape)
  {
    TimesMonotone(e, shape.count, shape.size);
  }

  lemma WholeStructMeans(mem: Mem, size: StructSize, start: Addr, cells: seq<Cell>)
    requires ContentMeans(mem, StructShape(size), start, cells)
    ensures StructMeans(mem, start, cells, 0, size)
  {
    hide CellAt;
    forall k | 0 <= k < |cells|
      ensures CellAt(mem, Slot(start, k), cells[k], size.data <= k, iset{})
    {
      assert CellAt(mem, Slot(start, k), cells[k], IsPtrSlot(StructShape(size), k), iset{});
    }
  }

  lemma PointersMean(mem: Mem, shape: Shape, start: Addr, cells: seq<Cell>)
    requires shape.ListShape? && shape.element == Pointer && ContentMeans(mem, shape, start, cells)
    ensures |cells| == shape.count && RefsMean(mem, start, cells, 0, shape.count)
  {
    hide CellAt;
    PointerListWords(shape.count);
    forall k | 0 <= k < |cells|
      ensures CellAt(mem, Slot(start, k), cells[k], true, iset{})
    {
      assert CellAt(mem, Slot(start, k), cells[k], IsPtrSlot(shape, k), iset{});
    }
  }

  lemma PlainMeans(mem: Mem, shape: Shape, start: Addr, cells: seq<Cell>)
    requires shape.ListShape? && shape.element != Pointer && ContentMeans(mem, shape, start, cells)
    requires SectionIn(mem, start, Words(shape))
    ensures cells == Section(mem, start, Words(shape))
  {
    forall k | 0 <= k < |cells|
      ensures cells[k] == Data(At(mem, Slot(start, k)))
    {
      assert CellAt(mem, Slot(start, k), cells[k], IsPtrSlot(shape, k), iset{});
    }
  }

  lemma ElementMeans(mem: Mem, shape: Shape, start: Addr, cells: seq<Cell>, e: nat)
    requires shape.CompositeShape? && e < shape.count && ContentMeans(mem, shape, start, cells)
    ensures StructMeans(mem, start, cells, Times(e, shape.size), shape.size)
  {
    hide CellAt, IsPtrOfStructs;
    var base, size := Times(e, shape.size), shape.size;
    TimesMonotone(e, shape.count, size);
    forall k | base <= k < base + size.Total()
      ensures CellAt(mem, Slot(start, k), cells[k], base + size.data <= k, iset{})
    {
      SlotOfElement(e, size, k - base);
      assert CellAt(mem, Slot(start, k), cells[k], IsPtrSlot(shape, k), iset{});
    }
  }

  lemma RefAt(mem: Mem, start: Addr, cells: seq<Cell>, i: nat, n: nat, k: nat)
    requires RefsMean(mem, start, cells, i, n) && k < n
    ensures i + k < |cells| && CellAt(mem, Slot(start, i + k), cells[i + k], true, iset{})
    ensures Refs(cells, i, k) && Refs(cells, i, k + 1)
  {
    RefsFormed(mem, start, cells, i, n);
    hide CellAt, FormedCell;
  }

  ghost predicate EqualSections(cells: seq<Cell>, base: nat, n: nat, cells': seq<Cell>, base': nat, n': nat) {
    && base + n <= |cells| && base' + n' <= |cells'|
    && cells[base..base + n] == cells'[base'..base' + n']
  }

  /** Structs by their data sections, then by the pointers both have. */
  lemma StructOutcome(cells: seq<Cell>, base: nat, size: StructSize, cells': seq<Cell>, base': nat, size': StructSize,
                      n: nat)
    requires StructIn(cells, base, size) && StructIn(cells', base', size')
    requires n == if size.ptrs < size'.ptrs then size.ptrs else size'.ptrs
    ensures Refs(cells, base + size.data, n) && Refs(cells', base' + size'.data, n)
    ensures CmpStruct(cells, base, size, cells', base', size')
         == if EqualSections(cells, base, size.data, cells', base', size'.data)
            then CmpRefs(cells, base + size.data, cells', base' + size'.data, n) else NotEqual
  {
    hide FormedCell, CmpRefs;
  }

  lemma StructObjects(size: StructSize, cells: seq<Cell>, size': StructSize, cells': seq<Cell>)
    requires FormedCells(StructShape(size), cells) && FormedCells(StructShape(size'), cells')
    requires StructIn(cells, 0, size) && StructIn(cells', 0, size')
    ensures CmpObjects(StructShape(size), cells, StructShape(size'), cells')
         == CmpStruct(cells, 0, size, cells', 0, size')
  {
    hide FormedCells, StructIn, CmpStruct;
  }

  lemma StructAndList(shape: Shape, cells: seq<Cell>, shape': Shape, cells': seq<Cell>)
    requires FormedCells(shape, cells) && FormedCells(shape', cells')
    requires shape.StructShape? != shape'.StructShape?
    ensures CmpObjects(shape, cells, shape', cells') == NotEqual
  {
    hide FormedCells;
  }

  lemma FewerRefs(mem: Mem, start: Addr, cells: seq<Cell>, i: nat, n: nat, fewer: nat)
    requires RefsMean(mem, start, cells, i, n) && fewer <= n
    ensures RefsMean(mem, start, cells, i, fewer)
  {
    hide CellAt;
  }

  lemma EnoughFewer(mem: Mem, start: Addr, i: nat, n: nat, fewer: nat, lim: Limiter, fuel: nat)
    requires EnoughIn(mem, start, i, n, lim, fuel) && fewer <= n
    ensures EnoughIn(mem, start, i, fewer, lim, fuel)
  {
    hide Enough;
  }

  lemma EnoughStill(mem: Mem, start: Addr, i: nat, n: nat, lim: Limiter, later: Limiter, fuel: nat)
    requires EnoughIn(mem, start, i, n, lim, fuel) && lim.AtLeast(later)
    ensures EnoughIn(mem, start, i, n, later, fuel)
  {
    hide Acyclic;
  }

  lemma EnoughPart(mem: Mem, shape: Shape, start: Addr, i: nat, n: nat, lim: Limiter, fuel: nat)
    requires EnoughFor(mem, shape, start, lim, fuel) && i + n <= Words(shape)
    requires forall k :: i <= k < i + n ==> IsPtrSlot(shape, k)
    ensures EnoughIn(mem, start, i, n, lim, fuel)
  {
    hide Enough, Words, IsPtrSlot;
  }

  lemma EnoughFields(mem: Mem, size: StructSize, start: Addr, lim: Limiter, fuel: nat)
    requires EnoughFor(mem, StructShape(size), start, lim, fuel)
    ensures EnoughIn(mem, Slot(start, size.data), 0, size.ptrs, lim, fuel)
  {
    hide Enough, EnoughFor;
    EnoughPart(mem, StructShape(size), start, size.data, size.ptrs, lim, fuel);
    EnoughFrom(mem, start, size.data, size.ptrs, lim, fuel);
  }

  /** The same section from its own start. */
  lemma EnoughFrom(mem: Mem, start: Addr, i: nat, n: nat, lim: Limiter, fuel: nat)
    requires EnoughIn(mem, start, i, n, lim, fuel)
    ensures EnoughIn(mem, Slot(start, i), 0, n, lim, fuel)
  {
    hide Enough;
    forall k | 0 <= k < n && InMem(mem, Slot(Slot(start, i), k)) && !At(mem, Slot(Slot(start, i), k)).IsNull()
      ensures fuel > 0 && Enough(mem, Slot(Slot(start, i), k), lim, fuel - 1)
    {
      assert Slot(Slot(start, i), k) == Slot(start, i + k);
    }
  }

  lemma EnoughElement(mem: Mem, shape: Shape, start: Addr, e: nat, lim: Limiter, fuel: nat)
    requires shape.CompositeShape? && e < shape.count && EnoughFor(mem, shape, start, lim, fuel)
    ensures EnoughIn(mem, Slot(Slot(start, Times(e, shape.size)), shape.size.data), 0, shape.size.ptrs, lim, fuel)
  {
    hide Enough, EnoughFor, IsPtrOfStructs;
    var base, size := Times(e, shape.size), shape.size;
    TimesMonotone(e, shape.count, size);
    forall k | base + size.data <= k < base + size.Total()
      ensures IsPtrSlot(shape, k)
    {
      SlotOfElement(e, size, k - base);
    }
    EnoughPart(mem, shape, start, base + size.data, size.ptrs, lim, fuel);
    EnoughFrom(mem, start, base + size.data, size.ptrs, lim, fuel);
    assert Slot(Slot(start, base), size.data) == Slot(start, base + size.data);
  }

  /** The content a value stands for when its pointer is read: a null pointer is an empty struct. */
  ghost function CellsOf(v: Value): seq<Cell> {
    if v.Obj? then v.cells else []
  }

  ghost function ShapeOf(v: Value): Shape {
    if v.Obj? then v.shape else StructShape(EMPTY)
  }

  lemma BothNull(mem: Mem, at: Addr, v: Value, mem': Mem, bt: Addr, w: Value)
    requires Means(mem, at, v) && Means(mem', bt, w) && Formed(v) && Formed(w)
    ensures At(mem, at).IsNull() && At(mem', bt).IsNull() ==> Cmp(v, w) == Equal
  {
    hide Resolve, Formed;
  }

  /** What reading a pointer with a meaning can give. */
  ghost predicate ReadsAs(mem: Mem, lim: Limiter, reading: Reading<Target>, v: Value) {
    && (reading.result.Err? ==> reading.result == Err(ReadLimitExceeded) && lim.Limited?)
    && (reading.result.Ok? ==>
          && (reading.result.value.Capability? <==> v.Cap?)
          && (reading.result.value.Object? ==>
                && reading.result.value.shape == ShapeOf(v)
                && ContentMeans(mem, ShapeOf(v), reading.result.value.start, CellsOf(v))))
  }

  lemma MeantReading(mem: Mem, at: Addr, lim: Limiter, v: Value)
    requires Means(mem, at, v)
    ensures ReadsAs(mem, lim, TryReadTyped(mem, at, lim), v)
  {
    hide TryReadTyped, Words, IsPtrSlot, Pads, Tags, ContentMeans;
    LimitedReading(mem, at, lim);
    match v
    case Null =>
      NullReads(mem, at, lim);
      EmptyContent(mem, Slot(at, 1));
    case Cap(_) =>
    case Obj(shape, cells) =>
      ObjectContent(mem, at, shape, cells);
  }

  lemma LimitedReading(mem: Mem, at: Addr, lim: Limiter)
    requires InMem(mem, at)
    ensures var reading := TryReadTyped(mem, at, lim);
            reading.result == Resolve(mem, at) || (reading.result == Err(ReadLimitExceeded) && lim.Limited?)
  {
    hide TryReadTyped;
    LimiterOnlyRefuses(mem, at, lim);
  }

  lemma EmptyContent(mem: Mem, start: Addr)
    ensures ContentMeans(mem, StructShape(EMPTY), start, [])
  {
  }

  lemma ObjectContent(mem: Mem, at: Addr, shape: Shape, cells: seq<Cell>)
    requires Means(mem, at, Obj(shape, cells))
    ensures Resolve(mem, at).Ok? && Resolve(mem, at).value.Object? && Resolve(mem, at).value.shape == shape
    ensures ContentMeans(mem, shape, Resolve(mem, at).value.start, cells)
  {
    hide Resolve, Words, IsPtrSlot, Pads, Tags;
  }

  lemma NullReads(mem: Mem, at: Addr, lim: Limiter)
    requires InMem(mem, at) && At(mem, at).IsNull()
    ensures TryReadTyped(mem, at, lim) == Reading(Ok(Object(StructShape(EMPTY), Slot(at, 1))), lim)
  {
    hide Decode, TryReadTyped, ReadStruct;
    NullDecodes(At(mem, at));
    NearStructReads(mem, at, 0, EMPTY, lim);
    EmptyReads(mem, at, 0, EMPTY, lim);
  }

  lemma NearStructReads(mem: Mem, at: Addr, offset: i30, size: StructSize, lim: Limiter)
    requires InMem(mem, at) && Decode(At(mem, at)) == StructPtr(offset, size)
    ensures TryReadTyped(mem, at, lim) == ReadStruct(mem, Origin(at), offset, size, lim)
  {
    hide Decode, ReadList, ReadStruct;
  }

  lemma EmptyReads(mem: Mem, at: Addr, offset: i30, size: StructSize, lim: Limiter)
    requires InMem(mem, at) && offset == 0 && size.Total() == 0
    ensures ReadStruct(mem, Origin(at), offset, size, lim) == Reading(Ok(Object(StructShape(size), Slot(at, 1))), lim)
  {
  }

  lemma NullDecodes(w: Word)
    requires w.IsNull()
    ensures Decode(w) == StructPtr(0, EMPTY)
  {
  }

  lemma NullIsNothing(mem: Mem, at: Addr, lim: Limiter)
    requires InMem(mem, at)
    ensures At(mem, at).IsNull() ==> TryReadTyped(mem, at, lim).result == Ok(Object(StructShape(EMPTY), Slot(at, 1)))
  {
    hide TryReadTyped;
    if At(mem, at).IsNull() {
      NullReads(mem, at, lim);
    }
  }

  lemma EnoughForContent(mem: Mem, at: Addr, lim: Limiter, fuel: nat)
    requires InMem(mem, at) && Enough(mem, at, lim, fuel)
    requires TryReadTyped(mem, at, lim).result.Ok? && TryReadTyped(mem, at, lim).result.value.Object?
    ensures var Object(shape, start) := TryReadTyped(mem, at, lim).result.value;
            EnoughFor(mem, shape, start, TryReadTyped(mem, at, lim).lim, fuel)
  {
    hide TryReadTyped, Enough, EnoughFor;
    EnoughBelow(mem, at, lim, fuel);
  }

  /** The comparison of two values by what their pointers read as. */
  lemma CmpByTarget(v: Value, w: Value)
    requires Formed(v) && Formed(w)
    ensures v.Cap? && w.Cap? ==> Cmp(v, w) == ContainsCaps
    ensures v.Cap? != w.Cap? ==> Cmp(v, w) == NotEqual
    ensures !v.Cap? && !w.Cap? ==>
              && FormedCells(ShapeOf(v), CellsOf(v)) && FormedCells(ShapeOf(w), CellsOf(w))
              && Cmp(v, w) == CmpObjects(ShapeOf(v), CellsOf(v), ShapeOf(w), CellsOf(w))
  {
    hide CmpObjects, FormedCells;
    FormedContent(v);
    FormedContent(w);
    if v.Null? && !w.Cap? {
      NullIsEmpty(ShapeOf(w), CellsOf(w));
    } else if w.Null? && !v.Cap? {
      NullIsEmpty(ShapeOf(v), CellsOf(v));
    }
  }

  lemma FormedContent(v: Value)
    requires Formed(v)
    ensures FormedCells(ShapeOf(v), CellsOf(v))
  {
    hide FormedCell;
  }

  // ----- Without limiters the comparison is that of the meanings

  const FREE: Limits := Limits(Unlimited, Unlimited)

  /** The walk ends: on one of the sides the content is that shallow. */
  ghost predicate ContentShallow(m: Sides, byOurs: bool, shape: Shape, start: Addr, shape': Shape, start': Addr,
                                 rank: nat) {
    if rank == 0 then shape == StructShape(EMPTY) || shape' == StructShape(EMPTY)
    else if byOurs then EnoughFor(m.ours, shape, start, Unlimited, rank - 1)
    else EnoughFor(m.theirs, shape', start', Unlimited, rank - 1)
  }

  ghost predicate SectionShallow(m: Sides, byOurs: bool, start: Addr, start': Addr, n: nat, rank: nat) {
    if rank == 0 then n == 0
    else if byOurs then EnoughIn(m.ours, start, 0, n, Unlimited, rank - 1)
    else EnoughIn(m.theirs, start', 0, n, Unlimited, rank - 1)
  }

  ghost predicate PairShallow(m: Sides, byOurs: bool, at: Addr, bt: Addr, fuel: nat) {
    if byOurs then Acyclic(m.ours, at, fuel) else Acyclic(m.theirs, bt, fuel)
  }

  lemma {:induction false} PairMeans(m: Sides, at: Addr, bt: Addr, fuel: nat, byOurs: bool, v: Value, w: Value)
    requires Means(m.ours, at, v) && Means(m.theirs, bt, w)
    requires !EitherNull(m, at, bt) ==> PairShallow(m, byOurs, at, bt, fuel)
    ensures Formed(v) && Formed(w) && PairWalk(m, at, bt, FREE, fuel) == Walk(Ok(Cmp(v, w)), FREE)
    decreases if EitherNull(m, at, bt) then 0 else fuel + 1, 6, 0
  {
    hide TryReadTyped, Words, IsPtrSlot, Cmp, CmpObjects, CmpNull, Formed, ContentMeans, EnoughFor, FormedCells,
         Acyclic, ContentWalk, Denotes, ContentShallow;
    MeantInMem(m.ours, at, v);
    MeantInMem(m.theirs, bt, w);
    MeaningIsFormed(m.ours, at, v, iset{});
    MeaningIsFormed(m.theirs, bt, w, iset{});
    BothNull(m.ours, at, v, m.theirs, bt, w);
    if !(At(m.ours, at).IsNull() && At(m.theirs, bt).IsNull()) {
      ReaderSound(m.ours, at, Unlimited);
      ReaderSound(m.theirs, bt, Unlimited);
      MeantReading(m.ours, at, Unlimited, v);
      MeantReading(m.theirs, bt, Unlimited, w);
      CmpByTarget(v, w);
      var our, their := Resolve(m.ours, at).value, Resolve(m.theirs, bt).value;
      var rank: nat := if EitherNull(m, at, bt) then 0 else fuel + 1;
      if our.Object? && their.Object? {
        PairContentShallow(m, at, bt, fuel, byOurs, our, their);
        ObjectsMeant(m, our.shape, our.start, their.shape, their.start, rank, byOurs, CellsOf(v), CellsOf(w));
        ObjectsWalk(m, our, their, FREE, rank);
      } else {
        OthersWalk(m, our, their, FREE, rank);
      }
    }
  }

  lemma MeantInMem(mem: Mem, at: Addr, v: Value)
    requires Means(mem, at, v)
    ensures InMem(mem, at)
  {
    hide Resolve;
  }

  lemma PairContentShallow(m: Sides, at: Addr, bt: Addr, fuel: nat, byOurs: bool, our: Target, their: Target)
    requires InMem(m.ours, at) && InMem(m.theirs, bt) && our.Object? && their.Object?
    requires Resolve(m.ours, at) == Ok(our) && Resolve(m.theirs, bt) == Ok(their)
    requires !EitherNull(m, at, bt) ==> PairShallow(m, byOurs, at, bt, fuel)
    ensures ContentShallow(m, byOurs, our.shape, our.start, their.shape, their.start,
                           if EitherNull(m, at, bt) then 0 else fuel + 1)
  {
    hide TryReadTyped, EnoughFor, Acyclic;
    if EitherNull(m, at, bt) {
      NullIsNothing(m.ours, at, Unlimited);
      NullIsNothing(m.theirs, bt, Unlimited);
    } else if byOurs {
      LimiterOnlyRefuses(m.ours, at, Unlimited);
      EnoughForContent(m.ours, at, Unlimited, fuel);
    } else {
      LimiterOnlyRefuses(m.theirs, bt, Unlimited);
      EnoughForContent(m.theirs, bt, Unlimited, fuel);
    }
  }

  lemma {:induction false} ObjectsMeant(m: Sides, shape: Shape, start: Addr, shape': Shape, start': Addr, rank: nat,
                                        byOurs: bool, cells: seq<Cell>, cells': seq<Cell>)
    requires SectionIn(m.ours, start, Words(shape)) && SectionIn(m.theirs, start', Words(shape'))
    requires ContentShallow(m, byOurs, shape, start, shape', start', rank)
    requires ContentMeans(m.ours, shape, start, cells) && ContentMeans(m.theirs, shape', start', cells')
    ensures FormedCells(shape, cells) && FormedCells(shape', cells')
    ensures ContentWalk(m, shape, start, shape', start', FREE, rank)
         == Walk(Ok(CmpObjects(shape, cells, shape', cells')), FREE)
    decreases rank, 4, 0
  {
    hide EnoughFor, EnoughIn, CmpStruct, CmpElements, CmpRefs, ContentMeans, StructMeans, StructIn, FormedCells,
         ListWords, Times, SameData, StructWalk, ElementsWalk, SectionWalk, RefsMean;
    ContentFormed(m.ours, shape, start, cells);
    ContentFormed(m.theirs, shape', start', cells');
    if shape.StructShape? && shape'.StructShape? {
      WholeStructMeans(m.ours, shape.size, start, cells);
      WholeStructMeans(m.theirs, shape'.size, start', cells');
      StructsShallow(m, byOurs, shape.size, start, shape'.size, start', rank);
      StructsMeant(m, start, 0, shape.size, start', 0, shape'.size, rank, byOurs, cells, cells');
      StructObjects(shape.size, cells, shape'.size, cells');
      assert Slot(start, 0) == start && Slot(start', 0) == start';
    } else if shape.StructShape? || shape'.StructShape? {
      StructAndList(shape, cells, shape', cells');
    } else if shape.CompositeShape? && shape'.CompositeShape? && shape.count == shape'.count {
      ElementsFormed(shape, cells, shape.count);
      ElementsFormed(shape', cells', shape.count);
      ElementsMeant(m, shape, start, shape', start', shape.count, rank, byOurs, cells, cells');
    } else if shape.ListShape? && shape == shape' {
      if shape.element == Pointer {
        PointersMean(m.ours, shape, start, cells);
        PointersMean(m.theirs, shape, start', cells');
        PointerListWords(shape.count);
        PointersShallow(m, byOurs, shape, start, start', rank);
        SectionMeant(m, start, 0, start', 0, shape.count, rank, byOurs, cells, cells');
        assert Slot(start, 0) == start && Slot(start', 0) == start';
      } else {
        PlainMeans(m.ours, shape, start, cells);
        PlainMeans(m.theirs, shape, start', cells');
      }
    }
  }

  lemma StructsShallow(m: Sides, byOurs: bool, size: StructSize, start: Addr, size': StructSize, start': Addr,
                       rank: nat)
    requires ContentShallow(m, byOurs, StructShape(size), start, StructShape(size'), start', rank)
    ensures SectionShallow(m, byOurs, Slot(start, size.data), Slot(start', size'.data),
                           if size.ptrs < size'.ptrs then size.ptrs else size'.ptrs, rank)
  {
    hide EnoughFor, EnoughIn;
    if rank > 0 {
      var n: nat := if size.ptrs < size'.ptrs then size.ptrs else size'.ptrs;
      if byOurs {
        EnoughFields(m.ours, size, start, Unlimited, rank - 1);
        EnoughFewer(m.ours, Slot(start, size.data), 0, size.ptrs, n, Unlimited, rank - 1);
      } else {
        EnoughFields(m.theirs, size', start', Unlimited, rank - 1);
        EnoughFewer(m.theirs, Slot(start', size'.data), 0, size'.ptrs, n, Unlimited, rank - 1);
      }
    }
  }

  lemma PointersShallow(m: Sides, byOurs: bool, shape: Shape, start: Addr, start': Addr, rank: nat)
    requires shape.ListShape? && shape.element == Pointer
    requires ContentShallow(m, byOurs, shape, start, shape, start', rank)
    ensures SectionShallow(m, byOurs, start, start', shape.count, rank)
  {
    hide EnoughFor, EnoughIn;
    PointerListWords(shape.count);
    if byOurs {
      EnoughPart(m.ours, shape, start, 0, shape.count, Unlimited, rank - 1);
    } else {
      EnoughPart(m.theirs, shape, start', 0, shape.count, Unlimited, rank - 1);
    }
  }

  lemma {:induction false} StructsMeant(m: Sides, start: Addr, base: nat, size: StructSize, start': Addr, base': nat,
                                        size': StructSize, rank: nat, byOurs: bool, cells: seq<Cell>,
                                        cells': seq<Cell>)
    requires SectionIn(m.ours, Slot(start, base), size.Total())
    requires SectionIn(m.theirs, Slot(start', base'), size'.Total())
    requires SectionShallow(m, byOurs, Slot(Slot(start, base), size.data), Slot(Slot(start', base'), size'.data),
                            if size.ptrs < size'.ptrs then size.ptrs else size'.ptrs, rank)
    requires StructMeans(m.ours, start, cells, base, size) && StructMeans(m.theirs, start', cells', base', size')
    ensures StructIn(cells, base, size) && StructIn(cells', base', size')
    ensures StructWalk(m, Slot(start, base), size, Slot(start', base'), size', FREE, rank)
         == Walk(Ok(CmpStruct(cells, base, size, cells', base', size')), FREE)
    decreases rank, 2, 0
  {
    hide CmpRefs, CmpStruct, RefsMean, DatasMean, StructIn, Refs, SectionWalk, SectionShallow;
    var n: nat := if size.ptrs < size'.ptrs then size.ptrs else size'.ptrs;
    StructFormed(m.ours, start, cells, base, size);
    StructFormed(m.theirs, start', cells', base', size');
    StructOutcome(cells, base, size, cells', base', size', n);
    DataIsSection(m.ours, start, cells, base, size.data);
    DataIsSection(m.theirs, start', cells', base', size'.data);
    FewerRefs(m.ours, start, cells, base + size.data, size.ptrs, n);
    FewerRefs(m.theirs, start', cells', base' + size'.data, size'.ptrs, n);
    assert Slot(Slot(start, base), size.data) == Slot(start, base + size.data);
    assert Slot(Slot(start', base'), size'.data) == Slot(start', base' + size'.data);
    SectionMeant(m, start, base + size.data, start', base' + size'.data, n, rank, byOurs, cells, cells');
  }

  lemma {:induction false} ElementsMeant(m: Sides, shape: Shape, start: Addr, shape': Shape, start': Addr, n: nat,
                                         rank: nat, byOurs: bool, cells: seq<Cell>, cells': seq<Cell>)
    requires shape.CompositeShape? && shape'.CompositeShape? && n <= shape.count && n <= shape'.count
    requires SectionIn(m.ours, start, Words(shape)) && SectionIn(m.theirs, start', Words(shape'))
    requires SectionIn(m.ours, start, Times(n, shape.size)) && SectionIn(m.theirs, start', Times(n, shape'.size))
    requires ContentShallow(m, byOurs, shape, start, shape', start', rank)
    requires ContentMeans(m.ours, shape, start, cells) && ContentMeans(m.theirs, shape', start', cells')
    requires forall e :: 0 <= e < n ==> StructIn(cells, Times(e, shape.size), shape.size)
    requires forall e :: 0 <= e < n ==> StructIn(cells', Times(e, shape'.size), shape'.size)
    ensures ElementsWalk(m, start, shape.size, start', shape'.size, n, FREE, rank)
         == Walk(Ok(CmpElements(cells, shape.size, cells', shape'.size, n)), FREE)
    decreases rank, 3, n
  {
    hide CmpStruct, ContentMeans, StructIn, StructMeans, StructWalk, ContentShallow, IsPtrSlot;
    if n > 0 {
      var e := n - 1;
      ElementsMeant(m, shape, start, shape', start', e, rank, byOurs, cells, cells');
      ElementMeans(m.ours, shape, start, cells, e);
      ElementMeans(m.theirs, shape', start', cells', e);
      ElementShallow(m, byOurs, shape, start, shape', start', e, rank);
      StructsMeant(m, start, Times(e, shape.size), shape.size, start', Times(e, shape'.size), shape'.size, rank, byOurs,
                   cells, cells');
    }
  }

  lemma ElementShallow(m: Sides, byOurs: bool, shape: Shape, start: Addr, shape': Shape, start': Addr, e: nat,
                       rank: nat)
    requires shape.CompositeShape? && shape'.CompositeShape? && e < shape.count && e < shape'.count
    requires ContentShallow(m, byOurs, shape, start, shape', start', rank)
    ensures var size, size' := shape.size, shape'.size;
            SectionShallow(m, byOurs, Slot(Slot(start, Times(e, size)), size.data),
                           Slot(Slot(start', Times(e, size')), size'.data),
                           if size.ptrs < size'.ptrs then size.ptrs else size'.ptrs, rank)
  {
    hide EnoughFor, EnoughIn, Times;
    var n: nat := if shape.size.ptrs < shape'.size.ptrs then shape.size.ptrs else shape'.size.ptrs;
    if byOurs {
      var ptrs := Slot(Slot(start, Times(e, shape.size)), shape.size.data);
      EnoughElement(m.ours, shape, start, e, Unlimited, rank - 1);
      EnoughFewer(m.ours, ptrs, 0, shape.size.ptrs, n, Unlimited, rank - 1);
    } else {
      var ptrs := Slot(Slot(start', Times(e, shape'.size)), shape'.size.data);
      EnoughElement(m.theirs, shape', start', e, Unlimited, rank - 1);
      EnoughFewer(m.theirs, ptrs, 0, shape'.size.ptrs, n, Unlimited, rank - 1);
    }
  }

  lemma {:induction false} SectionMeant(m: Sides, start: Addr, i: nat, start': Addr, j: nat, n: nat, rank: nat,
                                        byOurs: bool, cells: seq<Cell>, cells': seq<Cell>)
    requires SectionIn(m.ours, Slot(start, i), n) && SectionIn(m.theirs, Slot(start', j), n)
    requires SectionShallow(m, byOurs, Slot(start, i), Slot(start', j), n, rank)
    requires RefsMean(m.ours, start, cells, i, n) && RefsMean(m.theirs, start', cells', j, n)
    ensures Refs(cells, i, n) && Refs(cells', j, n)
    ensures SectionWalk(m, Slot(start, i), Slot(start', j), n, FREE, rank)
         == Walk(Ok(CmpRefs(cells, i, cells', j, n)), FREE)
    decreases rank, 1, n
  {
    hide Enough, Refs, RefsMean, CmpCell, SlotWalk;
    RefsFormed(m.ours, start, cells, i, n);
    RefsFormed(m.theirs, start', cells', j, n);
    if n > 0 {
      var k := n - 1;
      FewerRefs(m.ours, start, cells, i, n, k);
      FewerRefs(m.theirs, start', cells', j, n, k);
      SectionMeant(m, start, i, start', j, k, rank, byOurs, cells, cells');
      RefAt(m.ours, start, cells, i, n, k);
      RefAt(m.theirs, start', cells', j, n, k);
      assert Slot(Slot(start, i), k) == Slot(start, i + k) && Slot(Slot(start', j), k) == Slot(start', j + k);
      var before := Walk(Ok(CmpRefs(cells, i, cells', j, k)), FREE);
      if !Stops(before.r) {
        SlotMeant(m, Slot(start, i + k), Slot(start', j + k), before, rank, byOurs, cells[i + k], cells'[j + k]);
      }
    }
  }

  lemma {:induction false} SlotMeant(m: Sides, at: Addr, bt: Addr, before: Walk, rank: nat, byOurs: bool, cell: Cell,
                                     cell': Cell)
    requires InMem(m.ours, at) && InMem(m.theirs, bt) && rank > 0 && !Stops(before.r) && before.lims == FREE
    requires byOurs && !At(m.ours, at).IsNull() ==> rank > 1 && Enough(m.ours, at, Unlimited, rank - 2)
    requires !byOurs && !At(m.theirs, bt).IsNull() ==> rank > 1 && Enough(m.theirs, bt, Unlimited, rank - 2)
    requires CellAt(m.ours, at, cell, true, iset{}) && CellAt(m.theirs, bt, cell', true, iset{})
    ensures FormedCell(cell, true) && FormedCell(cell', true)
    ensures SlotWalk(m, at, bt, before, rank) == Walk(Ok(Both(before.r.value, CmpCell(cell, cell'))), FREE)
    decreases rank, 0, 0
  {
    hide Formed, Cmp, Denotes, PairWalk, Acyclic;
    PairMeans(m, at, bt, if rank > 1 then rank - 2 else 0, byOurs, cell.value, cell'.value);
  }
}
