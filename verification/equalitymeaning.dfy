/**
 What the outcome of a comparison says about two trees, and where it is no equality.
 */
module EqualityMeaning {
  import opened Wire
  import opened Reader
  import opened Values
  import opened Copying
  import opened DeepCopy
  import opened Equality
  import opened ListEquality
  import opened DataPromotion

  lemma {:induction false} MeaningIsFormed(mem: Mem, at: Addr, v: Value, avoid: iset<Addr>)
    requires Denotes(mem, at, v, avoid)
    ensures Formed(v)
    decreases v
  {
    hide Resolve, Words, IsPtrSlot, Pads, Tags;
    if v.Obj? {
      forall i | 0 <= i < |v.cells|
        ensures FormedCell(v.cells[i], IsPtrSlot(v.shape, i))
      {
        assert CellAt(mem, Slot(Resolve(mem, at).value.start, i), v.cells[i], IsPtrSlot(v.shape, i), avoid);
        if v.cells[i].Ref? {
          MeaningIsFormed(mem, Slot(Resolve(mem, at).value.start, i), v.cells[i].value, avoid);
        }
      }
    }
  }

  // ----- Symmetry

  lemma {:induction false} CmpSymmetric(v: Value, w: Value)
    requires Formed(v) && Formed(w)
    ensures Cmp(v, w) == Cmp(w, v)
    decreases v
  {
    hide CmpObjects, Words, IsPtrSlot;
    if v.Obj? && w.Obj? {
      ObjectsSymmetric(v.shape, v.cells, w.shape, w.cells);
    }
  }

  lemma {:induction false} ObjectsSymmetric(shape: Shape, cells: seq<Cell>, shape': Shape, cells': seq<Cell>)
    requires FormedCells(shape, cells) && FormedCells(shape', cells')
    ensures CmpObjects(shape, cells, shape', cells') == CmpObjects(shape', cells', shape, cells)
    decreases cells, 4, 0
  {
    hide CmpStruct, CmpRefs, CmpElements, FormedCell, IsPtrOfStructs, Times, ListWords, ByteAt, Masked;
    if shape.StructShape? && shape'.StructShape? {
      StructsSymmetric(cells, 0, shape.size, cells', 0, shape'.size);
    } else if shape.ListShape? && shape'.ListShape? && shape == shape' {
      if shape.element == Pointer {
        PointersOf(shape, cells);
        PointersOf(shape', cells');
        RefsSymmetric(cells, 0, cells', 0, shape.count);
      } else {
        DataSymmetric(shape.element, shape.count, cells, cells');
      }
    } else if shape.CompositeShape? && shape'.CompositeShape? && shape.count == shape'.count {
      ElementsFormed(shape, cells, shape.count);
      ElementsFormed(shape', cells', shape.count);
      ElementsSymmetric(cells, shape.size, cells', shape'.size, shape.count);
    }
  }

  lemma PointersOf(shape: Shape, cells: seq<Cell>)
    requires shape.ListShape? && shape.element == Pointer && FormedCells(shape, cells)
    ensures |cells| == shape.count && Refs(cells, 0, shape.count)
  {
    hide FormedCell;
    PointerListWords(shape.count);
    forall k | 0 <= k < shape.count
      ensures FormedCell(cells[k], true)
    {
      assert FormedCell(cells[k], IsPtrSlot(shape, k));
    }
  }

  lemma DataSymmetric(element: PtrElementSize, count: u29, cells: seq<Cell>, cells': seq<Cell>)
    requires element != Pointer
    requires FormedCells(ListShape(element, count), cells) && FormedCells(ListShape(element, count), cells')
    ensures |cells| == |cells'| == ListWords(element, count)
    ensures forall k :: 0 <= k < |cells| ==> cells[k].Data? && cells'[k].Data?
    ensures SameData(element, count, cells, cells') <==> SameData(element, count, cells', cells)
  {
    hide ListWords, ByteAt, Masked;
    DataOf(ListShape(element, count), cells);
    DataOf(ListShape(element, count), cells');
  }

  lemma {:induction false} ElementsSymmetric(cells: seq<Cell>, size: StructSize, cells': seq<Cell>, size': StructSize,
                                             n: nat)
    requires forall e :: 0 <= e < n ==> StructIn(cells, Times(e, size), size)
    requires forall e :: 0 <= e < n ==> StructIn(cells', Times(e, size'), size')
    ensures CmpElements(cells, size, cells', size', n) == CmpElements(cells', size', cells, size, n)
    decreases cells, 3, n
  {
    hide CmpStruct, StructIn;
    if n > 0 {
      ElementsSymmetric(cells, size, cells', size', n - 1);
      StructsSymmetric(cells, Times(n - 1, size), size, cells', Times(n - 1, size'), size');
    }
  }

  lemma {:induction false} StructsSymmetric(cells: seq<Cell>, base: nat, size: StructSize,
                                            cells': seq<Cell>, base': nat, size': StructSize)
    requires StructIn(cells, base, size) && StructIn(cells', base', size')
    ensures CmpStruct(cells, base, size, cells', base', size') == CmpStruct(cells', base', size', cells, base, size)
    decreases cells, 2, 0
  {
    hide CmpRefs;
    RefsSymmetric(cells, base + size.data, cells', base' + size'.data,
                  if size.ptrs < size'.ptrs then size.ptrs else size'.ptrs);
  }

  lemma {:induction false} RefsSymmetric(cells: seq<Cell>, i: nat, cells': seq<Cell>, j: nat, n: nat)
    requires Refs(cells, i, n) && Refs(cells', j, n)
    ensures CmpRefs(cells, i, cells', j, n) == CmpRefs(cells', j, cells, i, n)
    decreases cells, 1, n
  {
    hide CmpCell;
    if n > 0 {
      RefsSymmetric(cells, i, cells', j, n - 1);
      CellSymmetric(cells[i + n - 1], cells'[j + n - 1]);
    }
  }

  lemma {:induction false} CellSymmetric(cell: Cell, cell': Cell)
    requires FormedCell(cell, true) && FormedCell(cell', true)
    ensures CmpCell(cell, cell') == CmpCell(cell', cell)
    decreases cell
  {
    CmpSymmetric(cell.value, cell'.value);
  }

  // ----- Where it is no equality

  /** A struct with nothing but a pointer to `v`. */
  function Holding(v: Value): Value {
    Obj(StructShape(StructSize(0, 1)), [Ref(v)])
  }

  const NOTHING: Value := Obj(StructShape(EMPTY), [])

  lemma HoldingFormed(v: Value)
    requires Formed(v)
    ensures Formed(Holding(v)) && FormedCells(StructShape(StructSize(0, 1)), [Ref(v)])
    ensures Formed(NOTHING)
  {
    assert FormedCell(Ref(v), true);
  }

  /**
   Structs are compared by the pointers both have, so the empty struct equals every struct without data.
   Hence equality holds on both sides of the empty struct whatever `v` and `w` are, but between the outer
   two it is what it is between `v` and `w`.
   */
  lemma ThroughNothing(v: Value, w: Value)
    requires Formed(v) && Formed(w)
    ensures Formed(Holding(v)) && Formed(Holding(w)) && Formed(NOTHING)
    ensures Cmp(Holding(v), NOTHING) == Equal && Cmp(NOTHING, Holding(w)) == Equal
    ensures Cmp(Holding(v), Holding(w)) == Cmp(v, w)
  {
    hide Cmp, Formed;
    EmptyEquals(v);
    EmptyEquals(w);
    CmpSymmetric(Holding(w), NOTHING);
    HoldersCompare(v, w);
  }

  /** Equality is not transitive. */
  lemma NotTransitive()
    ensures exists u, v, w ::
              && Formed(u) && Formed(v) && Formed(w)
              && Cmp(u, v) == Equal && Cmp(v, w) == Equal && Cmp(u, w) == NotEqual
  {
    hide Cmp, Formed;
    ListsDiffer();
    ThroughNothing(VoidList(0), VoidList(1));
    assert Cmp(Holding(VoidList(0)), Holding(VoidList(1))) == NotEqual;
  }

  function VoidList(count: u29): Value {
    Obj(ListShape(Void, count), [])
  }

  lemma ListsDiffer()
    ensures Formed(VoidList(0)) && Formed(VoidList(1)) && Cmp(VoidList(0), VoidList(1)) == NotEqual
  {
  }

  /** A null pointer equals every struct without data. */
  lemma NullEqualsNoData(v: Value)
    requires Formed(v)
    ensures Formed(Null) && Formed(Holding(v))
    ensures Cmp(Null, Holding(v)) == Equal && Uncapped(Null) != Uncapped(Holding(v))
  {
    hide Formed;
    HoldingFormed(v);
    NullIsFormed();
  }

  lemma NullIsFormed()
    ensures Formed(Null)
  {
  }

  /** Pointers only one struct has are not compared. */
  lemma ExtraPointers(v: Value)
    requires Formed(v)
    ensures Formed(Holding(v)) && Formed(NOTHING)
    ensures Cmp(Holding(v), NOTHING) == Equal && Uncapped(Holding(v)) != Uncapped(NOTHING)
  {
    hide Cmp, Formed;
    EmptyEquals(v);
  }

  /** Of lists of structs the struct size is not compared: empty lists are equal whatever they are lists of. */
  lemma EmptyComposites(size: StructSize, size': StructSize)
    requires size != size'
    ensures var v, w := Obj(CompositeShape(size, 0), []), Obj(CompositeShape(size', 0), []);
            Formed(v) && Formed(w) && Cmp(v, w) == Equal && Uncapped(v) != Uncapped(w)
  {
    assert Uncapped(Obj(CompositeShape(size, 0), [])).shape.size == size;
  }

  /** Nor are the pointers only one list of structs has. */
  lemma ExtraPointersInLists(v: Value)
    requires Formed(v)
    ensures var a := Obj(CompositeShape(StructSize(0, 1), 1), [Ref(v)]);
            var b := Obj(CompositeShape(EMPTY, 1), []);
            Formed(a) && Formed(b) && Cmp(a, b) == Equal && Uncapped(a) != Uncapped(b)
  {
    hide Formed;
    OneHolder(v);
    OneNothing();
    var size := StructSize(0, 1);
    var a, b := Obj(CompositeShape(size, 1), [Ref(v)]), Obj(CompositeShape(EMPTY, 1), []);
    OneElement(size, [Ref(v)], EMPTY, []);
    assert Uncapped(a).shape != Uncapped(b).shape;
  }

  lemma OneHolder(v: Value)
    requires Formed(v)
    ensures Formed(Obj(CompositeShape(StructSize(0, 1), 1), [Ref(v)]))
  {
    assert FormedCell(Ref(v), true);
  }

  lemma OneNothing()
    ensures Formed(Obj(CompositeShape(EMPTY, 1), []))
  {
  }

  /** Lists of one struct without data, of which one has no pointers, are equal. */
  lemma OneElement(size: StructSize, cells: seq<Cell>, size': StructSize, cells': seq<Cell>)
    requires size.data == 0 && size'.data == 0 && size'.ptrs == 0
    requires Formed(Obj(CompositeShape(size, 1), cells)) && Formed(Obj(CompositeShape(size', 1), cells'))
    ensures Cmp(Obj(CompositeShape(size, 1), cells), Obj(CompositeShape(size', 1), cells')) == Equal
  {
    hide Formed, FormedCells, CmpStruct, StructIn, Cmp, CmpElements;
    ListsByElements(size, cells, size', cells');
    NothingShared(cells, size, cells', size');
  }

  lemma ListsByElements(size: StructSize, cells: seq<Cell>, size': StructSize, cells': seq<Cell>)
    requires Formed(Obj(CompositeShape(size, 1), cells)) && Formed(Obj(CompositeShape(size', 1), cells'))
    ensures StructIn(cells, 0, size) && StructIn(cells', 0, size')
    ensures Cmp(Obj(CompositeShape(size, 1), cells), Obj(CompositeShape(size', 1), cells'))
         == CmpStruct(cells, 0, size, cells', 0, size')
  {
    hide Formed, FormedCells, CmpStruct, StructIn, CmpElements;
    var shape, shape' := CompositeShape(size, 1), CompositeShape(size', 1);
    FormedParts(Obj(shape, cells));
    FormedParts(Obj(shape', cells'));
    ElementsFormed(shape, cells, shape.count);
    ElementsFormed(shape', cells', shape'.count);
    FirstElement(cells, size, cells', size', shape.count);
  }

  lemma FirstElement(cells: seq<Cell>, size: StructSize, cells': seq<Cell>, size': StructSize, n: nat)
    requires forall e :: 0 <= e < n ==> StructIn(cells, Times(e, size), size)
    requires forall e :: 0 <= e < n ==> StructIn(cells', Times(e, size'), size')
    requires n == 1
    ensures StructIn(cells, 0, size) && StructIn(cells', 0, size')
    ensures CmpElements(cells, size, cells', size', n) == CmpStruct(cells, 0, size, cells', 0, size')
  {
    hide CmpStruct, StructIn;
    assert StructIn(cells, Times(n - 1, size), size) && StructIn(cells', Times(n - 1, size'), size');
  }

  lemma FormedParts(v: Value)
    requires Formed(v) && v.Obj?
    ensures FormedCells(v.shape, v.cells)
  {
  }

  lemma StructsByParts(size: StructSize, cells: seq<Cell>, size': StructSize, cells': seq<Cell>)
    requires Formed(Obj(StructShape(size), cells)) && Formed(Obj(StructShape(size'), cells'))
    ensures StructIn(cells, 0, size) && StructIn(cells', 0, size')
    ensures Cmp(Obj(StructShape(size), cells), Obj(StructShape(size'), cells'))
         == CmpStruct(cells, 0, size, cells', 0, size')
  {
    hide CmpStruct, FormedCell;
    WholeStruct(size, cells);
    WholeStruct(size', cells');
  }

  lemma WholeStruct(size: StructSize, cells: seq<Cell>)
    requires Formed(Obj(StructShape(size), cells))
    ensures StructIn(cells, 0, size) && FormedCells(StructShape(size), cells)
  {
    hide FormedCell;
    forall k | 0 <= k < |cells|
      ensures FormedCell(cells[k], size.data <= k)
    {
      assert FormedCell(cells[k], IsPtrSlot(StructShape(size), k));
    }
  }

  lemma NothingShared(cells: seq<Cell>, size: StructSize, cells': seq<Cell>, size': StructSize)
    requires StructIn(cells, 0, size) && StructIn(cells', 0, size')
    requires size.data == 0 && size'.data == 0 && size'.ptrs == 0
    ensures CmpStruct(cells, 0, size, cells', 0, size') == Equal
  {
    hide Formed, FormedCell;
    assert cells[0..0 + size.data] == cells'[0..0 + size'.data];
  }

  lemma OneShared(cells: seq<Cell>, cells': seq<Cell>, size: StructSize)
    requires StructIn(cells, 0, size) && StructIn(cells', 0, size) && size.data == 0 && size.ptrs == 1
    ensures FormedCell(cells[0], true) && FormedCell(cells'[0], true)
    ensures CmpStruct(cells, 0, size, cells', 0, size) == Cmp(cells[0].value, cells'[0].value)
  {
    assert FormedCell(cells[0], true) && FormedCell(cells'[0], true);
    hide Formed, Cmp;
    assert cells[0..0 + size.data] == cells'[0..0 + size.data];
    assert CmpRefs(cells, 0, cells', 0, size.ptrs)
        == Both(CmpRefs(cells, 0, cells', 0, size.ptrs - 1), CmpCell(cells[0], cells'[0]));
  }

  lemma EmptyEquals(v: Value)
    requires Formed(v)
    ensures Formed(Holding(v)) && Formed(NOTHING) && Cmp(Holding(v), NOTHING) == Equal
  {
    hide Formed, FormedCell, Cmp, CmpStruct, StructIn;
    HoldingFormed(v);
    StructsByParts(StructSize(0, 1), [Ref(v)], EMPTY, []);
    NothingShared([Ref(v)], StructSize(0, 1), [], EMPTY);
  }

  lemma HoldersCompare(v: Value, w: Value)
    requires Formed(v) && Formed(w)
    ensures Formed(Holding(v)) && Formed(Holding(w)) && Cmp(Holding(v), Holding(w)) == Cmp(v, w)
  {
    hide Formed, FormedCell, Cmp, CmpStruct, StructIn;
    HoldingFormed(v);
    HoldingFormed(w);
    StructsByParts(StructSize(0, 1), [Ref(v)], StructSize(0, 1), [Ref(w)]);
    OneShared([Ref(v)], [Ref(w)], StructSize(0, 1));
  }

  /** Of a partial byte the wrong end is compared: bits of the list are ignored and padding is not. */
  lemma PartialBytes()
    ensures var one := ListShape(Bit, 1);
            var off, on := Obj(one, [Data(Word(0, 0))]), Obj(one, [Data(Word(1, 0))]);
            var padded := Obj(one, [Data(Word(128, 0))]);
            && Formed(off) && Formed(on) && Formed(padded)
            && Cmp(off, on) == Equal && Cmp(off, padded) == NotEqual
  {
    assert FormedCell(Data(Word(0, 0)), false) && FormedCell(Data(Word(1, 0)), false);
    assert FormedCell(Data(Word(128, 0)), false);
  }

  /** The padding of a list of larger elements is not compared. */
  lemma PaddingIgnored()
    ensures var byte := ListShape(Byte, 1);
            var zero, padded := Obj(byte, [Data(Word(0, 0))]), Obj(byte, [Data(Word(256, 0))]);
            Formed(zero) && Formed(padded) && Cmp(zero, padded) == Equal && Uncapped(zero) != Uncapped(padded)
  {
    assert FormedCell(Data(Word(0, 0)), false) && FormedCell(Data(Word(256, 0)), false);
    var byte := ListShape(Byte, 1);
    assert Uncapped(Obj(byte, [Data(Word(0, 0))])).cells[0] == Data(Word(0, 0));
    assert Uncapped(Obj(byte, [Data(Word(256, 0))])).cells[0] == Data(Word(256, 0));
  }

  // ----- Where it is one

  /** Every capability is like any other to a comparison. */
  const ANY_CAP: CapTable := (i: u32) => CopiedAs(0)

  function Uncapped(v: Value): Value {
    Renamed(v, ANY_CAP)
  }

  /** Two trees hold the same, up to the indices of capabilities and what no list has as an element. */
  ghost predicate Alike(v: Value, w: Value)
    decreases v
  {
    match v
    case Null => w.Null?
    case Cap(_) => w.Cap?
    case Obj(shape, cells) =>
      && w.Obj? && w.shape == shape && |w.cells| == |cells|
      && if shape.ListShape? && shape.element != Pointer then
           SameList(shape.element, shape.count, cells, w.cells)
         else
           forall i :: 0 <= i < |cells| ==> AlikeCell(cells[i], w.cells[i])
  }

  ghost predicate AlikeCell(cell: Cell, cell': Cell)
    decreases cell
  {
    match cell
    case Data(_) => cell' == cell
    case Ref(value) => cell'.Ref? && Alike(value, cell'.value)
  }

  /** Cells `lo` to `hi`. */
  ghost predicate AlikeIn(cells: seq<Cell>, cells': seq<Cell>, lo: nat, hi: nat)
    requires hi <= |cells| == |cells'|
  {
    forall i :: lo <= i < hi ==> AlikeCell(cells[i], cells'[i])
  }

  /**
   Two pointers where the comparison overlooks nothing: no null pointer meets a struct without data, no
   structs of the same data size differ in their pointers, and no lists of structs in what they are lists
   of. Below, that is only asked of the pointers of equal shapes.
   */
  ghost predicate Decidable(v: Value, w: Value)
    decreases v
  {
    && (v.Null? && w.Obj? ==> !NoData(w.shape))
    && (v.Obj? && w.Null? ==> !NoData(v.shape))
    && (v.Obj? && w.Obj? ==>
          && Distinct(v.shape, w.shape)
          && (v.shape == w.shape && |v.cells| == |w.cells| ==>
                forall i :: 0 <= i < |v.cells| ==> DecidableCell(v.cells[i], w.cells[i])))
  }

  ghost predicate DecidableCell(cell: Cell, cell': Cell)
    decreases cell
  {
    cell.Ref? && cell'.Ref? ==> Decidable(cell.value, cell'.value)
  }

  predicate NoData(shape: Shape) {
    shape.StructShape? && shape.size.data == 0
  }

  /** Shapes the comparison tells apart, or equal ones. */
  predicate Distinct(shape: Shape, shape': Shape) {
    match shape
    case StructShape(size) => shape'.StructShape? && shape'.size.data == size.data ==> shape'.size == size
    case ListShape(_, _) => true
    case CompositeShape(size, count) =>
      shape'.CompositeShape? && shape'.count == count && (shape'.size.data == size.data || count == 0) ==>
        shape'.size == size
  }

  ghost predicate DecidableCells(cells: seq<Cell>, cells': seq<Cell>) {
    |cells| == |cells'| && forall i :: 0 <= i < |cells| ==> DecidableCell(cells[i], cells'[i])
  }

  /** `differ` says of two parts that they are not the same, and `r` is how they compare. */
  predicate Decides(r: PtrEquality, differ: bool, decidable: bool) {
    (r == NotEqual ==> differ) && (decidable && differ ==> r == NotEqual)
  }

  /**
   What is unequal is not alike, for all trees; and where the comparison overlooks nothing, what is not alike is
   unequal.
   */
  lemma {:induction false} UnequalIsDifferent(v: Value, w: Value)
    requires Formed(v) && Formed(w)
    ensures Cmp(v, w) == NotEqual ==> !Alike(v, w)
    ensures Decidable(v, w) ==> (Cmp(v, w) == NotEqual <==> !Alike(v, w))
    decreases v
  {
    hide CmpObjects, Words, IsPtrSlot, Distinct, SameList;
    if v.Obj? && w.Obj? {
      if v.shape == w.shape {
        UnequalObjects(v.shape, v.cells, w.cells);
      } else {
        OtherShapes(v.shape, v.cells, w.shape, w.cells);
      }
    }
  }

  /** What is equal up to the indices of capabilities is alike; without padding only that is. */
  lemma {:induction false} UncappedIsAlike(v: Value, w: Value)
    requires Formed(v) && Formed(w)
    ensures Uncapped(v) == Uncapped(w) ==> Alike(v, w)
    ensures Unpadded(v) && Alike(v, w) ==> Uncapped(v) == Uncapped(w)
    decreases v
  {
    hide Words, IsPtrSlot, NoPadding, SameList;
    if v.Obj? && w.Obj? && v.shape == w.shape {
      var a, b := Uncapped(v), Uncapped(w);
      assert a == b <==> a.cells == b.cells;
      if v.shape.ListShape? && v.shape.element != Pointer {
        ListsUncapped(v.shape.element, v.shape.count, v.cells, w.cells);
      } else {
        forall i | 0 <= i < |v.cells|
          ensures a.cells[i] == b.cells[i] ==> AlikeCell(v.cells[i], w.cells[i])
          ensures Unpadded(v) && AlikeCell(v.cells[i], w.cells[i]) ==> a.cells[i] == b.cells[i]
        {
          CellsUncapped(v.cells[i], w.cells[i], IsPtrSlot(v.shape, i));
        }
      }
    } else if v.Obj? && w.Obj? {
      assert Uncapped(v).shape == v.shape && Uncapped(w).shape == w.shape;
    }
  }

  lemma {:induction false} CellsUncapped(cell: Cell, cell': Cell, isPtr: bool)
    requires FormedCell(cell, isPtr) && FormedCell(cell', isPtr)
    ensures RenamedCell(cell, ANY_CAP) == RenamedCell(cell', ANY_CAP) ==> AlikeCell(cell, cell')
    ensures UnpaddedCell(cell) && AlikeCell(cell, cell') ==> RenamedCell(cell, ANY_CAP) == RenamedCell(cell', ANY_CAP)
    decreases cell
  {
    if cell.Ref? {
      UncappedIsAlike(cell.value, cell'.value);
    }
  }

  /** No list of the tree has padding. */
  ghost predicate Unpadded(v: Value)
    decreases v
  {
    v.Obj? ==> NoPadding(v.shape) && forall i :: 0 <= i < |v.cells| ==> UnpaddedCell(v.cells[i])
  }

  ghost predicate UnpaddedCell(cell: Cell)
    decreases cell
  {
    cell.Ref? ==> Unpadded(cell.value)
  }

  lemma ListsUncapped(element: PtrElementSize, count: u29, cells: seq<Cell>, cells': seq<Cell>)
    requires element != Pointer
    requires FormedCells(ListShape(element, count), cells) && FormedCells(ListShape(element, count), cells')
    ensures var a, b := Uncapped(Obj(ListShape(element, count), cells)),
                        Uncapped(Obj(ListShape(element, count), cells'));
            && (a == b ==> SameList(element, count, cells, cells'))
            && (NoPadding(ListShape(element, count)) && SameList(element, count, cells, cells') ==> a == b)
  {
    hide FormedCell, ByteAt, Masked, SameList;
    DataOf(ListShape(element, count), cells);
    DataOf(ListShape(element, count), cells');
    DataUncapped(ListShape(element, count), cells);
    DataUncapped(ListShape(element, count), cells');
    ListsDecide(element, count, cells, cells');
    SameBytes(cells, cells');
    if NoPadding(ListShape(element, count)) {
      WholeBytes(element, count);
    }
  }

  lemma DataUncapped(shape: Shape, cells: seq<Cell>)
    requires forall k :: 0 <= k < |cells| ==> cells[k].Data?
    ensures Uncapped(Obj(shape, cells)) == Obj(shape, cells)
  {
    var renamed := Uncapped(Obj(shape, cells)).cells;
    forall k | 0 <= k < |cells|
      ensures renamed[k] == cells[k]
    {
      assert renamed[k] == RenamedCell(cells[k], ANY_CAP);
    }
    assert renamed == cells;
  }

  /**
   Lists of one to eight-byte elements of one size and count are unequal exactly if some element differs, and
   lists of bits exactly if one of the bits does that are compared.
   */
  lemma ListsCompare(element: PtrElementSize, count: u29, cells: seq<Cell>, cells': seq<Cell>)
    requires IsCopied(element) || element == Bit
    requires Formed(Obj(ListShape(element, count), cells)) && Formed(Obj(ListShape(element, count), cells'))
    ensures |cells| == |cells'| == ListWords(element, count)
    ensures forall k :: 0 <= k < |cells| ==> cells[k].Data? && cells'[k].Data?
    ensures var r := Cmp(Obj(ListShape(element, count), cells), Obj(ListShape(element, count), cells'));
            if element == Bit then
              r == if exists k: nat :: Compared(count, k) && !SameBit(cells, cells', k) then NotEqual else Equal
            else
              && count <= |cells| * (8 / Width(element))
              && r == if exists i :: 0 <= i < count && ElementAt(WordsIn(cells), element, i)
                                                       != ElementAt(WordsIn(cells'), element, i)
                      then NotEqual else Equal
  {
    hide FormedCell, ByteAt, Masked, ElementAt, SameBit, Compared, ListWords;
    var shape := ListShape(element, count);
    FormedParts(Obj(shape, cells));
    FormedParts(Obj(shape, cells'));
    DataOf(shape, cells);
    DataOf(shape, cells');
    if element == Bit {
      BitsDecide(count, cells, cells');
    } else {
      ElementsThere(WordsIn(cells), element, count);
      ElementsDecide(element, count, cells, cells');
    }
    hide SameData;
  }

  /** Objects of different shapes that the comparison tells apart. */
  lemma OtherShapes(shape: Shape, cells: seq<Cell>, shape': Shape, cells': seq<Cell>)
    requires FormedCells(shape, cells) && FormedCells(shape', cells') && shape != shape'
    ensures Distinct(shape, shape') ==> CmpObjects(shape, cells, shape', cells') == NotEqual
  {
    hide FormedCell, IsPtrOfStructs, Times, ListWords, SameData, CmpRefs, CmpElements, CmpStruct;
    if Distinct(shape, shape') {
      if shape.StructShape? && shape'.StructShape? {
        WholeStruct(shape.size, cells);
        WholeStruct(shape'.size, cells');
        OtherData(cells, 0, shape.size, cells', 0, shape'.size);
      } else if shape.CompositeShape? && shape'.CompositeShape? && shape.count == shape'.count {
        ElementsFormed(shape, cells, shape.count);
        ElementsFormed(shape', cells', shape.count);
        OtherElements(cells, shape.size, cells', shape'.size, shape.count);
      }
    }
  }

  lemma OtherData(cells: seq<Cell>, base: nat, size: StructSize, cells': seq<Cell>, base': nat, size': StructSize)
    requires StructIn(cells, base, size) && StructIn(cells', base', size') && size.data != size'.data
    ensures CmpStruct(cells, base, size, cells', base', size') == NotEqual
  {
    hide FormedCell;
    assert |cells[base..base + size.data]| != |cells'[base'..base' + size'.data]|;
  }

  lemma OtherElements(cells: seq<Cell>, size: StructSize, cells': seq<Cell>, size': StructSize, n: nat)
    requires forall e :: 0 <= e < n ==> StructIn(cells, Times(e, size), size)
    requires forall e :: 0 <= e < n ==> StructIn(cells', Times(e, size'), size')
    requires n > 0 && size.data != size'.data
    ensures CmpElements(cells, size, cells', size', n) == NotEqual
  {
    hide CmpStruct, StructIn;
    OtherData(cells, Times(n - 1, size), size, cells', Times(n - 1, size'), size');
  }

  lemma {:induction false} UnequalObjects(shape: Shape, cells: seq<Cell>, cells': seq<Cell>)
    requires FormedCells(shape, cells) && FormedCells(shape, cells')
    ensures Decides(CmpObjects(shape, cells, shape, cells'), !Alike(Obj(shape, cells), Obj(shape, cells')),
                    Distinct(shape, shape) && DecidableCells(cells, cells'))
    decreases cells, 4, 0
  {
    hide CmpStruct, CmpRefs, CmpElements, FormedCell, IsPtrOfStructs, Times, ListWords,
         SameData, SameList, AlikeCell, DecidableCells;
    match shape
    case StructShape(size) =>
      WholeStruct(size, cells);
      WholeStruct(size, cells');
      UnequalStructs(cells, cells', 0, size);
    case ListShape(element, count) =>
      if element == Pointer {
        PointersOf(shape, cells);
        PointersOf(shape, cells');
        UnequalRefs(cells, cells', 0, count);
      } else {
        DataOf(shape, cells);
        DataOf(shape, cells');
        ListsDecide(element, count, cells, cells');
      }
    case CompositeShape(size, count) =>
      ElementsFormed(shape, cells, count);
      ElementsFormed(shape, cells', count);
      UnequalElements(cells, cells', size, count);
  }

  lemma {:induction false} UnequalElements(cells: seq<Cell>, cells': seq<Cell>, size: StructSize, n: nat)
    requires forall e :: 0 <= e < n ==> StructIn(cells, Times(e, size), size)
    requires forall e :: 0 <= e < n ==> StructIn(cells', Times(e, size), size)
    requires Times(n, size) <= |cells| == |cells'|
    ensures Decides(CmpElements(cells, size, cells', size, n), !AlikeIn(cells, cells', 0, Times(n, size)),
                    DecidableCells(cells, cells'))
    decreases cells, 3, n
  {
    hide CmpStruct, StructIn, DecidableCells, AlikeCell;
    if n > 0 {
      UnequalElements(cells, cells', size, n - 1);
      UnequalStructs(cells, cells', Times(n - 1, size), size);
    }
  }

  lemma {:induction false} UnequalStructs(cells: seq<Cell>, cells': seq<Cell>, base: nat, size: StructSize)
    requires StructIn(cells, base, size) && StructIn(cells', base, size) && |cells| == |cells'|
    ensures Decides(CmpStruct(cells, base, size, cells', base, size),
                    !AlikeIn(cells, cells', base, base + size.Total()), DecidableCells(cells, cells'))
    decreases cells, 2, 0
  {
    hide CmpRefs, DecidableCells, Formed, AlikeCell;
    UnequalRefs(cells, cells', base + size.data, size.ptrs);
    SameOfData(cells, cells', base, size.data);
  }

  lemma SameOfData(cells: seq<Cell>, cells': seq<Cell>, lo: nat, n: nat)
    requires Datas(cells, lo, n) && Datas(cells', lo, n) && |cells| == |cells'|
    ensures AlikeIn(cells, cells', lo, lo + n) <==> cells[lo..lo + n] == cells'[lo..lo + n]
  {
    hide Formed;
    forall k | lo <= k < lo + n
      ensures AlikeCell(cells[k], cells'[k]) <==> cells[k] == cells'[k]
    {
      assert FormedCell(cells[k], false) && FormedCell(cells'[k], false);
    }
    var a, b := cells[lo..lo + n], cells'[lo..lo + n];
    if a == b {
      forall k | lo <= k < lo + n
        ensures cells[k] == cells'[k]
      {
        assert a[k - lo] == b[k - lo];
      }
    }
  }

  lemma {:induction false} UnequalRefs(cells: seq<Cell>, cells': seq<Cell>, i: nat, n: nat)
    requires Refs(cells, i, n) && Refs(cells', i, n) && |cells| == |cells'|
    ensures Decides(CmpRefs(cells, i, cells', i, n), !AlikeIn(cells, cells', i, i + n), DecidableCells(cells, cells'))
    decreases cells, 1, n
  {
    hide CmpCell, FormedCell, AlikeCell, DecidableCell;
    if n > 0 {
      UnequalRefs(cells, cells', i, n - 1);
      UnequalCells(cells[i + n - 1], cells'[i + n - 1]);
    }
  }

  lemma {:induction false} UnequalCells(cell: Cell, cell': Cell)
    requires FormedCell(cell, true) && FormedCell(cell', true)
    ensures Decides(CmpCell(cell, cell'), !AlikeCell(cell, cell'), DecidableCell(cell, cell'))
    decreases cell
  {
    hide Cmp;
    UnequalIsDifferent(cell.value, cell'.value);
  }
}
