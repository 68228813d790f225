/**
 The canonical form of a tree of structs, pointer lists and lists of plain elements: no data section ends
 in a zero word and no pointer section in a null pointer.
 */
module Canonical {
  import opened Wire
  import opened Reader
  import opened Values
  import opened Layout
  import opened Putting

  /** Trees without capabilities and composite lists. */
  ghost predicate Simple(v: Value)
    decreases v
  {
    && !v.Cap?
    && (v.Obj? ==>
          && !v.shape.CompositeShape? && Proper(v.shape)
          && |v.cells| == Words(v.shape)
          && forall i :: 0 <= i < |v.cells| ==> SimpleCell(v.cells[i], IsPtrSlot(v.shape, i)))
  }

  ghost predicate SimpleCell(cell: Cell, isPtr: bool)
    decreases cell
  {
    cell.Ref? == isPtr && (cell.Ref? ==> Simple(cell.value))
  }

  /** Word `i` of the data of a struct; what is not there is zero. */
  function DataAt(size: StructSize, cells: seq<Cell>, i: nat): Word {
    if i < size.data && i < |cells| && cells[i].Data? then cells[i].word else NULL
  }

  /** Pointer `i` of a struct; what is not there is null. */
  function PtrAt(size: StructSize, cells: seq<Cell>, i: nat): Value {
    if i < size.ptrs && size.data + i < |cells| && cells[size.data + i].Ref? then cells[size.data + i].value else Null
  }

  predicate Blank(cell: Cell) {
    cell == Data(NULL) || cell == Ref(Null)
  }

  /** `trim_end_null_words`: the length of the section from `lo` to `hi` without what is blank at its end. */
  function TrimmedLen(cells: seq<Cell>, lo: nat, hi: nat): (n: nat)
    requires lo <= hi <= |cells|
    ensures n <= hi - lo
    ensures n > 0 ==> !Blank(cells[lo + n - 1])
    ensures forall i :: lo + n <= i < hi ==> Blank(cells[i])
  {
    if hi > lo && Blank(cells[hi - 1]) then TrimmedLen(cells, lo, hi - 1) else hi - lo
  }

  function CanonSize(size: StructSize, cells: seq<Cell>): StructSize
    requires |cells| == size.Total()
  {
    StructSize(TrimmedLen(cells, 0, size.data), TrimmedLen(cells, size.data, size.Total()))
  }

  function Canon(v: Value): Value
    decreases v
  {
    if !v.Obj? then
      v
    else if v.shape.StructShape? && |v.cells| == v.shape.size.Total() then
      Obj(StructShape(CanonSize(v.shape.size, v.cells)), CanonStructCells(v.shape.size, v.cells))
    else
      Obj(v.shape, seq(|v.cells|, i requires 0 <= i < |v.cells| => CanonCell(v.cells[i])))
  }

  function CanonStructCells(size: StructSize, cells: seq<Cell>): (r: seq<Cell>)
    requires |cells| == size.Total()
    ensures |r| == CanonSize(size, cells).Total()
    decreases cells
  {
    var trimmed := CanonSize(size, cells);
    seq(trimmed.Total(), i requires 0 <= i < trimmed.Total() =>
      CanonCell(if i < trimmed.data then cells[i] else cells[size.data + i - trimmed.data]))
  }

  function CanonCell(cell: Cell): Cell
    decreases cell
  {
    match cell
    case Data(_) => cell
    case Ref(value) => Ref(Canon(value))
  }

  /** The same meaning up to zero words and null pointers at the ends of structs. */
  ghost predicate SameMeaning(v: Value, w: Value)
    decreases v
  {
    if !v.Obj? || !w.Obj? then
      v == w
    else if v.shape.StructShape? && w.shape.StructShape? then
      var size, size' := v.shape.size, w.shape.size;
      && (forall i: nat :: DataAt(size, v.cells, i) == DataAt(size', w.cells, i))
      && (forall i: nat :: i < size.ptrs && size.data + i < |v.cells| ==>
            SameCell(v.cells[size.data + i], PtrAt(size', w.cells, i)))
      && (forall i: nat :: i >= size.ptrs ==> PtrAt(size', w.cells, i) == Null)
    else
      && v.shape == w.shape && |v.cells| == |w.cells|
      && forall i :: 0 <= i < |v.cells| ==>
           if v.cells[i].Ref? && w.cells[i].Ref? then SameCell(v.cells[i], w.cells[i].value)
           else v.cells[i] == w.cells[i]
  }

  ghost predicate SameCell(cell: Cell, w: Value)
    decreases cell
  {
    cell.Ref? ==> SameMeaning(cell.value, w)
  }

  // ----- The canonical form of one struct

  /** Nothing at the end of either section is blank. */
  predicate IsTrimmed(size: StructSize, cells: seq<Cell>) {
    && (size.data > 0 ==> DataAt(size, cells, size.data - 1) != NULL)
    && (size.ptrs > 0 ==> PtrAt(size, cells, size.ptrs - 1) != Null)
  }

  ghost predicate StructCells(size: StructSize, cells: seq<Cell>) {
    && |cells| == size.Total()
    && forall i :: 0 <= i < |cells| ==> SimpleCell(cells[i], size.data <= i)
  }

  /** A struct of a simple tree. */
  ghost predicate SimpleStruct(v: Value) {
    v.Obj? && v.shape.StructShape? && Simple(v)
  }

  lemma SimpleStructCells(v: Value)
    requires SimpleStruct(v)
    ensures StructCells(v.shape.size, v.cells)
  {
    hide SimpleCell;
    forall i | 0 <= i < |v.cells|
      ensures SimpleCell(v.cells[i], v.shape.size.data <= i)
    {
      assert SimpleCell(v.cells[i], IsPtrSlot(v.shape, i));
    }
  }

  /** Cell `i` of the canonical form. */
  lemma CanonCellAt(v: Value, i: nat)
    requires SimpleStruct(v)
    requires i < CanonSize(v.shape.size, v.cells).Total()
    ensures var size, trimmed := v.shape.size, CanonSize(v.shape.size, v.cells);
            && Canon(v).Obj? && Canon(v).shape == StructShape(trimmed) && |Canon(v).cells| == trimmed.Total()
            && Canon(v).cells[i]
               == CanonCell(if i < trimmed.data then v.cells[i] else v.cells[size.data + i - trimmed.data])
  {
    hide TrimmedLen, SimpleCell, CanonSize, CanonCell;
  }

  lemma CanonShape(v: Value)
    requires SimpleStruct(v)
    ensures Canon(v).Obj? && Canon(v).shape == StructShape(CanonSize(v.shape.size, v.cells))
    ensures |Canon(v).cells| == CanonSize(v.shape.size, v.cells).Total()
  {
    hide TrimmedLen, SimpleCell, CanonSize, CanonStructCells;
  }

  /** The canonical form keeps the data and the pointers, each in its canonical form. */
  lemma CanonKeeps(v: Value, i: nat)
    requires SimpleStruct(v)
    ensures Canon(v).Obj? && Canon(v).shape.StructShape?
    ensures DataAt(Canon(v).shape.size, Canon(v).cells, i) == DataAt(v.shape.size, v.cells, i)
    ensures PtrAt(Canon(v).shape.size, Canon(v).cells, i) == Canon(PtrAt(v.shape.size, v.cells, i))
  {
    hide Canon, Simple, SimpleCell;
    SimpleStructCells(v);
    CanonShape(v);
    var size, trimmed := v.shape.size, CanonSize(v.shape.size, v.cells);
    if i < trimmed.data {
      CanonCellAt(v, i);
      DataCell(v.cells[i]);
      assert SimpleCell(v.cells[i], false);
      SimpleCellKind(v.cells[i], false);
    } else if i < size.data {
      assert Blank(v.cells[i]);
    }
    if i < trimmed.ptrs {
      CanonCellAt(v, trimmed.data + i);
      assert SimpleCell(v.cells[size.data + i], true);
      SimpleCellKind(v.cells[size.data + i], true);
      RefCell(v.cells[size.data + i]);
    } else if i < size.ptrs {
      assert Blank(v.cells[size.data + i]);
    }
    CanonNull(Null);
  }

  lemma SimpleCellKind(cell: Cell, isPtr: bool)
    requires SimpleCell(cell, isPtr)
    ensures cell.Ref? == isPtr
  {
  }

  lemma DataCell(cell: Cell)
    ensures cell.Data? ==> CanonCell(cell) == cell
  {
  }

  lemma RefCell(cell: Cell)
    ensures cell.Ref? ==> CanonCell(cell) == Ref(Canon(cell.value))
  {
  }

  lemma CanonNull(v: Value)
    ensures Canon(v) == Null <==> v == Null
  {
  }

  lemma CanonTrimmed(v: Value)
    requires SimpleStruct(v)
    ensures Canon(v).Obj? && Canon(v).shape.StructShape? && IsTrimmed(Canon(v).shape.size, Canon(v).cells)
  {
    hide Canon, Simple, SimpleCell, DataAt, PtrAt, TrimmedLen;
    CanonShape(v);
    SimpleStructCells(v);
    DataTrimmed(v);
    PtrsTrimmed(v);
  }

  lemma DataTrimmed(v: Value)
    requires SimpleStruct(v) && |v.cells| == v.shape.size.Total()
    ensures var n := TrimmedLen(v.cells, 0, v.shape.size.data);
            n > 0 ==> Canon(v).Obj? && Canon(v).shape.StructShape?
                      && DataAt(Canon(v).shape.size, Canon(v).cells, n - 1) != NULL
  {
    hide Canon, SimpleCell;
    SimpleStructCells(v);
    var n := TrimmedLen(v.cells, 0, v.shape.size.data);
    if n > 0 {
      CanonKeeps(v, n - 1);
      SimpleCellKind(v.cells[n - 1], false);
    }
  }

  lemma PtrsTrimmed(v: Value)
    requires SimpleStruct(v) && |v.cells| == v.shape.size.Total()
    ensures var size := v.shape.size;
            var n := TrimmedLen(v.cells, size.data, size.Total());
            n > 0 ==> Canon(v).Obj? && Canon(v).shape.StructShape?
                      && PtrAt(Canon(v).shape.size, Canon(v).cells, n - 1) != Null
  {
    hide Canon, SimpleCell;
    SimpleStructCells(v);
    var size := v.shape.size;
    var n := TrimmedLen(v.cells, size.data, size.Total());
    if n > 0 {
      CanonKeeps(v, n - 1);
      var j := size.data + n - 1;
      SimpleCellKind(v.cells[j], true);
      CanonNull(v.cells[j].value);
    }
  }

  lemma TrimmedSize(size: StructSize, cells: seq<Cell>, size': StructSize, cells': seq<Cell>)
    requires IsTrimmed(size, cells) && IsTrimmed(size', cells')
    requires forall i: nat :: DataAt(size, cells, i) == DataAt(size', cells', i)
    requires forall i: nat :: PtrAt(size, cells, i) == PtrAt(size', cells', i)
    ensures size == size'
  {
    if size.data > 0 { assert DataAt(size', cells', size.data - 1) != NULL; }
    if size'.data > 0 { assert DataAt(size, cells, size'.data - 1) != NULL; }
    if size.ptrs > 0 { assert PtrAt(size', cells', size.ptrs - 1) != Null; }
    if size'.ptrs > 0 { assert PtrAt(size, cells, size'.ptrs - 1) != Null; }
  }

  /** A trimmed struct is determined by its data and pointers. */
  lemma TrimmedIsUnique(size: StructSize, cells: seq<Cell>, size': StructSize, cells': seq<Cell>)
    requires StructCells(size, cells) && StructCells(size', cells')
    requires IsTrimmed(size, cells) && IsTrimmed(size', cells')
    requires forall i: nat :: DataAt(size, cells, i) == DataAt(size', cells', i)
    requires forall i: nat :: PtrAt(size, cells, i) == PtrAt(size', cells', i)
    ensures size == size' && cells == cells'
  {
    hide IsTrimmed, SimpleCell, DataAt, PtrAt;
    TrimmedSize(size, cells, size', cells');
    forall i | 0 <= i < |cells|
      ensures cells[i] == cells'[i]
    {
      CellByAccess(size, cells, i);
      CellByAccess(size, cells', i);
    }
  }

  lemma CellByAccess(size: StructSize, cells: seq<Cell>, i: nat)
    requires StructCells(size, cells) && i < |cells|
    ensures cells[i] == if i < size.data then Data(DataAt(size, cells, i)) else Ref(PtrAt(size, cells, i - size.data))
  {
    hide SimpleCell;
    SimpleCellKind(cells[i], size.data <= i);
  }

  // ----- The canonical form of trees

  lemma {:induction false} CanonSimple(v: Value)
    requires Simple(v)
    ensures Simple(Canon(v))
    decreases v
  {
    hide Words, IsPtrSlot, TrimmedLen;
    if v.Obj? {
      if v.shape.StructShape? {
        CanonStructSimple(v);
      } else {
        forall i | 0 <= i < |v.cells|
          ensures SimpleCell(Canon(v).cells[i], IsPtrSlot(v.shape, i))
        {
          assert SimpleCell(v.cells[i], IsPtrSlot(v.shape, i));
          CanonCellSimple(v.cells[i], IsPtrSlot(v.shape, i));
        }
      }
    }
  }

  lemma {:induction false} CanonCellSimple(cell: Cell, isPtr: bool)
    requires SimpleCell(cell, isPtr)
    ensures SimpleCell(CanonCell(cell), isPtr)
    decreases cell
  {
    if cell.Ref? {
      CanonSimple(cell.value);
    }
  }

  lemma {:induction false} CanonStructSimple(v: Value)
    requires SimpleStruct(v)
    ensures Simple(Canon(v))
    decreases v, 0
  {
    hide TrimmedLen, SimpleCell, Canon;
    CanonShape(v);
    SimpleStructCells(v);
    var size, trimmed := v.shape.size, CanonSize(v.shape.size, v.cells);
    forall i | 0 <= i < trimmed.Total()
      ensures SimpleCell(Canon(v).cells[i], IsPtrSlot(Canon(v).shape, i))
    {
      CanonCellAt(v, i);
      var j := if i < trimmed.data then i else size.data + i - trimmed.data;
      assert SimpleCell(v.cells[j], size.data <= j);
      CanonCellSimple(v.cells[j], size.data <= j);
    }
  }

  /** Two structs with the same data and pointers that are canonically equal. */
  ghost predicate CanonAlike(v: Value, w: Value)
    requires v.Obj? && w.Obj? && v.shape.StructShape? && w.shape.StructShape?
  {
    && (forall i: nat :: DataAt(v.shape.size, v.cells, i) == DataAt(w.shape.size, w.cells, i))
    && (forall i: nat :: Canon(PtrAt(v.shape.size, v.cells, i)) == Canon(PtrAt(w.shape.size, w.cells, i)))
  }

  lemma StructCanonIff(v: Value, w: Value)
    requires SimpleStruct(v) && SimpleStruct(w)
    ensures CanonAlike(v, w) <==> Canon(v) == Canon(w)
  {
    hide Canon, SimpleStruct, DataAt, PtrAt;
    CanonKept(v);
    CanonKept(w);
    if CanonAlike(v, w) {
      CanonTrimmed(v);
      CanonTrimmed(w);
      CanonStructSimple(v);
      CanonStructSimple(w);
      CanonStructCellsSimple(v);
      CanonStructCellsSimple(w);
      hide IsTrimmed, StructCells;
      TrimmedIsUnique(Canon(v).shape.size, Canon(v).cells, Canon(w).shape.size, Canon(w).cells);
    }
  }

  lemma CanonKept(v: Value)
    requires SimpleStruct(v)
    ensures v.Obj? && v.shape.StructShape? && Canon(v).Obj? && Canon(v).shape.StructShape?
    ensures forall i: nat :: DataAt(Canon(v).shape.size, Canon(v).cells, i) == DataAt(v.shape.size, v.cells, i)
    ensures forall i: nat :: PtrAt(Canon(v).shape.size, Canon(v).cells, i) == Canon(PtrAt(v.shape.size, v.cells, i))
  {
    hide Canon, DataAt, PtrAt, Simple;
    CanonShape(v);
    forall i: nat
      ensures DataAt(Canon(v).shape.size, Canon(v).cells, i) == DataAt(v.shape.size, v.cells, i)
      ensures PtrAt(Canon(v).shape.size, Canon(v).cells, i) == Canon(PtrAt(v.shape.size, v.cells, i))
    {
      CanonKeeps(v, i);
    }
  }

  lemma CanonStructCellsSimple(v: Value)
    requires SimpleStruct(v) && Simple(Canon(v)) && Canon(v).Obj? && Canon(v).shape.StructShape?
    ensures StructCells(Canon(v).shape.size, Canon(v).cells)
  {
    hide Canon, Simple;
    SimpleStructCells(Canon(v));
  }

  /** The canonical form is the same exactly for trees with the same meaning. */
  lemma {:induction false} CanonDecides(v: Value, w: Value)
    requires Simple(v) && Simple(w)
    ensures SameMeaning(v, w) <==> Canon(v) == Canon(w)
    decreases v, 1
  {
    hide Words, IsPtrSlot, TrimmedLen, CanonStructCells, DataAt, PtrAt, SimpleCell;
    if v.Obj? && w.Obj? {
      if v.shape.StructShape? && w.shape.StructShape? {
        StructCanonIff(v, w);
        StructSameIff(v, w);
      } else if v.shape == w.shape {
        ListSameIff(v, w);
      } else {
        CanonKind(v);
        CanonKind(w);
      }
    } else {
      CanonNull(v);
      CanonNull(w);
    }
  }

  lemma CanonKind(v: Value)
    requires v.Obj?
    ensures Canon(v).Obj? && (Canon(v).shape.StructShape? <==> v.shape.StructShape?)
    ensures !v.shape.StructShape? ==> Canon(v).shape == v.shape && |Canon(v).cells| == |v.cells|
    ensures !v.shape.StructShape? ==> forall i :: 0 <= i < |v.cells| ==> Canon(v).cells[i] == CanonCell(v.cells[i])
  {
  }

  lemma {:induction false} StructSameIff(v: Value, w: Value)
    requires SimpleStruct(v) && SimpleStruct(w)
    ensures SameMeaning(v, w) <==> CanonAlike(v, w)
    decreases v, 0
  {
    hide Canon, DataAt, SimpleCell;
    SimpleStructCells(v);
    SimpleStructCells(w);
    hide Simple;
    var size, size' := v.shape.size, w.shape.size;
    forall i: nat
      ensures i < size.ptrs ==>
                (SameCell(v.cells[size.data + i], PtrAt(size', w.cells, i))
                 <==> Canon(PtrAt(size, v.cells, i)) == Canon(PtrAt(size', w.cells, i)))
      ensures i >= size.ptrs ==>
                (PtrAt(size', w.cells, i) == Null
                 <==> Canon(PtrAt(size, v.cells, i)) == Canon(PtrAt(size', w.cells, i)))
    {
      CanonNull(Null);
      CanonNull(PtrAt(size', w.cells, i));
      if i < size.ptrs {
        SimplePtr(v, i);
        SimplePtr(w, i);
        CellCanonDecides(v.cells[size.data + i], PtrAt(size', w.cells, i));
      }
    }
  }

  lemma SimplePtr(v: Value, i: nat)
    requires SimpleStruct(v)
    ensures Simple(PtrAt(v.shape.size, v.cells, i))
    ensures i < v.shape.size.ptrs ==>
              v.shape.size.data + i < |v.cells| && SimpleCell(v.cells[v.shape.size.data + i], true)
              && v.cells[v.shape.size.data + i] == Ref(PtrAt(v.shape.size, v.cells, i))
  {
    hide Simple;
    SimpleStructCells(v);
    var size := v.shape.size;
    if i < size.ptrs {
      assert SimpleCell(v.cells[size.data + i], true);
    }
    NullIsSimple();
  }

  lemma NullIsSimple()
    ensures Simple(Null)
  {
  }

  lemma {:induction false} CellCanonDecides(cell: Cell, w: Value)
    requires SimpleCell(cell, true) && Simple(w)
    ensures SameCell(cell, w) <==> Canon(cell.value) == Canon(w)
    decreases cell
  {
    hide Canon, Simple;
    CanonDecides(cell.value, w);
  }

  lemma {:induction false} ListSameIff(v: Value, w: Value)
    requires v.Obj? && w.Obj? && Simple(v) && Simple(w) && v.shape == w.shape && !v.shape.StructShape?
    ensures SameMeaning(v, w) <==> Canon(v) == Canon(w)
    decreases v, 0
  {
    hide Words, IsPtrSlot;
    CanonKind(v);
    CanonKind(w);
    hide Canon;
    forall i | 0 <= i < |v.cells|
      ensures v.cells[i].Ref? == w.cells[i].Ref?
      ensures (if v.cells[i].Ref? && w.cells[i].Ref? then SameCell(v.cells[i], w.cells[i].value)
               else v.cells[i] == w.cells[i])
         <==> CanonCell(v.cells[i]) == CanonCell(w.cells[i])
    {
      assert SimpleCell(v.cells[i], IsPtrSlot(v.shape, i)) && SimpleCell(w.cells[i], IsPtrSlot(v.shape, i));
      if v.cells[i].Ref? {
        CellCanonDecides(v.cells[i], w.cells[i].value);
      }
    }
    assert Canon(v) == Canon(w) <==> Canon(v).cells == Canon(w).cells;
  }

  /** A canonical form is its own canonical form. */
  lemma {:induction false} CanonIdempotent(v: Value)
    requires Simple(v)
    ensures Canon(Canon(v)) == Canon(v)
    decreases v, 1
  {
    hide Words, IsPtrSlot, TrimmedLen, CanonStructCells, SimpleCell;
    if v.Obj? {
      if v.shape.StructShape? {
        StructIdempotent(v);
      } else {
        CanonKind(v);
        CanonKind(Canon(v));
        hide Canon;
        forall i | 0 <= i < |v.cells|
          ensures CanonCell(CanonCell(v.cells[i])) == CanonCell(v.cells[i])
        {
          assert SimpleCell(v.cells[i], IsPtrSlot(v.shape, i));
          CellIdempotent(v.cells[i], IsPtrSlot(v.shape, i));
        }
        assert Canon(Canon(v)).cells == Canon(v).cells;
      }
    }
  }

  lemma {:induction false} CellIdempotent(cell: Cell, isPtr: bool)
    requires SimpleCell(cell, isPtr)
    ensures CanonCell(CanonCell(cell)) == CanonCell(cell)
    decreases cell
  {
    if cell.Ref? {
      CanonIdempotent(cell.value);
    }
  }

  lemma {:induction false} StructIdempotent(v: Value)
    requires SimpleStruct(v)
    ensures Canon(Canon(v)) == Canon(v)
    decreases v, 0
  {
    hide Canon, DataAt, PtrAt, SimpleCell, IsTrimmed, StructCells;
    CanonKept(v);
    CanonStructSimple(v);
    var c := Canon(v);
    CanonKept(c);
    CanonStructSimple(c);
    CanonTrimmed(v);
    CanonTrimmed(c);
    CanonStructCellsSimple(v);
    CanonStructCellsSimple(c);
    forall i: nat
      ensures PtrAt(Canon(c).shape.size, Canon(c).cells, i) == PtrAt(c.shape.size, c.cells, i)
    {
      SimplePtr(v, i);
      CanonNull(Null);
      if i < v.shape.size.ptrs {
        CellIdempotent(v.cells[v.shape.size.data + i], true);
        RefCell(v.cells[v.shape.size.data + i]);
        RefCell(CanonCell(v.cells[v.shape.size.data + i]));
      } else {
        BeyondPtrs(v, i);
      }
    }
    TrimmedIsUnique(Canon(c).shape.size, Canon(c).cells, c.shape.size, c.cells);
  }

  lemma BeyondPtrs(v: Value, i: nat)
    requires v.Obj? && v.shape.StructShape? && i >= v.shape.size.ptrs
    ensures PtrAt(v.shape.size, v.cells, i) == Null
  {
  }

  /** A simple tree is complete, and every object of it can be read back. */
  lemma {:induction false} SimpleIsWhole(v: Value)
    requires Simple(v)
    ensures Whole(v)
    decreases v
  {
    hide Words, IsPtrSlot;
    if v.Obj? {
      forall i | 0 <= i < |v.cells|
        ensures WholeCell(v.cells[i], IsPtrSlot(v.shape, i))
      {
        assert SimpleCell(v.cells[i], IsPtrSlot(v.shape, i));
        if v.cells[i].Ref? {
          SimpleIsWhole(v.cells[i].value);
        }
      }
    }
  }
}
