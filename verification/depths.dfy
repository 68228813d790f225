/**
 When a size can be told: exactly if the tree is no deeper than the nesting limit.
 */
module Depths {
  import opened Wire
  import opened Reader
  import opened Values
  import opened Putting
  import opened Promotion
  import opened Sizing

  /** The objects that can hold pointers on the longest way down. */
  function Depth(v: Value): nat
    decreases v
  {
    if !v.Obj? || (v.shape.ListShape? && v.shape.element != Pointer) then 0 else 1 + DepthOfCells(v.cells)
  }

  function DepthOfCells(cells: seq<Cell>): nat
    decreases cells
  {
    if |cells| == 0 then 0
    else
      var before, last := DepthOfCells(cells[..|cells| - 1]), DepthOfCell(cells[|cells| - 1]);
      if before > last then before else last
  }

  function DepthOfCell(cell: Cell): nat
    decreases cell
  {
    if cell.Ref? then Depth(cell.value) else 0
  }

  predicate Shallow(cells: seq<Cell>, lo: nat, hi: nat, nest: nat)
    requires hi <= |cells|
  {
    forall i :: lo <= i < hi ==> DepthOfCell(cells[i]) <= nest
  }

  lemma {:induction false} DepthIsMost(cells: seq<Cell>, nest: nat)
    ensures DepthOfCells(cells) <= nest <==> Shallow(cells, 0, |cells|, nest)
    decreases |cells|
  {
    hide DepthOfCell;
    if |cells| > 0 {
      var last := |cells| - 1;
      DepthIsMost(cells[..last], nest);
      if Shallow(cells[..last], 0, last, nest) {
        forall i | 0 <= i < last
          ensures DepthOfCell(cells[i]) <= nest
        {
          assert cells[..last][i] == cells[i];
        }
      }
    }
  }

  /** A pointer with a meaning can be sized exactly if the meaning is no deeper than the limit. */
  lemma {:induction false} SizedExactly(mem: Mem, at: Addr, v: Value, nest: nat)
    requires Means(mem, at, v) && !At(mem, at).IsNull()
    ensures TargetSize(mem, at, Unlimited, nest).result.Ok? <==> Depth(v) <= nest
    decreases nest, 1, 0
  {
    hide TryReadTyped, Words, IsPtrSlot, ObjectSize, ValidShape, Pads, Tags, DepthOfCells;
    NonNullMeaning(mem, at, v, iset{});
    ReaderSound(mem, at, Unlimited);
    if v.Obj? {
      ObjectExactly(mem, v.shape, Resolve(mem, at).value.start, v.cells, nest);
    }
  }

  lemma {:induction false} ObjectExactly(mem: Mem, shape: Shape, start: Addr, cells: seq<Cell>, nest: nat)
    requires HasBody(mem, start, Words(shape)) && |cells| == Words(shape)
    requires forall i :: 0 <= i < |cells| ==> CellAt(mem, Slot(start, i), cells[i], IsPtrSlot(shape, i), iset{})
    ensures ObjectSize(mem, shape, start, Unlimited, nest).result.Ok? <==> Depth(Obj(shape, cells)) <= nest
    decreases nest, 0, 0
  {
    hide PtrsSize, CompositesSize, DepthOfCells, CellAt, Times, ListWords, IsPtrOfStructs, DepthOfCell;
    if nest > 0 {
      DepthIsMost(cells, nest - 1);
      match shape {
        case StructShape(size) =>
          FieldsShallow(mem, start, cells, size, nest - 1);
          PtrsExactly(mem, start, cells, size.data, size.ptrs, nest - 1);
        case ListShape(element, count) =>
          if element == Pointer {
            PointerWords(count);
            PtrsExactly(mem, start, cells, 0, count, nest - 1);
            assert Slot(start, 0) == start;
          }
        case CompositeShape(size, count) => CompositesExactly(mem, start, cells, size, count, nest - 1);
      }
    }
  }

  /** Data is not deep. */
  lemma FieldsShallow(mem: Mem, start: Addr, cells: seq<Cell>, size: StructSize, nest: nat)
    requires |cells| == size.Total()
    requires forall i :: 0 <= i < |cells| ==> CellAt(mem, Slot(start, i), cells[i], size.data <= i, iset{})
    ensures Shallow(cells, 0, |cells|, nest) <==> Shallow(cells, size.data, |cells|, nest)
  {
    hide Denotes;
    forall i | 0 <= i < size.data
      ensures DepthOfCell(cells[i]) == 0
    {
      assert CellAt(mem, Slot(start, i), cells[i], size.data <= i, iset{});
    }
    hide DepthOfCell;
  }

  lemma {:induction false} PtrsExactly(mem: Mem, start: Addr, cells: seq<Cell>, base: nat, n: nat, nest: nat)
    requires HasBody(mem, Slot(start, base), n) && base + n <= |cells|
    requires forall i :: base <= i < base + n ==> CellAt(mem, Slot(start, i), cells[i], true, iset{})
    ensures PtrsSize(mem, Slot(start, base), n, Unlimited, nest).result.Ok? <==> Shallow(cells, base, base + n, nest)
    decreases nest, 2, n
  {
    hide TargetSize, DepthOfCell, Denotes;
    if n > 0 {
      var last := base + n - 1;
      PtrsExactly(mem, start, cells, base, n - 1, nest);
      PtrsAreCharged(mem, Slot(start, base), n - 1, Unlimited, nest);
      assert CellAt(mem, Slot(start, last), cells[last], true, iset{});
      assert Slot(Slot(start, base), n - 1) == Slot(start, last);
      CellExactly(mem, Slot(start, last), cells[last], nest);
    }
  }

  lemma {:induction false} CellExactly(mem: Mem, at: Addr, cell: Cell, nest: nat)
    requires CellAt(mem, at, cell, true, iset{})
    ensures InMem(mem, at)
    ensures At(mem, at).IsNull() ==> DepthOfCell(cell) == 0
    ensures !At(mem, at).IsNull() ==> (TargetSize(mem, at, Unlimited, nest).result.Ok? <==> DepthOfCell(cell) <= nest)
    decreases nest, 1, 1
  {
    hide TargetSize, Resolve, Pads, Tags, Words, IsPtrSlot;
    if At(mem, at).IsNull() {
      NonNullMeaning(mem, at, cell.value, iset{});
    } else {
      SizedExactly(mem, at, cell.value, nest);
    }
  }

  lemma {:induction false} CompositesExactly(mem: Mem, start: Addr, cells: seq<Cell>, size: StructSize, n: nat,
                                             nest: nat)
    requires HasBody(mem, start, Times(n, size)) && Times(n, size) <= |cells|
    requires forall i :: 0 <= i < Times(n, size) ==>
               CellAt(mem, Slot(start, i), cells[i], IsPtrOfStructs(size, i), iset{})
    ensures CompositesSize(mem, start, size, n, Unlimited, nest).result.Ok?
       <==> Shallow(cells, 0, Times(n, size), nest)
    decreases nest, 4, n
  {
    hide ElementTargets, CellAt, DepthOfCell, IsPtrOfStructs;
    if n > 0 {
      CompositesExactly(mem, start, cells, size, n - 1, nest);
      CompositesAreCharged(mem, start, size, n - 1, Unlimited, nest);
      ElementExactly(mem, start, cells, size, n - 1, nest);
    }
  }

  lemma {:induction false} ElementExactly(mem: Mem, start: Addr, cells: seq<Cell>, size: StructSize, index: nat,
                                          nest: nat)
    requires HasBody(mem, start, Times(index + 1, size)) && Times(index + 1, size) <= |cells|
    requires forall i :: Times(index, size) <= i < Times(index + 1, size) ==>
               CellAt(mem, Slot(start, i), cells[i], IsPtrOfStructs(size, i), iset{})
    ensures ElementTargets(mem, start, size, index, Unlimited, nest).result.Ok?
       <==> Shallow(cells, Times(index, size), Times(index + 1, size), nest)
    decreases nest, 3, 0
  {
    hide PtrsSize, CellAt, DepthOfCell, IsPtrOfStructs;
    var base := Times(index, size);
    assert Times(index + 1, size) == base + size.data + size.ptrs;
    forall i | base <= i < base + size.Total()
      ensures CellAt(mem, Slot(start, i), cells[i], base + size.data <= i, iset{})
    {
      SlotOfElement(index, size, i - base);
      assert CellAt(mem, Slot(start, i), cells[i], IsPtrOfStructs(size, i), iset{});
    }
    PtrsExactly(mem, start, cells, base + size.data, size.ptrs, nest);
    ElementData(mem, start, cells, base, size.data);
  }

  lemma ElementData(mem: Mem, start: Addr, cells: seq<Cell>, base: nat, n: nat)
    requires base + n <= |cells|
    requires forall i :: base <= i < base + n ==> CellAt(mem, Slot(start, i), cells[i], false, iset{})
    ensures forall i :: base <= i < base + n ==> DepthOfCell(cells[i]) == 0
  {
    hide Denotes;
    forall i | base <= i < base + n
      ensures DepthOfCell(cells[i]) == 0
    {
      assert CellAt(mem, Slot(start, i), cells[i], false, iset{});
    }
  }
}
