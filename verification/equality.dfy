/**
 Equality of what two pointers refer to: `cmp_ptr`, `cmp_struct` and `cmp_list`, as a function of the
 trees of values they mean, and what it says of a copy and its source.
 */
module Equality {
  import opened Wire
  import opened Reader
  import opened Values
  import opened Copying
  import opened DeepCopy

  datatype PtrEquality = NotEqual | Equal | ContainsCaps

  /** The outcome of two comparisons that both have to succeed. */
  function Both(a: PtrEquality, b: PtrEquality): PtrEquality {
    if a == NotEqual || b == NotEqual then NotEqual
    else if a == ContainsCaps || b == ContainsCaps then ContainsCaps
    else Equal
  }

  /** Trees whose objects have all their words, pointers being where the shape has them. */
  ghost predicate Formed(v: Value)
    decreases v
  {
    v.Obj? ==>
      && |v.cells| == Words(v.shape)
      && forall i :: 0 <= i < |v.cells| ==> FormedCell(v.cells[i], IsPtrSlot(v.shape, i))
  }

  ghost predicate FormedCell(cell: Cell, isPtr: bool)
    decreases cell
  {
    cell.Ref? == isPtr && (cell.Ref? ==> Formed(cell.value))
  }

  ghost predicate FormedCells(shape: Shape, cells: seq<Cell>) {
    && |cells| == Words(shape)
    && forall i :: 0 <= i < |cells| ==> FormedCell(cells[i], IsPtrSlot(shape, i))
  }

  /** Cells `i` to `i + n` are pointers. */
  ghost predicate Refs(cells: seq<Cell>, i: nat, n: nat) {
    i + n <= |cells| && forall k :: i <= k < i + n ==> FormedCell(cells[k], true)
  }

  /** Cells `i` to `i + n` are words of data. */
  ghost predicate Datas(cells: seq<Cell>, i: nat, n: nat) {
    i + n <= |cells| && forall k :: i <= k < i + n ==> FormedCell(cells[k], false)
  }

  /** A struct at cell `base`. */
  ghost predicate StructIn(cells: seq<Cell>, base: nat, size: StructSize) {
    Datas(cells, base, size.data) && Refs(cells, base + size.data, size.ptrs)
  }

  /** Byte `j` of a word, least significant first. */
  function ByteOf(w: Word, j: nat): nat {
    if j < 4 then Shifted(w.lower, j) % 256 else Shifted(w.upper, j - 4) % 256
  }

  /** `x >> 8 * j` for up to three bytes. */
  function Shifted(x: u32, j: nat): nat {
    if j == 0 then x
    else if j == 1 then x / 256
    else if j == 2 then x / 256 / 256
    else x / 256 / 256 / 256
  }

  /** Byte `k` of cells that are data. */
  function ByteAt(cells: seq<Cell>, k: nat): nat
    requires k / 8 < |cells| && cells[k / 8].Data?
  {
    ByteOf(cells[k / 8].word, k % 8)
  }

  /** `total_bytes` of the plain element sizes. */
  function TotalBytes(element: PtrElementSize, count: nat): nat {
    (Bits(element) * count + 7) / 8
  }

  /**
   The bits of a byte the comparison of bit lists looks at when `partial` of them belong to the list: the
   upper ones.
   */
  function Masked(byte: nat, partial: nat): nat
    requires 0 < partial < 8
  {
    byte / LowBits(8 - partial)
  }

  function LowBits(n: nat): (p: nat)
    ensures p > 0
  {
    if n == 0 then 1
    else if n == 1 then 2
    else if n == 2 then 4
    else if n == 3 then 8
    else if n == 4 then 16
    else if n == 5 then 32
    else if n == 6 then 64
    else 128
  }

  /** The bytes two plain data lists are compared by, and the partial byte at the end of bit lists. */
  predicate SameData(element: PtrElementSize, count: nat, cells: seq<Cell>, cells': seq<Cell>)
    requires |cells| == |cells'| == ListWords(element, count)
    requires forall k :: 0 <= k < |cells| ==> cells[k].Data? && cells'[k].Data?
  {
    ListWordsAreBits(element, count);
    if element == Bit && count % 8 != 0 then
      && (forall k :: 0 <= k < count / 8 ==> ByteAt(cells, k) == ByteAt(cells', k))
      && Masked(ByteAt(cells, count / 8), count % 8) == Masked(ByteAt(cells', count / 8), count % 8)
    else
      forall k :: 0 <= k < TotalBytes(element, count) ==> ByteAt(cells, k) == ByteAt(cells', k)
  }

  // ----- The comparison

  /** `cmp_ptr`: a null pointer that is compared to another one is read as an empty struct. */
  ghost function Cmp(v: Value, w: Value): PtrEquality
    requires Formed(v) && Formed(w)
    decreases v
  {
    match v
    case Null => CmpNull(w)
    case Cap(_) => if w.Cap? then ContainsCaps else NotEqual
    case Obj(shape, cells) =>
      if w.Obj? then CmpObjects(shape, cells, w.shape, w.cells)
      else if w.Null? then CmpNull(v)
      else NotEqual
  }

  /** A null pointer against another pointer. */
  function CmpNull(v: Value): PtrEquality {
    match v
    case Null => Equal
    case Cap(_) => NotEqual
    case Obj(shape, _) => if shape.StructShape? && shape.size.data == 0 then Equal else NotEqual
  }

  ghost function CmpObjects(shape: Shape, cells: seq<Cell>, shape': Shape, cells': seq<Cell>): PtrEquality
    requires FormedCells(shape, cells) && FormedCells(shape', cells')
    decreases cells, 4, 0
  {
    match shape
    case StructShape(size) =>
      if shape'.StructShape? then CmpStruct(cells, 0, size, cells', 0, shape'.size) else NotEqual
    case ListShape(element, count) =>
      if !shape'.ListShape? || shape'.count != count || shape'.element != element then NotEqual
      else if element == Pointer then CmpRefs(cells, 0, cells', 0, count)
      else if SameData(element, count, cells, cells') then Equal
      else NotEqual
    case CompositeShape(size, count) =>
      if !shape'.CompositeShape? || shape'.count != count then NotEqual
      else
        ElementsFormed(shape, cells, count);
        ElementsFormed(shape', cells', count);
        CmpElements(cells, size, cells', shape'.size, count)
  }

  lemma ElementsFormed(shape: Shape, cells: seq<Cell>, n: nat)
    requires shape.CompositeShape? && FormedCells(shape, cells) && n <= shape.count
    ensures forall e :: 0 <= e < n ==> StructIn(cells, Times(e, shape.size), shape.size)
  {
    forall e | 0 <= e < n
      ensures StructIn(cells, Times(e, shape.size), shape.size)
    {
      ElementFormed(shape, cells, e);
    }
  }

  lemma ElementFormed(shape: Shape, cells: seq<Cell>, e: nat)
    requires shape.CompositeShape? && FormedCells(shape, cells) && e < shape.count
    ensures StructIn(cells, Times(e, shape.size), shape.size)
  {
    hide Formed, IsPtrOfStructs;
    var base, size := Times(e, shape.size), shape.size;
    TimesMonotone(e, shape.count, size);
    forall k | base <= k < base + size.Total()
      ensures FormedCell(cells[k], base + size.data <= k)
    {
      SlotOfElement(e, size, k - base);
      assert FormedCell(cells[k], IsPtrSlot(shape, k));
    }
  }

  /** The first `n` elements of two composite lists. */
  ghost function CmpElements(cells: seq<Cell>, size: StructSize, cells': seq<Cell>, size': StructSize,
                             n: nat): PtrEquality
    requires forall e :: 0 <= e < n ==> StructIn(cells, Times(e, size), size)
    requires forall e :: 0 <= e < n ==> StructIn(cells', Times(e, size'), size')
    decreases cells, 3, n
  {
    if n == 0 then Equal
    else Both(CmpElements(cells, size, cells', size', n - 1),
              CmpStruct(cells, Times(n - 1, size), size, cells', Times(n - 1, size'), size'))
  }

  /** `cmp_struct`: equal data sections, and equal pointers as far as both have them. */
  ghost function CmpStruct(cells: seq<Cell>, base: nat, size: StructSize, cells': seq<Cell>, base': nat,
                           size': StructSize)
    : PtrEquality
    requires StructIn(cells, base, size) && StructIn(cells', base', size')
    decreases cells, 2, 0
  {
    if cells[base..base + size.data] != cells'[base'..base' + size'.data] then NotEqual
    else CmpRefs(cells, base + size.data, cells', base' + size'.data,
                 if size.ptrs < size'.ptrs then size.ptrs else size'.ptrs)
  }

  ghost function CmpRefs(cells: seq<Cell>, i: nat, cells': seq<Cell>, j: nat, n: nat): PtrEquality
    requires Refs(cells, i, n) && Refs(cells', j, n)
    decreases cells, 1, n
  {
    if n == 0 then Equal
    else Both(CmpRefs(cells, i, cells', j, n - 1), CmpCell(cells[i + n - 1], cells'[j + n - 1]))
  }

  ghost function CmpCell(cell: Cell, cell': Cell): PtrEquality
    requires FormedCell(cell, true) && FormedCell(cell', true)
    decreases cell
  {
    Cmp(cell.value, cell'.value)
  }

  // ----- A copy and its source

  ghost predicate HasCap(v: Value)
    decreases v
  {
    v.Cap? || (v.Obj? && exists i :: 0 <= i < |v.cells| && CellHasCap(v.cells[i]))
  }

  ghost predicate CellHasCap(cell: Cell)
    decreases cell
  {
    cell.Ref? && HasCap(cell.value)
  }

  /** Some capability does not become one. */
  ghost predicate LosesCap(v: Value, caps: CapTable)
    decreases v
  {
    || (v.Cap? && !caps(v.index).CopiedAs?)
    || (v.Obj? && exists i :: 0 <= i < |v.cells| && CellLosesCap(v.cells[i], caps))
  }

  ghost predicate CellLosesCap(cell: Cell, caps: CapTable)
    decreases cell
  {
    cell.Ref? && LosesCap(cell.value, caps)
  }

  /** How a tree compares to its copy. */
  ghost function CopyEquality(v: Value, caps: CapTable): PtrEquality {
    if LosesCap(v, caps) then NotEqual else if HasCap(v) then ContainsCaps else Equal
  }

  ghost function CopyEqualityIn(cells: seq<Cell>, lo: nat, hi: nat, caps: CapTable): PtrEquality
    requires hi <= |cells|
  {
    if exists i :: lo <= i < hi && CellLosesCap(cells[i], caps) then NotEqual
    else if exists i :: lo <= i < hi && CellHasCap(cells[i]) then ContainsCaps
    else Equal
  }

  lemma CopyEqualityJoins(cells: seq<Cell>, lo: nat, mid: nat, hi: nat, caps: CapTable)
    requires lo <= mid <= hi <= |cells|
    ensures Both(CopyEqualityIn(cells, lo, mid, caps), CopyEqualityIn(cells, mid, hi, caps))
         == CopyEqualityIn(cells, lo, hi, caps)
  {
    hide CellLosesCap, CellHasCap;
  }

  lemma CopyEqualityOfData(cells: seq<Cell>, lo: nat, n: nat, caps: CapTable)
    requires Datas(cells, lo, n)
    ensures CopyEqualityIn(cells, lo, lo + n, caps) == Equal
  {
    forall i | lo <= i < lo + n
      ensures !CellLosesCap(cells[i], caps) && !CellHasCap(cells[i])
    {
      assert FormedCell(cells[i], false);
    }
  }

  function RenamedCells(cells: seq<Cell>, caps: CapTable): (r: seq<Cell>)
    ensures |r| == |cells| && forall i :: 0 <= i < |cells| ==> r[i] == RenamedCell(cells[i], caps)
  {
    seq(|cells|, i requires 0 <= i < |cells| => RenamedCell(cells[i], caps))
  }

  lemma {:induction false} RenamedFormed(v: Value, caps: CapTable)
    requires Formed(v)
    ensures Formed(Renamed(v, caps))
    decreases v
  {
    hide Words, IsPtrSlot;
    if v.Obj? {
      var r := Renamed(v, caps);
      forall i | 0 <= i < |v.cells|
        ensures FormedCell(r.cells[i], IsPtrSlot(v.shape, i))
      {
        assert FormedCell(v.cells[i], IsPtrSlot(v.shape, i)) && r.cells[i] == RenamedCell(v.cells[i], caps);
        if v.cells[i].Ref? {
          RenamedFormed(v.cells[i].value, caps);
        }
      }
    }
  }

  lemma RenamedFormedCells(shape: Shape, cells: seq<Cell>, caps: CapTable)
    requires FormedCells(shape, cells)
    ensures FormedCells(shape, RenamedCells(cells, caps))
  {
    RenamedFormed(Obj(shape, cells), caps);
    assert Renamed(Obj(shape, cells), caps).cells == RenamedCells(cells, caps);
  }

  lemma RenamedStructIn(cells: seq<Cell>, base: nat, size: StructSize, caps: CapTable)
    requires StructIn(cells, base, size)
    ensures StructIn(RenamedCells(cells, caps), base, size)
  {
    RenamedRefs(cells, base + size.data, size.ptrs, caps);
    forall k | base <= k < base + size.data
      ensures FormedCell(RenamedCells(cells, caps)[k], false)
    {
      assert FormedCell(cells[k], false);
    }
  }

  lemma RenamedRefs(cells: seq<Cell>, i: nat, n: nat, caps: CapTable)
    requires Refs(cells, i, n)
    ensures Refs(RenamedCells(cells, caps), i, n)
  {
    forall k | i <= k < i + n
      ensures FormedCell(RenamedCells(cells, caps)[k], true)
    {
      assert FormedCell(cells[k], true);
      RenamedFormed(cells[k].value, caps);
    }
  }

  lemma RenamedData(cells: seq<Cell>, lo: nat, n: nat, caps: CapTable)
    requires Datas(cells, lo, n)
    ensures RenamedCells(cells, caps)[lo..lo + n] == cells[lo..lo + n]
  {
    forall k | lo <= k < lo + n
      ensures RenamedCells(cells, caps)[k] == cells[k]
    {
      assert FormedCell(cells[k], false);
    }
  }

  /**
   A copy compares to its source as it must: not equal exactly when a capability became null, else with
   capabilities exactly when there are some, else equal.
   */
  lemma {:induction false} CopyCompares(v: Value, caps: CapTable)
    requires Formed(v)
    ensures Formed(Renamed(v, caps)) && Cmp(v, Renamed(v, caps)) == CopyEquality(v, caps)
    decreases v
  {
    hide Words, IsPtrSlot, CmpObjects, CellHasCap, CellLosesCap;
    RenamedFormed(v, caps);
    if v.Obj? {
      assert Renamed(v, caps).cells == RenamedCells(v.cells, caps);
      RenamedFormedCells(v.shape, v.cells, caps);
      ObjectsCompare(v.shape, v.cells, caps);
    }
  }

  lemma {:induction false} ObjectsCompare(shape: Shape, cells: seq<Cell>, caps: CapTable)
    requires FormedCells(shape, cells) && FormedCells(shape, RenamedCells(cells, caps))
    ensures CmpObjects(shape, cells, shape, RenamedCells(cells, caps)) == CopyEqualityIn(cells, 0, |cells|, caps)
    decreases cells, 4, 0
  {
    hide CmpStruct, CmpRefs, CmpElements, CopyEqualityIn, FormedCell, IsPtrOfStructs, Times, ListWords, SameData;
    match shape
    case StructShape(size) =>
      StructsCompare(cells, 0, size, caps);
    case ListShape(element, count) =>
      if element == Pointer {
        PointerListWords(count);
        forall k | 0 <= k < count
          ensures FormedCell(cells[k], true)
        {
          assert FormedCell(cells[k], IsPtrSlot(shape, k));
        }
        RefsCompare(cells, 0, count, caps);
      } else {
        DataCompares(element, count, cells, caps);
      }
    case CompositeShape(size, count) =>
      ElementsFormed(shape, cells, count);
      ElementsFormed(shape, RenamedCells(cells, caps), count);
      ElementsCompare(cells, size, count, caps);
  }

  lemma PointerListWords(count: nat)
    ensures ListWords(Pointer, count) == count
  {
  }

  lemma DataCompares(element: PtrElementSize, count: u29, cells: seq<Cell>, caps: CapTable)
    requires FormedCells(ListShape(element, count), cells) && element != Pointer
    ensures forall k :: 0 <= k < |cells| ==> cells[k].Data?
    ensures |cells| == ListWords(element, count) && RenamedCells(cells, caps) == cells
    ensures SameData(element, count, cells, cells)
    ensures CopyEqualityIn(cells, 0, |cells|, caps) == Equal
  {
    hide ListWords, ByteAt, Masked;
    forall k | 0 <= k < |cells|
      ensures cells[k].Data? && FormedCell(cells[k], false)
    {
      assert FormedCell(cells[k], IsPtrSlot(ListShape(element, count), k));
    }
    RenamedData(cells, 0, |cells|, caps);
    assert cells[0..|cells|] == cells && RenamedCells(cells, caps)[0..|cells|] == RenamedCells(cells, caps);
    CopyEqualityOfData(cells, 0, |cells|, caps);
  }

  lemma {:induction false} ElementsCompare(cells: seq<Cell>, size: StructSize, n: nat, caps: CapTable)
    requires forall e :: 0 <= e < n ==> StructIn(cells, Times(e, size), size)
    requires forall e :: 0 <= e < n ==> StructIn(RenamedCells(cells, caps), Times(e, size), size)
    requires Times(n, size) <= |cells|
    ensures CmpElements(cells, size, RenamedCells(cells, caps), size, n)
         == CopyEqualityIn(cells, 0, Times(n, size), caps)
    decreases cells, 3, n
  {
    hide CmpStruct, CopyEqualityIn, StructIn;
    if n == 0 {
      NoneIn(cells, caps);
    } else {
      ElementsCompare(cells, size, n - 1, caps);
      StructsCompare(cells, Times(n - 1, size), size, caps);
      CopyEqualityJoins(cells, 0, Times(n - 1, size), Times(n, size), caps);
    }
  }

  lemma NoneIn(cells: seq<Cell>, caps: CapTable)
    ensures CopyEqualityIn(cells, 0, 0, caps) == Equal
  {
  }

  lemma {:induction false} StructsCompare(cells: seq<Cell>, base: nat, size: StructSize, caps: CapTable)
    requires StructIn(cells, base, size)
    ensures StructIn(RenamedCells(cells, caps), base, size)
    ensures CmpStruct(cells, base, size, RenamedCells(cells, caps), base, size)
         == CopyEqualityIn(cells, base, base + size.Total(), caps)
    decreases cells, 2, 0
  {
    hide CmpRefs, CopyEqualityIn;
    RenamedStructIn(cells, base, size, caps);
    RenamedData(cells, base, size.data, caps);
    RefsCompare(cells, base + size.data, size.ptrs, caps);
    CopyEqualityOfData(cells, base, size.data, caps);
    CopyEqualityJoins(cells, base, base + size.data, base + size.Total(), caps);
  }

  lemma {:induction false} RefsCompare(cells: seq<Cell>, i: nat, n: nat, caps: CapTable)
    requires Refs(cells, i, n)
    ensures Refs(RenamedCells(cells, caps), i, n)
    ensures CmpRefs(cells, i, RenamedCells(cells, caps), i, n) == CopyEqualityIn(cells, i, i + n, caps)
    decreases cells, 1, n
  {
    hide Cmp;
    RenamedRefs(cells, i, n, caps);
    if n > 0 {
      RefsCompare(cells, i, n - 1, caps);
      CellCompares(cells[i + n - 1], caps);
      CopyEqualityJoins(cells, i, i + n - 1, i + n, caps);
    }
  }

  lemma {:induction false} CellCompares(cell: Cell, caps: CapTable)
    requires FormedCell(cell, true)
    ensures FormedCell(RenamedCell(cell, caps), true)
    ensures CmpCell(cell, RenamedCell(cell, caps))
         == if CellLosesCap(cell, caps) then NotEqual else if CellHasCap(cell) then ContainsCaps else Equal
    decreases cell
  {
    hide Cmp;
    CopyCompares(cell.value, caps);
  }
}
