/**
 The canonical deep copy, `CopyMachine` with `canonical` set, of sources made of structs, pointer lists and
 lists of plain elements; with an error handler that gives up.
 */
module CanonicalCopy {
  import opened Wire
  import opened Reader
  import opened Values
  import opened Layout
  import opened Putting
  import opened Canonical
  import opened Walking
  import opened Walked
  import opened ArenaHeap
  import opened Sizing
  import opened Prediction

  class CanonicalMachine {
    const src: Mem
    const arena: Arena

    constructor (message: Mem, target: Arena)
      requires target.Valid()
      ensures src == message && arena == target && Valid()
    {
      src := message;
      arena := target;
    }

    ghost predicate Valid()
      reads this, arena, arena.Repr
    {
      arena.Valid() && this !in arena.Repr
    }

    /** The first `k` cells of the new object are written from `to` on, and nothing failed. */
    ghost predicate Stands(to: Addr, base: St, all: seq<Cell>, k: nat)
      reads this, arena, arena.Repr
    {
      && Valid() && ValidSt(base) && HasBody(base.mem, to, |all|) && k <= |all|
      && LooseCells(all[..k])
      && arena.st == PutCells(all[..k], to, base).st && PutCells(all[..k], to, base).failures == 0
    }

    /** `trim_end_null_words`. */
    method TrimEndNull(start: Addr, n: nat) returns (m: nat)
      requires SectionIn(src, start, n)
      ensures m <= n && (m > 0 ==> !At(src, Slot(start, m - 1)).IsNull())
      ensures forall i :: m <= i < n ==> At(src, Slot(start, i)).IsNull()
    {
      m := n;
      while m > 0 && At(src, Slot(start, m - 1)).IsNull()
        invariant m <= n && forall i :: m <= i < n ==> At(src, Slot(start, i)).IsNull()
      {
        m := m - 1;
      }
    }

    /** `calculate_canonical_struct_size`. */
    method CanonicalSize(start: Addr, size: StructSize, ghost cells: seq<Cell>) returns (r: StructSize)
      requires SectionIn(src, start, size.Total())
      requires ContentMeans(src, StructShape(size), start, cells)
      ensures |cells| == size.Total() && r == CanonSize(size, cells)
    {
      hide CellAt;
      var data := TrimEndNull(start, size.data);
      var ptrs := TrimEndNull(Slot(start, size.data), size.ptrs);
      r := StructSize(data, ptrs);
      BlankIsNull(src, StructShape(size), start, cells);
      forall i | size.data <= i < size.Total()
        ensures Slot(Slot(start, size.data), i - size.data) == Slot(start, i)
      {
      }
      forall i | size.data + ptrs <= i < size.Total()
        ensures Blank(cells[i])
      {
        assert At(src, Slot(Slot(start, size.data), i - size.data)).IsNull();
      }
      TrimmedLenIs(cells, 0, size.data, data);
      TrimmedLenIs(cells, size.data, size.Total(), ptrs);
    }

    /** `copy_ptr` of a pointer that is not null. */
    method CopyPtr(at: Addr, dst: Addr, ghost v: Value) returns (ok: bool)
      requires Valid() && InMem(src, at) && InMem(arena.st.mem, dst)
      requires Means(src, at, v) && v.Obj? && Simple(v)
      modifies arena.Repr
      ensures Valid() && fresh(arena.Repr - old(arena.Repr))
      ensures Loose(Canon(v))
      ensures ok <==> PutPtr(Canon(v), dst, old(arena.st)).failures == 0
      ensures ok ==> arena.st == PutPtr(Canon(v), dst, old(arena.st)).st
      decreases v, 3
    {
      hide TryReadTyped, ListWords, Times, IsPtrSlot, Denotes, Simple, Canon, ContentMeans, AllocObject, PutPtr,
           PutCells, Loose, LooseCells, CanonSize;
      ObjectContent(src, at, v.shape, v.cells);
      var reading := TryReadTyped(src, at, Unlimited);
      ReaderSound(src, at, Unlimited);
      CanonIsLoose(v);
      ghost var base := arena.st;
      var Object(shape, start) := reading.result.value;
      var newShape := shape;
      if shape.StructShape? {
        var size := CanonicalSize(start, shape.size, v.cells);
        newShape := StructShape(size);
      }
      CanonContent(v);
      AllocObjectSafe(base, dst, newShape);
      PutObject(Canon(v), dst, base);
      var placed, to := arena.AllocObject(dst, newShape);
      if !placed {
        return false;
      }
      ghost var room := arena.st;
      NothingStands(to, room, Canon(v).cells);
      if shape.StructShape? {
        StructSource(src, start, v);
        CanonSizeFits(shape.size, v.cells);
        ok := CopyStruct(start, shape.size, to, newShape.size, v.cells, Canon(v).cells, room);
      } else {
        ListSource(src, start, v);
        ok := CopyList(start, shape, to, v.cells, Canon(v).cells, room);
      }
      assert Canon(v).cells[..|Canon(v).cells|] == Canon(v).cells;
    }

    /** `copy_struct` into a struct that is no larger. */
    method CopyStruct(from: Addr, size: StructSize, to: Addr, newSize: StructSize, ghost cells: seq<Cell>,
                      ghost all: seq<Cell>, ghost base: St)
      returns (ok: bool)
      requires |cells| == size.Total() && newSize.FitsInside(size) && |all| == newSize.Total()
      requires LooseCells(all) && Stands(to, base, all, 0)
      requires DataSource(src, from, newSize.data, all)
      requires PtrSource(src, from, size.data, newSize.ptrs, cells, newSize.data, all)
      modifies arena.Repr
      ensures Valid() && fresh(arena.Repr - old(arena.Repr))
      ensures ok ==> Stands(to, base, all, |all|)
      ensures !ok ==> PutCells(all, to, base).failures > 0
      decreases cells, 2
    {
      hide LooseCells, Stands, PutCells, SourceSlot;
      StandsValid(to, base, all, 0);
      CopyData(from, 0, to, 0, newSize.data, base, all);
      ok := CopyPtrs(from, size.data, to, newSize.data, newSize.ptrs, base, all, cells);
    }

    /** `copy_list` of pointers or plain elements. */
    method CopyList(from: Addr, shape: Shape, to: Addr, ghost cells: seq<Cell>, ghost all: seq<Cell>, ghost base: St)
      returns (ok: bool)
      requires shape.ListShape? && |all| == Words(shape) && LooseCells(all) && Stands(to, base, all, 0)
      requires if shape.element == Pointer then PtrSource(src, from, 0, Words(shape), cells, 0, all)
               else DataSource(src, from, Words(shape), all)
      modifies arena.Repr
      ensures Valid() && fresh(arena.Repr - old(arena.Repr))
      ensures ok ==> Stands(to, base, all, |all|)
      ensures !ok ==> PutCells(all, to, base).failures > 0
      decreases cells, 2
    {
      hide LooseCells, Stands, PutCells, SourceSlot, ListWords;
      StandsValid(to, base, all, 0);
      ok := true;
      if shape.element == Pointer {
        ok := CopyPtrs(from, 0, to, 0, Words(shape), base, all, cells);
      } else {
        CopyData(from, 0, to, 0, Words(shape), base, all);
        StandsValid(to, base, all, Words(shape));
      }
    }

    lemma NothingStands(to: Addr, base: St, all: seq<Cell>)
      requires Valid() && ValidSt(base) && HasBody(base.mem, to, |all|) && arena.st == base
      ensures Stands(to, base, all, 0)
    {
      PutNothing(to, base);
      assert all[..0] == [];
    }

    lemma StandsValid(to: Addr, base: St, all: seq<Cell>, k: nat)
      requires Stands(to, base, all, k)
      ensures Valid() && ValidSt(base) && HasBody(base.mem, to, |all|) && k <= |all|
    {
    }

    /** `copy_from_slice`. */
    method CopyData(from: Addr, s: nat, to: Addr, k: nat, n: nat, ghost base: St, ghost all: seq<Cell>)
      requires Stands(to, base, all, k) && k + n <= |all| && LooseCells(all)
      requires forall i :: s <= i < s + n ==>
                 InMem(src, Slot(from, i)) && all[k + i - s] == Data(At(src, Slot(from, i)))
      modifies arena.Repr
      ensures Stands(to, base, all, k + n) && fresh(arena.Repr - old(arena.Repr))
    {
      hide PutCells, SetWord, LooseCell;
      for i := 0 to n
        invariant Stands(to, base, all, k + i) && fresh(arena.Repr - old(arena.Repr))
      {
        var word := At(src, Slot(from, s + i));
        assert all[k + i] == Data(word);
        PutNext(all, k + i, to, base);
        arena.SetPtr(Slot(to, k + i), word);
      }
    }

    /** `copy_ptr_section`: null pointers are skipped. */
    method CopyPtrs(from: Addr, s: nat, to: Addr, k: nat, n: nat, ghost base: St, ghost all: seq<Cell>,
                    ghost cells: seq<Cell>)
      returns (ok: bool)
      requires Stands(to, base, all, k) && k + n == |all| && s + n <= |cells| && LooseCells(all)
      requires forall i :: s <= i < s + n ==> SourceSlot(src, Slot(from, i), cells[i], all[k + i - s])
      modifies arena.Repr
      ensures Valid() && fresh(arena.Repr - old(arena.Repr))
      ensures ok ==> Stands(to, base, all, |all|)
      ensures !ok ==> PutCells(all, to, base).failures > 0
      decreases cells, 1
    {
      hide PutCells, LooseCell, SourceSlot, Stands;
      ok := true;
      StandsValid(to, base, all, k);
      for i := 0 to n
        invariant Stands(to, base, all, k + i) && fresh(arena.Repr - old(arena.Repr)) && ok
      {
        assert SourceSlot(src, Slot(from, s + i), cells[s + i], all[k + i]);
        ok := CopySlot(Slot(from, s + i), to, k + i, base, all, cells[s + i]);
        if !ok {
          return;
        }
      }
      StandsValid(to, base, all, k + n);
    }

    method CopySlot(slot: Addr, to: Addr, k: nat, ghost base: St, ghost all: seq<Cell>, ghost cell: Cell)
      returns (ok: bool)
      requires k < |all| && Stands(to, base, all, k) && LooseCells(all)
      requires SourceSlot(src, slot, cell, all[k])
      modifies arena.Repr
      ensures Valid() && fresh(arena.Repr - old(arena.Repr))
      ensures ok ==> Stands(to, base, all, k + 1)
      ensures !ok ==> PutCells(all, to, base).failures > 0
      decreases cell, 0
    {
      hide PutCells, Denotes, Simple, Canon, PutPtr, LooseCell;
      ok := true;
      PutNext(all, k, to, base);
      NonNullMeaning(src, slot, cell.value, iset{});
      CanonNull(cell.value);
      if At(src, slot).IsNull() {
        PutNull(Slot(to, k), arena.st);
      } else {
        SimpleObject(cell.value);
        ok := CopyPtr(slot, Slot(to, k), cell.value);
        if !ok {
          LostStays(all, k + 1, to, base);
        }
      }
    }
  }

  /** A pointer of the source, and the cell it becomes. */
  ghost predicate SourceSlot(mem: Mem, slot: Addr, cell: Cell, target: Cell) {
    && cell.Ref? && Simple(cell.value) && Means(mem, slot, cell.value) && target == Ref(Canon(cell.value))
  }

  /** The first `n` cells are the words of the source. */
  ghost predicate DataSource(mem: Mem, from: Addr, n: nat, all: seq<Cell>) {
    && n <= |all|
    && forall i :: 0 <= i < n ==> InMem(mem, Slot(from, i)) && all[i] == Data(At(mem, Slot(from, i)))
  }

  /** `n` pointers of the source from `s` on, and what they become from `k` on. */
  ghost predicate PtrSource(mem: Mem, from: Addr, s: nat, n: nat, cells: seq<Cell>, k: nat, all: seq<Cell>) {
    && s + n <= |cells| && k + n <= |all|
    && forall i :: s <= i < s + n ==> SourceSlot(mem, Slot(from, i), cells[i], all[k + i - s])
  }

  lemma SimpleObject(v: Value)
    requires Simple(v) && v != Null
    ensures v.Obj?
  {
  }

  /** The walk of `PutCells` one cell further. */
  lemma PutNext(all: seq<Cell>, k: nat, to: Addr, base: St)
    requires ValidSt(base) && HasBody(base.mem, to, |all|) && k < |all| && LooseCells(all) && LooseCells(all[..k])
    ensures LooseCells(all[..k + 1]) && LooseCell(all[k], all[k].Ref?)
    ensures var before := PutCells(all[..k], to, base);
            && InMem(before.st.mem, Slot(to, k))
            && PutCells(all[..k + 1], to, base).st == PutCell(all[k], Slot(to, k), before.st).st
            && PutCells(all[..k + 1], to, base).failures
               == before.failures + PutCell(all[k], Slot(to, k), before.st).failures
  {
    hide PutCells, PutCell, LooseCell, ValidSt;
    assert LooseCell(all[k], all[k].Ref?);
    assert all[..k + 1] == all[..k] + [all[k]];
    PutOneMore(all[..k], all[k], to, base);
  }

  /** What was lost on the way is lost at the end. */
  lemma {:induction false} LostStays(all: seq<Cell>, k: nat, to: Addr, base: St)
    requires ValidSt(base) && HasBody(base.mem, to, |all|) && k <= |all| && LooseCells(all) && LooseCells(all[..k])
    requires PutCells(all[..k], to, base).failures > 0
    ensures PutCells(all, to, base).failures > 0
    decreases |all| - k
  {
    hide PutCells, PutCell, LooseCell, ValidSt;
    if k == |all| {
      assert all[..k] == all;
    } else {
      PutNext(all, k, to, base);
      LostStays(all, k + 1, to, base);
    }
  }

  /** The cells of the canonical form of a struct against the words of the source. */
  lemma StructSource(mem: Mem, from: Addr, v: Value)
    requires SimpleStruct(v) && |v.cells| == v.shape.size.Total()
    requires ContentMeans(mem, v.shape, from, v.cells)
    requires Canon(v).Obj? && |Canon(v).cells| == CanonSize(v.shape.size, v.cells).Total()
    ensures var size, trimmed := v.shape.size, CanonSize(v.shape.size, v.cells);
            && DataSource(mem, from, trimmed.data, Canon(v).cells)
            && PtrSource(mem, from, size.data, trimmed.ptrs, v.cells, trimmed.data, Canon(v).cells)
  {
    hide Canon, Denotes, SimpleCell, Simple, CanonSize;
    var size, trimmed := v.shape.size, CanonSize(v.shape.size, v.cells);
    CanonSizeFits(size, v.cells);
    SimpleStructCells(v);
    forall i | 0 <= i < trimmed.data
      ensures InMem(mem, Slot(from, i)) && Canon(v).cells[i] == Data(At(mem, Slot(from, i)))
    {
      CanonCellAt(v, i);
      assert CellAt(mem, Slot(from, i), v.cells[i], IsPtrSlot(v.shape, i), iset{});
      DataCell(v.cells[i]);
    }
    forall i | size.data <= i < size.data + trimmed.ptrs
      ensures SourceSlot(mem, Slot(from, i), v.cells[i], Canon(v).cells[trimmed.data + i - size.data])
    {
      CanonCellAt(v, trimmed.data + i - size.data);
      assert CellAt(mem, Slot(from, i), v.cells[i], IsPtrSlot(v.shape, i), iset{});
      RefCell(v.cells[i]);
      assert SimpleCell(v.cells[i], true);
      SimpleCellValue(v.cells[i]);
    }
  }

  lemma CanonSizeFits(size: StructSize, cells: seq<Cell>)
    requires |cells| == size.Total()
    ensures CanonSize(size, cells).FitsInside(size)
  {
    hide TrimmedLen;
  }

  lemma SimpleCellValue(cell: Cell)
    requires SimpleCell(cell, true)
    ensures cell.Ref? && Simple(cell.value)
  {
  }

  lemma ListSource(mem: Mem, from: Addr, v: Value)
    requires v.Obj? && Simple(v) && !v.shape.StructShape? && ContentMeans(mem, v.shape, from, v.cells)
    ensures v.shape.ListShape? && Canon(v).Obj? && |Canon(v).cells| == |v.cells| == Words(v.shape)
    ensures if v.shape.element == Pointer then PtrSource(mem, from, 0, Words(v.shape), v.cells, 0, Canon(v).cells)
            else DataSource(mem, from, Words(v.shape), Canon(v).cells)
  {
    hide Canon, Denotes, SimpleCell, ListWords;
    CanonKind(v);
    forall i | 0 <= i < |v.cells|
      ensures v.shape.element != Pointer ==>
                InMem(mem, Slot(from, i)) && Canon(v).cells[i] == Data(At(mem, Slot(from, i)))
      ensures v.shape.element == Pointer ==> SourceSlot(mem, Slot(from, i), v.cells[i], Canon(v).cells[i])
    {
      assert CellAt(mem, Slot(from, i), v.cells[i], IsPtrSlot(v.shape, i), iset{});
      assert SimpleCell(v.cells[i], IsPtrSlot(v.shape, i));
      DataCell(v.cells[i]);
      RefCell(v.cells[i]);
      if v.shape.element == Pointer {
        SimpleCellValue(v.cells[i]);
      }
    }
  }

  lemma {:induction false} TrimmedLenIs(cells: seq<Cell>, lo: nat, hi: nat, m: nat)
    requires lo <= hi <= |cells| && m <= hi - lo
    requires m > 0 ==> !Blank(cells[lo + m - 1])
    requires forall i :: lo + m <= i < hi ==> Blank(cells[i])
    ensures TrimmedLen(cells, lo, hi) == m
    decreases hi
  {
    if lo + m < hi {
      TrimmedLenIs(cells, lo, hi - 1, m);
    }
  }

  /** A cell is blank where the word is null. */
  lemma BlankIsNull(mem: Mem, shape: Shape, start: Addr, cells: seq<Cell>)
    requires ContentMeans(mem, shape, start, cells)
    ensures |cells| == Words(shape)
    ensures forall i :: 0 <= i < |cells| ==>
              InMem(mem, Slot(start, i)) && (Blank(cells[i]) <==> At(mem, Slot(start, i)).IsNull())
  {
    hide Words, IsPtrSlot, Denotes;
    forall i | 0 <= i < |cells|
      ensures InMem(mem, Slot(start, i)) && (Blank(cells[i]) <==> At(mem, Slot(start, i)).IsNull())
    {
      assert CellAt(mem, Slot(start, i), cells[i], IsPtrSlot(shape, i), iset{});
      if cells[i].Ref? {
        NonNullMeaning(mem, Slot(start, i), cells[i].value, iset{});
      }
    }
  }

  lemma CanonIsLoose(v: Value)
    requires Simple(v)
    ensures Loose(Canon(v))
  {
    hide Simple, Canon, Whole, Loose;
    CanonSimple(v);
    SimpleIsWhole(Canon(v));
    WholeIsLoose(Canon(v));
  }

  /** The shape of the canonical form. */
  lemma CanonContent(v: Value)
    requires v.Obj? && Simple(v)
    ensures Canon(v).Obj? && |Canon(v).cells| == Words(Canon(v).shape) && ValidShape(Canon(v).shape)
    ensures LooseCells(Canon(v).cells)
    ensures v.shape.StructShape? ==> |v.cells| == v.shape.size.Total()
                                     && Canon(v).shape == StructShape(CanonSize(v.shape.size, v.cells))
    ensures !v.shape.StructShape? ==> Canon(v).shape == v.shape
  {
    hide Canon, LooseCells, SimpleCell, CanonSize;
    CanonKind(v);
    CanonSimple(v);
    CanonIsLoose(v);
    CellsAreLoose(Canon(v));
    if v.shape.StructShape? {
      CanonShape(v);
    }
  }

  /** Writing an object is allocating it and writing its cells. */
  lemma PutObject(v: Value, at: Addr, st: St)
    requires ValidSt(st) && InMem(st.mem, at) && Loose(v)
    requires v.Obj? && |v.cells| == Words(v.shape) && LooseCells(v.cells)
    ensures var r := AllocObject(st, at, v.shape);
            && (r.Failed? ==> PutPtr(v, at, st).failures == 1)
            && (r.Placed? ==>
                  && ValidSt(r.st) && HasBody(r.st.mem, r.start, |v.cells|)
                  && PutPtr(v, at, st).failures == PutCells(v.cells, r.start, r.st).failures
                  && PutPtr(v, at, st).st == PutCells(v.cells, r.start, r.st).st)
  {
    hide AllocObject, PutCells, LooseCells, Words;
    AllocObjectSafe(st, at, v.shape);
  }

  // ----- What a canonical copy is

  /** A fresh message of one segment that cannot grow: a null root pointer. */
  function FreshMessage(capacity: nat): St {
    St([[NULL]], [capacity], 0, [])
  }

  /** A simple tree in canonical form has room in a segment of that many words. */
  ghost predicate HasRoom(v: Value, capacity: nat) {
    Simple(v) && v.Obj? && SizeOf(Canon(v)).words + 1 <= capacity <= U29_MAX
  }

  /** The words of a canonical copy. */
  ghost function CanonicalWords(v: Value, capacity: nat): Mem
    requires HasRoom(v, capacity)
  {
    CanonIsLoose(v);
    PutPtr(Canon(v), Addr(0, 0), FreshMessage(capacity)).st.mem
  }

  /** A canonical copy fills one segment up to its size, and means the canonical form. */
  lemma CanonicalWordsMean(v: Value, capacity: nat)
    requires HasRoom(v, capacity)
    ensures var mem := CanonicalWords(v, capacity);
            && |mem| == 1 && |mem[0]| == 1 + SizeOf(Canon(v)).words
            && Means(mem, Addr(0, 0), Canon(v))
    ensures Loose(Canon(v)) && PutPtr(Canon(v), Addr(0, 0), FreshMessage(capacity)).failures == 0
  {
    hide Canon, PutPtr, Denotes, Simple, SizeOf, Loose, Whole;
    CanonIsLoose(v);
    CanonSimple(v);
    SimpleIsWhole(Canon(v));
    var st := FreshMessage(capacity);
    PutExact(Canon(v), Addr(0, 0), st);
    PutReads(Canon(v), Addr(0, 0), st);
    NothingLost(Canon(v), Addr(0, 0), st);
    var mem := PutPtr(Canon(v), Addr(0, 0), st).st.mem;
    AvoidBoth(mem, Addr(0, 0), Canon(v), AllWords(st.mem), AllWords(st.mem), iset{});
  }

  /**
   Canonical copies into fresh segments of one size are word for word identical exactly when their
   sources have the same meaning.
   */
  lemma SameWordsExactly(v: Value, w: Value, capacity: nat)
    requires HasRoom(v, capacity) && HasRoom(w, capacity)
    ensures CanonicalWords(v, capacity) == CanonicalWords(w, capacity) <==> SameMeaning(v, w)
  {
    hide Canon, PutPtr, Denotes, Simple, SizeOf, SameMeaning;
    CanonDecides(v, w);
    CanonicalWordsMean(v, capacity);
    CanonicalWordsMean(w, capacity);
    if CanonicalWords(v, capacity) == CanonicalWords(w, capacity) {
      MeaningIsUnique(CanonicalWords(v, capacity), Addr(0, 0), Canon(v), Canon(w), iset{}, iset{});
    }
  }

  /** Copying a canonical copy canonically gives the same words again. */
  lemma CopyingAgainChangesNothing(v: Value, capacity: nat)
    requires HasRoom(v, capacity)
    ensures HasRoom(Canon(v), capacity) && CanonicalWords(Canon(v), capacity) == CanonicalWords(v, capacity)
    ensures SameMeaning(v, Canon(v))
  {
    hide PutPtr, SizeOf, SameMeaning, Simple;
    CanonIdempotent(v);
    CanonSimple(v);
    CanonDecides(v, Canon(v));
  }

  /** A canonical copy into a fresh segment. */
  method CopyCanonical(src: Mem, at: Addr, capacity: nat, ghost v: Value) returns (arena: Arena, ok: bool)
    requires InMem(src, at) && Means(src, at, v) && v.Obj? && Simple(v) && 0 < capacity <= U29_MAX
    ensures arena.Valid() && fresh(arena.Repr)
    ensures HasRoom(v, capacity) ==> ok && arena.st.mem == CanonicalWords(v, capacity)
  {
    hide Canon, PutPtr, Denotes, Simple, SizeOf;
    arena := new Arena(capacity, []);
    var machine := new CanonicalMachine(src, arena);
    ok := machine.CopyPtr(at, Addr(0, 0), v);
    if HasRoom(v, capacity) {
      CanonicalWordsMean(v, capacity);
    }
  }
}
