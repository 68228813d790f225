/**
 Size prediction: what `target_size` reports is exactly what a copy into one segment uses.
 */
module Prediction {
  import opened Wire
  import opened Reader
  import opened Values
  import opened Layout
  import opened Putting
  import opened Fitting
  import opened Copying
  import opened DeepCopy
  import opened Sizing
  import opened ArenaHeap
  import opened Machine

  function Room(st: St, seg: nat): int
    requires seg < |st.mem| && |st.mem| == |st.caps|
  {
    st.caps[seg] - |st.mem[seg]|
  }

  /** Segment `seg` grew by `n` words and nothing else was allocated. */
  ghost predicate GrewBy(st: St, st': St, seg: nat, n: nat) {
    && seg < |st.mem|
    && st'.caps == st.caps && st'.last == st.last && st'.plan == st.plan
    && |st'.mem| == |st.mem|
    && |st'.mem[seg]| == |st.mem[seg]| + n
    && forall s :: 0 <= s < |st.mem| && s != seg ==> |st'.mem[s]| == |st.mem[s]|
  }

  function ObjectWords(shape: Shape): nat {
    Words(shape) + (if shape.CompositeShape? then 1 else 0)
  }

  lemma NearGrowth(st: St, at: Addr, shape: Shape, n: nat)
    requires ValidSt(st) && InMem(st.mem, at) && 0 < ObjectTotal(shape) == n <= Room(st, at.seg)
    requires n <= U29_MAX
    ensures var here := TryUse(st, at.seg, n);
            && here.Room? && here.at.seg == at.seg && ValidSt(here.st)
            && InMem(here.st.mem, here.at) && InMem(here.st.mem, at)
            && GrewBy(st, PlaceNear(here.st, at, shape, here.at), at.seg, n)
            && InMem(PlaceNear(here.st, at, shape, here.at).mem, here.at)
  {
    hide PointerWord, ObjectTotal;
    TryUseGood(st, at.seg, n);
  }

  lemma AllocExact(st: St, at: Addr, shape: Shape)
    requires ValidSt(st) && InMem(st.mem, at) && ValidShape(shape)
    requires ObjectWords(shape) <= Room(st, at.seg)
    ensures var r := AllocObject(st, at, shape);
            && r.Placed?
            && GrewBy(st, r.st, at.seg, ObjectWords(shape))
            && r.start.seg == at.seg
  {
    hide PlaceNear, TryUse, ListWords, Times, EncodeStruct, EncodeList, EncodeTag, SetWord;
    var n := ObjectWords(shape);
    if !shape.StructShape? {
      ListShapeTotal(shape);
    }
    if n > 0 {
      NearGrowth(st, at, shape, n);
      var here := TryUse(st, at.seg, n);
      if shape.CompositeShape? {
        SetWordGrowth(PlaceNear(here.st, at, shape, here.at), here.at, EncodeTag(shape.count, shape.size));
      }
    } else if shape.StructShape? {
      SetWordGrowth(st, at, EncodeStruct(-1, EMPTY));
    } else {
      SetWordGrowth(st, at, EncodeList(0, ElementOf(shape), shape.count));
    }
  }

  lemma ListShapeTotal(shape: Shape)
    requires ValidShape(shape) && !shape.StructShape?
    ensures ObjectTotal(shape) == ObjectWords(shape) <= U29_MAX
  {
    hide Times, ListWords;
    if shape.ListShape? {
      ListWordsAreBits(shape.element, shape.count);
    }
  }

  /** With room for its size, a tree is written completely and takes exactly that much. */
  lemma {:induction false} PutExact(v: Value, at: Addr, st: St)
    requires ValidSt(st) && InMem(st.mem, at) && Loose(v)
    requires SizeOf(v).words <= Room(st, at.seg)
    ensures var r := PutPtr(v, at, st);
            r.failures == 0 && GrewBy(st, r.st, at.seg, SizeOf(v).words)
    decreases v
  {
    hide AllocObject, SetWord, Words, ValidShape, IsPtrSlot, EncodeCapability;
    match v
    case Null =>
    case Cap(index) => SetWordGood(st, at, EncodeCapability(index)); SetWordGrowth(st, at, EncodeCapability(index));
    case Obj(shape, cells) =>
      AllocObjectSafe(st, at, shape);
      AllocExact(st, at, shape);
      CellsAreLoose(v);
      var r := AllocObject(st, at, shape);
      PutCellsExact(cells, r.start, r.st, at.seg);
  }

  lemma SetWordGrowth(st: St, at: Addr, w: Word)
    requires InMem(st.mem, at)
    ensures GrewBy(st, SetWord(st, at, w), at.seg, 0)
  {
  }

  lemma {:induction false} PutCellsExact(cells: seq<Cell>, start: Addr, st: St, seg: nat)
    requires ValidSt(st) && HasBody(st.mem, start, |cells|) && LooseCells(cells)
    requires start.seg == seg < |st.mem|
    requires SizeOfCells(cells).words <= Room(st, seg)
    ensures var r := PutCells(cells, start, st);
            r.failures == 0 && GrewBy(st, r.st, seg, SizeOfCells(cells).words)
    decreases cells
  {
    hide PutCell, SizeOfCell;
    if |cells| > 0 {
      var last := |cells| - 1;
      PutCellsExact(cells[..last], start, st, seg);
      var before := PutCells(cells[..last], start, st);
      PutCellExact(cells[last], Slot(start, last), before.st);
    }
  }

  lemma {:induction false} PutCellExact(cell: Cell, at: Addr, st: St)
    requires ValidSt(st) && InMem(st.mem, at) && LooseCell(cell, cell.Ref?)
    requires SizeOfCell(cell).words <= Room(st, at.seg)
    ensures var r := PutCell(cell, at, st);
            r.failures == 0 && GrewBy(st, r.st, at.seg, SizeOfCell(cell).words)
    decreases cell
  {
    hide PutPtr, SetWord;
    match cell
    case Data(word) => SetWordGrowth(st, at, word);
    case Ref(value) => PutExact(value, at, st);
  }

  // ----- A copy takes no more than the meaning of its source

  lemma {:induction false} TakenIsSmaller(src: Mem, caps: CapTable, at: Addr, t: Value, v: Value)
    requires Copied(src, caps, at, t, Truncated) && Means(src, at, v) && v != Null
    ensures SizeOf(t).words <= SizeOf(v).words
    decreases t
  {
    hide Resolve, Words, IsPtrSlot, Pads, Tags;
    if t.Obj? {
      CellsTakenAreSmaller(src, caps, t.shape, Resolve(src, at).value.start, t.cells, v.cells);
    }
  }

  lemma {:induction false} CellsTakenAreSmaller(src: Mem, caps: CapTable, shape: Shape, start: Addr, cells: seq<Cell>,
                                                meaning: seq<Cell>)
    requires |cells| <= |meaning|
    requires CopiedCells(src, caps, shape, start, cells, 0, Truncated)
    requires CellsMean(src, start, meaning, shape)
    ensures SizeOfCells(cells).words <= SizeOfCells(meaning).words
    decreases cells, |meaning|
  {
    hide CopiedCell, CellAt, IsPtrSlot, SizeOfCell;
    var n := |meaning|;
    if |cells| < n {
      CellsTakenAreSmaller(src, caps, shape, start, cells, meaning[..n - 1]);
    } else if n > 0 {
      CellsTakenAreSmaller(src, caps, shape, start, cells[..n - 1], meaning[..n - 1]);
      CellTakenIsSmaller(src, caps, Slot(start, n - 1), cells[n - 1], meaning[n - 1], IsPtrSlot(shape, n - 1));
    }
  }

  lemma {:induction false} CellTakenIsSmaller(src: Mem, caps: CapTable, at: Addr, cell: Cell, meaning: Cell,
                                              isPtr: bool)
    requires CopiedCell(src, caps, at, cell, isPtr, Truncated) && CellAt(src, at, meaning, isPtr, iset{})
    ensures SizeOfCell(cell).words <= SizeOfCell(meaning).words
    decreases cell
  {
    hide Copied, Denotes;
    if cell.Ref? && !Reader.At(src, at).IsNull() {
      NonNullMeaning(src, at, meaning.value, iset{});
      TakenIsSmaller(src, caps, at, cell.value, meaning.value);
    }
  }

  lemma {:induction false} CellIsSmaller(cells: seq<Cell>, i: nat)
    requires i < |cells|
    ensures SizeOfCell(cells[i]).words <= SizeOfCells(cells).words
  {
    hide SizeOfCell;
    if i < |cells| - 1 {
      CellIsSmaller(cells[..|cells| - 1], i);
    }
  }

  /** What is smaller than a segment has no list that fills one: all of it can be read back. */
  lemma {:induction false} SmallFits(mem: Mem, at: Addr, v: Value)
    requires Means(mem, at, v) && SizeOf(v).words < U29_MAX
    ensures AllFit(v)
    decreases v
  {
    hide Resolve, IsPtrSlot, Pads, Tags, ListWords, Times, SizeOfCells;
    if v.Obj? {
      ReadShape(mem, at, v);
      forall i | 0 <= i < |v.cells|
        ensures CellFits(v.cells[i])
      {
        assert CellAt(mem, Slot(Resolve(mem, at).value.start, i), v.cells[i], IsPtrSlot(v.shape, i), iset{});
        CellIsSmaller(v.cells, i);
        if v.cells[i].Ref? {
          SmallFits(mem, Slot(Resolve(mem, at).value.start, i), v.cells[i].value);
        }
      }
    }
  }

  lemma ReadShape(mem: Mem, at: Addr, v: Value)
    requires v.Obj? && InMem(mem, at) && Resolve(mem, at).Ok?
    requires Resolve(mem, at).value.Object? && Resolve(mem, at).value.shape == v.shape
    ensures ValidShape(v.shape)
  {
    hide TryReadTyped;
    ReaderSound(mem, at, Unlimited);
  }

  function NeverNull(i: u32): CapCopy {
    CopiedAs(i)
  }

  /**
   `ptr_to_slice`: size the value, allocate exactly that and a root word, copy. The copy meets no error,
   so the handler that would panic is never called; it fills the segment to the last word; and what is
   read from the segment is what was read from the source.
   */
  method PtrToSlice(src: Mem, at: Addr, nest: nat) returns (arena: Arena)
    requires InMem(src, at) && !At(src, at).IsNull()
    requires TargetSize(src, at, Unlimited, nest).result.Ok?
    requires var size := TargetSize(src, at, Unlimited, nest).result.value; size.caps == 0 && size.words < U29_MAX
    ensures arena.Valid() && fresh(arena.Repr)
    ensures |arena.st.mem| == 1 && |arena.st.mem[0]| == arena.st.caps[0]
    ensures arena.st.caps == [TargetSize(src, at, Unlimited, nest).result.value.words + 1]
    ensures exists v :: Means(src, at, v) && Means(arena.st.mem, Addr(0, 0), v)
    ensures forall v :: Means(src, at, v) ==> Means(arena.st.mem, Addr(0, 0), v)
  {
    hide TargetSize, Copied, PutPtr, Denotes, SizeOf, Acyclic, AllFit;
    var sized := ComputeTargetSize(src, at, Unlimited, nest);
    arena := new Arena(sized.result.value.words + 1, []);
    var machine := new CopyMachine(src, NeverNull, k => false, arena, Unlimited);
    ghost var v := SizedMeans(src, at, nest);
    NonNullMeaning(src, at, v, iset{});
    SmallFits(src, at, v);
    ghost var fuel := MeaningEnds(src, at, v);
    ghost var st0 := arena.st;
    assert Sound(src, NeverNull, at);
    var broke;
    ghost var t;
    broke, t := TryCopyFrom(machine, at, Addr(0, 0), fuel);
    TakenIsSmaller(src, NeverNull, at, t, v);
    PutExact(t, Addr(0, 0), st0);
    ExactCopyMeans(src, NeverNull, at, t);
    RenamedSame(Original(src, at, t), NeverNull);
    MeaningIsUnique(src, at, t, v, iset{}, iset{});
    forall w | Means(src, at, w)
      ensures Means(arena.st.mem, Addr(0, 0), w)
    {
      MeaningIsUnique(src, at, w, v, iset{}, iset{});
      AvoidBoth(arena.st.mem, Addr(0, 0), w, AllWords(st0.mem), AllWords(st0.mem), iset{});
    }
  }
}
