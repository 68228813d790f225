/**
 `target_size`: the words and capabilities behind a pointer, and what that number is good for.
 */
module Sizing {
  import opened Wire
  import opened Reader
  import opened Values
  import opened Putting

  datatype MessageSize = MessageSize(words: nat, caps: nat) {
    function Plus(other: MessageSize): MessageSize {
      MessageSize(words + other.words, caps + other.caps)
    }
  }

  const NO_SIZE: MessageSize := MessageSize(0, 0)

  type Sized = Reading<MessageSize>

  /** `content` words around the targets that were sized. */
  function WithTargets(content: nat, targets: Sized): Sized {
    if targets.result.Err? then targets
    else Reading(Ok(MessageSize(content, 0).Plus(targets.result.value)), targets.lim)
  }

  /** `target_size`. */
  function TargetSize(mem: Mem, at: Addr, lim: Limiter, nest: nat): Sized
    requires InMem(mem, at)
    decreases nest, 1, 0
  {
    var r := TryReadTyped(mem, at, lim);
    if r.result.Err? then
      Reading(Err(r.result.error), r.lim)
    else if r.result.value.Capability? then
      Reading(Ok(MessageSize(0, 1)), r.lim)
    else
      ReaderSound(mem, at, lim);
      ObjectSize(mem, r.result.value.shape, r.result.value.start, r.lim, nest)
  }

  /** The sizes of an accepted object: only objects that can hold pointers count against the nesting limit. */
  function ObjectSize(mem: Mem, shape: Shape, start: Addr, lim: Limiter, nest: nat): Sized
    requires HasBody(mem, start, Words(shape))
    decreases nest, 0, 0
  {
    match shape
    case StructShape(size) =>
      if nest == 0 then Reading(Err(NestingLimitExceeded), lim)
      else WithTargets(size.Total(), PtrsSize(mem, Slot(start, size.data), size.ptrs, lim, nest - 1))
    case ListShape(element, count) =>
      if element != Pointer then Reading(Ok(MessageSize(Words(shape), 0)), lim)
      else if nest == 0 then Reading(Err(NestingLimitExceeded), lim)
      else WithTargets(Words(shape), PtrsSize(mem, start, count, lim, nest - 1))
    case CompositeShape(size, count) =>
      if nest == 0 then Reading(Err(NestingLimitExceeded), lim)
      else WithTargets(Words(shape) + 1, CompositesSize(mem, start, size, count, lim, nest - 1))
  }

  /** `total_ptrs_size` of the first `n` pointers from `start`. */
  function PtrsSize(mem: Mem, start: Addr, n: nat, lim: Limiter, nest: nat): Sized
    requires HasBody(mem, start, n)
    decreases nest, 2, n
  {
    if n == 0 then
      Reading(Ok(NO_SIZE), lim)
    else
      var before := PtrsSize(mem, start, n - 1, lim, nest);
      var slot := Slot(start, n - 1);
      if before.result.Err? || At(mem, slot).IsNull() then
        before
      else
        var target := TargetSize(mem, slot, before.lim, nest);
        if target.result.Err? then target
        else Reading(Ok(before.result.value.Plus(target.result.value)), target.lim)
  }

  /** `total_inline_composites_targets_size` of the first `n` elements. */
  function CompositesSize(mem: Mem, start: Addr, size: StructSize, n: nat, lim: Limiter, nest: nat): Sized
    requires HasBody(mem, start, Times(n, size))
    decreases nest, 3, n
  {
    if n == 0 then
      Reading(Ok(NO_SIZE), lim)
    else
      var before := CompositesSize(mem, start, size, n - 1, lim, nest);
      if before.result.Err? then
        before
      else
        var targets := ElementTargets(mem, start, size, n - 1, before.lim, nest);
        if targets.result.Err? then targets
        else Reading(Ok(before.result.value.Plus(targets.result.value)), targets.lim)
  }

  /** The targets of the pointers of element `index`. */
  function ElementTargets(mem: Mem, start: Addr, size: StructSize, index: nat, lim: Limiter, nest: nat): Sized
    requires HasBody(mem, start, Times(index + 1, size))
    decreases nest, 2, size.ptrs + 1
  {
    PtrsSize(mem, Slot(start, Times(index, size) + size.data), size.ptrs, lim, nest)
  }

  // ----- Accounting

  /** What was sized was charged. */
  predicate Charged(lim: Limiter, r: Sized) {
    && lim.AtLeast(r.lim)
    && (r.result.Ok? && lim.Limited? ==> r.result.value.words <= lim.Spent(r.lim))
  }

  /** The words reported never exceed the words charged, landing pads and amplification included. */
  lemma {:induction false} SizeIsCharged(mem: Mem, at: Addr, lim: Limiter, nest: nat)
    requires InMem(mem, at)
    ensures Charged(lim, TargetSize(mem, at, lim, nest))
    decreases nest, 1, 0
  {
    hide TryReadTyped, Words, ValidShape;
    ReaderSound(mem, at, lim);
    var r := TryReadTyped(mem, at, lim);
    if r.result.Ok? && r.result.value.Object? {
      var Object(shape, start) := r.result.value;
      ObjectIsCharged(mem, shape, start, r.lim, nest);
    }
  }

  lemma {:induction false} ObjectIsCharged(mem: Mem, shape: Shape, start: Addr, lim: Limiter, nest: nat)
    requires HasBody(mem, start, Words(shape))
    ensures var r := ObjectSize(mem, shape, start, lim, nest);
            && lim.AtLeast(r.lim)
            && (r.result.Ok? && lim.Limited? ==>
                  r.result.value.words <= Words(shape) + TagWords(Object(shape, start)) + lim.Spent(r.lim))
    decreases nest, 0, 0
  {
    hide ListWords, Times, PtrsSize, CompositesSize;
    if nest > 0 {
      match shape
      case StructShape(size) => PtrsAreCharged(mem, Slot(start, size.data), size.ptrs, lim, nest - 1);
      case ListShape(element, count) =>
        if element == Pointer {
          ListWordsAreBits(element, count);
          assert ListWords(Pointer, count) == count by { PointerWords(count); }
          PtrsAreCharged(mem, start, count, lim, nest - 1);
        }
      case CompositeShape(size, count) => CompositesAreCharged(mem, start, size, count, lim, nest - 1);
    }
  }

  lemma PointerWords(count: nat)
    ensures ListWords(Pointer, count) == count
  {
  }

  lemma {:induction false} PtrsAreCharged(mem: Mem, start: Addr, n: nat, lim: Limiter, nest: nat)
    requires HasBody(mem, start, n)
    ensures Charged(lim, PtrsSize(mem, start, n, lim, nest))
    decreases nest, 2, n
  {
    hide TargetSize;
    if n > 0 {
      PtrsAreCharged(mem, start, n - 1, lim, nest);
      var before := PtrsSize(mem, start, n - 1, lim, nest);
      SizeIsCharged(mem, Slot(start, n - 1), before.lim, nest);
    }
  }

  lemma {:induction false} CompositesAreCharged(mem: Mem, start: Addr, size: StructSize, n: nat, lim: Limiter,
                                                nest: nat)
    requires HasBody(mem, start, Times(n, size))
    ensures Charged(lim, CompositesSize(mem, start, size, n, lim, nest))
    decreases nest, 3, n
  {
    hide PtrsSize;
    if n > 0 {
      CompositesAreCharged(mem, start, size, n - 1, lim, nest);
      var before := CompositesSize(mem, start, size, n - 1, lim, nest);
      PtrsAreCharged(mem, Slot(start, Times(n - 1, size) + size.data), size.ptrs, before.lim, nest);
    }
  }

  // ----- The size of a meaning

  /** The words and capabilities a tree takes in a message, the pointer to it not included. */
  function SizeOf(v: Value): MessageSize
    decreases v
  {
    match v
    case Null => NO_SIZE
    case Cap(_) => MessageSize(0, 1)
    case Obj(shape, cells) =>
      MessageSize(Words(shape) + (if shape.CompositeShape? then 1 else 0), 0).Plus(SizeOfCells(cells))
  }

  function SizeOfCells(cells: seq<Cell>): MessageSize
    decreases cells
  {
    if |cells| == 0 then NO_SIZE
    else SizeOfCells(cells[..|cells| - 1]).Plus(SizeOfCell(cells[|cells| - 1]))
  }

  function SizeOfCell(cell: Cell): MessageSize
    decreases cell
  {
    match cell
    case Data(_) => NO_SIZE
    case Ref(value) => SizeOf(value)
  }

  lemma SizeOfSnoc(cells: seq<Cell>, cell: Cell)
    ensures SizeOfCells(cells + [cell]) == SizeOfCells(cells).Plus(SizeOfCell(cell))
  {
    hide SizeOfCell;
    assert (cells + [cell])[..|cells|] == cells;
  }

  lemma {:induction false} SizeOfConcat(a: seq<Cell>, b: seq<Cell>)
    ensures SizeOfCells(a + b) == SizeOfCells(a).Plus(SizeOfCells(b))
    decreases |b|
  {
    hide SizeOfCell, SizeOfCells;
    SizeOfNone();
    if |b| == 0 {
      assert a + b == a && b == [];
    } else {
      var last := |b| - 1;
      SizeOfConcat(a, b[..last]);
      SizeOfSnoc(a + b[..last], b[last]);
      SizeOfSnoc(b[..last], b[last]);
      assert a + b == a + b[..last] + [b[last]];
      assert b == b[..last] + [b[last]];
    }
  }

  lemma SizeOfNone()
    ensures SizeOfCells([]) == NO_SIZE
  {
  }

  /** The cells from `start` on mean what is there, pointers being where `shape` has them. */
  ghost predicate CellsMean(mem: Mem, start: Addr, cells: seq<Cell>, shape: Shape) {
    forall i :: 0 <= i < |cells| ==> CellAt(mem, Slot(start, i), cells[i], IsPtrSlot(shape, i), iset{})
  }

  const NO_POINTERS: Shape := ListShape(Byte, 0)
  const ALL_POINTERS: Shape := ListShape(Pointer, 0)

  lemma CellsMeanSnoc(mem: Mem, start: Addr, cells: seq<Cell>, cell: Cell, shape: Shape)
    requires CellsMean(mem, start, cells, shape)
    requires CellAt(mem, Slot(start, |cells|), cell, IsPtrSlot(shape, |cells|), iset{})
    ensures CellsMean(mem, start, cells + [cell], shape)
  {
    hide CellAt, IsPtrSlot;
  }

  lemma {:induction false} DataMeans(mem: Mem, start: Addr, n: nat) returns (cells: seq<Cell>)
    requires HasBody(mem, start, n)
    ensures |cells| == n && CellsMean(mem, start, cells, NO_POINTERS)
    ensures SizeOfCells(cells) == NO_SIZE
    decreases n
  {
    hide SizeOfCells, CellsMean, CellAt, IsPtrSlot;
    cells := [];
    NothingMeans(mem, start);
    if n > 0 {
      var before := DataMeans(mem, start, n - 1);
      var cell := Data(At(mem, Slot(start, n - 1)));
      WordMeans(mem, Slot(start, n - 1), n - 1);
      CellsMeanSnoc(mem, start, before, cell, NO_POINTERS);
      SizeOfSnoc(before, cell);
      cells := before + [cell];
    }
  }

  lemma NothingMeans(mem: Mem, start: Addr)
    ensures CellsMean(mem, start, [], NO_POINTERS) && SizeOfCells([]) == NO_SIZE
  {
  }

  lemma WordMeans(mem: Mem, at: Addr, i: nat)
    requires InMem(mem, at)
    ensures CellAt(mem, at, Data(At(mem, at)), IsPtrSlot(NO_POINTERS, i), iset{})
  {
  }

  /** A pointer that was sized has a meaning, and the reported size is the size of that meaning. */
  lemma {:induction false} SizedMeans(mem: Mem, at: Addr, nest: nat) returns (v: Value)
    requires InMem(mem, at) && !At(mem, at).IsNull()
    requires TargetSize(mem, at, Unlimited, nest).result.Ok?
    ensures Means(mem, at, v) && SizeOf(v) == TargetSize(mem, at, Unlimited, nest).result.value
    decreases nest, 1, 0
  {
    hide TryReadTyped, Words, IsPtrSlot, ObjectSize, Denotes, CellsMean, ValidShape;
    ReaderSound(mem, at, Unlimited);
    match Resolve(mem, at).value
    case Capability(index) =>
      v := Cap(index);
      CapMeans(mem, at, index);
    case Object(shape, start) =>
      var cells := ObjectCells(mem, shape, start, nest);
      v := Obj(shape, cells);
      ObjectMeans(mem, at, shape, start, cells);
  }

  lemma CapMeans(mem: Mem, at: Addr, index: u32)
    requires InMem(mem, at) && !At(mem, at).IsNull() && Resolve(mem, at) == Ok(Capability(index))
    ensures Means(mem, at, Cap(index))
  {
    hide TryReadTyped, Pads;
  }

  lemma ObjectMeans(mem: Mem, at: Addr, shape: Shape, start: Addr, cells: seq<Cell>)
    requires InMem(mem, at) && !At(mem, at).IsNull() && Resolve(mem, at) == Ok(Object(shape, start))
    requires |cells| == Words(shape) && CellsMean(mem, start, cells, shape)
    ensures Means(mem, at, Obj(shape, cells))
  {
    hide TryReadTyped, Words, IsPtrSlot, CellAt, Pads, Tags;
  }

  lemma SamePattern(mem: Mem, start: Addr, cells: seq<Cell>, shape: Shape, shape': Shape)
    requires CellsMean(mem, start, cells, shape)
    requires forall i :: 0 <= i < |cells| ==> IsPtrSlot(shape, i) == IsPtrSlot(shape', i)
    ensures CellsMean(mem, start, cells, shape')
  {
    hide CellAt, IsPtrSlot;
  }

  /** The size of an object is its own words and those of its targets. */
  predicate SizedWith(total: Sized, words: nat, targets: MessageSize) {
    total.result.Ok? && total.result.value == MessageSize(words, 0).Plus(targets)
  }

  lemma StructSized(mem: Mem, size: StructSize, start: Addr, nest: nat)
    requires HasBody(mem, start, size.Total())
    requires ObjectSize(mem, StructShape(size), start, Unlimited, nest).result.Ok?
    ensures nest > 0 && PtrsSize(mem, Slot(start, size.data), size.ptrs, Unlimited, nest - 1).result.Ok?
    ensures SizedWith(ObjectSize(mem, StructShape(size), start, Unlimited, nest), size.Total(),
                      PtrsSize(mem, Slot(start, size.data), size.ptrs, Unlimited, nest - 1).result.value)
  {
    hide PtrsSize;
  }

  lemma PointersSized(mem: Mem, count: u29, start: Addr, nest: nat)
    requires HasBody(mem, start, Words(ListShape(Pointer, count))) && HasBody(mem, start, count)
    requires ObjectSize(mem, ListShape(Pointer, count), start, Unlimited, nest).result.Ok?
    ensures nest > 0 && PtrsSize(mem, start, count, Unlimited, nest - 1).result.Ok?
    ensures SizedWith(ObjectSize(mem, ListShape(Pointer, count), start, Unlimited, nest), count,
                      PtrsSize(mem, start, count, Unlimited, nest - 1).result.value)
  {
    hide PtrsSize, ListWords;
    PointerWords(count);
  }

  lemma CompositesSized(mem: Mem, size: StructSize, count: u29, start: Addr, nest: nat)
    requires HasBody(mem, start, Times(count, size))
    requires ObjectSize(mem, CompositeShape(size, count), start, Unlimited, nest).result.Ok?
    ensures nest > 0 && CompositesSize(mem, start, size, count, Unlimited, nest - 1).result.Ok?
    ensures SizedWith(ObjectSize(mem, CompositeShape(size, count), start, Unlimited, nest), Times(count, size) + 1,
                      CompositesSize(mem, start, size, count, Unlimited, nest - 1).result.value)
  {
    hide CompositesSize, Times;
  }

  lemma PlainSized(mem: Mem, element: PtrElementSize, count: u29, start: Addr, nest: nat)
    requires HasBody(mem, start, ListWords(element, count)) && element != Pointer
    requires ObjectSize(mem, ListShape(element, count), start, Unlimited, nest).result.Ok?
    ensures SizedWith(ObjectSize(mem, ListShape(element, count), start, Unlimited, nest), ListWords(element, count),
                      NO_SIZE)
  {
    hide ListWords;
  }

  lemma {:induction false} ObjectCells(mem: Mem, shape: Shape, start: Addr, nest: nat) returns (cells: seq<Cell>)
    requires HasBody(mem, start, Words(shape))
    requires ObjectSize(mem, shape, start, Unlimited, nest).result.Ok?
    ensures |cells| == Words(shape)
    ensures CellsMean(mem, start, cells, shape)
    ensures ObjectSize(mem, shape, start, Unlimited, nest).result.value
         == MessageSize(Words(shape) + (if shape.CompositeShape? then 1 else 0), 0).Plus(SizeOfCells(cells))
    decreases nest, 0, 0
  {
    hide ObjectSize, PtrsSize, CompositesSize, SizeOfCells, CellsMean, Times, IsPtrOfStructs, ListWords, HasBody;
    match shape
    case StructShape(size) =>
      StructSized(mem, size, start, nest);
      cells := StructCells(mem, start, size, nest - 1);
    case ListShape(element, count) =>
      if element == Pointer {
        PointerWords(count);
        PointersSized(mem, count, start, nest);
        cells := PtrsMean(mem, start, count, nest - 1);
        SamePattern(mem, start, cells, ALL_POINTERS, shape);
      } else {
        PlainSized(mem, element, count, start, nest);
        cells := DataMeans(mem, start, Words(shape));
        SamePattern(mem, start, cells, NO_POINTERS, shape);
      }
    case CompositeShape(size, count) =>
      CompositesSized(mem, size, count, start, nest);
      cells := CompositesMean(mem, start, size, count, nest - 1);
      SamePattern(mem, start, cells, CompositeShape(size, 0), shape);
  }

  lemma JoinedCells(mem: Mem, start: Addr, a: seq<Cell>, b: seq<Cell>, pattern: Shape, shape: Shape)
    requires CellsMean(mem, start, a, shape)
    requires CellsMean(mem, Slot(start, |a|), b, pattern)
    requires forall i :: |a| <= i < |a| + |b| ==> IsPtrSlot(shape, i) == IsPtrSlot(pattern, i - |a|)
    ensures CellsMean(mem, start, a + b, shape)
    ensures SizeOfCells(a + b) == SizeOfCells(a).Plus(SizeOfCells(b))
  {
    hide CellAt, IsPtrSlot, SizeOfCells;
    SizeOfConcat(a, b);
    forall i | 0 <= i < |a + b|
      ensures CellAt(mem, Slot(start, i), (a + b)[i], IsPtrSlot(shape, i), iset{})
    {
      if i >= |a| {
        assert CellAt(mem, Slot(Slot(start, |a|), i - |a|), b[i - |a|], IsPtrSlot(pattern, i - |a|), iset{});
        assert Slot(Slot(start, |a|), i - |a|) == Slot(start, i);
      }
    }
  }

  lemma {:induction false} StructCells(mem: Mem, start: Addr, size: StructSize, nest: nat) returns (cells: seq<Cell>)
    requires HasBody(mem, start, size.Total())
    requires PtrsSize(mem, Slot(start, size.data), size.ptrs, Unlimited, nest).result.Ok?
    ensures |cells| == size.Total()
    ensures CellsMean(mem, start, cells, StructShape(size))
    ensures SizeOfCells(cells) == PtrsSize(mem, Slot(start, size.data), size.ptrs, Unlimited, nest).result.value
    decreases nest, 3, 0
  {
    hide PtrsSize, SizeOfCells, CellsMean;
    var data := DataMeans(mem, start, size.data);
    var ptrs := PtrsMean(mem, Slot(start, size.data), size.ptrs, nest);
    cells := data + ptrs;
    SamePattern(mem, start, data, NO_POINTERS, StructShape(size));
    JoinedCells(mem, start, data, ptrs, ALL_POINTERS, StructShape(size));
  }

  lemma {:induction false} PtrsMean(mem: Mem, start: Addr, n: nat, nest: nat) returns (cells: seq<Cell>)
    requires HasBody(mem, start, n)
    requires PtrsSize(mem, start, n, Unlimited, nest).result.Ok?
    ensures |cells| == n && CellsMean(mem, start, cells, ALL_POINTERS)
    ensures SizeOfCells(cells) == PtrsSize(mem, start, n, Unlimited, nest).result.value
    decreases nest, 2, n
  {
    hide TargetSize, Denotes, CellsMean;
    cells := [];
    if n == 0 {
      EmptyMeans(mem, start, ALL_POINTERS);
    } else {
      var slot := Slot(start, n - 1);
      PtrsAreCharged(mem, start, n - 1, Unlimited, nest);
      var before := PtrsMean(mem, start, n - 1, nest);
      var v := Null;
      if !At(mem, slot).IsNull() {
        v := SizedMeans(mem, slot, nest);
      } else {
        NullIsSized(mem, slot);
      }
      cells := before + [Ref(v)];
      CellsMeanSnoc(mem, start, before, Ref(v), ALL_POINTERS);
      SizeOfSnoc(before, Ref(v));
      hide SizeOfCells, SizeOf;
    }
  }

  lemma EmptyMeans(mem: Mem, start: Addr, shape: Shape)
    ensures CellsMean(mem, start, [], shape)
    ensures SizeOfCells([]) == NO_SIZE
  {
  }

  lemma NullIsSized(mem: Mem, at: Addr)
    requires InMem(mem, at) && At(mem, at).IsNull()
    ensures Means(mem, at, Null) && SizeOf(Null) == NO_SIZE
  {
  }

  lemma CompositesStep(mem: Mem, start: Addr, size: StructSize, n: nat, nest: nat)
    requires n > 0 && HasBody(mem, start, Times(n, size))
    requires CompositesSize(mem, start, size, n, Unlimited, nest).result.Ok?
    ensures HasBody(mem, start, Times(n - 1, size))
    ensures var before := CompositesSize(mem, start, size, n - 1, Unlimited, nest);
            var targets := ElementTargets(mem, start, size, n - 1, Unlimited, nest);
            && before.result.Ok? && targets.result.Ok?
            && CompositesSize(mem, start, size, n, Unlimited, nest).result.value
               == before.result.value.Plus(targets.result.value)
  {
    hide ElementTargets, PtrsSize;
    CompositesAreCharged(mem, start, size, n - 1, Unlimited, nest);
  }

  lemma {:induction false} ElementCells(mem: Mem, start: Addr, size: StructSize, index: nat, nest: nat)
    returns (cells: seq<Cell>)
    requires HasBody(mem, start, Times(index + 1, size))
    requires ElementTargets(mem, start, size, index, Unlimited, nest).result.Ok?
    ensures |cells| == size.Total()
    ensures CellsMean(mem, Slot(start, Times(index, size)), cells, StructShape(size))
    ensures SizeOfCells(cells) == ElementTargets(mem, start, size, index, Unlimited, nest).result.value
    decreases nest, 4, 0
  {
    hide TargetSize, CellsMean, SizeOfCells;
    var base := Times(index, size);
    assert Slot(Slot(start, base), size.data) == Slot(start, base + size.data);
    cells := StructCells(mem, Slot(start, base), size, nest);
  }

  lemma ElementPattern(index: nat, size: StructSize)
    ensures var base := Times(index, size);
            forall i :: base <= i < base + size.Total() ==>
              IsPtrSlot(CompositeShape(size, 0), i) == IsPtrSlot(StructShape(size), i - base)
  {
    var base := Times(index, size);
    forall i | base <= i < base + size.Total()
      ensures IsPtrSlot(CompositeShape(size, 0), i) == IsPtrSlot(StructShape(size), i - base)
    {
      SlotOfElement(index, size, i - base);
    }
  }

  /** The cells of the first elements, followed by those of the next one. */
  lemma CompositesJoin(mem: Mem, start: Addr, size: StructSize, n: nat, nest: nat, before: seq<Cell>,
                       element: seq<Cell>)
    requires n > 0 && HasBody(mem, start, Times(n, size))
    requires CompositesSize(mem, start, size, n, Unlimited, nest).result.Ok?
    requires |before| == Times(n - 1, size) && CellsMean(mem, start, before, CompositeShape(size, 0))
    requires |element| == size.Total()
    requires CellsMean(mem, Slot(start, Times(n - 1, size)), element, StructShape(size))
    requires HasBody(mem, start, Times(n - 1, size))
    requires var count := CompositesSize(mem, start, size, n - 1, Unlimited, nest);
             count.result.Ok? && SizeOfCells(before) == count.result.value
    requires var targets := ElementTargets(mem, start, size, n - 1, Unlimited, nest);
             targets.result.Ok? && SizeOfCells(element) == targets.result.value
    ensures |before + element| == Times(n, size)
    ensures CellsMean(mem, start, before + element, CompositeShape(size, 0))
    ensures SizeOfCells(before + element) == CompositesSize(mem, start, size, n, Unlimited, nest).result.value
  {
    hide ElementTargets, CompositesSize, CellsMean, SizeOfCells, IsPtrSlot, Times;
    CompositesStep(mem, start, size, n, nest);
    TimesStep(n, size);
    ElementPattern(n - 1, size);
    JoinedCells(mem, start, before, element, StructShape(size), CompositeShape(size, 0));
  }

  lemma {:induction false} CompositesMean(mem: Mem, start: Addr, size: StructSize, n: nat, nest: nat)
    returns (cells: seq<Cell>)
    requires HasBody(mem, start, Times(n, size))
    requires CompositesSize(mem, start, size, n, Unlimited, nest).result.Ok?
    ensures |cells| == Times(n, size)
    ensures CellsMean(mem, start, cells, CompositeShape(size, 0))
    ensures SizeOfCells(cells) == CompositesSize(mem, start, size, n, Unlimited, nest).result.value
    decreases nest, 5, n
  {
    hide ElementTargets, CompositesSize, CellsMean, SizeOfCells, IsPtrSlot, Times, HasBody;
    cells := [];
    if n == 0 {
      NoComposites(mem, start, size, nest);
    } else {
      CompositesStep(mem, start, size, n, nest);
      TimesStep(n, size);
      var before := CompositesMean(mem, start, size, n - 1, nest);
      var element := ElementCells(mem, start, size, n - 1, nest);
      CompositesJoin(mem, start, size, n, nest, before, element);
      cells := before + element;
    }
  }

  lemma NoComposites(mem: Mem, start: Addr, size: StructSize, nest: nat)
    ensures Times(0, size) == 0 && HasBody(mem, start, Times(0, size))
    ensures CellsMean(mem, start, [], CompositeShape(size, 0))
    ensures CompositesSize(mem, start, size, 0, Unlimited, nest).result == Ok(SizeOfCells([]))
  {
    hide IsPtrSlot;
  }

  lemma TimesStep(n: nat, size: StructSize)
    requires n > 0
    ensures Times(n, size) == Times(n - 1, size) + size.Total()
  {
  }

  // ----- The loops of the source

  /** `target_size`, with the accumulating loops of the source below it. */
  method ComputeTargetSize(mem: Mem, at: Addr, lim: Limiter, nest: nat) returns (r: Sized)
    requires InMem(mem, at)
    ensures r == TargetSize(mem, at, lim, nest)
    decreases nest, 1, 0
  {
    hide TryReadTyped, Words, ValidShape, ObjectSize;
    ReaderSound(mem, at, lim);
    var reading := TryReadTyped(mem, at, lim);
    match reading.result
    case Err(error) => r := Reading(Err(error), reading.lim);
    case Ok(Capability(_)) => r := Reading(Ok(MessageSize(0, 1)), reading.lim);
    case Ok(Object(shape, start)) => r := ComputeObjectSize(mem, shape, start, reading.lim, nest);
  }

  method ComputeObjectSize(mem: Mem, shape: Shape, start: Addr, lim: Limiter, nest: nat) returns (r: Sized)
    requires HasBody(mem, start, Words(shape))
    ensures r == ObjectSize(mem, shape, start, lim, nest)
    decreases nest, 0, 0
  {
    hide PtrsSize, CompositesSize, ListWords, Times;
    if shape.ListShape? && shape.element != Pointer {
      return Reading(Ok(MessageSize(Words(shape), 0)), lim);
    }
    if nest == 0 {
      return Reading(Err(NestingLimitExceeded), lim);
    }
    match shape
    case StructShape(size) =>
      var targets := ComputePtrsSize(mem, Slot(start, size.data), size.ptrs, lim, nest - 1);
      r := WithTargets(size.Total(), targets);
    case ListShape(_, count) =>
      PointerWords(count);
      var targets := ComputePtrsSize(mem, start, count, lim, nest - 1);
      r := WithTargets(Words(shape), targets);
    case CompositeShape(size, count) =>
      var targets := ComputeCompositesSize(mem, start, size, count, lim, nest - 1);
      r := WithTargets(Words(shape) + 1, targets);
  }

  method ComputePtrsSize(mem: Mem, start: Addr, n: nat, lim: Limiter, nest: nat) returns (r: Sized)
    requires HasBody(mem, start, n)
    ensures r == PtrsSize(mem, start, n, lim, nest)
    decreases nest, 2, n
  {
    hide TargetSize;
    var total, left := NO_SIZE, lim;
    for i := 0 to n
      invariant PtrsSize(mem, start, i, lim, nest) == Reading(Ok(total), left)
    {
      if !At(mem, Slot(start, i)).IsNull() {
        var target := ComputeTargetSize(mem, Slot(start, i), left, nest);
        if target.result.Err? {
          PtrsSizeFails(mem, start, i + 1, n, lim, nest);
          return target;
        }
        total, left := total.Plus(target.result.value), target.lim;
      }
    }
    r := Reading(Ok(total), left);
  }

  lemma {:induction false} PtrsSizeFails(mem: Mem, start: Addr, i: nat, n: nat, lim: Limiter, nest: nat)
    requires i <= n && HasBody(mem, start, n) && PtrsSize(mem, start, i, lim, nest).result.Err?
    ensures PtrsSize(mem, start, n, lim, nest) == PtrsSize(mem, start, i, lim, nest)
  {
    hide TargetSize;
    if i < n {
      PtrsSizeFails(mem, start, i, n - 1, lim, nest);
    }
  }

  method ComputeCompositesSize(mem: Mem, start: Addr, size: StructSize, n: nat, lim: Limiter,
                               nest: nat) returns (r: Sized)
    requires HasBody(mem, start, Times(n, size))
    ensures r == CompositesSize(mem, start, size, n, lim, nest)
    decreases nest, 3, n
  {
    hide PtrsSize;
    var total, left := NO_SIZE, lim;
    for i := 0 to n
      invariant Times(i, size) <= Times(n, size)
      invariant CompositesSize(mem, start, size, i, lim, nest) == Reading(Ok(total), left)
    {
      TimesMonotone(i + 1, n, size);
      var targets := ComputePtrsSize(mem, Slot(start, Times(i, size) + size.data), size.ptrs, left, nest);
      if targets.result.Err? {
        CompositesSizeFails(mem, start, size, i + 1, n, lim, nest);
        return targets;
      }
      total, left := total.Plus(targets.result.value), targets.lim;
    }
    r := Reading(Ok(total), left);
  }

  lemma {:induction false} CompositesSizeFails(mem: Mem, start: Addr, size: StructSize, i: nat, n: nat, lim: Limiter,
                                               nest: nat)
    requires i <= n && Times(i, size) <= Times(n, size) && HasBody(mem, start, Times(n, size))
    requires CompositesSize(mem, start, size, i, lim, nest).result.Err?
    ensures CompositesSize(mem, start, size, n, lim, nest) == CompositesSize(mem, start, size, i, lim, nest)
  {
    hide PtrsSize;
    if i < n {
      TimesMonotone(i, n - 1, size);
      CompositesSizeFails(mem, start, size, i, n - 1, lim, nest);
    }
  }
}
