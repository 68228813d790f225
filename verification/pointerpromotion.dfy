/**
 In-place promotion of a list of pointers, or of a list of nothing, to a list of structs.

 `promote_list` moves the pointers of a list one behind the other to the start of the new one, whatever the
 size of its structs. So a pointer arrives where its struct has it only when the structs are nothing but
 one pointer, or when there is nothing to move apart.
 */
module PointerPromotion {
  import opened Wire
  import opened Reader
  import opened Values
  import opened Layout
  import opened Putting
  import opened Promotion
  import opened ListPromotion

  predicate IsPointerList(mem: Mem, at: Addr, count: u29, start: Addr) {
    InMem(mem, at) && Resolve(mem, at) == Ok(Object(ListShape(Pointer, count), start))
  }

  lemma PointersInside(mem: Mem, at: Addr, count: u29, start: Addr)
    requires IsPointerList(mem, at, count, start)
    ensures HasBody(mem, start, count) && Body(start, count) <= AllWords(mem)
    ensures start.seg < |mem| && start.off + count <= |mem[start.seg]|
  {
    hide TryReadTyped;
    ReaderSound(mem, at, Unlimited);
  }

  /**
   A list of pointers that is held by one pointer only: the pointer, its pads and the list are apart, and
   nothing the pointers of the list refer to looks at them.
   */
  ghost predicate HeldPointers(mem: Mem, at: Addr, count: u29, start: Addr, values: seq<Value>, avoid: iset<Addr>) {
    && IsPointerList(mem, at, count, start) && |values| == count && avoid <= AllWords(mem)
    && at !in Body(start, count)
    && (forall a :: a in Pads(mem, at) ==> a != at && a !in Body(start, count))
    && SectionMeans(mem, start, values, avoid + Abandoned(mem, at, start, count))
  }

  /** `to_list_mut_inner` of a list of pointers that is upgraded to structs of `newSize`. */
  function PromotePointers(st: St, at: Addr, count: u29, start: Addr, newSize: StructSize): ListPromoted
    requires ValidSt(st) && IsPointerList(st.mem, at, count, start)
    requires newSize.ptrs > 0 && Bounded(CompositeShape(newSize, count))
  {
    hide AllocObject, ClearPtrs, TransferSection, Times;
    PointersInside(st.mem, at, count, start);
    var cleared := ClearPtrs(st, at);
    AllocObjectSafe(cleared, at, CompositeShape(newSize, count));
    var room := AllocObject(cleared, at, CompositeShape(newSize, count));
    if room.Failed? then
      ListNotPromoted(room.st)
    else
      BodyGrows(st.mem, room.st.mem, start, count);
      BodyThere(cleared, room, at, Times(count, newSize));
      TimesAtLeast(count, newSize);
      FewerWords(room.st.mem, room.start, count, Times(count, newSize));
      var moved := TransferSection(room.st, start, room.start, count);
      if moved.Stuck? then
        ListNotPromoted(moved.st)
      else
        BodyGrows(st.mem, moved.st.mem, start, count);
        ListPromoted(ClearWords(moved.st, start, count), room.start)
  }

  lemma {:induction false} TimesAtLeast(n: nat, size: StructSize)
    requires size.Total() > 0
    ensures Times(n, size) >= n && (size.Total() > 1 ==> Times(n, size) >= 2 * n)
  {
    if n > 0 {
      TimesAtLeast(n - 1, size);
    }
  }

  lemma FewerWords(mem: Mem, start: Addr, n: nat, m: nat)
    requires HasBody(mem, start, m) && n <= m
    ensures HasBody(mem, start, n)
  {
  }

  // ----- Where the pointers have to be

  /** The list as structs of one pointer. */
  function Pointers(values: seq<Value>): (r: seq<Cell>)
    ensures |r| == |values|
  {
    seq(|values|, i requires 0 <= i < |values| => Ref(values[i]))
  }

  /** Structs with one pointer and nothing else. */
  function OnePointer(): (size: StructSize)
    ensures size.data == 0 && size.ptrs == 1 && size.Total() == 1
  {
    StructSize(0, 1)
  }

  lemma {:induction false} OnePointerEach(n: nat)
    ensures Times(n, OnePointer()) == n
  {
    if n > 0 {
      OnePointerEach(n - 1);
    }
  }

  /** What the list should become: pointer `i` is the first one of struct `i`. */
  function Spread(values: seq<Value>, newSize: StructSize, n: nat): (r: seq<Cell>)
    requires n <= |values| && newSize.ptrs > 0
    ensures |r| == Times(n, newSize)
  {
    OnePointerEach(n);
    AllEnlarged(Pointers(values), OnePointer(), newSize, n)
  }

  /** Word `j` of a struct that holds a pointer first. */
  function SpreadCell(v: Value, newSize: StructSize, j: nat): Cell {
    if j < newSize.data then Data(NULL) else if j == newSize.data then Ref(v) else Ref(Null)
  }

  lemma {:induction false} SpreadAt(values: seq<Value>, newSize: StructSize, n: nat, i: nat, j: nat)
    requires n <= |values| && newSize.ptrs > 0 && i < n && j < newSize.Total()
    ensures Times(i, newSize) + j < Times(n, newSize)
    ensures Spread(values, newSize, n)[Times(i, newSize) + j] == SpreadCell(values[i], newSize, j)
    decreases n
  {
    hide Times;
    ElementBounds(newSize, i, n);
    SpreadStep(values, newSize, n);
    if i < n - 1 {
      SpreadAt(values, newSize, n - 1, i, j);
    }
  }

  lemma SpreadStep(values: seq<Value>, newSize: StructSize, n: nat)
    requires 0 < n <= |values| && newSize.ptrs > 0
    ensures Spread(values, newSize, n)
         == Spread(values, newSize, n - 1) + seq(newSize.Total(), j requires 0 <= j < newSize.Total() =>
                                                 SpreadCell(values[n - 1], newSize, j))
  {
    OnePointerEach(n - 1);
    OnePointerEach(n);
    var size := OnePointer();
    assert AllEnlarged(Pointers(values), size, newSize, n)
        == AllEnlarged(Pointers(values), size, newSize, n - 1)
         + Enlarged(Part(Pointers(values), size, n - 1), size, newSize);
    hide AllEnlarged, Times;
    var part := Part(Pointers(values), size, n - 1);
    assert part == [Ref(values[n - 1])];
    assert Enlarged(part, size, newSize)
        == seq(newSize.Total(), j requires 0 <= j < newSize.Total() => SpreadCell(values[n - 1], newSize, j));
  }

  /** Every word of a list of structs is a word of one of them. */
  lemma {:induction false} WordOfStruct(size: StructSize, n: nat, k: nat) returns (i: nat, j: nat)
    requires k < Times(n, size)
    ensures i < n && j < size.Total() && k == Times(i, size) + j
  {
    if k >= Times(n - 1, size) {
      i, j := n - 1, k - Times(n - 1, size);
    } else {
      i, j := WordOfStruct(size, n - 1, k);
    }
  }

  // ----- When they are there

  /**
   The pointers are where the structs have them: each struct is nothing but its pointer, or all pointers
   are null but the first, which then has to be the first word.
   */
  predicate StrideFits(values: seq<Value>, newSize: StructSize) {
    || newSize.Total() == 1
    || ((forall i :: 0 < i < |values| ==> values[i] == Null)
        && (newSize.data == 0 || |values| == 0 || values[0] == Null))
  }

  /** The words of the new list after the move: the pointers one behind the other, then nothing. */
  ghost predicate Packed(mem: Mem, to: Addr, values: seq<Value>, words: nat, touched: iset<Addr>) {
    && |values| <= words
    && SectionMeans(mem, to, values, touched)
    && forall k :: |values| <= k < words ==> InMem(mem, Slot(to, k)) && At(mem, Slot(to, k)).IsNull()
  }

  /** What word `k` of the new list has to be, against what is there. */
  lemma PackedWord(mem: Mem, to: Addr, values: seq<Value>, newSize: StructSize, touched: iset<Addr>, k: nat)
    requires newSize.ptrs > 0 && k < Times(|values|, newSize)
    requires Packed(mem, to, values, Times(|values|, newSize), touched) && StrideFits(values, newSize)
    ensures CellStored(mem, Slot(to, k), Spread(values, newSize, |values|)[k], touched)
  {
    hide Denotes, Spread, Times;
    var n := |values|;
    var i, j := WordOfStruct(newSize, n, k);
    SpreadAt(values, newSize, n, i, j);
    TimesAtLeast(i, newSize);
    if newSize.Total() == 1 {
      OneWordEach(i, newSize);
      PackedMeans(mem, to, values, Times(n, newSize), touched, k);
    } else if k == 0 && newSize.data == 0 {
      FirstStruct(newSize, i, j);
      PackedMeans(mem, to, values, Times(n, newSize), touched, 0);
    } else {
      RestIsNull(values, newSize, i, j);
      PackedNull(mem, to, values, Times(n, newSize), touched, k);
      NullStored(mem, mem, Slot(to, k), touched, j < newSize.data);
    }
  }

  lemma {:induction false} OneWordEach(n: nat, size: StructSize)
    requires size.Total() == 1
    ensures Times(n, size) == n
  {
    if n > 0 {
      OneWordEach(n - 1, size);
    }
  }

  lemma FirstStruct(size: StructSize, i: nat, j: nat)
    requires size.Total() > 0 && Times(i, size) + j == 0
    ensures i == 0 && j == 0
  {
    TimesAtLeast(i, size);
  }

  /** Where the stride is wrong but harmless, everything but the first word has to be null. */
  lemma RestIsNull(values: seq<Value>, newSize: StructSize, i: nat, j: nat)
    requires i < |values| && newSize.Total() > 1 && StrideFits(values, newSize)
    requires Times(i, newSize) + j > 0 || newSize.data > 0
    ensures SpreadCell(values[i], newSize, j) == if j < newSize.data then Data(NULL) else Ref(Null)
  {
  }

  lemma PackedMeans(mem: Mem, to: Addr, values: seq<Value>, words: nat, touched: iset<Addr>, k: nat)
    requires Packed(mem, to, values, words, touched) && k < |values|
    ensures CellStored(mem, Slot(to, k), Ref(values[k]), touched)
  {
    hide Denotes;
    assert Denotes(mem, Slot(to, k), values[k], touched);
    MeaningIsSane(mem, Slot(to, k), values[k], touched);
  }

  lemma PackedNull(mem: Mem, to: Addr, values: seq<Value>, words: nat, touched: iset<Addr>, k: nat)
    requires Packed(mem, to, values, words, touched) && k < words
    requires k < |values| ==> values[k] == Null
    ensures InMem(mem, Slot(to, k)) && At(mem, Slot(to, k)).IsNull()
  {
    if k < |values| {
      NonNullMeaning(mem, Slot(to, k), values[k], touched);
    }
  }

  // ----- And when they cannot be

  /** The pointers that are found are those that were put one behind the other. */
  ghost predicate Found(values: seq<Value>, newSize: StructSize)
    requires newSize.ptrs > 0
  {
    |values| <= Times(|values|, newSize)
    && forall k :: 0 <= k < |values| ==>
         var cell := Spread(values, newSize, |values|)[k];
         values[k] == if cell.Ref? then cell.value else Null
  }

  lemma FoundAt(values: seq<Value>, newSize: StructSize, k: nat) returns (i: nat, j: nat)
    requires newSize.ptrs > 0 && Found(values, newSize) && k < |values|
    ensures i < |values| && j < newSize.Total() && k == Times(i, newSize) + j
    ensures values[k] == if j == newSize.data then values[i] else Null
  {
    hide Spread, Times;
    i, j := WordOfStruct(newSize, |values|, k);
    SpreadAt(values, newSize, |values|, i, j);
  }

  lemma {:induction false} FoundNull(values: seq<Value>, newSize: StructSize, k: nat)
    requires newSize.ptrs > 0 && newSize.Total() > 1 && Found(values, newSize)
    requires k < |values| && (k > 0 || newSize.data > 0)
    ensures values[k] == Null
    decreases k
  {
    hide Found;
    var i, j := FoundAt(values, newSize, k);
    TimesAtLeast(i, newSize);
    if j == newSize.data {
      if i > 0 {
        FoundNull(values, newSize, i);
      } else if k > 0 {
        NoWords(newSize, i);
        FoundNull(values, newSize, 0);
      }
    }
  }

  lemma NoWords(size: StructSize, i: nat)
    requires i == 0
    ensures Times(i, size) == 0
  {
  }

  lemma FoundFits(values: seq<Value>, newSize: StructSize)
    requires newSize.ptrs > 0 && Found(values, newSize)
    ensures StrideFits(values, newSize)
  {
    hide Found;
    if newSize.Total() > 1 {
      forall k | 0 <= k < |values| && (k > 0 || newSize.data > 0)
        ensures values[k] == Null
      {
        FoundNull(values, newSize, k);
      }
    }
  }

  /** A list of structs that means the spread pointers, over words that hold them packed. */
  lemma SpreadIsFound(mem: Mem, at: Addr, count: u29, to: Addr, values: seq<Value>, newSize: StructSize,
                      touched: iset<Addr>, avoid: iset<Addr>)
    requires newSize.ptrs > 0 && |values| == count && InMem(mem, at)
    requires Packed(mem, to, values, Times(count, newSize), touched)
    requires Resolve(mem, at) == Ok(Object(CompositeShape(newSize, count), to))
    requires Denotes(mem, at, Obj(CompositeShape(newSize, count), Spread(values, newSize, count)), avoid)
    ensures Found(values, newSize)
  {
    hide Resolve, Pads, Tags, IsPtrOfStructs, Spread, Times, SectionMeans;
    var cells := Spread(values, newSize, count);
    forall k | 0 <= k < |values|
      ensures values[k] == if cells[k].Ref? then cells[k].value else Null
    {
      assert CellAt(mem, Slot(to, k), cells[k], IsPtrSlot(CompositeShape(newSize, count), k), avoid);
      var i, j := WordOfStruct(newSize, count, k);
      SpreadAt(values, newSize, count, i, j);
      WordIsCell(mem, Slot(to, k), values, to, k, cells[k], IsPtrSlot(CompositeShape(newSize, count), k), touched,
                 avoid);
    }
  }

  lemma WordIsCell(mem: Mem, at: Addr, values: seq<Value>, to: Addr, k: nat, cell: Cell, isPtr: bool,
                   touched: iset<Addr>, avoid: iset<Addr>)
    requires at == Slot(to, k) && SectionMeans(mem, to, values, touched) && k < |values|
    requires CellAt(mem, at, cell, isPtr, avoid) && (cell.Data? ==> cell.word == NULL)
    ensures values[k] == if cell.Ref? then cell.value else Null
  {
    hide Denotes;
    assert Denotes(mem, at, values[k], touched);
    if cell.Ref? {
      MeaningIsUnique(mem, at, values[k], cell.value, touched, avoid);
    } else {
      NonNullMeaning(mem, at, values[k], touched);
    }
  }

  // ----- The promotion

  /** What clearing the pointer and allocating the new list leaves for the move. */
  lemma PointersReady(st: St, at: Addr, count: u29, start: Addr, values: seq<Value>, newSize: StructSize, room: Placing,
                      avoid: iset<Addr>, touched: iset<Addr>)
    requires ValidSt(st) && HeldPointers(st.mem, at, count, start, values, avoid) && InMem(st.mem, at)
    requires newSize.ptrs > 0
    requires room.Placed? && Allocated(ClearPtrs(st, at), room.st, at, room.start, Times(count, newSize))
    requires touched == Abandoned(st.mem, at, start, count) + avoid + Body(room.start, Times(count, newSize))
    ensures SectionReady(st.mem, room.st, start, room.start, values, touched)
  {
    hide Denotes, Resolve, Pads, ClearPtrs, Times, SectionMeans, Resolved;
    var cleared := ClearPtrs(st, at);
    PointersInside(st.mem, at, count, start);
    BodySlots(start, count);
    GoneInside(st.mem, at, start, count);
    TimesAtLeast(count, newSize);
    NewIsUnread(cleared, room, at, Times(count, newSize));
    if count > 0 {
      FreshBody(cleared.mem, room.st.mem, room.start, Times(count, newSize));
    }
    BodyStarts(room.start, count, Times(count, newSize));
    PointersStill(st.mem, room.st.mem, start, values, avoid + Abandoned(st.mem, at, start, count), touched);
  }

  lemma GoneInside(mem: Mem, at: Addr, start: Addr, n: nat)
    requires InMem(mem, at) && Resolve(mem, at).Ok? && HasBody(mem, start, n)
    ensures Abandoned(mem, at, start, n) <= AllWords(mem)
    ensures at in Abandoned(mem, at, start, n) && Body(start, n) <= Abandoned(mem, at, start, n)
    ensures forall a :: a in Pads(mem, at) ==> a in Abandoned(mem, at, start, n)
  {
    hide Resolve, Pads;
    PadsInMem(mem, at);
  }

  /** The pointers mean the same while the list is still there, and read nothing that is new either. */
  lemma PointersStill(mem: Mem, mem': Mem, start: Addr, values: seq<Value>, unread: iset<Addr>, touched: iset<Addr>)
    requires SectionMeans(mem, start, values, unread)
    requires forall a :: a in touched ==> a in unread || !InMem(mem, a)
    requires Keeps(mem, mem', touched)
    requires forall i :: 0 <= i < |values| ==> SameAt(mem, mem', Slot(start, i))
    ensures SectionMeans(mem', start, values, touched)
    ensures forall i :: 0 <= i < |values| ==> Resolved(mem, Slot(start, i))
  {
    hide Denotes;
    forall i | 0 <= i < |values|
      ensures Denotes(mem', Slot(start, i), values[i], touched) && Resolved(mem, Slot(start, i))
    {
      assert Denotes(mem, Slot(start, i), values[i], unread);
      AvoidUnallocated(mem, Slot(start, i), values[i], unread, touched);
      DenotesFrame(mem, mem', Slot(start, i), values[i], touched);
      MeaningIsSane(mem, Slot(start, i), values[i], unread);
    }
  }

  /** What the promotion of a list of pointers achieves. */
  ghost predicate PointersPreserved(st: St, at: Addr, count: u29, start: Addr, values: seq<Value>, newSize: StructSize,
                                    avoid: iset<Addr>, r: ListPromoted)
    requires InMem(st.mem, at)
  {
    && Keeps(st.mem, r.st.mem, Abandoned(st.mem, at, start, count))
    && (r.ListPromoted? ==>
          && newSize.ptrs > 0 && |values| == count
          && SectionMeans(r.st.mem, r.start, values, avoid)
          && AllNull(r.st.mem, start, count)
          && (Denotes(r.st.mem, at, Obj(CompositeShape(newSize, count), Spread(values, newSize, count)), avoid)
              <==> StrideFits(values, newSize)))
  }

  /**
   The promotion of a list of pointers. Every pointer means what it meant, one behind the other at the start
   of the new list, the old list is cleared, and no other word that existed has changed. The new list is
   the old one, pointer `i` being the first of struct `i` and everything else zero and null, exactly when
   the stride fits.
   */
  lemma PointerPromotionPreserves(st: St, at: Addr, count: u29, start: Addr, values: seq<Value>, newSize: StructSize,
                                  avoid: iset<Addr>)
    requires ValidSt(st) && HeldPointers(st.mem, at, count, start, values, avoid)
    requires IsPointerList(st.mem, at, count, start) && newSize.ptrs > 0
    requires Askable(CompositeShape(newSize, count)) && Bounded(CompositeShape(newSize, count))
    ensures PointersPreserved(st, at, count, start, values, newSize, avoid,
                              PromotePointers(st, at, count, start, newSize))
  {
    hide Denotes, Resolve, Pads, AllocObject, ClearPtrs, TransferSection, Times, Readable, HeldPointers, Abandoned,
         Askable, Bounded, ClearWords, StrideFits, Spread;
    var cleared := ClearPtrs(st, at);
    AllocObjectGood(cleared, at, CompositeShape(newSize, count));
    var room := AllocObject(cleared, at, CompositeShape(newSize, count));
    PointersInside(st.mem, at, count, start);
    GoneInside(st.mem, at, start, count);
    if room.Placed? {
      MovePointers(st, at, count, start, values, newSize, avoid, room);
    }
  }

  lemma MovePointers(st: St, at: Addr, count: u29, start: Addr, values: seq<Value>, newSize: StructSize,
                     avoid: iset<Addr>, room: Placing)
    requires ValidSt(st) && HeldPointers(st.mem, at, count, start, values, avoid)
    requires IsPointerList(st.mem, at, count, start) && newSize.ptrs > 0 && Bounded(CompositeShape(newSize, count))
    requires room.Placed? && room == AllocObject(ClearPtrs(st, at), at, CompositeShape(newSize, count))
    requires ObjectPlaced(ClearPtrs(st, at), at, CompositeShape(newSize, count), room)
    ensures PointersPreserved(st, at, count, start, values, newSize, avoid,
                              PromotePointers(st, at, count, start, newSize))
  {
    hide Denotes, Resolve, Pads, AllocObject, ClearPtrs, TransferSection, Times, Readable, HeldPointers, Abandoned,
         Bounded, ClearWords, StrideFits, Spread, SectionReady, SectionMeans, AllNull, Packed;
    var cleared := ClearPtrs(st, at);
    var words := Times(count, newSize);
    var gone := Abandoned(st.mem, at, start, count);
    var body := Body(room.start, words);
    var touched := gone + avoid + body;
    HeldFacts(st.mem, at, count, start, values, avoid);
    PointersInside(st.mem, at, count, start);
    GoneInside(st.mem, at, start, count);
    TimesAtLeast(count, newSize);
    PointersReady(st, at, count, start, values, newSize, room, avoid, touched);
    FewerWords(room.st.mem, room.start, count, words);
    TransferSectionGood(st.mem, room.st, start, room.start, values, touched);
    var moved := TransferSection(room.st, start, room.start, count);
    NewIsUnread(cleared, room, at, words);
    NewIsNull(cleared, room, at, words);
    BodyStarts(room.start, count, words);
    KeptByMoving(st.mem, cleared.mem, room.st.mem, moved.st.mem, at, gone, Body(room.start, count));
    if moved.Moved? {
      BodyGrows(st.mem, moved.st.mem, start, count);
      NewIsApart(st.mem, start, count, body);
      ClearWordsGood(moved.st, start, count);
      var mem' := ClearWords(moved.st, start, count).mem;
      PackedAfter(room.st.mem, moved.st.mem, mem', start, count, room.start, values, words, touched);
      AvoidLess(mem', room.start, values, words, touched, avoid);
      PackedRead(st, at, count, start, values, newSize, avoid, touched, room, mem');
    }
  }

  /** A list of pointers whose promotion was refused. */
  lemma RefusedPointers(st: St, at: Addr, count: u29, start: Addr, values: seq<Value>, newSize: StructSize,
                        avoid: iset<Addr>)
    requires ValidSt(st) && HeldPointers(st.mem, at, count, start, values, avoid)
    requires IsPointerList(st.mem, at, count, start) && newSize.ptrs > 0
    requires Askable(CompositeShape(newSize, count)) && Bounded(CompositeShape(newSize, count))
    requires PromotePointers(st, at, count, start, newSize).ListNotPromoted?
    ensures LeftBehind(st, at, CompositeShape(newSize, count), PromotePointers(st, at, count, start, newSize).st.mem)
  {
    hide Denotes, Resolve, Pads, AllocObject, ClearPtrs, TransferSection, Times, Readable, HeldPointers, Abandoned,
         Askable, Bounded, ClearWords, SectionReady, SectionMeans, Body, LeftBehind;
    var shape, cleared := CompositeShape(newSize, count), ClearPtrs(st, at);
    AllocObjectGood(cleared, at, shape);
    var room := AllocObject(cleared, at, shape);
    PointersInside(st.mem, at, count, start);
    HeldFacts(st.mem, at, count, start, values, avoid);
    if room.Failed? {
      NoRoomLeaves(st, at, shape);
    } else {
      var words := Times(count, newSize);
      var touched := Abandoned(st.mem, at, start, count) + avoid + Body(room.start, words);
      TimesAtLeast(count, newSize);
      PointersReady(st, at, count, start, values, newSize, room, avoid, touched);
      BodyThere(cleared, room, at, words);
      FewerWords(room.st.mem, room.start, count, words);
      TransferSectionGood(st.mem, room.st, start, room.start, values, touched);
      BodyStarts(room.start, count, words);
      NewIsUnread(cleared, room, at, words);
      StuckLeaves(st, at, shape, TransferSection(room.st, start, room.start, count).st.mem);
    }
  }

  lemma HeldFacts(mem: Mem, at: Addr, count: u29, start: Addr, values: seq<Value>, avoid: iset<Addr>)
    requires HeldPointers(mem, at, count, start, values, avoid)
    ensures InMem(mem, at) && |values| == count && avoid <= AllWords(mem)
    ensures at !in Body(start, count)
  {
    hide Resolve, Pads, SectionMeans;
  }

  lemma AvoidLess(mem: Mem, start: Addr, values: seq<Value>, words: nat, touched: iset<Addr>, avoid: iset<Addr>)
    requires Packed(mem, start, values, words, touched) && avoid <= touched
    ensures SectionMeans(mem, start, values, avoid)
  {
    hide Denotes;
    forall i | 0 <= i < |values|
      ensures Denotes(mem, Slot(start, i), values[i], avoid)
    {
      AvoidBoth(mem, Slot(start, i), values[i], touched, touched, avoid);
    }
  }

  /** After the pointers were moved into null words and the old list was cleared. */
  lemma PackedAfter(mem: Mem, moved: Mem, mem': Mem, start: Addr, count: nat, to: Addr, values: seq<Value>, words: nat,
                    touched: iset<Addr>)
    requires |values| == count <= words && HasBody(mem, to, words) && AllNull(mem, to, words)
    requires Keeps(mem, moved, Body(to, count)) && SectionMeans(moved, to, values, touched)
    requires Keeps(moved, mem', Body(start, count)) && Body(start, count) <= touched
    requires Body(to, words) !! Body(start, count)
    ensures Packed(mem', to, values, words, touched)
  {
    hide Denotes;
    BodySlots(to, words);
    forall i | 0 <= i < count
      ensures Denotes(mem', Slot(to, i), values[i], touched)
    {
      assert Denotes(moved, Slot(to, i), values[i], touched);
      assert Slot(to, i) in Body(to, words);
      DenotesFrame(moved, mem', Slot(to, i), values[i], touched);
    }
    forall k | count <= k < words
      ensures InMem(mem', Slot(to, k)) && At(mem', Slot(to, k)).IsNull()
    {
      assert Slot(to, k) in Body(to, words) && Slot(to, k) !in Body(to, count);
    }
  }

  /** What is read through the pointer after the move. */
  lemma PackedRead(st: St, at: Addr, count: u29, start: Addr, values: seq<Value>, newSize: StructSize,
                   avoid: iset<Addr>, touched: iset<Addr>, room: Placing, mem': Mem)
    requires ValidSt(st) && IsPointerList(st.mem, at, count, start) && newSize.ptrs > 0 && |values| == count
    requires room.Placed? && ObjectPlaced(ClearPtrs(st, at), at, CompositeShape(newSize, count), room)
    requires forall a :: a in Body(room.start, Times(count, newSize)) ==> !InMem(ClearPtrs(st, at).mem, a)
    requires Keeps(room.st.mem, mem', Body(room.start, Times(count, newSize)) + Body(start, count))
    requires Packed(mem', room.start, values, Times(count, newSize), touched)
    requires avoid <= touched && avoid <= AllWords(st.mem) && at !in Body(start, count)
    ensures Denotes(mem', at, Obj(CompositeShape(newSize, count), Spread(values, newSize, count)), avoid)
       <==> StrideFits(values, newSize)
  {
    hide Denotes, Resolve, Pads, ClearPtrs, Times, Readable, Packed, StrideFits, Spread, AllStored, IsPtrOfStructs,
         Found, CellStored;
    var shape, cells := CompositeShape(newSize, count), Spread(values, newSize, count);
    var mem, before := room.st.mem, ClearPtrs(st, at).mem;
    PointersInside(st.mem, at, count, start);
    if StrideFits(values, newSize) {
      forall k | 0 <= k < |cells|
        ensures CellStored(mem', Slot(room.start, k), cells[k], touched)
        ensures cells[k].Ref? == IsPtrOfStructs(newSize, k)
      {
        PackedWord(mem', room.start, values, newSize, touched, k);
        SpreadPattern(values, newSize, count, k);
      }
      SpreadStored(mem', room.start, cells, touched);
      ObjectRead(before, mem, mem', at, shape, room.start, Body(start, count), cells, touched, avoid);
    }
    StillResolves(before, mem, mem', at, shape, room.start, Body(start, count));
    if Denotes(mem', at, Obj(shape, cells), avoid) {
      SpreadIsFound(mem', at, count, room.start, values, newSize, touched, avoid);
      FoundFits(values, newSize);
    }
  }

  lemma SpreadStored(mem: Mem, to: Addr, cells: seq<Cell>, touched: iset<Addr>)
    requires forall k :: 0 <= k < |cells| ==> CellStored(mem, Slot(to, k), cells[k], touched)
    ensures AllStored(mem, to, cells, touched)
  {
    hide CellStored;
  }

  lemma SpreadPattern(values: seq<Value>, newSize: StructSize, n: nat, k: nat)
    requires n <= |values| && newSize.ptrs > 0 && k < Times(n, newSize)
    ensures Spread(values, newSize, n)[k].Ref? == IsPtrOfStructs(newSize, k)
  {
    hide Spread, IsPtrOfStructs, Times;
    var i, j := WordOfStruct(newSize, n, k);
    SpreadAt(values, newSize, n, i, j);
    SlotOfElement(i, newSize, j);
  }

  /** A pointer that ends up as data: a list of two pointers becomes structs of a data word and a pointer. */
  lemma StrideIsIgnored(values: seq<Value>)
    requires |values| == 2 && values[1] != Null
    ensures !StrideFits(values, StructSize(1, 1)) && !StrideFits(values, StructSize(0, 2))
    ensures StrideFits(values, OnePointer())
  {
    assert values[1] != Null;
  }

  // ----- Lists of nothing

  /** The content of `n` structs with nothing in them. */
  function ZeroStructs(newSize: StructSize, n: nat): (r: seq<Cell>)
    ensures |r| == Times(n, newSize)
  {
    seq(Times(n, newSize), i requires 0 <= i < Times(n, newSize) =>
      if IsPtrOfStructs(newSize, i) then Ref(Null) else Data(NULL))
  }

  /** `to_list_mut_inner` of a list without content. */
  function PromoteVoid(st: St, at: Addr, count: u29, newSize: StructSize): ListPromoted
    requires ValidSt(st) && InMem(st.mem, at)
  {
    var room := AllocObject(ClearPtrs(st, at), at, CompositeShape(newSize, count));
    if room.Failed? then ListNotPromoted(room.st) else ListPromoted(room.st, room.start)
  }

  /** What it achieves. */
  ghost predicate VoidPreserved(st: St, at: Addr, count: u29, newSize: StructSize, avoid: iset<Addr>, r: ListPromoted)
    requires InMem(st.mem, at)
  {
    && Keeps(st.mem, r.st.mem, iset a | a == at || a in Pads(st.mem, at))
    && (r.ListPromoted? ==>
          Denotes(r.st.mem, at, Obj(CompositeShape(newSize, count), ZeroStructs(newSize, count)), avoid))
  }

  /** The promotion of a list without content: as many structs, all zero and null. */
  lemma VoidPromotionPreserves(st: St, at: Addr, count: u29, newSize: StructSize, avoid: iset<Addr>)
    requires ValidSt(st) && InMem(st.mem, at) && avoid <= AllWords(st.mem)
    requires Askable(CompositeShape(newSize, count))
    ensures VoidPreserved(st, at, count, newSize, avoid, PromoteVoid(st, at, count, newSize))
  {
    hide Denotes, Pads, AllocObject, ClearPtrs, Times, Readable, Askable, IsPtrOfStructs, AllStored;
    var shape, cleared := CompositeShape(newSize, count), ClearPtrs(st, at);
    AllocObjectGood(cleared, at, shape);
    var room := AllocObject(cleared, at, shape);
    if room.Placed? {
      var body := Body(room.start, Times(count, newSize));
      NewIsUnread(cleared, room, at, Times(count, newSize));
      BodyThere(cleared, room, at, Times(count, newSize));
      ZeroStructsStored(room.st.mem, room.start, newSize, count, avoid + body);
      ObjectRead(cleared.mem, room.st.mem, room.st.mem, at, shape, room.start, iset{}, ZeroStructs(newSize, count),
                 avoid + body, avoid);
    }
  }

  lemma ZeroStructsStored(mem: Mem, to: Addr, newSize: StructSize, n: nat, touched: iset<Addr>)
    requires HasBody(mem, to, Times(n, newSize))
    requires forall i :: 0 <= i < Times(n, newSize) ==> At(mem, Slot(to, i)) == NULL
    ensures AllStored(mem, to, ZeroStructs(newSize, n), touched)
  {
    hide Times, IsPtrOfStructs;
    HasSlots(mem, to, Times(n, newSize));
  }
}
