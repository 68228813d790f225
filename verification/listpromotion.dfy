/**
 In-place promotion of a list of structs to a larger element size: `to_list_mut_inner` and `promote_list`.
 Every struct of the list moves, with the pointers it holds.
 */
module ListPromotion {
  import opened Wire
  import opened Reader
  import opened Values
  import opened Layout
  import opened Putting
  import opened Promotion

  /** `promote_list` of structs: the first `n` of them. */
  function MoveElements(st: St, start: Addr, size: StructSize, to: Addr, newSize: StructSize, n: nat): (r: Moving)
    requires ValidSt(st) && HasBody(st.mem, start, Times(n, size)) && HasBody(st.mem, to, Times(n, newSize))
    requires size.FitsInside(newSize)
    ensures ValidSt(r.st) && Grows(st.mem, r.st.mem)
  {
    hide MoveStruct, Times, ValidSt, HasBody;
    if n == 0 then
      Moved(st)
    else
      ElementBody(st.mem, st.mem, start, size, n);
      ElementBody(st.mem, st.mem, to, newSize, n);
      var before := MoveElements(st, start, size, to, newSize, n - 1);
      if before.Stuck? then
        before
      else
        ElementBody(st.mem, before.st.mem, start, size, n);
        ElementBody(st.mem, before.st.mem, to, newSize, n);
        MoveStruct(before.st, Slot(start, Times(n - 1, size)), size, Slot(to, Times(n - 1, newSize)), newSize)
  }

  /** The cells of element `e`. */
  function Part(cells: seq<Cell>, size: StructSize, e: nat): (r: seq<Cell>)
    requires Times(e, size) + size.Total() <= |cells|
    ensures |r| == size.Total()
  {
    cells[Times(e, size)..Times(e, size) + size.Total()]
  }

  /** The room the list is promoted into: fresh and null. */
  ghost predicate ListRoom(past: Mem, st: St, start: Addr, size: StructSize, to: Addr, newSize: StructSize, count: nat,
                           touched: iset<Addr>)
  {
    && ValidSt(st) && Keeps(past, st.mem, touched) && size.FitsInside(newSize) && newSize.Total() > 0
    && HasBody(past, start, Times(count, size)) && HasBody(st.mem, to, Times(count, newSize))
    && (count > 0 && to.seg < |past| ==> |past[to.seg]| <= to.off)
    && AllNull(st.mem, to, Times(count, newSize))
    && Body(to, Times(count, newSize)) <= touched <= AllWords(st.mem)
    && Body(start, Times(count, size)) <= touched
    && forall i :: 0 <= i < Times(count, size) ==> SameAt(past, st.mem, Slot(start, i))
  }

  /** The fields of every struct of the list read nothing that is touched. */
  ghost predicate ElementsHeld(past: Mem, start: Addr, size: StructSize, cells: seq<Cell>, count: nat,
                               touched: iset<Addr>) {
    && |cells| == Times(count, size)
    && forall e :: 0 <= e < count ==>
         && Times(e, size) + size.Total() <= |cells|
         && FieldsHeld(past, Slot(start, Times(e, size)), size, Part(cells, size, e), touched)
  }

  // ----- All structs

  lemma ElementBounds(size: StructSize, n: nat, count: nat)
    requires n < count
    ensures Times(n, size) + size.Total() == Times(n + 1, size) <= Times(count, size)
  {
    TimesMonotone(n + 1, count, size);
  }

  lemma PartOfBody(start: Addr, n: nat, size: StructSize, count: nat)
    requires n < count
    ensures Body(Slot(start, Times(n, size)), size.Total()) <= Body(start, Times(count, size))
    ensures Body(start, Times(n, size)) + Body(Slot(start, Times(n, size)), size.Total())
         == Body(start, Times(n + 1, size))
    ensures Body(start, Times(n, size)) !! Body(Slot(start, Times(n, size)), size.Total())
  {
    ElementBounds(size, n, count);
    hide Times;
  }

  /** Before struct `n` is moved, it and its room are as they were. */
  lemma ElementRoom(past: Mem, st: St, st': St, start: Addr, size: StructSize, to: Addr, newSize: StructSize,
                    count: nat, n: nat, touched: iset<Addr>)
    requires ListRoom(past, st, start, size, to, newSize, count, touched) && n < count
    requires ValidSt(st') && Keeps(st.mem, st'.mem, Body(to, Times(n, newSize)))
    ensures RoomReady(past, st', Slot(start, Times(n, size)), size, Slot(to, Times(n, newSize)), newSize, touched)
  {
    ElementBounds(size, n, count);
    ElementBounds(newSize, n, count);
    PartOfBody(start, n, size, count);
    PartOfBody(to, n, newSize, count);
    hide Times, ValidSt;
    var from, dst := Slot(start, Times(n, size)), Slot(to, Times(n, newSize));
    forall i | 0 <= i < size.Total()
      ensures SameAt(past, st'.mem, Slot(from, i))
    {
      assert Slot(from, i) == Slot(start, Times(n, size) + i);
      assert SameAt(past, st.mem, Slot(start, Times(n, size) + i));
    }
    forall i | 0 <= i < newSize.Total()
      ensures InMem(st'.mem, Slot(dst, i)) && At(st'.mem, Slot(dst, i)).IsNull()
    {
      assert Slot(dst, i) == Slot(to, Times(n, newSize) + i);
    }
  }

  /** The first `n` structs are found at their new places, enlarged. */
  ghost predicate ElementsStored(mem: Mem, to: Addr, size: StructSize, newSize: StructSize, cells: seq<Cell>, n: nat,
                                 touched: iset<Addr>)
    requires size.FitsInside(newSize)
  {
    forall e :: 0 <= e < n ==>
      && Times(e, size) + size.Total() <= |cells|
      && AllStored(mem, Slot(to, Times(e, newSize)), Enlarged(Part(cells, size, e), size, newSize), touched)
  }

  /** What moving the first `n` structs achieves. */
  ghost predicate MovedSoFar(st: St, r: Moving, to: Addr, size: StructSize, newSize: StructSize, cells: seq<Cell>,
                             n: nat, touched: iset<Addr>)
    requires size.FitsInside(newSize)
  {
    && Keeps(st.mem, r.st.mem, Body(to, Times(n, newSize)))
    && (r.Moved? ==> ElementsStored(r.st.mem, to, size, newSize, cells, n, touched))
  }

  lemma {:induction false} ElementsMoved(past: Mem, st: St, start: Addr, size: StructSize, to: Addr,
                                         newSize: StructSize, cells: seq<Cell>, count: nat, n: nat, touched: iset<Addr>)
    requires ListRoom(past, st, start, size, to, newSize, count, touched) && ValidSt(st) && size.FitsInside(newSize)
    requires ElementsHeld(past, start, size, cells, count, touched) && n <= count
    requires HasBody(st.mem, start, Times(n, size)) && HasBody(st.mem, to, Times(n, newSize))
    ensures MovedSoFar(st, MoveElements(st, start, size, to, newSize, n), to, size, newSize, cells, n, touched)
    decreases n
  {
    hide MoveStruct, MoveElements, ListRoom, FieldsHeld, RoomReady, MovedSoFar, ElementsHeld, ValidSt, Times, HasBody;
    if n == 0 {
      NothingMoved(st, start, size, to, newSize);
      NoneMoved(st, to, size, newSize, cells, touched);
    } else {
      MoveStep(st, start, size, to, newSize, n);
      ElementsMoved(past, st, start, size, to, newSize, cells, count, n - 1, touched);
      var before := MoveElements(st, start, size, to, newSize, n - 1);
      if before.Moved? {
        NextMoved(past, st, before.st, start, size, to, newSize, cells, count, n - 1, touched);
      } else {
        StillStuck(st, before, to, size, newSize, cells, n - 1, touched);
      }
    }
  }

  lemma NothingMoved(st: St, start: Addr, size: StructSize, to: Addr, newSize: StructSize)
    requires ValidSt(st) && size.FitsInside(newSize)
    ensures HasBody(st.mem, start, Times(0, size)) && HasBody(st.mem, to, Times(0, newSize))
    ensures MoveElements(st, start, size, to, newSize, 0) == Moved(st)
  {
  }

  /** `r` is `before` with one more struct moved. */
  ghost predicate OneMore(before: Moving, r: Moving, from: Addr, size: StructSize, dst: Addr, newSize: StructSize) {
    if before.Stuck? then r == before
    else
      && ValidSt(before.st) && size.FitsInside(newSize)
      && HasBody(before.st.mem, from, size.Total()) && HasBody(before.st.mem, dst, newSize.Total())
      && r == MoveStruct(before.st, from, size, dst, newSize)
  }

  lemma ElementBody(mem: Mem, mem': Mem, start: Addr, size: StructSize, n: nat)
    requires n > 0 && HasBody(mem, start, Times(n, size)) && Grows(mem, mem')
    ensures HasBody(mem, start, Times(n - 1, size))
    ensures HasBody(mem', Slot(start, Times(n - 1, size)), size.Total())
  {
    ElementBounds(size, n - 1, n);
  }

  lemma MoveStep(st: St, start: Addr, size: StructSize, to: Addr, newSize: StructSize, n: nat)
    requires ValidSt(st) && HasBody(st.mem, start, Times(n, size)) && HasBody(st.mem, to, Times(n, newSize))
    requires size.FitsInside(newSize) && n > 0
    ensures HasBody(st.mem, start, Times(n - 1, size)) && HasBody(st.mem, to, Times(n - 1, newSize))
    ensures OneMore(MoveElements(st, start, size, to, newSize, n - 1), MoveElements(st, start, size, to, newSize, n),
                    Slot(start, Times(n - 1, size)), size, Slot(to, Times(n - 1, newSize)), newSize)
  {
    hide MoveStruct, ValidSt, HasBody, Times;
    ElementBody(st.mem, st.mem, start, size, n);
    ElementBody(st.mem, st.mem, to, newSize, n);
    var before := MoveElements(st, start, size, to, newSize, n - 1);
    ElementBody(st.mem, before.st.mem, start, size, n);
    ElementBody(st.mem, before.st.mem, to, newSize, n);
  }

  lemma NoneMoved(st: St, to: Addr, size: StructSize, newSize: StructSize, cells: seq<Cell>, touched: iset<Addr>)
    requires size.FitsInside(newSize)
    ensures MovedSoFar(st, Moved(st), to, size, newSize, cells, 0, touched)
  {
  }

  lemma StillStuck(st: St, r: Moving, to: Addr, size: StructSize, newSize: StructSize, cells: seq<Cell>, n: nat,
                   touched: iset<Addr>)
    requires size.FitsInside(newSize) && r.Stuck? && MovedSoFar(st, r, to, size, newSize, cells, n, touched)
    ensures MovedSoFar(st, r, to, size, newSize, cells, n + 1, touched)
  {
    PartOfBody(to, n, newSize, n + 1);
    hide Body;
  }

  lemma NextMoved(past: Mem, st: St, st': St, start: Addr, size: StructSize, to: Addr, newSize: StructSize,
                  cells: seq<Cell>, count: nat, n: nat, touched: iset<Addr>)
    requires ListRoom(past, st, start, size, to, newSize, count, touched) && n < count
    requires ElementsHeld(past, start, size, cells, count, touched) && size.FitsInside(newSize)
    requires ValidSt(st') && MovedSoFar(st, Moved(st'), to, size, newSize, cells, n, touched)
    requires HasBody(st'.mem, Slot(start, Times(n, size)), size.Total())
    requires HasBody(st'.mem, Slot(to, Times(n, newSize)), newSize.Total())
    ensures MovedSoFar(st, MoveStruct(st', Slot(start, Times(n, size)), size, Slot(to, Times(n, newSize)), newSize),
                       to, size, newSize, cells, n + 1, touched)
  {
    hide MoveStruct, ListRoom, Body, ElementsHeld, ElementsStored, ValidSt, Times;
    ElementMoved(past, st, st', start, size, to, newSize, cells, count, n, touched);
    PartOfBody(to, n, newSize, count);
  }

  lemma RoomOf(past: Mem, st: St, start: Addr, size: StructSize, to: Addr, newSize: StructSize, count: nat,
               touched: iset<Addr>)
    requires ListRoom(past, st, start, size, to, newSize, count, touched)
    ensures ValidSt(st) && size.FitsInside(newSize) && Grows(past, st.mem)
    ensures Body(to, Times(count, newSize)) <= touched
  {
  }

  /** One more struct. */
  lemma ElementMoved(past: Mem, st: St, st': St, start: Addr, size: StructSize, to: Addr, newSize: StructSize,
                     cells: seq<Cell>, count: nat, n: nat, touched: iset<Addr>)
    requires ListRoom(past, st, start, size, to, newSize, count, touched) && n < count
    requires ElementsHeld(past, start, size, cells, count, touched) && size.FitsInside(newSize)
    requires ValidSt(st') && Keeps(st.mem, st'.mem, Body(to, Times(n, newSize)))
    requires ElementsStored(st'.mem, to, size, newSize, cells, n, touched)
    requires HasBody(st'.mem, Slot(start, Times(n, size)), size.Total())
    requires HasBody(st'.mem, Slot(to, Times(n, newSize)), newSize.Total())
    ensures var dst := Slot(to, Times(n, newSize));
            var r := MoveStruct(st', Slot(start, Times(n, size)), size, dst, newSize);
            && Keeps(st'.mem, r.st.mem, Body(dst, newSize.Total()))
            && (r.Moved? ==> ElementsStored(r.st.mem, to, size, newSize, cells, n + 1, touched))
  {
    hide MoveStruct, ListRoom, FieldsHeld, RoomReady, AllStored, Enlarged, Part, Body, ValidSt, Times, Keeps;
    var from, dst := Slot(start, Times(n, size)), Slot(to, Times(n, newSize));
    var part := Part(cells, size, n);
    ElementRoom(past, st, st', start, size, to, newSize, count, n, touched);
    ReadyToPromote(past, st', from, size, dst, newSize, part, touched);
    MovedStruct(past, st', from, size, dst, newSize, part, touched);
    var r := MoveStruct(st', from, size, dst, newSize);
    if r.Moved? {
      RoomOf(past, st, start, size, to, newSize, count, touched);
      PartOfBody(to, n, newSize, count);
      StoredStays(st'.mem, r.st.mem, to, size, newSize, cells, n, touched);
    }
  }

  /** The structs that were moved before stay while another one is moved. */
  lemma StoredStays(mem: Mem, mem': Mem, to: Addr, size: StructSize, newSize: StructSize, cells: seq<Cell>, n: nat,
                    touched: iset<Addr>)
    requires size.FitsInside(newSize) && ElementsStored(mem, to, size, newSize, cells, n, touched)
    requires Body(Slot(to, Times(n, newSize)), newSize.Total()) <= touched
    requires Keeps(mem, mem', Body(Slot(to, Times(n, newSize)), newSize.Total()))
    ensures ElementsStored(mem', to, size, newSize, cells, n, touched)
  {
    hide AllStored, Enlarged, Part, Body, Times, Keeps;
    forall e | 0 <= e < n
      ensures AllStored(mem', Slot(to, Times(e, newSize)), Enlarged(Part(cells, size, e), size, newSize), touched)
    {
      ElementBefore(to, newSize, e, n);
      AllStoredFrame(mem, mem', Slot(to, Times(e, newSize)), Enlarged(Part(cells, size, e), size, newSize),
                     touched, Body(Slot(to, Times(n, newSize)), newSize.Total()));
    }
  }

  lemma ElementBefore(to: Addr, size: StructSize, e: nat, n: nat)
    requires e < n
    ensures Body(Slot(to, Times(e, size)), size.Total()) !! Body(Slot(to, Times(n, size)), size.Total())
  {
    ElementBounds(size, e, n);
  }

  // ----- The enlarged list

  function AllEnlarged(cells: seq<Cell>, size: StructSize, newSize: StructSize, n: nat): (r: seq<Cell>)
    requires Times(n, size) <= |cells| && size.FitsInside(newSize)
    ensures |r| == Times(n, newSize)
  {
    if n == 0 then []
    else AllEnlarged(cells, size, newSize, n - 1) + Enlarged(Part(cells, size, n - 1), size, newSize)
  }

  lemma StoredConcat(mem: Mem, start: Addr, a: seq<Cell>, b: seq<Cell>, touched: iset<Addr>)
    requires AllStored(mem, start, a, touched) && AllStored(mem, Slot(start, |a|), b, touched)
    ensures AllStored(mem, start, a + b, touched)
  {
    hide CellStored;
    forall i | 0 <= i < |a + b|
      ensures CellStored(mem, Slot(start, i), (a + b)[i], touched)
    {
      if i >= |a| {
        assert CellStored(mem, Slot(Slot(start, |a|), i - |a|), b[i - |a|], touched);
        assert Slot(Slot(start, |a|), i - |a|) == Slot(start, i);
      } else {
        assert CellStored(mem, Slot(start, i), a[i], touched);
      }
    }
  }

  lemma {:induction false} ListStored(mem: Mem, to: Addr, size: StructSize, newSize: StructSize, cells: seq<Cell>,
                                      n: nat, touched: iset<Addr>)
    requires size.FitsInside(newSize) && Times(n, size) <= |cells|
    requires ElementsStored(mem, to, size, newSize, cells, n, touched)
    ensures AllStored(mem, to, AllEnlarged(cells, size, newSize, n), touched)
  {
    hide Enlarged, Part, CellStored;
    if n > 0 {
      ListStored(mem, to, size, newSize, cells, n - 1, touched);
      StoredConcat(mem, to, AllEnlarged(cells, size, newSize, n - 1),
                   Enlarged(Part(cells, size, n - 1), size, newSize), touched);
    }
  }

  /** The pointers of the enlarged list are where its shape has them. */
  lemma {:induction false} ListPattern(cells: seq<Cell>, size: StructSize, newSize: StructSize, n: nat)
    requires size.FitsInside(newSize) && Times(n, size) <= |cells|
    requires forall i :: 0 <= i < Times(n, size) ==> cells[i].Ref? == IsPtrOfStructs(size, i)
    ensures forall i :: 0 <= i < Times(n, newSize) ==>
              AllEnlarged(cells, size, newSize, n)[i].Ref? == IsPtrOfStructs(newSize, i)
  {
    hide IsPtrOfStructs;
    if n > 0 {
      ListPattern(cells, size, newSize, n - 1);
      var all, base := AllEnlarged(cells, size, newSize, n), Times(n - 1, newSize);
      forall i | base <= i < Times(n, newSize)
        ensures all[i].Ref? == IsPtrOfStructs(newSize, i)
      {
        SlotOfElement(n - 1, newSize, i - base);
        PartPattern(cells, size, n - 1);
        EnlargedRefs(Part(cells, size, n - 1), size, newSize, i - base);
      }
    }
  }

  lemma PartPattern(cells: seq<Cell>, size: StructSize, e: nat)
    requires Times(e, size) + size.Total() <= |cells|
    requires forall i :: 0 <= i < Times(e, size) + size.Total() ==> cells[i].Ref? == IsPtrOfStructs(size, i)
    ensures forall j :: 0 <= j < size.Total() ==> Part(cells, size, e)[j].Ref? == (size.data <= j)
  {
    hide IsPtrOfStructs, Times;
    forall j | 0 <= j < size.Total()
      ensures Part(cells, size, e)[j].Ref? == (size.data <= j)
    {
      SlotOfElement(e, size, j);
    }
  }

  lemma EnlargedRefs(part: seq<Cell>, size: StructSize, newSize: StructSize, j: nat)
    requires |part| == size.Total() && size.FitsInside(newSize) && j < newSize.Total()
    requires forall j :: 0 <= j < size.Total() ==> part[j].Ref? == (size.data <= j)
    ensures Enlarged(part, size, newSize)[j].Ref? == (newSize.data <= j)
  {
  }

  // ----- A list that one pointer holds

  predicate IsStructList(mem: Mem, at: Addr, size: StructSize, count: u29, start: Addr) {
    InMem(mem, at) && Resolve(mem, at) == Ok(Object(CompositeShape(size, count), start))
  }

  lemma ListInside(mem: Mem, at: Addr, size: StructSize, count: u29, start: Addr)
    requires IsStructList(mem, at, size, count, start)
    ensures start.off > 0 && start.seg < |mem| && start.off + Times(count, size) <= |mem[start.seg]|
    ensures ValidShape(CompositeShape(size, count))
    ensures HasBody(mem, TagOf(start), Times(count, size) + 1)
  {
    hide TryReadTyped, Times;
    ReaderSound(mem, at, Unlimited);
  }

  function TagOf(start: Addr): Addr {
    if start.off > 0 then start.(off := start.off - 1) else start
  }

  /**
   A list of structs that is held by one pointer only: the pointer, its pads and the list are apart, and
   nothing the structs refer to looks at them.
   */
  ghost predicate HeldList(mem: Mem, at: Addr, size: StructSize, count: u29, start: Addr, cells: seq<Cell>,
                           avoid: iset<Addr>) {
    && IsStructList(mem, at, size, count, start) && !At(mem, at).IsNull()
    && avoid <= AllWords(mem)
    && Denotes(mem, at, Obj(CompositeShape(size, count), cells), avoid)
    && at !in Body(TagOf(start), Times(count, size) + 1)
    && (forall a :: a in Pads(mem, at) ==> a != at && a !in Body(TagOf(start), Times(count, size) + 1))
    && forall i :: 0 <= i < |cells| && cells[i].Ref? ==>
         Denotes(mem, Slot(start, i), cells[i].value, Abandoned(mem, at, TagOf(start), Times(count, size) + 1))
  }

  lemma HeldCells(mem: Mem, at: Addr, size: StructSize, count: u29, start: Addr, cells: seq<Cell>, avoid: iset<Addr>,
                  e: nat, j: nat)
    requires HeldList(mem, at, size, count, start, cells, avoid) && e < count && j < size.Total()
    ensures Times(e, size) + j < |cells| == Times(count, size)
    ensures CellAt(mem, Slot(start, Times(e, size) + j), cells[Times(e, size) + j], size.data <= j, avoid)
  {
    hide Resolve, Pads, Tags, Abandoned, IsPtrOfStructs, Body, AllWords;
    ElementBounds(size, e, count);
    hide Times;
    SlotOfElement(e, size, j);
  }

  /** The fields of struct `e` read nothing of what a promotion touches. */
  lemma ElementFields(mem: Mem, at: Addr, size: StructSize, count: u29, start: Addr, cells: seq<Cell>,
                      avoid: iset<Addr>, touched: iset<Addr>, e: nat)
    requires HeldList(mem, at, size, count, start, cells, avoid) && e < count
    requires forall a :: a in touched ==>
               a in avoid || a in Abandoned(mem, at, TagOf(start), Times(count, size) + 1) || !InMem(mem, a)
    ensures Times(e, size) + size.Total() <= |cells|
    ensures FieldsHeld(mem, Slot(start, Times(e, size)), size, Part(cells, size, e), touched)
  {
    hide HeldList, Abandoned, Times, FieldsHeld, Denotes, Resolved;
    HeldLength(mem, at, size, count, start, cells, avoid);
    ElementBounds(size, e, count);
    var base, part := Times(e, size), Part(cells, size, e);
    var from := Slot(start, base);
    forall j | 0 <= j < size.Total()
      ensures CellAt(mem, Slot(from, j), part[j], size.data <= j, avoid)
      ensures part[j].Ref? && size.data <= j ==>
                Denotes(mem, Slot(from, j), part[j].value, touched) && Resolved(mem, Slot(from, j))
    {
      assert Slot(from, j) == Slot(start, base + j) && part[j] == cells[base + j];
      HeldCells(mem, at, size, count, start, cells, avoid, e, j);
      if part[j].Ref? && size.data <= j {
        HeldField(mem, at, size, count, start, cells, avoid, touched, base + j);
      }
    }
    PartHeld(mem, from, size, part, avoid, touched);
  }

  lemma HeldField(mem: Mem, at: Addr, size: StructSize, count: u29, start: Addr, cells: seq<Cell>, avoid: iset<Addr>,
                  touched: iset<Addr>, i: nat)
    requires HeldList(mem, at, size, count, start, cells, avoid) && i < |cells| && cells[i].Ref?
    requires CellAt(mem, Slot(start, i), cells[i], true, avoid)
    requires forall a :: a in touched ==>
               a in avoid || a in Abandoned(mem, at, TagOf(start), Times(count, size) + 1) || !InMem(mem, a)
    ensures Denotes(mem, Slot(start, i), cells[i].value, touched) && Resolved(mem, Slot(start, i))
  {
    hide Abandoned, Times, Denotes, Resolved, Resolve, Pads, Body;
    FieldApart(mem, Slot(start, i), cells[i].value, avoid, Abandoned(mem, at, TagOf(start), Times(count, size) + 1),
               touched);
  }

  lemma PartHeld(mem: Mem, from: Addr, size: StructSize, part: seq<Cell>, avoid: iset<Addr>, touched: iset<Addr>)
    requires |part| == size.Total()
    requires forall j :: 0 <= j < |part| ==> CellAt(mem, Slot(from, j), part[j], size.data <= j, avoid)
    requires forall j :: 0 <= j < |part| && part[j].Ref? && size.data <= j ==>
               Denotes(mem, Slot(from, j), part[j].value, touched) && Resolved(mem, Slot(from, j))
    ensures FieldsHeld(mem, from, size, part, touched)
  {
    hide Denotes, Resolved;
    forall i | 0 <= i < size.ptrs
      ensures Denotes(mem, Slot(Slot(from, size.data), i), Fields(part, size)[i], touched)
      ensures Resolved(mem, Slot(Slot(from, size.data), i))
    {
      assert Slot(Slot(from, size.data), i) == Slot(from, size.data + i);
      assert CellAt(mem, Slot(from, size.data + i), part[size.data + i], true, avoid);
    }
  }

  lemma HeldLength(mem: Mem, at: Addr, size: StructSize, count: u29, start: Addr, cells: seq<Cell>, avoid: iset<Addr>)
    requires HeldList(mem, at, size, count, start, cells, avoid)
    ensures |cells| == Times(count, size)
  {
    hide Resolve, Pads, Tags, Abandoned, Body, Times;
  }

  lemma ListHeld(mem: Mem, at: Addr, size: StructSize, count: u29, start: Addr, cells: seq<Cell>, avoid: iset<Addr>,
                 touched: iset<Addr>)
    requires HeldList(mem, at, size, count, start, cells, avoid)
    requires forall a :: a in touched ==>
               a in avoid || a in Abandoned(mem, at, TagOf(start), Times(count, size) + 1) || !InMem(mem, a)
    ensures ElementsHeld(mem, start, size, cells, count, touched)
  {
    hide HeldList, FieldsHeld, Abandoned, Times;
    HeldLength(mem, at, size, count, start, cells, avoid);
    HeldInMem(mem, at, size, count, start, cells, avoid);
    forall e | 0 <= e < count
      ensures Times(e, size) + size.Total() <= |cells|
      ensures FieldsHeld(mem, Slot(start, Times(e, size)), size, Part(cells, size, e), touched)
    {
      ElementFields(mem, at, size, count, start, cells, avoid, touched, e);
    }
  }

  lemma HeldInMem(mem: Mem, at: Addr, size: StructSize, count: u29, start: Addr, cells: seq<Cell>, avoid: iset<Addr>)
    requires HeldList(mem, at, size, count, start, cells, avoid)
    ensures IsStructList(mem, at, size, count, start) && InMem(mem, at) && avoid <= AllWords(mem)
  {
    hide Denotes, Resolve, Pads, Times;
  }

  // ----- The promotion of a list

  datatype ListPromoted = ListPromoted(st: St, start: Addr) | ListNotPromoted(st: St)

  /** `to_list_mut_inner` of a list of structs that is upgraded to `newSize`. */
  function PromoteList(st: St, at: Addr, size: StructSize, count: u29, start: Addr, newSize: StructSize): ListPromoted
    requires ValidSt(st) && IsStructList(st.mem, at, size, count, start)
    requires size.FitsInside(newSize) && Bounded(CompositeShape(newSize, count))
  {
    hide AllocObject, ClearPtrs, MoveElements, Times;
    ListInside(st.mem, at, size, count, start);
    var cleared := ClearPtrs(st, at);
    AllocObjectSafe(cleared, at, CompositeShape(newSize, count));
    var room := AllocObject(cleared, at, CompositeShape(newSize, count));
    if room.Failed? then
      ListNotPromoted(room.st)
    else
      BodyGrows(st.mem, room.st.mem, start, Times(count, size));
      BodyThere(cleared, room, at, Times(count, newSize));
      var moved := MoveElements(room.st, start, size, room.start, newSize, count);
      if moved.Stuck? then
        ListNotPromoted(moved.st)
      else
        BodyGrows(st.mem, moved.st.mem, TagOf(start), Times(count, size) + 1);
        ListPromoted(ClearWords(moved.st, TagOf(start), Times(count, size) + 1), room.start)
  }

  lemma BodyGrows(mem: Mem, mem': Mem, start: Addr, n: nat)
    requires HasBody(mem, start, n) && Grows(mem, mem')
    ensures HasBody(mem', start, n)
  {
  }

  lemma BodyThere(st: St, r: Placing, at: Addr, n: nat)
    requires r.Placed? && Allocated(st, r.st, at, r.start, n)
    ensures HasBody(r.st.mem, r.start, n)
  {
  }

  /** The words a list promotion gives up: the pointer, its pads, and the old list with its tag. */
  ghost function Given(mem: Mem, at: Addr, start: Addr, n: nat): iset<Addr>
    requires InMem(mem, at)
  {
    Abandoned(mem, at, TagOf(start), n + 1)
  }

  lemma GivenInside(mem: Mem, at: Addr, size: StructSize, count: u29, start: Addr)
    requires IsStructList(mem, at, size, count, start)
    ensures Given(mem, at, start, Times(count, size)) <= AllWords(mem)
    ensures Body(start, Times(count, size)) <= Given(mem, at, start, Times(count, size))
    ensures HasBody(mem, start, Times(count, size))
  {
    hide TryReadTyped, Pads, Times;
    PadsInMem(mem, at);
    ListInside(mem, at, size, count, start);
  }

  lemma ListRoomIsFresh(st: St, at: Addr, size: StructSize, count: u29, start: Addr, newSize: StructSize, room: Placing,
                        touched: iset<Addr>, avoid: iset<Addr>)
    requires ValidSt(st) && IsStructList(st.mem, at, size, count, start) && avoid <= AllWords(st.mem)
    requires size.FitsInside(newSize) && newSize.Total() > 0
    requires at !in Body(start, Times(count, size))
    requires forall a :: a in Pads(st.mem, at) ==> a !in Body(start, Times(count, size))
    requires room.Placed? && Allocated(ClearPtrs(st, at), room.st, at, room.start, Times(count, newSize))
    requires touched == Given(st.mem, at, start, Times(count, size)) + avoid + Body(room.start, Times(count, newSize))
    ensures ListRoom(st.mem, room.st, start, size, room.start, newSize, count, touched)
  {
    hide Resolve, Pads, ClearPtrs, Times, Given;
    GivenInside(st.mem, at, size, count, start);
    GivenHas(st.mem, at, start, Times(count, size));
    TimesAgainst(count, newSize);
    if count > 0 {
      FreshBody(ClearPtrs(st, at).mem, room.st.mem, room.start, Times(count, newSize));
    }
    BodySlots(start, Times(count, size));
  }

  lemma GivenHas(mem: Mem, at: Addr, start: Addr, n: nat)
    requires InMem(mem, at)
    ensures at in Given(mem, at, start, n) && forall a :: a in Pads(mem, at) ==> a in Given(mem, at, start, n)
  {
    hide Pads;
  }

  lemma TimesAgainst(count: nat, size: StructSize)
    requires size.Total() > 0
    ensures count > 0 ==> Times(count, size) > 0
    ensures count == 0 ==> Times(count, size) == 0
  {
  }

  /** What the allocation of the larger list leaves for the promotion to work on. */
  lemma ListReady(st: St, at: Addr, size: StructSize, count: u29, start: Addr, cells: seq<Cell>, newSize: StructSize,
                  room: Placing, avoid: iset<Addr>, touched: iset<Addr>)
    requires ValidSt(st) && HeldList(st.mem, at, size, count, start, cells, avoid) && InMem(st.mem, at)
    requires size.FitsInside(newSize) && newSize.Total() > 0
    requires room.Placed? && Allocated(ClearPtrs(st, at), room.st, at, room.start, Times(count, newSize))
    requires touched == Given(st.mem, at, start, Times(count, size)) + avoid + Body(room.start, Times(count, newSize))
    ensures ListRoom(st.mem, room.st, start, size, room.start, newSize, count, touched)
    ensures ElementsHeld(st.mem, start, size, cells, count, touched)
    ensures HasBody(room.st.mem, start, Times(count, size)) && HasBody(room.st.mem, room.start, Times(count, newSize))
  {
    hide Denotes, Resolve, Pads, ClearPtrs, Times, ElementsHeld, ListRoom, Abandoned;
    ListInside(st.mem, at, size, count, start);
    OldBodyApart(st.mem, at, start, Times(count, size));
    ListRoomIsFresh(st, at, size, count, start, newSize, room, touched, avoid);
    NewIsUnread(ClearPtrs(st, at), room, at, Times(count, newSize));
    ListHeld(st.mem, at, size, count, start, cells, avoid, touched);
    BodyGrows(st.mem, room.st.mem, start, Times(count, size));
    BodyThere(ClearPtrs(st, at), room, at, Times(count, newSize));
  }

  lemma OldBodyApart(mem: Mem, at: Addr, start: Addr, n: nat)
    requires start.off > 0 && InMem(mem, at)
    requires at !in Body(TagOf(start), n + 1)
    requires forall a :: a in Pads(mem, at) ==> a !in Body(TagOf(start), n + 1)
    ensures at !in Body(start, n) && forall a :: a in Pads(mem, at) ==> a !in Body(start, n)
    ensures Body(start, n) <= Body(TagOf(start), n + 1)
  {
    hide Pads;
    assert Body(start, n) <= Body(TagOf(start), n + 1);
  }

  lemma NewIsUnread(st: St, room: Placing, at: Addr, n: nat)
    requires room.Placed? && Allocated(st, room.st, at, room.start, n)
    ensures forall a :: a in Body(room.start, n) ==> !InMem(st.mem, a)
  {
    if n > 0 {
      FreshBody(st.mem, room.st.mem, room.start, n);
    }
  }

  lemma NewIsNull(st: St, room: Placing, at: Addr, n: nat)
    requires room.Placed? && Allocated(st, room.st, at, room.start, n)
    ensures AllNull(room.st.mem, room.start, n)
  {
    if n > 0 {
      FreshBody(st.mem, room.st.mem, room.start, n);
    }
  }

  /** After the structs were moved and the old list was cleared. */
  lemma ListMoved(past: Mem, st: St, start: Addr, size: StructSize, to: Addr, newSize: StructSize, cells: seq<Cell>,
                  count: nat, touched: iset<Addr>)
    requires ListRoom(past, st, start, size, to, newSize, count, touched) && ValidSt(st) && size.FitsInside(newSize)
    requires ElementsHeld(past, start, size, cells, count, touched)
    requires HasBody(st.mem, start, Times(count, size)) && HasBody(st.mem, to, Times(count, newSize))
    ensures Times(count, size) <= |cells|
    ensures var r := MoveElements(st, start, size, to, newSize, count);
            && Keeps(st.mem, r.st.mem, Body(to, Times(count, newSize)))
            && (r.Moved? ==> AllStored(r.st.mem, to, AllEnlarged(cells, size, newSize, count), touched))
  {
    hide MoveElements, ListRoom, FieldsHeld, AllStored, Times, HasBody, ElementsStored;
    HeldHasLength(past, start, size, cells, count, touched);
    ElementsMoved(past, st, start, size, to, newSize, cells, count, count, touched);
    var r := MoveElements(st, start, size, to, newSize, count);
    if r.Moved? {
      ListStored(r.st.mem, to, size, newSize, cells, count, touched);
    }
  }

  lemma HeldHasLength(past: Mem, start: Addr, size: StructSize, cells: seq<Cell>, count: nat, touched: iset<Addr>)
    requires ElementsHeld(past, start, size, cells, count, touched)
    ensures |cells| == Times(count, size)
  {
  }

  lemma CellPattern(mem: Mem, at: Addr, size: StructSize, count: u29, start: Addr, cells: seq<Cell>, avoid: iset<Addr>)
    requires HeldList(mem, at, size, count, start, cells, avoid)
    ensures |cells| == Times(count, size) && forall i :: 0 <= i < |cells| ==> cells[i].Ref? == IsPtrOfStructs(size, i)
  {
    hide Resolve, Pads, Tags, Abandoned, IsPtrOfStructs, Body, Times;
    forall i | 0 <= i < |cells|
      ensures cells[i].Ref? == IsPtrOfStructs(size, i)
    {
      assert CellAt(mem, Slot(start, i), cells[i], IsPtrSlot(CompositeShape(size, count), i), avoid);
    }
  }

  /** The new list and the old one are apart. */
  lemma NewIsApart(mem: Mem, tag: Addr, n: nat, added: iset<Addr>)
    requires HasBody(mem, tag, n) && forall a :: a in added ==> !InMem(mem, a)
    ensures added !! Body(tag, n)
  {
  }

  /** What the promotion of a list achieves. */
  ghost predicate ListPreserved(st: St, at: Addr, size: StructSize, count: u29, start: Addr, cells: seq<Cell>,
                                newSize: StructSize, avoid: iset<Addr>, r: ListPromoted)
    requires InMem(st.mem, at)
  {
    && Keeps(st.mem, r.st.mem, Given(st.mem, at, start, Times(count, size)))
    && (r.ListPromoted? ==>
          && size.FitsInside(newSize) && Times(count, size) <= |cells|
          && Denotes(r.st.mem, at, Obj(CompositeShape(newSize, count), AllEnlarged(cells, size, newSize, count)), avoid)
          && AllNull(r.st.mem, TagOf(start), Times(count, size) + 1))
  }

  /**
   The promotion of a list preserves its elements. The pointer refers to a list of as many structs of the
   larger size, where struct `i` has the data words struct `i` had and pointers that mean what its pointers
   meant, and the rest is zero and null; the old list is cleared with its tag; and no other word that
   existed has changed.
   */
  lemma ListPromotionPreserves(st: St, at: Addr, size: StructSize, count: u29, start: Addr, cells: seq<Cell>,
                               newSize: StructSize, avoid: iset<Addr>)
    requires ValidSt(st) && HeldList(st.mem, at, size, count, start, cells, avoid)
    requires IsStructList(st.mem, at, size, count, start)
    requires size.FitsInside(newSize) && newSize.Total() > 0
    requires Askable(CompositeShape(newSize, count)) && Bounded(CompositeShape(newSize, count))
    ensures ListPreserved(st, at, size, count, start, cells, newSize, avoid,
                          PromoteList(st, at, size, count, start, newSize))
  {
    hide Denotes, Resolve, Pads, AllocObject, ClearPtrs, MoveElements, Times, ElementsHeld, ListRoom, Readable,
         AllStored, HeldList, AllEnlarged, Given, Askable, Bounded, ClearWords;
    var cleared := ClearPtrs(st, at);
    var shape := CompositeShape(newSize, count);
    AllocObjectGood(cleared, at, shape);
    var room := AllocObject(cleared, at, shape);
    ListInside(st.mem, at, size, count, start);
    GivenInside(st.mem, at, size, count, start);
    GivenHas(st.mem, at, start, Times(count, size));
    if room.Placed? {
      MoveAndClear(st, at, size, count, start, cells, newSize, avoid, room);
    }
  }

  /** The last part of a list promotion, from the allocated room on. */
  lemma MoveAndClear(st: St, at: Addr, size: StructSize, count: u29, start: Addr, cells: seq<Cell>, newSize: StructSize,
                     avoid: iset<Addr>, room: Placing)
    requires ValidSt(st) && HeldList(st.mem, at, size, count, start, cells, avoid)
    requires IsStructList(st.mem, at, size, count, start)
    requires size.FitsInside(newSize) && newSize.Total() > 0 && Bounded(CompositeShape(newSize, count))
    requires room.Placed? && room == AllocObject(ClearPtrs(st, at), at, CompositeShape(newSize, count))
    requires ObjectPlaced(ClearPtrs(st, at), at, CompositeShape(newSize, count), room)
    ensures ListPreserved(st, at, size, count, start, cells, newSize, avoid,
                          PromoteList(st, at, size, count, start, newSize))
  {
    hide Denotes, Resolve, Pads, AllocObject, ClearPtrs, MoveElements, Times, ElementsHeld, ListRoom, Readable,
         AllStored, HeldList, AllEnlarged, ClearWords, Abandoned, AllNull;
    var cleared := ClearPtrs(st, at);
    var words := Times(count, newSize);
    var gone := Given(st.mem, at, start, Times(count, size));
    var touched := gone + avoid + Body(room.start, words);
    ListInside(st.mem, at, size, count, start);
    ListReady(st, at, size, count, start, cells, newSize, room, avoid, touched);
    ListMoved(st.mem, room.st, start, size, room.start, newSize, cells, count, touched);
    NewIsUnread(cleared, room, at, words);
    GivenInside(st.mem, at, size, count, start);
    GivenHas(st.mem, at, start, Times(count, size));
    var moved := MoveElements(room.st, start, size, room.start, newSize, count);
    KeptByMoving(st.mem, cleared.mem, room.st.mem, moved.st.mem, at, gone, Body(room.start, words));
    if moved.Moved? {
      var tag, n := TagOf(start), Times(count, size) + 1;
      BodyGrows(st.mem, moved.st.mem, tag, n);
      NewIsApart(st.mem, tag, n, Body(room.start, words));
      GivenBody(st.mem, at, start, Times(count, size));
      OldWordsCleared(moved.st, tag, n, room.start, AllEnlarged(cells, size, newSize, count), touched);
      EnlargedListRead(st, at, size, count, start, cells, newSize, avoid, touched, room,
                       ClearWords(moved.st, tag, n).mem);
    }
  }

  /** A list of structs whose promotion was refused. */
  lemma RefusedList(st: St, at: Addr, size: StructSize, count: u29, start: Addr, cells: seq<Cell>, newSize: StructSize,
                    avoid: iset<Addr>)
    requires ValidSt(st) && HeldList(st.mem, at, size, count, start, cells, avoid)
    requires IsStructList(st.mem, at, size, count, start)
    requires size.FitsInside(newSize) && newSize.Total() > 0
    requires Askable(CompositeShape(newSize, count)) && Bounded(CompositeShape(newSize, count))
    requires PromoteList(st, at, size, count, start, newSize).ListNotPromoted?
    ensures LeftBehind(st, at, CompositeShape(newSize, count), PromoteList(st, at, size, count, start, newSize).st.mem)
  {
    hide Denotes, Resolve, Pads, AllocObject, ClearPtrs, MoveElements, Times, ElementsHeld, ListRoom, Readable,
         AllStored, HeldList, AllEnlarged, Given, Askable, Bounded, ClearWords, Body, LeftBehind;
    var shape, cleared := CompositeShape(newSize, count), ClearPtrs(st, at);
    AllocObjectGood(cleared, at, shape);
    var room := AllocObject(cleared, at, shape);
    ListInside(st.mem, at, size, count, start);
    if room.Failed? {
      NoRoomLeaves(st, at, shape);
    } else {
      var touched := Given(st.mem, at, start, Times(count, size)) + avoid + Body(room.start, Times(count, newSize));
      ListReady(st, at, size, count, start, cells, newSize, room, avoid, touched);
      RoomOf(st.mem, room.st, start, size, room.start, newSize, count, touched);
      ListMoved(st.mem, room.st, start, size, room.start, newSize, cells, count, touched);
      NewIsUnread(cleared, room, at, Times(count, newSize));
      StuckLeaves(st, at, shape, MoveElements(room.st, start, size, room.start, newSize, count).st.mem);
    }
  }

  lemma GivenBody(mem: Mem, at: Addr, start: Addr, n: nat)
    requires InMem(mem, at)
    ensures Body(TagOf(start), n + 1) <= Given(mem, at, start, n)
  {
    hide Pads;
  }

  lemma KeptByMoving(past: Mem, cleared: Mem, mem: Mem, mem': Mem, at: Addr, gone: iset<Addr>, added: iset<Addr>)
    requires InMem(past, at) && at in gone
    requires Keeps(past, cleared, gone) && Keeps(cleared, mem, iset{at}) && Keeps(mem, mem', added)
    requires forall a :: a in added ==> !InMem(cleared, a)
    ensures Keeps(past, mem, gone) && Keeps(past, mem', gone)
  {
  }

  /** The promoted list is found behind its pointer. */
  lemma EnlargedListRead(st: St, at: Addr, size: StructSize, count: u29, start: Addr, cells: seq<Cell>,
                         newSize: StructSize, avoid: iset<Addr>, touched: iset<Addr>, room: Placing, mem': Mem)
    requires ValidSt(st) && HeldList(st.mem, at, size, count, start, cells, avoid)
    requires IsStructList(st.mem, at, size, count, start)
    requires size.FitsInside(newSize) && Times(count, size) <= |cells|
    requires room.Placed? && ObjectPlaced(ClearPtrs(st, at), at, CompositeShape(newSize, count), room)
    requires forall a :: a in Body(room.start, Times(count, newSize)) ==> !InMem(ClearPtrs(st, at).mem, a)
    requires Keeps(room.st.mem, mem',
                   Body(room.start, Times(count, newSize)) + Body(TagOf(start), Times(count, size) + 1))
    requires AllStored(mem', room.start, AllEnlarged(cells, size, newSize, count), touched) && avoid <= touched
    ensures Denotes(mem', at, Obj(CompositeShape(newSize, count), AllEnlarged(cells, size, newSize, count)), avoid)
  {
    hide Denotes, Resolve, Pads, ClearPtrs, Times, Readable, AllStored, AllEnlarged, IsPtrOfStructs, Abandoned, Keeps;
    var cleared := ClearPtrs(st, at);
    var larger := AllEnlarged(cells, size, newSize, count);
    CellPattern(st.mem, at, size, count, start, cells, avoid);
    ListPattern(cells, size, newSize, count);
    ListInside(st.mem, at, size, count, start);
    BodyInMem(st.mem, TagOf(start), Times(count, size) + 1);
    ObjectRead(cleared.mem, room.st.mem, mem', at, CompositeShape(newSize, count), room.start,
               Body(TagOf(start), Times(count, size) + 1), larger, touched, avoid);
  }

  lemma BodyInMem(mem: Mem, start: Addr, n: nat)
    requires HasBody(mem, start, n)
    ensures Body(start, n) <= AllWords(mem)
  {
  }
}
