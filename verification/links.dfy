/**
 Where the pointers of a struct lead after a promotion: to the same objects, over pads that are the old ones or
 new ones of their own.
 */
module Links {
  import opened Wire
  import opened Reader
  import opened Values
  import opened Layout
  import opened Putting
  import opened Promotion

  /** What two pointers share of their pads was there before. */
  ghost predicate PadsApart(before: Mem, mem: Mem, a: Addr, b: Addr) {
    && InMem(mem, a) && InMem(mem, b)
    && forall x :: x in Pads(mem, a) && x in Pads(mem, b) ==> InMem(before, x)
  }

  /** The first `n` pointers at `from` were moved to `to`, each over pads of its own. */
  ghost predicate LinksMoved(mem: Mem, mem': Mem, from: Addr, to: Addr, n: nat) {
    && (forall i :: 0 <= i < n ==> RefersAlike(mem, mem', Slot(from, i), Slot(to, i)))
    && (forall i, j :: 0 <= i < j < n ==> PadsApart(mem, mem', Slot(to, i), Slot(to, j)))
  }

  /** A pointer with a meaning leads where it led when only words change it does not look at. */
  lemma SameLink(mem: Mem, mem': Mem, at: Addr, v: Value, avoid: iset<Addr>, changed: iset<Addr>)
    requires Denotes(mem, at, v, avoid) && Keeps(mem, mem', changed) && changed <= avoid && SameAt(mem, mem', at)
    ensures InMem(mem, at) && InMem(mem', at) && At(mem', at) == At(mem, at)
    ensures Pads(mem', at) == Pads(mem, at)
    ensures forall a :: a in Pads(mem, at) ==> InMem(mem, a) && a !in avoid
    ensures !At(mem, at).IsNull() ==> Resolve(mem, at).Ok? && Resolve(mem', at) == Resolve(mem, at)
  {
    hide Resolve, Words, IsPtrSlot, Decode;
    NonNullMeaning(mem, at, v, avoid);
    if v != Null {
      hide Pads;
      PadsInMem(mem, at);
      TagsInMem(mem, at);
      ResolveFrame(mem, mem', at);
    } else {
      NullHasNoPads(mem, at);
    }
  }

  lemma NullHasNoPads(mem: Mem, at: Addr)
    requires InMem(mem, at) && At(mem, at).IsNull()
    ensures Pads(mem, at) == {}
  {
  }

  lemma {:induction false} SectionLinks(past: Mem, st: St, from: Addr, to: Addr, values: seq<Value>,
                                        touched: iset<Addr>)
    requires SectionReady(past, st, from, to, values, touched)
    requires TransferSection(st, from, to, |values|).Moved?
    ensures LinksMoved(st.mem, TransferSection(st, from, to, |values|).st.mem, from, to, |values|)
    decreases |values|
  {
    hide Denotes, Transfer, Resolve, RefersAlike, PadsApart, Sane;
    var n := |values|;
    if n > 0 {
      var fore := values[..n - 1];
      assert SectionReady(past, st, from, to, fore, touched) by {
        assert Body(to, n - 1) <= Body(to, n);
      }
      SectionLinks(past, st, from, to, fore, touched);
      TransferSectionGood(past, st, from, to, fore, touched);
      var before := TransferSection(st, from, to, n - 1);
      LastLink(past, st, before.st, from, to, values, touched);
    }
  }

  lemma LastLink(past: Mem, st: St, st': St, from: Addr, to: Addr, values: seq<Value>, touched: iset<Addr>)
    requires |values| > 0 && SectionReady(past, st, from, to, values, touched)
    requires var n := |values| - 1;
             && ValidSt(st') && Keeps(st.mem, st'.mem, Body(to, n))
             && SectionMeans(st'.mem, to, values[..n], touched)
             && Sane(st'.mem, Slot(from, n)) && LinksMoved(st.mem, st'.mem, from, to, n)
             && Transfer(st', Slot(from, n), Slot(to, n)).Moved?
    ensures LinksMoved(st.mem, Transfer(st', Slot(from, |values| - 1), Slot(to, |values| - 1)).st.mem, from, to,
                       |values|)
  {
    hide Resolve, Transfer, RefersAlike, Pads, Denotes, PadsApart, Sane;
    var n := |values| - 1;
    var src, dst := Slot(from, n), Slot(to, n);
    assert Denotes(st.mem, src, values[n], touched);
    SameLink(st.mem, st'.mem, src, values[n], touched, Body(to, n));
    DenotesFrame(st.mem, st'.mem, src, values[n], touched);
    ReadyToReceive(past, st', src, dst, values[n], touched);
    TransferGood(st', src, dst);
    var mem' := Transfer(st', src, dst).st.mem;
    LinkOver(st.mem, st'.mem, mem', src, dst);
    forall i | 0 <= i < n
      ensures RefersAlike(st.mem, mem', Slot(from, i), Slot(to, i)) && PadsApart(st.mem, mem', Slot(to, i), dst)
    {
      assert Denotes(st'.mem, Slot(to, i), values[..n][i], touched);
      SameLink(st'.mem, mem', Slot(to, i), values[..n][i], touched, iset{dst});
      EarlierLink(st.mem, st'.mem, mem', Slot(from, i), Slot(to, i));
      ApartFromLast(st.mem, st'.mem, mem', Slot(to, i), src, dst);
    }
    forall i, j | 0 <= i < j < n
      ensures PadsApart(st.mem, mem', Slot(to, i), Slot(to, j))
    {
      assert Denotes(st'.mem, Slot(to, i), values[..n][i], touched);
      assert Denotes(st'.mem, Slot(to, j), values[..n][j], touched);
      SameLink(st'.mem, mem', Slot(to, i), values[..n][i], touched, iset{dst});
      SameLink(st'.mem, mem', Slot(to, j), values[..n][j], touched, iset{dst});
      StillApart(st.mem, st'.mem, mem', Slot(to, i), Slot(to, j));
    }
  }

  lemma LinkOver(mem: Mem, between: Mem, mem': Mem, from: Addr, to: Addr)
    requires Grows(mem, between) && RefersAlike(between, mem', from, to)
    requires InMem(mem, from) && At(between, from) == At(mem, from) && Pads(between, from) == Pads(mem, from)
    requires !At(mem, from).IsNull() ==> Resolve(between, from) == Resolve(mem, from)
    ensures RefersAlike(mem, mem', from, to)
  {
    hide Resolve, Pads;
  }

  lemma EarlierLink(mem: Mem, between: Mem, mem': Mem, from: Addr, to: Addr)
    requires RefersAlike(mem, between, from, to)
    requires InMem(mem', to) && At(mem', to) == At(between, to) && Pads(mem', to) == Pads(between, to)
    requires !At(between, to).IsNull() ==> Resolve(mem', to) == Resolve(between, to)
    ensures RefersAlike(mem, mem', from, to)
  {
    hide Resolve, Pads;
  }

  lemma ApartFromLast(mem: Mem, between: Mem, mem': Mem, a: Addr, src: Addr, dst: Addr)
    requires InMem(between, a) && InMem(mem', a) && Pads(mem', a) == Pads(between, a)
    requires forall x :: x in Pads(between, a) ==> InMem(between, x)
    requires RefersAlike(between, mem', src, dst) && InMem(mem, src)
    requires Pads(between, src) == Pads(mem, src) && forall x :: x in Pads(mem, src) ==> InMem(mem, x)
    ensures PadsApart(mem, mem', a, dst)
  {
    hide Resolve;
    if At(mem', dst).IsNull() {
      NullHasNoPads(mem', dst);
    }
    hide Pads;
  }

  lemma StillApart(mem: Mem, between: Mem, mem': Mem, a: Addr, b: Addr)
    requires PadsApart(mem, between, a, b) && InMem(mem', a) && InMem(mem', b)
    requires Pads(mem', a) == Pads(between, a) && Pads(mem', b) == Pads(between, b)
    ensures PadsApart(mem, mem', a, b)
  {
    hide Pads;
  }

  /** What a promoted struct's pointers lead to, against what they led to in a past the promotion began with. */
  ghost predicate FieldsLinked(past: Mem, room: Mem, mem': Mem, from: Addr, to: Addr, n: nat) {
    && (forall i :: 0 <= i < n ==> FieldLinked(past, room, mem', Slot(from, i), Slot(to, i)))
    && (forall i, j :: 0 <= i < j < n ==> PadsApart(room, mem', Slot(to, i), Slot(to, j)))
  }

  /** The pointer leads to the same object, over old pads or pads there was no room for yet. */
  ghost predicate FieldLinked(past: Mem, room: Mem, mem': Mem, from: Addr, to: Addr) {
    && InMem(past, from) && InMem(mem', to)
    && (At(past, from).IsNull() <==> At(mem', to).IsNull())
    && (!At(past, from).IsNull() ==> Resolve(past, from).Ok? && Resolve(mem', to) == Resolve(past, from))
    && forall a :: a in Pads(mem', to) ==> InMem(mem', a) && (a in Pads(past, from) || !InMem(room, a))
  }

  lemma MovedLinks(past: Mem, st: St, start: Addr, size: StructSize, to: Addr, newSize: StructSize, cells: seq<Cell>,
                   touched: iset<Addr>)
    requires CanPromote(st, start, size, to, newSize, cells)
    requires PromotionReady(past, st, start, size, to, newSize, cells, touched)
    requires PromoteInto(st, start, size, to, newSize).Moved?
    ensures FieldsLinked(past, st.mem, PromoteInto(st, start, size, to, newSize).st.mem, Slot(start, size.data),
                         Slot(to, newSize.data), size.ptrs)
  {
    hide TransferSection, CopyWords, SectionReady, SectionMeans, RoomReady, FieldsHeld, Body, LinksMoved, FieldLinked,
         ClearWords, PadsApart, DataInPlace;
    RoomFacts(past, st, start, size, to, newSize, touched);
    FieldsReady(past, st, start, size, to, newSize, cells, touched);
    var copied := CopyWords(st, start, to, size.data);
    var from, dst := Slot(start, size.data), Slot(to, newSize.data);
    var values := Fields(cells, size);
    SectionLinks(past, copied, from, dst, values, touched);
    TransferSectionGood(past, copied, from, dst, values, touched);
    var moved := TransferSection(copied, from, dst, size.ptrs).st;
    var mem' := ClearWords(moved, start, size.Total()).mem;
    BodiesApart(past, start, size.Total(), to, newSize.Total());
    DataGetsInPlace(past, st, start, size, to, newSize, touched);
    PastLinks(past, st, copied, start, size, to, newSize, cells, touched);
    forall k | 0 <= k < size.ptrs
      ensures FieldLinked(past, st.mem, mem', Slot(from, k), Slot(dst, k))
    {
      AfterClearing(moved.mem, mem', start, size.Total(), dst, values, k, to, newSize, touched);
      OneLinked(past, st.mem, copied.mem, moved.mem, mem', from, dst, size.ptrs, k);
    }
    forall k, l | 0 <= k < l < size.ptrs
      ensures PadsApart(st.mem, mem', Slot(dst, k), Slot(dst, l))
    {
      AfterClearing(moved.mem, mem', start, size.Total(), dst, values, k, to, newSize, touched);
      AfterClearing(moved.mem, mem', start, size.Total(), dst, values, l, to, newSize, touched);
      TwoApart(st.mem, copied.mem, moved.mem, mem', from, dst, size.ptrs, k, l);
    }
  }

  /** Before the move the fields lead where they led in the past. */
  lemma PastLinks(past: Mem, st: St, copied: St, start: Addr, size: StructSize, to: Addr, newSize: StructSize,
                  cells: seq<Cell>, touched: iset<Addr>)
    requires FieldsHeld(past, start, size, cells, touched)
    requires DataInPlace(past, copied, start, size, to, newSize, touched)
    ensures forall k :: 0 <= k < size.ptrs ==> SamePointer(past, copied.mem, Slot(Slot(start, size.data), k))
  {
    hide Denotes, Resolve, Pads, Resolved, SamePointer;
    forall k | 0 <= k < size.ptrs
      ensures SamePointer(past, copied.mem, Slot(Slot(start, size.data), k))
    {
      var slot := Slot(Slot(start, size.data), k);
      assert Denotes(past, slot, Fields(cells, size)[k], touched);
      SameLink(past, copied.mem, slot, Fields(cells, size)[k], touched, touched);
      SameIs(past, copied.mem, slot);
    }
  }

  ghost predicate SamePointer(mem: Mem, mem': Mem, at: Addr) {
    && InMem(mem, at) && InMem(mem', at) && At(mem', at) == At(mem, at) && Pads(mem', at) == Pads(mem, at)
    && (forall a :: a in Pads(mem, at) ==> InMem(mem, a))
    && (!At(mem, at).IsNull() ==> Resolve(mem, at).Ok? && Resolve(mem', at) == Resolve(mem, at))
  }

  lemma SameIs(mem: Mem, mem': Mem, at: Addr)
    requires InMem(mem, at) && InMem(mem', at) && At(mem', at) == At(mem, at) && Pads(mem', at) == Pads(mem, at)
    requires forall a :: a in Pads(mem, at) ==> InMem(mem, a)
    requires !At(mem, at).IsNull() ==> Resolve(mem, at).Ok? && Resolve(mem', at) == Resolve(mem, at)
    ensures SamePointer(mem, mem', at)
  {
    hide Pads, Resolve;
  }

  lemma AfterClearing(moved: Mem, mem': Mem, start: Addr, n: nat, dst: Addr, values: seq<Value>, k: nat, to: Addr,
                      newSize: StructSize, touched: iset<Addr>)
    requires SectionMeans(moved, dst, values, touched) && k < |values| && Keeps(moved, mem', Body(start, n))
    requires dst == Slot(to, newSize.data) && |values| <= newSize.ptrs
    requires Body(start, n) <= touched && Body(to, newSize.Total()) !! Body(start, n)
    ensures SamePointer(moved, mem', Slot(dst, k))
  {
    hide Denotes, Resolve, Pads, SamePointer;
    assert Denotes(moved, Slot(dst, k), values[k], touched);
    assert Slot(dst, k) in Body(to, newSize.Total());
    MeaningIsSane(moved, Slot(dst, k), values[k], touched);
    SameLink(moved, mem', Slot(dst, k), values[k], touched, Body(start, n));
    SameIs(moved, mem', Slot(dst, k));
  }

  lemma OneLinked(past: Mem, room: Mem, copied: Mem, moved: Mem, mem': Mem, from: Addr, dst: Addr, n: nat, k: nat)
    requires k < n && LinksMoved(copied, moved, from, dst, n) && SamePointer(past, copied, Slot(from, k))
    requires SamePointer(moved, mem', Slot(dst, k)) && Grows(past, copied) && Grows(copied, moved) && Grows(moved, mem')
    requires forall a :: InMem(copied, a) <==> InMem(room, a)
    ensures FieldLinked(past, room, mem', Slot(from, k), Slot(dst, k))
  {
    hide Resolve;
    assert RefersAlike(copied, moved, Slot(from, k), Slot(dst, k));
    if At(mem', Slot(dst, k)).IsNull() {
      NullHasNoPads(mem', Slot(dst, k));
    }
    hide Pads;
  }

  lemma TwoApart(room: Mem, copied: Mem, moved: Mem, mem': Mem, from: Addr, dst: Addr, n: nat, k: nat, l: nat)
    requires k < l < n && LinksMoved(copied, moved, from, dst, n)
    requires SamePointer(moved, mem', Slot(dst, k)) && SamePointer(moved, mem', Slot(dst, l))
    requires forall a :: InMem(copied, a) <==> InMem(room, a)
    ensures PadsApart(room, mem', Slot(dst, k), Slot(dst, l))
  {
    hide Pads, Resolve;
    assert PadsApart(copied, moved, Slot(dst, k), Slot(dst, l));
  }
}
