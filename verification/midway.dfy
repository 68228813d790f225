/**
 A promotion that is refused on the way: there is room for the larger struct, but none for the landing pad of
 its pointer.
 */
module Midway {
  import opened Wire
  import opened Reader
  import opened Values
  import opened Layout
  import opened Putting
  import opened Promotion
  import opened Walking
  import opened Walked

  /** A struct of one pointer, the struct of one word it leads to, and the size the first one should get. */
  datatype Scene = Scene(at: Addr, start: Addr, leaf: Addr, outer: StructSize, inner: StructSize, larger: StructSize)

  predicate Set(s: Scene) {
    && s.at.seg == s.start.seg == s.leaf.seg == 0
    && s.start.off == s.at.off + 1 && s.leaf.off == s.start.off + 1
    && s.outer.data == 0 && s.outer.ptrs == 1 && s.inner.data == 1 && s.inner.ptrs == 0
    && s.larger.data == 0 && s.larger.ptrs == 2
  }

  /** They fill the only segment, and the allocator grants what it is asked for once. */
  ghost predicate Crowded(st: St, s: Scene) {
    && Set(s) && ValidSt(st)
    && |st.mem| == 1 && |st.mem[0]| == st.caps[0] == s.leaf.off + 1 && st.last == 0
    && |st.plan| == 1 && st.plan[0] == Grant(0)
    && At(st.mem, s.at) == EncodeStruct(0, s.outer) && At(st.mem, s.start) == EncodeStruct(0, s.inner)
  }

  ghost function Inner(st: St, s: Scene): Value
    requires Crowded(st, s)
  {
    Obj(StructShape(s.inner), [Data(At(st.mem, s.leaf))])
  }

  lemma ReadsNext(mem: Mem, at: Addr, size: StructSize, start: Addr)
    requires InMem(mem, at) && At(mem, at) == EncodeStruct(0, size) && start == Slot(at, 1)
    requires start.off + size.Total() <= |mem[at.seg]| && size.Total() > 0
    ensures !At(mem, at).IsNull() && Pads(mem, at) == {} && Tags(Object(StructShape(size), start)) == {}
    ensures Decode(At(mem, at)) == StructPtr(0, size)
    ensures Resolve(mem, at) == Ok(Object(StructShape(size), start))
  {
    hide Decode, TryReadTyped, EncodeStruct;
    StructRoundTrip(0, size);
    NearStructReads(mem, at, 0, size, Unlimited);
  }

  lemma OuterReads(st: St, s: Scene)
    requires Crowded(st, s)
    ensures InMem(st.mem, s.at) && !At(st.mem, s.at).IsNull() && Pads(st.mem, s.at) == {}
    ensures Tags(Object(StructShape(s.outer), s.start)) == {} && Decode(At(st.mem, s.at)).StructPtr?
    ensures Resolve(st.mem, s.at) == Ok(Object(StructShape(s.outer), s.start))
  {
    hide Decode, Resolve, EncodeStruct, Pads, Tags, ValidSt;
    var at, size, start := s.at, s.outer, s.start;
    assert start == Slot(at, 1);
    assert start.off + size.Total() <= |st.mem[at.seg]|;
    ReadsNext(st.mem, at, size, start);
  }

  /** The inner struct, read without the words around it. */
  lemma InnerMeans(st: St, s: Scene, avoid: iset<Addr>)
    requires Crowded(st, s) && s.leaf !in avoid
    ensures Denotes(st.mem, s.start, Inner(st, s), avoid)
  {
    hide Resolve, Pads, Tags, EncodeStruct, Decode, ValidSt;
    ReadsNext(st.mem, s.start, s.inner, s.leaf);
    assert CellAt(st.mem, Slot(s.leaf, 0), Inner(st, s).cells[0], false, avoid);
    ObjectMeans(st.mem, s.start, StructShape(s.inner), s.leaf, Inner(st, s).cells, avoid);
  }

  lemma OuterHeld(st: St, s: Scene)
    requires Crowded(st, s)
    ensures IsStruct(st.mem, s.at, s.outer, s.start)
    ensures HeldStruct(st.mem, s.at, s.outer, s.start, [Ref(Inner(st, s))], iset{})
  {
    hide Resolve, Pads, Tags, EncodeStruct, Decode, ValidSt, Denotes;
    OuterReads(st, s);
    hide Inner;
    InnerMeans(st, s, iset{});
    LeafApart(st, s);
    InnerMeans(st, s, Abandoned(st.mem, s.at, s.start, s.outer.Total()));
    OneHeld(st.mem, s.at, s.outer, s.start, Inner(st, s));
  }

  lemma LeafApart(st: St, s: Scene)
    requires Crowded(st, s)
    ensures InMem(st.mem, s.at) && Pads(st.mem, s.at) == {}
    ensures s.leaf !in Abandoned(st.mem, s.at, s.start, s.outer.Total()) && s.at !in Body(s.start, s.outer.Total())
  {
    hide Resolve, Pads, EncodeStruct, Decode, ValidSt;
    OuterReads(st, s);
  }

  lemma OneHeld(mem: Mem, at: Addr, size: StructSize, start: Addr, v: Value)
    requires IsStruct(mem, at, size, start) && !At(mem, at).IsNull() && size.data == 0 && size.ptrs == 1
    requires Pads(mem, at) == {} && Tags(Object(StructShape(size), start)) == {} && at !in Body(start, size.Total())
    requires Denotes(mem, start, v, iset{}) && Denotes(mem, start, v, Abandoned(mem, at, start, size.Total()))
    ensures HeldStruct(mem, at, size, start, [Ref(v)], iset{})
  {
    hide Resolve, Pads, Tags, Denotes, Abandoned;
    NonNullMeaning(mem, start, v, iset{});
    assert Slot(start, 0) == start;
    assert CellAt(mem, Slot(start, 0), Ref(v), true, iset{});
    ObjectMeans(mem, at, StructShape(size), start, [Ref(v)], iset{});
  }

  /** Two full segments, and nothing more is granted. */
  ghost predicate Full(st: St, s: Scene) {
    && Set(s) && ValidSt(st)
    && |st.mem| == 2 && |st.mem[0]| == st.caps[0] == s.leaf.off + 1 && |st.mem[1]| == st.caps[1] == 3 && |st.plan| == 0
    && At(st.mem, s.start) == EncodeStruct(0, s.inner)
  }

  /** The room for the larger struct is a new segment, which it fills with its landing pad. */
  lemma RoomElsewhere(st: St, s: Scene)
    requires Crowded(st, s)
    ensures InMem(st.mem, s.at)
    ensures var room := AllocStruct(ClearPtrs(st, s.at), s.at, s.larger);
            room.Placed? && Full(room.st, s) && room.start.seg == 1 && room.start.off == 1
  {
    hide EncodeStruct, Resolve, ClearPtrs, AllocStruct, Full;
    ClearedStill(st, s);
    NoRoomHere(ClearPtrs(st, s.at), s);
  }

  lemma ClearedStill(st: St, s: Scene)
    requires Crowded(st, s)
    ensures InMem(st.mem, s.at)
    ensures var st' := ClearPtrs(st, s.at);
            && ValidSt(st') && |st'.mem| == 1 && |st'.mem[0]| == |st.mem[0]|
            && st'.caps == st.caps && st'.plan == st.plan && st'.last == 0
            && At(st'.mem, s.start) == EncodeStruct(0, s.inner)
  {
    hide EncodeStruct, Decode, Resolve, SetWord, ValidSt;
    OuterReads(st, s);
    SetWordGood(st, s.at, NULL);
    SameLengths(st, s.at, NULL);
    assert ClearPtrs(st, s.at) == SetWord(st, s.at, NULL);
  }

  /** Without room in its segment, the struct gets a new one. */
  lemma NoRoomHere(st: St, s: Scene)
    requires Set(s) && ValidSt(st)
    requires |st.mem| == 1 && |st.mem[0]| == st.caps[0] == s.leaf.off + 1 && st.last == 0
    requires |st.plan| == 1 && st.plan[0] == Grant(0) && At(st.mem, s.start) == EncodeStruct(0, s.inner)
    ensures var room := AllocStruct(st, s.at, s.larger);
            room.Placed? && Full(room.st, s) && room.start.seg == 1 && room.start.off == 1
  {
    hide EncodeStruct, EncodeFar, PointerWord, SetWord;
    ArenaAllocGood(st, s.larger.Total() + 1);
    var there := ArenaAlloc(st, s.larger.Total() + 1);
    PlacedElsewhere(there.st, s, there.at);
  }

  lemma PlacedElsewhere(st: St, s: Scene, pad: Addr)
    requires Full(st, s) && pad.seg == 1 && pad.off == 0
    ensures Full(PlaceFar(st, s.at, StructShape(s.larger), pad), s)
  {
    hide EncodeStruct, EncodeFar, PointerWord, SetWord;
    InRange(st, pad);
    var far := EncodeFar(pad.seg, pad.off, false);
    SetWordGood(st, s.at, far);
    SetWordGood(SetWord(st, s.at, far), pad, PointerWord(StructShape(s.larger), 0));
    SameLengths(st, s.at, far);
    SameLengths(SetWord(st, s.at, far), pad, PointerWord(StructShape(s.larger), 0));
  }

  lemma SameLengths(st: St, a: Addr, w: Word)
    requires InMem(st.mem, a)
    ensures SetWord(st, a, w).(mem := st.mem) == st
    ensures |SetWord(st, a, w).mem| == |st.mem|
    ensures forall i :: 0 <= i < |st.mem| ==> |SetWord(st, a, w).mem[i]| == |st.mem[i]|
  {
  }

  /** The pointer leads to another segment, and there is no room for a pad. */
  lemma NoPad(st: St, s: Scene, to: Addr)
    requires Full(st, s) && InMem(st.mem, to) && to.seg == 1
    ensures Sane(st.mem, s.start) && Transfer(st, s.start, to).Stuck?
  {
    hide EncodeStruct, Decode, Resolve, WithContentOffset, ContentOffset, PadNear, PadDouble;
    ReadsNext(st.mem, s.start, s.inner, s.leaf);
    NearContentInside(st.mem, s.start);
  }

  lemma MoveIsStuck(st: St, s: Scene, to: Addr)
    requires Full(st, s) && to.seg == 1 && to.off == 1
    ensures HasBody(st.mem, s.start, s.outer.Total()) && HasBody(st.mem, to, s.larger.Total())
    ensures MoveStruct(st, s.start, s.outer, to, s.larger).Stuck?
  {
    hide EncodeStruct, Resolve, Transfer, Sane, TransferSection;
    NoPad(st, s, to);
    assert Slot(s.start, s.outer.data) == s.start && Slot(to, s.larger.data) == to;
    FirstIsStuck(st, s.start, to, s.outer.ptrs);
  }

  lemma FirstIsStuck(st: St, from: Addr, to: Addr, n: nat)
    requires ValidSt(st) && HasBody(st.mem, from, n) && HasBody(st.mem, to, n) && n == 1
    requires Sane(st.mem, from) && Transfer(st, from, to).Stuck?
    ensures TransferSection(st, from, to, n).Stuck?
  {
    hide Resolve, Transfer, Sane;
    assert Slot(from, n - 1) == from && Slot(to, n - 1) == to;
    assert TransferSection(st, from, to, n - 1) == Moved(st);
  }

  lemma RefusedMidway(st: St, s: Scene)
    requires Crowded(st, s)
    ensures IsStruct(st.mem, s.at, s.outer, s.start)
    ensures HeldStruct(st.mem, s.at, s.outer, s.start, [Ref(Inner(st, s))], iset{})
    ensures var r := ToStructMut(st, s.at, s.outer, s.start, s.larger);
            r.NotPromoted? && InMem(r.st.mem, s.at) && !At(r.st.mem, s.at).IsNull()
  {
    hide Resolve, HeldStruct, EncodeStruct, ClearPtrs, AllocStruct, Inner, MoveStruct, Full;
    OuterHeld(st, s);
    RoomElsewhere(st, s);
    var room := AllocStruct(ClearPtrs(st, s.at), s.at, s.larger);
    assert s.larger.Max(s.outer) == s.larger;
    MoveIsStuck(room.st, s, room.start);
    RefusedPromotion(st, s.at, s.outer, s.start, [Ref(Inner(st, s))], s.larger, iset{});
  }

  /** There is such a message. */
  lemma CrowdedExists() returns (st: St, s: Scene)
    ensures Crowded(st, s)
  {
    hide EncodeStruct;
    s := Scene(Addr(0, 0), Addr(0, 1), Addr(0, 2), StructSize(0, 1), StructSize(1, 0), StructSize(0, 2));
    st := St([[EncodeStruct(0, s.outer), EncodeStruct(0, s.inner), Word(5, 0)]], [3], 0, [Grant(0)]);
  }

  /**
   A promotion that is refused does not always clear the pointer: there is a message with a struct that is held
   by one pointer, of which the promotion is refused and leaves a pointer to the larger struct.
   */
  lemma NotCleared()
    ensures exists st, s: Scene, cells ::
              && ValidSt(st) && IsStruct(st.mem, s.at, s.outer, s.start)
              && HeldStruct(st.mem, s.at, s.outer, s.start, cells, iset{})
              && var r := ToStructMut(st, s.at, s.outer, s.start, s.larger);
                 r.NotPromoted? && InMem(r.st.mem, s.at) && !At(r.st.mem, s.at).IsNull()
  {
    hide HeldStruct, IsStruct, ToStructMut, Inner;
    var st, s := CrowdedExists();
    RefusedMidway(st, s);
  }
}
