/**
 Runs of the builder in which allocations, data writes and promotions of structs follow one another.
 */
module PromotedRuns {
  import opened Wire
  import opened Reader
  import opened Values
  import opened Layout
  import opened Putting
  import opened Promotion
  import opened Building
  import opened BuiltTrees
  import opened Links
  import opened ListPromotion
  import opened Upgrading
  import opened Options

  /** Where the pointer at `a` is after the fields of a struct were moved. */
  function Moved(a: Addr, start: Addr, size: StructSize, to: Addr, newSize: StructSize): Addr {
    if a.seg == start.seg && start.off + size.data <= a.off < start.off + size.Total()
    then Slot(to, newSize.data + (a.off - start.off - size.data))
    else a
  }

  /** The objects after struct `i` was promoted: it is elsewhere and larger, and so are the pointers it holds. */
  function Swapped(b: Build, i: nat, newSize: StructSize, to: Addr, st: St): (b': Build)
    requires i < |b.objects| && b.objects[i].shape.StructShape?
    ensures |b'.objects| == |b.objects| && b'.st == st
    ensures b'.objects[i] == Placement(b.objects[i].at, StructShape(newSize), to)
    ensures forall j :: 0 <= j < |b.objects| && j != i ==> b'.objects[j] == Carried(b, i, newSize, to, j)
  {
    Build(st, seq(|b.objects|, j requires 0 <= j < |b.objects| =>
      if j == i then Placement(b.objects[i].at, StructShape(newSize), to) else Carried(b, i, newSize, to, j)))
  }

  function Carried(b: Build, i: nat, newSize: StructSize, to: Addr, j: nat): Placement
    requires i < |b.objects| && b.objects[i].shape.StructShape? && j < |b.objects|
  {
    var p := b.objects[i];
    b.objects[j].(at := Moved(b.objects[j].at, p.start, p.shape.size, to, newSize))
  }

  /** What the promotion of struct `i` did to the message: `room` is the message after the allocation. */
  ghost predicate Replaced(b: Build, i: nat, newSize: StructSize, to: Addr, room: Mem, st: St) {
    && i < |b.objects| && b.objects[i].shape.StructShape? && b.objects[i].shape.size.FitsInside(newSize)
    && ValidSt(st) && Keeps(b.st.mem, st.mem, GivenUp(b, i)) && Grows(b.st.mem, room) && Grows(room, st.mem)
    && NewStruct(b.st.mem, room, st.mem, b.objects[i].at, newSize, to)
    && FieldsLinked(b.st.mem, room, st.mem, Slot(b.objects[i].start, b.objects[i].shape.size.data),
                    Slot(to, newSize.data), b.objects[i].shape.size.ptrs)
    && forall m :: newSize.data + b.objects[i].shape.size.ptrs <= m < newSize.Total() ==>
         At(st.mem, Slot(to, m)).IsNull()
  }

  /** The pointer leads to the larger struct, in words there was no use for before. */
  ghost predicate NewStruct(past: Mem, room: Mem, mem: Mem, at: Addr, newSize: StructSize, to: Addr) {
    && InMem(past, at) && InMem(mem, at) && !At(mem, at).IsNull()
    && Resolve(mem, at) == Ok(Object(StructShape(newSize), to))
    && Body(to, newSize.Total()) <= AllWords(room) - AllWords(past)
    && (forall k :: 0 <= k < newSize.Total() ==> InMem(mem, Slot(to, k)))
    && (forall a :: a in Pads(mem, at) ==> InMem(room, a) && !InMem(past, a) && a !in Body(to, newSize.Total()))
  }

  // ----- The words of the objects

  lemma NewOwn(b: Build, i: nat, newSize: StructSize, to: Addr, room: Mem, st: St)
    requires Replaced(b, i, newSize, to, room, st)
    ensures var p := Placement(b.objects[i].at, StructShape(newSize), to);
            Own(st.mem, p) <= AllWords(room) - AllWords(b.st.mem)
  {
    hide Resolve, Pads, GivenUp, FieldsLinked;
  }

  lemma NewLive(b: Build, i: nat, newSize: StructSize, to: Addr, room: Mem, st: St)
    requires Sound(b) && Replaced(b, i, newSize, to, room, st)
    ensures Live(st.mem, Placement(b.objects[i].at, StructShape(newSize), to))
  {
    hide Resolve, Pads, GivenUp, FieldsLinked, Sound;
    NewOwn(b, i, newSize, to, room, st);
    RootThere(b, i);
  }

  lemma RootThere(b: Build, i: nat)
    requires Sound(b) && i < |b.objects|
    ensures InMem(b.st.mem, ROOT)
  {
    hide Words, IsPtrSlot, AllLive, AllApart, AllHeld;
  }

  /** The pointer to object `j` is a field of struct `i`. */
  predicate IsMoved(b: Build, i: nat, j: nat)
    requires i < |b.objects| && b.objects[i].shape.StructShape? && j < |b.objects|
  {
    var p, a := b.objects[i], b.objects[j].at;
    a.seg == p.start.seg && p.start.off + p.shape.size.data <= a.off < p.start.off + p.shape.size.Total()
  }

  /** An object whose pointer is elsewhere keeps everything. */
  lemma OtherStays(b: Build, i: nat, newSize: StructSize, to: Addr, room: Mem, st: St, j: nat)
    requires Sound(b) && TreeLike(b) && Replaced(b, i, newSize, to, room, st)
    requires j < |b.objects| && j != i && !IsMoved(b, i, j)
    ensures Live(st.mem, b.objects[j]) && Own(st.mem, b.objects[j]) == Own(b.st.mem, b.objects[j])
    ensures InMem(b.st.mem, b.objects[j].at)
  {
    hide Resolve, Pads, Tags, Words, FieldsLinked, NewStruct, Sound, TreeLike, Own;
    var p := b.objects[j];
    PointerOutside(b, i, j);
    OwnWords(b, j);
    forall a | a in Pads(b.st.mem, p.at) + Tags(Object(p.shape, p.start))
      ensures SameAt(b.st.mem, st.mem, a)
    {
      PointerNotAround(b, j, i);
      OwnsApart(b, i, j);
      assert a in Around(b.st.mem, p) && a in Own(b.st.mem, p);
    }
    ResolveFrame(b.st.mem, st.mem, p.at);
    LiveStill(b, j, st.mem);
  }

  lemma LiveStill(b: Build, j: nat, mem': Mem)
    requires Sound(b) && j < |b.objects| && Grows(b.st.mem, mem')
    requires InMem(b.st.mem, b.objects[j].at) && InMem(mem', b.objects[j].at)
    requires At(mem', b.objects[j].at) == At(b.st.mem, b.objects[j].at)
    requires Resolve(mem', b.objects[j].at) == Resolve(b.st.mem, b.objects[j].at)
    requires Pads(mem', b.objects[j].at) == Pads(b.st.mem, b.objects[j].at)
    ensures Live(mem', b.objects[j]) && Own(mem', b.objects[j]) == Own(b.st.mem, b.objects[j])
  {
    hide Resolve, Pads, Tags, Words, AllApart, AllHeld;
    assert Live(b.st.mem, b.objects[j]);
    assert Around(mem', b.objects[j]) == Around(b.st.mem, b.objects[j]);
  }

  lemma PointerOutside(b: Build, i: nat, j: nat)
    requires Sound(b) && TreeLike(b) && i < |b.objects| && j < |b.objects| && j != i
    requires b.objects[i].shape.StructShape? && !IsMoved(b, i, j)
    ensures InMem(b.st.mem, b.objects[j].at) && b.objects[j].at !in GivenUp(b, i)
  {
    hide Words, Sound, TreeLike, Own;
    OwnWords(b, j);
    DistinctPointers(b, i, j);
    RootUnowned(b, i);
    if b.objects[j].at != ROOT {
      var h, k := HolderOf(b, j);
      OwnWords(b, h);
      OwnsApart(b, i, h);
      if h == i {
        FieldIsMoved(b, i, j, k);
        assert false;
      }
    }
  }

  lemma FieldIsMoved(b: Build, i: nat, j: nat, k: nat)
    requires i < |b.objects| && j < |b.objects| && b.objects[i].shape.StructShape?
    requires IsField(b.objects[i], k) && b.objects[j].at == Slot(b.objects[i].start, k)
    ensures IsMoved(b, i, j)
  {
  }

  /** An object whose pointer moved has new pads, which nothing had room for before. */
  lemma CarriedStays(b: Build, i: nat, newSize: StructSize, to: Addr, room: Mem, st: St, j: nat)
    requires Sound(b) && TreeLike(b) && Replaced(b, i, newSize, to, room, st)
    requires j < |b.objects| && j != i && IsMoved(b, i, j)
    ensures Live(st.mem, Carried(b, i, newSize, to, j))
    ensures var p := Carried(b, i, newSize, to, j);
            forall a :: a in Own(st.mem, p) ==>
              a in Own(b.st.mem, b.objects[j]) || (a in Pads(st.mem, p.at) && InMem(st.mem, a) && !InMem(room, a))
  {
    hide Resolve, Pads, Tags, Words, NewStruct, Sound, TreeLike, PadsApart, FieldLinked;
    var p, q := b.objects[i], b.objects[j];
    var k := q.at.off - p.start.off - p.shape.size.data;
    OwnWords(b, j);
    RootThere(b, i);
    RootUnowned(b, j);
    var from, at := Slot(p.start, p.shape.size.data), Slot(to, newSize.data);
    assert FieldLinked(b.st.mem, room, st.mem, Slot(from, k), Slot(at, k));
    assert Slot(from, k) == q.at && Slot(at, k) == Moved(q.at, p.start, p.shape.size, to, newSize);
    LiveParts(b, j);
    CarriedLive(b.st.mem, room, st.mem, q, Slot(at, k));
  }

  lemma LiveParts(b: Build, j: nat)
    requires Sound(b) && j < |b.objects|
    ensures Live(b.st.mem, b.objects[j])
  {
    hide Live, AllApart, AllHeld;
  }

  lemma CarriedLive(past: Mem, room: Mem, mem: Mem, q: Placement, at: Addr)
    requires Live(past, q) && Grows(past, room) && Grows(room, mem) && FieldLinked(past, room, mem, q.at, at)
    requires InMem(past, ROOT)
    ensures Live(mem, q.(at := at))
    ensures forall a :: a in Own(mem, q.(at := at)) ==>
              a in Own(past, q) || (a in Pads(mem, at) && InMem(mem, a) && !InMem(room, a))
  {
    hide Resolve, Pads, Tags, Words;
    var p := q.(at := at);
    var body, tags := Body(q.start, Words(q.shape)), Tags(Object(q.shape, q.start));
    forall a | a in Around(mem, p)
      ensures a in Around(past, q) || (a in Pads(mem, at) && InMem(mem, a) && !InMem(room, a))
      ensures a !in body && InMem(mem, a) && a != ROOT
    {
      assert a in Around(past, q) ==> a in Own(past, q);
      assert a in body ==> a in Own(past, q);
    }
    forall a | a in Pads(mem, at)
      ensures a !in tags
    {
      assert a in tags ==> a in Around(past, q) && a in Own(past, q);
    }
    assert Own(mem, p) <= AllWords(mem);
  }

  // ----- The message is as sound as before

  lemma SwappedLive(b: Build, i: nat, newSize: StructSize, to: Addr, room: Mem, st: St)
    requires Sound(b) && TreeLike(b) && Replaced(b, i, newSize, to, room, st)
    ensures AllLive(Swapped(b, i, newSize, to, st))
  {
    hide Sound, TreeLike, Replaced, Live, Moved, Carried;
    ReplacedStruct(b, i, newSize, to, room, st);
    var b' := Swapped(b, i, newSize, to, st);
    forall j | 0 <= j < |b'.objects|
      ensures Live(b'.st.mem, b'.objects[j])
    {
      if j == i {
        NewLive(b, i, newSize, to, room, st);
      } else if IsMoved(b, i, j) {
        CarriedStays(b, i, newSize, to, room, st, j);
      } else {
        OtherStays(b, i, newSize, to, room, st, j);
        NotCarried(b, i, newSize, to, j);
      }
    }
  }

  lemma ReplacedStruct(b: Build, i: nat, newSize: StructSize, to: Addr, room: Mem, st: St)
    requires Replaced(b, i, newSize, to, room, st)
    ensures i < |b.objects| && b.objects[i].shape.StructShape? && ValidSt(st)
    ensures Grows(b.st.mem, room) && Grows(room, st.mem)
  {
    hide GivenUp, NewStruct, FieldsLinked;
  }

  lemma NotCarried(b: Build, i: nat, newSize: StructSize, to: Addr, j: nat)
    requires i < |b.objects| && b.objects[i].shape.StructShape? && j < |b.objects| && !IsMoved(b, i, j)
    ensures Carried(b, i, newSize, to, j) == b.objects[j]
  {
  }

  /** The words of an object after the promotion: its old ones, and new pads. */
  ghost predicate MostlyOld(b: Build, room: Mem, mem: Mem, p: Placement, j: nat)
    requires j < |b.objects|
  {
    forall a :: a in Own(mem, p) ==>
      a in Own(b.st.mem, b.objects[j]) || (InMem(mem, p.at) && a in Pads(mem, p.at) && !InMem(room, a))
  }

  lemma AfterIsMostlyOld(b: Build, i: nat, newSize: StructSize, to: Addr, room: Mem, st: St, j: nat)
    requires Sound(b) && TreeLike(b) && Replaced(b, i, newSize, to, room, st) && j < |b.objects| && j != i
    ensures MostlyOld(b, room, st.mem, Carried(b, i, newSize, to, j), j)
    ensures Own(b.st.mem, b.objects[j]) <= AllWords(b.st.mem)
    ensures !IsMoved(b, i, j) ==> Own(st.mem, Carried(b, i, newSize, to, j)) == Own(b.st.mem, b.objects[j])
  {
    hide Sound, TreeLike, Replaced, Own, Moved, Pads;
    ReplacedStruct(b, i, newSize, to, room, st);
    OldOwn(b, j);
    if IsMoved(b, i, j) {
      CarriedStays(b, i, newSize, to, room, st, j);
      CarriedIn(b, i, newSize, to, room, st, j);
    } else {
      OtherStays(b, i, newSize, to, room, st, j);
      NotCarried(b, i, newSize, to, j);
    }
  }

  lemma CarriedIn(b: Build, i: nat, newSize: StructSize, to: Addr, room: Mem, st: St, j: nat)
    requires Replaced(b, i, newSize, to, room, st) && j < |b.objects| && IsMoved(b, i, j)
    ensures InMem(st.mem, Carried(b, i, newSize, to, j).at)
  {
    hide GivenUp, FieldsLinked, Resolve, Pads, Body;
  }

  lemma OldOwn(b: Build, j: nat)
    requires Sound(b) && j < |b.objects|
    ensures Own(b.st.mem, b.objects[j]) <= AllWords(b.st.mem)
  {
    hide Sound, Resolve, Own, Around, Words, Pads, Tags;
    LiveParts(b, j);
  }

  lemma SwappedApart(b: Build, i: nat, newSize: StructSize, to: Addr, room: Mem, st: St)
    requires Sound(b) && TreeLike(b) && Replaced(b, i, newSize, to, room, st)
    ensures AllApart(Swapped(b, i, newSize, to, st))
  {
    hide Sound, TreeLike, Replaced, Own, Moved, Carried;
    ReplacedStruct(b, i, newSize, to, room, st);
    var b' := Swapped(b, i, newSize, to, st);
    forall j, l | 0 <= j < l < |b'.objects|
      ensures Own(b'.st.mem, b'.objects[j]) !! Own(b'.st.mem, b'.objects[l])
    {
      if j == i {
        ApartFromNew(b, i, newSize, to, room, st, l);
      } else if l == i {
        ApartFromNew(b, i, newSize, to, room, st, j);
      } else {
        TwoOthersApart(b, i, newSize, to, room, st, j, l);
      }
    }
  }

  lemma ApartFromNew(b: Build, i: nat, newSize: StructSize, to: Addr, room: Mem, st: St, j: nat)
    requires Sound(b) && TreeLike(b) && Replaced(b, i, newSize, to, room, st) && j < |b.objects| && j != i
    ensures Own(st.mem, Placement(b.objects[i].at, StructShape(newSize), to))
         !! Own(st.mem, Carried(b, i, newSize, to, j))
  {
    hide Sound, TreeLike, Replaced, Own, Moved, Carried, Pads;
    NewOwn(b, i, newSize, to, room, st);
    AfterIsMostlyOld(b, i, newSize, to, room, st, j);
  }

  lemma TwoOthersApart(b: Build, i: nat, newSize: StructSize, to: Addr, room: Mem, st: St, j: nat, l: nat)
    requires Sound(b) && TreeLike(b) && Replaced(b, i, newSize, to, room, st)
    requires j < |b.objects| && l < |b.objects| && j != i && l != i && j != l
    ensures Own(st.mem, Carried(b, i, newSize, to, j)) !! Own(st.mem, Carried(b, i, newSize, to, l))
  {
    hide Sound, TreeLike, Replaced, Own, Moved, Carried, Pads;
    ReplacedStruct(b, i, newSize, to, room, st);
    OwnsApart(b, j, l);
    AfterIsMostlyOld(b, i, newSize, to, room, st, j);
    AfterIsMostlyOld(b, i, newSize, to, room, st, l);
    if IsMoved(b, i, j) && IsMoved(b, i, l) {
      NewPadsApart(b, i, newSize, to, room, st, j, l);
    }
  }

  lemma NewPadsApart(b: Build, i: nat, newSize: StructSize, to: Addr, room: Mem, st: St, j: nat, l: nat)
    requires Sound(b) && TreeLike(b) && Replaced(b, i, newSize, to, room, st) && j < |b.objects| && l < |b.objects|
    requires j != l && IsMoved(b, i, j) && IsMoved(b, i, l)
    ensures var p, q := Carried(b, i, newSize, to, j), Carried(b, i, newSize, to, l);
            InMem(st.mem, p.at) && InMem(st.mem, q.at)
            && forall a :: a in Pads(st.mem, p.at) && a in Pads(st.mem, q.at) ==> InMem(room, a)
  {
    hide Sound, GivenUp, NewStruct, FieldLinked, Pads;
    var p := b.objects[i];
    DistinctPointers(b, j, l);
    hide TreeLike;
    var from, at := Slot(p.start, p.shape.size.data), Slot(to, newSize.data);
    var k, m := b.objects[j].at.off - from.off, b.objects[l].at.off - from.off;
    assert Carried(b, i, newSize, to, j).at == Slot(at, k) && Carried(b, i, newSize, to, l).at == Slot(at, m);
    if k < m {
      assert PadsApart(room, st.mem, Slot(at, k), Slot(at, m));
    } else {
      assert PadsApart(room, st.mem, Slot(at, m), Slot(at, k));
    }
  }

  lemma SwappedHeld(b: Build, i: nat, newSize: StructSize, to: Addr, room: Mem, st: St)
    requires Sound(b) && TreeLike(b) && Replaced(b, i, newSize, to, room, st)
    ensures AllHeld(Swapped(b, i, newSize, to, st))
  {
    hide Sound, TreeLike, Replaced, Own, Moved, Carried, HeldBy;
    ReplacedStruct(b, i, newSize, to, room, st);
    var b' := Swapped(b, i, newSize, to, st);
    forall j | 0 <= j < |b'.objects| && b'.objects[j].at != ROOT
      ensures exists h :: 0 <= h < |b'.objects| && HeldBy(b'.objects[j], b'.objects[h])
    {
      if j != i && IsMoved(b, i, j) {
        HeldByNew(b, i, newSize, to, room, st, j);
        assert HeldBy(b'.objects[j], b'.objects[i]);
      } else {
        if j != i {
          NotCarried(b, i, newSize, to, j);
        }
        var h, k := HolderOf(b, j);
        StillHeld(b, i, newSize, to, st, j, h, k);
        assert HeldBy(b'.objects[j], b'.objects[h]);
      }
    }
  }

  lemma HeldByNew(b: Build, i: nat, newSize: StructSize, to: Addr, room: Mem, st: St, j: nat)
    requires Replaced(b, i, newSize, to, room, st) && j < |b.objects| && j != i && IsMoved(b, i, j)
    ensures HeldBy(Carried(b, i, newSize, to, j), Placement(b.objects[i].at, StructShape(newSize), to))
  {
    hide GivenUp, NewStruct, FieldsLinked;
    var k := newSize.data + (b.objects[j].at.off - b.objects[i].start.off - b.objects[i].shape.size.data);
    assert IsField(Placement(b.objects[i].at, StructShape(newSize), to), k);
  }

  lemma StillHeld(b: Build, i: nat, newSize: StructSize, to: Addr, st: St, j: nat, h: nat, k: nat)
    requires Sound(b) && TreeLike(b) && i < |b.objects| && b.objects[i].shape.StructShape?
    requires j < |b.objects| && h < |b.objects| && (j == i || !IsMoved(b, i, j))
    requires IsField(b.objects[h], k) && b.objects[j].at == Slot(b.objects[h].start, k)
    ensures h != i && HeldBy(b.objects[j], Carried(b, i, newSize, to, h))
    ensures HeldBy(Swapped(b, i, newSize, to, st).objects[j], Swapped(b, i, newSize, to, st).objects[h])
  {
    hide Sound, TreeLike, Moved, Words, IsPtrSlot;
    OwnWords(b, j);
    if h == i {
      if j == i {
        HoldsLater(b, i, k, i);
      } else {
        FieldIsMoved(b, i, j, k);
      }
      assert false;
    }
    assert IsField(Carried(b, i, newSize, to, h), k);
    if j != i {
      NotCarried(b, i, newSize, to, j);
    }
  }

  lemma SwappedSound(b: Build, i: nat, newSize: StructSize, to: Addr, room: Mem, st: St)
    requires Sound(b) && TreeLike(b) && Replaced(b, i, newSize, to, room, st)
    ensures Sound(Swapped(b, i, newSize, to, st))
  {
    hide TreeLike, Replaced, AllLive, AllApart, AllHeld;
    ReplacedStruct(b, i, newSize, to, room, st);
    SwappedLive(b, i, newSize, to, room, st);
    SwappedApart(b, i, newSize, to, room, st);
    SwappedHeld(b, i, newSize, to, room, st);
  }

  lemma SwappedTreeLike(b: Build, i: nat, newSize: StructSize, to: Addr, room: Mem, st: St)
    requires Sound(b) && TreeLike(b) && Replaced(b, i, newSize, to, room, st)
    ensures TreeLike(Swapped(b, i, newSize, to, st))
  {
    hide Sound, TreeLike, Replaced, Moved, Carried, IsField, FieldLeads;
    ReplacedStruct(b, i, newSize, to, room, st);
    var b' := Swapped(b, i, newSize, to, st);
    forall m, h | 0 <= m < |b'.objects| && IsField(b'.objects[m], h)
      ensures FieldLeads(b', m, h)
    {
      if m == i {
        NewFieldLeads(b, i, newSize, to, room, st, h);
      } else {
        SameFields(b, i, newSize, to, m, h);
        OtherFieldLeads(b, i, newSize, to, room, st, m, h);
      }
    }
    forall j, l | 0 <= j < l < |b'.objects|
      ensures b'.objects[j].at != b'.objects[l].at
    {
      StillDistinct(b, i, newSize, to, room, st, j, l);
    }
    hide Swapped;
    TreeLikeIs(b');
  }

  lemma SameFields(b: Build, i: nat, newSize: StructSize, to: Addr, m: nat, h: nat)
    requires i < |b.objects| && b.objects[i].shape.StructShape? && m < |b.objects|
    ensures IsField(Carried(b, i, newSize, to, m), h) == IsField(b.objects[m], h)
  {
    hide Words, IsPtrSlot, Moved;
  }

  lemma TreeLikeIs(b: Build)
    requires forall m, h :: 0 <= m < |b.objects| && IsField(b.objects[m], h) ==> FieldLeads(b, m, h)
    requires forall j, l :: 0 <= j < l < |b.objects| ==> b.objects[j].at != b.objects[l].at
    ensures TreeLike(b)
  {
    hide FieldLeads, IsField;
  }

  lemma StillDistinct(b: Build, i: nat, newSize: StructSize, to: Addr, room: Mem, st: St, j: nat, l: nat)
    requires Sound(b) && TreeLike(b) && Replaced(b, i, newSize, to, room, st)
    requires j < |b.objects| && l < |b.objects| && j != l
    ensures Swapped(b, i, newSize, to, st).objects[j].at != Swapped(b, i, newSize, to, st).objects[l].at
  {
    hide Sound, GivenUp, FieldsLinked, Resolve, Pads;
    DistinctPointers(b, j, l);
    hide TreeLike;
    OwnWords(b, j);
    OwnWords(b, l);
    hide Own, Tags, Words;
    MovedIsNew(b, i, newSize, to, room, st, j);
    MovedIsNew(b, i, newSize, to, room, st, l);
  }

  lemma MovedIsNew(b: Build, i: nat, newSize: StructSize, to: Addr, room: Mem, st: St, j: nat)
    requires Replaced(b, i, newSize, to, room, st) && j < |b.objects|
    ensures IsMoved(b, i, j) ==> !InMem(b.st.mem, Carried(b, i, newSize, to, j).at)
  {
    hide GivenUp, FieldsLinked, Resolve, Pads, Body;
    if IsMoved(b, i, j) {
      var p := b.objects[i];
      BodySlots(to, newSize.Total());
      assert Carried(b, i, newSize, to, j).at
          == Slot(to, newSize.data + (b.objects[j].at.off - p.start.off - p.shape.size.data));
    }
  }

  /** A field of the larger struct is null, or the pointer the old field was moved to. */
  lemma NewFieldLeads(b: Build, i: nat, newSize: StructSize, to: Addr, room: Mem, st: St, h: nat)
    requires Sound(b) && TreeLike(b) && Replaced(b, i, newSize, to, room, st)
    requires IsField(Placement(b.objects[i].at, StructShape(newSize), to), h)
    ensures FieldLeads(Swapped(b, i, newSize, to, st), i, h)
  {
    hide Sound, GivenUp, Resolve, Pads, PadsApart;
    var p := b.objects[i];
    var size, b' := p.shape.size, Swapped(b, i, newSize, to, st);
    var k := h - newSize.data;
    if k < size.ptrs {
      var from, at := Slot(p.start, size.data), Slot(to, newSize.data);
      assert FieldLinked(b.st.mem, room, st.mem, Slot(from, k), Slot(at, k));
      assert IsField(p, size.data + k);
      assert FieldLeads(b, i, size.data + k);
      if !At(b.st.mem, Slot(from, k)).IsNull() {
        var j :| i < j < |b.objects| && b.objects[j].at == Slot(p.start, size.data + k);
        assert b'.objects[j].at == Slot(to, h);
      }
    }
  }

  /** A field of another object leads where it led. */
  lemma OtherFieldLeads(b: Build, i: nat, newSize: StructSize, to: Addr, room: Mem, st: St, m: nat, h: nat)
    requires Sound(b) && TreeLike(b) && Replaced(b, i, newSize, to, room, st) && m < |b.objects| && m != i
    requires IsField(b.objects[m], h)
    ensures FieldLeads(Swapped(b, i, newSize, to, st), m, h)
  {
    hide Sound, FieldsLinked, NewStruct, Resolve, Pads, Own, IsField, Moved, Body;
    var slot, b' := Slot(b.objects[m].start, h), Swapped(b, i, newSize, to, st);
    assert FieldLeads(b, m, h);
    FieldOwned(b, m, h);
    OwnsApart(b, i, m);
    BodyOwned(b, i);
    OwnWords(b, i);
    if slot == b.objects[i].at {
      HoldsLater(b, m, h, i);
      assert b'.objects[i].at == slot;
    } else if !At(b.st.mem, slot).IsNull() {
      var j :| m < j < |b.objects| && b.objects[j].at == slot;
      NotMovedOutside(b, i, j);
      NotCarried(b, i, newSize, to, j);
      assert b'.objects[j].at == slot;
    }
  }

  lemma FieldOwned(b: Build, m: nat, h: nat)
    requires Sound(b) && m < |b.objects| && IsField(b.objects[m], h)
    ensures Slot(b.objects[m].start, h) in Own(b.st.mem, b.objects[m])
  {
    hide Sound, Own, Words, IsPtrSlot;
    OwnWords(b, m);
  }

  lemma NotMovedOutside(b: Build, i: nat, j: nat)
    requires i < |b.objects| && b.objects[i].shape.StructShape? && j < |b.objects|
    requires b.objects[j].at !in Body(b.objects[i].start, Words(b.objects[i].shape))
    ensures !IsMoved(b, i, j)
  {
  }

  // ----- The promotion

  /** The promotion of a struct of a message that was built does that to it. */
  lemma PromotionReplaces(b: Build, i: nat, expected: StructSize)
    requires Sound(b) && TreeLike(b) && i < |b.objects| && b.objects[i].shape.StructShape?
    requires !expected.FitsInside(b.objects[i].shape.size)
    requires var p := b.objects[i];
             && ValidSt(b.st) && IsStruct(b.st.mem, p.at, p.shape.size, p.start)
             && ToStructMut(b.st, p.at, p.shape.size, p.start, expected).Promoted?
    ensures var p := b.objects[i];
            var r := ToStructMut(b.st, p.at, p.shape.size, p.start, expected);
            Replaced(b, i, r.size, r.start, AllocStruct(ClearPtrs(b.st, p.at), p.at, r.size).st.mem, r.st)
  {
    hide Sound, TreeLike, Denotes, Resolve, Pads, AllocStruct, ClearPtrs, PromoteInto, PromotionReady, Readable, Body,
         HeldStruct, GivenUp, CanPromote, Tree, Outside, Abandoned, NewStruct, FieldsLinked, Own, AllStored, AllNull;
    var p := b.objects[i];
    var size, newSize := p.shape.size, expected.Max(p.shape.size);
    StructIsHeld(b, i);
    TreeMeansOutside(b, i);
    var cells, avoid := Tree(b, i).cells, Outside(b, i);
    BodyOwned(b, i);
    AbandonedGiven(b, i, p.start, size.Total());
    PromotionPreserves(b.st, p.at, size, p.start, cells, expected, avoid);
    var cleared := ClearPtrs(b.st, p.at);
    AllocStructGood(cleared, p.at, newSize);
    var room := AllocStruct(cleared, p.at, newSize);
    RoomIsReady(b.st, p.at, size, p.start, cells, newSize, avoid);
    var touched := Abandoned(b.st.mem, p.at, p.start, size.Total()) + avoid + Body(room.start, newSize.Total());
    ReadyToPromote(b.st.mem, room.st, p.start, size, room.start, newSize, cells, touched);
    CanPromoteParts(room.st, p.start, size, room.start, newSize, cells);
    MovedLinks(b.st.mem, room.st, p.start, size, room.start, newSize, cells, touched);
    PromoteIntoGood(b.st.mem, room.st, p.start, size, room.start, newSize, cells, touched);
    var r := PromoteInto(room.st, p.start, size, room.start, newSize);
    FreshBody(cleared.mem, room.st.mem, room.start, newSize.Total());
    StructIsNew(b, i, cleared, room, newSize, r.st);
    RestIsNull(r.st.mem, room.start, cells, size, newSize, touched);
  }

  lemma StructIsNew(b: Build, i: nat, cleared: St, room: Placing, newSize: StructSize, st: St)
    requires Sound(b) && TreeLike(b) && i < |b.objects| && b.objects[i].shape.StructShape? && room.Placed?
    requires InMem(b.st.mem, b.objects[i].at) && cleared == ClearPtrs(b.st, b.objects[i].at) && ValidSt(b.st)
    requires ObjectPlaced(cleared, b.objects[i].at, StructShape(newSize), room) && newSize.Total() > 0
    requires forall a :: a in Body(room.start, newSize.Total()) ==> !InMem(cleared.mem, a) && InMem(room.st.mem, a)
    requires Keeps(room.st.mem, st.mem,
                   Body(room.start, newSize.Total()) + Body(b.objects[i].start, b.objects[i].shape.size.Total()))
    ensures NewStruct(b.st.mem, room.st.mem, st.mem, b.objects[i].at, newSize, room.start)
  {
    hide Sound, TreeLike, Resolve, Pads, ClearPtrs, Own, Readable, Body, NewStruct;
    var p := b.objects[i];
    BodyOwned(b, i);
    OldOwn(b, i);
    HolderIsEarlier(b, i, i);
    LeadsToNew(b.st.mem, cleared.mem, room.st.mem, st.mem, p.at, newSize, room.start,
               Body(p.start, p.shape.size.Total()));
  }

  lemma LeadsToNew(past: Mem, before: Mem, room: Mem, mem: Mem, at: Addr, newSize: StructSize, to: Addr,
                   older: iset<Addr>)
    requires InMem(past, at) && at !in older && older <= AllWords(before)
    requires forall a :: InMem(before, a) <==> InMem(past, a)
    requires Readable(before, room, at, StructShape(newSize), to)
    requires forall a :: a in Body(to, newSize.Total()) ==> !InMem(before, a) && InMem(room, a)
    requires Keeps(room, mem, Body(to, newSize.Total()) + older)
    ensures NewStruct(past, room, mem, at, newSize, to)
  {
    hide Resolve, Pads;
    BodySlots(to, newSize.Total());
    StillResolves(before, room, mem, at, StructShape(newSize), to, older);
    PadsInMem(room, at);
    PadsSame(room, mem, at);
    ApartFromBody(Pads(room, at), to, newSize.Total());
  }

  lemma PadsSame(mem: Mem, mem': Mem, at: Addr)
    requires InMem(mem, at) && InMem(mem', at) && At(mem', at) == At(mem, at)
    ensures Pads(mem', at) == Pads(mem, at)
  {
    hide Decode;
  }

  lemma RestIsNull(mem: Mem, to: Addr, cells: seq<Cell>, size: StructSize, newSize: StructSize, touched: iset<Addr>)
    requires |cells| == size.Total() && size.FitsInside(newSize)
    requires AllStored(mem, to, Enlarged(cells, size, newSize), touched)
    ensures forall m :: newSize.data + size.ptrs <= m < newSize.Total() ==>
              InMem(mem, Slot(to, m)) && At(mem, Slot(to, m)).IsNull()
  {
    forall m | newSize.data + size.ptrs <= m < newSize.Total()
      ensures InMem(mem, Slot(to, m)) && At(mem, Slot(to, m)).IsNull()
    {
      assert CellStored(mem, Slot(to, m), Enlarged(cells, size, newSize)[m], touched);
    }
  }
  // ----- Runs

  /** A step of the builder, or the promotion of struct `i`. */
  datatype Change = Grow(step: Building.Step) | Promote(i: nat, expected: StructSize)

  ghost predicate Kept(b: Build) {
    Sound(b) && TreeLike(b)
  }

  predicate IsStructAt(b: Build, i: nat) {
    i < |b.objects| && b.objects[i].shape.StructShape?
  }

  lemma IsBuiltStruct(b: Build, i: nat)
    requires Kept(b) && IsStructAt(b, i)
    ensures var p := b.objects[i];
            ValidSt(b.st) && IsStruct(b.st.mem, p.at, p.shape.size, p.start)
  {
    hide TreeLike, HeldStruct, IsStruct, Tree, Outside, AllLive, AllApart, AllHeld;
    var p := b.objects[i];
    StructIsHeld(b, i);
    TreeMeansOutside(b, i);
    HeldResolves(b.st.mem, p.at, p.shape.size, p.start, Tree(b, i).cells, Outside(b, i));
  }

  /** What the promotion of struct `i` returns. */
  ghost function Promotes(b: Build, i: nat, expected: StructSize): Promoted
    requires Kept(b) && IsStructAt(b, i)
  {
    IsBuiltStruct(b, i);
    var p := b.objects[i];
    ToStructMut(b.st, p.at, p.shape.size, p.start, expected)
  }

  /** The message after a change; none if a promotion was refused. */
  ghost function After(b: Build, change: Change): (r: Option<Build>)
    requires Kept(b)
    ensures r.Some? ==> Kept(r.value)
  {
    hide Sound, TreeLike, Swapped, Apply, ToStructMut;
    SoundParts(b);
    match change
    case Grow(step) =>
      StepSound(b, step);
      StepTreeLike(b, step);
      Some(Apply(b, step))
    case Promote(i, expected) =>
      if !IsStructAt(b, i) || expected.FitsInside(b.objects[i].shape.size) then
        Some(b)
      else
        var r := Promotes(b, i, expected);
        if r.NotPromoted? then
          None
        else
          PromotedIsKept(b, i, expected);
          Some(Swapped(b, i, r.size, r.start, r.st))
  }

  lemma PromotedIsKept(b: Build, i: nat, expected: StructSize)
    requires Kept(b) && IsStructAt(b, i) && !expected.FitsInside(b.objects[i].shape.size)
    requires Promotes(b, i, expected).Promoted?
    ensures var r := Promotes(b, i, expected);
            Kept(Swapped(b, i, r.size, r.start, r.st))
  {
    hide Sound, TreeLike, Swapped, ToStructMut, Replaced, AllocStruct, ClearPtrs;
    IsBuiltStruct(b, i);
    PromotionReplaces(b, i, expected);
    var p, r := b.objects[i], Promotes(b, i, expected);
    var room := AllocStruct(ClearPtrs(b.st, p.at), p.at, r.size).st.mem;
    SwappedSound(b, i, r.size, r.start, room, r.st);
    SwappedTreeLike(b, i, r.size, r.start, room, r.st);
  }

  ghost function AfterAll(b: Build, changes: seq<Change>): (r: Option<Build>)
    requires Kept(b)
    ensures r.Some? ==> Kept(r.value)
  {
    hide Kept, After;
    if |changes| == 0 then
      Some(b)
    else
      var before := AfterAll(b, changes[..|changes| - 1]);
      if before.None? then None else After(before.value, changes[|changes| - 1])
  }

  /** The message after changes of an empty one. */
  ghost function Reached(capacity: nat, plan: seq<Grant>, changes: seq<Change>): (r: Option<Build>)
    requires 0 < capacity <= U29_MAX
    ensures r.Some? ==> Kept(r.value)
  {
    hide Sound, AfterAll;
    EmptySound(capacity, plan);
    AfterAll(Empty(capacity, plan), changes)
  }

  /** Without promotions that is the run of the builder. */
  lemma {:induction false} OnlySteps(b: Build, steps: seq<Building.Step>)
    requires Kept(b)
    ensures ValidSt(b.st)
    ensures AfterAll(b, seq(|steps|, k requires 0 <= k < |steps| => Grow(steps[k]))) == Some(Run(b, steps))
  {
    hide Sound, TreeLike, Apply;
    SoundParts(b);
    var changes := seq(|steps|, k requires 0 <= k < |steps| => Grow(steps[k]));
    if |steps| > 0 {
      var fore := steps[..|steps| - 1];
      OnlySteps(b, fore);
      assert changes[..|steps| - 1] == seq(|fore|, k requires 0 <= k < |fore| => Grow(fore[k]));
    }
  }

  /**
   However allocations, data writes and promotions of structs follow one another: every pointer resolves to its
   object, all words are apart, and the root means the tree of all objects.
   */
  lemma StillMeans(capacity: nat, plan: seq<Grant>, changes: seq<Change>, i: nat)
    requires 0 < capacity <= U29_MAX
    requires Reached(capacity, plan, changes).Some?
    ensures var b := Reached(capacity, plan, changes).value;
            && ReadsBack(b, i)
            && (|b.objects| > 0 ==> b.objects[0].at == ROOT && Means(b.st.mem, ROOT, Tree(b, 0)))
  {
    hide Sound, TreeLike, Reached, Denotes, ReadsBack, Tree;
    var b := Reached(capacity, plan, changes).value;
    SoundReadsBack(b, i);
    if |b.objects| > 0 {
      RootMeans(b);
    }
  }

  /**
   Promotion in a message that was built. Whatever was built and promoted before, each struct can be promoted, and
   if that succeeds, the root means the tree it meant with this one struct enlarged; and that is the tree of
   the message that later changes start from.
   */
  lemma PromotedInPlace(capacity: nat, plan: seq<Grant>, changes: seq<Change>, i: nat, expected: StructSize)
    requires 0 < capacity <= U29_MAX
    requires Reached(capacity, plan, changes).Some? && IsStructAt(Reached(capacity, plan, changes).value, i)
    requires !expected.FitsInside(Reached(capacity, plan, changes).value.objects[i].shape.size)
    ensures var b := Reached(capacity, plan, changes).value;
            var p, r := b.objects[i], Promotes(b, i, expected);
            && HeldStruct(b.st.mem, p.at, p.shape.size, p.start, CellsIn(Tree(b, i)), Outside(b, i))
            && StructReplaced(b, i, expected.Max(p.shape.size), r)
            && (Reached(capacity, plan, changes + [Promote(i, expected)]).Some? <==> r.Promoted?)
            && (r.Promoted? ==>
                  var b' := Reached(capacity, plan, changes + [Promote(i, expected)]).value;
                  && b'.st == r.st && |b'.objects| == |b.objects|
                  && b'.objects[i] == Placement(p.at, StructShape(r.size), r.start)
                  && (forall j :: 0 <= j < |b.objects| && j != i ==>
                        b'.objects[j].shape == b.objects[j].shape && b'.objects[j].start == b.objects[j].start)
                  && Tree(b', 0) == TreeWith(b, i, Larger(b, i, r.size), 0))
  {
    hide Sound, TreeLike, Denotes, HeldStruct, ToStructMut, IsStruct, Swapped, Tree, Outside, Enlarged, TreeWith;
    var b := Reached(capacity, plan, changes).value;
    IsBuiltStruct(b, i);
    StructIsHeld(b, i);
    TreeMeansOutside(b, i);
    StructPromoted(b, i, expected);
    var change := Promote(i, expected);
    assert (changes + [change])[..|changes|] == changes;
    var r := Promotes(b, i, expected);
    if r.Promoted? {
      var b' := Reached(capacity, plan, changes + [change]).value;
      RootMeans(b');
      MeaningIsUnique(b'.st.mem, ROOT, Tree(b', 0), TreeWith(b, i, Larger(b, i, r.size), 0), iset{}, iset{});
    }
  }

  /**
   The same for lists. Whatever was built and promoted before, each list can be promoted to structs of any size its
   upgrades lead to, and if that succeeds, the root means the tree it meant with this one list in its new
   size. For a list of pointers that is so where the stride fits.
   */
  lemma ListPromotedInPlace(capacity: nat, plan: seq<Grant>, changes: seq<Change>, i: nat, newSize: StructSize,
                            v: Value)
    requires 0 < capacity <= U29_MAX
    requires Reached(capacity, plan, changes).Some? && Becomes(Reached(capacity, plan, changes).value, i, newSize, v)
    requires var p := Reached(capacity, plan, changes).value.objects[i];
             && Promotable(Kind(p.shape), newSize)
             && Askable(CompositeShape(newSize, p.shape.count)) && Bounded(CompositeShape(newSize, p.shape.count))
    ensures var b := Reached(capacity, plan, changes).value;
            var p := b.objects[i];
            && ValidSt(b.st) && IsList(b.st.mem, p.at, Kind(p.shape), p.shape.count, p.start)
            && var r := Upgraded(b.st, p.at, Kind(p.shape), p.shape.count, p.start, newSize);
               r.ListPromoted? ==> Means(r.st.mem, ROOT, TreeWith(b, i, v, 0))
  {
    hide Sound, TreeLike, Reached, Upgraded, Becomes, Askable, Bounded, Resolve;
    PromotedList(Reached(capacity, plan, changes).value, i, newSize, v);
  }
}
