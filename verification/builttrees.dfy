/**
 What a message means that was built by a run of allocations, and what becomes of it when one of its objects
 is promoted.
 */
module BuiltTrees {
  import opened Wire
  import opened Reader
  import opened Values
  import opened Layout
  import opened Putting
  import opened Promotion
  import opened ListPromotion
  import opened DataPromotion
  import Equality
  import opened PointerPromotion
  import opened Upgrading
  import opened Building

  // ----- The objects form a tree

  /** Field `k` of object `i` is null, or the pointer to a later object. */
  ghost predicate FieldLeads(b: Build, i: nat, k: nat)
    requires i < |b.objects|
  {
    var slot := Slot(b.objects[i].start, k);
    && InMem(b.st.mem, slot)
    && (At(b.st.mem, slot).IsNull() || exists j :: i < j < |b.objects| && b.objects[j].at == slot)
  }

  ghost predicate TreeLike(b: Build) {
    && (forall i, k :: 0 <= i < |b.objects| && IsField(b.objects[i], k) ==> FieldLeads(b, i, k))
    && (forall i, j :: 0 <= i < j < |b.objects| ==> b.objects[i].at != b.objects[j].at)
  }

  lemma WriteTreeLike(b: Build, i: nat, k: nat, word: Word)
    requires Sound(b) && TreeLike(b) && Enabled(b, WriteData(i, k, word))
    ensures TreeLike(Apply(b, WriteData(i, k, word)))
  {
    hide Sound, Words, IsPtrSlot, Own, Around, Live, HeldBy;
    SoundParts(b);
    var slot := Slot(b.objects[i].start, k);
    SetWordGood(b.st, slot, word);
    var b' := Apply(b, WriteData(i, k, word));
    forall m, h | 0 <= m < |b.objects| && IsField(b.objects[m], h)
      ensures FieldLeads(b', m, h)
    {
      assert FieldLeads(b, m, h);
      FieldIsNoData(b, m, h, i, k);
    }
  }

  /** A pointer slot of one object is no data word of another. */
  lemma FieldIsNoData(b: Build, m: nat, h: nat, i: nat, k: nat)
    requires Sound(b) && m < |b.objects| && i < |b.objects|
    requires IsField(b.objects[m], h) && k < Words(b.objects[i].shape) && !IsPtrSlot(b.objects[i].shape, k)
    ensures Slot(b.objects[m].start, h) != Slot(b.objects[i].start, k)
  {
    hide Words, IsPtrSlot, Sound, Around;
    FieldInBody(b.objects[m], h);
    FieldInBody(b.objects[i], k);
    OwnsApart(b, m, i);
  }

  lemma AllocTreeLike(b: Build, at: Addr, shape: Shape)
    requires Sound(b) && TreeLike(b) && IsFree(b, at, shape)
    ensures TreeLike(AllocAt(b, at, shape))
  {
    hide Sound, Words, IsPtrSlot, AllocObject, Askable, ObjectPlaced, IsFree;
    SoundParts(b);
    FreeCanAlloc(b, at, shape);
    AllocObjectGood(b.st, at, shape);
    var r := AllocObject(b.st, at, shape);
    PlacedOrNot(b.st, at, shape, r);
    var b' := AllocAt(b, at, shape);
    forall m, h | 0 <= m < |b'.objects| && IsField(b'.objects[m], h)
      ensures FieldLeads(b', m, h)
    {
      if m < |b.objects| {
        assert FieldLeads(b, m, h);
        OldFieldLeads(b, b', at, m, h);
      }
    }
    forall j | 0 <= j < |b.objects|
      ensures b.objects[j].at != at
    {
      FreeIsApart(b, at, shape, j);
    }
  }

  lemma FreeCanAlloc(b: Build, at: Addr, shape: Shape)
    requires IsFree(b, at, shape)
    ensures CanAlloc(b, at, shape)
  {
  }

  /** Only the pointer changes; an object that was placed has null fields. */
  lemma PlacedOrNot(st: St, at: Addr, shape: Shape, r: Placing)
    requires ObjectPlaced(st, at, shape, r)
    ensures r.Failed? ==> Keeps(st.mem, r.st.mem, iset{})
    ensures r.Placed? ==>
              && Keeps(st.mem, r.st.mem, iset{at})
              && forall k :: 0 <= k < Words(shape) ==>
                   InMem(r.st.mem, Slot(r.start, k)) && At(r.st.mem, Slot(r.start, k)).IsNull()
  {
    hide Words, Readable;
    if r.Placed? && Words(shape) > 0 {
      FreshBody(st.mem, r.st.mem, r.start, Words(shape));
    }
  }

  lemma OldFieldLeads(b: Build, b': Build, at: Addr, m: nat, h: nat)
    requires m < |b.objects| <= |b'.objects| && b.objects == b'.objects[..|b.objects|] && FieldLeads(b, m, h)
    requires if |b'.objects| == |b.objects| then Keeps(b.st.mem, b'.st.mem, iset{})
             else Keeps(b.st.mem, b'.st.mem, iset{at}) && b'.objects[|b.objects|].at == at
    ensures FieldLeads(b', m, h)
  {
    var slot := Slot(b.objects[m].start, h);
    if slot == at && |b'.objects| > |b.objects| {
      assert b'.objects[|b.objects|].at == slot;
    } else if !At(b.st.mem, slot).IsNull() {
      var j :| m < j < |b.objects| && b.objects[j].at == slot;
      assert b'.objects[j].at == slot;
    }
  }

  lemma StepTreeLike(b: Build, step: Step)
    requires Sound(b) && TreeLike(b)
    ensures TreeLike(Apply(b, step))
  {
    hide Sound, TreeLike, AllocAt, CanAlloc, SetWord, IsField;
    SoundParts(b);
    if Enabled(b, step) {
      match step
      case AllocRoot(shape) => AllocTreeLike(b, ROOT, shape);
      case AllocIn(i, k, shape) => AllocTreeLike(b, Slot(b.objects[i].start, k), shape);
      case WriteData(i, k, word) => WriteTreeLike(b, i, k, word);
    }
  }

  lemma {:induction false} RunTreeLike(b: Build, steps: seq<Step>)
    requires Sound(b) && TreeLike(b)
    ensures Sound(Run(b, steps)) && TreeLike(Run(b, steps))
  {
    hide Sound, TreeLike, Apply;
    SoundParts(b);
    RunSound(b, steps);
    if |steps| > 0 {
      RunTreeLike(b, steps[..|steps| - 1]);
      StepTreeLike(Run(b, steps[..|steps| - 1]), steps[|steps| - 1]);
    }
  }

  // ----- The tree

  /** The object behind the pointer at `slot`, of those after `j`; their number if there is none. */
  ghost function Behind(b: Build, j: nat, slot: Addr): (c: nat)
    ensures c == |b.objects| || (j < c < |b.objects| && b.objects[c].at == slot)
    ensures c == |b.objects| ==> forall d :: j < d < |b.objects| ==> b.objects[d].at != slot
  {
    if exists c :: j < c < |b.objects| && b.objects[c].at == slot then
      var c :| j < c < |b.objects| && b.objects[c].at == slot;
      c
    else
      |b.objects|
  }

  /** What object `j` means if object `i` means `v`. */
  ghost function TreeWith(b: Build, i: nat, v: Value, j: nat): Value
    requires j < |b.objects|
    decreases |b.objects| - j, 1
  {
    if j == i then
      v
    else
      var n := Words(b.objects[j].shape);
      Obj(b.objects[j].shape, seq(n, k requires 0 <= k < n => TreeCell(b, i, v, j, k)))
  }

  ghost function TreeCell(b: Build, i: nat, v: Value, j: nat, k: nat): Cell
    requires j < |b.objects|
    decreases |b.objects| - j, 0
  {
    var slot := Slot(b.objects[j].start, k);
    if !IsPtrSlot(b.objects[j].shape, k) then
      Data(if InMem(b.st.mem, slot) then At(b.st.mem, slot) else NULL)
    else
      var c := Behind(b, j, slot);
      if c < |b.objects| then Ref(TreeWith(b, i, v, c)) else Ref(Null)
  }

  /** What object `j` means. */
  ghost function Tree(b: Build, j: nat): Value
    requires j < |b.objects|
  {
    TreeWith(b, |b.objects|, Null, j)
  }

  /** The words of no object from `j` on. */
  ghost function Unread(b: Build, j: nat): iset<Addr> {
    iset a: Addr | Unowned(b, j, a)
  }

  ghost predicate Unowned(b: Build, j: nat, a: Addr) {
    forall m :: j <= m < |b.objects| ==> a !in Own(b.st.mem, b.objects[m])
  }

  lemma UnreadMore(b: Build, j: nat, c: nat)
    requires j <= c
    ensures Unread(b, j) <= Unread(b, c)
  {
    hide Own;
  }

  /** A field is null, or leads to an object that comes later. */
  lemma ChildAt(b: Build, i: nat, v: Value, j: nat, k: nat)
    requires TreeLike(b) && Sound(b) && j < |b.objects| && IsField(b.objects[j], k)
    ensures var slot := Slot(b.objects[j].start, k);
            var c := Behind(b, j, slot);
            && InMem(b.st.mem, slot)
            && (c == |b.objects| ==> At(b.st.mem, slot).IsNull() && TreeCell(b, i, v, j, k) == Ref(Null))
            && (c < |b.objects| ==>
                  && j < c && b.objects[c].at == slot && !At(b.st.mem, slot).IsNull()
                  && TreeCell(b, i, v, j, k) == Ref(TreeWith(b, i, v, c)))
  {
    hide Sound, Words, IsPtrSlot, TreeWith, Live, Behind;
    SoundParts(b);
    assert FieldLeads(b, j, k);
    var c := Behind(b, j, Slot(b.objects[j].start, k));
    if c < |b.objects| {
      OwnWords(b, c);
    }
  }

  /** The pads and the tag of an object are its own; its content is, and is there. */
  lemma OwnWords(b: Build, j: nat)
    requires Sound(b) && j < |b.objects|
    ensures var p := b.objects[j];
            && InMem(b.st.mem, p.at) && !At(b.st.mem, p.at).IsNull()
            && Resolve(b.st.mem, p.at) == Ok(Object(p.shape, p.start))
            && (forall a :: a in Pads(b.st.mem, p.at) + Tags(Object(p.shape, p.start)) ==> a in Own(b.st.mem, p))
            && (forall k :: 0 <= k < Words(p.shape) ==>
                  Slot(p.start, k) in Own(b.st.mem, p) && InMem(b.st.mem, Slot(p.start, k)))
  {
    hide Resolve, Pads, Tags, Words, AllApart, AllHeld;
    assert Live(b.st.mem, b.objects[j]);
    BodySlots(b.objects[j].start, Words(b.objects[j].shape));
  }

  /** Every object means its tree, and to find that out only its words and those of later objects are read. */
  lemma {:induction false} TreeMeans(b: Build, j: nat)
    requires Sound(b) && TreeLike(b) && j < |b.objects|
    ensures Denotes(b.st.mem, b.objects[j].at, Tree(b, j), Unread(b, j))
    decreases |b.objects| - j
  {
    hide Sound, TreeLike, Resolve, Pads, Tags, Words, IsPtrSlot, Own, Denotes, TreeCell, Behind;
    var p, unread := b.objects[j], Unread(b, j);
    OwnWords(b, j);
    var cells := Tree(b, j).cells;
    forall k | 0 <= k < |cells|
      ensures CellAt(b.st.mem, Slot(p.start, k), cells[k], IsPtrSlot(p.shape, k), unread)
    {
      if IsPtrSlot(p.shape, k) {
        ChildAt(b, |b.objects|, Null, j, k);
        var c := Behind(b, j, Slot(p.start, k));
        if c == |b.objects| {
          NullDenotes(b.st.mem, Slot(p.start, k), unread);
        } else {
          TreeMeans(b, c);
          UnreadMore(b, j, c);
          AvoidBoth(b.st.mem, b.objects[c].at, Tree(b, c), Unread(b, c), Unread(b, c), unread);
        }
      } else {
        DataOfTree(b, |b.objects|, Null, j, k);
      }
    }
    ObjectMeans(b.st.mem, p.at, p.shape, p.start, cells, unread);
  }

  lemma NullDenotes(mem: Mem, at: Addr, avoid: iset<Addr>)
    requires InMem(mem, at) && At(mem, at).IsNull()
    ensures Denotes(mem, at, Null, avoid)
  {
  }

  lemma DataOfTree(b: Build, i: nat, v: Value, j: nat, k: nat)
    requires j < |b.objects| && InMem(b.st.mem, Slot(b.objects[j].start, k)) && !IsPtrSlot(b.objects[j].shape, k)
    ensures TreeCell(b, i, v, j, k) == Data(At(b.st.mem, Slot(b.objects[j].start, k)))
  {
    hide IsPtrSlot;
  }

  // ----- Every struct is held by one pointer only

  /** The field that holds object `i`. */
  lemma HolderOf(b: Build, i: nat) returns (h: nat, k: nat)
    requires Sound(b) && i < |b.objects| && b.objects[i].at != ROOT
    ensures h < |b.objects| && IsField(b.objects[h], k) && b.objects[i].at == Slot(b.objects[h].start, k)
  {
    hide IsField, ValidSt, AllLive, AllApart;
    h :| 0 <= h < |b.objects| && HeldBy(b.objects[i], b.objects[h]);
    k :| IsField(b.objects[h], k) && b.objects[i].at == Slot(b.objects[h].start, k);
  }

  lemma RootUnowned(b: Build, m: nat)
    requires Sound(b) && m < |b.objects|
    ensures ROOT !in Own(b.st.mem, b.objects[m])
  {
    hide Words, Resolve, ValidSt, Around, Own, AllHeld, AllApart;
    assert Live(b.st.mem, b.objects[m]);
  }

  /** The pointer to an object is the root or a field of an earlier one, so later objects do not own it. */
  lemma HolderIsEarlier(b: Build, i: nat, m: nat)
    requires Sound(b) && TreeLike(b) && i < |b.objects| && i <= m < |b.objects|
    ensures b.objects[i].at !in Own(b.st.mem, b.objects[m])
  {
    hide Words, IsPtrSlot, Resolve, Sound, TreeLike, Own;
    RootUnowned(b, m);
    if b.objects[i].at != ROOT {
      var h, k := HolderOf(b, i);
      OwnWords(b, i);
      OwnWords(b, h);
      HoldsLater(b, h, k, i);
      OwnsApart(b, h, m);
    }
  }

  lemma HoldsLater(b: Build, h: nat, k: nat, i: nat)
    requires TreeLike(b) && h < |b.objects| && i < |b.objects|
    requires IsField(b.objects[h], k) && b.objects[i].at == Slot(b.objects[h].start, k)
    requires InMem(b.st.mem, b.objects[i].at) && !At(b.st.mem, b.objects[i].at).IsNull()
    ensures h < i
  {
    hide IsField;
    assert FieldLeads(b, h, k);
  }

  /** What a promotion of object `i` can give up: its pointer and its own words. */
  ghost function GivenUp(b: Build, i: nat): iset<Addr>
    requires i < |b.objects|
  {
    iset{b.objects[i].at} + Own(b.st.mem, b.objects[i])
  }

  /** Later objects read nothing of that. */
  lemma GivenUpUnread(b: Build, i: nat)
    requires Sound(b) && TreeLike(b) && i < |b.objects|
    ensures GivenUp(b, i) <= Unread(b, i + 1)
  {
    hide Sound, TreeLike, Own;
    forall a, m | a in GivenUp(b, i) && i + 1 <= m < |b.objects|
      ensures a !in Own(b.st.mem, b.objects[m])
    {
      HolderIsEarlier(b, i, m);
      OwnsApart(b, i, m);
    }
  }

  lemma AbandonedGiven(b: Build, i: nat, start: Addr, n: nat)
    requires Sound(b) && i < |b.objects| && Body(start, n) <= Own(b.st.mem, b.objects[i])
    ensures InMem(b.st.mem, b.objects[i].at)
    ensures Abandoned(b.st.mem, b.objects[i].at, start, n) <= GivenUp(b, i)
  {
    hide Sound, Own, Pads;
    OwnWords(b, i);
    forall a | a in Abandoned(b.st.mem, b.objects[i].at, start, n)
      ensures a in GivenUp(b, i)
    {
      PadsOwned(b, i, a);
    }
  }

  lemma PadsOwned(b: Build, i: nat, a: Addr)
    requires Sound(b) && i < |b.objects|
    ensures InMem(b.st.mem, b.objects[i].at)
    ensures a in Pads(b.st.mem, b.objects[i].at) ==> a in Own(b.st.mem, b.objects[i])
  {
    hide Sound, Pads;
    OwnWords(b, i);
  }

  /** What object `i` holds is read without its own words. */
  lemma FieldOutside(b: Build, i: nat, k: nat)
    requires Sound(b) && TreeLike(b) && i < |b.objects| && k < Words(b.objects[i].shape)
    requires Tree(b, i).cells[k].Ref?
    ensures Denotes(b.st.mem, Slot(b.objects[i].start, k), Tree(b, i).cells[k].value, Unread(b, i + 1))
  {
    hide Sound, TreeLike, Words, IsPtrSlot, Own, Denotes, TreeCell, Behind, Unread;
    OwnWords(b, i);
    var slot := Slot(b.objects[i].start, k);
    assert Tree(b, i).cells[k] == TreeCell(b, |b.objects|, Null, i, k);
    if !IsPtrSlot(b.objects[i].shape, k) {
      DataOfTree(b, |b.objects|, Null, i, k);
      assert false;
    }
    ChildAt(b, |b.objects|, Null, i, k);
    var c := Behind(b, i, slot);
    if c == |b.objects| {
      NullDenotes(b.st.mem, slot, Unread(b, i + 1));
    } else {
      TreeMeans(b, c);
      UnreadMore(b, i + 1, c);
      AvoidBoth(b.st.mem, slot, Tree(b, c), Unread(b, c), Unread(b, c), Unread(b, i + 1));
    }
  }

  /** The words of the message that no object from `j` on reads. */
  ghost function Outside(b: Build, j: nat): iset<Addr> {
    Unread(b, j) * AllWords(b.st.mem)
  }

  lemma TreeMeansOutside(b: Build, j: nat)
    requires Sound(b) && TreeLike(b) && j < |b.objects|
    ensures Denotes(b.st.mem, b.objects[j].at, Tree(b, j), Outside(b, j)) && Tree(b, j).Obj?
    ensures Tree(b, j).shape == b.objects[j].shape && |Tree(b, j).cells| == Words(b.objects[j].shape)
  {
    hide Sound, TreeLike, Denotes, Own, Unread;
    TreeMeans(b, j);
    AvoidBoth(b.st.mem, b.objects[j].at, Tree(b, j), Unread(b, j), Unread(b, j), Outside(b, j));
  }

  lemma BodyOwned(b: Build, i: nat)
    requires Sound(b) && i < |b.objects|
    ensures Body(b.objects[i].start, Words(b.objects[i].shape)) <= Own(b.st.mem, b.objects[i])
    ensures forall a :: a in Pads(b.st.mem, b.objects[i].at) ==>
              a !in Body(b.objects[i].start, Words(b.objects[i].shape))
  {
    hide Resolve, Pads, Tags, Words, AllApart, AllHeld;
    assert Live(b.st.mem, b.objects[i]);
  }

  /** Every struct that was built is held by one pointer only, and so can be promoted. */
  lemma StructIsHeld(b: Build, i: nat)
    requires Sound(b) && TreeLike(b) && i < |b.objects| && b.objects[i].shape.StructShape?
    ensures var p := b.objects[i];
            HeldStruct(b.st.mem, p.at, p.shape.size, p.start, Tree(b, i).cells, Outside(b, i))
  {
    hide Sound, TreeLike, Own, Denotes, Resolve, Pads, Tree, Unread, Abandoned, GivenUp;
    var p := b.objects[i];
    var n := p.shape.size.Total();
    OwnWords(b, i);
    BodyOwned(b, i);
    TreeMeansOutside(b, i);
    HolderIsEarlier(b, i, i);
    AbandonedGiven(b, i, p.start, n);
    GivenUpUnread(b, i);
    PadsNotPointer(b, i);
    forall k | p.shape.size.data <= k < n
      ensures Tree(b, i).cells[k].Ref?
      ensures Denotes(b.st.mem, Slot(p.start, k), Tree(b, i).cells[k].value, Abandoned(b.st.mem, p.at, p.start, n))
    {
      FieldIsRef(b, i, k);
      FieldOutside(b, i, k);
      AvoidBoth(b.st.mem, Slot(p.start, k), Tree(b, i).cells[k].value, Unread(b, i + 1), Unread(b, i + 1),
                Abandoned(b.st.mem, p.at, p.start, n));
    }
  }

  lemma PadsNotPointer(b: Build, i: nat)
    requires Sound(b) && TreeLike(b) && i < |b.objects|
    ensures InMem(b.st.mem, b.objects[i].at)
    ensures forall a :: a in Pads(b.st.mem, b.objects[i].at) ==> a != b.objects[i].at
  {
    hide Sound, TreeLike, Own, Pads;
    OwnWords(b, i);
    HolderIsEarlier(b, i, i);
    forall a | a in Pads(b.st.mem, b.objects[i].at)
      ensures a != b.objects[i].at
    {
      PadsOwned(b, i, a);
    }
  }

  // ----- So is every list

  /** An object with its tag, if it has one. */
  lemma TagOwned(b: Build, i: nat)
    requires Sound(b) && i < |b.objects| && b.objects[i].shape.CompositeShape?
    ensures var p := b.objects[i];
            && IsStructList(b.st.mem, p.at, p.shape.size, p.shape.count, p.start)
            && Body(TagOf(p.start), Words(p.shape) + 1) <= Own(b.st.mem, p)
            && forall a :: a in Pads(b.st.mem, p.at) ==> a !in Body(TagOf(p.start), Words(p.shape) + 1)
  {
    hide Resolve, Pads, Words, AllApart, AllHeld;
    var p := b.objects[i];
    assert Live(b.st.mem, p);
    ListInside(b.st.mem, p.at, p.shape.size, p.shape.count, p.start);
    assert TagOf(p.start) in Tags(Object(p.shape, p.start));
  }

  lemma ListIsHeld(b: Build, i: nat)
    requires Sound(b) && TreeLike(b) && i < |b.objects| && b.objects[i].shape.CompositeShape?
    ensures var p := b.objects[i];
            HeldList(b.st.mem, p.at, p.shape.size, p.shape.count, p.start, Tree(b, i).cells, Outside(b, i))
  {
    hide Sound, TreeLike, Own, Denotes, Resolve, Pads, Tree, Unread, Abandoned, GivenUp, Times;
    var p := b.objects[i];
    var n := Times(p.shape.count, p.shape.size);
    OwnWords(b, i);
    TagOwned(b, i);
    TreeMeansOutside(b, i);
    HolderIsEarlier(b, i, i);
    AbandonedGiven(b, i, TagOf(p.start), n + 1);
    GivenUpUnread(b, i);
    PadsNotPointer(b, i);
    forall k | 0 <= k < n && Tree(b, i).cells[k].Ref?
      ensures Denotes(b.st.mem, Slot(p.start, k), Tree(b, i).cells[k].value,
                      Abandoned(b.st.mem, p.at, TagOf(p.start), n + 1))
    {
      FieldOutside(b, i, k);
      AvoidBoth(b.st.mem, Slot(p.start, k), Tree(b, i).cells[k].value, Unread(b, i + 1), Unread(b, i + 1),
                Abandoned(b.st.mem, p.at, TagOf(p.start), n + 1));
    }
  }

  lemma PlainIsHeld(b: Build, i: nat)
    requires Sound(b) && TreeLike(b) && i < |b.objects|
    requires b.objects[i].shape.ListShape? && IsCopied(b.objects[i].shape.element)
    ensures var p := b.objects[i];
            HeldPlain(b.st.mem, p.at, p.shape.element, p.shape.count, p.start)
  {
    hide Sound, TreeLike, Own, Resolve, Pads, ListWords;
    OwnWords(b, i);
    BodyOwned(b, i);
    HolderIsEarlier(b, i, i);
    PadsNotPointer(b, i);
  }

  /** What the pointers of a list mean. */
  ghost function Pointees(b: Build, i: nat): seq<Value>
    requires i < |b.objects|
  {
    var cells := CellsIn(Tree(b, i));
    seq(|cells|, k requires 0 <= k < |cells| => if cells[k].Ref? then cells[k].value else Null)
  }

  function CellsIn(v: Value): seq<Cell> {
    if v.Obj? then v.cells else []
  }

  lemma PointersAreHeld(b: Build, i: nat)
    requires Sound(b) && TreeLike(b) && i < |b.objects|
    requires b.objects[i].shape.ListShape? && b.objects[i].shape.element == Pointer
    ensures var p := b.objects[i];
            HeldPointers(b.st.mem, p.at, p.shape.count, p.start, Pointees(b, i), Outside(b, i))
  {
    hide Sound, TreeLike, Own, Denotes, Resolve, Pads, Tree, Unread, Abandoned, GivenUp;
    var p := b.objects[i];
    Equality.PointerListWords(p.shape.count);
    OwnWords(b, i);
    BodyOwned(b, i);
    TreeMeansOutside(b, i);
    HolderIsEarlier(b, i, i);
    AbandonedGiven(b, i, p.start, p.shape.count);
    GivenUpUnread(b, i);
    PadsNotPointer(b, i);
    UnreadMore(b, i, i + 1);
    forall k | 0 <= k < p.shape.count
      ensures Denotes(b.st.mem, Slot(p.start, k), Pointees(b, i)[k],
                      Outside(b, i) + Abandoned(b.st.mem, p.at, p.start, p.shape.count))
    {
      FieldIsRef(b, i, k);
      FieldOutside(b, i, k);
      AvoidBoth(b.st.mem, Slot(p.start, k), Pointees(b, i)[k], Unread(b, i + 1), Unread(b, i + 1),
                Outside(b, i) + Abandoned(b.st.mem, p.at, p.start, p.shape.count));
    }
  }

  lemma FieldIsRef(b: Build, i: nat, k: nat)
    requires Sound(b) && TreeLike(b) && i < |b.objects| && IsField(b.objects[i], k)
    ensures Tree(b, i).cells[k].Ref?
  {
    hide Sound, TreeLike, Words, IsPtrSlot, TreeCell, Behind;
    ChildAt(b, |b.objects|, Null, i, k);
    assert Tree(b, i).cells[k] == TreeCell(b, |b.objects|, Null, i, k);
  }

  // ----- The message after a promotion

  /** Object `i` in a larger size. */
  ghost function Larger(b: Build, i: nat, newSize: StructSize): Value
    requires i < |b.objects| && b.objects[i].shape.StructShape? && b.objects[i].shape.size.FitsInside(newSize)
  {
    Obj(StructShape(newSize), Enlarged(Tree(b, i).cells, b.objects[i].shape.size, newSize))
  }

  /** Later objects do not hold object `i`. */
  lemma {:induction false} SameAbove(b: Build, i: nat, v: Value, j: nat)
    requires i < j < |b.objects|
    ensures TreeWith(b, i, v, j) == Tree(b, j)
    decreases |b.objects| - j
  {
    hide Words, IsPtrSlot, Behind;
    forall k | 0 <= k < Words(b.objects[j].shape)
      ensures TreeCell(b, i, v, j, k) == TreeCell(b, |b.objects|, Null, j, k)
    {
      var c := Behind(b, j, Slot(b.objects[j].start, k));
      if c < |b.objects| {
        SameAbove(b, i, v, c);
      }
    }
  }

  /** Object `i` now means `v`, and only what its promotion gives up has changed. */
  ghost predicate PromotedTo(b: Build, i: nat, v: Value, mem': Mem) {
    && i < |b.objects| && InMem(b.st.mem, b.objects[i].at)
    && Keeps(b.st.mem, mem', GivenUp(b, i))
    && Denotes(mem', b.objects[i].at, v, Outside(b, i))
  }

  /** What a promotion achieves, in these terms. */
  lemma Abandoning(b: Build, i: nat, v: Value, mem': Mem, start: Addr, n: nat)
    requires Sound(b) && i < |b.objects| && Body(start, n) <= Own(b.st.mem, b.objects[i])
    requires InMem(b.st.mem, b.objects[i].at) && Keeps(b.st.mem, mem', Abandoned(b.st.mem, b.objects[i].at, start, n))
    requires Denotes(mem', b.objects[i].at, v, Outside(b, i))
    ensures PromotedTo(b, i, v, mem')
  {
    hide Sound, Own, Denotes, Abandoned, GivenUp;
    AbandonedGiven(b, i, start, n);
  }

  /** A word of object `j`, or its pointer, stays unless it is the pointer to object `i`. */
  lemma WordStays(b: Build, i: nat, v: Value, mem': Mem, j: nat, a: Addr)
    requires Sound(b) && PromotedTo(b, i, v, mem') && j < |b.objects| && j != i
    requires a in Own(b.st.mem, b.objects[j]) && a != b.objects[i].at && InMem(b.st.mem, a)
    ensures SameAt(b.st.mem, mem', a)
  {
    hide Sound, Own, Denotes;
    OwnsApart(b, i, j);
  }

  /** The pointer to an object that is not a field of object `i` stays. */
  lemma PointerStays(b: Build, i: nat, v: Value, mem': Mem, j: nat)
    requires Sound(b) && TreeLike(b) && PromotedTo(b, i, v, mem') && j < |b.objects| && j != i
    requires j < i || b.objects[j].at !in Body(b.objects[i].start, Words(b.objects[i].shape))
    ensures InMem(b.st.mem, b.objects[j].at) && SameAt(b.st.mem, mem', b.objects[j].at)
    ensures b.objects[j].at !in GivenUp(b, i)
  {
    hide Sound, Around, Denotes, Words;
    OwnWords(b, j);
    DistinctPointers(b, i, j);
    if j < i {
      HolderIsEarlier(b, j, i);
    } else {
      PointerNotAround(b, i, j);
    }
  }

  lemma DistinctPointers(b: Build, i: nat, j: nat)
    requires TreeLike(b) && i < |b.objects| && j < |b.objects| && i != j
    ensures b.objects[i].at != b.objects[j].at
  {
  }

  /** No pointer to an object is a pad or tag. */
  lemma PointerNotAround(b: Build, i: nat, j: nat)
    requires Sound(b) && i < |b.objects| && j < |b.objects|
    ensures b.objects[j].at !in Around(b.st.mem, b.objects[i])
  {
    hide Words, IsPtrSlot, Sound, Around;
    RootUnowned(b, i);
    if b.objects[j].at != ROOT {
      var h, k := HolderOf(b, j);
      NotAround(b, h, k, i);
    }
  }

  /** Every object means its old tree with the one of object `i` replaced. */
  lemma {:induction false} TreeAfter(b: Build, i: nat, v: Value, mem': Mem, j: nat)
    requires Sound(b) && TreeLike(b) && PromotedTo(b, i, v, mem') && j < |b.objects|
    requires j <= i || b.objects[j].at !in Body(b.objects[i].start, Words(b.objects[i].shape))
    ensures Denotes(mem', b.objects[j].at, TreeWith(b, i, v, j), Outside(b, j))
    decreases |b.objects| - j
  {
    hide Sound, TreeLike, Own, Denotes, Resolve, Pads, Words, IsPtrSlot, Unread, Abandoned, Outside, TreeCell, Body;
    if j > i {
      SameAbove(b, i, v, j);
      PointerStays(b, i, v, mem', j);
      LaterStays(b, i, v, mem', j);
    } else if j < i {
      EarlierResolves(b, i, v, mem', j);
      var p, cells := b.objects[j], TreeWith(b, i, v, j).cells;
      forall k | 0 <= k < Words(p.shape)
        ensures CellAt(mem', Slot(p.start, k), cells[k], IsPtrSlot(p.shape, k), Outside(b, j))
      {
        assert cells[k] == TreeCell(b, i, v, j, k);
        SlotOutside(b, j, k);
        var c := Behind(b, j, Slot(p.start, k));
        if IsPtrSlot(p.shape, k) && c < |b.objects| {
          ChildAt(b, i, v, j, k);
          ChildOutside(b, i, j, k);
          TreeAfter(b, i, v, mem', c);
          ReadLess(b, mem', Slot(p.start, k), TreeWith(b, i, v, c), j, c);
        } else {
          WordAfter(b, i, v, mem', j, k);
        }
      }
      ObjectMeans(mem', p.at, p.shape, p.start, cells, Outside(b, j));
    }
  }

  lemma SlotOutside(b: Build, j: nat, k: nat)
    requires Sound(b) && j < |b.objects| && k < Words(b.objects[j].shape)
    ensures Slot(b.objects[j].start, k) !in Outside(b, j) && InMem(b.st.mem, Slot(b.objects[j].start, k))
  {
    hide Sound, Own, Words;
    OwnWords(b, j);
    assert Slot(b.objects[j].start, k) in Own(b.st.mem, b.objects[j]);
  }

  lemma ReadLess(b: Build, mem': Mem, at: Addr, v: Value, j: nat, c: nat)
    requires j <= c && Denotes(mem', at, v, Outside(b, c))
    ensures Denotes(mem', at, v, Outside(b, j))
  {
    hide Denotes, Unread;
    UnreadMore(b, j, c);
    AvoidBoth(mem', at, v, Outside(b, c), Outside(b, c), Outside(b, j));
  }

  /** A field of an earlier object is no field of object `i`. */
  lemma ChildOutside(b: Build, i: nat, j: nat, k: nat)
    requires Sound(b) && i < |b.objects| && j < |b.objects| && i != j && k < Words(b.objects[j].shape)
    ensures Slot(b.objects[j].start, k) !in Body(b.objects[i].start, Words(b.objects[i].shape))
  {
    hide Sound, Own, Words, Body;
    OwnWords(b, j);
    BodyOwned(b, i);
    OwnsApart(b, i, j);
  }

  lemma LaterStays(b: Build, i: nat, v: Value, mem': Mem, j: nat)
    requires Sound(b) && TreeLike(b) && PromotedTo(b, i, v, mem') && i < j < |b.objects|
    requires SameAt(b.st.mem, mem', b.objects[j].at)
    ensures Denotes(mem', b.objects[j].at, Tree(b, j), Outside(b, j))
  {
    hide Sound, TreeLike, Own, Denotes, Unread, GivenUp;
    TreeMeans(b, j);
    GivenUpUnread(b, i);
    UnreadMore(b, i + 1, j);
    DenotesFrame(b.st.mem, mem', b.objects[j].at, Tree(b, j), Unread(b, j));
    AvoidBoth(mem', b.objects[j].at, Tree(b, j), Unread(b, j), Unread(b, j), Outside(b, j));
  }

  lemma EarlierResolves(b: Build, i: nat, v: Value, mem': Mem, j: nat)
    requires Sound(b) && TreeLike(b) && PromotedTo(b, i, v, mem') && j < i
    ensures var p := b.objects[j];
            && InMem(mem', p.at) && !At(mem', p.at).IsNull() && Resolve(mem', p.at) == Ok(Object(p.shape, p.start))
            && Avoids(Pads(mem', p.at) + Tags(Object(p.shape, p.start)), Outside(b, j))
  {
    hide Sound, TreeLike, Own, Denotes, Resolve, Words, Body, Abandoned, Pads, Tags;
    var p := b.objects[j];
    OwnWords(b, j);
    PointerStays(b, i, v, mem', j);
    forall a | a in Pads(b.st.mem, p.at) + Tags(Object(p.shape, p.start))
      ensures SameAt(b.st.mem, mem', a) && a !in Outside(b, j)
    {
      AroundStays(b, i, v, mem', j, a);
      assert a in Own(b.st.mem, b.objects[j]);
    }
    ResolveFrame(b.st.mem, mem', p.at);
  }

  lemma AroundStays(b: Build, i: nat, v: Value, mem': Mem, j: nat, a: Addr)
    requires Sound(b) && PromotedTo(b, i, v, mem') && j < |b.objects| && j != i
    requires InMem(b.st.mem, b.objects[j].at)
    requires a in Pads(b.st.mem, b.objects[j].at) + Tags(Object(b.objects[j].shape, b.objects[j].start))
    ensures SameAt(b.st.mem, mem', a)
  {
    hide Sound, Own, Denotes, Resolve, Words, Body, Abandoned, Pads, Tags;
    OwnWords(b, j);
    if InMem(b.st.mem, a) {
      PointerNotAround(b, j, i);
      assert a in Around(b.st.mem, b.objects[j]);
      WordStays(b, i, v, mem', j, a);
    }
  }

  /** A data word or null field of an earlier object. */
  lemma WordAfter(b: Build, i: nat, v: Value, mem': Mem, j: nat, k: nat)
    requires Sound(b) && TreeLike(b) && PromotedTo(b, i, v, mem') && j < i && k < Words(b.objects[j].shape)
    requires IsPtrSlot(b.objects[j].shape, k) ==> Behind(b, j, Slot(b.objects[j].start, k)) == |b.objects|
    requires Slot(b.objects[j].start, k) !in Outside(b, j)
    ensures CellAt(mem', Slot(b.objects[j].start, k), TreeCell(b, i, v, j, k), IsPtrSlot(b.objects[j].shape, k),
                   Outside(b, j))
  {
    hide Sound, TreeLike, Own, Resolve, Words, Body, Abandoned, Pads, IsPtrSlot, Outside, Behind;
    var slot := Slot(b.objects[j].start, k);
    OwnWords(b, j);
    OwnWords(b, i);
    if IsPtrSlot(b.objects[j].shape, k) {
      ChildAt(b, i, v, j, k);
    } else {
      DataIsNoPointer(b, j, k, i);
      DataOfTree(b, i, v, j, k);
    }
    WordStays(b, i, v, mem', j, slot);
  }

  // ----- Over whole runs

  /** The message after the steps, from an empty one. */
  function Built(capacity: nat, plan: seq<Grant>, steps: seq<Building.Step>): (b: Build)
    requires 0 < capacity <= U29_MAX
    ensures Sound(b)
  {
    hide Sound, Run;
    EmptySound(capacity, plan);
    RunSound(Empty(capacity, plan), steps);
    Run(Empty(capacity, plan), steps)
  }

  lemma BuiltTreeLike(capacity: nat, plan: seq<Grant>, steps: seq<Building.Step>)
    requires 0 < capacity <= U29_MAX
    ensures TreeLike(Built(capacity, plan, steps))
  {
    hide Sound, Run;
    EmptySound(capacity, plan);
    RunTreeLike(Empty(capacity, plan), steps);
  }

  /**
   Whatever was built means a tree: the root is the pointer to the first object, and means the tree of all
   objects, each field what the object it leads to means.
   */
  lemma BuiltMeans(capacity: nat, plan: seq<Grant>, steps: seq<Building.Step>)
    requires 0 < capacity <= U29_MAX
    ensures var b := Built(capacity, plan, steps);
            |b.objects| > 0 ==> b.objects[0].at == ROOT && Means(b.st.mem, ROOT, Tree(b, 0))
  {
    hide Sound, TreeLike, Built, Denotes, Tree;
    BuiltTreeLike(capacity, plan, steps);
    var b := Built(capacity, plan, steps);
    if |b.objects| > 0 {
      RootMeans(b);
    }
  }

  lemma RootMeans(b: Build)
    requires Sound(b) && TreeLike(b) && |b.objects| > 0
    ensures b.objects[0].at == ROOT && Means(b.st.mem, ROOT, Tree(b, 0))
  {
    hide Sound, TreeLike, Denotes, Unread;
    FirstIsRoot(b);
    TreeMeans(b, 0);
    AvoidBoth(b.st.mem, ROOT, Tree(b, 0), Unread(b, 0), Unread(b, 0), iset{});
  }

  lemma FirstIsRoot(b: Build)
    requires Sound(b) && TreeLike(b) && |b.objects| > 0
    ensures b.objects[0].at == ROOT
  {
    hide Sound, TreeLike, IsField, Resolve, Own;
    if b.objects[0].at != ROOT {
      var h, k := HolderOf(b, 0);
      OwnWords(b, 0);
      HoldsLater(b, h, k, 0);
    }
  }

  /** What the promotion of struct `i` achieves. */
  ghost predicate StructReplaced(b: Build, i: nat, newSize: StructSize, r: Promoted) {
    && i < |b.objects| && b.objects[i].shape.StructShape? && b.objects[i].shape.size.FitsInside(newSize)
    && (r.Promoted? ==>
          && r.size == newSize && |CellsIn(Tree(b, i))| == b.objects[i].shape.size.Total()
          && Means(r.st.mem, ROOT, TreeWith(b, i, Larger(b, i, newSize), 0)))
  }

  /** Each struct can be promoted, and if that succeeds, the root means what it meant with this struct enlarged. */
  lemma StructPromoted(b: Build, i: nat, expected: StructSize)
    requires Sound(b) && TreeLike(b) && i < |b.objects| && b.objects[i].shape.StructShape?
    requires !expected.FitsInside(b.objects[i].shape.size)
    ensures var p := b.objects[i];
            && ValidSt(b.st) && IsStruct(b.st.mem, p.at, p.shape.size, p.start)
            && StructReplaced(b, i, expected.Max(p.shape.size),
                              ToStructMut(b.st, p.at, p.shape.size, p.start, expected))
  {
    hide Sound, TreeLike, Denotes, HeldStruct, ToStructMut, IsStruct, Unread, Abandoned, Enlarged, Outside, Own,
         PromotedTo, Tree;
    SoundParts(b);
    var p := b.objects[i];
    TreeMeansOutside(b, i);
    StructIsHeld(b, i);
    HeldResolves(b.st.mem, p.at, p.shape.size, p.start, Tree(b, i).cells, Outside(b, i));
    PromotionPreserves(b.st, p.at, p.shape.size, p.start, Tree(b, i).cells, expected, Outside(b, i));
    var r := ToStructMut(b.st, p.at, p.shape.size, p.start, expected);
    if r.Promoted? {
      var v := Larger(b, i, expected.Max(p.shape.size));
      BodyOwned(b, i);
      Abandoning(b, i, v, r.st.mem, p.start, p.shape.size.Total());
      RootAfter(b, i, v, r.st.mem);
    }
  }

  /** The root means its old tree with the one of object `i` replaced. */
  lemma RootAfter(b: Build, i: nat, v: Value, mem': Mem)
    requires Sound(b) && TreeLike(b) && PromotedTo(b, i, v, mem')
    ensures Means(mem', ROOT, TreeWith(b, i, v, 0))
  {
    hide Sound, TreeLike, Denotes, Outside;
    FirstIsRoot(b);
    TreeAfter(b, i, v, mem', 0);
    AvoidBoth(mem', ROOT, TreeWith(b, i, v, 0), Outside(b, 0), Outside(b, 0), iset{});
  }

  lemma HeldResolves(mem: Mem, at: Addr, size: StructSize, start: Addr, cells: seq<Cell>, avoid: iset<Addr>)
    requires HeldStruct(mem, at, size, start, cells, avoid)
    ensures IsStruct(mem, at, size, start)
  {
    hide Denotes, Resolve, Pads;
  }

  // ----- Lists

  function Kind(shape: Shape): ElementSize
    requires !shape.StructShape?
  {
    if shape.ListShape? then Plain(shape.element) else Structs(shape.size)
  }

  /**
   What list `i` becomes in structs of `newSize`: its structs enlarged, its pointers the first ones of as many
   structs, its elements the first bytes of as many structs, or as many structs of nothing.
   */
  ghost predicate Becomes(b: Build, i: nat, newSize: StructSize, v: Value) {
    && i < |b.objects| && !b.objects[i].shape.StructShape?
    && var p, cells := b.objects[i], CellsIn(Tree(b, i));
       && v.Obj? && v.shape == CompositeShape(newSize, p.shape.count)
       && if p.shape.CompositeShape? then
            && p.shape.size.FitsInside(newSize) && Times(p.shape.count, p.shape.size) <= |cells|
            && v.cells == AllEnlarged(cells, p.shape.size, newSize, p.shape.count)
          else if p.shape.element == Void then
            v.cells == ZeroStructs(newSize, p.shape.count)
          else if p.shape.element == Pointer then
            && newSize.ptrs > 0 && p.shape.count <= |Pointees(b, i)| && StrideFits(Pointees(b, i), newSize)
            && v.cells == Spread(Pointees(b, i), newSize, p.shape.count)
          else
            && newSize.data > 0 && IsCopied(p.shape.element)
            && HasBody(b.st.mem, p.start, ListWords(p.shape.element, p.shape.count))
            && var words := ListedWords(b.st.mem, p.start, ListWords(p.shape.element, p.shape.count));
               p.shape.count <= |words| * (8 / Width(p.shape.element))
               && v.cells == AllWidened(words, p.shape.element, newSize, p.shape.count)
  }

  lemma StructListAfter(b: Build, i: nat, newSize: StructSize, v: Value, r: ListPromoted)
    requires Sound(b) && TreeLike(b) && Becomes(b, i, newSize, v) && r.ListPromoted?
    requires b.objects[i].shape.CompositeShape? && InMem(b.st.mem, b.objects[i].at)
    requires var p := b.objects[i];
             ListPreserved(b.st, p.at, p.shape.size, p.shape.count, p.start, Tree(b, i).cells, newSize, Outside(b, i),
                           r)
    ensures PromotedTo(b, i, v, r.st.mem)
  {
    hide Sound, TreeLike, Own, Denotes, Tree, Unread, Abandoned, Times, PromotedTo, Outside, AllEnlarged;
    var p := b.objects[i];
    TreeMeansOutside(b, i);
    TagOwned(b, i);
    Abandoning(b, i, v, r.st.mem, TagOf(p.start), Times(p.shape.count, p.shape.size) + 1);
  }

  lemma PointerListAfter(b: Build, i: nat, newSize: StructSize, v: Value, r: ListPromoted)
    requires Sound(b) && TreeLike(b) && Becomes(b, i, newSize, v) && r.ListPromoted?
    requires b.objects[i].shape.ListShape? && b.objects[i].shape.element == Pointer
    requires InMem(b.st.mem, b.objects[i].at)
    requires var p := b.objects[i];
             PointersPreserved(b.st, p.at, p.shape.count, p.start, Pointees(b, i), newSize, Outside(b, i), r)
    ensures PromotedTo(b, i, v, r.st.mem)
  {
    hide Sound, TreeLike, Own, Denotes, Tree, Unread, Abandoned, Times, PromotedTo, Outside, Spread, StrideFits,
         Pointees, ListWords;
    var p := b.objects[i];
    Equality.PointerListWords(p.shape.count);
    BodyOwned(b, i);
    Abandoning(b, i, v, r.st.mem, p.start, p.shape.count);
  }

  lemma PlainListAfter(b: Build, i: nat, newSize: StructSize, v: Value, r: ListPromoted)
    requires Sound(b) && TreeLike(b) && Becomes(b, i, newSize, v) && r.ListPromoted?
    requires b.objects[i].shape.ListShape? && IsCopied(b.objects[i].shape.element)
    requires InMem(b.st.mem, b.objects[i].at)
    requires var p := b.objects[i];
             && HasBody(b.st.mem, p.start, ListWords(p.shape.element, p.shape.count))
             && PlainPreserved(b.st, p.at, p.shape.element, p.shape.count, p.start, newSize, Outside(b, i), r)
    ensures PromotedTo(b, i, v, r.st.mem)
  {
    hide Sound, TreeLike, Own, Denotes, Tree, Unread, Abandoned, Times, PromotedTo, Outside, AllWidened, ListWords,
         Pointees;
    var p := b.objects[i];
    BodyOwned(b, i);
    Abandoning(b, i, v, r.st.mem, p.start, ListWords(p.shape.element, p.shape.count));
  }

  lemma VoidListAfter(b: Build, i: nat, newSize: StructSize, v: Value, r: ListPromoted)
    requires Sound(b) && TreeLike(b) && Becomes(b, i, newSize, v) && r.ListPromoted?
    requires b.objects[i].shape.ListShape? && b.objects[i].shape.element == Void
    requires InMem(b.st.mem, b.objects[i].at)
    requires VoidPreserved(b.st, b.objects[i].at, b.objects[i].shape.count, newSize, Outside(b, i), r)
    ensures PromotedTo(b, i, v, r.st.mem)
  {
    hide Sound, TreeLike, Own, Denotes, Tree, Unread, Times, PromotedTo, Outside, ZeroStructs, ListWords, Pointees,
         Pads;
    var p := b.objects[i];
    NoBody(b, i);
    Abandoning(b, i, v, r.st.mem, p.start, 0);
  }

  lemma NoBody(b: Build, i: nat)
    requires i < |b.objects|
    ensures Body(b.objects[i].start, 0) <= Own(b.st.mem, b.objects[i])
  {
    hide Own;
  }

  /** The hypotheses of the promotion of a list hold of every list that was built. */
  lemma ListAsHeld(b: Build, i: nat)
    requires Sound(b) && TreeLike(b) && i < |b.objects| && !b.objects[i].shape.StructShape?
    ensures var p := b.objects[i];
            Held(b.st.mem, p.at, Kind(p.shape), p.shape.count, p.start, CellsIn(Tree(b, i)), Pointees(b, i),
                 Outside(b, i))
  {
    hide Sound, TreeLike, Own, Denotes, Resolve, Pads, Tree, Unread, Pointees, HeldList, HeldPointers, HeldPlain;
    var p := b.objects[i];
    OwnWords(b, i);
    TreeMeansOutside(b, i);
    BuiltProper(b, i);
    if p.shape.CompositeShape? {
      ListIsHeld(b, i);
    } else if p.shape.element == Pointer {
      PointersAreHeld(b, i);
    } else if IsCopied(p.shape.element) {
      PlainIsHeld(b, i);
    }
  }

  lemma BuiltProper(b: Build, i: nat)
    requires Sound(b) && i < |b.objects|
    ensures ValidShape(b.objects[i].shape)
  {
    hide Sound, Own, TryReadTyped, Times;
    OwnWords(b, i);
    ReaderSound(b.st.mem, b.objects[i].at, Unlimited);
  }

  /** The same for lists: each can be promoted to structs of any size its upgrades lead to. */
  lemma PromotedList(b: Build, i: nat, newSize: StructSize, v: Value)
    requires Sound(b) && TreeLike(b) && Becomes(b, i, newSize, v)
    requires var p := b.objects[i];
             && Promotable(Kind(p.shape), newSize)
             && Askable(CompositeShape(newSize, p.shape.count)) && Bounded(CompositeShape(newSize, p.shape.count))
    ensures var p := b.objects[i];
            && ValidSt(b.st) && IsList(b.st.mem, p.at, Kind(p.shape), p.shape.count, p.start)
            && var r := Upgraded(b.st, p.at, Kind(p.shape), p.shape.count, p.start, newSize);
               r.ListPromoted? ==> Means(r.st.mem, ROOT, TreeWith(b, i, v, 0))
  {
    hide Sound, TreeLike, Denotes, Held, Upgraded, Unread, Outside, Own, PromotedTo, Tree, Pointees, Becomes, Askable,
         Bounded, Resolve, Preserved;
    SoundParts(b);
    BecomesList(b, i, newSize, v);
    var p := b.objects[i];
    ListAsHeld(b, i);
    HeldIsList(b.st.mem, p.at, Kind(p.shape), p.shape.count, p.start, CellsIn(Tree(b, i)), Pointees(b, i),
               Outside(b, i));
    var r := Upgraded(b.st, p.at, Kind(p.shape), p.shape.count, p.start, newSize);
    UpgradePreserves(b.st, p.at, Kind(p.shape), p.shape.count, p.start, newSize, CellsIn(Tree(b, i)), Pointees(b, i),
                     Outside(b, i));
    if r.ListPromoted? {
      ListAfter(b, i, newSize, v, r);
      RootAfter(b, i, v, r.st.mem);
    }
  }

  lemma BecomesList(b: Build, i: nat, newSize: StructSize, v: Value)
    requires Becomes(b, i, newSize, v)
    ensures i < |b.objects| && !b.objects[i].shape.StructShape?
  {
  }

  lemma ListAfter(b: Build, i: nat, newSize: StructSize, v: Value, r: ListPromoted)
    requires Sound(b) && TreeLike(b) && Becomes(b, i, newSize, v) && r.ListPromoted?
    requires !b.objects[i].shape.StructShape? && Promotable(Kind(b.objects[i].shape), newSize)
    requires var p := b.objects[i];
             && IsList(b.st.mem, p.at, Kind(p.shape), p.shape.count, p.start)
             && Preserved(b.st, p.at, Kind(p.shape), p.shape.count, p.start, CellsIn(Tree(b, i)), Pointees(b, i),
                          newSize, Outside(b, i), r)
    ensures PromotedTo(b, i, v, r.st.mem)
  {
    hide Sound, TreeLike, Tree, Pointees, Becomes, Resolve, PromotedTo, ListPreserved, PointersPreserved, VoidPreserved,
         PlainPreserved, Outside, ListWords;
    BecomesList(b, i, newSize, v);
    TreeMeansOutside(b, i);
    var shape := b.objects[i].shape;
    if shape.CompositeShape? {
      StructListAfter(b, i, newSize, v, r);
    } else if shape.element == Pointer {
      PointerListAfter(b, i, newSize, v, r);
    } else if shape.element == Void {
      VoidListAfter(b, i, newSize, v, r);
    } else {
      PlainListAfter(b, i, newSize, v, r);
    }
  }

  /** There is something every list becomes, except where the stride does not fit. */
  lemma BecomesSomething(b: Build, i: nat, newSize: StructSize)
    requires Sound(b) && TreeLike(b) && i < |b.objects| && !b.objects[i].shape.StructShape?
    requires Promotable(Kind(b.objects[i].shape), newSize)
    ensures (exists v :: Becomes(b, i, newSize, v))
       <==> (Kind(b.objects[i].shape) == Plain(Pointer) ==> StrideFits(Pointees(b, i), newSize))
  {
    hide Sound, TreeLike, Tree, Resolve, Outside, ListWords, Times, AllEnlarged, Spread, ZeroStructs, AllWidened,
         StrideFits,
         Denotes, Own;
    TreeMeansOutside(b, i);
    OwnWords(b, i);
    var p := b.objects[i];
    var shape, cells := CompositeShape(newSize, p.shape.count), CellsIn(Tree(b, i));
    if p.shape.CompositeShape? {
      assert Becomes(b, i, newSize, Obj(shape, AllEnlarged(cells, p.shape.size, newSize, p.shape.count)));
    } else if p.shape.element == Void {
      assert Becomes(b, i, newSize, Obj(shape, ZeroStructs(newSize, p.shape.count)));
    } else if p.shape.element == Pointer {
      Equality.PointerListWords(p.shape.count);
      if StrideFits(Pointees(b, i), newSize) {
        assert Becomes(b, i, newSize, Obj(shape, Spread(Pointees(b, i), newSize, p.shape.count)));
      }
    } else {
      PlainInside(b.st.mem, p.at, p.shape.element, p.shape.count, p.start);
      var words := ListedWords(b.st.mem, p.start, ListWords(p.shape.element, p.shape.count));
      ElementsThere(words, p.shape.element, p.shape.count);
      assert Becomes(b, i, newSize, Obj(shape, AllWidened(words, p.shape.element, newSize, p.shape.count)));
    }
  }
}
