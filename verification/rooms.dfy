/**
 When there is room: an allocation, a transferred pointer or a promotion is refused only if neither the
 segments nor the allocator have the words it asks for.
 */
module Rooms {
  import opened Wire
  import opened Reader
  import opened Values
  import opened Layout
  import opened Putting
  import opened Promotion
  import opened ListPromotion
  import opened DataPromotion
  import opened PointerPromotion
  import opened Upgrading

  /** The words left in a segment. */
  function Spare(st: St, seg: nat): int
    requires seg < |st.mem| == |st.caps|
  {
    st.caps[seg] - |st.mem[seg]|
  }

  /** The allocator grants the next `k` requests, and the message can have as many more segments. */
  predicate Grants(st: St, k: nat) {
    && |st.mem| - 1 + k <= MAX_SEGMENTS && k <= |st.plan|
    && forall i :: 0 <= i < k ==> st.plan[i].Grant?
  }

  /** `words` in the segment or in the last one, or `k` grants. */
  predicate HasRoom(st: St, seg: nat, words: nat, k: nat) {
    && seg < |st.mem| == |st.caps| && st.last < |st.mem|
    && (Spare(st, seg) >= words || Spare(st, st.last) >= words || Grants(st, k))
  }

  // ----- Requests

  /** A request fails exactly if neither the last segment nor the allocator has the words. */
  lemma ArenaRefuses(st: St, n: nat)
    requires ValidSt(st)
    ensures ArenaAlloc(st, n).NoRoom? <==> Spare(st, st.last) < n && !Grants(st, 1)
  {
  }

  /** And an object asks its own segment before. */
  lemma SomewhereRefuses(st: St, seg: nat, n: nat)
    requires ValidSt(st) && seg < |st.mem|
    ensures AllocSomewhere(st, seg, n).NoRoom? <==> !HasRoom(st, seg, n, 1)
  {
    ArenaRefuses(st, n);
    hide ArenaAlloc, Grants;
  }

  lemma UseTakes(st: St, seg: nat, n: nat, home: nat, words: nat, k: nat)
    requires ValidSt(st) && seg < |st.mem| && HasRoom(st, home, words + n, k) && TryUse(st, seg, n).Room?
    ensures HasRoom(TryUse(st, seg, n).st, home, words, k)
  {
  }

  lemma SomewhereTakes(st: St, seg: nat, n: nat, words: nat, k: nat)
    requires ValidSt(st) && 0 < n <= U29_MAX && HasRoom(st, seg, words + n, k + 1)
    ensures AllocSomewhere(st, seg, n).Room? && HasRoom(AllocSomewhere(st, seg, n).st, seg, words, k)
  {
  }

  // ----- A transferred pointer

  /** The pointer is near, and has to be reached from another segment. */
  predicate NeedsPad(mem: Mem, from: Addr, to: Addr)
    requires InMem(mem, from)
  {
    && !At(mem, from).IsNull() && from.seg != to.seg
    && (Decode(At(mem, from)).StructPtr? || Decode(At(mem, from)).ListPtr?)
  }

  /**
   A pointer cannot be transferred exactly if it needs a landing pad, its segment has no word for one, and
   neither the segment it goes to nor the last one nor the allocator has two.
   */
  lemma TransferRefused(st: St, from: Addr, to: Addr)
    requires ValidSt(st) && Sane(st.mem, from) && InMem(st.mem, to)
    ensures Transfer(st, from, to).Stuck?
       <==> NeedsPad(st.mem, from, to) && Spare(st, from.seg) < 1 && !HasRoom(st, to.seg, 2, 1)
  {
    hide Resolve, Decode, WithContentOffset, ArenaAlloc, AllocSomewhere, ContentOffset, EncodeFar, PadNear, PadDouble,
         Grants;
    if NeedsPad(st.mem, from, to) {
      NearContentInside(st.mem, from);
      SomewhereRefuses(st, to.seg, 2);
    }
  }

  /** The same segments with the same words left, and the same allocator. */
  ghost predicate SameRoom(st: St, st': St) {
    && |st'.mem| == |st.mem| && st'.caps == st.caps && st'.last == st.last && st'.plan == st.plan
    && forall s :: 0 <= s < |st.mem| ==> |st'.mem[s]| == |st.mem[s]|
  }

  lemma RoomStays(st: St, st': St, seg: nat, words: nat, k: nat)
    requires SameRoom(st, st') && HasRoom(st, seg, words, k)
    ensures HasRoom(st', seg, words, k)
  {
  }

  lemma SetWordSameRoom(st: St, a: Addr, w: Word)
    requires InMem(st.mem, a)
    ensures SameRoom(st, SetWord(st, a, w))
  {
  }

  lemma PadsSameRoom(st: St, to: Addr, pad: Addr, w: Word, content: Addr)
    requires ValidSt(st) && InMem(st.mem, to) && InMem(st.mem, pad)
    ensures SameRoom(st, PadNear(st, to, pad, w))
    ensures InMem(st.mem, Slot(pad, 1)) && content.seg < U32_LIMIT && content.off <= U29_MAX ==>
              SameRoom(st, PadDouble(st, to, pad, content, w))
  {
    hide EncodeFar;
  }

  /** A transferred pointer takes two words of a segment at most, or one grant. */
  lemma TransferTakes(st: St, from: Addr, to: Addr, words: nat, k: nat)
    requires ValidSt(st) && Sane(st.mem, from) && InMem(st.mem, to) && HasRoom(st, to.seg, words + 2, k + 1)
    ensures Transfer(st, from, to).Moved? && HasRoom(Transfer(st, from, to).st, to.seg, words, k)
  {
    hide Resolve, Decode, WithContentOffset, AllocSomewhere, TryUse, ContentOffset, EncodeFar, PadNear, PadDouble,
         SetWord, HasRoom;
    MoreThanEnough(st, to.seg, words, k);
    var w := At(st.mem, from);
    if !w.IsNull() {
      if !(Decode(w).StructPtr? || Decode(w).ListPtr?) {
        SetWordSameRoom(st, to, w);
        RoomStays(st, SetWord(st, to, w), to.seg, words, k);
      } else {
        NearContentInside(st.mem, from);
        InRange(st, from);
        InRange(st, to);
        var content := ContentStart(from, w);
        if from.seg == to.seg {
          SetWordSameRoom(st, to, WithContentOffset(w, content - to.off - 1));
          RoomStays(st, Transfer(st, from, to).st, to.seg, words, k);
        } else {
          PaddedTakes(st, from, to, words, k);
        }
      }
    }
  }

  lemma MoreThanEnough(st: St, seg: nat, words: nat, k: nat)
    requires HasRoom(st, seg, words + 2, k + 1)
    ensures HasRoom(st, seg, words, k) && HasRoom(st, seg, words + 1, k)
  {
  }

  lemma PaddedTakes(st: St, from: Addr, to: Addr, words: nat, k: nat)
    requires ValidSt(st) && Sane(st.mem, from) && InMem(st.mem, to) && HasRoom(st, to.seg, words + 2, k + 1)
    requires NeedsPad(st.mem, from, to)
    ensures Transfer(st, from, to).Moved? && HasRoom(Transfer(st, from, to).st, to.seg, words, k)
  {
    hide Resolve, Decode, WithContentOffset, AllocSomewhere, TryUse, ContentOffset, EncodeFar, PadNear, PadDouble,
         SetWord, HasRoom;
    MoreThanEnough(st, to.seg, words, k);
    var w := At(st.mem, from);
    NearContentInside(st.mem, from);
    InRange(st, from);
    InRange(st, to);
    var content := ContentStart(from, w);
    TryUseGood(st, from.seg, 1);
    var pad := TryUse(st, from.seg, 1);
    if pad.Room? {
      UseTakes(st, from.seg, 1, to.seg, words, k);
      InRange(pad.st, pad.at);
      PadsSameRoom(pad.st, to, pad.at, WithContentOffset(w, content - pad.at.off - 1), pad.at);
      RoomStays(pad.st, Transfer(st, from, to).st, to.seg, words, k);
    } else {
      AllocSomewhereGood(st, to.seg, 2);
      SomewhereTakes(st, to.seg, 2, words, k);
      var double := AllocSomewhere(st, to.seg, 2);
      PadsSameRoom(double.st, to, double.at, WithContentOffset(w, 0), Addr(from.seg, content));
      RoomStays(double.st, Transfer(st, from, to).st, to.seg, words, k);
    }
  }

  ghost predicate MovedWithRoom(r: Moving, seg: nat, words: nat, k: nat) {
    r.Moved? && HasRoom(r.st, seg, words, k)
  }

  /** A section takes two words or one grant for each of its pointers. */
  lemma {:induction false} SectionTakes(st: St, from: Addr, to: Addr, n: nat, words: nat, k: nat)
    requires SaneSection(st, from, to, n) && HasRoom(st, to.seg, words + 2 * n, k + n)
    ensures TransferSection(st, from, to, n).Moved? && HasRoom(TransferSection(st, from, to, n).st, to.seg, words, k)
  {
    hide Transfer, HasRoom, Sane;
    if n > 0 {
      SectionTakes(st, from, to, n - 1, words + 2, k + 1);
      var before := TransferSection(st, from, to, n - 1).st;
      TransferTakes(before, Slot(from, n - 1), Slot(to, n - 1), words, k);
    }
  }

  // ----- An object

  /** Words for an object of `n` words and two for each of `p` pointers; or grants. */
  predicate RoomFor(st: St, seg: nat, n: nat, p: nat) {
    && seg < |st.mem| == |st.caps| && st.last < |st.mem|
    && (|| Spare(st, seg) >= n + 2 * p
        || Spare(st, st.last) >= n + 1 + 2 * p
        || Grants(st, p + if n == U29_MAX then 2 else 1))
  }

  /** Where an object was placed there is room left for the pads of its pointers. */
  ghost predicate PlacedWithRoom(r: Placing, p: nat) {
    r.Placed? && HasRoom(r.st, r.start.seg, 2 * p, p)
  }

  lemma HereTakes(st: St, seg: nat, n: nat, p: nat)
    requires ValidSt(st) && RoomFor(st, seg, n, p) && TryUse(st, seg, n).Room?
    ensures HasRoom(TryUse(st, seg, n).st, seg, 2 * p, p)
  {
  }

  lemma ThereTakes(st: St, seg: nat, n: nat, p: nat)
    requires ValidSt(st) && RoomFor(st, seg, n, p) && TryUse(st, seg, n).NoRoom? && n + 1 <= U29_MAX
    ensures ArenaAlloc(st, n + 1).Room?
    ensures HasRoom(ArenaAlloc(st, n + 1).st, ArenaAlloc(st, n + 1).at.seg, 2 * p, p)
  {
  }

  lemma WholeSegmentGranted(st: St, seg: nat, p: nat)
    requires ValidSt(st) && RoomFor(st, seg, U29_MAX, p)
    ensures Grants(st, p + 2)
  {
  }

  lemma StructTakes(st: St, at: Addr, size: StructSize, p: nat)
    requires ValidSt(st) && InMem(st.mem, at) && size.Total() > 0 && RoomFor(st, at.seg, size.Total(), p)
    ensures PlacedWithRoom(AllocStruct(st, at, size), p)
  {
    hide PlaceNear, PlaceFar, TryUse, ArenaAlloc, RoomFor, HasRoom;
    var n := size.Total();
    TryUseGood(st, at.seg, n);
    var here := TryUse(st, at.seg, n);
    if here.Room? {
      HereTakes(st, at.seg, n, p);
      PlaceNearSameRoom(here.st, at, StructShape(size), here.at);
      RoomStays(here.st, AllocStruct(st, at, size).st, here.at.seg, 2 * p, p);
    } else {
      ThereTakes(st, at.seg, n, p);
      ArenaAllocGood(st, n + 1);
      var there := ArenaAlloc(st, n + 1);
      PlaceFarSameRoom(there.st, at, StructShape(size), there.at);
      RoomStays(there.st, AllocStruct(st, at, size).st, there.at.seg, 2 * p, p);
    }
  }

  lemma PlaceNearSameRoom(st: St, at: Addr, shape: Shape, start: Addr)
    requires ValidSt(st) && InMem(st.mem, at) && InMem(st.mem, start) && 0 < ObjectTotal(shape) <= U29_MAX
    ensures SameRoom(st, PlaceNear(st, at, shape, start))
  {
    hide ObjectTotal, PointerWord;
  }

  lemma PlaceFarSameRoom(st: St, at: Addr, shape: Shape, pad: Addr)
    requires ValidSt(st) && InMem(st.mem, at) && InMem(st.mem, pad) && 0 < ObjectTotal(shape) <= U29_MAX
    ensures SameRoom(st, PlaceFar(st, at, shape, pad))
  {
    hide ObjectTotal, PointerWord, EncodeFar;
  }

  lemma PlaceDoubleFarSameRoom(st: St, at: Addr, pad: Addr, start: Addr, tag: Word)
    requires ValidSt(st) && InMem(st.mem, at)
    requires InMem(st.mem, pad) && InMem(st.mem, Slot(pad, 1)) && InMem(st.mem, start)
    ensures SameRoom(st, PlaceDoubleFar(st, at, pad, start, tag))
  {
    hide EncodeFar;
  }

  lemma SegmentTakes(st: St, at: Addr, shape: Shape, p: nat)
    requires ValidSt(st) && InMem(st.mem, at) && !shape.StructShape? && Grants(st, p + 2)
    ensures PlacedWithRoom(AllocSegmentOfList(st, at, shape), p)
  {
    hide PlaceDoubleFar, EncodeList, TryUse, ArenaAlloc, AllocSomewhere, Grants, HasRoom;
    AllocSomewhereGood(st, at.seg, 2);
    PadGranted(st, at.seg, p + 1);
    var pad := AllocSomewhere(st, at.seg, 2);
    GrantedNext(pad.st, p);
    ArenaAllocGood(pad.st, U29_MAX);
    var list := ArenaAlloc(pad.st, U29_MAX);
    var tag := EncodeList(0, ElementOf(shape), shape.count);
    PlaceDoubleFarSameRoom(list.st, at, pad.at, list.at, tag);
    RoomStays(list.st, PlaceDoubleFar(list.st, at, pad.at, list.at, tag), list.at.seg, 2 * p, p);
  }

  lemma PadGranted(st: St, seg: nat, k: nat)
    requires ValidSt(st) && seg < |st.mem| && Grants(st, k + 1)
    ensures AllocSomewhere(st, seg, 2).Room? && Grants(AllocSomewhere(st, seg, 2).st, k)
  {
  }

  lemma GrantedNext(st: St, k: nat)
    requires ValidSt(st) && Grants(st, k + 1)
    ensures ArenaAlloc(st, U29_MAX).Room?
    ensures HasRoom(ArenaAlloc(st, U29_MAX).st, ArenaAlloc(st, U29_MAX).at.seg, 2 * k, k)
  {
  }

  lemma ListBodyTakes(st: St, at: Addr, shape: Shape, p: nat)
    requires ValidSt(st) && InMem(st.mem, at) && !shape.StructShape? && 0 < ObjectTotal(shape) <= U29_MAX
    requires RoomFor(st, at.seg, ObjectTotal(shape), p)
    ensures PlacedWithRoom(AllocListBody(st, at, shape), p)
  {
    hide PlaceNear, PlaceFar, TryUse, ArenaAlloc, AllocSegmentOfList, ObjectTotal, RoomFor, HasRoom, Grants;
    var n := ObjectTotal(shape);
    TryUseGood(st, at.seg, n);
    var here := TryUse(st, at.seg, n);
    if here.Room? {
      HereTakes(st, at.seg, n, p);
      PlaceNearSameRoom(here.st, at, shape, here.at);
      RoomStays(here.st, AllocListBody(st, at, shape).st, here.at.seg, 2 * p, p);
    } else if n + 1 <= U29_MAX {
      ThereTakes(st, at.seg, n, p);
      ArenaAllocGood(st, n + 1);
      var there := ArenaAlloc(st, n + 1);
      PlaceFarSameRoom(there.st, at, shape, there.at);
      RoomStays(there.st, AllocListBody(st, at, shape).st, there.at.seg, 2 * p, p);
    } else {
      WholeSegmentGranted(st, at.seg, p);
      SegmentTakes(st, at, shape, p);
    }
  }

  /** With room for an object and its pointers, it is placed where there is room for the pointers. */
  lemma ObjectTakes(st: St, at: Addr, shape: Shape, p: nat)
    requires ValidSt(st) && InMem(st.mem, at) && 0 < ObjectTotal(shape) <= U29_MAX
    requires RoomFor(st, at.seg, ObjectTotal(shape), p)
    ensures PlacedWithRoom(AllocObject(st, at, shape), p)
  {
    hide AllocStruct, AllocListBody, EncodeTag, SetWord, RoomFor, HasRoom, Words;
    if shape.StructShape? {
      StructTotal(shape);
      StructTakes(st, at, shape.size, p);
    } else {
      ListBodyTakes(st, at, shape, p);
      AllocListBodyStart(st, at, shape);
      var r := AllocListBody(st, at, shape);
      if shape.CompositeShape? {
        var tag := EncodeTag(shape.count, shape.size);
        SetWordSameRoom(r.st, r.start, tag);
        RoomStays(r.st, SetWord(r.st, r.start, tag), r.start.seg, 2 * p, p);
      }
    }
  }

  /**
   An object is refused exactly if its segment has not the words, and neither the last segment nor the allocator
   has these and one more for a landing pad; unless it fills a segment of the largest size.
   */
  lemma ObjectRefused(st: St, at: Addr, shape: Shape)
    requires ValidSt(st) && InMem(st.mem, at) && 0 < ObjectTotal(shape) < U29_MAX
    ensures AllocObject(st, at, shape).Failed? <==> !RoomFor(st, at.seg, ObjectTotal(shape), 0)
  {
    hide PlaceNear, PlaceFar, ArenaAlloc, AllocSegmentOfList, EncodeTag, SetWord, Words, AllocStruct, AllocListBody;
    if RoomFor(st, at.seg, ObjectTotal(shape), 0) {
      ObjectTakes(st, at, shape, 0);
    } else {
      ArenaRefuses(st, ObjectTotal(shape) + 1);
      if shape.StructShape? {
        StructTotal(shape);
        StructRefused(st, at, shape.size);
      } else {
        ListBodyRefused(st, at, shape);
      }
    }
  }

  lemma StructRefused(st: St, at: Addr, size: StructSize)
    requires ValidSt(st) && InMem(st.mem, at) && size.Total() > 0
    requires TryUse(st, at.seg, size.Total()).NoRoom? && ArenaAlloc(st, size.Total() + 1).NoRoom?
    ensures AllocStruct(st, at, size).Failed?
  {
    hide PlaceNear, PlaceFar, TryUse, ArenaAlloc;
  }

  lemma ListBodyRefused(st: St, at: Addr, shape: Shape)
    requires ValidSt(st) && InMem(st.mem, at) && !shape.StructShape? && 0 < ObjectTotal(shape) < U29_MAX
    requires TryUse(st, at.seg, ObjectTotal(shape)).NoRoom? && ArenaAlloc(st, ObjectTotal(shape) + 1).NoRoom?
    ensures AllocListBody(st, at, shape).Failed?
  {
    hide PlaceNear, PlaceFar, TryUse, ArenaAlloc, ObjectTotal, AllocSegmentOfList;
  }

  lemma StructTotal(shape: Shape)
    requires shape.StructShape?
    ensures ObjectTotal(shape) == shape.size.Total()
  {
  }

  // ----- Promotion of a struct

  lemma {:induction false} CopySameRoom(st: St, from: Addr, to: Addr, n: nat)
    requires ValidSt(st) && HasBody(st.mem, from, n) && HasBody(st.mem, to, n)
    ensures SameRoom(st, CopyWords(st, from, to, n))
  {
    hide SetWord;
    if n > 0 {
      CopySameRoom(st, from, to, n - 1);
      var before := CopyWords(st, from, to, n - 1);
      SetWordSameRoom(before, Slot(to, n - 1), At(before.mem, Slot(from, n - 1)));
    }
  }

  lemma ClearPtrsSameRoom(st: St, at: Addr)
    requires ValidSt(st) && InMem(st.mem, at)
    ensures SameRoom(st, ClearPtrs(st, at))
  {
    hide Decode;
  }

  /** The pointers of a struct take two words or a grant each. */
  lemma MoveTakes(past: Mem, st: St, start: Addr, size: StructSize, to: Addr, newSize: StructSize, cells: seq<Cell>,
                  touched: iset<Addr>, words: nat, k: nat)
    requires CanPromote(st, start, size, to, newSize, cells)
    requires PromotionReady(past, st, start, size, to, newSize, cells, touched)
    requires HasRoom(st, to.seg, words + 2 * size.ptrs, k + size.ptrs)
    ensures MovedWithRoom(MoveStruct(st, start, size, to, newSize), to.seg, words, k)
  {
    hide MoveStruct, TransferSection, PromotionReady, SaneSection, HasRoom, SameRoom, Body, Keeps, Grows;
    var copied := FieldsAreSane(past, st, start, size, to, newSize, cells, touched);
    CopiedTakes(st, copied, Slot(start, size.data), Slot(to, newSize.data), size.ptrs, words, k);
  }

  /** After the data was copied the pointers can be transferred, one after the other. */
  lemma FieldsAreSane(past: Mem, st: St, start: Addr, size: StructSize, to: Addr, newSize: StructSize,
                      cells: seq<Cell>, touched: iset<Addr>)
    returns (copied: St)
    requires CanPromote(st, start, size, to, newSize, cells)
    requires PromotionReady(past, st, start, size, to, newSize, cells, touched)
    ensures SameRoom(st, copied)
    ensures SaneSection(copied, Slot(start, size.data), Slot(to, newSize.data), size.ptrs)
    ensures MoveStruct(st, start, size, to, newSize)
         == TransferSection(copied, Slot(start, size.data), Slot(to, newSize.data), size.ptrs)
  {
    hide TransferSection, CopyWords, PromotionReady, SectionReady, SaneSection, SameRoom, Body, Keeps, Grows;
    copied := CopyWords(st, start, to, size.data);
    CopySameRoom(st, start, to, size.data);
    FieldsReady(past, st, start, size, to, newSize, cells, touched);
    SectionIsSane(past, copied, Slot(start, size.data), Slot(to, newSize.data), Fields(cells, size), touched);
  }

  lemma CopiedTakes(st: St, copied: St, from: Addr, to: Addr, n: nat, words: nat, k: nat)
    requires SameRoom(st, copied) && SaneSection(copied, from, to, n) && HasRoom(st, to.seg, words + 2 * n, k + n)
    ensures MovedWithRoom(TransferSection(copied, from, to, n), to.seg, words, k)
  {
    hide TransferSection, HasRoom, SameRoom;
    RoomStays(st, copied, to.seg, words + 2 * n, k + n);
    SectionTakes(copied, from, to, n, words, k);
  }

  /**
   A struct is promoted if its segment or the last one has the words of the larger struct and its pad, and two
   more for each pointer; or if the allocator grants a request for each of them.
   */
  lemma PromotionSucceeds(st: St, at: Addr, size: StructSize, start: Addr, cells: seq<Cell>, expected: StructSize,
                          avoid: iset<Addr>)
    requires ValidSt(st) && HeldStruct(st.mem, at, size, start, cells, avoid) && InMem(st.mem, at)
    requires !expected.FitsInside(size) && IsStruct(st.mem, at, size, start)
    requires RoomFor(st, at.seg, expected.Max(size).Total(), size.ptrs)
    ensures ToStructMut(st, at, size, start, expected).Promoted?
  {
    hide Denotes, Resolve, Pads, AllocStruct, ClearPtrs, MoveStruct, PromotionReady, Readable, Body, HeldStruct,
         CanPromote, HasRoom, Keeps, Abandoned, ToStructMut;
    var newSize := expected.Max(size);
    var cleared := ClearPtrs(st, at);
    ClearPtrsSameRoom(st, at);
    StructTakes(cleared, at, newSize, size.ptrs);
    AllocStructGood(cleared, at, newSize);
    var room := AllocStruct(cleared, at, newSize);
    RoomIsReady(st, at, size, start, cells, newSize, avoid);
    var touched := Abandoned(st.mem, at, start, size.Total()) + avoid + Body(room.start, newSize.Total());
    ReadyToPromote(st.mem, room.st, start, size, room.start, newSize, cells, touched);
    CanPromoteParts(room.st, start, size, room.start, newSize, cells);
    MoveTakes(st.mem, room.st, start, size, room.start, newSize, cells, touched, 0, 0);
    PromotedIfMoved(st, at, size, start, expected, room);
  }

  lemma PromotedIfMoved(st: St, at: Addr, size: StructSize, start: Addr, expected: StructSize, room: Placing)
    requires ValidSt(st) && IsStruct(st.mem, at, size, start) && !expected.FitsInside(size) && room.Placed?
    requires room == AllocStruct(ClearPtrs(st, at), at, expected.Max(size))
    requires ValidSt(room.st) && HasBody(room.st.mem, start, size.Total())
    requires HasBody(room.st.mem, room.start, expected.Max(size).Total())
    requires MoveStruct(room.st, start, size, room.start, expected.Max(size)).Moved?
    ensures ToStructMut(st, at, size, start, expected).Promoted?
  {
    hide Resolve, AllocStruct, ClearPtrs, MoveStruct, Body, Keeps, ClearWords, IsStruct;
  }

  // ----- Promotion of a list

  /** The pointers of `n` structs. */
  function PointersIn(n: nat, size: StructSize): nat {
    n * size.ptrs
  }

  lemma PointersStep(n: nat, size: StructSize)
    ensures n > 0 ==> PointersIn(n, size) == PointersIn(n - 1, size) + size.ptrs
    ensures n == 0 ==> PointersIn(n, size) == 0
  {
  }

  /** One more struct of a list takes two words or a grant for each of its pointers. */
  lemma ElementTakes(past: Mem, st: St, st': St, start: Addr, size: StructSize, to: Addr, newSize: StructSize,
                     cells: seq<Cell>, count: nat, n: nat, touched: iset<Addr>, words: nat, k: nat)
    requires ListRoom(past, st, start, size, to, newSize, count, touched) && n < count
    requires ElementsHeld(past, start, size, cells, count, touched) && size.FitsInside(newSize)
    requires ValidSt(st') && Keeps(st.mem, st'.mem, Body(to, Times(n, newSize)))
    requires HasBody(st'.mem, Slot(start, Times(n, size)), size.Total())
    requires HasBody(st'.mem, Slot(to, Times(n, newSize)), newSize.Total())
    requires HasRoom(st', to.seg, words + 2 * size.ptrs, k + size.ptrs)
    ensures var r := MoveStruct(st', Slot(start, Times(n, size)), size, Slot(to, Times(n, newSize)), newSize);
            MovedWithRoom(r, to.seg, words, k)
  {
    hide MoveStruct, ListRoom, RoomReady, FieldsHeld, Times, HasRoom;
    ElementRoom(past, st, st', start, size, to, newSize, count, n, touched);
    var from, dst := Slot(start, Times(n, size)), Slot(to, Times(n, newSize));
    ReadyToPromote(past, st', from, size, dst, newSize, Part(cells, size, n), touched);
    MoveTakes(past, st', from, size, dst, newSize, Part(cells, size, n), touched, words, k);
  }

  lemma {:induction false} ElementsTake(past: Mem, st: St, start: Addr, size: StructSize, to: Addr,
                                        newSize: StructSize, cells: seq<Cell>, count: nat, n: nat, touched: iset<Addr>,
                                        words: nat, k: nat)
    requires ListRoom(past, st, start, size, to, newSize, count, touched) && ValidSt(st) && size.FitsInside(newSize)
    requires ElementsHeld(past, start, size, cells, count, touched) && n <= count
    requires HasBody(st.mem, start, Times(n, size)) && HasBody(st.mem, to, Times(n, newSize))
    requires HasRoom(st, to.seg, words + 2 * PointersIn(n, size), k + PointersIn(n, size))
    ensures var r := MoveElements(st, start, size, to, newSize, n);
            MovedWithRoom(r, to.seg, words, k)
    decreases n
  {
    hide MoveStruct, MoveElements, ListRoom, FieldsHeld, RoomReady, ElementsHeld, ValidSt, Times, HasBody, HasRoom,
         ElementsStored, Body, PointersIn;
    PointersStep(n, size);
    if n == 0 {
      NothingMoved(st, start, size, to, newSize);
    } else {
      MoveStep(st, start, size, to, newSize, n);
      ElementsTake(past, st, start, size, to, newSize, cells, count, n - 1, touched, words + 2 * size.ptrs,
                   k + size.ptrs);
      ElementsMoved(past, st, start, size, to, newSize, cells, count, n - 1, touched);
      var before := MoveElements(st, start, size, to, newSize, n - 1);
      ElementTakes(past, st, before.st, start, size, to, newSize, cells, count, n - 1, touched, words, k);
    }
  }

  lemma NewShape(newSize: StructSize, count: u29)
    requires Fits(CompositeShape(newSize, count))
    ensures 0 < ObjectTotal(CompositeShape(newSize, count)) <= U29_MAX
    ensures Askable(CompositeShape(newSize, count)) && Bounded(CompositeShape(newSize, count))
    ensures ObjectTotal(CompositeShape(newSize, count)) == Times(count, newSize) + 1
  {
    hide Times;
  }

  /** The room for what a list becomes: its words and tag, and two more words for each of `p` pointers. */
  predicate RoomForList(st: St, seg: nat, newSize: StructSize, count: u29, p: nat) {
    RoomFor(st, seg, Times(count, newSize) + 1, p)
  }

  lemma ListSucceeds(st: St, at: Addr, size: StructSize, count: u29, start: Addr, cells: seq<Cell>, newSize: StructSize,
                     avoid: iset<Addr>)
    requires ValidSt(st) && HeldList(st.mem, at, size, count, start, cells, avoid) && InMem(st.mem, at)
    requires IsStructList(st.mem, at, size, count, start)
    requires size.FitsInside(newSize) && newSize.Total() > 0
    requires Fits(CompositeShape(newSize, count)) && Bounded(CompositeShape(newSize, count))
    requires RoomForList(st, at.seg, newSize, count, PointersIn(count, size))
    ensures PromoteList(st, at, size, count, start, newSize).ListPromoted?
  {
    hide Denotes, Resolve, Pads, AllocObject, ClearPtrs, MoveElements, Times, ElementsHeld, ListRoom, Readable,
         HeldList, Given, Askable, Bounded, ClearWords, Body, HasRoom, ObjectTotal, Fits, PointersIn;
    var shape, cleared := CompositeShape(newSize, count), ClearPtrs(st, at);
    var p := PointersIn(count, size);
    NewShape(newSize, count);
    ClearPtrsSameRoom(st, at);
    ObjectTakes(cleared, at, shape, p);
    AllocObjectGood(cleared, at, shape);
    var room := AllocObject(cleared, at, shape);
    ListInside(st.mem, at, size, count, start);
    var touched := Given(st.mem, at, start, Times(count, size)) + avoid + Body(room.start, Times(count, newSize));
    ListReady(st, at, size, count, start, cells, newSize, room, avoid, touched);
    RoomOf(st.mem, room.st, start, size, room.start, newSize, count, touched);
    ElementsTake(st.mem, room.st, start, size, room.start, newSize, cells, count, count, touched, 0, 0);
  }

  lemma PointersSucceed(st: St, at: Addr, count: u29, start: Addr, values: seq<Value>, newSize: StructSize,
                        avoid: iset<Addr>)
    requires ValidSt(st) && HeldPointers(st.mem, at, count, start, values, avoid)
    requires IsPointerList(st.mem, at, count, start) && newSize.ptrs > 0
    requires Fits(CompositeShape(newSize, count)) && Bounded(CompositeShape(newSize, count))
    requires RoomForList(st, at.seg, newSize, count, count)
    ensures PromotePointers(st, at, count, start, newSize).ListPromoted?
  {
    hide Denotes, Resolve, Pads, AllocObject, ClearPtrs, TransferSection, Times, Readable, HeldPointers, Abandoned,
         Askable, Bounded, ClearWords, SectionReady, SectionMeans, Body, HasRoom, ObjectTotal, Fits, SaneSection;
    var shape, cleared := CompositeShape(newSize, count), ClearPtrs(st, at);
    NewShape(newSize, count);
    PointersInside(st.mem, at, count, start);
    HeldFacts(st.mem, at, count, start, values, avoid);
    ClearPtrsSameRoom(st, at);
    ObjectTakes(cleared, at, shape, count);
    AllocObjectGood(cleared, at, shape);
    var room := AllocObject(cleared, at, shape);
    var touched := Abandoned(st.mem, at, start, count) + avoid + Body(room.start, Times(count, newSize));
    PointersReady(st, at, count, start, values, newSize, room, avoid, touched);
    SectionIsSane(st.mem, room.st, start, room.start, values, touched);
    SectionTakes(room.st, start, room.start, count, 0, 0);
  }

  lemma PlainSucceeds(st: St, at: Addr, shape: Shape)
    requires ValidSt(st) && InMem(st.mem, at) && 0 < ObjectTotal(shape) <= U29_MAX
    requires RoomFor(st, at.seg, ObjectTotal(shape), 0)
    ensures AllocObject(ClearPtrs(st, at), at, shape).Placed?
  {
    hide ClearPtrs, AllocObject, ObjectTotal, HasRoom;
    ClearPtrsSameRoom(st, at);
    ObjectTakes(ClearPtrs(st, at), at, shape, 0);
  }

  /** The pointers that are moved when a list becomes structs. */
  function PointersOf(existing: ElementSize, count: u29): nat {
    match existing
    case Structs(size) => PointersIn(count, size)
    case Plain(element) => if element == Pointer then count else 0
  }

  /**
   A list is promoted if its segment or the last one has the words of the new list with its tag and its pad, and
   two more for each pointer; or if the allocator grants a request for each of them.
   */
  lemma UpgradeSucceeds(st: St, at: Addr, existing: ElementSize, count: u29, start: Addr, newSize: StructSize,
                        cells: seq<Cell>, values: seq<Value>, avoid: iset<Addr>)
    requires ValidSt(st) && Held(st.mem, at, existing, count, start, cells, values, avoid)
    requires IsList(st.mem, at, existing, count, start) && Promotable(existing, newSize)
    requires Fits(CompositeShape(newSize, count)) && Bounded(CompositeShape(newSize, count))
    requires RoomForList(st, at.seg, newSize, count, PointersOf(existing, count))
    ensures Upgraded(st, at, existing, count, start, newSize).ListPromoted?
  {
    hide Resolve, HeldList, HeldPointers, HeldPlain, PromoteList, PromotePointers, Bounded, ListWords,
         Layout.AllocObject, ClearPtrs, WriteElements, Times, RoomFor, Fits, PointersIn, ObjectTotal;
    NewShape(newSize, count);
    if existing.Structs? {
      ListSucceeds(st, at, existing.size, count, start, cells, newSize, avoid);
    } else if existing.element == Pointer {
      PointersSucceed(st, at, count, start, values, newSize, avoid);
    } else {
      PlainSucceeds(st, at, CompositeShape(newSize, count));
    }
  }
}
