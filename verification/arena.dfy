/**
 The growing arena: segments are fixed buffers with a used length, filled by bump allocation.

 Every method is proved against the function of the same task on the abstract state `st`.
 */
module ArenaHeap {
  import opened Wire
  import opened Reader
  import opened Values
  import opened Layout

  /** `ArenaSegment`: a zeroed buffer and how much of it is in use. */
  class ArenaSegment {
    const data: array<Word>
    var used: nat

    constructor (capacity: nat, inUse: nat)
      requires inUse <= capacity
      ensures data.Length == capacity && used == inUse && fresh(data)
      ensures forall i :: 0 <= i < capacity ==> data[i] == NULL
    {
      data := new Word[capacity](_ => NULL);
      used := inUse;
    }
  }

  class Arena {
    var segments: seq<ArenaSegment>
    var lastOwned: nat
    var plan: seq<Grant>

    ghost var st: St
    ghost var Repr: set<object>

    /** Segment `i` holds `words` in its used part and null words beyond it. */
    static ghost predicate Holds(segment: ArenaSegment, words: seq<Word>, cap: nat)
      reads segment, segment.data
    {
      && segment.used == |words| <= segment.data.Length == cap
      && (forall o :: 0 <= o < |words| ==> segment.data[o] == words[o])
      && (forall o :: |words| <= o < cap ==> segment.data[o] == NULL)
    }

    ghost predicate Valid()
      reads this, Repr
    {
      && this in Repr
      && ValidSt(st)
      && lastOwned == st.last
      && plan == st.plan
      && |segments| == |st.mem|
      && (forall i :: 0 <= i < |segments| ==>
            && segments[i] in Repr
            && segments[i].data in Repr
            && Holds(segments[i], st.mem[i], st.caps[i]))
      && (forall i, j :: 0 <= i < j < |segments| ==>
            segments[i] != segments[j] && segments[i].data != segments[j].data)
    }

    /** `alloc_root`: a segment for the root pointer, which is null. */
    constructor (rootLen: nat, answers: seq<Grant>)
      requires 0 < rootLen <= U29_MAX
      ensures Valid() && fresh(Repr)
      ensures st == St([[NULL]], [rootLen], 0, answers)
    {
      var root := new ArenaSegment(rootLen, 1);
      segments := [root];
      lastOwned := 0;
      plan := answers;
      st := St([[NULL]], [rootLen], 0, answers);
      Repr := {this, root, root.data};
    }

    /** `set_ptr`, and every other write of one word. */
    method SetPtr(a: Addr, w: Word)
      requires Valid() && InMem(st.mem, a)
      modifies Repr
      ensures Valid() && Repr == old(Repr)
      ensures st == SetWord(old(st), a, w)
    {
      SetWordGood(st, a, w);
      segments[a.seg].data[a.off] := w;
      st := SetWord(st, a, w);
    }

    method GetWord(a: Addr) returns (w: Word)
      requires Valid() && InMem(st.mem, a)
      ensures w == At(st.mem, a)
    {
      w := segments[a.seg].data[a.off];
    }

    /** The message as a reader sees it. */
    method AsReader() returns (mem: Mem)
      requires Valid()
      ensures mem == st.mem
    {
      mem := [];
      for i := 0 to |segments|
        invariant mem == st.mem[..i]
      {
        var words := segments[i].data[..segments[i].used];
        assert words == st.mem[i];
        mem := mem + [words];
      }
    }

    method TryUseLen(seg: nat, n: nat) returns (ok: bool, at: Addr)
      requires Valid() && seg < |st.mem|
      modifies Repr
      ensures Valid() && Repr == old(Repr)
      ensures st == TryUse(old(st), seg, n).st && ok == TryUse(old(st), seg, n).Room?
      ensures ok ==> at == TryUse(old(st), seg, n).at
    {
      TryUseGood(st, seg, n);
      var segment := segments[seg];
      at := Addr(seg, segment.used);
      ok := segment.used + n <= segment.data.Length;
      if ok {
        st := TryUse(st, seg, n).st;
        segment.used := segment.used + n;
      }
    }

    /** A new last owned segment of `cap` words, `n` of them in use. */
    method PushSegment(n: nat, cap: nat)
      requires Valid() && 0 < n <= cap <= U29_MAX && |segments| <= MAX_SEGMENTS
      modifies this
      ensures Valid() && fresh(Repr - old(Repr))
      ensures st == St(old(st).mem + [Zeros(n)], old(st).caps + [cap], |old(st).mem|, old(st).plan)
    {
      var segment := new ArenaSegment(cap, n);
      lastOwned := |segments|;
      segments := segments + [segment];
      st := St(st.mem + [Zeros(n)], st.caps + [cap], |st.mem|, st.plan);
      Repr := Repr + {segment, segment.data};
    }

    method Alloc(n: nat) returns (ok: bool, at: Addr)
      requires Valid() && 0 < n <= U29_MAX
      modifies Repr
      ensures Valid() && fresh(Repr - old(Repr))
      ensures st == ArenaAlloc(old(st), n).st && ok == ArenaAlloc(old(st), n).Room?
      ensures ok ==> at == ArenaAlloc(old(st), n).at
    {
      hide TryUse;
      TryUseGood(st, lastOwned, n);
      ok, at := TryUseLen(lastOwned, n);
      if !ok && |segments| - 1 < MAX_SEGMENTS && |plan| > 0 {
        var grant := plan[0];
        plan := plan[1..];
        st := st.(plan := plan);
        if grant.Grant? {
          at := Addr(|segments|, 0);
          ok := true;
          PushSegment(n, if n + grant.extra > U29_MAX then U29_MAX else n + grant.extra);
        }
      }
    }

    /** Writes the near pointer to an object at `start`. */
    method LinkNear(at: Addr, shape: Shape, start: Addr)
      requires Valid() && InMem(st.mem, at) && InMem(st.mem, start)
      requires 0 < ObjectTotal(shape) <= U29_MAX
      modifies Repr
      ensures Valid() && Repr == old(Repr)
      ensures st == PlaceNear(old(st), at, shape, start)
    {
      hide PointerWord, SetWord;
      InRange(st, at);
      InRange(st, start);
      SetPtr(at, PointerWord(shape, start.off - at.off - 1));
    }

    /** Writes the far pointer and the landing pad. */
    method LinkFar(at: Addr, shape: Shape, pad: Addr)
      requires Valid() && InMem(st.mem, at) && InMem(st.mem, pad)
      requires 0 < ObjectTotal(shape) <= U29_MAX
      modifies Repr
      ensures Valid() && Repr == old(Repr)
      ensures st == PlaceFar(old(st), at, shape, pad)
    {
      hide PointerWord, SetWord, EncodeFar;
      InRange(st, pad);
      SetWordGood(st, at, EncodeFar(pad.seg, pad.off, false));
      SetPtr(at, EncodeFar(pad.seg, pad.off, false));
      SetPtr(pad, PointerWord(shape, 0));
    }

    method AllocStruct(at: Addr, size: StructSize) returns (ok: bool, start: Addr)
      requires Valid() && InMem(st.mem, at)
      modifies Repr
      ensures Valid() && fresh(Repr - old(Repr))
      ensures st == Layout.AllocStruct(old(st), at, size).st
      ensures ok == Layout.AllocStruct(old(st), at, size).Placed?
      ensures ok ==> start == Layout.AllocStruct(old(st), at, size).start
    {
      hide PlaceNear, PlaceFar, TryUse, ArenaAlloc, SetWord, EncodeStruct, ObjectTotal;
      var n := size.Total();
      ok, start := true, at;
      if n == 0 {
        SetPtr(at, EncodeStruct(-1, EMPTY));
      } else {
        StructTotal(size);
        TryUseGood(st, at.seg, n);
        ArenaAllocGood(st, n + 1);
        ok, start := TryUseLen(at.seg, n);
        if ok {
          LinkNear(at, StructShape(size), start);
        } else {
          ok, start := AllocFar(at, StructShape(size));
        }
      }
    }

    static lemma StructTotal(size: StructSize)
      ensures ObjectTotal(StructShape(size)) == size.Total() < U29_MAX
    {
    }

    /** An object in another segment, behind its landing pad. */
    method AllocFar(at: Addr, shape: Shape) returns (ok: bool, start: Addr)
      requires Valid() && InMem(st.mem, at) && 0 < ObjectTotal(shape) < U29_MAX
      modifies Repr
      ensures Valid() && fresh(Repr - old(Repr))
      ensures var r := ArenaAlloc(old(st), ObjectTotal(shape) + 1);
              && ok == r.Room?
              && if r.NoRoom? then st == r.st else
                   && InMem(r.st.mem, r.at) && InMem(r.st.mem, at) && ValidSt(r.st)
                   && st == PlaceFar(r.st, at, shape, r.at) && start == Slot(r.at, 1)
    {
      hide PlaceFar, ArenaAlloc, ObjectTotal;
      var n := ObjectTotal(shape);
      ArenaAllocGood(st, n + 1);
      start := at;
      var pad;
      ok, pad := Alloc(n + 1);
      if ok {
        LinkFar(at, shape, pad);
        start := Slot(pad, 1);
      }
    }

    method AllocSegmentOfList(at: Addr, shape: Shape) returns (ok: bool, start: Addr)
      requires Valid() && InMem(st.mem, at) && !shape.StructShape?
      modifies Repr
      ensures Valid() && fresh(Repr - old(Repr))
      ensures st == Layout.AllocSegmentOfList(old(st), at, shape).st
      ensures ok == Layout.AllocSegmentOfList(old(st), at, shape).Placed?
      ensures ok ==> start == Layout.AllocSegmentOfList(old(st), at, shape).start
    {
      hide TryUse, ArenaAlloc, SetWord, EncodeList, EncodeFar;
      TryUseGood(st, at.seg, 2);
      AllocSomewhereGood(st, at.seg, 2);
      var pad;
      start := at;
      ok, pad := TryUseLen(at.seg, 2);
      if !ok {
        ok, pad := Alloc(2);
      }
      if ok {
        ArenaAllocGood(st, U29_MAX);
        ok, start := Alloc(U29_MAX);
        if ok {
          LinkDoubleFar(at, pad, start, EncodeList(0, ElementOf(shape), shape.count));
        }
      }
    }

    method LinkDoubleFar(at: Addr, pad: Addr, start: Addr, tag: Word)
      requires Valid() && InMem(st.mem, at)
      requires InMem(st.mem, pad) && InMem(st.mem, Slot(pad, 1)) && InMem(st.mem, start)
      modifies Repr
      ensures Valid() && Repr == old(Repr)
      ensures st == PlaceDoubleFar(old(st), at, pad, start, tag)
    {
      hide SetWord, EncodeFar;
      InRange(st, pad);
      InRange(st, start);
      SetWordGood(st, at, EncodeFar(pad.seg, pad.off, true));
      SetPtr(at, EncodeFar(pad.seg, pad.off, true));
      SetWordGood(st, pad, EncodeFar(start.seg, start.off, false));
      SetPtr(pad, EncodeFar(start.seg, start.off, false));
      SetPtr(Slot(pad, 1), tag);
    }

    method AllocList(at: Addr, shape: Shape) returns (ok: bool, start: Addr)
      requires Valid() && InMem(st.mem, at) && !shape.StructShape?
      modifies Repr
      ensures Valid() && fresh(Repr - old(Repr))
      ensures st == Layout.AllocList(old(st), at, shape).st
      ensures ok == Layout.AllocList(old(st), at, shape).Placed?
      ensures ok ==> start == Layout.AllocList(old(st), at, shape).start
    {
      hide PlaceNear, PlaceFar, TryUse, ArenaAlloc, SetWord, EncodeList, EncodeTag, ObjectTotal,
           Layout.AllocSegmentOfList;
      var n := ObjectTotal(shape);
      ok, start := true, Slot(at, 1);
      if n == 0 {
        SetPtr(at, EncodeList(0, ElementOf(shape), shape.count));
      } else if n > U29_MAX {
        ok := false;
      } else {
        ok, start := FindRoom(at, shape);
        if ok && shape.CompositeShape? {
          SetPtr(start, EncodeTag(shape.count, shape.size));
          start := Slot(start, 1);
        }
      }
    }

    /** The three ways `alloc_list` tries to find room. */
    method FindRoom(at: Addr, shape: Shape) returns (ok: bool, start: Addr)
      requires Valid() && InMem(st.mem, at) && !shape.StructShape?
      requires 0 < ObjectTotal(shape) <= U29_MAX
      modifies Repr
      ensures Valid() && fresh(Repr - old(Repr))
      ensures st == AllocListBody(old(st), at, shape).st
      ensures ok == AllocListBody(old(st), at, shape).Placed?
      ensures ok ==> start == AllocListBody(old(st), at, shape).start && InMem(st.mem, start)
    {
      hide PlaceNear, PlaceFar, TryUse, ArenaAlloc, SetWord, ObjectTotal, Layout.AllocSegmentOfList;
      AllocListBodyGood(st, at, shape);
      var n := ObjectTotal(shape);
      TryUseGood(st, at.seg, n);
      ok, start := TryUseLen(at.seg, n);
      if ok {
        LinkNear(at, shape, start);
      } else if n + 1 <= U29_MAX {
        ArenaAllocGood(st, n + 1);
        ok, start := AllocFar(at, shape);
      } else {
        ok, start := AllocSegmentOfList(at, shape);
      }
    }

    method AllocObject(at: Addr, shape: Shape) returns (ok: bool, start: Addr)
      requires Valid() && InMem(st.mem, at)
      modifies Repr
      ensures Valid() && fresh(Repr - old(Repr))
      ensures st == Layout.AllocObject(old(st), at, shape).st
      ensures ok == Layout.AllocObject(old(st), at, shape).Placed?
      ensures ok ==> start == Layout.AllocObject(old(st), at, shape).start
    {
      hide Layout.AllocStruct, Layout.AllocList;
      if shape.StructShape? {
        ok, start := AllocStruct(at, shape.size);
      } else {
        ok, start := AllocList(at, shape);
      }
    }
  }
}
