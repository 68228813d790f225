/**
 The comparison of the source on the words of two messages: `cmp_ptr` and what it calls.
 */
module Comparing {
  import opened Wire
  import opened Reader
  import opened Values
  import opened Copying
  import opened Equality
  import opened EqualityMeaning
  import opened DeepCopy
  import opened Putting
  import opened Fitting
  import opened Machine
  import opened Walking
  import opened Walked

  /** Two readers, each with its own limiter. */
  class Comparison {
    const ours: Mem
    const theirs: Mem
    var ourLim: Limiter
    var theirLim: Limiter

    constructor (a: Mem, b: Mem, limA: Limiter, limB: Limiter)
      ensures ours == a && theirs == b && ourLim == limA && theirLim == limB
    {
      ours, theirs, ourLim, theirLim := a, b, limA, limB;
    }

    function Both(): Sides {
      Sides(ours, theirs)
    }

    function Lims(): Limits
      reads this
    {
      Limits(ourLim, theirLim)
    }

    /** The walk through two pointers ends, on our side or on theirs: its limiter runs out, or it is that shallow. */
    ghost predicate PairEnds(byOurs: bool, at: Addr, bt: Addr, fuel: nat)
      reads this
    {
      if byOurs then Enough(ours, at, ourLim, fuel) else Enough(theirs, bt, theirLim, fuel)
    }

    ghost predicate ContentEnds(byOurs: bool, shape: Shape, start: Addr, shape': Shape, start': Addr, fuel: nat)
      reads this
    {
      if byOurs then EnoughFor(ours, shape, start, ourLim, fuel) else EnoughFor(theirs, shape', start', theirLim, fuel)
    }

    ghost predicate SectionEnds(byOurs: bool, start: Addr, n: nat, start': Addr, n': nat, fuel: nat)
      reads this
    {
      if byOurs then EnoughIn(ours, start, 0, n, ourLim, fuel) else EnoughIn(theirs, start', 0, n', theirLim, fuel)
    }

    /** `cmp_ptr`. */
    method CmpPtr(at: Addr, bt: Addr, ghost fuel: nat, ghost byOurs: bool) returns (r: Result<PtrEquality>)
      requires InMem(ours, at) && InMem(theirs, bt)
      requires !EitherNull(Both(), at, bt) ==> PairEnds(byOurs, at, bt, fuel)
      modifies this
      ensures Walk(r, Lims()) == PairWalk(Both(), at, bt, old(Lims()), fuel)
      decreases if EitherNull(Both(), at, bt) then 0 else fuel + 1, 7
    {
      hide TryReadTyped, Words, IsPtrSlot, Enough, EnoughFor, TargetWalk, ContentWalk;
      if At(ours, at).IsNull() && At(theirs, bt).IsNull() {
        return Ok(Equal);
      }
      ReaderSound(ours, at, ourLim);
      ReaderSound(theirs, bt, theirLim);
      ghost var lims := Lims();
      var our := TryReadTyped(ours, at, ourLim);
      ourLim := our.lim;
      if our.result.Err? {
        return Err(our.result.error);
      }
      var their := TryReadTyped(theirs, bt, theirLim);
      theirLim := their.lim;
      if their.result.Err? {
        return Err(their.result.error);
      }
      ghost var rank: nat := if EitherNull(Both(), at, bt) then 0 else fuel + 1;
      if our.result.value.Object? && their.result.value.Object? {
        if rank == 0 {
          NullIsNothing(ours, at, lims.ours);
          NullIsNothing(theirs, bt, lims.theirs);
        } else if byOurs {
          EnoughForContent(ours, at, lims.ours, fuel);
        } else {
          EnoughForContent(theirs, bt, lims.theirs, fuel);
        }
        r := CmpContent(our.result.value.shape, our.result.value.start, their.result.value.shape,
                        their.result.value.start, rank, byOurs);
        ObjectsWalk(Both(), our.result.value, their.result.value, Limits(our.lim, their.lim), rank);
      } else {
        r := Ok(if our.result.value.Capability? && their.result.value.Capability? then ContainsCaps else NotEqual);
        OthersWalk(Both(), our.result.value, their.result.value, Limits(our.lim, their.lim), rank);
      }
    }

    /** The contents of two objects, struct with struct and list with list. */
    method CmpContent(shape: Shape, start: Addr, shape': Shape, start': Addr, ghost rank: nat, ghost byOurs: bool)
      returns (r: Result<PtrEquality>)
      requires SectionIn(ours, start, Words(shape)) && SectionIn(theirs, start', Words(shape'))
      requires rank > 0 ==> ContentEnds(byOurs, shape, start, shape', start', rank - 1)
      requires rank == 0 ==> shape == StructShape(EMPTY) || shape' == StructShape(EMPTY)
      modifies this
      ensures Walk(r, Lims()) == ContentWalk(Both(), shape, start, shape', start', old(Lims()), rank)
      decreases rank, 6
    {
      hide EnoughFor, EnoughIn, StructWalk, ContentWalk, ListWords, Times, IsPtrSlot;
      WalkByKind(Both(), shape, start, shape', start', Lims(), rank);
      if shape.StructShape? && shape'.StructShape? {
        r := CmpStructs(start, shape.size, start', shape'.size, rank, byOurs);
      } else if shape.StructShape? || shape'.StructShape? {
        r := Ok(NotEqual);
      } else {
        r := CmpList(shape, start, shape', start', rank, byOurs);
      }
    }

    method CmpStructs(start: Addr, size: StructSize, start': Addr, size': StructSize, ghost rank: nat,
                      ghost byOurs: bool)
      returns (r: Result<PtrEquality>)
      requires SectionIn(ours, start, size.Total()) && SectionIn(theirs, start', size'.Total())
      requires rank > 0 ==> ContentEnds(byOurs, StructShape(size), start, StructShape(size'), start', rank - 1)
      requires rank == 0 ==> size.ptrs == 0 || size'.ptrs == 0
      modifies this
      ensures Walk(r, Lims()) == StructWalk(Both(), start, size, start', size', old(Lims()), rank)
      decreases rank, 3
    {
      hide EnoughFor, EnoughIn, StructWalk;
      if rank > 0 {
        if byOurs {
          EnoughFields(ours, size, start, ourLim, rank - 1);
        } else {
          EnoughFields(theirs, size', start', theirLim, rank - 1);
        }
      }
      r := CmpStruct(start, size, start', size', rank, byOurs);
    }

    /** `cmp_struct`. */
    method CmpStruct(start: Addr, size: StructSize, start': Addr, size': StructSize, ghost rank: nat,
                     ghost byOurs: bool)
      returns (r: Result<PtrEquality>)
      requires SectionIn(ours, start, size.Total()) && SectionIn(theirs, start', size'.Total())
      requires rank > 0 ==>
                 SectionEnds(byOurs, Slot(start, size.data), size.ptrs, Slot(start', size'.data), size'.ptrs, rank - 1)
      requires rank == 0 ==> size.ptrs == 0 || size'.ptrs == 0
      modifies this
      ensures Walk(r, Lims()) == StructWalk(Both(), start, size, start', size', old(Lims()), rank)
      decreases rank, 2
    {
      hide EnoughIn, SectionWalk;
      var n: nat := if size.ptrs < size'.ptrs then size.ptrs else size'.ptrs;
      if Section(ours, start, size.data) != Section(theirs, start', size'.data) {
        return Ok(NotEqual);
      }
      if rank > 0 {
        if byOurs {
          EnoughFewer(ours, Slot(start, size.data), 0, size.ptrs, n, ourLim, rank - 1);
        } else {
          EnoughFewer(theirs, Slot(start', size'.data), 0, size'.ptrs, n, theirLim, rank - 1);
        }
      }
      r := CmpSection(Slot(start, size.data), Slot(start', size'.data), n, rank, byOurs);
    }

    /** The loop over two sections of pointers, which ends with the first pair that is not equal. */
    method CmpSection(start: Addr, start': Addr, n: nat, ghost rank: nat, ghost byOurs: bool)
      returns (r: Result<PtrEquality>)
      requires SectionIn(ours, start, n) && SectionIn(theirs, start', n)
      requires if rank > 0 then SectionEnds(byOurs, start, n, start', n, rank - 1) else n == 0
      modifies this
      ensures Walk(r, Lims()) == SectionWalk(Both(), start, start', n, old(Lims()), rank)
      decreases rank, 1
    {
      hide Enough, PairWalk;
      var equality := Equal;
      for k := 0 to n
        invariant old(Lims()).Before(Lims())
        invariant rank > 0 ==> SectionEnds(byOurs, start, n, start', n, rank - 1)
        invariant equality != NotEqual
        invariant Walk(Ok(equality), Lims()) == SectionWalk(Both(), start, start', k, old(Lims()), rank)
      {
        ghost var before := Walk(Ok(equality), Lims());
        var slot := CmpSlot(Slot(start, k), Slot(start', k), rank, byOurs);
        if byOurs {
          EnoughStill(ours, start, 0, n, before.lims.ours, ourLim, rank - 1);
        } else {
          EnoughStill(theirs, start', 0, n, before.lims.theirs, theirLim, rank - 1);
        }
        if slot.Err? || slot.value == NotEqual {
          SectionStops(Both(), start, start', k + 1, n, old(Lims()), rank);
          return slot;
        }
        equality := Equality.Both(equality, slot.value);
      }
      r := Ok(equality);
    }

    method CmpSlot(at: Addr, bt: Addr, ghost rank: nat, ghost byOurs: bool) returns (r: Result<PtrEquality>)
      requires InMem(ours, at) && InMem(theirs, bt) && rank > 0
      requires !EitherNull(Both(), at, bt) ==> rank > 1 && PairEnds(byOurs, at, bt, rank - 2)
      modifies this
      ensures GoesDown(Both(), at, bt, rank)
      ensures Walk(r, Lims()) == PairWalk(Both(), at, bt, old(Lims()), if rank > 1 then rank - 2 else 0)
      decreases rank, 0
    {
      hide Enough;
      r := CmpPtr(at, bt, if rank > 1 then rank - 2 else 0, byOurs);
    }

    /** `cmp_list`. */
    method CmpList(shape: Shape, start: Addr, shape': Shape, start': Addr, ghost rank: nat, ghost byOurs: bool)
      returns (r: Result<PtrEquality>)
      requires !shape.StructShape? && !shape'.StructShape? && rank > 0
      requires SectionIn(ours, start, Words(shape)) && SectionIn(theirs, start', Words(shape'))
      requires ContentEnds(byOurs, shape, start, shape', start', rank - 1)
      modifies this
      ensures Walk(r, Lims()) == ContentWalk(Both(), shape, start, shape', start', old(Lims()), rank)
      decreases rank, 5
    {
      hide EnoughFor, SectionWalk, ElementsWalk, SameData, ListWords, Times;
      if shape.count != shape'.count {
        return Ok(NotEqual);
      }
      if shape.ListShape? != shape'.ListShape? || (shape.ListShape? && shape.element != shape'.element) {
        return Ok(NotEqual);
      }
      if shape.CompositeShape? {
        r := CmpComposites(shape, start, shape', start', rank, byOurs);
      } else if shape.element == Pointer {
        PointerListWords(shape.count);
        if byOurs {
          EnoughPart(ours, shape, start, 0, shape.count, ourLim, rank - 1);
        } else {
          EnoughPart(theirs, shape', start', 0, shape.count, theirLim, rank - 1);
        }
        r := CmpSection(start, start', shape.count, rank, byOurs);
      } else {
        var ourData, theirData := Section(ours, start, Words(shape)), Section(theirs, start', Words(shape'));
        r := Ok(if SameData(shape.element, shape.count, ourData, theirData) then Equal else NotEqual);
      }
    }

    method CmpElement(shape: Shape, start: Addr, shape': Shape, start': Addr, e: nat, ghost rank: nat,
                      ghost byOurs: bool)
      returns (r: Result<PtrEquality>)
      requires shape.CompositeShape? && shape'.CompositeShape? && e < shape.count && e < shape'.count && rank > 0
      requires SectionIn(ours, start, Words(shape)) && SectionIn(theirs, start', Words(shape'))
      requires SectionIn(ours, Slot(start, Times(e, shape.size)), shape.size.Total())
      requires SectionIn(theirs, Slot(start', Times(e, shape'.size)), shape'.size.Total())
      requires ContentEnds(byOurs, shape, start, shape', start', rank - 1)
      modifies this
      ensures ContentEnds(byOurs, shape, start, shape', start', rank - 1)
      ensures Walk(r, Lims())
           == StructWalk(Both(), Slot(start, Times(e, shape.size)), shape.size, Slot(start', Times(e, shape'.size)),
                         shape'.size, old(Lims()), rank)
      decreases rank, 3
    {
      hide EnoughFor, EnoughIn, StructWalk, IsPtrSlot, Times;
      ghost var before := Lims();
      if byOurs {
        EnoughElement(ours, shape, start, e, ourLim, rank - 1);
      } else {
        EnoughElement(theirs, shape', start', e, theirLim, rank - 1);
      }
      r := CmpStruct(Slot(start, Times(e, shape.size)), shape.size, Slot(start', Times(e, shape'.size)), shape'.size,
                     rank, byOurs);
      if byOurs {
        EnoughLater(ours, shape, start, before.ours, ourLim, rank - 1);
      } else {
        EnoughLater(theirs, shape', start', before.theirs, theirLim, rank - 1);
      }
    }

    /** The loop over the elements of two composite lists. */
    method CmpComposites(shape: Shape, start: Addr, shape': Shape, start': Addr, ghost rank: nat, ghost byOurs: bool)
      returns (r: Result<PtrEquality>)
      requires shape.CompositeShape? && shape'.CompositeShape? && shape.count == shape'.count && rank > 0
      requires SectionIn(ours, start, Words(shape)) && SectionIn(theirs, start', Words(shape'))
      requires ContentEnds(byOurs, shape, start, shape', start', rank - 1)
      modifies this
      ensures Walk(r, Lims())
           == ElementsWalk(Both(), start, shape.size, start', shape'.size, shape.count, old(Lims()), rank)
      decreases rank, 4
    {
      hide EnoughFor, EnoughIn, ContentEnds, StructWalk, IsPtrSlot;
      var size, size', count := shape.size, shape'.size, shape.count;
      var equality := Equal;
      for e := 0 to count
        invariant old(Lims()).Before(Lims())
        invariant ContentEnds(byOurs, shape, start, shape', start', rank - 1)
        invariant equality != NotEqual
        invariant SectionIn(ours, start, Times(e, size)) && SectionIn(theirs, start', Times(e, size'))
        invariant Walk(Ok(equality), Lims())
               == ElementsWalk(Both(), start, size, start', size', e, old(Lims()), rank)
      {
        ElementInSection(ours, shape, start, e);
        ElementInSection(theirs, shape', start', e);
        var element := CmpElement(shape, start, shape', start', e, rank, byOurs);
        if element.Err? || element.value == NotEqual {
          ElementsStop(Both(), start, size, start', size', e + 1, count, old(Lims()), rank);
          return element;
        }
        equality := Equality.Both(equality, element.value);
      }
      r := Ok(equality);
    }
  }

  /**
   The tree a copy without errors stored, against the source, in either order: they are unequal exactly when
   a capability became null on the way, and else equal, or known to contain capabilities.
   */
  lemma CopyThenCompare(src: Mem, caps: CapTable, at: Addr, t: Value)
    requires Copied(src, caps, at, t, Exact)
    ensures var v := Original(src, at, t);
            && Means(src, at, v) && Formed(v) && Formed(t)
            && Cmp(v, t) == Cmp(t, v) == CopyEquality(v, caps)
  {
    hide Cmp, Formed, CopyEquality, Denotes, Original;
    var v := Original(src, at, t);
    if At(src, at).IsNull() {
      NullMeans(src, at, t);
      CopyOfNull(src, caps, at, t);
      CmpOfNull(t, caps);
    } else {
      ExactCopyMeans(src, caps, at, t);
      MeaningIsFormed(src, at, v, iset{});
      CopyCompares(v, caps);
    }
    CmpSymmetric(v, t);
  }

  lemma NullMeans(mem: Mem, at: Addr, t: Value)
    requires InMem(mem, at) && At(mem, at).IsNull()
    ensures Means(mem, at, Null) && Original(mem, at, t) == Null
  {
  }

  /**
   `cmp_ptr` without limiters on the source and on the words a copy without errors was stored in. The source
   cannot be cyclic then.
   */
  method CompareCopy(src: Mem, at: Addr, dst: Mem, bt: Addr, ghost caps: CapTable, ghost t: Value)
    returns (r: Result<PtrEquality>, r': Result<PtrEquality>)
    requires Copied(src, caps, at, t, Exact) && InMem(src, at) && InMem(dst, bt)
    ensures Means(dst, bt, t) ==> r == r' == Ok(CopyEquality(Original(src, at, t), caps))
  {
    hide Cmp, Formed, CopyEquality, Denotes, Copied, Acyclic, Original, PairWalk;
    ghost var v := Original(src, at, t);
    CopyThenCompare(src, caps, at, t);
    ghost var fuel := MeaningEnds(src, at, v);
    var forth := new Comparison(src, dst, Unlimited, Unlimited);
    r := forth.CmpPtr(at, bt, fuel, true);
    var back := new Comparison(dst, src, Unlimited, Unlimited);
    r' := back.CmpPtr(bt, at, fuel, false);
    if Means(dst, bt, t) {
      PairMeans(Sides(src, dst), at, bt, fuel, true, v, t);
      PairMeans(Sides(dst, src), bt, at, fuel, false, t, v);
    }
  }

  /**
   Copy, then compare, on the words: `try_copy_from` into a null pointer, and when it met no error,
   `cmp_ptr` of the source with what the destination now holds, in either order. They are unequal exactly
   when a capability became null on the way, and else equal, or known to contain capabilities; unless the
   copy is one that is not read back.
   */
  method CopyAndCompare(machine: CopyMachine, at: Addr, dst: Addr, ghost fuel: nat)
    returns (exact: bool, r: Result<PtrEquality>, r': Result<PtrEquality>, ghost v: Value, ghost t: Value)
    requires machine.Valid() && InMem(machine.src, at) && Enough(machine.src, at, machine.lim, fuel)
    requires InMem(machine.arena.st.mem, dst) && At(machine.arena.st.mem, dst).IsNull()
    modifies machine, machine.arena.Repr
    ensures machine.Valid() && fresh(machine.arena.Repr - old(machine.arena.Repr))
    ensures exact ==> Means(machine.src, at, v) && Copied(machine.src, machine.caps, at, t, Exact)
    ensures exact ==> (Means(machine.arena.st.mem, dst, t) <==> AllFit(t))
    ensures exact && AllFit(t) ==> r == r' == Ok(CopyEquality(v, machine.caps))
    ensures !exact ==> machine.errs > old(machine.errs)
  {
    hide Copied, Enough, PutPtr, Denotes, AllFit, CopyEquality, Original;
    var errs := machine.errs;
    var broke;
    broke, t := TryCopyFrom(machine, at, dst, fuel);
    exact := !broke && machine.errs == errs;
    r, r' := Ok(Equal), Ok(Equal);
    v := Null;
    if exact {
      v := Original(machine.src, at, t);
      CopyThenCompare(machine.src, machine.caps, at, t);
      var copy := machine.arena.AsReader();
      r, r' := CompareCopy(machine.src, at, copy, dst, machine.caps, t);
    }
  }

  lemma CopyOfNull(src: Mem, caps: CapTable, at: Addr, t: Value)
    requires Means(src, at, Null) && Copied(src, caps, at, t, Exact)
    ensures t.Obj? && t.shape.StructShape? && t.shape.size == EMPTY && t.cells == []
  {
    hide TryReadTyped;
    NullReads(src, at, Unlimited);
  }

  lemma CmpOfNull(t: Value, caps: CapTable)
    requires t.Obj? && t.shape.StructShape? && t.shape.size.Total() == 0 && t.cells == []
    ensures Formed(t) && Formed(Null)
    ensures Cmp(Null, t) == CopyEquality(Null, caps)
  {
    hide Cmp, Formed, CopyEquality;
    EmptyIsFormed(t);
    EmptyIsEqual(t);
    NullIsEqual(caps);
  }

  lemma EmptyIsEqual(t: Value)
    requires t.Obj? && t.shape.StructShape? && t.shape.size.Total() == 0 && t.cells == [] && Formed(t)
    ensures Formed(Null) && Cmp(Null, t) == Equal
  {
    hide Formed, Cmp, CmpNull;
    NullIsFormed();
    NullCompares(t);
    EmptyLikeNull(t);
  }

  lemma EmptyLikeNull(t: Value)
    requires t.Obj? && t.shape.StructShape? && t.shape.size.Total() == 0
    ensures CmpNull(t) == Equal
  {
  }

  lemma NullCompares(w: Value)
    requires Formed(Null) && Formed(w)
    ensures Cmp(Null, w) == CmpNull(w)
  {
    hide Formed, CmpObjects, CmpNull;
  }

  lemma NullIsEqual(caps: CapTable)
    ensures CopyEquality(Null, caps) == Equal
  {
  }

  lemma EmptyIsFormed(t: Value)
    requires t.Obj? && t.shape.StructShape? && t.shape.size.Total() == 0 && t.cells == []
    ensures Formed(t)
  {
  }
}
