/**
 What a deep copy achieves: `PtrBuilder::try_copy_from` into a null pointer.
 */
module DeepCopy {
  import opened Wire
  import opened Reader
  import opened Values
  import opened Layout
  import opened Putting
  import opened Fitting
  import opened Copying
  import opened Auditing
  import opened Accounts
  import opened Reckoning
  import opened ArenaHeap
  import opened Machine

  /** The tree with its capabilities replaced as the tables say. */
  function Renamed(v: Value, caps: CapTable): Value
    decreases v
  {
    match v
    case Null => Null
    case Cap(index) =>
      (match caps(index)
       case CopiedAs(newIndex) => Cap(newIndex)
       case _ => Null)
    case Obj(shape, cells) =>
      Obj(shape, seq(|cells|, i requires 0 <= i < |cells| => RenamedCell(cells[i], caps)))
  }

  function RenamedCell(cell: Cell, caps: CapTable): Cell
    decreases cell
  {
    match cell
    case Data(_) => cell
    case Ref(value) => Ref(Renamed(value, caps))
  }

  /** A tree that was not truncated and fits is complete. */
  lemma {:induction false} CopiedIsWhole(src: Mem, caps: CapTable, at: Addr, t: Value, q: Quality)
    requires Copied(src, caps, at, t, q) && q != Truncated && AllFit(t)
    ensures Whole(t)
    decreases t
  {
    hide Resolve, Fits, Words, IsPtrSlot;
    if t.Obj? {
      forall i | 0 <= i < |t.cells|
        ensures WholeCell(t.cells[i], IsPtrSlot(t.shape, i))
      {
        var slot := Slot(Resolve(src, at).value.start, i);
        assert CopiedCell(src, caps, slot, t.cells[i], IsPtrSlot(t.shape, i), q);
        assert CellFits(t.cells[i]);
        if t.cells[i].Ref? && t.cells[i].value != Null {
          CopiedIsWhole(src, caps, slot, t.cells[i].value, q);
        }
      }
    }
  }

  /** An exact copy of a pointer with a meaning is that meaning, capabilities renamed. */
  lemma {:induction false} ExactCopyIsMeaning(src: Mem, caps: CapTable, at: Addr, t: Value, v: Value)
    requires Copied(src, caps, at, t, Exact)
    requires Means(src, at, v) && v != Null
    ensures t == Renamed(v, caps)
    decreases t
  {
    hide Resolve, Words, IsPtrSlot, Pads, Tags;
    if t.Obj? {
      forall i | 0 <= i < |t.cells|
        ensures t.cells[i] == RenamedCell(v.cells[i], caps)
      {
        var slot := Slot(Resolve(src, at).value.start, i);
        assert CopiedCell(src, caps, slot, t.cells[i], IsPtrSlot(t.shape, i), Exact);
        assert CellAt(src, slot, v.cells[i], IsPtrSlot(t.shape, i), iset{});
        if v.cells[i].Ref? && v.cells[i].value != Null {
          NonNullMeaning(src, slot, v.cells[i].value, iset{});
          ExactCopyIsMeaning(src, caps, slot, t.cells[i].value, v.cells[i].value);
        }
      }
    }
  }

  /** What the pointer at `at` meant from which `t` was taken: `t` with the capabilities of the source. */
  ghost function Original(src: Mem, at: Addr, t: Value): Value
    decreases t
  {
    if !InMem(src, at) || At(src, at).IsNull() || Resolve(src, at).Err? then Null
    else
      match Resolve(src, at).value
      case Capability(index) => Cap(index)
      case Object(shape, start) =>
        if t.Obj? then
          Obj(shape, seq(|t.cells|, i requires 0 <= i < |t.cells| => OriginalCell(src, Slot(start, i), t.cells[i])))
        else Null
  }

  ghost function OriginalCell(src: Mem, at: Addr, cell: Cell): Cell
    decreases cell
  {
    match cell
    case Data(_) => cell
    case Ref(value) => Ref(Original(src, at, value))
  }

  /**
   A copy of a non-null pointer without errors shows that the source has a meaning, and it is that meaning,
   whatever the tables make of its capabilities.
   */
  lemma {:induction false} ExactCopyMeans(src: Mem, caps: CapTable, at: Addr, t: Value)
    requires Copied(src, caps, at, t, Exact) && !At(src, at).IsNull()
    ensures var v := Original(src, at, t);
            Means(src, at, v) && v != Null && t == Renamed(v, caps)
    decreases t
  {
    hide Resolve, Words, IsPtrSlot, Pads, Tags;
    if t.Obj? {
      var v, start := Original(src, at, t), Resolve(src, at).value.start;
      forall i | 0 <= i < |t.cells|
        ensures CellAt(src, Slot(start, i), v.cells[i], IsPtrSlot(t.shape, i), iset{})
        ensures t.cells[i] == RenamedCell(v.cells[i], caps)
      {
        CellMeans(src, caps, Slot(start, i), t.cells[i], IsPtrSlot(t.shape, i));
      }
    }
  }

  lemma {:induction false} CellMeans(src: Mem, caps: CapTable, at: Addr, cell: Cell, isPtr: bool)
    requires CopiedCell(src, caps, at, cell, isPtr, Exact)
    ensures CellAt(src, at, OriginalCell(src, at, cell), isPtr, iset{})
    ensures cell == RenamedCell(OriginalCell(src, at, cell), caps)
    decreases cell
  {
    hide Resolve, Copied;
    if cell.Ref? && !At(src, at).IsNull() {
      ExactCopyMeans(src, caps, at, cell.value);
    }
  }

  /** Where capabilities keep their index, a renamed tree is the tree. */
  lemma {:induction false} RenamedSame(v: Value, caps: CapTable)
    requires forall i :: caps(i) == CopiedAs(i)
    ensures Renamed(v, caps) == v
    decreases v
  {
    if v.Obj? {
      forall i | 0 <= i < |v.cells|
        ensures RenamedCell(v.cells[i], caps) == v.cells[i]
      {
        if v.cells[i].Ref? {
          RenamedSame(v.cells[i].value, caps);
        }
      }
    }
  }

  /**
   "The source with every unreadable pointer replaced by null" is one tree: there is no other way to
   take everything readable.
   */
  lemma {:induction false} ReadableIsUnique(src: Mem, caps: CapTable, at: Addr, t: Value, t': Value)
    requires Copied(src, caps, at, t, Readable) && Copied(src, caps, at, t', Readable)
    ensures t == t'
    decreases t
  {
    hide Resolve, Words, IsPtrSlot;
    if t.Obj? {
      forall i | 0 <= i < |t.cells|
        ensures t.cells[i] == t'.cells[i]
      {
        var slot := Slot(Resolve(src, at).value.start, i);
        assert CopiedCell(src, caps, slot, t.cells[i], IsPtrSlot(t.shape, i), Readable);
        assert CopiedCell(src, caps, slot, t'.cells[i], IsPtrSlot(t.shape, i), Readable);
        if t.cells[i].Ref? && !At(src, slot).IsNull() {
          ReadableIsUnique(src, caps, slot, t.cells[i].value, t'.cells[i].value);
        }
      }
    }
  }

  /** A pointer with a meaning is a walk that ends. */
  lemma {:induction false} MeaningEnds(mem: Mem, at: Addr, v: Value) returns (d: nat)
    requires Means(mem, at, v)
    ensures forall k: nat :: k >= d ==> Acyclic(mem, at, k)
    decreases v
  {
    hide Resolve, Words, IsPtrSlot, Pads, Tags;
    d := 0;
    if v.Obj? {
      d := CellsEnd(mem, Resolve(mem, at).value.start, v.shape, v.cells, |v.cells|);
    } else if v == Null {
      NullEnds(mem, at);
    }
  }

  lemma NullEnds(mem: Mem, at: Addr)
    requires InMem(mem, at) && At(mem, at).IsNull()
    ensures forall k: nat :: Acyclic(mem, at, k)
  {
  }

  ghost predicate EndsWithin(mem: Mem, at: Addr, d: nat) {
    forall k: nat :: k >= d ==> Acyclic(mem, at, k)
  }

  lemma {:induction false} CellsEnd(mem: Mem, start: Addr, shape: Shape, cells: seq<Cell>, n: nat) returns (d: nat)
    requires n <= |cells|
    requires forall i :: 0 <= i < |cells| ==> CellAt(mem, Slot(start, i), cells[i], IsPtrSlot(shape, i), iset{})
    ensures d > 0
    ensures forall i :: 0 <= i < n && IsPtrSlot(shape, i) ==> EndsWithin(mem, Slot(start, i), d - 1)
    decreases cells, n
  {
    hide IsPtrSlot, Acyclic;
    if n == 0 {
      d := 1;
    } else {
      d := CellsEnd(mem, start, shape, cells, n - 1);
      assert CellAt(mem, Slot(start, n - 1), cells[n - 1], IsPtrSlot(shape, n - 1), iset{});
      var e := CellEnds(mem, Slot(start, n - 1), cells[n - 1], IsPtrSlot(shape, n - 1));
      d := if e + 1 > d then e + 1 else d;
    }
  }

  lemma {:induction false} CellEnds(mem: Mem, at: Addr, cell: Cell, isPtr: bool) returns (d: nat)
    requires CellAt(mem, at, cell, isPtr, iset{})
    ensures isPtr ==> EndsWithin(mem, at, d)
    decreases cell
  {
    hide Acyclic;
    d := 0;
    if cell.Ref? {
      d := MeaningEnds(mem, at, cell.value);
    }
  }

  /**
   `try_copy_from` into a null pointer. Whatever the source holds, the destination changes only in the
   pointer and in words that were unused. A copy that was not broken off reads back as the tree it took
   from the source, less the objects it found no room for; if there was no error that tree is the whole
   source, and if only the source was at fault it is the source with exactly the unreadable pointers
   nulled, or rather its message is the one into which that source was written as far as there was room.
   A limiter that has the words makes no difference to that; under any other one the pointers are nulled
   besides that cost more than is left in the end. Every pointer that was given up is one error, and the
   copy is broken off at the first error the handler does not let pass. The walk visits at most one
   pointer more than the words it charged.
   */
  method TryCopyFrom(machine: CopyMachine, at: Addr, dst: Addr, ghost fuel: nat) returns (broke: bool, ghost t: Value)
    requires machine.Valid() && InMem(machine.src, at) && Enough(machine.src, at, machine.lim, fuel)
    requires InMem(machine.arena.st.mem, dst) && At(machine.arena.st.mem, dst).IsNull()
    modifies machine, machine.arena.Repr
    ensures machine.Valid() && fresh(machine.arena.Repr - old(machine.arena.Repr))
    ensures Keeps(old(machine.arena.st.mem), machine.arena.st.mem, iset{dst})
    ensures Loose(t) && machine.arena.st == PutPtr(t, dst, old(machine.arena.st)).st
    ensures AuditPtr(machine.Task(), at, t, dst, old(machine.arena.st), old(machine.Now()))
         == Audit(true, broke, machine.Now())
    ensures !broke ==> Copied(machine.src, machine.caps, at, t, Pruned)
    ensures !broke && AllFit(t) ==>
              Denotes(machine.arena.st.mem, dst, PutPtr(t, dst, old(machine.arena.st)).stored,
                      AllWords(old(machine.arena.st.mem)))
    ensures !broke && AllFit(t) && PutPtr(t, dst, old(machine.arena.st)).failures == 0 ==>
              Denotes(machine.arena.st.mem, dst, t, AllWords(old(machine.arena.st.mem)))
    ensures !broke && Affordable(machine.src, at, old(machine.lim))
            && PutPtr(t, dst, old(machine.arena.st)).failures == 0 ==>
              Copied(machine.src, machine.caps, at, t, Readable)
    ensures !broke && Affordable(machine.src, at, old(machine.lim)) ==>
              forall u :: Loose(u) && Copied(machine.src, machine.caps, at, u, Readable) ==>
                machine.arena.st == PutPtr(u, dst, old(machine.arena.st)).st
    ensures !broke && machine.lim.Limited? && PutPtr(t, dst, old(machine.arena.st)).failures == 0 ==>
              Copied(machine.src, machine.caps, at, t, Afforded(machine.lim.left))
    ensures !broke && machine.errs == old(machine.errs) ==>
              && PutPtr(t, dst, old(machine.arena.st)).failures == 0
              && Copied(machine.src, machine.caps, at, t, Exact)
    ensures !broke && machine.errs == old(machine.errs) ==> (Means(machine.arena.st.mem, dst, t) <==> AllFit(t))
    ensures Affordable(machine.src, at, old(machine.lim)) && Sound(machine.src, machine.caps, at) ==>
              machine.errs - old(machine.errs) == PutPtr(t, dst, old(machine.arena.st)).failures
    ensures Affordable(machine.src, at, old(machine.lim)) && !At(machine.src, at).IsNull()
            && PutPtr(t, dst, old(machine.arena.st)).failures == 0 ==>
              machine.errs - old(machine.errs) == GivenUp(machine.src, machine.caps, at, t)
    ensures Copied(machine.src, machine.caps, at, t, Truncated)
    ensures machine.errs >= old(machine.errs) + if broke then 1 else 0
    ensures forall e :: old(machine.errs) <= e < machine.errs - (if broke then 1 else 0) ==> machine.tolerates(e)
    ensures broke ==> !machine.tolerates(machine.errs - 1)
    ensures old(machine.lim).Limited? ==>
              && machine.lim.Limited?
              && machine.visits - old(machine.visits) <= 1 + old(machine.lim).left - machine.lim.left
  {
    hide Copied, Enough, PutPtr, Denotes, Sound, AuditPtr, Affordable, GivenUp, Loose;
    ghost var st0, m := machine.arena.st, machine.Now();
    broke, t := machine.CopyPtr(at, dst, fuel);
    ghost var job, failures := machine.Task(), PutPtr(t, dst, st0).failures;
    ghost var a := AuditPtr(job, at, t, dst, st0, m);
    forall q | Reached(q, a, m, failures)
      ensures Copied(machine.src, machine.caps, at, t, q)
    {
      PtrTaken(job, at, t, dst, st0, m, q);
    }
    PtrPaid(job, at, t, dst, st0, m);
    if Affordable(machine.src, at, m.lim) {
      AffordedCopy(job, at, t, dst, st0, m);
      if !At(machine.src, at).IsNull() {
        CopyReckoned(job, at, t, dst, st0, m);
      }
      forall u | !broke && Loose(u) && Copied(machine.src, machine.caps, at, u, Readable)
        ensures machine.arena.st == PutPtr(u, dst, st0).st
      {
        CopyAsReadable(job, at, t, u, dst, st0, m);
      }
    }
    PtrObeys(job, at, t, dst, st0, m);
    assert Reached(Truncated, a, m, failures);
    assert Reached(Pruned, a, m, failures) <==> !broke;
    assert Reached(Exact, a, m, failures) <==> !broke && machine.errs == m.errs;
    if machine.lim.Limited? {
      assert Reached(Afforded(machine.lim.left), a, m, failures) <==> !broke && failures == 0;
    }
    if !broke && AllFit(t) {
      CopiedIsWhole(machine.src, machine.caps, at, t, Pruned);
      PutReads(t, dst, st0);
      if failures == 0 {
        NothingLost(t, dst, st0);
        AvoidBoth(machine.arena.st.mem, dst, t, AllWords(st0.mem), AllWords(st0.mem), iset{});
      }
    } else if !broke && failures == 0 {
      NotMeant(t, dst, st0, machine.arena.st.mem, iset{});
    }
  }
}
