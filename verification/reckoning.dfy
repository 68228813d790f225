/**
 The errors of a deep copy and the message it leaves: the error handler is obeyed, every pointer that was given up
 is one error, and the message is the one into which all that is readable was written as far as there was room.
 */
module Reckoning {
  import opened Wire
  import opened Reader
  import opened Values
  import opened Layout
  import opened Putting
  import opened ReadCosts
  import opened Copying
  import opened Auditing
  import opened Accounts

  // ----- The error handler

  /** The walk was broken off at the first error that the handler did not tolerate, or not at all. */
  predicate Obeyed(job: Job, m: Meter, a: Audit) {
    && (forall e :: m.errs <= e < a.meter.errs - (if a.broke then 1 else 0) ==> job.tolerates(e))
    && (a.broke ==> a.meter.errs > m.errs && !job.tolerates(a.meter.errs - 1))
  }

  lemma {:induction false} PtrObeys(job: Job, at: Addr, t: Value, dst: Addr, st: St, m: Meter)
    requires InMem(job.src, at) && ValidSt(st) && InMem(st.mem, dst) && Loose(t)
    ensures Obeyed(job, m, AuditPtr(job, at, t, dst, st, m))
    decreases t, 1
  {
    hide TryReadTyped, ValidSt, Words, ValidShape, AllocObject, AuditCells, IsPtrSlot, LooseCell;
    ReaderSound(job.src, at, m.lim);
    var reading := TryReadTyped(job.src, at, m.lim);
    if reading.result.Ok? && reading.result.value.Object? {
      var Object(shape, start) := reading.result.value;
      AllocObjectSafe(st, dst, shape);
      var room := AllocObject(st, dst, shape);
      if t.Obj? && t.shape == shape && room.Placed? {
        CellsAreLoose(t);
        NoMoreCells(t);
        CellsObey(job, shape, start, t.cells, room.start, room.st, Meter(reading.lim, m.errs, m.visits + 1));
      }
    }
  }

  lemma {:induction false} CellsObey(job: Job, shape: Shape, from: Addr, cells: seq<Cell>, to: Addr, base: St, m: Meter)
    requires Inside(job.src, shape, from) && |cells| <= Words(shape)
    requires ValidSt(base) && HasBody(base.mem, to, |cells|) && LooseCells(cells)
    ensures Obeyed(job, m, AuditCells(job, shape, from, cells, to, base, m))
    decreases cells
  {
    hide Words, ValidSt, IsPtrSlot, AuditCell, LooseCell, PutCell;
    if |cells| > 0 {
      var last := |cells| - 1;
      var a := AuditCells(job, shape, from, cells[..last], to, base, m);
      CellsObey(job, shape, from, cells[..last], to, base, m);
      if a.right && !a.broke {
        CellObeys(job, Slot(from, last), IsPtrSlot(shape, last), cells[last], Slot(to, last),
                  PutCells(cells[..last], to, base).st, a.meter);
      }
    }
  }

  lemma {:induction false} CellObeys(job: Job, at: Addr, isPtr: bool, cell: Cell, dst: Addr, st: St, m: Meter)
    requires InMem(job.src, at) && ValidSt(st) && InMem(st.mem, dst) && LooseCell(cell, cell.Ref?)
    ensures Obeyed(job, m, AuditCell(job, at, isPtr, cell, dst, st, m))
    decreases cell
  {
    hide AuditPtr;
    if cell.Ref? && !At(job.src, at).IsNull() {
      PtrObeys(job, at, cell.value, dst, st, m);
    }
  }

  // ----- The number of errors

  /** The pointers of the source that are null in the tree, though neither they nor the tables say so. */
  ghost function GivenUp(src: Mem, caps: CapTable, at: Addr, t: Value): nat
    decreases t
  {
    if !InMem(src, at) || At(src, at).IsNull() then 0
    else if t == Null then if CapIs(Resolve(src, at), caps, BecameNull) then 0 else 1
    else if t.Obj? && Resolve(src, at).Ok? && Resolve(src, at).value.Object? then
      GivenUpBelow(src, caps, Resolve(src, at).value.start, t.cells)
    else 0
  }

  ghost function GivenUpBelow(src: Mem, caps: CapTable, from: Addr, cells: seq<Cell>): nat
    decreases cells
  {
    if |cells| == 0 then 0
    else
      var last := |cells| - 1;
      GivenUpBelow(src, caps, from, cells[..last]) + GivenUpIn(src, caps, Slot(from, last), cells[last])
  }

  ghost function GivenUpIn(src: Mem, caps: CapTable, at: Addr, cell: Cell): nat
    decreases cell
  {
    match cell
    case Data(_) => 0
    case Ref(value) => GivenUp(src, caps, at, value)
  }

  /** Every error is a failed allocation or a pointer given up, and the other way round as far as there was room. */
  predicate Reckoned(a: Audit, m: Meter, given: nat, failures: nat) {
    && a.meter.errs - m.errs <= given + failures
    && (failures == 0 ==> a.meter.errs - m.errs == given)
  }

  lemma {:induction false} PtrReckoned(job: Job, at: Addr, t: Value, dst: Addr, st: St, m: Meter)
    requires InMem(job.src, at) && ValidSt(st) && InMem(st.mem, dst) && Loose(t) && m.lim.Unlimited?
    requires AuditPtr(job, at, t, dst, st, m).right && !At(job.src, at).IsNull()
    ensures Reckoned(AuditPtr(job, at, t, dst, st, m), m, GivenUp(job.src, job.caps, at, t),
                     PutPtr(t, dst, st).failures)
    decreases t, 1
  {
    hide TryReadTyped, ValidSt, Words, ValidShape, AllocObject, AuditCells, PutCells, IsPtrSlot, LooseCell,
         GivenUpBelow;
    ReaderSound(job.src, at, m.lim);
    LimiterOnlyRefuses(job.src, at, m.lim);
    var reading := TryReadTyped(job.src, at, m.lim);
    if reading.result.Ok? && reading.result.value.Object? {
      var Object(shape, start) := reading.result.value;
      AllocObjectSafe(st, dst, shape);
      var room := AllocObject(st, dst, shape);
      if room.Placed? {
        CellsAreLoose(t);
        NoMoreCells(t);
        CellsReckoned(job, shape, start, t.cells, room.start, room.st, Meter(reading.lim, m.errs, m.visits + 1));
      }
    }
  }

  lemma {:induction false} CellsReckoned(job: Job, shape: Shape, from: Addr, cells: seq<Cell>, to: Addr, base: St,
                                         m: Meter)
    requires Inside(job.src, shape, from) && |cells| <= Words(shape)
    requires ValidSt(base) && HasBody(base.mem, to, |cells|) && LooseCells(cells) && m.lim.Unlimited?
    requires AuditCells(job, shape, from, cells, to, base, m).right
    ensures Reckoned(AuditCells(job, shape, from, cells, to, base, m), m,
                     GivenUpBelow(job.src, job.caps, from, cells), PutCells(cells, to, base).failures)
    decreases cells
  {
    hide Words, ValidSt, IsPtrSlot, AuditCell, PutCell, LooseCell, GivenUpIn;
    if |cells| > 0 {
      var last := |cells| - 1;
      var a := AuditCells(job, shape, from, cells[..last], to, base, m);
      CellsReckoned(job, shape, from, cells[..last], to, base, m);
      CellReckoned(job, Slot(from, last), IsPtrSlot(shape, last), cells[last], Slot(to, last),
                   PutCells(cells[..last], to, base).st, a.meter);
    }
  }

  lemma {:induction false} CellReckoned(job: Job, at: Addr, isPtr: bool, cell: Cell, dst: Addr, st: St, m: Meter)
    requires InMem(job.src, at) && ValidSt(st) && InMem(st.mem, dst) && LooseCell(cell, cell.Ref?)
    requires AuditCell(job, at, isPtr, cell, dst, st, m).right && m.lim.Unlimited?
    ensures Reckoned(AuditCell(job, at, isPtr, cell, dst, st, m), m,
                     GivenUpIn(job.src, job.caps, at, cell), PutCell(cell, dst, st).failures)
    decreases cell
  {
    hide AuditPtr, PutPtr, Resolve;
    if cell.Ref? && !At(job.src, at).IsNull() {
      PtrReckoned(job, at, cell.value, dst, st, m);
    } else if cell.Ref? {
      NullNotLost(dst, st);
    }
  }

  // ----- The message

  /** Everything that can be read is one tree wherever the pointers come to an end. */
  lemma {:induction false} ReadableExists(src: Mem, caps: CapTable, at: Addr, d: nat) returns (u: Value)
    requires InMem(src, at) && Acyclic(src, at, d)
    ensures Copied(src, caps, at, u, Readable) && Loose(u)
    decreases d, 1, 0
  {
    hide TryReadTyped, Words, IsPtrSlot, ValidShape;
    ReaderSound(src, at, Unlimited);
    u := Null;
    if Resolve(src, at).Ok? {
      match Resolve(src, at).value
      case Capability(index) =>
        if caps(index).CopiedAs? {
          u := Cap(caps(index).index);
        }
      case Object(shape, start) =>
        var cells := ReadableBelow(src, caps, shape, start, Words(shape), d);
        u := Obj(shape, cells);
    }
  }

  ghost predicate ReadableCell(src: Mem, caps: CapTable, at: Addr, cell: Cell, isPtr: bool) {
    CopiedCell(src, caps, at, cell, isPtr, Readable) && LooseCell(cell, isPtr)
  }

  lemma {:induction false} ReadableBelow(src: Mem, caps: CapTable, shape: Shape, from: Addr, n: nat, d: nat)
    returns (cells: seq<Cell>)
    requires Inside(src, shape, from) && n <= Words(shape) && EnoughFor(src, shape, from, Unlimited, d)
    ensures |cells| == n
    ensures forall i :: 0 <= i < n ==> ReadableCell(src, caps, Slot(from, i), cells[i], IsPtrSlot(shape, i))
    decreases d, 0, n
  {
    hide Words, IsPtrSlot, Acyclic, Copied, Loose;
    cells := [];
    if n > 0 {
      var before := ReadableBelow(src, caps, shape, from, n - 1, d);
      var slot, isPtr := Slot(from, n - 1), IsPtrSlot(shape, n - 1);
      var cell := if isPtr then Ref(Null) else Data(At(src, slot));
      NullIsLoose();
      if isPtr && !At(src, slot).IsNull() {
        assert d > 0 && Enough(src, slot, Unlimited, d - 1);
        var value := ReadableExists(src, caps, slot, d - 1);
        cell := Ref(value);
      }
      cells := before + [cell];
      forall i | 0 <= i < n
        ensures ReadableCell(src, caps, Slot(from, i), cells[i], IsPtrSlot(shape, i))
      {
        if i < n - 1 {
          assert cells[i] == before[i];
        }
      }
    }
  }

  lemma NullIsLoose()
    ensures Loose(Null)
  {
  }

  /** What was taken is written as everything readable is: where there is no room nothing below is missed. */
  lemma {:induction false} PtrAsReadable(job: Job, at: Addr, t: Value, u: Value, dst: Addr, st: St, m: Meter)
    requires InMem(job.src, at) && ValidSt(st) && InMem(st.mem, dst) && Loose(t) && Loose(u) && m.lim.Unlimited?
    requires AuditPtr(job, at, t, dst, st, m).right && !AuditPtr(job, at, t, dst, st, m).broke
    requires Copied(job.src, job.caps, at, u, Readable)
    ensures PutPtr(t, dst, st) == PutPtr(u, dst, st)
    decreases t, 1
  {
    hide TryReadTyped, ValidSt, Words, ValidShape, AllocObject, AuditCells, PutCells, IsPtrSlot, LooseCell, CopiedCell;
    ReaderSound(job.src, at, m.lim);
    LimiterOnlyRefuses(job.src, at, m.lim);
    var reading := TryReadTyped(job.src, at, m.lim);
    if reading.result.Ok? && reading.result.value.Object? {
      var Object(shape, start) := reading.result.value;
      AllocObjectSafe(st, dst, shape);
      var room := AllocObject(st, dst, shape);
      if room.Placed? {
        CellsAreLoose(t);
        CellsAreLoose(u);
        CellsAsReadable(job, shape, start, t.cells, u.cells, room.start, room.st,
                        Meter(reading.lim, m.errs, m.visits + 1));
      }
    }
  }

  lemma {:induction false} CellsAsReadable(job: Job, shape: Shape, from: Addr, cells: seq<Cell>, all: seq<Cell>,
                                           to: Addr, base: St, m: Meter)
    requires Inside(job.src, shape, from) && |cells| == |all| <= Words(shape) && m.lim.Unlimited?
    requires ValidSt(base) && HasBody(base.mem, to, |cells|) && LooseCells(cells) && LooseCells(all)
    requires AuditCells(job, shape, from, cells, to, base, m).right
    requires !AuditCells(job, shape, from, cells, to, base, m).broke
    requires forall i :: 0 <= i < |all| ==>
               CopiedCell(job.src, job.caps, Slot(from, i), all[i], IsPtrSlot(shape, i), Readable)
    ensures PutCells(cells, to, base) == PutCells(all, to, base)
    decreases cells
  {
    hide Words, ValidSt, IsPtrSlot, AuditCell, PutCell, LooseCell, CopiedCell;
    if |cells| > 0 {
      var last := |cells| - 1;
      CellsAsReadable(job, shape, from, cells[..last], all[..last], to, base, m);
      CellAsReadable(job, Slot(from, last), IsPtrSlot(shape, last), cells[last], all[last], Slot(to, last),
                     PutCells(cells[..last], to, base).st,
                     AuditCells(job, shape, from, cells[..last], to, base, m).meter);
    }
  }

  lemma {:induction false} CellAsReadable(job: Job, at: Addr, isPtr: bool, cell: Cell, other: Cell, dst: Addr, st: St,
                                          m: Meter)
    requires InMem(job.src, at) && ValidSt(st) && InMem(st.mem, dst) && m.lim.Unlimited?
    requires LooseCell(cell, cell.Ref?) && LooseCell(other, other.Ref?)
    requires AuditCell(job, at, isPtr, cell, dst, st, m).right && !AuditCell(job, at, isPtr, cell, dst, st, m).broke
    requires CopiedCell(job.src, job.caps, at, other, isPtr, Readable)
    ensures PutCell(cell, dst, st) == PutCell(other, dst, st)
    decreases cell
  {
    hide AuditPtr, PutPtr, Copied;
    if cell.Ref? && !At(job.src, at).IsNull() {
      PtrAsReadable(job, at, cell.value, other.value, dst, st, m);
    }
  }

  /** The number of errors, if the limiter has the words or there is none. */
  lemma CopyReckoned(job: Job, at: Addr, t: Value, dst: Addr, st: St, m: Meter)
    requires InMem(job.src, at) && ValidSt(st) && InMem(st.mem, dst) && Loose(t) && !At(job.src, at).IsNull()
    requires Affordable(job.src, at, m.lim) && AuditPtr(job, at, t, dst, st, m).right
    ensures Reckoned(AuditPtr(job, at, t, dst, st, m), m, GivenUp(job.src, job.caps, at, t),
                     PutPtr(t, dst, st).failures)
  {
    hide AuditPtr, Acyclic, SourceCost, Loose, Copied, PutPtr, GivenUp;
    FreeAudit(job, at, t, dst, st, m, m.(lim := Unlimited));
    PtrReckoned(job, at, t, dst, st, m.(lim := Unlimited));
  }

  /** The message that is left, if the limiter has the words or there is none. */
  lemma CopyAsReadable(job: Job, at: Addr, t: Value, u: Value, dst: Addr, st: St, m: Meter)
    requires InMem(job.src, at) && ValidSt(st) && InMem(st.mem, dst) && Loose(t) && Loose(u)
    requires Affordable(job.src, at, m.lim) && Copied(job.src, job.caps, at, u, Readable)
    requires AuditPtr(job, at, t, dst, st, m).right && !AuditPtr(job, at, t, dst, st, m).broke
    ensures PutPtr(t, dst, st) == PutPtr(u, dst, st)
  {
    hide AuditPtr, Acyclic, SourceCost, Loose, Copied, PutPtr;
    FreeAudit(job, at, t, dst, st, m, m.(lim := Unlimited));
    PtrAsReadable(job, at, t, u, dst, st, m.(lim := Unlimited));
  }
}
