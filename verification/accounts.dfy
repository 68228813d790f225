/**
 What the account of a deep copy says: how much of the source was taken, what was visited and what was lost; and
 that a limiter with enough words makes no difference.
 */
module Accounts {
  import opened Wire
  import opened Reader
  import opened Values
  import opened Layout
  import opened Putting
  import opened ReadCosts
  import opened Copying
  import opened Auditing

  // ----- What was taken

  /** The quality of what was taken, by how the walk went. */
  predicate Reached(q: Quality, a: Audit, m: Meter, failures: nat) {
    match q
    case Truncated => true
    case Pruned => !a.broke
    case Afforded(left) => !a.broke && failures == 0 && a.meter.lim.Limited? && left <= a.meter.lim.left
    case Readable => !a.broke && failures == 0 && m.lim.Unlimited?
    case Exact => !a.broke && a.meter.errs == m.errs
  }

  lemma {:induction false} PtrTaken(job: Job, at: Addr, t: Value, dst: Addr, st: St, m: Meter, q: Quality)
    requires InMem(job.src, at) && ValidSt(st) && InMem(st.mem, dst) && Loose(t)
    requires AuditPtr(job, at, t, dst, st, m).right
    requires Reached(q, AuditPtr(job, at, t, dst, st, m), m, PutPtr(t, dst, st).failures)
    ensures Copied(job.src, job.caps, at, t, q)
    decreases t, 1
  {
    hide TryReadTyped, ValidSt, Words, ValidShape, AuditObject, PutPtr, IsPtrSlot, Cost;
    ReaderSound(job.src, at, m.lim);
    LimiterOnlyRefuses(job.src, at, m.lim);
    if m.lim.Limited? {
      ReadingMetered(job.src, at, m.lim.left);
    }
    var reading := TryReadTyped(job.src, at, m.lim);
    if reading.result.Ok? && reading.result.value.Object? {
      var Object(shape, start) := reading.result.value;
      ObjectTaken(job, at, shape, start, t, dst, st, Meter(reading.lim, m.errs, m.visits + 1), q);
    }
  }

  lemma {:induction false} ObjectTaken(job: Job, at: Addr, shape: Shape, from: Addr, t: Value, dst: Addr, st: St,
                                       m: Meter, q: Quality)
    requires InMem(job.src, at) && Resolve(job.src, at) == Ok(Object(shape, from))
    requires Inside(job.src, shape, from) && ValidShape(shape)
    requires ValidSt(st) && InMem(st.mem, dst) && Loose(t)
    requires AuditObject(job, shape, from, t, dst, st, m).right
    requires Reached(q, AuditObject(job, shape, from, t, dst, st, m), m, PutPtr(t, dst, st).failures)
    ensures Copied(job.src, job.caps, at, t, q)
    decreases t, 0
  {
    hide AllocObject, Words, ValidShape, IsPtrSlot, Resolve, AuditCells, PutCells, ValidSt, Loose, CopiedCell;
    AllocObjectSafe(st, dst, shape);
    var room := AllocObject(st, dst, shape);
    if room.Failed? {
      BareTaken(job, shape, from, q);
    } else {
      CellsAreLoose(t);
      NoMoreCells(t);
      CellsTaken(job, shape, from, t.cells, room.start, room.st, m, q);
    }
  }

  /** What a walk reaches it had reached before its last step, and this step reaches it. */
  lemma EarlierReached(q: Quality, before: Audit, a: Audit, m: Meter, failures: nat, more: nat)
    requires m.Before(before.meter) && before.meter.Before(a.meter) && !before.broke
    requires Reached(q, a, m, failures + more)
    ensures Reached(q, before, m, failures) && Reached(q, a, before.meter, more)
  {
  }

  lemma BareTaken(job: Job, shape: Shape, from: Addr, q: Quality)
    requires Inside(job.src, shape, from) && (q == Truncated || q == Pruned)
    ensures var cells := Bare(job.src, shape, from);
            forall i :: 0 <= i < |cells| ==>
              CopiedCell(job.src, job.caps, Slot(from, i), cells[i], IsPtrSlot(shape, i), q)
  {
    hide Words, IsPtrSlot;
  }

  lemma {:induction false} CellsTaken(job: Job, shape: Shape, from: Addr, cells: seq<Cell>, to: Addr, base: St,
                                      m: Meter, q: Quality)
    requires Inside(job.src, shape, from) && |cells| <= Words(shape)
    requires ValidSt(base) && HasBody(base.mem, to, |cells|) && LooseCells(cells)
    requires AuditCells(job, shape, from, cells, to, base, m).right
    requires Reached(q, AuditCells(job, shape, from, cells, to, base, m), m, PutCells(cells, to, base).failures)
    ensures forall i :: 0 <= i < |cells| ==>
              CopiedCell(job.src, job.caps, Slot(from, i), cells[i], IsPtrSlot(shape, i), q)
    decreases cells
  {
    hide Words, ValidSt, IsPtrSlot, AuditCell, CopiedCell, PutCell, LooseCell, Reached;
    if |cells| > 0 {
      var last := |cells| - 1;
      var a := AuditCells(job, shape, from, cells[..last], to, base, m);
      var before := PutCells(cells[..last], to, base);
      EarlierReached(q, a, AuditCells(job, shape, from, cells, to, base, m), m, before.failures,
                     PutCell(cells[last], Slot(to, last), before.st).failures);
      CellsTaken(job, shape, from, cells[..last], to, base, m, q);
      CellTaken(job, Slot(from, last), IsPtrSlot(shape, last), cells[last], Slot(to, last),
                PutCells(cells[..last], to, base).st, a.meter, q);
      forall i | 0 <= i < |cells|
        ensures CopiedCell(job.src, job.caps, Slot(from, i), cells[i], IsPtrSlot(shape, i), q)
      {
        if i < last {
          assert cells[..last][i] == cells[i];
        }
      }
    }
  }

  lemma {:induction false} CellTaken(job: Job, at: Addr, isPtr: bool, cell: Cell, dst: Addr, st: St, m: Meter,
                                     q: Quality)
    requires InMem(job.src, at) && ValidSt(st) && InMem(st.mem, dst) && LooseCell(cell, cell.Ref?)
    requires AuditCell(job, at, isPtr, cell, dst, st, m).right
    requires Reached(q, AuditCell(job, at, isPtr, cell, dst, st, m), m, PutCell(cell, dst, st).failures)
    ensures CopiedCell(job.src, job.caps, at, cell, isPtr, q)
    decreases cell
  {
    hide AuditPtr, PutPtr, Copied;
    if cell.Ref? && !At(job.src, at).IsNull() {
      PtrTaken(job, at, cell.value, dst, st, m, q);
    }
  }

  lemma NoMoreCells(t: Value)
    requires Loose(t) && t.Obj?
    ensures |t.cells| <= Words(t.shape)
  {
    hide Words, IsPtrSlot, ValidShape;
  }

  // ----- What was visited and what was lost

  /** What a walk may have used: visits are paid for by words, and failed allocations are errors. */
  predicate Paid(a: Audit, m: Meter, pointers: nat, failures: nat) {
    && (m.lim.Limited? ==> a.meter.visits - m.visits <= pointers + m.lim.Spent(a.meter.lim))
    && failures <= a.meter.errs - m.errs
  }

  lemma {:induction false} PtrPaid(job: Job, at: Addr, t: Value, dst: Addr, st: St, m: Meter)
    requires InMem(job.src, at) && ValidSt(st) && InMem(st.mem, dst) && Loose(t)
    requires AuditPtr(job, at, t, dst, st, m).right
    ensures Paid(AuditPtr(job, at, t, dst, st, m), m, 1, PutPtr(t, dst, st).failures)
    decreases t, 1
  {
    hide TryReadTyped, ValidSt, Words, ValidShape, AllocObject, AuditCells, PutCells, IsPtrSlot, LooseCell;
    ReaderSound(job.src, at, m.lim);
    var reading := TryReadTyped(job.src, at, m.lim);
    if reading.result.Ok? && reading.result.value.Object? {
      var Object(shape, start) := reading.result.value;
      AllocObjectSafe(st, dst, shape);
      var room := AllocObject(st, dst, shape);
      if room.Placed? {
        CellsAreLoose(t);
        NoMoreCells(t);
        CellsPaid(job, shape, start, t.cells, room.start, room.st, Meter(reading.lim, m.errs, m.visits + 1));
      }
    }
  }

  lemma {:induction false} CellsPaid(job: Job, shape: Shape, from: Addr, cells: seq<Cell>, to: Addr, base: St, m: Meter)
    requires Inside(job.src, shape, from) && |cells| <= Words(shape)
    requires ValidSt(base) && HasBody(base.mem, to, |cells|) && LooseCells(cells)
    requires AuditCells(job, shape, from, cells, to, base, m).right
    ensures Paid(AuditCells(job, shape, from, cells, to, base, m), m, |cells|, PutCells(cells, to, base).failures)
    decreases cells
  {
    hide Words, ValidSt, IsPtrSlot, AuditCell, PutCell, LooseCell;
    if |cells| > 0 {
      var last := |cells| - 1;
      var a := AuditCells(job, shape, from, cells[..last], to, base, m);
      CellsPaid(job, shape, from, cells[..last], to, base, m);
      CellPaid(job, Slot(from, last), IsPtrSlot(shape, last), cells[last], Slot(to, last),
               PutCells(cells[..last], to, base).st, a.meter);
    }
  }

  lemma {:induction false} CellPaid(job: Job, at: Addr, isPtr: bool, cell: Cell, dst: Addr, st: St, m: Meter)
    requires InMem(job.src, at) && ValidSt(st) && InMem(st.mem, dst) && LooseCell(cell, cell.Ref?)
    requires AuditCell(job, at, isPtr, cell, dst, st, m).right
    ensures Paid(AuditCell(job, at, isPtr, cell, dst, st, m), m, 1, PutCell(cell, dst, st).failures)
    decreases cell
  {
    hide AuditPtr, PutPtr;
    if cell.Ref? && !At(job.src, at).IsNull() {
      PtrPaid(job, at, cell.value, dst, st, m);
    } else if cell.Ref? {
      NullNotLost(dst, st);
    }
  }

  lemma NullNotLost(dst: Addr, st: St)
    requires ValidSt(st) && InMem(st.mem, dst)
    ensures PutPtr(Null, dst, st).failures == 0
  {
  }

  // ----- A source without faults

  /** Where everything can be read and copied, only failed allocations are errors. */
  lemma {:induction false} PtrFaultless(job: Job, at: Addr, t: Value, dst: Addr, st: St, m: Meter)
    requires InMem(job.src, at) && ValidSt(st) && InMem(st.mem, dst) && Loose(t)
    requires AuditPtr(job, at, t, dst, st, m).right && m.lim.Unlimited? && Sound(job.src, job.caps, at)
    ensures AuditPtr(job, at, t, dst, st, m).meter.errs - m.errs == PutPtr(t, dst, st).failures
    decreases t, 1
  {
    hide TryReadTyped, ValidSt, Words, ValidShape, AllocObject, AuditCells, PutCells, IsPtrSlot, LooseCell;
    ReaderSound(job.src, at, m.lim);
    SoundReads(job.src, job.caps, at);
    var reading := TryReadTyped(job.src, at, m.lim);
    if reading.result.value.Object? {
      var Object(shape, start) := reading.result.value;
      SoundBelow(job.src, job.caps, at, shape, start);
      hide Sound;
      AllocObjectSafe(st, dst, shape);
      var room := AllocObject(st, dst, shape);
      if room.Placed? {
        CellsAreLoose(t);
        NoMoreCells(t);
        CellsFaultless(job, shape, start, t.cells, room.start, room.st, Meter(reading.lim, m.errs, m.visits + 1));
      }
    }
  }

  lemma SoundReads(src: Mem, caps: CapTable, at: Addr)
    requires InMem(src, at) && Sound(src, caps, at)
    ensures TryReadTyped(src, at, Unlimited).result.Ok?
    ensures var target := TryReadTyped(src, at, Unlimited).result.value;
            target.Capability? ==> caps(target.index) != CopyFailed
  {
    hide TryReadTyped, Words, IsPtrSlot, Pads, Tags;
  }

  lemma {:induction false} CellsFaultless(job: Job, shape: Shape, from: Addr, cells: seq<Cell>, to: Addr, base: St,
                                          m: Meter)
    requires Inside(job.src, shape, from) && |cells| <= Words(shape)
    requires ValidSt(base) && HasBody(base.mem, to, |cells|) && LooseCells(cells) && m.lim.Unlimited?
    requires AuditCells(job, shape, from, cells, to, base, m).right
    requires SoundCells(job.src, job.caps, shape, from, 0, Words(shape))
    ensures AuditCells(job, shape, from, cells, to, base, m).meter.errs - m.errs == PutCells(cells, to, base).failures
    decreases cells
  {
    hide Words, ValidSt, IsPtrSlot, AuditCell, PutCell, LooseCell, Sound;
    if |cells| > 0 {
      var last := |cells| - 1;
      var a := AuditCells(job, shape, from, cells[..last], to, base, m);
      CellsFaultless(job, shape, from, cells[..last], to, base, m);
      CellFaultless(job, Slot(from, last), IsPtrSlot(shape, last), cells[last], Slot(to, last),
                    PutCells(cells[..last], to, base).st, a.meter);
    }
  }

  lemma {:induction false} CellFaultless(job: Job, at: Addr, isPtr: bool, cell: Cell, dst: Addr, st: St, m: Meter)
    requires InMem(job.src, at) && ValidSt(st) && InMem(st.mem, dst) && LooseCell(cell, cell.Ref?)
    requires AuditCell(job, at, isPtr, cell, dst, st, m).right && m.lim.Unlimited?
    requires isPtr && !At(job.src, at).IsNull() ==> Sound(job.src, job.caps, at)
    ensures AuditCell(job, at, isPtr, cell, dst, st, m).meter.errs - m.errs == PutCell(cell, dst, st).failures
    decreases cell
  {
    hide AuditPtr, PutPtr, Sound;
    if cell.Ref? && !At(job.src, at).IsNull() {
      PtrFaultless(job, at, cell.value, dst, st, m);
    } else if cell.Ref? {
      NullNotLost(dst, st);
    }
  }

  // ----- A limiter with enough words

  /** What reading everything costs that can be reached from a pointer within `d` objects. */
  ghost function SourceCost(src: Mem, at: Addr, d: nat): nat
    requires InMem(src, at)
    decreases d, 1, 0
  {
    hide TryReadTyped;
    ReaderSound(src, at, Unlimited);
    Cost(src, at)
    + if Resolve(src, at).Ok? && Resolve(src, at).value.Object? then
        var shape := Resolve(src, at).value.shape;
        CostBelow(src, shape, Resolve(src, at).value.start, Words(shape), d)
      else 0
  }

  /** The pointers among the first `n` words of the content of an object. */
  ghost function CostBelow(src: Mem, shape: Shape, from: Addr, n: nat, d: nat): nat
    requires Inside(src, shape, from) && n <= Words(shape)
    decreases d, 0, n
  {
    if n == 0 then
      0
    else
      var slot := Slot(from, n - 1);
      CostBelow(src, shape, from, n - 1, d)
      + if d > 0 && IsPtrSlot(shape, n - 1) && !At(src, slot).IsNull() then SourceCost(src, slot, d - 1) else 0
  }

  lemma {:induction false} CostBelowGrows(src: Mem, shape: Shape, from: Addr, n: nat, m: nat, d: nat)
    requires Inside(src, shape, from) && n <= m <= Words(shape)
    ensures CostBelow(src, shape, from, n, d) <= CostBelow(src, shape, from, m, d)
    decreases m
  {
    hide Words, IsPtrSlot, SourceCost;
    if n < m {
      CostBelowGrows(src, shape, from, n, m - 1, d);
    }
  }

  /** The same walk, of which the first has a limiter that has at most `cost` words less in the end. */
  predicate SameWalk(a: Audit, b: Audit, left: nat, cost: nat) {
    && a.right == b.right && a.broke == b.broke && a.meter.errs == b.meter.errs && a.meter.visits == b.meter.visits
    && b.meter.lim.Unlimited? && a.meter.lim.Limited? && a.meter.lim.left + cost >= left
  }

  lemma {:induction false} PtrSameWalk(job: Job, at: Addr, t: Value, dst: Addr, st: St, m: Meter, left: nat, d: nat)
    requires InMem(job.src, at) && ValidSt(st) && InMem(st.mem, dst) && Loose(t) && m.lim.Unlimited?
    requires Acyclic(job.src, at, d) && SourceCost(job.src, at, d) <= left
    ensures SameWalk(AuditPtr(job, at, t, dst, st, m.(lim := Limited(left))), AuditPtr(job, at, t, dst, st, m), left,
                  SourceCost(job.src, at, d))
    decreases t, 1
  {
    hide TryReadTyped, ValidSt, Words, ValidShape, AllocObject, AuditObject, IsPtrSlot, LooseCell, CostBelow, Cost,
         Acyclic;
    ReaderSound(job.src, at, m.lim);
    LimiterOnlyRefuses(job.src, at, m.lim);
    ReadingMetered(job.src, at, left);
    var reading := TryReadTyped(job.src, at, m.lim);
    if reading.result.Ok? && reading.result.value.Object? {
      var Object(shape, start) := reading.result.value;
      EndsBelow(job.src, at, shape, start, d);
      ObjectSameWalk(job, shape, start, t, dst, st, Meter(Unlimited, m.errs, m.visits + 1),
                     left - Cost(job.src, at), d);
    }
  }

  lemma EndsBelow(src: Mem, at: Addr, shape: Shape, start: Addr, d: nat)
    requires InMem(src, at) && Acyclic(src, at, d) && Resolve(src, at) == Ok(Object(shape, start))
    ensures EnoughFor(src, shape, start, Unlimited, d)
  {
    hide TryReadTyped, Words, IsPtrSlot;
  }

  lemma {:induction false} ObjectSameWalk(job: Job, shape: Shape, from: Addr, t: Value, dst: Addr, st: St, m: Meter,
                                       left: nat, d: nat)
    requires Inside(job.src, shape, from) && ValidShape(shape) && m.lim.Unlimited?
    requires ValidSt(st) && InMem(st.mem, dst) && Loose(t)
    requires EnoughFor(job.src, shape, from, Unlimited, d)
    requires CostBelow(job.src, shape, from, Words(shape), d) <= left
    ensures SameWalk(AuditObject(job, shape, from, t, dst, st, m.(lim := Limited(left))),
                  AuditObject(job, shape, from, t, dst, st, m), left,
                  CostBelow(job.src, shape, from, Words(shape), d))
    decreases t, 0
  {
    hide AllocObject, Words, ValidShape, IsPtrSlot, AuditCells, ValidSt, Loose, CostBelow, EnoughFor;
    if t.Obj? && t.shape == shape {
      AllocObjectSafe(st, dst, shape);
      var room := AllocObject(st, dst, shape);
      if room.Placed? {
        CellsAreLoose(t);
        NoMoreCells(t);
        CostBelowGrows(job.src, shape, from, |t.cells|, Words(shape), d);
        CellsSameWalk(job, shape, from, t.cells, room.start, room.st, m, left, d);
      }
    }
  }

  lemma {:induction false} CellsSameWalk(job: Job, shape: Shape, from: Addr, cells: seq<Cell>, to: Addr, base: St,
                                      m: Meter, left: nat, d: nat)
    requires Inside(job.src, shape, from) && |cells| <= Words(shape) && m.lim.Unlimited?
    requires ValidSt(base) && HasBody(base.mem, to, |cells|) && LooseCells(cells)
    requires EnoughFor(job.src, shape, from, Unlimited, d)
    requires CostBelow(job.src, shape, from, |cells|, d) <= left
    ensures SameWalk(AuditCells(job, shape, from, cells, to, base, m.(lim := Limited(left))),
                  AuditCells(job, shape, from, cells, to, base, m), left,
                  CostBelow(job.src, shape, from, |cells|, d))
    decreases cells
  {
    hide Words, ValidSt, IsPtrSlot, AuditCell, LooseCell, EnoughFor, SourceCost;
    if |cells| > 0 {
      var last := |cells| - 1;
      CellsSameWalk(job, shape, from, cells[..last], to, base, m, left, d);
      var a := AuditCells(job, shape, from, cells[..last], to, base, m.(lim := Limited(left)));
      var b := AuditCells(job, shape, from, cells[..last], to, base, m);
      if b.right && !b.broke {
        CellSameWalk(job, shape, from, last, cells[last], Slot(to, last), PutCells(cells[..last], to, base).st, b.meter,
                  a.meter.lim.left, d);
      }
    }
  }

  /** What the pointer at word `i` of the content costs. */
  ghost function SlotCost(src: Mem, shape: Shape, from: Addr, i: nat, d: nat): nat
    requires Inside(src, shape, from) && i < Words(shape)
  {
    if d > 0 && IsPtrSlot(shape, i) && !At(src, Slot(from, i)).IsNull() then SourceCost(src, Slot(from, i), d - 1)
    else 0
  }

  lemma {:induction false} CellSameWalk(job: Job, shape: Shape, from: Addr, i: nat, cell: Cell, dst: Addr, st: St,
                                     m: Meter, left: nat, d: nat)
    requires Inside(job.src, shape, from) && i < Words(shape) && m.lim.Unlimited?
    requires ValidSt(st) && InMem(st.mem, dst) && LooseCell(cell, cell.Ref?)
    requires EnoughFor(job.src, shape, from, Unlimited, d) && SlotCost(job.src, shape, from, i, d) <= left
    ensures SameWalk(AuditCell(job, Slot(from, i), IsPtrSlot(shape, i), cell, dst, st, m.(lim := Limited(left))),
                  AuditCell(job, Slot(from, i), IsPtrSlot(shape, i), cell, dst, st, m), left,
                  SlotCost(job.src, shape, from, i, d))
    decreases cell
  {
    hide AuditPtr, Words, IsPtrSlot, SourceCost, Acyclic;
    if cell.Ref? && IsPtrSlot(shape, i) && !At(job.src, Slot(from, i)).IsNull() {
      assert d > 0 && Enough(job.src, Slot(from, i), Unlimited, d - 1);
      PtrSameWalk(job, Slot(from, i), cell.value, dst, st, m, left, d - 1);
    }
  }

  // ----- There is one such tree

  lemma {:induction false} PtrUnique(job: Job, at: Addr, t: Value, u: Value, dst: Addr, st: St, m: Meter)
    requires InMem(job.src, at) && ValidSt(st) && InMem(st.mem, dst) && Loose(t) && Loose(u)
    requires AuditPtr(job, at, t, dst, st, m).right && AuditPtr(job, at, u, dst, st, m).right
    ensures t == u
    decreases t, 1
  {
    hide TryReadTyped, ValidSt, Words, ValidShape, AllocObject, AuditCells, IsPtrSlot, Bare, LooseCell;
    ReaderSound(job.src, at, m.lim);
    var reading := TryReadTyped(job.src, at, m.lim);
    if reading.result.Ok? && reading.result.value.Object? {
      var Object(shape, start) := reading.result.value;
      AllocObjectSafe(st, dst, shape);
      var room := AllocObject(st, dst, shape);
      if room.Placed? {
        CellsAreLoose(t);
        CellsAreLoose(u);
        NoMoreCells(t);
        NoMoreCells(u);
        var read := Meter(reading.lim, m.errs, m.visits + 1);
        CellsUnique(job, shape, start, t.cells, u.cells, room.start, room.st, read);
      }
    }
  }

  /** The first list of cells goes on where the second one ends only if the walk did not break off there. */
  ghost predicate GoesOn(job: Job, shape: Shape, from: Addr, cells: seq<Cell>, more: seq<Cell>, to: Addr, base: St,
                         m: Meter)
    requires Inside(job.src, shape, from) && |cells| <= Words(shape)
    requires ValidSt(base) && HasBody(base.mem, to, |cells|) && LooseCells(cells)
  {
    && (|cells| <= |more| ==> cells <= more)
    && (|cells| < |more| ==> !AuditCells(job, shape, from, cells, to, base, m).broke)
  }

  lemma {:induction false} CellsUnique(job: Job, shape: Shape, from: Addr, cells: seq<Cell>, more: seq<Cell>, to: Addr,
                                       base: St, m: Meter)
    requires Inside(job.src, shape, from) && |cells| <= Words(shape) && |more| <= Words(shape)
    requires ValidSt(base) && LooseCells(cells) && LooseCells(more)
    requires HasBody(base.mem, to, |cells|) && HasBody(base.mem, to, |more|)
    requires AuditCells(job, shape, from, cells, to, base, m).right
    requires AuditCells(job, shape, from, more, to, base, m).right
    ensures GoesOn(job, shape, from, cells, more, to, base, m) && GoesOn(job, shape, from, more, cells, to, base, m)
    decreases cells, |more|
  {
    hide Words, ValidSt, IsPtrSlot, AuditCell, PutCell, LooseCell, AuditCells;
    if |cells| < |more| {
      RightBefore(job, shape, from, more, to, base, m);
      CellsUnique(job, shape, from, cells, more[..|more| - 1], to, base, m);
      Shorter(cells, more);
    } else if |cells| > |more| {
      RightBefore(job, shape, from, cells, to, base, m);
      CellsUnique(job, shape, from, cells[..|cells| - 1], more, to, base, m);
      Shorter(more, cells);
    } else if |cells| > 0 {
      var last := |cells| - 1;
      RightBefore(job, shape, from, cells, to, base, m);
      RightBefore(job, shape, from, more, to, base, m);
      CellsUnique(job, shape, from, cells[..last], more[..last], to, base, m);
      PrefixIsAll(cells[..last], more[..last]);
      CellUnique(job, Slot(from, last), IsPtrSlot(shape, last), cells[last], more[last], Slot(to, last),
                 PutCells(cells[..last], to, base).st,
                 AuditCells(job, shape, from, cells[..last], to, base, m).meter);
      SameToTheLast(cells, more);
    }
  }

  lemma PrefixIsAll(cells: seq<Cell>, more: seq<Cell>)
    requires cells <= more && |cells| == |more|
    ensures cells == more
  {
  }

  lemma SameToTheLast(cells: seq<Cell>, more: seq<Cell>)
    requires 0 < |cells| == |more| && cells[..|cells| - 1] == more[..|cells| - 1]
    requires cells[|cells| - 1] == more[|cells| - 1]
    ensures cells == more
  {
    var last := |cells| - 1;
    assert cells == cells[..last] + [cells[last]] && more == more[..last] + [more[last]];
  }

  lemma RightBefore(job: Job, shape: Shape, from: Addr, cells: seq<Cell>, to: Addr, base: St, m: Meter)
    requires Inside(job.src, shape, from) && 0 < |cells| <= Words(shape)
    requires ValidSt(base) && HasBody(base.mem, to, |cells|) && LooseCells(cells)
    requires AuditCells(job, shape, from, cells, to, base, m).right
    ensures var last := |cells| - 1;
            var a := AuditCells(job, shape, from, cells[..last], to, base, m);
            && a.right && !a.broke && InMem(PutCells(cells[..last], to, base).st.mem, Slot(to, last))
            && AuditCell(job, Slot(from, last), IsPtrSlot(shape, last), cells[last], Slot(to, last),
                         PutCells(cells[..last], to, base).st, a.meter).right
  {
    hide Words, ValidSt, IsPtrSlot, AuditCell, PutCell, LooseCell;
  }

  lemma Shorter(cells: seq<Cell>, more: seq<Cell>)
    requires |cells| < |more|
    ensures |cells| == |more| - 1 && cells <= more[..|more| - 1] ==> cells == more[..|more| - 1]
    ensures cells <= more[..|more| - 1] ==> cells <= more
  {
  }

  lemma {:induction false} CellUnique(job: Job, at: Addr, isPtr: bool, cell: Cell, other: Cell, dst: Addr, st: St,
                                      m: Meter)
    requires InMem(job.src, at) && ValidSt(st) && InMem(st.mem, dst)
    requires LooseCell(cell, cell.Ref?) && LooseCell(other, other.Ref?)
    requires AuditCell(job, at, isPtr, cell, dst, st, m).right && AuditCell(job, at, isPtr, other, dst, st, m).right
    ensures cell == other
    decreases cell
  {
    hide AuditPtr;
    if cell.Ref? && !At(job.src, at).IsNull() {
      PtrUnique(job, at, cell.value, other.value, dst, st, m);
    }
  }

  // ----- What a limiter changes

  /** There is no limiter, or it has the words that reading everything costs. */
  ghost predicate Affordable(src: Mem, at: Addr, lim: Limiter)
    requires InMem(src, at)
  {
    lim.Limited? ==> exists d :: Acyclic(src, at, d) && SourceCost(src, at, d) <= lim.left
  }

  /**
   A limiter that has the words makes no difference: the copy takes the same tree, and so leaves the same message
   behind; it meets the same errors, and is broken off at the same one.
   */
  lemma LimiterMakesNoDifference(job: Job, at: Addr, t: Value, u: Value, dst: Addr, st: St, m: Meter, free: Meter)
    requires InMem(job.src, at) && ValidSt(st) && InMem(st.mem, dst) && Loose(t) && Loose(u)
    requires Affordable(job.src, at, m.lim) && free == m.(lim := Unlimited)
    requires AuditPtr(job, at, t, dst, st, m).right && AuditPtr(job, at, u, dst, st, free).right
    ensures t == u
    ensures var a, b := AuditPtr(job, at, t, dst, st, m), AuditPtr(job, at, u, dst, st, free);
            a.broke == b.broke && a.meter.errs == b.meter.errs && a.meter.visits == b.meter.visits
  {
    hide AuditPtr, Acyclic, SourceCost, Loose;
    FreeAudit(job, at, t, dst, st, m, free);
    PtrUnique(job, at, t, u, dst, st, free);
  }

  lemma FreeAudit(job: Job, at: Addr, t: Value, dst: Addr, st: St, m: Meter, free: Meter)
    requires InMem(job.src, at) && ValidSt(st) && InMem(st.mem, dst) && Loose(t)
    requires Affordable(job.src, at, m.lim) && free == m.(lim := Unlimited)
    ensures var a, b := AuditPtr(job, at, t, dst, st, m), AuditPtr(job, at, t, dst, st, free);
            && a.right == b.right && a.broke == b.broke && a.meter.errs == b.meter.errs
            && a.meter.visits == b.meter.visits
  {
    hide AuditPtr, Acyclic, SourceCost, Loose;
    if m.lim.Limited? {
      var d :| Acyclic(job.src, at, d) && SourceCost(job.src, at, d) <= m.lim.left;
      PtrSameWalk(job, at, t, dst, st, free, m.lim.left, d);
      assert free.(lim := Limited(m.lim.left)) == m;
    } else {
      assert free == m;
    }
  }

  /** What is taken, if the limiter has the words or there is none. */
  lemma AffordedCopy(job: Job, at: Addr, t: Value, dst: Addr, st: St, m: Meter)
    requires InMem(job.src, at) && ValidSt(st) && InMem(st.mem, dst) && Loose(t)
    requires Affordable(job.src, at, m.lim) && AuditPtr(job, at, t, dst, st, m).right
    ensures var a := AuditPtr(job, at, t, dst, st, m);
            && (!a.broke && PutPtr(t, dst, st).failures == 0 ==> Copied(job.src, job.caps, at, t, Readable))
            && (Sound(job.src, job.caps, at) ==> a.meter.errs - m.errs == PutPtr(t, dst, st).failures)
  {
    hide AuditPtr, Acyclic, SourceCost, Loose, Sound, Copied, PutPtr;
    var free := m.(lim := Unlimited);
    FreeAudit(job, at, t, dst, st, m, free);
    if !AuditPtr(job, at, t, dst, st, free).broke && PutPtr(t, dst, st).failures == 0 {
      PtrTaken(job, at, t, dst, st, free, Readable);
    }
    if Sound(job.src, job.caps, at) {
      PtrFaultless(job, at, t, dst, st, free);
    }
  }
}
