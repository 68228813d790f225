/**
 The account of a deep copy: what a walk that takes a tree has charged and met, step by step, and whether it is the
 tree that is taken.
 */
module Auditing {
  import opened Wire
  import opened Reader
  import opened Values
  import opened Layout
  import opened Putting
  import opened ReadCosts
  import opened Copying

  /** What is copied, what becomes of its capabilities, and which errors the handler lets pass. */
  datatype Job = Job(src: Mem, caps: CapTable, tolerates: nat -> bool)

  /** What a walk has used so far. */
  datatype Meter = Meter(lim: Limiter, errs: nat, visits: nat) {
    predicate Before(later: Meter) {
      lim.AtLeast(later.lim) && errs <= later.errs && visits <= later.visits
    }
  }

  /** Whether the tree is the one that is taken, whether the walk was broken off, and what it has used then. */
  datatype Audit = Audit(right: bool, broke: bool, meter: Meter)

  /** The content words of a source object with every pointer nulled. */
  ghost function Bare(src: Mem, shape: Shape, start: Addr): seq<Cell>
    requires start.seg < |src| && start.off + Words(shape) <= |src[start.seg]|
  {
    seq(Words(shape), i requires 0 <= i < Words(shape) =>
      if IsPtrSlot(shape, i) then Ref(Null) else Data(At(src, Slot(start, i))))
  }

  /** The object is inside its segment. */
  predicate Inside(src: Mem, shape: Shape, start: Addr) {
    start.seg < |src| && start.off + Words(shape) <= |src[start.seg]|
  }

  /** The handler is called. */
  function Failing(job: Job, right: bool, m: Meter): Audit {
    Audit(right, !job.tolerates(m.errs), m.(errs := m.errs + 1))
  }

  /** One pointer: it is read, and what it refers to is copied. */
  ghost function AuditPtr(job: Job, at: Addr, t: Value, dst: Addr, st: St, m: Meter): (a: Audit)
    requires InMem(job.src, at) && ValidSt(st) && InMem(st.mem, dst) && Loose(t)
    ensures m.Before(a.meter) && (a.broke ==> m.errs < a.meter.errs)
    decreases t, 1
  {
    hide TryReadTyped, ValidSt, Words, ValidShape;
    ReaderSound(job.src, at, m.lim);
    var reading := TryReadTyped(job.src, at, m.lim);
    var read := Meter(reading.lim, m.errs, m.visits + 1);
    if reading.result.Err? then Failing(job, t == Null, read)
    else if reading.result.value.Capability? then AuditCap(job, reading.result.value.index, t, read)
    else AuditObject(job, reading.result.value.shape, reading.result.value.start, t, dst, st, read)
  }

  function AuditCap(job: Job, index: u32, t: Value, m: Meter): Audit {
    match job.caps(index)
    case CopiedAs(newIndex) => Audit(t == Cap(newIndex), false, m)
    case BecameNull => Audit(t == Null, false, m)
    case CopyFailed => Failing(job, t == Null, m)
  }

  /** An object: without room for it, nothing is read below it. */
  ghost function AuditObject(job: Job, shape: Shape, from: Addr, t: Value, dst: Addr, st: St, m: Meter): (a: Audit)
    requires Inside(job.src, shape, from) && ValidShape(shape)
    requires ValidSt(st) && InMem(st.mem, dst) && Loose(t)
    ensures m.Before(a.meter) && (a.broke ==> m.errs < a.meter.errs)
    decreases t, 0
  {
    hide AllocObject, Words, ValidShape, IsPtrSlot;
    if !t.Obj? || t.shape != shape then
      Audit(false, false, m)
    else
      AllocObjectSafe(st, dst, shape);
      var room := AllocObject(st, dst, shape);
      if room.Failed? then
        Failing(job, t.cells == Bare(job.src, shape, from), m)
      else
        CellsAreLoose(t);
        var a := AuditCells(job, shape, from, t.cells, room.start, room.st, m);
        a.(right := a.right && (a.broke || |t.cells| == Words(shape)))
  }

  /** The content, in address order, up to where the walk was broken off. */
  ghost function AuditCells(job: Job, shape: Shape, from: Addr, cells: seq<Cell>, to: Addr, base: St,
                            m: Meter): (a: Audit)
    requires Inside(job.src, shape, from) && |cells| <= Words(shape)
    requires ValidSt(base) && HasBody(base.mem, to, |cells|) && LooseCells(cells)
    ensures m.Before(a.meter) && (a.broke ==> m.errs < a.meter.errs)
    decreases cells
  {
    hide Words, ValidSt, IsPtrSlot;
    if |cells| == 0 then
      Audit(true, false, m)
    else
      var last := |cells| - 1;
      var a := AuditCells(job, shape, from, cells[..last], to, base, m);
      if !a.right || a.broke then a.(right := false)
      else
        AuditCell(job, Slot(from, last), IsPtrSlot(shape, last), cells[last], Slot(to, last),
                  PutCells(cells[..last], to, base).st, a.meter)
  }

  /** One word of the content; a null pointer is not visited. */
  ghost function AuditCell(job: Job, at: Addr, isPtr: bool, cell: Cell, dst: Addr, st: St, m: Meter): (a: Audit)
    requires InMem(job.src, at) && ValidSt(st) && InMem(st.mem, dst) && LooseCell(cell, cell.Ref?)
    ensures m.Before(a.meter) && (a.broke ==> m.errs < a.meter.errs)
    decreases cell
  {
    if cell.Ref? != isPtr then Audit(false, false, m)
    else
      match cell
      case Data(word) => Audit(At(job.src, at) == word, false, m)
      case Ref(value) =>
        if At(job.src, at).IsNull() then Audit(value == Null, false, m)
        else AuditPtr(job, at, value, dst, st, m)
  }

  lemma NothingAudited(job: Job, shape: Shape, from: Addr, to: Addr, base: St, m: Meter)
    requires Inside(job.src, shape, from) && ValidSt(base)
    ensures AuditCells(job, shape, from, [], to, base, m) == Audit(true, false, m)
  {
  }

  /** One more word. */
  lemma AuditOneMore(job: Job, shape: Shape, from: Addr, cells: seq<Cell>, cell: Cell, to: Addr, base: St, m: Meter)
    requires Inside(job.src, shape, from) && |cells| < Words(shape)
    requires ValidSt(base) && HasBody(base.mem, to, |cells| + 1) && LooseCells(cells) && LooseCell(cell, cell.Ref?)
    requires AuditCells(job, shape, from, cells, to, base, m).right
    requires !AuditCells(job, shape, from, cells, to, base, m).broke
    ensures LooseCells(cells + [cell]) && InMem(PutCells(cells, to, base).st.mem, Slot(to, |cells|))
    ensures AuditCells(job, shape, from, cells + [cell], to, base, m)
         == AuditCell(job, Slot(from, |cells|), IsPtrSlot(shape, |cells|), cell, Slot(to, |cells|),
                      PutCells(cells, to, base).st, AuditCells(job, shape, from, cells, to, base, m).meter)
  {
    hide AuditCell, LooseCell, PutCells, ValidSt, Words, IsPtrSlot;
    LooseSnoc(cells, cell);
    var all := cells + [cell];
    assert all[..|all| - 1] == cells && all[|all| - 1] == cell;
  }

  lemma BareIsLoose(src: Mem, shape: Shape, from: Addr)
    requires Inside(src, shape, from) && ValidShape(shape)
    ensures Loose(Obj(shape, Bare(src, shape, from)))
  {
    hide Words, IsPtrSlot, ValidShape;
    var t := Obj(shape, Bare(src, shape, from));
    forall i | 0 <= i < |t.cells|
      ensures LooseCell(t.cells[i], IsPtrSlot(shape, i))
    {
    }
  }

  /** Cells that are right are pointers where the object has them. */
  lemma ContentIsLoose(job: Job, shape: Shape, from: Addr, cells: seq<Cell>, to: Addr, base: St, m: Meter)
    requires Inside(job.src, shape, from) && ValidShape(shape) && |cells| <= Words(shape)
    requires ValidSt(base) && HasBody(base.mem, to, |cells|) && LooseCells(cells)
    requires AuditCells(job, shape, from, cells, to, base, m).right
    ensures Loose(Obj(shape, cells))
  {
    hide Words, IsPtrSlot, ValidShape, AuditCells, LooseCell;
    CellsRight(job, shape, from, cells, to, base, m);
    forall i | 0 <= i < |cells|
      ensures LooseCell(cells[i], IsPtrSlot(shape, i))
    {
      assert LooseCell(cells[i], cells[i].Ref?);
    }
  }

  lemma {:induction false} CellsRight(job: Job, shape: Shape, from: Addr, cells: seq<Cell>, to: Addr, base: St,
                                        m: Meter)
    requires Inside(job.src, shape, from) && |cells| <= Words(shape)
    requires ValidSt(base) && HasBody(base.mem, to, |cells|) && LooseCells(cells)
    requires AuditCells(job, shape, from, cells, to, base, m).right
    ensures forall i :: 0 <= i < |cells| ==> cells[i].Ref? == IsPtrSlot(shape, i)
    decreases cells
  {
    hide Words, IsPtrSlot, AuditPtr, LooseCell, PutCells, ValidSt;
    if |cells| > 0 {
      var last := |cells| - 1;
      CellsRight(job, shape, from, cells[..last], to, base, m);
      forall i | 0 <= i < |cells|
        ensures cells[i].Ref? == IsPtrSlot(shape, i)
      {
        if i < last {
          assert cells[..last][i] == cells[i];
        }
      }
    }
  }
}
