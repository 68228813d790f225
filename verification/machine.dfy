/**
 The deep copy of the source, `CopyMachine` without canonicalisation: it reads arbitrary words of one
 message and builds objects in the arena of another.
 */
module Machine {
  import opened Wire
  import opened Reader
  import opened Values
  import opened Layout
  import opened Putting
  import opened Copying
  import opened Auditing
  import opened ArenaHeap

  class CopyMachine {
    /** The message that is read, and what becomes of its capabilities. */
    const src: Mem
    const caps: CapTable
    /** Whether the error handler continues after the error of this number. */
    const tolerates: nat -> bool
    /** The message that is built. */
    const arena: Arena

    var lim: Limiter
    var errs: nat
    var visits: nat

    ghost predicate Valid()
      reads this, arena, arena.Repr
    {
      arena.Valid() && this !in arena.Repr
    }

    ghost function Task(): Job {
      Job(src, caps, tolerates)
    }

    ghost function Now(): Meter
      reads this
    {
      Meter(lim, errs, visits)
    }

    constructor (message: Mem, table: CapTable, handler: nat -> bool, target: Arena, limit: Limiter)
      requires target.Valid()
      ensures Valid() && src == message && caps == table && tolerates == handler && arena == target
      ensures Now() == Meter(limit, 0, 0)
    {
      src := message;
      caps := table;
      tolerates := handler;
      arena := target;
      lim := limit;
      errs := 0;
      visits := 0;
    }

    /** `handle_err`: break, or continue and leave null. */
    method HandleErr() returns (broke: bool)
      modifies this`errs
      ensures errs == old(errs) + 1 && broke == !tolerates(old(errs))
    {
      broke := !tolerates(errs);
      errs := errs + 1;
    }

    /**
     The destination is `base` with `cells` written from `to` on, and these are the cells a copy takes that began to
     read the content at `read`.
     */
    ghost predicate Stands(shape: Shape, from: Addr, to: Addr, base: St, cells: seq<Cell>, read: Meter, broke: bool)
      reads this, arena, arena.Repr
    {
      && Valid()
      && Inside(src, shape, from)
      && ValidSt(base) && HasBody(base.mem, to, Words(shape))
      && LooseCells(cells) && |cells| <= Words(shape)
      && arena.st == PutCells(cells, to, base).st
      && AuditCells(Task(), shape, from, cells, to, base, read) == Audit(true, broke, Now())
    }

    /** `copy_ptr`. */
    method CopyPtr(at: Addr, dst: Addr, ghost fuel: nat) returns (broke: bool, ghost t: Value)
      requires Valid() && InMem(src, at) && InMem(arena.st.mem, dst)
      requires Enough(src, at, lim, fuel)
      modifies this, arena.Repr
      ensures Valid() && fresh(arena.Repr - old(arena.Repr))
      ensures Loose(t) && arena.st == PutPtr(t, dst, old(arena.st)).st
      ensures AuditPtr(Task(), at, t, dst, old(arena.st), old(Now())) == Audit(true, broke, Now())
      decreases fuel, 7
    {
      hide TryReadTyped, SetWord, EncodeCapability, Enough, AllocObject, AuditObject;
      visits := visits + 1;
      var reading := TryReadTyped(src, at, lim);
      ReaderSound(src, at, lim);
      lim := reading.lim;
      match reading.result
      case Err(_) =>
        broke := HandleErr();
        t := Null;
      case Ok(Capability(index)) =>
        broke := false;
        match caps(index) {
          case CopiedAs(newIndex) =>
            SetWordGood(arena.st, dst, EncodeCapability(newIndex));
            arena.SetPtr(dst, EncodeCapability(newIndex));
            t := Cap(newIndex);
          case BecameNull => t := Null;
          case CopyFailed =>
            broke := HandleErr();
            t := Null;
        }
      case Ok(Object(shape, start)) =>
        EnoughBelow(src, at, old(lim), fuel);
        broke, t := CopyObject(dst, shape, start, fuel);
    }

    /** The object a pointer was found to refer to: find room for it, then copy its content. */
    method CopyObject(dst: Addr, shape: Shape, from: Addr, ghost fuel: nat) returns (broke: bool, ghost t: Value)
      requires Valid() && InMem(arena.st.mem, dst)
      requires Inside(src, shape, from) && ValidShape(shape)
      requires EnoughFor(src, shape, from, lim, fuel)
      modifies this, arena.Repr
      ensures Valid() && fresh(arena.Repr - old(arena.Repr))
      ensures Loose(t) && arena.st == PutPtr(t, dst, old(arena.st)).st
      ensures AuditObject(Task(), shape, from, t, dst, old(arena.st), old(Now())) == Audit(true, broke, Now())
      decreases fuel, 6
    {
      hide Layout.AllocObject, Words, EnoughFor, PutCells, ValidShape, AuditCells, IsPtrSlot;
      AllocObjectSafe(arena.st, dst, shape);
      ghost var room := Layout.AllocObject(arena.st, dst, shape).st;
      var ok, to := arena.AllocObject(dst, shape);
      if !ok {
        t := Obj(shape, Bare(src, shape, from));
        BareIsLoose(src, shape, from);
        broke := HandleErr();
      } else {
        PutNothing(to, room);
        NothingAudited(Task(), shape, from, to, room, Now());
        ghost var cells;
        broke, cells := CopyContent(shape, from, to, room, Now(), fuel);
        t := Obj(shape, cells);
        ContentIsLoose(Task(), shape, from, cells, to, room, old(Now()));
      }
    }

    /** `copy_from_slice`: `len` words that are no pointers. */
    method CopyData(shape: Shape, from: Addr, to: Addr, start: nat, len: nat, ghost base: St, ghost done: seq<Cell>,
                    ghost read: Meter)
      returns (ghost cells: seq<Cell>)
      requires Stands(shape, from, to, base, done, read, false)
      requires |done| == start && start + len <= Words(shape)
      requires forall i :: start <= i < start + len ==> !IsPtrSlot(shape, i)
      modifies arena.Repr
      ensures Stands(shape, from, to, base, cells, read, false) && fresh(arena.Repr - old(arena.Repr))
      ensures |cells| == start + len
    {
      hide Words, IsPtrSlot, PutCells, SetWord, AuditCells, LooseCells;
      cells := done;
      for i := 0 to len
        invariant Stands(shape, from, to, base, cells, read, false) && |cells| == start + i
        invariant fresh(arena.Repr - old(arena.Repr))
      {
        var word := At(src, Slot(from, start + i));
        PutOneMore(cells, Data(word), to, base);
        AuditOneMore(Task(), shape, from, cells, Data(word), to, base, read);
        arena.SetPtr(Slot(to, start + i), word);
        cells := cells + [Data(word)];
      }
    }

    /** The step of `copy_ptr_section` for one pointer: a null one is skipped. */
    method CopySlot(shape: Shape, from: Addr, to: Addr, start: nat, ghost base: St, ghost done: seq<Cell>,
                    ghost read: Meter, ghost fuel: nat)
      returns (broke: bool, ghost cells: seq<Cell>)
      requires Stands(shape, from, to, base, done, read, false)
      requires |done| == start < Words(shape) && IsPtrSlot(shape, start)
      requires EnoughFor(src, shape, from, lim, fuel)
      modifies this, arena.Repr
      ensures Stands(shape, from, to, base, cells, read, broke) && fresh(arena.Repr - old(arena.Repr))
      ensures |cells| == start + 1 && old(lim).AtLeast(lim)
      decreases fuel, 0
    {
      hide Words, IsPtrSlot, PutCells, AuditCells, AuditPtr, LooseCells, PutPtr, Enough;
      var slot := Slot(from, start);
      PutOneMore(done, Ref(Null), to, base);
      if At(src, slot).IsNull() {
        broke := false;
        cells := done + [Ref(Null)];
        PutNull(Slot(to, start), arena.st);
        AuditOneMore(Task(), shape, from, done, Ref(Null), to, base, read);
      } else {
        ghost var v;
        broke, v := CopyPtr(slot, Slot(to, start), fuel - 1);
        cells := done + [Ref(v)];
        PutOneMore(done, Ref(v), to, base);
        AuditOneMore(Task(), shape, from, done, Ref(v), to, base, read);
      }
    }

    /** `copy_ptr_section`: `len` pointers. */
    method CopyPtrSection(shape: Shape, from: Addr, to: Addr, start: nat, len: nat, ghost base: St,
                          ghost done: seq<Cell>, ghost read: Meter, ghost fuel: nat)
      returns (broke: bool, ghost cells: seq<Cell>)
      requires Stands(shape, from, to, base, done, read, false)
      requires |done| == start && start + len <= Words(shape)
      requires forall i :: start <= i < start + len ==> IsPtrSlot(shape, i)
      requires EnoughFor(src, shape, from, lim, fuel)
      modifies this, arena.Repr
      ensures Stands(shape, from, to, base, cells, read, broke) && fresh(arena.Repr - old(arena.Repr))
      ensures (!broke ==> |cells| == start + len) && old(lim).AtLeast(lim)
      decreases fuel, 1
    {
      hide Words, IsPtrSlot, PutCells, AuditCells, LooseCells, Enough, EnoughFor;
      broke, cells := false, done;
      var i := 0;
      while i < len && !broke
        invariant i <= len
        invariant Stands(shape, from, to, base, cells, read, broke)
        invariant |cells| == start + i
        invariant fresh(arena.Repr - old(arena.Repr))
        invariant EnoughFor(src, shape, from, lim, fuel) && old(lim).AtLeast(lim)
        decreases len - i
      {
        ghost var before := lim;
        broke, cells := CopySlot(shape, from, to, start + i, base, cells, read, fuel);
        EnoughLater(src, shape, from, before, lim, fuel);
        i := i + 1;
      }
    }

    /** `copy_struct` between structs of one size, the struct that starts at word `start` of the content. */
    method CopyStruct(shape: Shape, from: Addr, to: Addr, start: nat, size: StructSize, ghost base: St,
                      ghost done: seq<Cell>, ghost read: Meter, ghost fuel: nat)
      returns (broke: bool, ghost cells: seq<Cell>)
      requires Stands(shape, from, to, base, done, read, false)
      requires |done| == start && start + size.Total() <= Words(shape)
      requires forall i :: start <= i < start + size.Total() ==> (IsPtrSlot(shape, i) <==> start + size.data <= i)
      requires EnoughFor(src, shape, from, lim, fuel)
      modifies this, arena.Repr
      ensures Stands(shape, from, to, base, cells, read, broke) && fresh(arena.Repr - old(arena.Repr))
      ensures (!broke ==> |cells| == start + size.Total()) && old(lim).AtLeast(lim)
      decreases fuel, 2
    {
      hide Words, IsPtrSlot, PutCells, AuditCells, LooseCells, Enough;
      ghost var data := CopyData(shape, from, to, start, size.data, base, done, read);
      broke, cells := CopyPtrSection(shape, from, to, start + size.data, size.ptrs, base, data, read, fuel);
    }

    /** The step of `copy_inline_composites` for one element. */
    method CopyElement(shape: Shape, from: Addr, to: Addr, index: nat, ghost base: St, ghost done: seq<Cell>,
                       ghost read: Meter, ghost fuel: nat)
      returns (broke: bool, ghost cells: seq<Cell>)
      requires shape.CompositeShape? && index < shape.count
      requires Stands(shape, from, to, base, done, read, false) && |done| == Times(index, shape.size)
      requires EnoughFor(src, shape, from, lim, fuel)
      modifies this, arena.Repr
      ensures Stands(shape, from, to, base, cells, read, broke) && fresh(arena.Repr - old(arena.Repr))
      ensures (!broke ==> |cells| == Times(index + 1, shape.size)) && old(lim).AtLeast(lim)
      decreases fuel, 3
    {
      hide PutCells, AuditCells, LooseCells, Enough, EnoughFor, IsPtrOfStructs, Stands;
      var size := shape.size;
      var start := Times(index, size);
      forall k | start <= k < start + size.Total()
        ensures IsPtrSlot(shape, k) <==> start + size.data <= k
      {
        SlotOfElement(index, size, k - start);
      }
      TimesMonotone(index, shape.count, size);
      broke, cells := CopyStruct(shape, from, to, start, size, base, done, read, fuel);
    }

    /** `copy_inline_composites` between lists of one element size. */
    method CopyInlineComposites(shape: Shape, from: Addr, to: Addr, ghost base: St, ghost read: Meter, ghost fuel: nat)
      returns (broke: bool, ghost cells: seq<Cell>)
      requires shape.CompositeShape?
      requires Stands(shape, from, to, base, [], read, false)
      requires EnoughFor(src, shape, from, lim, fuel)
      modifies this, arena.Repr
      ensures Stands(shape, from, to, base, cells, read, broke) && fresh(arena.Repr - old(arena.Repr))
      ensures (!broke ==> |cells| == Words(shape)) && old(lim).AtLeast(lim)
      decreases fuel, 4
    {
      hide Stands, EnoughFor, IsPtrSlot, ListWords;
      var size := shape.size;
      broke, cells := false, [];
      var i := 0;
      while i < shape.count && !broke
        invariant i <= shape.count
        invariant Stands(shape, from, to, base, cells, read, broke)
        invariant !broke ==> |cells| == Times(i, size)
        invariant fresh(arena.Repr - old(arena.Repr))
        invariant EnoughFor(src, shape, from, lim, fuel) && old(lim).AtLeast(lim)
        decreases shape.count - i
      {
        ghost var before := lim;
        broke, cells := CopyElement(shape, from, to, i, base, cells, read, fuel);
        EnoughLater(src, shape, from, before, lim, fuel);
        i := i + 1;
      }
    }

    /** The content of a struct, or of a list by `copy_list`. */
    method CopyContent(shape: Shape, from: Addr, to: Addr, ghost base: St, ghost read: Meter, ghost fuel: nat)
      returns (broke: bool, ghost cells: seq<Cell>)
      requires Stands(shape, from, to, base, [], read, false)
      requires EnoughFor(src, shape, from, lim, fuel)
      modifies this, arena.Repr
      ensures Stands(shape, from, to, base, cells, read, broke) && fresh(arena.Repr - old(arena.Repr))
      ensures !broke ==> |cells| == Words(shape)
      decreases fuel, 5
    {
      hide PutCells, AuditCells, LooseCells, Enough, EnoughFor, ListWords, Times, IsPtrOfStructs;
      broke, cells := false, [];
      match shape
      case StructShape(size) =>
        broke, cells := CopyStruct(shape, from, to, 0, size, base, [], read, fuel);
      case ListShape(element, count) =>
        if Words(shape) == 0 {
        } else if element == Pointer {
          broke, cells := CopyPtrSection(shape, from, to, 0, Words(shape), base, [], read, fuel);
        } else {
          cells := CopyData(shape, from, to, 0, Words(shape), base, [], read);
        }
      case CompositeShape(size, count) =>
        PureComposites(size);
        if size.Total() > 0 && size.data == 0 {
          broke, cells := CopyPtrSection(shape, from, to, 0, Words(shape), base, [], read, fuel);
        } else if size.Total() > 0 && size.ptrs == 0 {
          cells := CopyData(shape, from, to, 0, Words(shape), base, [], read);
        } else {
          broke, cells := CopyInlineComposites(shape, from, to, base, read, fuel);
        }
    }
  }
}
