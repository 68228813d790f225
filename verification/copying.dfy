/**
 Deep copy: what `CopyMachine` relates, before the machine itself.

 A copy reads the source and writes the destination in one walk. Its account is a tree: the objects it
 accepted, with null for every pointer it had to give up.
 */
module Copying {
  import opened Wire
  import opened Reader
  import opened Values
  import opened Layout
  import opened Putting
  import opened ReadCosts

  /** What the tables make of a capability of the source. */
  datatype CapCopy = CopiedAs(index: u32) | BecameNull | CopyFailed

  type CapTable = u32 -> CapCopy

  /**
   How much of the source a tree accounts for: an arbitrary start of it, all objects but some pointers
   nulled, only pointers nulled that are unreadable or cost more to read than was left, exactly the
   unreadable pointers nulled, or all of it.
   */
  datatype Quality = Truncated | Pruned | Afforded(left: nat) | Readable | Exact

  predicate CapIs(r: Result<Target>, caps: CapTable, outcome: CapCopy) {
    r.Ok? && r.value.Capability? && caps(r.value.index) == outcome
  }

  /** `t` is what a copy of quality `q` takes from the pointer at `at` of the source. */
  ghost predicate Copied(src: Mem, caps: CapTable, at: Addr, t: Value, q: Quality)
    decreases t
  {
    && InMem(src, at)
    && match t
       case Null =>
         || q == Truncated || q == Pruned
         || CapIs(Resolve(src, at), caps, BecameNull)
         || ((q == Readable || q.Afforded?) && (Resolve(src, at).Err? || CapIs(Resolve(src, at), caps, CopyFailed)))
         || (q.Afforded? && Cost(src, at) > q.left)
       case Cap(index) => CapIs(Resolve(src, at), caps, CopiedAs(index))
       case Obj(shape, cells) =>
         && Resolve(src, at).Ok?
         && Resolve(src, at).value.Object?
         && Resolve(src, at).value.shape == shape
         && |cells| <= Words(shape)
         && (q != Truncated ==> |cells| == Words(shape))
         && forall i :: 0 <= i < |cells| ==>
              CopiedCell(src, caps, Slot(Resolve(src, at).value.start, i), cells[i], IsPtrSlot(shape, i), q)
  }

  ghost predicate CopiedCell(src: Mem, caps: CapTable, at: Addr, cell: Cell, isPtr: bool, q: Quality)
    decreases cell
  {
    && InMem(src, at)
    && cell.Ref? == isPtr
    && match cell
       case Data(word) => At(src, at) == word
       case Ref(value) => if At(src, at).IsNull() then value == Null else Copied(src, caps, at, value, q)
  }

  /** The cells from index `lo` on, against the content of the source object. */
  ghost predicate CopiedCells(src: Mem, caps: CapTable, shape: Shape, from: Addr, cells: seq<Cell>, lo: nat,
                              q: Quality) {
    forall i :: lo <= i < |cells| ==> CopiedCell(src, caps, Slot(from, i), cells[i], IsPtrSlot(shape, i), q)
  }

  // ----- Termination

  /** Following pointers from `at` comes to an end within `d` objects. */
  ghost predicate Acyclic(mem: Mem, at: Addr, d: nat)
    decreases d
  {
    InMem(mem, at) && Resolve(mem, at).Ok? && Resolve(mem, at).value.Object? ==>
      var Object(shape, start) := Resolve(mem, at).value;
      forall i :: 0 <= i < Words(shape) && IsPtrSlot(shape, i)
                  && InMem(mem, Slot(start, i)) && !At(mem, Slot(start, i)).IsNull() ==>
        d > 0 && Acyclic(mem, Slot(start, i), d - 1)
  }

  /** The walk from `at` ends: the limiter runs out within `fuel` words, or the source is that shallow. */
  ghost predicate Enough(mem: Mem, at: Addr, lim: Limiter, fuel: nat) {
    if lim.Limited? then lim.left < fuel else Acyclic(mem, at, fuel)
  }

  ghost predicate EnoughFor(mem: Mem, shape: Shape, start: Addr, lim: Limiter, fuel: nat) {
    forall i :: 0 <= i < Words(shape) && IsPtrSlot(shape, i)
                && InMem(mem, Slot(start, i)) && !At(mem, Slot(start, i)).IsNull() ==>
      fuel > 0 && Enough(mem, Slot(start, i), lim, fuel - 1)
  }

  lemma EnoughBelow(mem: Mem, at: Addr, lim: Limiter, fuel: nat)
    requires InMem(mem, at) && Enough(mem, at, lim, fuel)
    requires TryReadTyped(mem, at, lim).result.Ok? && TryReadTyped(mem, at, lim).result.value.Object?
    ensures var Object(shape, start) := TryReadTyped(mem, at, lim).result.value;
            EnoughFor(mem, shape, start, TryReadTyped(mem, at, lim).lim, fuel)
  {
    hide TryReadTyped, Words, IsPtrSlot, ValidShape;
    ReaderSound(mem, at, lim);
    LimiterOnlyRefuses(mem, at, lim);
  }

  lemma EnoughLater(mem: Mem, shape: Shape, start: Addr, lim: Limiter, later: Limiter, fuel: nat)
    requires EnoughFor(mem, shape, start, lim, fuel) && lim.AtLeast(later)
    ensures EnoughFor(mem, shape, start, later, fuel)
  {
    hide Words, IsPtrSlot, Acyclic;
  }

  // ----- Sources without faults

  /** A non-null pointer everything behind which can be read and copied. */
  ghost predicate Sound(src: Mem, caps: CapTable, at: Addr) {
    && (forall i :: caps(i) != CopyFailed)
    && exists v :: Means(src, at, v) && v != Null
  }

  ghost predicate SoundCells(src: Mem, caps: CapTable, shape: Shape, start: Addr, lo: nat, hi: nat) {
    forall i :: lo <= i < hi && IsPtrSlot(shape, i)
                && InMem(src, Slot(start, i)) && !At(src, Slot(start, i)).IsNull() ==>
      Sound(src, caps, Slot(start, i))
  }

  lemma SoundBelow(src: Mem, caps: CapTable, at: Addr, shape: Shape, start: Addr)
    requires Sound(src, caps, at) && InMem(src, at) && Resolve(src, at) == Ok(Object(shape, start))
    ensures SoundCells(src, caps, shape, start, 0, Words(shape))
  {
    hide Resolve, Words, IsPtrSlot, Pads, Tags;
    var v :| Means(src, at, v) && v != Null;
    forall i | 0 <= i < Words(shape) && IsPtrSlot(shape, i)
               && InMem(src, Slot(start, i)) && !At(src, Slot(start, i)).IsNull()
      ensures Sound(src, caps, Slot(start, i))
    {
      assert CellAt(src, Slot(start, i), v.cells[i], IsPtrSlot(shape, i), iset{});
      NonNullMeaning(src, Slot(start, i), v.cells[i].value, iset{});
      assert Means(src, Slot(start, i), v.cells[i].value);
    }
  }
}
