/**
 The comparison of two pointers as a function of the words of two messages, and what becomes of the limiters.
 */
module Walking {
  import opened Wire
  import opened Reader
  import opened Values
  import opened Equality

  datatype Sides = Sides(ours: Mem, theirs: Mem)

  datatype Limits = Limits(ours: Limiter, theirs: Limiter) {
    predicate Before(later: Limits) {
      ours.AtLeast(later.ours) && theirs.AtLeast(later.theirs)
    }
  }

  /** What a comparison returns, and what it leaves of the limiters. */
  datatype Walk = Walk(r: Result<PtrEquality>, lims: Limits)

  predicate SectionIn(mem: Mem, start: Addr, n: nat) {
    start.seg < |mem| && start.off + n <= |mem[start.seg]|
  }

  /** The words of a section that holds no pointers. */
  function Section(mem: Mem, start: Addr, n: nat): (r: seq<Cell>)
    requires SectionIn(mem, start, n)
    ensures |r| == n && forall i :: 0 <= i < n ==> r[i] == Data(At(mem, Slot(start, i)))
  {
    seq(n, i requires 0 <= i < n => Data(At(mem, Slot(start, i))))
  }

  predicate EitherNull(m: Sides, at: Addr, bt: Addr)
    requires InMem(m.ours, at) && InMem(m.theirs, bt)
  {
    At(m.ours, at).IsNull() || At(m.theirs, bt).IsNull()
  }

  /** The walk ends here: an error, or two parts that are not equal. */
  predicate Stops(r: Result<PtrEquality>) {
    r.Err? || r.value == NotEqual
  }

  /** One part after the parts before it, which are equal. */
  function Then(before: Walk, next: Walk): Walk
    requires !Stops(before.r)
  {
    if Stops(next.r) then next else next.(r := Ok(Both(before.r.value, next.r.value)))
  }

  /**
   `cmp_ptr`. `fuel` bounds the objects on the way down; a walk that ends does not run out of it. A null pointer
   reads as an empty struct, below which nothing is compared.
   */
  function PairWalk(m: Sides, at: Addr, bt: Addr, lims: Limits, fuel: nat): (w: Walk)
    requires InMem(m.ours, at) && InMem(m.theirs, bt)
    ensures lims.Before(w.lims)
    decreases if EitherNull(m, at, bt) then 0 else fuel + 1, 6, 0
  {
    hide TryReadTyped, Words, ValidShape;
    if At(m.ours, at).IsNull() && At(m.theirs, bt).IsNull() then
      Walk(Ok(Equal), lims)
    else
      ReaderSound(m.ours, at, lims.ours);
      ReaderSound(m.theirs, bt, lims.theirs);
      var our := TryReadTyped(m.ours, at, lims.ours);
      var their := TryReadTyped(m.theirs, bt, lims.theirs);
      if our.result.Err? then Walk(Err(our.result.error), Limits(our.lim, lims.theirs))
      else if their.result.Err? then Walk(Err(their.result.error), Limits(our.lim, their.lim))
      else
        TargetWalk(m, our.result.value, their.result.value, Limits(our.lim, their.lim),
                   if EitherNull(m, at, bt) then 0 else fuel + 1)
  }

  function TargetWalk(m: Sides, our: Target, their: Target, lims: Limits, rank: nat): (w: Walk)
    requires Within(m.ours, our) && Within(m.theirs, their)
    ensures lims.Before(w.lims)
    decreases rank, 5, 0
  {
    hide Words;
    if our.Object? && their.Object? then
      ContentWalk(m, our.shape, our.start, their.shape, their.start, lims, rank)
    else
      Walk(Ok(if our.Capability? && their.Capability? then ContainsCaps else NotEqual), lims)
  }

  /** Struct with struct, list with list. */
  function ContentWalk(m: Sides, shape: Shape, start: Addr, shape': Shape, start': Addr, lims: Limits,
                       rank: nat): (w: Walk)
    requires SectionIn(m.ours, start, Words(shape)) && SectionIn(m.theirs, start', Words(shape'))
    ensures lims.Before(w.lims)
    decreases rank, 4, 0
  {
    hide ListWords, Times, SameData;
    if shape.StructShape? && shape'.StructShape? then
      StructWalk(m, start, shape.size, start', shape'.size, lims, rank)
    else if shape.CompositeShape? && shape'.CompositeShape? && shape.count == shape'.count then
      ElementsWalk(m, start, shape.size, start', shape'.size, shape.count, lims, rank)
    else if !shape.ListShape? || shape' != shape then
      Walk(Ok(NotEqual), lims)
    else if shape.element == Pointer then
      PointerListWords(shape.count);
      SectionWalk(m, start, start', shape.count, lims, rank)
    else
      var ourData, theirData := Section(m.ours, start, Words(shape)), Section(m.theirs, start', Words(shape));
      Walk(Ok(if SameData(shape.element, shape.count, ourData, theirData) then Equal else NotEqual), lims)
  }

  /** `cmp_struct`. */
  function StructWalk(m: Sides, start: Addr, size: StructSize, start': Addr, size': StructSize, lims: Limits,
                      rank: nat): (w: Walk)
    requires SectionIn(m.ours, start, size.Total()) && SectionIn(m.theirs, start', size'.Total())
    ensures lims.Before(w.lims)
    decreases rank, 2, 0
  {
    if Section(m.ours, start, size.data) != Section(m.theirs, start', size'.data) then Walk(Ok(NotEqual), lims)
    else
      SectionWalk(m, Slot(start, size.data), Slot(start', size'.data),
                  if size.ptrs < size'.ptrs then size.ptrs else size'.ptrs, lims, rank)
  }

  /** The first `n` elements of two composite lists. */
  function ElementsWalk(m: Sides, start: Addr, size: StructSize, start': Addr, size': StructSize, n: nat,
                        lims: Limits, rank: nat): (w: Walk)
    requires SectionIn(m.ours, start, Times(n, size)) && SectionIn(m.theirs, start', Times(n, size'))
    ensures lims.Before(w.lims)
    decreases rank, 3, n
  {
    if n == 0 then
      Walk(Ok(Equal), lims)
    else
      var before := ElementsWalk(m, start, size, start', size', n - 1, lims, rank);
      if Stops(before.r) then before
      else
        Then(before, StructWalk(m, Slot(start, Times(n - 1, size)), size, Slot(start', Times(n - 1, size')), size',
                                before.lims, rank))
  }

  /** The first `n` pointers of two sections. */
  function SectionWalk(m: Sides, start: Addr, start': Addr, n: nat, lims: Limits, rank: nat): (w: Walk)
    requires SectionIn(m.ours, start, n) && SectionIn(m.theirs, start', n)
    ensures lims.Before(w.lims)
    decreases rank, 1, n
  {
    if n == 0 then
      Walk(Ok(Equal), lims)
    else
      var before := SectionWalk(m, start, start', n - 1, lims, rank);
      if Stops(before.r) then before
      else SlotWalk(m, Slot(start, n - 1), Slot(start', n - 1), before, rank)
  }

  /** The way down goes on, or there is no fuel left for it. */
  predicate GoesDown(m: Sides, at: Addr, bt: Addr, rank: nat)
    requires InMem(m.ours, at) && InMem(m.theirs, bt)
  {
    rank > 1 || (rank == 1 && EitherNull(m, at, bt))
  }

  function SlotWalk(m: Sides, at: Addr, bt: Addr, before: Walk, rank: nat): (w: Walk)
    requires InMem(m.ours, at) && InMem(m.theirs, bt) && !Stops(before.r)
    ensures before.lims.Before(w.lims)
    decreases rank, 0, 0
  {
    if GoesDown(m, at, bt, rank) then
      Then(before, PairWalk(m, at, bt, before.lims, if rank > 1 then rank - 2 else 0))
    else before
  }

  lemma WalkByKind(m: Sides, shape: Shape, start: Addr, shape': Shape, start': Addr, lims: Limits, rank: nat)
    requires SectionIn(m.ours, start, Words(shape)) && SectionIn(m.theirs, start', Words(shape'))
    ensures shape.StructShape? && shape'.StructShape? ==>
              ContentWalk(m, shape, start, shape', start', lims, rank)
              == StructWalk(m, start, shape.size, start', shape'.size, lims, rank)
    ensures shape.StructShape? != shape'.StructShape? ==>
              ContentWalk(m, shape, start, shape', start', lims, rank) == Walk(Ok(NotEqual), lims)
  {
    hide StructWalk, ListWords, Times;
  }

  // ----- Where a walk stops

  lemma {:induction false} SectionStops(m: Sides, start: Addr, start': Addr, k: nat, n: nat, lims: Limits, rank: nat)
    requires SectionIn(m.ours, start, n) && SectionIn(m.theirs, start', n) && k <= n
    requires SectionIn(m.ours, start, k) && SectionIn(m.theirs, start', k)
    requires Stops(SectionWalk(m, start, start', k, lims, rank).r)
    ensures SectionWalk(m, start, start', n, lims, rank) == SectionWalk(m, start, start', k, lims, rank)
    decreases n
  {
    hide SlotWalk;
    if k < n {
      SectionStops(m, start, start', k, n - 1, lims, rank);
    }
  }

  lemma {:induction false} ElementsStop(m: Sides, start: Addr, size: StructSize, start': Addr, size': StructSize,
                                        k: nat, n: nat, lims: Limits, rank: nat)
    requires SectionIn(m.ours, start, Times(n, size)) && SectionIn(m.theirs, start', Times(n, size')) && k <= n
    requires SectionIn(m.ours, start, Times(k, size)) && SectionIn(m.theirs, start', Times(k, size'))
    requires Stops(ElementsWalk(m, start, size, start', size', k, lims, rank).r)
    ensures ElementsWalk(m, start, size, start', size', n, lims, rank)
         == ElementsWalk(m, start, size, start', size', k, lims, rank)
    decreases n
  {
    hide StructWalk;
    if k < n {
      ElementsStop(m, start, size, start', size', k, n - 1, lims, rank);
    }
  }
}
