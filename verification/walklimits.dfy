/**
 Limiters and fuel of a comparison: a limiter only refuses, one that has the words makes no difference, and a walk
 that ends does not depend on the fuel it is given.
 */
module WalkLimits {
  import opened Wire
  import opened Reader
  import opened Values
  import opened ReadCosts
  import opened Copying
  import opened Auditing
  import opened Accounts
  import opened DeepCopy
  import opened Equality
  import opened Walking
  import opened Walked

  /** An object that is compared, of which something is reached within `d` objects. */
  datatype Reach = Reach(shape: Shape, from: Addr, d: nat)

  /** What the pointers among its first `k` words cost. */
  ghost function Upto(mem: Mem, p: Reach, k: nat): nat
    requires Inside(mem, p.shape, p.from) && k <= Words(p.shape)
  {
    CostBelow(mem, p.shape, p.from, k, p.d)
  }

  /** Words `lo` to `hi` of the object; the limiter has what their pointers cost, and these are shallow. */
  ghost predicate Affords(mem: Mem, p: Reach, lo: nat, hi: nat, lim: Limiter)
    requires Inside(mem, p.shape, p.from)
  {
    && lo <= hi <= Words(p.shape) && EnoughFor(mem, p.shape, p.from, Unlimited, p.d)
    && (lim.Limited? ==> Upto(mem, p, hi) - Upto(mem, p, lo) <= lim.left)
  }

  /** No more than that was charged. */
  ghost predicate Pays(mem: Mem, p: Reach, lo: nat, hi: nat, lim: Limiter, later: Limiter)
    requires Inside(mem, p.shape, p.from) && lo <= hi <= Words(p.shape)
  {
    lim.Limited? ==> later.Limited? && later.left + Upto(mem, p, hi) - Upto(mem, p, lo) >= lim.left
  }

  /** The walk under limiters is the free one, or was refused. */
  predicate OnlyRefused(a: Walk, b: Walk) {
    (a.r == b.r || a.r == Err(ReadLimitExceeded)) && b.lims == FREE
  }

  ghost predicate PairAffords(mem: Mem, at: Addr, lim: Limiter, d: nat)
    requires InMem(mem, at)
  {
    Acyclic(mem, at, d) && (lim.Limited? ==> SourceCost(mem, at, d) <= lim.left)
  }

  ghost predicate PairPays(mem: Mem, at: Addr, lim: Limiter, later: Limiter, d: nat)
    requires InMem(mem, at)
  {
    lim.Limited? ==> later.Limited? && later.left + SourceCost(mem, at, d) >= lim.left
  }

  /** A limiter that has the words changes nothing, and is charged no more than they cost. */
  lemma {:induction false} PairFree(m: Sides, at: Addr, bt: Addr, lims: Limits, fuel: nat, d: nat, d': nat, rich: bool)
    requires InMem(m.ours, at) && InMem(m.theirs, bt)
    requires rich ==> PairAffords(m.ours, at, lims.ours, d) && PairAffords(m.theirs, bt, lims.theirs, d')
    ensures var a, b := PairWalk(m, at, bt, lims, fuel), PairWalk(m, at, bt, FREE, fuel);
            && OnlyRefused(a, b)
            && (rich ==>
                  && a.r == b.r && PairPays(m.ours, at, lims.ours, a.lims.ours, d)
                  && PairPays(m.theirs, bt, lims.theirs, a.lims.theirs, d'))
    decreases if EitherNull(m, at, bt) then 0 else fuel + 1, 6, 0
  {
    hide TryReadTyped, Words, Acyclic, SourceCost, TargetWalk, ContentWalk, EnoughFor;
    if !(At(m.ours, at).IsNull() && At(m.theirs, bt).IsNull()) {
      ReaderSound(m.ours, at, Unlimited);
      ReaderSound(m.theirs, bt, Unlimited);
      ReadingFree(m.ours, at, lims.ours, d, rich);
      ReadingFree(m.theirs, bt, lims.theirs, d', rich);
      var our, their := TryReadTyped(m.ours, at, lims.ours), TryReadTyped(m.theirs, bt, lims.theirs);
      if our.result.Ok? && their.result.Ok? {
        var rank: nat := if EitherNull(m, at, bt) then 0 else fuel + 1;
        var after := Limits(our.lim, their.lim);
        var a, b := our.result.value, their.result.value;
        if a.Object? && b.Object? {
          var p, q := Reach(a.shape, a.start, d), Reach(b.shape, b.start, d');
          ObjectsWalk(m, a, b, after, rank);
          ObjectsWalk(m, a, b, FREE, rank);
          ContentFree(m, p, q, after, rank, rich);
          NothingUpto(m.ours, p);
          NothingUpto(m.theirs, q);
        } else {
          OthersWalk(m, a, b, after, rank);
          OthersWalk(m, a, b, FREE, rank);
        }
      }
    }
  }

  lemma NothingUpto(mem: Mem, p: Reach)
    requires Inside(mem, p.shape, p.from)
    ensures Upto(mem, p, 0) == 0
  {
    hide Words;
  }

  /** Reading under a limiter, against reading without one. */
  lemma ReadingFree(mem: Mem, at: Addr, lim: Limiter, d: nat, rich: bool)
    requires InMem(mem, at) && (rich ==> PairAffords(mem, at, lim, d))
    ensures var limited, free := TryReadTyped(mem, at, lim), TryReadTyped(mem, at, Unlimited);
            && free.lim == Unlimited
            && (limited.result == free.result || limited.result == Err(ReadLimitExceeded))
            && (rich ==>
                  && limited.result == free.result
                  && (if free.result.Ok? && free.result.value.Object? then
                        var p := Reach(free.result.value.shape, free.result.value.start, d);
                        && Inside(mem, p.shape, p.from) && Affords(mem, p, 0, Words(p.shape), limited.lim)
                        && (lim.Limited? ==>
                              && limited.lim.Limited?
                              && limited.lim.left + SourceCost(mem, at, d) == lim.left + Upto(mem, p, Words(p.shape)))
                      else PairPays(mem, at, lim, limited.lim, d)))
  {
    hide TryReadTyped, Words, Acyclic, CostBelow, EnoughFor, Cost;
    ReaderSound(mem, at, Unlimited);
    LimiterOnlyRefuses(mem, at, lim);
    if lim.Limited? {
      ReadingMetered(mem, at, lim.left);
    }
    if rich {
      var free := TryReadTyped(mem, at, Unlimited);
      if free.result.Ok? && free.result.value.Object? {
        var p := Reach(free.result.value.shape, free.result.value.start, d);
        EndsBelow(mem, at, p.shape, p.from, d);
        NothingUpto(mem, p);
      }
    }
  }

  lemma {:induction false} ContentFree(m: Sides, p: Reach, q: Reach, lims: Limits, rank: nat, rich: bool)
    requires SectionIn(m.ours, p.from, Words(p.shape)) && SectionIn(m.theirs, q.from, Words(q.shape))
    requires rich ==> Affords(m.ours, p, 0, Words(p.shape), lims.ours)
                      && Affords(m.theirs, q, 0, Words(q.shape), lims.theirs)
    ensures var a := ContentWalk(m, p.shape, p.from, q.shape, q.from, lims, rank);
            var b := ContentWalk(m, p.shape, p.from, q.shape, q.from, FREE, rank);
            && OnlyRefused(a, b)
            && (rich ==>
                  && a.r == b.r && Pays(m.ours, p, 0, Words(p.shape), lims.ours, a.lims.ours)
                  && Pays(m.theirs, q, 0, Words(q.shape), lims.theirs, a.lims.theirs))
    decreases rank, 4, 0
  {
    hide ListWords, Times, SameData, StructWalk, ElementsWalk, SectionWalk, CostBelow, EnoughFor, IsPtrOfStructs;
    CostBelowGrows(m.ours, p.shape, p.from, 0, Words(p.shape), p.d);
    CostBelowGrows(m.theirs, q.shape, q.from, 0, Words(q.shape), q.d);
    assert Slot(p.from, 0) == p.from && Slot(q.from, 0) == q.from;
    if p.shape.StructShape? && q.shape.StructShape? {
      StructFree(m, p, 0, p.shape.size, q, 0, q.shape.size, lims, rank, rich);
    } else if p.shape.CompositeShape? && q.shape.CompositeShape? && p.shape.count == q.shape.count {
      ElementsFree(m, p, q, p.shape.count, lims, rank, rich);
    } else if p.shape.ListShape? && q.shape == p.shape && p.shape.element == Pointer {
      PointerListWords(p.shape.count);
      SectionFree(m, p, 0, q, 0, p.shape.count, lims, rank, rich);
    }
  }

  lemma {:induction false} StructFree(m: Sides, p: Reach, base: nat, size: StructSize, q: Reach, base': nat,
                                      size': StructSize, lims: Limits, rank: nat, rich: bool)
    requires Inside(m.ours, p.shape, p.from) && Inside(m.theirs, q.shape, q.from)
    requires base + size.Total() <= Words(p.shape) && base' + size'.Total() <= Words(q.shape)
    requires forall k :: base + size.data <= k < base + size.Total() ==> IsPtrSlot(p.shape, k)
    requires forall k :: base' + size'.data <= k < base' + size'.Total() ==> IsPtrSlot(q.shape, k)
    requires rich ==> Affords(m.ours, p, base, base + size.Total(), lims.ours)
                      && Affords(m.theirs, q, base', base' + size'.Total(), lims.theirs)
    ensures var a := StructWalk(m, Slot(p.from, base), size, Slot(q.from, base'), size', lims, rank);
            var b := StructWalk(m, Slot(p.from, base), size, Slot(q.from, base'), size', FREE, rank);
            && OnlyRefused(a, b)
            && (rich ==>
                  && a.r == b.r && Pays(m.ours, p, base, base + size.Total(), lims.ours, a.lims.ours)
                  && Pays(m.theirs, q, base', base' + size'.Total(), lims.theirs, a.lims.theirs))
    decreases rank, 2, 0
  {
    hide SectionWalk, CostBelow, EnoughFor, IsPtrSlot, Words;
    var n: nat := if size.ptrs < size'.ptrs then size.ptrs else size'.ptrs;
    Between(m.ours, p, base, base + size.data, base + size.data + n, base + size.Total());
    Between(m.theirs, q, base', base' + size'.data, base' + size'.data + n, base' + size'.Total());
    assert Slot(Slot(p.from, base), size.data) == Slot(p.from, base + size.data);
    assert Slot(Slot(q.from, base'), size'.data) == Slot(q.from, base' + size'.data);
    SectionFree(m, p, base + size.data, q, base' + size'.data, n, lims, rank, rich);
  }

  /** Fewer words cost no more. */
  lemma Between(mem: Mem, p: Reach, lo: nat, i: nat, j: nat, hi: nat)
    requires Inside(mem, p.shape, p.from) && lo <= i <= j <= hi <= Words(p.shape)
    ensures Upto(mem, p, lo) <= Upto(mem, p, i) <= Upto(mem, p, j) <= Upto(mem, p, hi)
  {
    hide Words, CostBelow;
    CostBelowGrows(mem, p.shape, p.from, lo, i, p.d);
    CostBelowGrows(mem, p.shape, p.from, i, j, p.d);
    CostBelowGrows(mem, p.shape, p.from, j, hi, p.d);
  }

  lemma {:induction false} ElementsFree(m: Sides, p: Reach, q: Reach, n: nat, lims: Limits, rank: nat, rich: bool)
    requires p.shape.CompositeShape? && q.shape.CompositeShape? && n <= p.shape.count && n <= q.shape.count
    requires Inside(m.ours, p.shape, p.from) && Inside(m.theirs, q.shape, q.from)
    requires Times(n, p.shape.size) <= Words(p.shape) && Times(n, q.shape.size) <= Words(q.shape)
    requires rich ==> Affords(m.ours, p, 0, Times(n, p.shape.size), lims.ours)
                      && Affords(m.theirs, q, 0, Times(n, q.shape.size), lims.theirs)
    ensures var a := ElementsWalk(m, p.from, p.shape.size, q.from, q.shape.size, n, lims, rank);
            var b := ElementsWalk(m, p.from, p.shape.size, q.from, q.shape.size, n, FREE, rank);
            && OnlyRefused(a, b)
            && (rich ==>
                  && a.r == b.r && Pays(m.ours, p, 0, Times(n, p.shape.size), lims.ours, a.lims.ours)
                  && Pays(m.theirs, q, 0, Times(n, q.shape.size), lims.theirs, a.lims.theirs))
    decreases rank, 3, n
  {
    hide StructWalk, CostBelow, EnoughFor, IsPtrSlot;
    if n > 0 {
      var size, size', e := p.shape.size, q.shape.size, n - 1;
      Between(m.ours, p, 0, Times(e, size), Times(n, size), Times(n, size));
      Between(m.theirs, q, 0, Times(e, size'), Times(n, size'), Times(n, size'));
      ElementsFree(m, p, q, e, lims, rank, rich);
      ElementPattern(p.shape, e);
      ElementPattern(q.shape, e);
      var before := ElementsWalk(m, p.from, size, q.from, size', e, lims, rank);
      if !Stops(before.r) {
        StructFree(m, p, Times(e, size), size, q, Times(e, size'), size', before.lims, rank, rich);
      }
    }
  }

  lemma ElementPattern(shape: Shape, e: nat)
    requires shape.CompositeShape? && e < shape.count
    ensures forall k :: Times(e, shape.size) + shape.size.data <= k < Times(e, shape.size) + shape.size.Total() ==>
              IsPtrSlot(shape, k)
  {
    var base, size := Times(e, shape.size), shape.size;
    forall k | base + size.data <= k < base + size.Total()
      ensures IsPtrSlot(shape, k)
    {
      SlotOfElement(e, size, k - base);
    }
  }

  lemma {:induction false} SectionFree(m: Sides, p: Reach, lo: nat, q: Reach, lo': nat, n: nat, lims: Limits, rank: nat,
                                       rich: bool)
    requires Inside(m.ours, p.shape, p.from) && Inside(m.theirs, q.shape, q.from)
    requires lo + n <= Words(p.shape) && lo' + n <= Words(q.shape)
    requires forall k :: lo <= k < lo + n ==> IsPtrSlot(p.shape, k)
    requires forall k :: lo' <= k < lo' + n ==> IsPtrSlot(q.shape, k)
    requires rich ==> Affords(m.ours, p, lo, lo + n, lims.ours) && Affords(m.theirs, q, lo', lo' + n, lims.theirs)
    ensures var a := SectionWalk(m, Slot(p.from, lo), Slot(q.from, lo'), n, lims, rank);
            var b := SectionWalk(m, Slot(p.from, lo), Slot(q.from, lo'), n, FREE, rank);
            && OnlyRefused(a, b)
            && (rich ==>
                  && a.r == b.r && Pays(m.ours, p, lo, lo + n, lims.ours, a.lims.ours)
                  && Pays(m.theirs, q, lo', lo' + n, lims.theirs, a.lims.theirs))
    decreases rank, 1, n
  {
    hide SlotWalk, CostBelow, EnoughFor, IsPtrSlot, Words, SlotCost;
    if n > 0 {
      var k, k' := lo + n - 1, lo' + n - 1;
      Between(m.ours, p, lo, k, lo + n, lo + n);
      Between(m.theirs, q, lo', k', lo' + n, lo' + n);
      SectionFree(m, p, lo, q, lo', n - 1, lims, rank, rich);
      OneSlot(m.ours, p, k);
      OneSlot(m.theirs, q, k');
      assert Slot(Slot(p.from, lo), n - 1) == Slot(p.from, k) && Slot(Slot(q.from, lo'), n - 1) == Slot(q.from, k');
      var before := SectionWalk(m, Slot(p.from, lo), Slot(q.from, lo'), n - 1, lims, rank);
      var free := SectionWalk(m, Slot(p.from, lo), Slot(q.from, lo'), n - 1, FREE, rank);
      if !Stops(before.r) {
        SlotFree(m, p, k, q, k', before, free, rank, rich);
      }
    }
  }

  lemma OneSlot(mem: Mem, p: Reach, k: nat)
    requires Inside(mem, p.shape, p.from) && k < Words(p.shape)
    ensures Upto(mem, p, k + 1) == Upto(mem, p, k) + SlotCost(mem, p.shape, p.from, k, p.d)
  {
    hide Words, IsPtrSlot, SourceCost;
  }

  lemma {:induction false} SlotFree(m: Sides, p: Reach, k: nat, q: Reach, k': nat, before: Walk, free: Walk, rank: nat,
                                    rich: bool)
    requires Inside(m.ours, p.shape, p.from) && Inside(m.theirs, q.shape, q.from)
    requires k < Words(p.shape) && k' < Words(q.shape) && IsPtrSlot(p.shape, k) && IsPtrSlot(q.shape, k')
    requires before.r == free.r && free.lims == FREE && !Stops(free.r)
    requires rich ==> EnoughFor(m.ours, p.shape, p.from, Unlimited, p.d)
                      && EnoughFor(m.theirs, q.shape, q.from, Unlimited, q.d)
    requires rich && before.lims.ours.Limited? ==>
               SlotCost(m.ours, p.shape, p.from, k, p.d) <= before.lims.ours.left
    requires rich && before.lims.theirs.Limited? ==>
               SlotCost(m.theirs, q.shape, q.from, k', q.d) <= before.lims.theirs.left
    ensures var a := SlotWalk(m, Slot(p.from, k), Slot(q.from, k'), before, rank);
            var b := SlotWalk(m, Slot(p.from, k), Slot(q.from, k'), free, rank);
            && OnlyRefused(a, b)
            && (rich ==>
                  && a.r == b.r
                  && (before.lims.ours.Limited? ==>
                        && a.lims.ours.Limited?
                        && a.lims.ours.left + SlotCost(m.ours, p.shape, p.from, k, p.d) >= before.lims.ours.left)
                  && (before.lims.theirs.Limited? ==>
                        && a.lims.theirs.Limited?
                        && a.lims.theirs.left + SlotCost(m.theirs, q.shape, q.from, k', q.d)
                           >= before.lims.theirs.left))
    decreases rank, 0, 0
  {
    hide PairWalk, SourceCost, EnoughFor, IsPtrSlot, Words, Acyclic, SlotCost;
    var at, bt := Slot(p.from, k), Slot(q.from, k');
    if GoesDown(m, at, bt, rank) {
      var d, d' := Below(p.d), Below(q.d);
      if rich {
        SlotAffords(m.ours, p, k, before.lims.ours);
        SlotAffords(m.theirs, q, k', before.lims.theirs);
      }
      PairFree(m, at, bt, before.lims, if rank > 1 then rank - 2 else 0, d, d', rich);
    }
  }

  function Below(d: nat): nat {
    if d > 0 then d - 1 else 0
  }

  /** What a pointer of the content costs is what its pair costs; a null pointer costs nothing. */
  lemma SlotAffords(mem: Mem, p: Reach, k: nat, lim: Limiter)
    requires Inside(mem, p.shape, p.from) && k < Words(p.shape) && IsPtrSlot(p.shape, k)
    requires EnoughFor(mem, p.shape, p.from, Unlimited, p.d)
    requires lim.Limited? ==> SlotCost(mem, p.shape, p.from, k, p.d) <= lim.left
    ensures InMem(mem, Slot(p.from, k)) && PairAffords(mem, Slot(p.from, k), lim, Below(p.d))
    ensures SourceCost(mem, Slot(p.from, k), Below(p.d)) == SlotCost(mem, p.shape, p.from, k, p.d)
  {
    hide SourceCost, Acyclic, IsPtrSlot, Words;
    var at := Slot(p.from, k);
    if At(mem, at).IsNull() {
      NullCosts(mem, at, Below(p.d));
    } else {
      assert p.d > 0 && Enough(mem, at, Unlimited, p.d - 1);
    }
  }

  lemma NullCosts(mem: Mem, at: Addr, d: nat)
    requires InMem(mem, at) && At(mem, at).IsNull()
    ensures SourceCost(mem, at, d) == 0 && Acyclic(mem, at, d)
  {
    hide TryReadTyped, Cost;
    NullReads(mem, at, Unlimited);
    NullReads(mem, at, Limited(0));
    ReadingMetered(mem, at, 0);
  }

  // ----- Fuel

  /** The walk ends: on one of the sides its limiter runs out, or the content is that shallow. */
  ghost predicate ContentEnds(m: Sides, byOurs: bool, shape: Shape, start: Addr, shape': Shape, start': Addr,
                              lims: Limits, rank: nat) {
    if rank == 0 then shape == StructShape(EMPTY) || shape' == StructShape(EMPTY)
    else if byOurs then EnoughFor(m.ours, shape, start, lims.ours, rank - 1)
    else EnoughFor(m.theirs, shape', start', lims.theirs, rank - 1)
  }

  ghost predicate SectionEnds(m: Sides, byOurs: bool, start: Addr, start': Addr, n: nat, lims: Limits, rank: nat) {
    if rank == 0 then n == 0
    else if byOurs then EnoughIn(m.ours, start, 0, n, lims.ours, rank - 1)
    else EnoughIn(m.theirs, start', 0, n, lims.theirs, rank - 1)
  }

  ghost predicate PairEnds(m: Sides, byOurs: bool, at: Addr, bt: Addr, lims: Limits, fuel: nat) {
    if byOurs then Enough(m.ours, at, lims.ours, fuel) else Enough(m.theirs, bt, lims.theirs, fuel)
  }

  /** A walk that ends is the same with more fuel. */
  lemma {:induction false} PairFuel(m: Sides, at: Addr, bt: Addr, lims: Limits, fuel: nat, more: nat, byOurs: bool)
    requires InMem(m.ours, at) && InMem(m.theirs, bt) && fuel <= more
    requires !EitherNull(m, at, bt) ==> PairEnds(m, byOurs, at, bt, lims, fuel)
    ensures PairWalk(m, at, bt, lims, more) == PairWalk(m, at, bt, lims, fuel)
    decreases if EitherNull(m, at, bt) then 0 else fuel + 1, 6, 0
  {
    hide TryReadTyped, Words, EnoughFor, Acyclic, TargetWalk, ContentWalk;
    if !(At(m.ours, at).IsNull() && At(m.theirs, bt).IsNull()) {
      ReaderSound(m.ours, at, lims.ours);
      ReaderSound(m.theirs, bt, lims.theirs);
      var our, their := TryReadTyped(m.ours, at, lims.ours), TryReadTyped(m.theirs, bt, lims.theirs);
      if our.result.Ok? && their.result.Ok? && our.result.value.Object? && their.result.value.Object? {
        var p, q, after := our.result.value, their.result.value, Limits(our.lim, their.lim);
        if EitherNull(m, at, bt) {
          NullIsNothing(m.ours, at, lims.ours);
          NullIsNothing(m.theirs, bt, lims.theirs);
        } else {
          if byOurs {
            EnoughForContent(m.ours, at, lims.ours, fuel);
          } else {
            EnoughForContent(m.theirs, bt, lims.theirs, fuel);
          }
          ContentFuel(m, p.shape, p.start, q.shape, q.start, after, fuel + 1, more + 1, byOurs);
          ObjectsWalk(m, p, q, after, fuel + 1);
          ObjectsWalk(m, p, q, after, more + 1);
        }
      } else if our.result.Ok? && their.result.Ok? && !EitherNull(m, at, bt) {
        OthersWalk(m, our.result.value, their.result.value, Limits(our.lim, their.lim), fuel + 1);
        OthersWalk(m, our.result.value, their.result.value, Limits(our.lim, their.lim), more + 1);
      }
    }
  }

  lemma {:induction false} ContentFuel(m: Sides, shape: Shape, start: Addr, shape': Shape, start': Addr, lims: Limits,
                                       rank: nat, more: nat, byOurs: bool)
    requires SectionIn(m.ours, start, Words(shape)) && SectionIn(m.theirs, start', Words(shape')) && 0 < rank <= more
    requires ContentEnds(m, byOurs, shape, start, shape', start', lims, rank)
    ensures ContentWalk(m, shape, start, shape', start', lims, more)
         == ContentWalk(m, shape, start, shape', start', lims, rank)
    decreases rank, 4, 0
  {
    hide EnoughFor, EnoughIn, ListWords, Times, SameData, StructWalk, ElementsWalk, SectionWalk;
    if shape.StructShape? && shape'.StructShape? {
      if byOurs {
        EnoughFields(m.ours, shape.size, start, lims.ours, rank - 1);
      } else {
        EnoughFields(m.theirs, shape'.size, start', lims.theirs, rank - 1);
      }
      StructFuel(m, start, shape.size, start', shape'.size, lims, rank, more, byOurs);
    } else if shape.CompositeShape? && shape'.CompositeShape? && shape.count == shape'.count {
      ElementsFuel(m, shape, start, shape', start', shape.count, lims, rank, more, byOurs);
    } else if shape.ListShape? && shape' == shape && shape.element == Pointer {
      PointerListWords(shape.count);
      if byOurs {
        EnoughPart(m.ours, shape, start, 0, shape.count, lims.ours, rank - 1);
      } else {
        EnoughPart(m.theirs, shape', start', 0, shape.count, lims.theirs, rank - 1);
      }
      SectionFuel(m, start, start', shape.count, lims, rank, more, byOurs);
    }
  }

  lemma {:induction false} StructFuel(m: Sides, start: Addr, size: StructSize, start': Addr, size': StructSize,
                                      lims: Limits, rank: nat, more: nat, byOurs: bool)
    requires SectionIn(m.ours, start, size.Total()) && SectionIn(m.theirs, start', size'.Total()) && 0 < rank <= more
    requires if byOurs then EnoughIn(m.ours, Slot(start, size.data), 0, size.ptrs, lims.ours, rank - 1)
             else EnoughIn(m.theirs, Slot(start', size'.data), 0, size'.ptrs, lims.theirs, rank - 1)
    ensures StructWalk(m, start, size, start', size', lims, more)
         == StructWalk(m, start, size, start', size', lims, rank)
    decreases rank, 2, 0
  {
    hide SectionWalk, EnoughIn;
    var n: nat := if size.ptrs < size'.ptrs then size.ptrs else size'.ptrs;
    if byOurs {
      EnoughFewer(m.ours, Slot(start, size.data), 0, size.ptrs, n, lims.ours, rank - 1);
    } else {
      EnoughFewer(m.theirs, Slot(start', size'.data), 0, size'.ptrs, n, lims.theirs, rank - 1);
    }
    SectionFuel(m, Slot(start, size.data), Slot(start', size'.data), n, lims, rank, more, byOurs);
  }

  lemma {:induction false} ElementsFuel(m: Sides, shape: Shape, start: Addr, shape': Shape, start': Addr, n: nat,
                                        lims: Limits, rank: nat, more: nat, byOurs: bool)
    requires shape.CompositeShape? && shape'.CompositeShape? && n <= shape.count && n <= shape'.count
    requires SectionIn(m.ours, start, Times(n, shape.size)) && SectionIn(m.theirs, start', Times(n, shape'.size))
    requires 0 < rank <= more && ContentEnds(m, byOurs, shape, start, shape', start', lims, rank)
    ensures ElementsWalk(m, start, shape.size, start', shape'.size, n, lims, more)
         == ElementsWalk(m, start, shape.size, start', shape'.size, n, lims, rank)
    decreases rank, 3, n
  {
    hide EnoughFor, EnoughIn, StructWalk, IsPtrSlot;
    if n > 0 {
      var e := n - 1;
      ElementsFuel(m, shape, start, shape', start', e, lims, rank, more, byOurs);
      var before := ElementsWalk(m, start, shape.size, start', shape'.size, e, lims, rank);
      if !Stops(before.r) {
        if byOurs {
          EnoughLater(m.ours, shape, start, lims.ours, before.lims.ours, rank - 1);
          EnoughElement(m.ours, shape, start, e, before.lims.ours, rank - 1);
        } else {
          EnoughLater(m.theirs, shape', start', lims.theirs, before.lims.theirs, rank - 1);
          EnoughElement(m.theirs, shape', start', e, before.lims.theirs, rank - 1);
        }
        StructFuel(m, Slot(start, Times(e, shape.size)), shape.size, Slot(start', Times(e, shape'.size)), shape'.size,
                   before.lims, rank, more, byOurs);
      }
    }
  }

  lemma {:induction false} SectionFuel(m: Sides, start: Addr, start': Addr, n: nat, lims: Limits, rank: nat, more: nat,
                                       byOurs: bool)
    requires SectionIn(m.ours, start, n) && SectionIn(m.theirs, start', n) && 0 < rank <= more
    requires SectionEnds(m, byOurs, start, start', n, lims, rank)
    ensures SectionWalk(m, start, start', n, lims, more) == SectionWalk(m, start, start', n, lims, rank)
    decreases rank, 1, n
  {
    hide Enough, PairWalk;
    if n > 0 {
      SectionFuel(m, start, start', n - 1, lims, rank, more, byOurs);
      var before := SectionWalk(m, start, start', n - 1, lims, rank);
      if !Stops(before.r) {
        if byOurs {
          EnoughStill(m.ours, start, 0, n, lims.ours, before.lims.ours, rank - 1);
        } else {
          EnoughStill(m.theirs, start', 0, n, lims.theirs, before.lims.theirs, rank - 1);
        }
        SlotFuel(m, Slot(start, n - 1), Slot(start', n - 1), before, rank, more, byOurs);
      }
    }
  }

  lemma {:induction false} SlotFuel(m: Sides, at: Addr, bt: Addr, before: Walk, rank: nat, more: nat, byOurs: bool)
    requires InMem(m.ours, at) && InMem(m.theirs, bt) && 0 < rank <= more && !Stops(before.r)
    requires byOurs && !At(m.ours, at).IsNull() ==> rank > 1 && Enough(m.ours, at, before.lims.ours, rank - 2)
    requires !byOurs && !At(m.theirs, bt).IsNull() ==> rank > 1 && Enough(m.theirs, bt, before.lims.theirs, rank - 2)
    ensures SlotWalk(m, at, bt, before, more) == SlotWalk(m, at, bt, before, rank)
    decreases rank, 0, 0
  {
    hide PairWalk, Enough;
    PairFuel(m, at, bt, before.lims, if rank > 1 then rank - 2 else 0, if more > 1 then more - 2 else 0, byOurs);
  }

  // ----- What a comparison under limiters says

  /** Both sides have what reading everything costs. */
  ghost predicate Affordable(m: Sides, at: Addr, bt: Addr, lims: Limits)
    requires InMem(m.ours, at) && InMem(m.theirs, bt)
  {
    && (exists d :: PairAffords(m.ours, at, lims.ours, d))
    && (exists d :: PairAffords(m.theirs, bt, lims.theirs, d))
  }

  /**
   Where both pointers have a meaning, the outcome is the comparison of the meanings, or a limiter ran out; and
   limiters that have the words do not.
   */
  lemma MeaningsCompared(m: Sides, at: Addr, bt: Addr, lims: Limits, fuel: nat, byOurs: bool, v: Value, w: Value)
    requires Means(m.ours, at, v) && Means(m.theirs, bt, w) && InMem(m.ours, at) && InMem(m.theirs, bt)
    requires !EitherNull(m, at, bt) ==> PairEnds(m, byOurs, at, bt, lims, fuel)
    ensures Formed(v) && Formed(w)
    ensures var r := PairWalk(m, at, bt, lims, fuel).r;
            && (r == Ok(Cmp(v, w)) || r == Err(ReadLimitExceeded))
            && (Affordable(m, at, bt, lims) ==> r == Ok(Cmp(v, w)))
  {
    hide PairWalk, Denotes, Enough, Formed, Cmp, Acyclic, SourceCost;
    var d := MeaningEnds(m.ours, at, v);
    var more := if fuel > d then fuel else d;
    PairFuel(m, at, bt, lims, fuel, more, byOurs);
    PairMeans(m, at, bt, more, true, v, w);
    PairFree(m, at, bt, lims, more, 0, 0, false);
    if Affordable(m, at, bt, lims) {
      var a :| PairAffords(m.ours, at, lims.ours, a);
      var b :| PairAffords(m.theirs, bt, lims.theirs, b);
      PairFree(m, at, bt, lims, more, a, b, true);
    }
  }

  /** A pointer that cannot be read is an error, ours before theirs; only two null pointers are not read. */
  lemma UnreadableIsAnError(m: Sides, at: Addr, bt: Addr, fuel: nat)
    requires InMem(m.ours, at) && InMem(m.theirs, bt)
    ensures var r := PairWalk(m, at, bt, FREE, fuel).r;
            && (Resolve(m.ours, at).Err? && Resolve(m.theirs, bt).Ok? ==> r == Err(Resolve(m.ours, at).error))
            && (Resolve(m.theirs, bt).Err? && Resolve(m.ours, at).Ok? ==> r == Err(Resolve(m.theirs, bt).error))
            && (Resolve(m.ours, at).Err? && Resolve(m.theirs, bt).Err? ==> r == Err(Resolve(m.ours, at).error))
  {
    hide TryReadTyped, TargetWalk;
    LimiterOnlyRefuses(m.ours, at, Unlimited);
    LimiterOnlyRefuses(m.theirs, bt, Unlimited);
    NullIsNothing(m.ours, at, Unlimited);
    NullIsNothing(m.theirs, bt, Unlimited);
  }
}
