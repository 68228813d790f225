/**
 Sizing under a read limiter: a size is refused for the limiter exactly if reading the tree costs more than is left.
 */
module SizingCosts {
  import opened Wire
  import opened Reader
  import opened Values
  import opened Putting
  import opened ReadCosts
  import opened Auditing
  import opened Accounts
  import opened Sizing
  import opened Depths

  /**
   Sizing that reads `cost` words if it comes to an end: with as many words left it ends as it does without a
   limiter, and a size has charged them all; with fewer there is no size, and the limiter is the only reason if
   there is one without it.
   */
  predicate SizedUnder(limited: Sized, free: Sized, left: nat, cost: nat) {
    && free.lim == Unlimited && limited.lim.Limited?
    && if cost <= left then
         && limited.result == free.result && limited.lim.left + cost >= left
         && (free.result.Ok? ==> limited.lim.left + cost == left)
       else
         limited.result.Err? && (free.result.Ok? ==> limited.result == Err(ReadLimitExceeded))
  }

  lemma {:induction false} TargetUnder(mem: Mem, at: Addr, left: nat, nest: nat)
    requires InMem(mem, at)
    ensures SizedUnder(TargetSize(mem, at, Limited(left), nest), TargetSize(mem, at, Unlimited, nest), left,
                       SourceCost(mem, at, nest))
    decreases nest, 1, 0
  {
    hide TryReadTyped, Words, ObjectSize, ValidShape, Cost, CostBelow;
    ReaderSound(mem, at, Unlimited);
    ReaderSound(mem, at, Limited(left));
    LimiterOnlyRefuses(mem, at, Unlimited);
    ReadingMetered(mem, at, left);
    SizeIsCharged(mem, at, Unlimited, nest);
    if Resolve(mem, at).Ok? && Resolve(mem, at).value.Object? && Cost(mem, at) <= left {
      var Object(shape, start) := Resolve(mem, at).value;
      ObjectUnder(mem, shape, start, left - Cost(mem, at), nest);
    }
  }

  lemma {:induction false} ObjectUnder(mem: Mem, shape: Shape, start: Addr, left: nat, nest: nat)
    requires Inside(mem, shape, start) && HasBody(mem, start, Words(shape))
    ensures SizedUnder(ObjectSize(mem, shape, start, Limited(left), nest),
                       ObjectSize(mem, shape, start, Unlimited, nest), left,
                       CostBelow(mem, shape, start, Words(shape), nest))
    decreases nest, 0, 0
  {
    hide PtrsSize, CompositesSize, CostBelow, Times, ListWords, IsPtrOfStructs;
    if nest == 0 {
      NothingBelow(mem, shape, start, 0, Words(shape), nest);
    } else {
      match shape
      case StructShape(size) =>
        NothingBelow(mem, shape, start, 0, size.data, nest);
        PtrsUnder(mem, shape, start, size.data, size.ptrs, left, nest);
      case ListShape(element, count) =>
        if element == Pointer {
          PointerWords(count);
          NothingBelow(mem, shape, start, 0, 0, nest);
          PtrsUnder(mem, shape, start, 0, count, left, nest);
          assert Slot(start, 0) == start;
        } else {
          NothingBelow(mem, shape, start, 0, Words(shape), nest);
        }
      case CompositeShape(size, count) =>
        CompositesUnder(mem, shape, start, count, left, nest);
    }
  }

  /** Words that are no pointers cost nothing, nor do pointers that are not followed. */
  lemma {:induction false} NothingBelow(mem: Mem, shape: Shape, from: Addr, base: nat, n: nat, nest: nat)
    requires Inside(mem, shape, from) && base + n <= Words(shape)
    requires nest == 0 || forall i :: base <= i < base + n ==> !IsPtrSlot(shape, i)
    ensures CostBelow(mem, shape, from, base + n, nest) == CostBelow(mem, shape, from, base, nest)
    ensures CostBelow(mem, shape, from, 0, nest) == 0
    decreases n
  {
    hide SourceCost, Words, IsPtrSlot;
    if n > 0 {
      NothingBelow(mem, shape, from, base, n - 1, nest);
    }
  }

  lemma {:induction false} PtrsUnder(mem: Mem, shape: Shape, from: Addr, base: nat, n: nat, left: nat, nest: nat)
    requires Inside(mem, shape, from) && base + n <= Words(shape) && nest > 0
    requires forall i :: base <= i < base + n ==> IsPtrSlot(shape, i)
    ensures CostBelow(mem, shape, from, base, nest) <= CostBelow(mem, shape, from, base + n, nest)
    ensures SizedUnder(PtrsSize(mem, Slot(from, base), n, Limited(left), nest - 1),
                       PtrsSize(mem, Slot(from, base), n, Unlimited, nest - 1), left,
                       CostBelow(mem, shape, from, base + n, nest) - CostBelow(mem, shape, from, base, nest))
    decreases nest - 1, 2, n
  {
    hide TargetSize, SourceCost, Words, IsPtrSlot;
    if n > 0 {
      PtrsUnder(mem, shape, from, base, n - 1, left, nest);
      PtrsAreCharged(mem, Slot(from, base), n - 1, Unlimited, nest - 1);
      PtrsAreCharged(mem, Slot(from, base), n, Unlimited, nest - 1);
      assert Slot(Slot(from, base), n - 1) == Slot(from, base + n - 1);
      var before := PtrsSize(mem, Slot(from, base), n - 1, Limited(left), nest - 1);
      if before.result.Ok? && !At(mem, Slot(from, base + n - 1)).IsNull() {
        TargetUnder(mem, Slot(from, base + n - 1), before.lim.left, nest - 1);
      }
    }
  }

  lemma {:induction false} CompositesUnder(mem: Mem, shape: Shape, from: Addr, n: nat, left: nat, nest: nat)
    requires shape.CompositeShape? && Inside(mem, shape, from) && n <= shape.count && nest > 0
    requires HasBody(mem, from, Times(n, shape.size)) && Times(n, shape.size) <= Words(shape)
    ensures SizedUnder(CompositesSize(mem, from, shape.size, n, Limited(left), nest - 1),
                       CompositesSize(mem, from, shape.size, n, Unlimited, nest - 1), left,
                       CostBelow(mem, shape, from, Times(n, shape.size), nest))
    decreases nest - 1, 4, n
  {
    hide ElementTargets, CostBelow;
    if n == 0 {
      NothingBelow(mem, shape, from, 0, 0, nest);
    } else {
      var size := shape.size;
      CompositesUnder(mem, shape, from, n - 1, left, nest);
      CompositesAreCharged(mem, from, size, n - 1, Unlimited, nest - 1);
      CompositesAreCharged(mem, from, size, n, Unlimited, nest - 1);
      var before := CompositesSize(mem, from, size, n - 1, Limited(left), nest - 1);
      ElementUnder(mem, shape, from, n - 1, before.lim.left, nest);
    }
  }

  lemma {:induction false} ElementUnder(mem: Mem, shape: Shape, from: Addr, index: nat, left: nat, nest: nat)
    requires shape.CompositeShape? && Inside(mem, shape, from) && index < shape.count && nest > 0
    requires HasBody(mem, from, Times(index + 1, shape.size)) && Times(index + 1, shape.size) <= Words(shape)
    ensures CostBelow(mem, shape, from, Times(index, shape.size), nest)
         <= CostBelow(mem, shape, from, Times(index + 1, shape.size), nest)
    ensures SizedUnder(ElementTargets(mem, from, shape.size, index, Limited(left), nest - 1),
                       ElementTargets(mem, from, shape.size, index, Unlimited, nest - 1), left,
                       CostBelow(mem, shape, from, Times(index + 1, shape.size), nest)
                       - CostBelow(mem, shape, from, Times(index, shape.size), nest))
    decreases nest - 1, 3, 0
  {
    hide PtrsSize, CostBelow, IsPtrOfStructs, Inside;
    var size, base := shape.size, Times(index, shape.size);
    assert Times(index + 1, size) == base + size.data + size.ptrs;
    forall i | base <= i < base + size.Total()
      ensures IsPtrSlot(shape, i) <==> base + size.data <= i
    {
      SlotOfElement(index, size, i - base);
    }
    NothingBelow(mem, shape, from, base, size.data, nest);
    PtrsUnder(mem, shape, from, base + size.data, size.ptrs, left, nest);
  }

  /**
   When there is a size: exactly if the pointer has a meaning, no deeper than the nesting limit, and the limiter has
   the words that reading all of it costs.
   */
  lemma SizedIfMeant(mem: Mem, at: Addr, lim: Limiter, nest: nat)
    requires InMem(mem, at) && !At(mem, at).IsNull()
    ensures TargetSize(mem, at, lim, nest).result.Ok?
       <==> lim.Allows(SourceCost(mem, at, nest)) && exists v :: Means(mem, at, v) && Depth(v) <= nest
    ensures TargetSize(mem, at, lim, nest).result.Ok? ==>
              forall v :: Means(mem, at, v) ==> TargetSize(mem, at, lim, nest).result.value == SizeOf(v)
  {
    hide TargetSize, SourceCost, Denotes, Depth, SizeOf;
    if lim.Limited? {
      TargetUnder(mem, at, lim.left, nest);
    }
    if TargetSize(mem, at, Unlimited, nest).result.Ok? {
      var v := SizedMeans(mem, at, nest);
      SizedExactly(mem, at, v, nest);
      forall w | Means(mem, at, w)
        ensures w == v
      {
        MeaningIsUnique(mem, at, v, w, iset{}, iset{});
      }
    } else {
      forall v | Means(mem, at, v)
        ensures Depth(v) > nest
      {
        SizedExactly(mem, at, v, nest);
      }
    }
  }
}
