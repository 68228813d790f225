/**
 Opening a list for writing: `to_list_mut_inner` and the element size it upgrades to.
 */
module Upgrading {
  import opened Options
  import opened Wire
  import opened Reader
  import opened Values
  import opened Layout
  import opened Putting
  import opened Promotion
  import opened ListPromotion
  import opened DataPromotion
  import opened PointerPromotion
  import opened PromotingLists
  import opened ArenaHeap

  /** The element size of a list, as `ElementSize`. */
  datatype ElementSize = Plain(element: PtrElementSize) | Structs(size: StructSize)

  datatype Upgrade = NoUpgrade | UpgradeTo(size: ElementSize)

  /** `upgrade_to`. */
  function UpgradeFrom(from: ElementSize, to: ElementSize): Upgrade {
    if from == to then UpgradeTo(to)
    else if from.Structs? && to.Structs? then UpgradeTo(Structs(from.size.Max(to.size)))
    else if from == Plain(Bit) || to == Plain(Bit) then NoUpgrade
    else if from.Structs? && to == Plain(Pointer) then
      if from.size.ptrs == 0 then NoUpgrade else UpgradeTo(from)
    else if from == Plain(Pointer) && to.Structs? then
      if to.size.ptrs == 0 then NoUpgrade else UpgradeTo(to)
    else if from.Structs? then
      if from.size.data == 0 && to != Plain(Void) then NoUpgrade else UpgradeTo(from)
    else if to.Structs? then
      if to.size.data == 0 && from != Plain(Void) then NoUpgrade else UpgradeTo(to)
    else NoUpgrade
  }

  /** Whether elements of one size can be found in elements of another. */
  predicate Holds(outer: ElementSize, inner: ElementSize) {
    match outer
    case Plain(_) => inner == outer
    case Structs(size) =>
      match inner
      case Structs(smaller) => smaller.FitsInside(size)
      case Plain(Void) => true
      case Plain(Bit) => false
      case Plain(Pointer) => size.ptrs > 0
      case Plain(_) => size.data > 0
  }

  /**
   An upgrade is the least size with room for what the list holds and for what is asked for. There is one
   exactly if both are structs, or one of the two sizes has room for the other.
   */
  lemma UpgradeHoldsBoth(from: ElementSize, to: ElementSize)
    requires from != Plain(InlineComposite) && to != Plain(InlineComposite)
    ensures var r := UpgradeFrom(from, to);
            && (r.UpgradeTo? ==>
                  && Holds(r.size, from) && Holds(r.size, to) && (r.size == from || r.size.Structs?)
                  && forall size :: Holds(size, from) && Holds(size, to) ==> Holds(size, r.size))
            && (r.NoUpgrade? <==> !(from.Structs? && to.Structs?) && !Holds(from, to) && !Holds(to, from))
  {
  }

  /** The order of the two sizes does not matter, and upgrading again, to either of them, changes nothing. */
  lemma UpgradeAgain(from: ElementSize, to: ElementSize)
    requires from != Plain(InlineComposite) && to != Plain(InlineComposite)
    ensures UpgradeFrom(from, to) == UpgradeFrom(to, from)
    ensures var r := UpgradeFrom(from, to);
            r.UpgradeTo? ==> UpgradeFrom(r.size, r.size) == UpgradeFrom(r.size, from) == UpgradeFrom(r.size, to) == r
  {
  }

  /** Structs of this size are promoted to from lists of that element size. */
  predicate Promotable(from: ElementSize, newSize: StructSize) {
    match from
    case Structs(size) => size.FitsInside(newSize) && newSize.Total() > 0
    case Plain(Void) => true
    case Plain(Pointer) => newSize.ptrs > 0
    case Plain(element) => IsCopied(element) && newSize.data > 0
  }

  /** An upgrade that changes anything is to structs the elements can be promoted to. */
  lemma UpgradeIsPromotable(from: ElementSize, to: ElementSize)
    requires from != Plain(InlineComposite)
    requires UpgradeFrom(from, to).UpgradeTo? && UpgradeFrom(from, to).size != from
    ensures UpgradeFrom(from, to).size.Structs? && Promotable(from, UpgradeFrom(from, to).size.size)
  {
    if from.Structs? {
      if to.Structs? {
        LargerStructs(from.size, to.size);
      }
    } else if from.element == Pointer {
      assert to.Structs?;
    }
  }

  lemma LargerStructs(size: StructSize, to: StructSize)
    ensures size.FitsInside(size.Max(to))
    ensures size.Max(to) != size ==> size.Max(to).Total() > 0
  {
  }

  // ----- Opening a list

  datatype Opening = Opened(start: Addr, size: ElementSize) | Incompatible | Refused

  /** What the list has to become: what it is, when nothing is expected of it. */
  function Wanted(existing: ElementSize, expected: Option<ElementSize>): Upgrade {
    if expected.None? then UpgradeTo(existing) else UpgradeFrom(existing, expected.value)
  }

  function ListShapeOf(size: ElementSize, count: u29): Shape {
    match size
    case Plain(element) => ListShape(element, count)
    case Structs(size) => CompositeShape(size, count)
  }

  predicate IsList(mem: Mem, at: Addr, existing: ElementSize, count: u29, start: Addr) {
    InMem(mem, at) && Resolve(mem, at) == Ok(Object(ListShapeOf(existing, count), start))
  }

  /** The list is held by one pointer only, with the cells of its structs or the values of its pointers. */
  ghost predicate Held(mem: Mem, at: Addr, existing: ElementSize, count: u29, start: Addr, cells: seq<Cell>,
                       values: seq<Value>, avoid: iset<Addr>)
  {
    && IsList(mem, at, existing, count, start) && existing != Plain(InlineComposite) && avoid <= AllWords(mem)
    && match existing
       case Structs(size) => HeldList(mem, at, size, count, start, cells, avoid)
       case Plain(Pointer) => HeldPointers(mem, at, count, start, values, avoid)
       case Plain(element) => IsCopied(element) ==> HeldPlain(mem, at, element, count, start)
  }

  /** The promotion of a list to structs of `newSize`. */
  function Upgraded(st: St, at: Addr, existing: ElementSize, count: u29, start: Addr, newSize: StructSize): ListPromoted
    requires ValidSt(st) && IsList(st.mem, at, existing, count, start)
    requires Promotable(existing, newSize) && Bounded(CompositeShape(newSize, count))
  {
    match existing
    case Structs(size) => PromoteList(st, at, size, count, start, newSize)
    case Plain(Pointer) => PromotePointers(st, at, count, start, newSize)
    case Plain(Void) => PromoteVoid(st, at, count, newSize)
    case Plain(element) => PromotePlain(st, at, element, count, start, newSize)
  }

  /** What it keeps, for each kind of list. */
  ghost predicate Preserved(st: St, at: Addr, existing: ElementSize, count: u29, start: Addr, cells: seq<Cell>,
                            values: seq<Value>, newSize: StructSize, avoid: iset<Addr>, r: ListPromoted)
    requires IsList(st.mem, at, existing, count, start)
  {
    match existing
    case Structs(size) => ListPreserved(st, at, size, count, start, cells, newSize, avoid, r)
    case Plain(Pointer) => PointersPreserved(st, at, count, start, values, newSize, avoid, r)
    case Plain(Void) => VoidPreserved(st, at, count, newSize, avoid, r)
    case Plain(element) =>
      && HasBody(st.mem, start, ListWords(element, count))
      && PlainPreserved(st, at, element, count, start, newSize, avoid, r)
  }

  lemma UpgradePreserves(st: St, at: Addr, existing: ElementSize, count: u29, start: Addr, newSize: StructSize,
                         cells: seq<Cell>, values: seq<Value>, avoid: iset<Addr>)
    requires ValidSt(st) && Held(st.mem, at, existing, count, start, cells, values, avoid)
    requires IsList(st.mem, at, existing, count, start) && Promotable(existing, newSize)
    requires Askable(CompositeShape(newSize, count)) && Bounded(CompositeShape(newSize, count))
    ensures Preserved(st, at, existing, count, start, cells, values, newSize, avoid,
                      Upgraded(st, at, existing, count, start, newSize))
  {
    hide Resolve, HeldList, HeldPointers, HeldPlain, PromoteList, PromotePointers, PromoteVoid, PromotePlain,
         ListPreserved, PointersPreserved, VoidPreserved, PlainPreserved, Askable, Bounded, ListWords;
    if existing.Structs? {
      ListPromotionPreserves(st, at, existing.size, count, start, cells, newSize, avoid);
    } else if existing.element == Pointer {
      PointerPromotionPreserves(st, at, count, start, values, newSize, avoid);
    } else if existing.element == Void {
      VoidPromotionPreserves(st, at, count, newSize, avoid);
    } else {
      PlainPromotionPreserves(st, at, existing.element, count, start, newSize, avoid);
    }
  }

  /** A list whose promotion was refused: only structs and pointers are refused on the way. */
  lemma RefusedUpgrade(st: St, at: Addr, existing: ElementSize, count: u29, start: Addr, newSize: StructSize,
                       cells: seq<Cell>, values: seq<Value>, avoid: iset<Addr>)
    requires ValidSt(st) && Held(st.mem, at, existing, count, start, cells, values, avoid)
    requires IsList(st.mem, at, existing, count, start) && Promotable(existing, newSize)
    requires Askable(CompositeShape(newSize, count)) && Bounded(CompositeShape(newSize, count))
    requires Upgraded(st, at, existing, count, start, newSize).ListNotPromoted?
    ensures LeftBehind(st, at, CompositeShape(newSize, count),
                       Upgraded(st, at, existing, count, start, newSize).st.mem)
  {
    hide Resolve, HeldList, HeldPointers, HeldPlain, PromoteList, PromotePointers, Askable, Bounded, ListWords,
         LeftBehind, Layout.AllocObject, ClearPtrs, WriteElements, Times;
    if existing.Structs? {
      RefusedList(st, at, existing.size, count, start, cells, newSize, avoid);
    } else if existing.element == Pointer {
      RefusedPointers(st, at, count, start, values, newSize, avoid);
    } else {
      AllocObjectGood(ClearPtrs(st, at), at, CompositeShape(newSize, count));
      NoRoomLeaves(st, at, CompositeShape(newSize, count));
    }
  }

  /**
   `to_list_mut_inner` on a list that is held by this pointer only. A list that needs no upgrade stays as it
   is, one that cannot be upgraded is left alone and refused, and any other is promoted; the elements of
   what is opened have room for what was held and for what is expected.
   */
  method ToListMutInner(arena: Arena, at: Addr, existing: ElementSize, count: u29, start: Addr,
                        expected: Option<ElementSize>, ghost cells: seq<Cell>, ghost values: seq<Value>,
                        ghost avoid: iset<Addr>)
    returns (r: Opening)
    requires arena.Valid() && Held(arena.st.mem, at, existing, count, start, cells, values, avoid)
    requires expected != Some(Plain(InlineComposite))
    requires var wanted := Wanted(existing, expected);
             wanted.UpgradeTo? && wanted.size.Structs? && wanted.size != existing ==>
               Askable(CompositeShape(wanted.size.size, count))
    modifies arena.Repr
    ensures arena.Valid() && fresh(arena.Repr - old(arena.Repr))
    ensures r.Incompatible? <==> Wanted(existing, expected).NoUpgrade?
    ensures r.Incompatible? || Wanted(existing, expected) == UpgradeTo(existing) ==> arena.st == old(arena.st)
    ensures Wanted(existing, expected) == UpgradeTo(existing) ==> r == Opened(start, existing)
    ensures r.Opened? ==>
              && Wanted(existing, expected) == UpgradeTo(r.size) && Holds(r.size, existing)
              && (expected.Some? ==> Holds(r.size, expected.value))
    ensures var wanted := Wanted(existing, expected);
            wanted.UpgradeTo? && wanted.size != existing ==>
              && wanted.size.Structs? && Promotable(existing, wanted.size.size)
              && Bounded(CompositeShape(wanted.size.size, count))
              && var promoted := Upgraded(old(arena.st), at, existing, count, start, wanted.size.size);
                 && arena.st == promoted.st
                 && r == (if promoted.ListPromoted? then Opened(promoted.start, wanted.size) else Refused)
                 && Preserved(old(arena.st), at, existing, count, start, cells, values, wanted.size.size, avoid,
                              promoted)
                 && (r.Refused? ==>
                       LeftBehind(old(arena.st), at, CompositeShape(wanted.size.size, count), arena.st.mem))
  {
    hide Resolve, Held, Upgraded, Preserved, Askable, Bounded, Holds, UpgradeFrom, Promotable, LeftBehind;
    HeldIsList(arena.st.mem, at, existing, count, start, cells, values, avoid);
    if expected.None? {
      UpgradeHoldsBoth(existing, existing);
      SameUpgrade(existing);
      return Opened(start, existing);
    }
    UpgradeHoldsBoth(existing, expected.value);
    var wanted := UpgradeFrom(existing, expected.value);
    if wanted.NoUpgrade? {
      r := Incompatible;
    } else if wanted.size == existing {
      r := Opened(start, existing);
    } else {
      UpgradeIsPromotable(existing, expected.value);
      AskableIsBounded(CompositeShape(wanted.size.size, count));
      ghost var st := arena.st;
      if Upgraded(st, at, existing, count, start, wanted.size.size).ListNotPromoted? {
        RefusedUpgrade(st, at, existing, count, start, wanted.size.size, cells, values, avoid);
      }
      var ok, newStart := PromoteTo(arena, at, existing, count, start, wanted.size.size, cells, values, avoid);
      r := if ok then Opened(newStart, wanted.size) else Refused;
    }
  }

  lemma SameUpgrade(size: ElementSize)
    ensures UpgradeFrom(size, size) == UpgradeTo(size)
  {
  }

  lemma HeldIsList(mem: Mem, at: Addr, existing: ElementSize, count: u29, start: Addr, cells: seq<Cell>,
                   values: seq<Value>, avoid: iset<Addr>)
    requires Held(mem, at, existing, count, start, cells, values, avoid)
    ensures IsList(mem, at, existing, count, start) && existing != Plain(InlineComposite)
  {
    hide Resolve;
  }

  /** The promotion, by what the list holds. */
  method PromoteTo(arena: Arena, at: Addr, existing: ElementSize, count: u29, start: Addr, newSize: StructSize,
                   ghost cells: seq<Cell>, ghost values: seq<Value>, ghost avoid: iset<Addr>)
    returns (ok: bool, newStart: Addr)
    requires arena.Valid() && Held(arena.st.mem, at, existing, count, start, cells, values, avoid)
    requires IsList(arena.st.mem, at, existing, count, start) && Promotable(existing, newSize)
    requires Askable(CompositeShape(newSize, count)) && Bounded(CompositeShape(newSize, count))
    modifies arena.Repr
    ensures arena.Valid() && fresh(arena.Repr - old(arena.Repr))
    ensures arena.st == Upgraded(old(arena.st), at, existing, count, start, newSize).st
    ensures ok == Upgraded(old(arena.st), at, existing, count, start, newSize).ListPromoted?
    ensures ok ==> newStart == Upgraded(old(arena.st), at, existing, count, start, newSize).start
    ensures Preserved(old(arena.st), at, existing, count, start, cells, values, newSize, avoid,
                      Upgraded(old(arena.st), at, existing, count, start, newSize))
  {
    hide Resolve, HeldList, HeldPointers, HeldPlain, PromoteList, PromotePointers, PromoteVoid, PromotePlain,
         ListPreserved, PointersPreserved, VoidPreserved, PlainPreserved, Askable, Bounded, ListWords;
    if existing.Structs? {
      ok, newStart := PromoteStructs(arena, at, existing.size, count, start, newSize, cells, avoid);
    } else if existing.element == Pointer {
      ok, newStart := PromotePointerList(arena, at, count, start, newSize, values, avoid);
    } else if existing.element == Void {
      ok, newStart := PromoteVoidList(arena, at, count, newSize, avoid);
    } else {
      ok, newStart := PromotePlainList(arena, at, existing.element, count, start, newSize, avoid);
    }
  }
}
