/**
 The meaning of a pointer: the tree of values a reader without limits finds behind it.

 An object is its shape and its content words in address order, where the words the shape calls
 pointers are replaced by what they refer to.
 */
module Values {
  import opened Wire
  import opened Reader

  datatype Value =
    | Null
    | Cap(index: u32)
    | Obj(shape: Shape, cells: seq<Cell>)

  datatype Cell = Data(word: Word) | Ref(value: Value)

  function Slot(start: Addr, i: nat): Addr {
    start.(off := start.off + i)
  }

  /** The landing pad words behind a pointer. */
  function Pads(mem: Mem, at: Addr): set<Addr>
    requires InMem(mem, at)
  {
    match Decode(At(mem, at))
    case FarPtr(off, double, seg) =>
      {Addr(seg, off)} + (if double then {Addr(seg, off + 1)} else {})
    case _ => {}
  }

  /** The tag word of an object, for the shapes that have one. */
  function Tags(target: Target): set<Addr> {
    if TagWords(target) == 1 && target.start.off > 0
    then {target.start.(off := target.start.off - 1)}
    else {}
  }

  ghost predicate Avoids(words: set<Addr>, avoid: iset<Addr>) {
    forall a :: a in words ==> a !in avoid
  }

  /**
   The pointer at `at` means `v`, and to find that out no word of `avoid` is read, the pointer itself
   excepted.
   */
  ghost predicate Denotes(mem: Mem, at: Addr, v: Value, avoid: iset<Addr>)
    decreases v
  {
    && InMem(mem, at)
    && match v
       case Null => At(mem, at).IsNull()
       case Cap(index) =>
         && !At(mem, at).IsNull()
         && Resolve(mem, at) == Ok(Capability(index))
         && Avoids(Pads(mem, at), avoid)
       case Obj(shape, cells) =>
         && !At(mem, at).IsNull()
         && Resolve(mem, at).Ok?
         && Resolve(mem, at).value.Object?
         && Resolve(mem, at).value.shape == shape
         && Avoids(Pads(mem, at) + Tags(Resolve(mem, at).value), avoid)
         && |cells| == Words(shape)
         && forall i :: 0 <= i < |cells| ==>
              CellAt(mem, Slot(Resolve(mem, at).value.start, i), cells[i], IsPtrSlot(shape, i), avoid)
  }

  ghost predicate CellAt(mem: Mem, at: Addr, cell: Cell, isPtr: bool, avoid: iset<Addr>)
    decreases cell
  {
    && at !in avoid
    && InMem(mem, at)
    && cell.Ref? == isPtr
    && match cell
       case Data(word) => At(mem, at) == word
       case Ref(value) => Denotes(mem, at, value, avoid)
  }

  ghost predicate Means(mem: Mem, at: Addr, v: Value) {
    Denotes(mem, at, v, iset{})
  }

  lemma NonNullMeaning(mem: Mem, at: Addr, v: Value, avoid: iset<Addr>)
    requires Denotes(mem, at, v, avoid)
    ensures InMem(mem, at) && (At(mem, at).IsNull() <==> v == Null)
  {
  }

  /** A pointer has at most one meaning. */
  lemma {:induction false} MeaningIsUnique(mem: Mem, at: Addr, v: Value, w: Value, avoid: iset<Addr>,
                                           avoid': iset<Addr>)
    requires Denotes(mem, at, v, avoid) && Denotes(mem, at, w, avoid')
    ensures v == w
    decreases v
  {
    hide Resolve, Words, IsPtrSlot;
    if v.Obj? {
      assert w.Obj?;
      forall i | 0 <= i < |v.cells|
        ensures v.cells[i] == w.cells[i]
      {
        var slot := Slot(Resolve(mem, at).value.start, i);
        assert CellAt(mem, slot, v.cells[i], IsPtrSlot(v.shape, i), avoid);
        assert CellAt(mem, slot, w.cells[i], IsPtrSlot(v.shape, i), avoid');
        if v.cells[i].Ref? {
          MeaningIsUnique(mem, slot, v.cells[i].value, w.cells[i].value, avoid, avoid');
        }
      }
    }
  }

  /** Avoiding two sets of words is avoiding their union. */
  lemma {:induction false} AvoidBoth(mem: Mem, at: Addr, v: Value, avoid: iset<Addr>, avoid': iset<Addr>,
                                     both: iset<Addr>)
    requires Denotes(mem, at, v, avoid) && Denotes(mem, at, v, avoid')
    requires both <= avoid + avoid'
    ensures Denotes(mem, at, v, both)
    decreases v
  {
    hide Resolve, Words, IsPtrSlot, Pads, Tags;
    if v.Obj? {
      forall i | 0 <= i < |v.cells|
        ensures CellAt(mem, Slot(Resolve(mem, at).value.start, i), v.cells[i], IsPtrSlot(v.shape, i), both)
      {
        var slot := Slot(Resolve(mem, at).value.start, i);
        assert CellAt(mem, slot, v.cells[i], IsPtrSlot(v.shape, i), avoid);
        assert CellAt(mem, slot, v.cells[i], IsPtrSlot(v.shape, i), avoid');
        if v.cells[i].Ref? {
          AvoidBoth(mem, slot, v.cells[i].value, avoid, avoid', both);
        }
      }
    }
  }

  // ----- Frames

  ghost predicate Grows(mem: Mem, mem': Mem) {
    |mem| <= |mem'| && forall s :: 0 <= s < |mem| ==> |mem[s]| <= |mem'[s]|
  }

  ghost predicate SameAt(mem: Mem, mem': Mem, a: Addr) {
    InMem(mem, a) ==> InMem(mem', a) && At(mem', a) == At(mem, a)
  }

  /** Segments only grow and every word outside `touched` keeps its value. */
  ghost predicate Keeps(mem: Mem, mem': Mem, touched: iset<Addr>) {
    && Grows(mem, mem')
    && forall a :: InMem(mem, a) && a !in touched ==> At(mem', a) == At(mem, a)
  }

  ghost function AllWords(mem: Mem): iset<Addr> {
    iset a: Addr | InMem(mem, a)
  }

  lemma ReadContentFrame(mem: Mem, mem': Mem, location: Location, offset: i30, len: nat)
    requires Grows(mem, mem')
    requires ReadContent(mem, location, offset, len, Unlimited).result.Ok?
    ensures ReadContent(mem', location, offset, len, Unlimited) == ReadContent(mem, location, offset, len, Unlimited)
  {
  }

  lemma LocationOfFrame(mem: Mem, mem': Mem, at: Addr)
    requires Grows(mem, mem') && InMem(mem, at) && SameAt(mem, mem', at)
    requires forall a :: a in Pads(mem, at) ==> SameAt(mem, mem', a)
    requires LocationOf(mem, at, Unlimited).result.Ok?
    ensures LocationOf(mem', at, Unlimited) == LocationOf(mem, at, Unlimited)
  {
    hide Decode;
    var wire := Decode(At(mem, at));
    if wire.FarPtr? {
      assert SameAt(mem, mem', Addr(wire.segment, wire.pad));
      if wire.double {
        assert SameAt(mem, mem', Addr(wire.segment, wire.pad + 1));
      }
    }
  }

  lemma ReadCompositeFrame(mem: Mem, mem': Mem, location: Location, offset: i30, wordCount: u29)
    requires Grows(mem, mem')
    requires ReadComposite(mem, location, offset, wordCount, Unlimited).result.Ok?
    requires forall a :: a in Tags(ReadComposite(mem, location, offset, wordCount, Unlimited).result.value) ==>
               SameAt(mem, mem', a)
    ensures ReadComposite(mem', location, offset, wordCount, Unlimited)
         == ReadComposite(mem, location, offset, wordCount, Unlimited)
  {
    hide ReadContent, Decode, Times, TagElementCount;
    ReadContentSound(mem, location, offset, wordCount + 1, Unlimited);
    ReadContentFrame(mem, mem', location, offset, wordCount + 1);
    var tag := ReadContent(mem, location, offset, wordCount + 1, Unlimited).result.value;
    assert tag in Tags(ReadComposite(mem, location, offset, wordCount, Unlimited).result.value);
    assert SameAt(mem, mem', tag);
  }

  /** A resolution only depends on the pointer, its landing pads and the tag. */
  lemma ResolveFrame(mem: Mem, mem': Mem, at: Addr)
    requires Grows(mem, mem') && InMem(mem, at) && SameAt(mem, mem', at)
    requires Resolve(mem, at).Ok?
    requires forall a :: a in Pads(mem, at) + Tags(Resolve(mem, at).value) ==> SameAt(mem, mem', a)
    ensures Resolve(mem', at) == Resolve(mem, at)
    ensures Pads(mem', at) == Pads(mem, at)
  {
    hide LocationOf, ReadContent, ReadComposite, Decode, ListWords, Tags;
    LocationOfFrame(mem, mem', at);
    LimiterOnlyRefusesLocation(mem, at, Unlimited);
    var Content(ptr, location) := LocationOf(mem, at, Unlimited).result.value;
    match Decode(ptr)
    case StructPtr(offset, size) => ReadContentFrame(mem, mem', location, offset, size.Total());
    case ListPtr(offset, element, count) =>
      if element == InlineComposite {
        ReadCompositeFrame(mem, mem', location, offset, count);
      } else {
        ReadContentFrame(mem, mem', location, offset, ListWords(element, count));
      }
    case _ =>
  }

  /** A meaning survives every change to words it does not read. */
  lemma {:induction false} DenotesFrame(mem: Mem, mem': Mem, at: Addr, v: Value, avoid: iset<Addr>)
    requires Denotes(mem, at, v, avoid)
    requires Keeps(mem, mem', avoid) && SameAt(mem, mem', at)
    ensures Denotes(mem', at, v, avoid)
    decreases v
  {
    hide Resolve, Words, IsPtrSlot, Pads;
    if v != Null {
      ResolveFrame(mem, mem', at);
    }
    if v.Obj? {
      forall i | 0 <= i < |v.cells|
        ensures CellAt(mem', Slot(Resolve(mem, at).value.start, i), v.cells[i], IsPtrSlot(v.shape, i), avoid)
      {
        var slot := Slot(Resolve(mem, at).value.start, i);
        assert CellAt(mem, slot, v.cells[i], IsPtrSlot(v.shape, i), avoid);
        if v.cells[i].Ref? {
          DenotesFrame(mem, mem', slot, v.cells[i].value, avoid);
        }
      }
    }
  }
}
