/**
 In-place promotion of a list of plain elements to a list of structs: element `i` becomes the first bytes of
 struct `i`.
 */
module DataPromotion {
  import opened Wire
  import opened Reader
  import opened Values
  import opened Layout
  import opened Putting
  import opened Equality
  import opened Promotion
  import opened ListPromotion

  /** The bytes of an element; bit lists are never upgraded. */
  function Width(element: PtrElementSize): nat {
    match element
    case Byte => 1
    case TwoBytes => 2
    case FourBytes => 4
    case EightBytes => 8
    case _ => 0
  }

  /** Element sizes `copy_data!` is used for. */
  predicate IsCopied(element: PtrElementSize) {
    element == Byte || element == TwoBytes || element == FourBytes || element == EightBytes
  }

  /** Half `j` of the 16-bit quarters of a word. */
  function Quarter(w: Word, j: nat): u32 {
    if j == 0 then w.lower % 65536
    else if j == 1 then w.lower / 65536
    else if j == 2 then w.upper % 65536
    else w.upper / 65536
  }

  lemma ByteIsSmall(w: Word, j: nat)
    ensures ByteOf(w, j) < 256
  {
  }

  /** Element `i` of words that hold elements of that size, as an unsigned little-endian value. */
  function ElementAt(words: seq<Word>, element: PtrElementSize, i: nat): Word
    requires IsCopied(element) && i < |words| * (8 / Width(element))
  {
    if element == Byte then
      ByteIsSmall(words[i / 8], i % 8);
      Word(ByteOf(words[i / 8], i % 8), 0)
    else if element == TwoBytes then
      Word(Quarter(words[i / 4], i % 4), 0)
    else if element == FourBytes then
      Word(if i % 2 == 0 then words[i / 2].lower else words[i / 2].upper, 0)
    else
      words[i]
  }

  /** The word after its first bytes were overwritten by an element. */
  function Overwritten(w: Word, element: PtrElementSize, value: Word): Word {
    match element
    case Byte => Word((w.lower / 256 * 256 + value.lower % 256) % U32_LIMIT, w.upper)
    case TwoBytes => Word((w.lower / 65536 * 65536 + value.lower % 65536) % U32_LIMIT, w.upper)
    case FourBytes => Word(value.lower, w.upper)
    case EightBytes => value
    case _ => w
  }

  /** Byte `k` of the promoted element is that byte of the old one, or zero behind it. */
  predicate ByteMoved(words: seq<Word>, element: PtrElementSize, i: nat, k: nat)
    requires IsCopied(element) && i < |words| * (8 / Width(element))
  {
    var at := i * Width(element) + k;
    && (k < Width(element) ==> at / 8 < |words|)
    && ByteOf(Overwritten(NULL, element, ElementAt(words, element, i)), k)
       == if k < Width(element) then ByteOf(words[at / 8], at % 8) else 0
  }

  /** The promoted element holds the bytes of the old one, and zeros behind them. */
  lemma ElementBytes(words: seq<Word>, element: PtrElementSize, i: nat, k: nat)
    requires IsCopied(element) && i < |words| * (8 / Width(element)) && k < 8
    ensures ByteMoved(words, element, i, k)
  {
    hide ByteMoved;
    if element == Byte {
      ByteElement(words, i, k);
    } else if element == TwoBytes {
      PairElement(words, i, k);
    } else if element == FourBytes {
      HalfElement(words, i, k);
    } else {
      WordElement(words, i, k);
    }
  }

  lemma WordElement(words: seq<Word>, i: nat, k: nat)
    requires i < |words| && k < 8
    ensures ByteMoved(words, EightBytes, i, k)
  {
    hide ByteOf;
  }

  lemma ByteElement(words: seq<Word>, i: nat, k: nat)
    requires i < |words| * 8 && k < 8
    ensures ByteMoved(words, Byte, i, k)
  {
    hide ByteOf;
    ByteIsSmall(words[i / 8], i % 8);
    SmallBytes(ByteOf(words[i / 8], i % 8), k);
  }

  lemma SmallBytes(b: nat, k: nat)
    requires b < 256 && k < 8
    ensures ByteOf(Word(b, 0), k) == if k == 0 then b else 0
  {
  }

  lemma PairElement(words: seq<Word>, i: nat, k: nat)
    requires i < |words| * 4 && k < 8
    ensures ByteMoved(words, TwoBytes, i, k)
  {
    hide ByteOf, Quarter;
    QuarterBytes(words[i / 4], i % 4, k);
    PairIndex(i, k);
    var value := Word(Quarter(words[i / 4], i % 4), 0);
    assert Overwritten(NULL, TwoBytes, value) == value;
  }

  lemma PairIndex(i: nat, k: nat)
    ensures k < 2 ==> (i * 2 + k) / 8 == i / 4 && (i * 2 + k) % 8 == 2 * (i % 4) + k
  {
    var q, r := i / 4, i % 4;
    assert i == 4 * q + r && i * 2 + k == 8 * q + (2 * r + k);
  }

  lemma QuarterBytes(w: Word, j: nat, k: nat)
    requires j < 4 && k < 8
    ensures Quarter(w, j) < 65536
    ensures ByteOf(Word(Quarter(w, j), 0), k) == if k < 2 then ByteOf(w, 2 * j + k) else 0
  {
    TwoBytesOf(w.lower);
    TwoBytesOf(w.upper);
  }

  lemma TwoBytesOf(x: u32)
    ensures x % 65536 % 256 == x % 256 && x % 65536 / 256 % 256 == x / 256 % 256
    ensures x / 65536 == x / 256 / 256 && x % 65536 / 256 / 256 == 0 && x / 65536 / 256 / 256 == 0
  {
    var a := x / 256;
    var b := a / 256;
    assert x == 256 * a + x % 256 && a == 256 * b + a % 256;
    assert x == 65536 * b + 256 * (a % 256) + x % 256;
    assert x / 65536 == b && x % 65536 == 256 * (a % 256) + x % 256;
  }

  lemma HalfElement(words: seq<Word>, i: nat, k: nat)
    requires i < |words| * 2 && k < 8
    ensures ByteMoved(words, FourBytes, i, k)
  {
    var q, r := i / 2, i % 2;
    assert i == 2 * q + r && i * 4 + k == 8 * q + (4 * r + k);
  }

  // ----- The copy

  /** The words of a list of plain elements hold all of them. */
  lemma ElementsThere(words: seq<Word>, element: PtrElementSize, count: nat)
    requires IsCopied(element) && |words| == ListWords(element, count)
    ensures count <= |words| * (8 / Width(element))
  {
  }

  /** `copy_data!`: the first `n` elements. */
  function WriteElements(st: St, words: seq<Word>, element: PtrElementSize, to: Addr, newSize: StructSize,
                         n: nat): (r: St)
    requires ValidSt(st) && HasBody(st.mem, to, Times(n, newSize)) && newSize.data > 0
    requires IsCopied(element) && n <= |words| * (8 / Width(element))
    ensures ValidSt(r) && Keeps(st.mem, r.mem, Body(to, Times(n, newSize)))
  {
    hide ElementAt, Overwritten, SetWord;
    if n == 0 then
      st
    else
      var before := WriteElements(st, words, element, to, newSize, n - 1);
      var slot := Slot(to, Times(n - 1, newSize));
      var word := Overwritten(At(before.mem, slot), element, ElementAt(words, element, n - 1));
      SetWordGood(before, slot, word);
      SetWord(before, slot, word)
  }

  /** A struct with one data word set. */
  function Widened(word: Word, size: StructSize): (r: seq<Cell>)
    requires size.data > 0
    ensures |r| == size.Total()
  {
    seq(size.Total(), i requires 0 <= i < size.Total() =>
      if i == 0 then Data(word) else if i < size.data then Data(NULL) else Ref(Null))
  }

  /** The content of the struct list that a list of plain elements becomes. */
  function AllWidened(words: seq<Word>, element: PtrElementSize, newSize: StructSize, n: nat): (r: seq<Cell>)
    requires newSize.data > 0 && IsCopied(element) && n <= |words| * (8 / Width(element))
    ensures |r| == Times(n, newSize)
  {
    if n == 0 then []
    else AllWidened(words, element, newSize, n - 1)
         + Widened(Overwritten(NULL, element, ElementAt(words, element, n - 1)), newSize)
  }

  lemma NullWord(w: Word)
    requires w.IsNull()
    ensures w == NULL
  {
  }

  /** One element more. */
  lemma ElementWritten(st: St, to: Addr, newSize: StructSize, n: nat, word: Word, touched: iset<Addr>)
    requires ValidSt(st) && newSize.data > 0 && HasBody(st.mem, to, Times(n + 1, newSize))
    requires forall i :: Times(n, newSize) <= i < Times(n + 1, newSize) ==>
               InMem(st.mem, Slot(to, i)) && At(st.mem, Slot(to, i)).IsNull()
    ensures InMem(st.mem, Slot(to, Times(n, newSize)))
    ensures AllStored(SetWord(st, Slot(to, Times(n, newSize)), word).mem, Slot(to, Times(n, newSize)),
                      Widened(word, newSize), touched)
  {
    var base := Times(n, newSize);
    ElementBounds(newSize, n, n + 1);
    hide Times;
    assert InMem(st.mem, Slot(to, base));
    SetWordGood(st, Slot(to, base), word);
    var st' := SetWord(st, Slot(to, base), word);
    hide SetWord;
    forall i | 0 <= i < newSize.Total()
      ensures CellStored(st'.mem, Slot(Slot(to, base), i), Widened(word, newSize)[i], touched)
    {
      assert Slot(Slot(to, base), i) == Slot(to, base + i);
      if i > 0 {
        NullWord(At(st.mem, Slot(to, base + i)));
      }
    }
  }

  lemma {:induction false} ElementsWritten(st: St, words: seq<Word>, element: PtrElementSize, to: Addr,
                                           newSize: StructSize, count: nat, n: nat, touched: iset<Addr>)
    requires ValidSt(st) && newSize.data > 0 && n <= count
    requires HasBody(st.mem, to, Times(n, newSize)) && AllNull(st.mem, to, Times(count, newSize))
    requires IsCopied(element) && count <= |words| * (8 / Width(element)) && n <= |words| * (8 / Width(element))
    requires Body(to, Times(count, newSize)) <= touched
    ensures AllStored(WriteElements(st, words, element, to, newSize, n).mem, to,
                      AllWidened(words, element, newSize, n), touched)
  {
    hide ElementAt, Overwritten, AllStored, Widened, SetWord, ValidSt;
    if n == 0 {
      NothingStored(st.mem, to, touched);
    } else {
      ElementBounds(newSize, n - 1, count);
      ElementsWritten(st, words, element, to, newSize, count, n - 1, touched);
      var before := WriteElements(st, words, element, to, newSize, n - 1);
      var base := Times(n - 1, newSize);
      UntouchedNull(st.mem, before.mem, to, base, Times(count, newSize));
      var word := Overwritten(At(before.mem, Slot(to, base)), element, ElementAt(words, element, n - 1));
      NullWord(At(before.mem, Slot(to, base)));
      ElementWritten(before, to, newSize, n - 1, word, touched);
      var after := SetWord(before, Slot(to, base), word);
      SetWordGood(before, Slot(to, base), word);
      SlotIn(to, base, Times(count, newSize));
      AllStoredFrame(before.mem, after.mem, to, AllWidened(words, element, newSize, n - 1), touched, iset{Slot(to,
                     base)});
      StoredConcat(after.mem, to, AllWidened(words, element, newSize, n - 1), Widened(word, newSize), touched);
    }
  }

  lemma NothingStored(mem: Mem, to: Addr, touched: iset<Addr>)
    ensures AllStored(mem, to, [], touched)
  {
  }

  lemma UntouchedNull(mem: Mem, mem': Mem, to: Addr, done: nat, n: nat)
    requires AllNull(mem, to, n) && Keeps(mem, mem', Body(to, done))
    ensures forall i :: done <= i < n ==> InMem(mem', Slot(to, i)) && At(mem', Slot(to, i)).IsNull()
  {
  }

  lemma SlotIn(to: Addr, base: nat, n: nat)
    requires base < n
    ensures Slot(to, base) in Body(to, n) && Slot(to, base) !in Body(to, base)
  {
  }

  // ----- The promotion of a list of plain elements

  predicate IsPlainList(mem: Mem, at: Addr, element: PtrElementSize, count: u29, start: Addr) {
    && InMem(mem, at) && IsCopied(element)
    && Resolve(mem, at) == Ok(Object(ListShape(element, count), start))
  }

  lemma PlainInside(mem: Mem, at: Addr, element: PtrElementSize, count: u29, start: Addr)
    requires IsPlainList(mem, at, element, count, start)
    ensures start.seg < |mem| && start.off + ListWords(element, count) <= |mem[start.seg]|
  {
    hide TryReadTyped, ListWords;
    ReaderSound(mem, at, Unlimited);
  }

  /** The words of the list. */
  function ListedWords(mem: Mem, start: Addr, n: nat): (r: seq<Word>)
    requires HasBody(mem, start, n)
    ensures |r| == n && forall i :: 0 <= i < n ==> r[i] == At(mem, Slot(start, i))
  {
    seq(n, i requires 0 <= i < n => At(mem, Slot(start, i)))
  }

  /** `to_list_mut_inner` of a list of plain elements that is upgraded to structs. */
  function PromotePlain(st: St, at: Addr, element: PtrElementSize, count: u29, start: Addr,
                        newSize: StructSize): ListPromoted
    requires ValidSt(st) && IsPlainList(st.mem, at, element, count, start)
    requires newSize.data > 0 && Bounded(CompositeShape(newSize, count))
  {
    hide AllocObject, ClearPtrs, Times, WriteElements, ListWords;
    PlainInside(st.mem, at, element, count, start);
    var n := ListWords(element, count);
    var cleared := ClearPtrs(st, at);
    AllocObjectSafe(cleared, at, CompositeShape(newSize, count));
    var room := AllocObject(cleared, at, CompositeShape(newSize, count));
    if room.Failed? then
      ListNotPromoted(room.st)
    else
      BodyGrows(st.mem, room.st.mem, start, n);
      BodyThere(cleared, room, at, Times(count, newSize));
      var words := ListedWords(room.st.mem, start, n);
      ElementsThere(words, element, count);
      var written := WriteElements(room.st, words, element, room.start, newSize, count);
      BodyGrows(room.st.mem, written.mem, start, n);
      ListPromoted(ClearWords(written, start, n), room.start)
  }

  /** A list of plain elements whose pointer and pads are apart from it. */
  ghost predicate HeldPlain(mem: Mem, at: Addr, element: PtrElementSize, count: u29, start: Addr) {
    && IsPlainList(mem, at, element, count, start)
    && at !in Body(start, ListWords(element, count))
    && forall a :: a in Pads(mem, at) ==> a != at && a !in Body(start, ListWords(element, count))
  }

  /** What the promotion of a list of plain elements achieves. */
  ghost predicate PlainPreserved(st: St, at: Addr, element: PtrElementSize, count: u29, start: Addr,
                                 newSize: StructSize, avoid: iset<Addr>, r: ListPromoted)
    requires InMem(st.mem, at) && HasBody(st.mem, start, ListWords(element, count))
  {
    var n := ListWords(element, count);
    var words := ListedWords(st.mem, start, n);
    && Keeps(st.mem, r.st.mem, Abandoned(st.mem, at, start, n))
    && (r.ListPromoted? ==>
          && newSize.data > 0 && IsCopied(element) && count <= |words| * (8 / Width(element))
          && Denotes(r.st.mem, at, Obj(CompositeShape(newSize, count), AllWidened(words, element, newSize, count)),
                     avoid)
          && AllNull(r.st.mem, start, n))
  }

  lemma AbandonedHas(mem: Mem, at: Addr, start: Addr, n: nat)
    requires InMem(mem, at)
    ensures at in Abandoned(mem, at, start, n)
    ensures forall a :: a in Pads(mem, at) ==> a in Abandoned(mem, at, start, n)
    ensures Body(start, n) <= Abandoned(mem, at, start, n)
  {
    hide Pads;
  }

  /** The list is read after the room was allocated, where it still is what it was. */
  lemma SameWords(mem: Mem, mem': Mem, start: Addr, n: nat, touched: iset<Addr>)
    requires HasBody(mem, start, n) && Keeps(mem, mem', touched) && Body(start, n) !! touched
    ensures HasBody(mem', start, n) && ListedWords(mem', start, n) == ListedWords(mem, start, n)
  {
    forall i | 0 <= i < n
      ensures At(mem', Slot(start, i)) == At(mem, Slot(start, i))
    {
      assert Slot(start, i) in Body(start, n);
    }
  }

  lemma WidenedPattern(words: seq<Word>, element: PtrElementSize, newSize: StructSize, n: nat)
    requires newSize.data > 0 && IsCopied(element) && n <= |words| * (8 / Width(element))
    ensures forall i :: 0 <= i < Times(n, newSize) ==>
              AllWidened(words, element, newSize, n)[i].Ref? == IsPtrOfStructs(newSize, i)
  {
    hide IsPtrOfStructs, ElementAt, Overwritten;
    if n > 0 {
      WidenedPattern(words, element, newSize, n - 1);
      var all, base := AllWidened(words, element, newSize, n), Times(n - 1, newSize);
      forall i | base <= i < Times(n, newSize)
        ensures all[i].Ref? == IsPtrOfStructs(newSize, i)
      {
        SlotOfElement(n - 1, newSize, i - base);
      }
    }
  }

  /** What clearing the pointer and allocating the new list changes. */
  lemma RoomForPlain(st: St, at: Addr, element: PtrElementSize, count: u29, start: Addr, newSize: StructSize,
                     room: Placing)
    requires ValidSt(st) && HeldPlain(st.mem, at, element, count, start)
    requires room.Placed? && Allocated(ClearPtrs(st, at), room.st, at, room.start, Times(count, newSize))
    ensures var n := ListWords(element, count);
            && HasBody(st.mem, start, n) && HasBody(room.st.mem, start, n)
            && ListedWords(room.st.mem, start, n) == ListedWords(st.mem, start, n)
            && HasBody(room.st.mem, room.start, Times(count, newSize))
            && AllNull(room.st.mem, room.start, Times(count, newSize))
            && Keeps(st.mem, room.st.mem, Abandoned(st.mem, at, start, n))
            && (forall a :: a in Body(room.start, Times(count, newSize)) ==> !InMem(st.mem, a))
  {
    hide Resolve, Pads, ClearPtrs, Times, ListWords, Abandoned;
    var n := ListWords(element, count);
    PlainInside(st.mem, at, element, count, start);
    var cleared := ClearPtrs(st, at);
    AbandonedHas(st.mem, at, start, n);
    SameWords(st.mem, room.st.mem, start, n, iset a | a == at || a in Pads(st.mem, at));
    BodyThere(cleared, room, at, Times(count, newSize));
    NewIsUnread(cleared, room, at, Times(count, newSize));
    NewIsNull(cleared, room, at, Times(count, newSize));
  }

  /**
   The promotion of a list of plain elements preserves them: element `i` is the first bytes of the data of
   struct `i`, the rest is zero and null, the old list is cleared, and no other word has changed.
   */
  lemma PlainPromotionPreserves(st: St, at: Addr, element: PtrElementSize, count: u29, start: Addr, newSize: StructSize,
                                avoid: iset<Addr>)
    requires ValidSt(st) && HeldPlain(st.mem, at, element, count, start) && avoid <= AllWords(st.mem)
    requires IsPlainList(st.mem, at, element, count, start)
    requires newSize.data > 0 && Askable(CompositeShape(newSize, count)) && Bounded(CompositeShape(newSize, count))
    ensures HasBody(st.mem, start, ListWords(element, count))
    ensures PlainPreserved(st, at, element, count, start, newSize, avoid,
                           PromotePlain(st, at, element, count, start, newSize))
  {
    hide Denotes, Resolve, Pads, AllocObject, ClearPtrs, Times, WriteElements, ListWords, Readable, AllStored,
         AllWidened, Abandoned, HeldPlain, ClearWords, Askable, Bounded;
    PlainInside(st.mem, at, element, count, start);
    var n := ListWords(element, count);
    var cleared := ClearPtrs(st, at);
    var shape := CompositeShape(newSize, count);
    AllocObjectGood(cleared, at, shape);
    var room := AllocObject(cleared, at, shape);
    AbandonedHas(st.mem, at, start, n);
    if room.Placed? {
      RoomForPlain(st, at, element, count, start, newSize, room);
      WriteAndClear(st, at, element, count, start, newSize, avoid, room);
    }
  }

  lemma WriteAndClear(st: St, at: Addr, element: PtrElementSize, count: u29, start: Addr, newSize: StructSize,
                      avoid: iset<Addr>, room: Placing)
    requires ValidSt(st) && HeldPlain(st.mem, at, element, count, start) && avoid <= AllWords(st.mem)
    requires IsPlainList(st.mem, at, element, count, start)
    requires newSize.data > 0 && Bounded(CompositeShape(newSize, count))
    requires room.Placed? && room == AllocObject(ClearPtrs(st, at), at, CompositeShape(newSize, count))
    requires ObjectPlaced(ClearPtrs(st, at), at, CompositeShape(newSize, count), room)
    ensures HasBody(st.mem, start, ListWords(element, count))
    ensures PlainPreserved(st, at, element, count, start, newSize, avoid,
                           PromotePlain(st, at, element, count, start, newSize))
  {
    hide Denotes, Resolve, Pads, AllocObject, ClearPtrs, Times, WriteElements, ListWords, Readable, AllStored,
         AllWidened, Abandoned, HeldPlain, ClearWords, AllNull, IsPtrOfStructs;
    RoomForPlain(st, at, element, count, start, newSize, room);
    var n := ListWords(element, count);
    var words := ListedWords(st.mem, start, n);
    var body := Body(room.start, Times(count, newSize));
    var gone := Abandoned(st.mem, at, start, n);
    var touched := gone + avoid + body;
    ElementsThere(words, element, count);
    AbandonedHas(st.mem, at, start, n);
    var written := WriteElements(room.st, words, element, room.start, newSize, count);
    ElementsWritten(room.st, words, element, room.start, newSize, count, count, touched);
    BodyGrows(room.st.mem, written.mem, start, n);
    NewIsApart(st.mem, start, n, body);
    OldWordsCleared(written, start, n, room.start, AllWidened(words, element, newSize, count), touched);
    WidenedPattern(words, element, newSize, count);
    BodyInMem(st.mem, start, n);
    NotInBody(st.mem, at, element, count, start);
    ObjectRead(ClearPtrs(st, at).mem, room.st.mem, ClearWords(written, start, n).mem, at,
               CompositeShape(newSize, count), room.start, Body(start, n),
               AllWidened(words, element, newSize, count), touched, avoid);
  }

  lemma NotInBody(mem: Mem, at: Addr, element: PtrElementSize, count: u29, start: Addr)
    requires HeldPlain(mem, at, element, count, start)
    ensures at !in Body(start, ListWords(element, count))
  {
  }
}
