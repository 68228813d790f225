/**
 How lists of plain elements compare: element by element, and which bits of a list of bits are looked at.
 */
module ListEquality {
  import opened Wire
  import opened Reader
  import opened Values
  import opened Equality
  import opened DataPromotion

  lemma DataOf(shape: Shape, cells: seq<Cell>)
    requires shape.ListShape? && shape.element != Pointer && FormedCells(shape, cells)
    ensures |cells| == ListWords(shape.element, shape.count)
    ensures Datas(cells, 0, |cells|) && forall k :: 0 <= k < |cells| ==> cells[k].Data?
  {
    forall k | 0 <= k < |cells|
      ensures FormedCell(cells[k], false)
    {
      assert FormedCell(cells[k], IsPtrSlot(shape, k));
    }
  }

  /** The words of cells that are data. */
  function WordsIn(cells: seq<Cell>): (words: seq<Word>)
    requires forall k :: 0 <= k < |cells| ==> cells[k].Data?
    ensures |words| == |cells| && forall k :: 0 <= k < |cells| ==> words[k] == cells[k].word
  {
    seq(|cells|, k requires 0 <= k < |cells| => cells[k].word)
  }

  // ----- Elements of one to eight bytes

  /** Byte `j` of element `i`. */
  predicate SameByte(words: seq<Word>, words': seq<Word>, element: PtrElementSize, i: nat, j: nat) {
    var at := i * Width(element) + j;
    at / 8 < |words| && at / 8 < |words'| && ByteOf(words[at / 8], at % 8) == ByteOf(words'[at / 8], at % 8)
  }

  /** Two elements are the same if their bytes are. */
  lemma SameElement(words: seq<Word>, words': seq<Word>, element: PtrElementSize, i: nat)
    requires IsCopied(element) && i < |words| * (8 / Width(element)) && |words'| == |words|
    ensures ElementAt(words, element, i) == ElementAt(words', element, i)
       <==> forall j :: 0 <= j < Width(element) ==> SameByte(words, words', element, i, j)
  {
    hide ByteOf, ElementAt, Overwritten, SameByte;
    var a, b := Overwritten(NULL, element, ElementAt(words, element, i)),
                Overwritten(NULL, element, ElementAt(words', element, i));
    forall k | 0 <= k < 8
      ensures ByteOf(a, k) == ByteOf(b, k) <==> k >= Width(element) || SameByte(words, words', element, i, k)
    {
      OneByte(words, words', element, i, k);
    }
    ElementFits(words, element, i);
    ElementFits(words', element, i);
    if forall j :: 0 <= j < Width(element) ==> SameByte(words, words', element, i, j) {
      SameWord(a, b);
    } else {
      var j :| 0 <= j < Width(element) && !SameByte(words, words', element, i, j);
      assert j < 8 && ByteOf(a, j) != ByteOf(b, j);
    }
  }

  lemma OneByte(words: seq<Word>, words': seq<Word>, element: PtrElementSize, i: nat, k: nat)
    requires IsCopied(element) && i < |words| * (8 / Width(element)) && |words'| == |words| && k < 8
    ensures ByteOf(Overwritten(NULL, element, ElementAt(words, element, i)), k)
         == ByteOf(Overwritten(NULL, element, ElementAt(words', element, i)), k)
       <==> k >= Width(element) || SameByte(words, words', element, i, k)
  {
    ElementBytes(words, element, i, k);
    ElementBytes(words', element, i, k);
    hide ByteOf, ElementAt, Overwritten;
  }

  /** An element has no more bytes than its width. */
  lemma ElementFits(words: seq<Word>, element: PtrElementSize, i: nat)
    requires IsCopied(element) && i < |words| * (8 / Width(element))
    ensures Overwritten(NULL, element, ElementAt(words, element, i)) == ElementAt(words, element, i)
  {
    hide ByteOf, Quarter;
    if element == Byte {
      ByteIsSmall(words[i / 8], i % 8);
    } else if element == TwoBytes {
      QuarterBytes(words[i / 4], i % 4, 0);
    }
  }

  lemma SameBytes(cells: seq<Cell>, cells': seq<Cell>)
    requires |cells| == |cells'| && forall k :: 0 <= k < |cells| ==> cells[k].Data? && cells'[k].Data?
    ensures cells == cells' <==> forall k :: 0 <= k < 8 * |cells| ==> ByteAt(cells, k) == ByteAt(cells', k)
  {
    hide ByteOf;
    if forall k :: 0 <= k < 8 * |cells| ==> ByteAt(cells, k) == ByteAt(cells', k) {
      forall i | 0 <= i < |cells|
        ensures cells[i] == cells'[i]
      {
        forall j | 0 <= j < 8
          ensures ByteOf(cells[i].word, j) == ByteOf(cells'[i].word, j)
        {
          assert ByteAt(cells, 8 * i + j) == ByteAt(cells', 8 * i + j);
        }
        SameWord(cells[i].word, cells'[i].word);
      }
    }
  }

  lemma SameWord(a: Word, b: Word)
    requires forall j :: 0 <= j < 8 ==> ByteOf(a, j) == ByteOf(b, j)
    ensures a == b
  {
    BytesOf(a);
    BytesOf(b);
    hide ByteOf;
    assert ByteOf(a, 0) == ByteOf(b, 0) && ByteOf(a, 1) == ByteOf(b, 1);
    assert ByteOf(a, 2) == ByteOf(b, 2) && ByteOf(a, 3) == ByteOf(b, 3);
    assert ByteOf(a, 4) == ByteOf(b, 4) && ByteOf(a, 5) == ByteOf(b, 5);
    assert ByteOf(a, 6) == ByteOf(b, 6) && ByteOf(a, 7) == ByteOf(b, 7);
  }

  /** The bytes of a word make it up. */
  lemma BytesOf(w: Word)
    ensures w.lower == ByteOf(w, 0) + 256 * ByteOf(w, 1) + 65536 * ByteOf(w, 2) + 16777216 * ByteOf(w, 3)
    ensures w.upper == ByteOf(w, 4) + 256 * ByteOf(w, 5) + 65536 * ByteOf(w, 6) + 16777216 * ByteOf(w, 7)
  {
    FourBytesOf(w.lower);
    FourBytesOf(w.upper);
    hide Shifted;
  }

  lemma FourBytesOf(x: u32)
    ensures x == Shifted(x, 0) % 256 + 256 * (Shifted(x, 1) % 256) + 65536 * (Shifted(x, 2) % 256)
                 + 16777216 * (Shifted(x, 3) % 256)
  {
    var a := x / 256;
    var b := a / 256;
    var c := b / 256;
    assert x == x % 256 + 256 * a && a == a % 256 + 256 * b && b == b % 256 + 256 * c && c < 256;
  }

  predicate NoPadding(shape: Shape) {
    shape.ListShape? && shape.element != Pointer && shape.element != InlineComposite ==>
      Bits(shape.element) * shape.count % 64 == 0
  }

  lemma WholeBytes(element: PtrElementSize, count: u29)
    requires element != Pointer && NoPadding(ListShape(element, count))
    ensures TotalBytes(element, count) == 8 * ListWords(element, count)
    ensures element == Bit ==> count % 8 == 0
  {
    hide ListWords;
    ListWordsAreBits(element, count);
    WholeWords(Bits(element) * count);
  }

  lemma WholeWords(bits: nat)
    requires bits % 64 == 0
    ensures (bits + 7) / 8 == 8 * ((bits + 63) / 64) && bits % 8 == 0
  {
    var q := bits / 64;
    assert bits == 64 * q;
    assert (64 * q + 7) / 8 == 8 * q;
    assert (64 * q + 63) / 64 == q;
    assert (64 * q) % 8 == 0;
  }
  lemma BytesOfElements(element: PtrElementSize, count: nat)
    requires IsCopied(element)
    ensures TotalBytes(element, count) == count * Width(element)
  {
  }

  /** Every byte of a list is one of an element. */
  lemma ByteOfElement(element: PtrElementSize, count: nat, k: nat)
    requires IsCopied(element) && k < count * Width(element)
    ensures var i, j := k / Width(element), k % Width(element);
            i < count && j < Width(element) && i * Width(element) + j == k
  {
  }

  lemma ElementInList(element: PtrElementSize, count: nat, i: nat, j: nat)
    requires IsCopied(element) && i < count && j < Width(element)
    ensures i * Width(element) + j < count * Width(element)
  {
  }

  /** The words hold all elements, and element by element they are the same. */
  predicate SameElements(element: PtrElementSize, count: nat, words: seq<Word>, words': seq<Word>)
    requires IsCopied(element)
  {
    && count <= |words| * (8 / Width(element)) && count <= |words'| * (8 / Width(element))
    && forall i :: 0 <= i < count ==> ElementAt(words, element, i) == ElementAt(words', element, i)
  }

  /** The bytes that are compared are those of the elements. */
  lemma ElementsDecide(element: PtrElementSize, count: nat, cells: seq<Cell>, cells': seq<Cell>)
    requires IsCopied(element) && |cells| == |cells'| == ListWords(element, count)
    requires forall k :: 0 <= k < |cells| ==> cells[k].Data? && cells'[k].Data?
    ensures SameData(element, count, cells, cells')
       <==> SameElements(element, count, WordsIn(cells), WordsIn(cells'))
  {
    hide ByteAt, ElementAt, TotalBytes, ListWords, SameByte;
    var words, words' := WordsIn(cells), WordsIn(cells');
    ElementsThere(words, element, count);
    BytesOfElements(element, count);
    BytesThere(element, count);
    if forall k :: 0 <= k < TotalBytes(element, count) ==> ByteAt(cells, k) == ByteAt(cells', k) {
      forall i | 0 <= i < count
        ensures ElementAt(words, element, i) == ElementAt(words', element, i)
      {
        SameElement(words, words', element, i);
        forall j | 0 <= j < Width(element)
          ensures SameByte(words, words', element, i, j)
        {
          ElementInList(element, count, i, j);
          CellByte(cells, cells', element, i, j);
        }
      }
    }
    if SameElements(element, count, words, words') {
      forall k | 0 <= k < TotalBytes(element, count)
        ensures ByteAt(cells, k) == ByteAt(cells', k)
      {
        ByteOfElement(element, count, k);
        SameElement(words, words', element, k / Width(element));
        CellByte(cells, cells', element, k / Width(element), k % Width(element));
      }
    }
  }

  lemma CellByte(cells: seq<Cell>, cells': seq<Cell>, element: PtrElementSize, i: nat, j: nat)
    requires |cells| == |cells'| && (i * Width(element) + j) / 8 < |cells|
    requires forall k :: 0 <= k < |cells| ==> cells[k].Data? && cells'[k].Data?
    ensures SameByte(WordsIn(cells), WordsIn(cells'), element, i, j)
       <==> ByteAt(cells, i * Width(element) + j) == ByteAt(cells', i * Width(element) + j)
  {
    hide ByteOf;
  }

  lemma BytesThere(element: PtrElementSize, count: nat)
    requires IsCopied(element) || element == Bit
    ensures TotalBytes(element, count) <= 8 * ListWords(element, count)
  {
  }

  // ----- Bits

  /** Bit `j` of a byte, least significant first. */
  function BitOf(byte: nat, j: nat): nat {
    byte / LowBits(j) % 2
  }

  /** Bit `k` of cells that are data. */
  function BitAt(cells: seq<Cell>, k: nat): nat
    requires k / 64 < |cells| && cells[k / 64].Data?
  {
    BitOf(ByteOf(cells[k / 64].word, k % 64 / 8), k % 8)
  }

  /**
   The bits of a list of `count` that are compared: those of its whole bytes, and of the byte at the end as many as
   are left, from its upper end.
   */
  predicate Compared(count: nat, k: nat) {
    || k < count / 8 * 8
    || (count % 8 != 0 && count / 8 * 8 + (8 - count % 8) <= k < count / 8 * 8 + 8)
  }

  predicate SameBit(cells: seq<Cell>, cells': seq<Cell>, k: nat) {
    && k / 64 < |cells| && k / 64 < |cells'| && cells[k / 64].Data? && cells'[k / 64].Data?
    && BitAt(cells, k) == BitAt(cells', k)
  }

  ghost predicate SameBits(count: nat, cells: seq<Cell>, cells': seq<Cell>) {
    forall k: nat :: Compared(count, k) ==> SameBit(cells, cells', k)
  }

  /** A byte from bit `m` on is its bit `m` and the byte from the next one on. */
  lemma BitStep(byte: nat, m: nat)
    requires byte < 256 && m < 8
    ensures byte / LowBits(m) == BitOf(byte, m) + 2 * if m < 7 then byte / LowBits(m + 1) else 0
  {
  }

  /** Bytes are the same from bit `m` on if these bits are. */
  lemma {:induction false} UpperBits(a: nat, b: nat, m: nat)
    requires a < 256 && b < 256 && m < 8
    ensures a / LowBits(m) == b / LowBits(m) <==> forall j :: m <= j < 8 ==> BitOf(a, j) == BitOf(b, j)
    decreases 8 - m
  {
    hide LowBits, BitOf;
    BitStep(a, m);
    BitStep(b, m);
    BitIsSmall(a, m);
    BitIsSmall(b, m);
    if m < 7 {
      UpperBits(a, b, m + 1);
    }
  }

  lemma BitIsSmall(byte: nat, j: nat)
    ensures BitOf(byte, j) < 2
  {
  }

  /** The bits of byte `i` of cells, from bit `m` on. */
  lemma ByteBits(cells: seq<Cell>, cells': seq<Cell>, i: nat, m: nat)
    requires i / 8 < |cells| == |cells'| && cells[i / 8].Data? && cells'[i / 8].Data? && m < 8
    ensures ByteAt(cells, i) / LowBits(m) == ByteAt(cells', i) / LowBits(m)
       <==> forall k :: 8 * i + m <= k < 8 * i + 8 ==> SameBit(cells, cells', k)
  {
    hide LowBits, BitOf, ByteOf, SameBit;
    ByteIsSmall(cells[i / 8].word, i % 8);
    ByteIsSmall(cells'[i / 8].word, i % 8);
    var a, b := ByteAt(cells, i), ByteAt(cells', i);
    UpperBits(a, b, m);
    forall j | 0 <= j < 8
      ensures SameBit(cells, cells', 8 * i + j) <==> BitOf(a, j) == BitOf(b, j)
    {
      CellBit(cells, cells', i, j);
    }
    if a / LowBits(m) == b / LowBits(m) {
      forall k | 8 * i + m <= k < 8 * i + 8
        ensures SameBit(cells, cells', k)
      {
        assert BitOf(a, k - 8 * i) == BitOf(b, k - 8 * i);
      }
    } else {
      var j :| m <= j < 8 && BitOf(a, j) != BitOf(b, j);
      assert !SameBit(cells, cells', 8 * i + j);
    }
  }

  lemma CellBit(cells: seq<Cell>, cells': seq<Cell>, i: nat, j: nat)
    requires i / 8 < |cells| == |cells'| && cells[i / 8].Data? && cells'[i / 8].Data? && j < 8
    ensures SameBit(cells, cells', 8 * i + j) <==> BitOf(ByteAt(cells, i), j) == BitOf(ByteAt(cells', i), j)
  {
    hide BitOf, ByteOf;
    BitIndex(i, j);
  }

  lemma BitIndex(i: nat, j: nat)
    requires j < 8
    ensures (8 * i + j) / 64 == i / 8 && (8 * i + j) % 64 / 8 == i % 8 && (8 * i + j) % 8 == j
  {
    var q, r := i / 8, i % 8;
    assert 8 * i + j == 64 * q + (8 * r + j);
  }

  /** Of lists of bits exactly those are compared. */
  lemma BitsDecide(count: nat, cells: seq<Cell>, cells': seq<Cell>)
    requires |cells| == |cells'| == ListWords(Bit, count)
    requires forall k :: 0 <= k < |cells| ==> cells[k].Data? && cells'[k].Data?
    ensures SameData(Bit, count, cells, cells') <==> SameBits(count, cells, cells')
  {
    hide ByteAt, SameBit, LowBits, ListWords, TotalBytes;
    BytesThere(Bit, count);
    TotalOfBits(count);
    var whole, partial := count / 8, count % 8;
    forall i | 0 <= i < whole
      ensures ByteAt(cells, i) == ByteAt(cells', i)
         <==> forall k :: 8 * i <= k < 8 * i + 8 ==> SameBit(cells, cells', k)
    {
      ByteBits(cells, cells', i, 0);
      AllBits(ByteAt(cells, i));
      AllBits(ByteAt(cells', i));
    }
    if partial != 0 {
      ByteBits(cells, cells', whole, 8 - partial);
    }
    if SameData(Bit, count, cells, cells') {
      forall k: nat | Compared(count, k)
        ensures SameBit(cells, cells', k)
      {
        if k < 8 * whole {
          assert ByteAt(cells, k / 8) == ByteAt(cells', k / 8);
        }
      }
    }
  }

  lemma AllBits(byte: nat)
    ensures byte / LowBits(0) == byte
  {
  }

  lemma TotalOfBits(count: nat)
    ensures TotalBytes(Bit, count) == count / 8 + if count % 8 == 0 then 0 else 1
  {
  }
  // ----- All of them

  /** Two lists of plain elements hold the same, as far as it is compared. */
  ghost predicate SameList(element: PtrElementSize, count: nat, cells: seq<Cell>, cells': seq<Cell>)
    requires element != Pointer
  {
    && (forall k :: 0 <= k < |cells| ==> cells[k].Data?) && (forall k :: 0 <= k < |cells'| ==> cells'[k].Data?)
    && (element == Bit ==> SameBits(count, cells, cells'))
    && (IsCopied(element) ==> SameElements(element, count, WordsIn(cells), WordsIn(cells')))
  }

  lemma ListsDecide(element: PtrElementSize, count: nat, cells: seq<Cell>, cells': seq<Cell>)
    requires element != Pointer && |cells| == |cells'| == ListWords(element, count)
    requires forall k :: 0 <= k < |cells| ==> cells[k].Data? && cells'[k].Data?
    ensures SameData(element, count, cells, cells') <==> SameList(element, count, cells, cells')
  {
    hide SameData, SameBits, SameElements, ListWords;
    if element == Bit {
      BitsDecide(count, cells, cells');
    } else if IsCopied(element) {
      ElementsDecide(element, count, cells, cells');
    } else {
      NothingListed(element, count);
      assert cells == [] && cells' == [];
    }
  }

  lemma NothingListed(element: PtrElementSize, count: nat)
    requires Bits(element) == 0
    ensures ListWords(element, count) == 0 && SameData(element, count, [], [])
  {
  }
}
