/**
 The wire form of a word and of the pointers a word can hold.

 A word is the source's `Parts` view of eight little-endian bytes: a lower and an upper 32-bit
 half. Shifts and masks are written as multiplication, floor division and remainder.
 */
module Wire {

  const U16_LIMIT: int := 0x1_0000
  const U29_MAX: int := 0x1FFF_FFFF
  const I30_LIMIT: int := 0x2000_0000
  const U32_LIMIT: int := 0x1_0000_0000

  type u16 = x: int | 0 <= x < U16_LIMIT
  type u29 = x: int | 0 <= x <= U29_MAX
  type i30 = x: int | -I30_LIMIT <= x < I30_LIMIT
  type u32 = x: int | 0 <= x < U32_LIMIT

  datatype Word = Word(lower: u32, upper: u32) {
    predicate IsNull() {
      lower == 0 && upper == 0
    }
  }

  const NULL: Word := Word(0, 0)

  /** The size of a struct: words of data followed by pointers. */
  datatype StructSize = StructSize(data: u16, ptrs: u16) {
    function Total(): nat {
      data + ptrs
    }

    predicate FitsInside(outer: StructSize) {
      data <= outer.data && ptrs <= outer.ptrs
    }

    function Max(other: StructSize): StructSize {
      StructSize(if data < other.data then other.data else data,
                 if ptrs < other.ptrs then other.ptrs else ptrs)
    }
  }

  const EMPTY: StructSize := StructSize(0, 0)

  /** The element size as it is written in a list pointer. */
  datatype PtrElementSize =
    Void | Bit | Byte | TwoBytes | FourBytes | EightBytes | Pointer | InlineComposite

  function SizeCode(size: PtrElementSize): (code: nat)
    ensures code < 8 && SizeOfCode(code) == size
  {
    match size
    case Void => 0
    case Bit => 1
    case Byte => 2
    case TwoBytes => 3
    case FourBytes => 4
    case EightBytes => 5
    case Pointer => 6
    case InlineComposite => 7
  }

  function SizeOfCode(code: nat): PtrElementSize {
    if code == 0 then Void
    else if code == 1 then Bit
    else if code == 2 then Byte
    else if code == 3 then TwoBytes
    else if code == 4 then FourBytes
    else if code == 5 then EightBytes
    else if code == 6 then Pointer
    else InlineComposite
  }

  /** What a word says when it is read as a pointer. `Other` covers every non-capability other kind. */
  datatype WirePtr =
    | StructPtr(offset: i30, size: StructSize)
    | ListPtr(offset: i30, element: PtrElementSize, count: u29)
    | FarPtr(pad: u29, double: bool, segment: u32)
    | CapabilityPtr(index: u32)
    | OtherPtr

  /** `x as u32` for a signed 32-bit `x`. */
  function AsU32(x: int): u32 {
    x % U32_LIMIT
  }

  /** `x as i32` for an unsigned 32-bit `x`. */
  function AsI32(x: u32): int {
    if x < U32_LIMIT / 2 then x else x - U32_LIMIT
  }

  /** `Parts::content_offset`: the lower half shifted right arithmetically by two. */
  function ContentOffset(w: Word): i30 {
    AsI32(w.lower) / 4
  }

  /** `Parts::set_content_offset`. */
  function WithContentOffset(w: Word, offset: i30): Word {
    Word(AsU32(4 * offset) + w.lower % 4, w.upper)
  }

  /** `StructPtr::inline_composite_element_count`. */
  function TagElementCount(w: Word): u29 {
    (w.lower / 4) % (U29_MAX + 1)
  }

  function StructSizeOf(w: Word): StructSize {
    StructSize(w.upper % U16_LIMIT, w.upper / U16_LIMIT)
  }

  function Decode(w: Word): WirePtr {
    var kind := w.lower % 4;
    if kind == 0 then
      StructPtr(ContentOffset(w), StructSizeOf(w))
    else if kind == 1 then
      ListPtr(ContentOffset(w), SizeOfCode(w.upper % 8), w.upper / 8)
    else if kind == 2 then
      FarPtr(w.lower / 8, (w.lower / 4) % 2 == 1, w.upper)
    else if w.lower == 3 then
      CapabilityPtr(w.upper)
    else
      OtherPtr
  }

  function EncodeStruct(offset: i30, size: StructSize): Word {
    Word(AsU32(4 * offset), size.data + U16_LIMIT * size.ptrs)
  }

  function EncodeList(offset: i30, element: PtrElementSize, count: u29): Word {
    Word(AsU32(4 * offset) + 1, 8 * count + SizeCode(element))
  }

  function EncodeFar(segment: u32, pad: u29, double: bool): Word {
    Word(8 * pad + (if double then 4 else 0) + 2, segment)
  }

  function EncodeCapability(index: u32): Word {
    Word(3, index)
  }

  /** `StructPtr::new_inline_composite_tag`. */
  function EncodeTag(count: u29, size: StructSize): Word {
    Word(4 * count, size.data + U16_LIMIT * size.ptrs)
  }

  lemma StructRoundTrip(offset: i30, size: StructSize)
    ensures Decode(EncodeStruct(offset, size)) == StructPtr(offset, size)
    ensures EncodeStruct(offset, size).IsNull() <==> offset == 0 && size == EMPTY
  {
  }

  lemma ListRoundTrip(offset: i30, element: PtrElementSize, count: u29)
    ensures Decode(EncodeList(offset, element, count)) == ListPtr(offset, element, count)
    ensures !EncodeList(offset, element, count).IsNull()
  {
  }

  lemma FarRoundTrip(segment: u32, pad: u29, double: bool)
    ensures Decode(EncodeFar(segment, pad, double)) == FarPtr(pad, double, segment)
    ensures !EncodeFar(segment, pad, double).IsNull()
  {
  }

  lemma CapabilityRoundTrip(index: u32)
    ensures Decode(EncodeCapability(index)) == CapabilityPtr(index)
    ensures !EncodeCapability(index).IsNull()
  {
  }

  lemma TagRoundTrip(count: u29, size: StructSize)
    ensures Decode(EncodeTag(count, size)).StructPtr?
    ensures Decode(EncodeTag(count, size)).size == size
    ensures TagElementCount(EncodeTag(count, size)) == count
  {
  }

  /** Moving a pointer changes its offset and nothing else. */
  lemma MovedPointer(w: Word, offset: i30)
    ensures match Decode(w)
            case StructPtr(_, size) => Decode(WithContentOffset(w, offset)) == StructPtr(offset, size)
            case ListPtr(_, element, count) =>
              Decode(WithContentOffset(w, offset)) == ListPtr(offset, element, count)
            case _ => true
  {
  }

  /** Every pointer word is the encoding of what it decodes to. */
  lemma EncodeDecode(w: Word)
    ensures match Decode(w)
            case StructPtr(offset, size) => EncodeStruct(offset, size) == w
            case ListPtr(offset, element, count) => EncodeList(offset, element, count) == w
            case FarPtr(pad, double, segment) => EncodeFar(segment, pad, double) == w
            case CapabilityPtr(index) => EncodeCapability(index) == w
            case OtherPtr => w.lower % 4 == 3 && w.lower != 3
  {
  }
}
