/**
 Where the segments of a serialized message are: the table of start positions against the scan of lengths.
 */
module Segments {
  import opened Options
  import opened Wire
  import opened Sums

  datatype TableError = SegmentTooLarge(segment: nat) | MessageTooLarge

  datatype Result<+T> = Ok(value: T) | Err(error: TableError)

  /** The start positions of all segments but the first. */
  datatype Table = Table(starts: seq<nat>)

  /** The bounds of a segment; the last one is bounded by the end of the message. */
  datatype Bounds = Bounds(start: nat, end: Option<nat>)

  /** The first `n` lengths are lengths of segments, and together within the limit. */
  predicate Accepted(lens: seq<u32>, n: nat, limit: nat)
    requires n <= |lens|
  {
    (forall i :: 0 <= i < n ==> lens[i] <= U29_MAX) && Sum(lens[..n]) <= limit
  }

  /** `from_stream`: the table and the length of the message, or the first error. */
  method FromStream(lens: seq<u32>, limit: nat) returns (r: Result<(Table, nat)>)
    requires |lens| > 0
    ensures r.Ok? <==> Accepted(lens, |lens|, limit)
    ensures r.Ok? ==>
              && |r.value.0.starts| == |lens| - 1
              && (forall i :: 0 <= i < |lens| - 1 ==> r.value.0.starts[i] == Sum(lens[..i + 1]))
              && r.value.1 == Sum(lens)
    ensures r.Err? && r.error.SegmentTooLarge? ==>
              r.error.segment < |lens| && lens[r.error.segment] > U29_MAX && Accepted(lens, r.error.segment, limit)
    ensures r.Err? && r.error.MessageTooLarge? ==>
              exists n ::
                && 0 < n <= |lens| && Accepted(lens, n - 1, limit)
                && lens[n - 1] <= U29_MAX && Sum(lens[..n]) > limit
  {
    SumUpTo(lens, 0);
    if lens[0] > U29_MAX {
      return Err(SegmentTooLarge(0));
    }
    var current := lens[0];
    if current > limit {
      assert Sum(lens[..1]) > limit && Accepted(lens, 0, limit);
      SumGrows(lens, 1, |lens|);
      return Err(MessageTooLarge);
    }
    var starts := [];
    for id := 1 to |lens|
      invariant current == Sum(lens[..id]) && Accepted(lens, id, limit)
      invariant |starts| == id - 1 && forall i :: 0 <= i < id - 1 ==> starts[i] == Sum(lens[..i + 1])
    {
      SumUpTo(lens, id);
      if lens[id] > U29_MAX {
        return Err(SegmentTooLarge(id));
      }
      if current + lens[id] > limit {
        assert Sum(lens[..id + 1]) > limit;
        SumGrows(lens, id + 1, |lens|);
        return Err(MessageTooLarge);
      }
      starts := starts + [current];
      current := current + lens[id];
    }
    assert lens[..|lens|] == lens;
    r := Ok((Table(starts), current));
  }

  /** `segment_bounds`. */
  function SegmentBounds(table: Table, id: nat): Option<Bounds> {
    if id > |table.starts| then None
    else Some(Bounds(if id == 0 then 0 else table.starts[id - 1],
                     if id < |table.starts| then Some(table.starts[id]) else None))
  }

  /** What the scan of the lengths returns for a segment, or that it indexes past the data. */
  datatype Scanned = NoSegment | Segment(start: nat, len: nat) | OutOfRange

  /** `TableSegmentSet::segment` on data of the total length. */
  function Scan(lens: seq<u32>, id: nat): Scanned {
    if id >= |lens| then NoSegment
    else if Sum(lens[..id]) >= Sum(lens) then OutOfRange
    else Segment(Sum(lens[..id]), lens[id])
  }

  /** The table a message's lengths give. */
  predicate TableOf(table: Table, lens: seq<u32>) {
    |lens| > 0 && |table.starts| == |lens| - 1
    && forall i :: 0 <= i < |lens| - 1 ==> table.starts[i] == Sum(lens[..i + 1])
  }

  /**
   The index and the scan agree on every segment, except where the scan indexes past the data: exactly for
   the empty segments behind the last one that is not empty.
   */
  lemma IndexAgreesWithScan(table: Table, lens: seq<u32>, id: nat)
    requires TableOf(table, lens)
    ensures SegmentBounds(table, id).None? <==> Scan(lens, id).NoSegment?
    ensures SegmentBounds(table, id).Some? ==>
              var bounds := SegmentBounds(table, id).value;
              var end := if bounds.end.Some? then bounds.end.value else Sum(lens);
              && id < |lens| && bounds.start == Sum(lens[..id]) && end == bounds.start + lens[id]
              && (Scan(lens, id) == Segment(bounds.start, lens[id]) <==> exists i :: id <= i < |lens| && lens[i] > 0)
  {
    if id < |lens| {
      SumUpTo(lens, id);
      SumGrows(lens, id, |lens|);
      assert lens[..|lens|] == lens;
    }
  }

  /** The scan of an empty segment at the end of a message. */
  lemma EmptyLastSegment()
    ensures TableOf(Table([1]), [1, 0])
    ensures SegmentBounds(Table([1]), 1) == Some(Bounds(1, None)) && Scan([1, 0], 1) == OutOfRange
  {
    SumUpTo([1, 0], 0);
    SumUpTo([1, 0], 1);
    assert [1, 0][..2] == [1, 0];
  }

  // ----- The segments of a message

  /** `SegmentSet`: the words of a message and where its segments start. */
  datatype SegmentSet<+T> = SegmentSet(slice: seq<T>, table: Table)

  /** `SegmentSet::segment`: the words between the bounds; a start behind the end or the message panics. */
  function SegmentAt<T>(segments: SegmentSet<T>, id: nat): (r: Option<seq<T>>)
    requires InBounds(segments, id)
  {
    match SegmentBounds(segments.table, id)
    case None => None
    case Some(Bounds(start, end)) =>
      Some(if end.Some? then segments.slice[start..end.value] else segments.slice[start..])
  }

  predicate InBounds<T>(segments: SegmentSet<T>, id: nat) {
    match SegmentBounds(segments.table, id)
    case None => true
    case Some(Bounds(start, end)) =>
      if end.Some? then start <= end.value <= |segments.slice| else start <= |segments.slice|
  }

  /** The first `n` segments, one behind the other. */
  function Joined<T>(segments: SegmentSet<T>, n: nat): seq<T>
    requires forall id :: 0 <= id < n ==> InBounds(segments, id) && SegmentAt(segments, id).Some?
  {
    if n == 0 then [] else Joined(segments, n - 1) + SegmentAt(segments, n - 1).value
  }

  /** Every segment is there with the length the table gave, and there are no others. */
  ghost predicate Complete<T>(segments: SegmentSet<T>, lens: seq<u32>) {
    && (forall id: nat :: InBounds(segments, id))
    && (forall id: nat :: SegmentAt(segments, id).Some? <==> id < |lens|)
    && forall id :: 0 <= id < |lens| ==> |SegmentAt(segments, id).value| == lens[id]
  }

  lemma SegmentsComplete<T>(segments: SegmentSet<T>, lens: seq<u32>)
    requires TableOf(segments.table, lens) && |segments.slice| == Sum(lens)
    ensures Complete(segments, lens)
  {
    forall id: nat
      ensures InBounds(segments, id)
      ensures SegmentAt(segments, id).Some? <==> id < |lens|
      ensures id < |lens| ==> |SegmentAt(segments, id).value| == lens[id]
    {
      if id < |lens| {
        SegmentIs(segments, lens, id);
      }
    }
  }

  lemma BoundsAre(table: Table, lens: seq<u32>, id: nat)
    requires TableOf(table, lens) && id < |lens|
    ensures Sum(lens[..id]) <= Sum(lens[..id + 1]) == Sum(lens[..id]) + lens[id] <= Sum(lens)
    ensures SegmentBounds(table, id)
         == Some(Bounds(Sum(lens[..id]), if id + 1 < |lens| then Some(Sum(lens[..id + 1])) else None))
    ensures id + 1 == |lens| ==> Sum(lens[..id + 1]) == Sum(lens)
  {
    SumUpTo(lens, id);
    SumGrows(lens, id + 1, |lens|);
    assert lens[..|lens|] == lens;
  }

  lemma SegmentIs<T>(segments: SegmentSet<T>, lens: seq<u32>, id: nat)
    requires TableOf(segments.table, lens) && |segments.slice| == Sum(lens) && id < |lens|
    ensures Sum(lens[..id]) <= Sum(lens[..id + 1]) == Sum(lens[..id]) + lens[id] <= Sum(lens)
    ensures InBounds(segments, id)
    ensures SegmentAt(segments, id) == Some(segments.slice[Sum(lens[..id])..Sum(lens[..id + 1])])
  {
    hide Sum, TableOf, SegmentBounds;
    BoundsAre(segments.table, lens, id);
    var slice, a, b := segments.slice, Sum(lens[..id]), Sum(lens[..id + 1]);
    assert b == |slice| ==> slice[a..] == slice[a..b];
  }

  lemma {:induction false} JoinedIs<T>(segments: SegmentSet<T>, lens: seq<u32>, n: nat)
    requires TableOf(segments.table, lens) && |segments.slice| == Sum(lens) && n <= |lens|
    requires forall id :: 0 <= id < n ==> InBounds(segments, id) && SegmentAt(segments, id).Some?
    ensures Sum(lens[..n]) <= Sum(lens) && Joined(segments, n) == segments.slice[..Sum(lens[..n])]
  {
    hide Sum, InBounds, SegmentAt, TableOf;
    if n > 0 {
      JoinedIs(segments, lens, n - 1);
      SegmentIs(segments, lens, n - 1);
      var a, b := Sum(lens[..n - 1]), Sum(lens[..n]);
      assert segments.slice[..b] == segments.slice[..a] + segments.slice[a..b];
    } else {
      NoLengths(lens);
    }
  }

  lemma NoLengths(lens: seq<u32>)
    ensures Sum(lens[..0]) == 0 <= Sum(lens)
  {
  }

  /**
   The segments partition the content: one behind the other they are the words of the message, each with
   the length the table gave.
   */
  lemma SegmentsPartition<T>(segments: SegmentSet<T>, lens: seq<u32>)
    requires TableOf(segments.table, lens) && |segments.slice| == Sum(lens)
    ensures Complete(segments, lens) && Joined(segments, |lens|) == segments.slice
  {
    SegmentsComplete(segments, lens);
    JoinedIs(segments, lens, |lens|);
    assert lens[..|lens|] == lens;
  }

  /**
   `read_from_slice` behind the parsed stream table: the message and the untouched remainder. The first
   error is that of the table; content that is too short is one of its errors already.
   */
  method ReadFromSlice<T>(lens: seq<u32>, content: seq<T>) returns (r: Result<(SegmentSet<T>, seq<T>)>)
    requires |lens| > 0
    ensures r.Ok? <==> Accepted(lens, |lens|, |content|)
    ensures r.Ok? ==>
              var (segments, remainder) := r.value;
              && Sum(lens) <= |content| && remainder == content[Sum(lens)..]
              && Complete(segments, lens) && Joined(segments, |lens|) + remainder == content
    ensures r.Err? && r.error.SegmentTooLarge? ==>
              && r.error.segment < |lens| && lens[r.error.segment] > U29_MAX
              && Accepted(lens, r.error.segment, |content|)
    ensures r.Err? ==> r.error.SegmentTooLarge? || r.error == MessageTooLarge
  {
    var table := FromStream(lens, |content|);
    if table.Err? {
      return Err(table.error);
    }
    var (starts, messageLen) := table.value;
    assert lens[..|lens|] == lens;
    var segments := SegmentSet(content[..messageLen], starts);
    SegmentsPartition(segments, lens);
    r := Ok((segments, content[messageLen..]));
  }
}
