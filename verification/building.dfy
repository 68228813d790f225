/**
 Runs of the builder: structs and lists allocated one after the other into null pointers of what was
 allocated before, and data words written, from an empty message on.
 */
module Building {
  import opened Wire
  import opened Reader
  import opened Values
  import opened Layout
  import opened Putting
  import opened Promotion

  /** An object as the allocation returned it, and the pointer that was written. */
  datatype Placement = Placement(at: Addr, shape: Shape, start: Addr)

  datatype Build = Build(st: St, objects: seq<Placement>)

  datatype Step =
    | AllocRoot(shape: Shape)
    | AllocIn(i: nat, k: nat, shape: Shape)
    | WriteData(i: nat, k: nat, word: Word)

  const ROOT: Addr := Addr(0, 0)

  /** A message with a root segment of that capacity and nothing in it, whose allocator answers as planned. */
  function Empty(capacity: nat, plan: seq<Grant>): Build {
    Build(St([[NULL]], [capacity], 0, plan), [])
  }

  /** The words an object takes: its content, its tag, and the landing pads of its pointer. */
  ghost function Own(mem: Mem, p: Placement): iset<Addr> {
    Body(p.start, Words(p.shape)) + Around(mem, p)
  }

  ghost function Around(mem: Mem, p: Placement): iset<Addr> {
    iset a: Addr | a in Tags(Object(p.shape, p.start)) || (InMem(mem, p.at) && a in Pads(mem, p.at))
  }

  /** The pointer resolves to exactly the object that was returned, whose words are its own. */
  ghost predicate Live(mem: Mem, p: Placement) {
    && InMem(mem, p.at) && !At(mem, p.at).IsNull()
    && Resolve(mem, p.at) == Ok(Object(p.shape, p.start))
    && Own(mem, p) <= AllWords(mem)
    && Body(p.start, Words(p.shape)) !! Around(mem, p) && Pads(mem, p.at) !! Tags(Object(p.shape, p.start))
    && ROOT !in Own(mem, p)
  }

  /** Pointer slot `k` of an object. */
  predicate IsField(p: Placement, k: nat) {
    k < Words(p.shape) && IsPtrSlot(p.shape, k)
  }

  /** The pointer to `p` is a field of `q`. */
  ghost predicate HeldBy(p: Placement, q: Placement) {
    exists k :: IsField(q, k) && p.at == Slot(q.start, k)
  }

  ghost predicate AllLive(b: Build) {
    forall i :: 0 <= i < |b.objects| ==> Live(b.st.mem, b.objects[i])
  }

  ghost predicate AllApart(b: Build) {
    forall i, j :: 0 <= i < j < |b.objects| ==> Own(b.st.mem, b.objects[i]) !! Own(b.st.mem, b.objects[j])
  }

  ghost predicate AllHeld(b: Build) {
    forall i :: 0 <= i < |b.objects| ==>
      b.objects[i].at == ROOT || exists j :: 0 <= j < |b.objects| && HeldBy(b.objects[i], b.objects[j])
  }

  ghost predicate Sound(b: Build) {
    ValidSt(b.st) && AllLive(b) && AllApart(b) && AllHeld(b)
  }

  /** The pointer an allocation writes. */
  predicate CanAlloc(b: Build, at: Addr, shape: Shape) {
    Askable(shape) && InMem(b.st.mem, at) && At(b.st.mem, at).IsNull()
  }

  predicate Enabled(b: Build, step: Step) {
    match step
    case AllocRoot(shape) => CanAlloc(b, ROOT, shape)
    case AllocIn(i, k, shape) =>
      i < |b.objects| && IsField(b.objects[i], k) && CanAlloc(b, Slot(b.objects[i].start, k), shape)
    case WriteData(i, k, _) =>
      && i < |b.objects| && k < Words(b.objects[i].shape) && !IsPtrSlot(b.objects[i].shape, k)
      && InMem(b.st.mem, Slot(b.objects[i].start, k))
  }

  function AllocAt(b: Build, at: Addr, shape: Shape): (b': Build)
    requires ValidSt(b.st) && CanAlloc(b, at, shape)
    ensures ValidSt(b'.st)
  {
    hide AllocObject;
    AllocObjectGood(b.st, at, shape);
    var r := AllocObject(b.st, at, shape);
    if r.Failed? then b.(st := r.st) else Build(r.st, b.objects + [Placement(at, shape, r.start)])
  }

  function Apply(b: Build, step: Step): (b': Build)
    requires ValidSt(b.st)
    ensures ValidSt(b'.st)
  {
    hide AllocAt, SetWord, CanAlloc;
    if !Enabled(b, step) then
      b
    else
      match step
      case AllocRoot(shape) => AllocAt(b, ROOT, shape)
      case AllocIn(i, k, shape) => AllocAt(b, Slot(b.objects[i].start, k), shape)
      case WriteData(i, k, word) =>
        SetWordGood(b.st, Slot(b.objects[i].start, k), word);
        b.(st := SetWord(b.st, Slot(b.objects[i].start, k), word))
  }

  // ----- Changes that leave an object alone

  /** Words outside an object change: it stays what it was. */
  lemma LiveFrame(mem: Mem, mem': Mem, p: Placement, touched: Addr)
    requires Live(mem, p) && Keeps(mem, mem', iset{touched})
    requires touched != p.at && touched !in Around(mem, p)
    ensures Live(mem', p) && Own(mem', p) == Own(mem, p)
  {
    hide Resolve, Pads, Tags, Words;
    ResolveFrame(mem, mem', p.at);
    assert Around(mem', p) == Around(mem, p);
  }

  lemma FieldInBody(p: Placement, k: nat)
    requires k < Words(p.shape)
    ensures Slot(p.start, k) in Body(p.start, Words(p.shape))
  {
  }

  /** A word of an object is around no object, and if it holds no pointer it is no pointer of another. */
  lemma NotAround(b: Build, i: nat, k: nat, j: nat)
    requires Sound(b) && i < |b.objects| && k < Words(b.objects[i].shape) && j < |b.objects|
    ensures Slot(b.objects[i].start, k) !in Around(b.st.mem, b.objects[j])
    ensures !IsPtrSlot(b.objects[i].shape, k) ==> Slot(b.objects[i].start, k) != b.objects[j].at
  {
    hide Words, IsPtrSlot, Resolve, ValidSt, Around;
    var p, q := b.objects[i], b.objects[j];
    FieldInBody(p, k);
    assert Live(b.st.mem, p) && Live(b.st.mem, q);
    OwnsApart(b, i, j);
    if !IsPtrSlot(p.shape, k) && Slot(p.start, k) == q.at {
      DataIsNoPointer(b, i, k, j);
    }
  }

  lemma OwnsApart(b: Build, i: nat, j: nat)
    requires Sound(b) && i < |b.objects| && j < |b.objects|
    ensures i != j ==> Own(b.st.mem, b.objects[i]) !! Own(b.st.mem, b.objects[j])
  {
    hide Own, Live, AllHeld, ValidSt;
  }

  lemma DataIsNoPointer(b: Build, i: nat, k: nat, j: nat)
    requires Sound(b) && i < |b.objects| && k < Words(b.objects[i].shape) && j < |b.objects|
    requires !IsPtrSlot(b.objects[i].shape, k)
    ensures Slot(b.objects[i].start, k) != b.objects[j].at
  {
    hide Words, IsPtrSlot, Resolve, ValidSt, Around, AllApart;
    var p, q := b.objects[i], b.objects[j];
    FieldInBody(p, k);
    assert Live(b.st.mem, p);
    if Slot(p.start, k) == q.at {
      var m :| 0 <= m < |b.objects| && HeldBy(q, b.objects[m]);
      var h :| IsField(b.objects[m], h) && q.at == Slot(b.objects[m].start, h);
      FieldInBody(b.objects[m], h);
      OwnsApart(b, i, m);
      assert false;
    }
  }

  // ----- The steps

  lemma WriteSound(b: Build, i: nat, k: nat, word: Word)
    requires Sound(b) && Enabled(b, WriteData(i, k, word))
    ensures Sound(Apply(b, WriteData(i, k, word)))
  {
    hide Words, IsPtrSlot, Own, Around, Live, HeldBy;
    var slot := Slot(b.objects[i].start, k);
    SetWordGood(b.st, slot, word);
    var st' := SetWord(b.st, slot, word);
    forall j | 0 <= j < |b.objects|
      ensures Live(st'.mem, b.objects[j]) && Own(st'.mem, b.objects[j]) == Own(b.st.mem, b.objects[j])
    {
      NotAround(b, i, k, j);
      LiveFrame(b.st.mem, st'.mem, b.objects[j], slot);
    }
  }

  /** `at` is the root pointer or a null field of an object. */
  ghost predicate IsFree(b: Build, at: Addr, shape: Shape) {
    && CanAlloc(b, at, shape)
    && (|| at == ROOT
        || exists i, k :: 0 <= i < |b.objects| && IsField(b.objects[i], k) && at == Slot(b.objects[i].start, k))
  }

  lemma FreeIsApart(b: Build, at: Addr, shape: Shape, j: nat)
    requires Sound(b) && IsFree(b, at, shape) && j < |b.objects|
    ensures at != b.objects[j].at && at !in Around(b.st.mem, b.objects[j])
  {
    hide Words, IsPtrSlot, Resolve, ValidSt, Around, Askable;
    var q := b.objects[j];
    assert Live(b.st.mem, q);
    if at != ROOT {
      var i, k :| 0 <= i < |b.objects| && IsField(b.objects[i], k) && at == Slot(b.objects[i].start, k);
      NotAround(b, i, k, j);
    }
  }

  /** The new object is live, and apart from everything that was there. */
  lemma NewIsLive(st: St, at: Addr, shape: Shape, r: Placing)
    requires ValidSt(st) && InMem(st.mem, at) && InMem(st.mem, ROOT)
    requires r.Placed? && ObjectPlaced(st, at, shape, r)
    ensures var p := Placement(at, shape, r.start);
            Live(r.st.mem, p) && Own(r.st.mem, p) !! AllWords(st.mem)
  {
    hide Resolve, Pads, Tags, Words;
    var p := Placement(at, shape, r.start);
    PadsInMem(r.st.mem, at);
    TagsInMem(r.st.mem, at);
    ApartFromBody(Pads(r.st.mem, at) + Tags(Object(shape, r.start)), r.start, Words(shape));
    if Words(shape) > 0 {
      FreshBody(st.mem, r.st.mem, r.start, Words(shape));
    }
  }

  lemma AllocSound(b: Build, at: Addr, shape: Shape)
    requires Sound(b) && IsFree(b, at, shape)
    ensures Sound(AllocAt(b, at, shape))
  {
    hide Words, IsPtrSlot, Own, Around, Live, HeldBy, AllocObject, Askable;
    AllocObjectGood(b.st, at, shape);
    var r := AllocObject(b.st, at, shape);
    KeepsAll(b, r.st, at, shape);
    if r.Placed? {
      NewIsLive(b.st, at, shape, r);
      var b' := AllocAt(b, at, shape);
      var n := |b.objects|;
      NewOwnIsApart(b, r.st, at, shape, Placement(at, shape, r.start));
      assert AllHeld(b') by {
        NewIsHeld(b, at, shape, Placement(at, shape, r.start));
      }
    }
  }

  /** The earlier objects after an allocation. */
  lemma KeepsAll(b: Build, st': St, at: Addr, shape: Shape)
    requires Sound(b) && IsFree(b, at, shape)
    requires ValidSt(st') && Keeps(b.st.mem, st'.mem, iset{at})
    ensures forall j :: 0 <= j < |b.objects| ==>
              Live(st'.mem, b.objects[j]) && Own(st'.mem, b.objects[j]) == Own(b.st.mem, b.objects[j])
  {
    hide Own, Around, Live, IsFree, Sound;
    assert AllLive(b) by { SoundParts(b); }
    forall j | 0 <= j < |b.objects|
      ensures Live(st'.mem, b.objects[j]) && Own(st'.mem, b.objects[j]) == Own(b.st.mem, b.objects[j])
    {
      FreeIsApart(b, at, shape, j);
      LiveFrame(b.st.mem, st'.mem, b.objects[j], at);
    }
  }

  lemma SoundParts(b: Build)
    requires Sound(b)
    ensures AllLive(b) && AllApart(b) && AllHeld(b) && ValidSt(b.st)
  {
  }

  lemma NewOwnIsApart(b: Build, st': St, at: Addr, shape: Shape, p: Placement)
    requires Sound(b) && Own(st'.mem, p) !! AllWords(b.st.mem)
    requires forall j :: 0 <= j < |b.objects| ==> Own(st'.mem, b.objects[j]) == Own(b.st.mem, b.objects[j])
    ensures AllApart(Build(st', b.objects + [p]))
  {
    hide Own, Around, Words;
    forall j | 0 <= j < |b.objects|
      ensures Own(b.st.mem, b.objects[j]) <= AllWords(b.st.mem)
    {
      assert Live(b.st.mem, b.objects[j]);
    }
  }

  lemma NewIsHeld(b: Build, at: Addr, shape: Shape, p: Placement)
    requires Sound(b) && IsFree(b, at, shape) && p.at == at
    ensures AllHeld(Build(b.st, b.objects + [p]))
  {
    hide IsField, Live, Own, CanAlloc;
    var objects := b.objects + [p];
    forall i | 0 <= i < |objects|
      ensures objects[i].at == ROOT || exists j :: 0 <= j < |objects| && HeldBy(objects[i], objects[j])
    {
      if objects[i].at != ROOT {
        if i < |b.objects| {
          var j :| 0 <= j < |b.objects| && HeldBy(b.objects[i], b.objects[j]);
          assert HeldBy(objects[i], objects[j]);
        } else {
          var j, k :| 0 <= j < |b.objects| && IsField(b.objects[j], k) && at == Slot(b.objects[j].start, k);
          assert HeldBy(objects[i], objects[j]);
        }
      }
    }
  }

  lemma StepSound(b: Build, step: Step)
    requires Sound(b)
    ensures Sound(Apply(b, step))
  {
    hide Sound, AllocAt, CanAlloc, SetWord, IsField;
    SoundParts(b);
    if Enabled(b, step) {
      match step
      case AllocRoot(shape) => AllocSound(b, ROOT, shape);
      case AllocIn(i, k, shape) => AllocSound(b, Slot(b.objects[i].start, k), shape);
      case WriteData(i, k, word) => WriteSound(b, i, k, word);
    }
  }

  lemma EmptySound(capacity: nat, plan: seq<Grant>)
    requires 0 < capacity <= U29_MAX
    ensures Sound(Empty(capacity, plan)) && ValidSt(Empty(capacity, plan).st)
  {
  }

  /** The message after the steps. */
  function Run(b: Build, steps: seq<Step>): (r: Build)
    requires ValidSt(b.st)
    ensures ValidSt(r.st)
  {
    if |steps| == 0 then b else Apply(Run(b, steps[..|steps| - 1]), steps[|steps| - 1])
  }

  lemma {:induction false} RunSound(b: Build, steps: seq<Step>)
    requires Sound(b)
    ensures Sound(Run(b, steps))
  {
    hide Sound, Apply;
    SoundParts(b);
    if |steps| > 0 {
      RunSound(b, steps[..|steps| - 1]);
      StepSound(Run(b, steps[..|steps| - 1]), steps[|steps| - 1]);
    }
  }

  /** What holds of an object of a message that was built. */
  ghost predicate ReadsBack(b: Build, i: nat) {
    i < |b.objects| ==>
      var p := b.objects[i];
      && InMem(b.st.mem, p.at) && Resolve(b.st.mem, p.at) == Ok(Object(p.shape, p.start))
      && Own(b.st.mem, p) <= AllWords(b.st.mem)
      && Body(p.start, Words(p.shape)) !! Around(b.st.mem, p)
      && Pads(b.st.mem, p.at) !! Tags(Object(p.shape, p.start))
      && forall j :: 0 <= j < |b.objects| && j != i ==> Own(b.st.mem, p) !! Own(b.st.mem, b.objects[j])
  }

  lemma SoundReadsBack(b: Build, i: nat)
    requires Sound(b)
    ensures ReadsBack(b, i)
  {
    hide Own, Resolve, Words, ValidSt;
    if i < |b.objects| {
      assert Live(b.st.mem, b.objects[i]);
      forall j | 0 <= j < |b.objects| && j != i
        ensures Own(b.st.mem, b.objects[i]) !! Own(b.st.mem, b.objects[j])
      {
        OwnsApart(b, i, j);
      }
    }
  }

  /**
   Whatever was built: every pointer that was written resolves, through the reader, to exactly the object
   that was returned, near, far or double-far; and objects, their tags and their landing pads are pairwise
   disjoint and inside the message.
   */
  lemma BuiltIsReadable(capacity: nat, plan: seq<Grant>, steps: seq<Step>, i: nat)
    requires 0 < capacity <= U29_MAX
    ensures ValidSt(Empty(capacity, plan).st) && ReadsBack(Run(Empty(capacity, plan), steps), i)
  {
    hide Run, Sound, ReadsBack;
    EmptySound(capacity, plan);
    RunSound(Empty(capacity, plan), steps);
    SoundReadsBack(Run(Empty(capacity, plan), steps), i);
  }

  // ----- A list that is not read back

  /** A composite list of two-word structs that fills a segment to the last word. */
  const FULL_LIST: Shape := CompositeShape(StructSize(2, 0), 0xFFF_FFFF)

  /** A message whose root segment is full, and whose allocator grants exactly what it is asked for. */
  const FULL_MESSAGE: St := St([[NULL]], [1], 0, [Grant(0), Grant(0)])

  lemma FullListSize()
    ensures Times(0xFFF_FFFF, StructSize(2, 0)) == U29_MAX - 1
  {
    TimesIsProduct(0xFFF_FFFF, StructSize(2, 0));
    hide Times;
  }

  /** In a full message whose allocator grants two segments, a list of a whole segment is placed. */
  lemma WholeSegmentPlaced(st: St, at: Addr, shape: Shape)
    requires ValidSt(st) && InMem(st.mem, at) && shape.CompositeShape? && ObjectTotal(shape) == U29_MAX
    requires |st.mem| == 1 && |st.mem[0]| == st.caps[0] && st.plan == [Grant(0), Grant(0)]
    ensures AllocObject(st, at, shape).Placed?
  {
    hide TotalWords, ObjectTotal, PlaceDoubleFar, SetWord;
    AllocSomewhereGood(st, at.seg, 2);
    var pad := AllocSomewhere(st, at.seg, 2);
    assert pad.Room? && |pad.st.mem| == 2 && |pad.st.mem[1]| == pad.st.caps[1];
    assert pad.st.plan == [Grant(0)] && pad.st.last == 1;
    ArenaAllocGood(pad.st, U29_MAX);
    assert ArenaAlloc(pad.st, U29_MAX).Room?;
  }

  /**
   The largest list does not come back: it is allocated without an error, and its pointer does not resolve to
   it, because the pad tells its element count where the word count belongs.
   */
  lemma FullListIsNotReadBack()
    ensures ValidSt(FULL_MESSAGE) && InMem(FULL_MESSAGE.mem, ROOT) && ValidShape(FULL_LIST)
    ensures var r := AllocObject(FULL_MESSAGE, ROOT, FULL_LIST);
            r.Placed? && InMem(r.st.mem, ROOT) && Resolve(r.st.mem, ROOT) != Ok(Object(FULL_LIST, r.start))
  {
    hide Times, AllocObject, Resolve;
    FullListSize();
    WholeSegmentPlaced(FULL_MESSAGE, ROOT, FULL_LIST);
    ReadBackExactly(FULL_MESSAGE, ROOT, FULL_LIST);
  }
}
