/**
 The hand-over of pipelined channels when a request is answered: `PipelineBuilder::build` calls on any
 number of threads against `resolve_pipeline_map`, at the granularity of the map's lock and of the loads
 and stores of the pipeline flag.
 */
module Pipeline {

  /** A pipelined channel under its key; channels are numbered in the order they are made. */
  datatype Entry = Entry(key: nat, chan: nat)

  datatype Lock = Free | HeldBy(thread: nat) | HeldByResolver

  /** Where a call to `build` is. */
  datatype Building =
    | Starting(key: nat)
    | Waiting(key: nat)
    | Holding(key: nat)
    | Direct(key: nat)
    | Returned(entry: Entry)
    | ReturnedDirect(key: nat)

  /** Where the responder is: `Handing` runs through a map it took, `Marked` set the flag under the lock. */
  datatype Responding =
    | Unanswered
    | Looping
    | Checking
    | Handing(pending: map<nat, nat>)
    | Marked
    | Done

  /**
   `alive`: the channels some strong reference keeps. `inserted`, `handed`, `lost`: what was ever put in
   the map, what was passed to the resolver, and what was found dead.
   */
  datatype State = State(flag: bool, answered: bool, lock: Lock, pipelines: map<nat, nat>, alive: set<nat>,
                         threads: map<nat, Building>, responder: Responding,
                         inserted: seq<Entry>, handed: seq<Entry>, lost: seq<Entry>)

  const START: State := State(false, false, Free, map[], {}, map[], Unanswered, [], [], [])

  datatype Step =
    | Call(t: nat, key: nat)
    | FirstLoad(t: nat)
    | Acquire(t: nat)
    | SecondLoad(t: nat)
    | Resolve(t: nat)
    | Die(chan: nat)
    | Respond
    | Lock
    | TakeMap
    | HandOver(key: nat)
    | NextRound
    | Unlock

  predicate Enabled(s: State, step: Step) {
    match step
    case Call(t, _) => t !in s.threads
    case FirstLoad(t) => t in s.threads && s.threads[t].Starting?
    case Acquire(t) => t in s.threads && s.threads[t].Waiting? && s.lock == Free
    case SecondLoad(t) => t in s.threads && s.threads[t].Holding?
    case Resolve(t) => t in s.threads && s.threads[t].Direct?
    case Die(chan) => forall i :: 0 <= i < |s.handed| ==> s.handed[i].chan != chan
    case Respond => s.responder == Unanswered
    case Lock => s.responder == Looping && s.lock == Free
    case TakeMap => s.responder == Checking
    case HandOver(key) => s.responder.Handing? && key in s.responder.pending
    case NextRound => s.responder == Handing(map[])
    case Unlock => s.responder == Marked
  }

  function At(s: State, t: nat, at: Building): State {
    s.(threads := s.threads[t := at])
  }

  /** Under the lock, with the flag unset: the live channel under the key, or a new one in its place. */
  function GetOrInsert(s: State, t: nat, key: nat): State {
    if key in s.pipelines && s.pipelines[key] in s.alive then
      At(s, t, Returned(Entry(key, s.pipelines[key]))).(lock := Free)
    else
      var made := Entry(key, |s.inserted|);
      var replaced := if key in s.pipelines then [Entry(key, s.pipelines[key])] else [];
      At(s, t, Returned(made)).(lock := Free, pipelines := s.pipelines[key := made.chan],
                                  alive := s.alive + {made.chan}, inserted := s.inserted + [made],
                                  lost := s.lost + replaced)
  }

  /** One round of the loop under the lock: mark the pipeline as resolved if the map is empty, else take it. */
  function TakeOrMark(s: State): State {
    if s.pipelines == map[] then s.(flag := true, responder := Marked)
    else s.(pipelines := map[], lock := Free, responder := Handing(s.pipelines))
  }

  /** `upgrade`, and the resolver if there still is a channel. */
  function Hand(s: State, key: nat): State
    requires s.responder.Handing? && key in s.responder.pending
  {
    var entry := Entry(key, s.responder.pending[key]);
    var s' := s.(responder := Handing(s.responder.pending - {key}));
    if entry.chan in s.alive then s'.(handed := s.handed + [entry]) else s'.(lost := s.lost + [entry])
  }

  function Apply(s: State, step: Step): State {
    if !Enabled(s, step) then
      s
    else
      match step
      case Call(t, key) => At(s, t, Starting(key))
      case FirstLoad(t) => At(s, t, if s.flag then Direct(s.threads[t].key) else Waiting(s.threads[t].key))
      case Acquire(t) => At(s, t, Holding(s.threads[t].key)).(lock := HeldBy(t))
      case SecondLoad(t) =>
        if s.flag then At(s, t, Direct(s.threads[t].key)).(lock := Free)
        else GetOrInsert(s, t, s.threads[t].key)
      case Resolve(t) => At(s, t, ReturnedDirect(s.threads[t].key))
      case Die(chan) => s.(alive := s.alive - {chan})
      case Respond => s.(answered := true, responder := Looping)
      case Lock => s.(lock := HeldByResolver, responder := Checking)
      case TakeMap => TakeOrMark(s)
      case HandOver(key) => Hand(s, key)
      case NextRound => s.(responder := Looping)
      case Unlock => s.(lock := Free, responder := Done)
  }

  function Run(s: State, steps: seq<Step>): State {
    if |steps| == 0 then s else Apply(Run(s, steps[..|steps| - 1]), steps[|steps| - 1])
  }

  // ----- The invariant

  predicate Under(entries: map<nat, nat>, entry: Entry) {
    entry.key in entries && entries[entry.key] == entry.chan
  }

  function Pending(s: State): map<nat, nat> {
    if s.responder.Handing? then s.responder.pending else map[]
  }

  /** The number of places an entry is in. */
  function Places(s: State, entry: Entry): nat {
    (if Under(s.pipelines, entry) then 1 else 0) + (if Under(Pending(s), entry) then 1 else 0)
    + multiset(s.handed)[entry] + multiset(s.lost)[entry]
  }

  predicate Exclusive(s: State) {
    && (forall t :: t in s.threads ==> (s.threads[t].Holding? <==> s.lock == HeldBy(t)))
    && (s.lock.HeldBy? ==> s.lock.thread in s.threads)
    && (s.lock.HeldByResolver? <==> s.responder.Checking? || s.responder.Marked?)
  }

  predicate Flagged(s: State) {
    && (s.flag <==> s.responder.Marked? || s.responder.Done?)
    && (s.flag ==> s.pipelines == map[])
    && (s.answered <==> !s.responder.Unanswered?)
    && forall t :: t in s.threads && (s.threads[t].Direct? || s.threads[t].ReturnedDirect?) ==> s.flag
  }

  ghost predicate Placed(s: State) {
    && (forall i :: 0 <= i < |s.inserted| ==> s.inserted[i].chan == i)
    && (forall entry: Entry :: Places(s, entry) == if entry in s.inserted then 1 else 0)
    && (forall i :: 0 <= i < |s.lost| ==> s.lost[i].chan !in s.alive)
    && (forall i :: 0 <= i < |s.handed| ==> s.handed[i].chan in s.alive)
    && (forall chan :: chan in s.alive ==> chan < |s.inserted|)
    && forall t :: t in s.threads && s.threads[t].Returned? ==> s.threads[t].entry in s.inserted
  }

  ghost predicate Sound(s: State) {
    Exclusive(s) && Flagged(s) && Placed(s)
  }

  lemma StepPlaced(s: State, step: Step)
    requires Sound(s)
    ensures Placed(Apply(s, step))
  {
    if Enabled(s, step) {
      match step {
        case SecondLoad(t) =>
          if !s.flag {
            InsertPlaced(s, t, s.threads[t].key);
          }
        case TakeMap => TakePlaced(s);
        case HandOver(key) => HandPlaced(s, key);
        case _ => QuietPlaced(s, step);
      }
      if step.SecondLoad? && s.flag {
        SamePlaces(s, Apply(s, step));
      }
    }
  }

  lemma SamePlaces(s: State, s': State)
    requires s.pipelines == s'.pipelines && Pending(s) == Pending(s')
    requires s.handed == s'.handed && s.lost == s'.lost
    ensures forall entry :: Places(s', entry) == Places(s, entry)
  {
  }

  lemma QuietPlaced(s: State, step: Step)
    requires Sound(s) && Enabled(s, step) && !step.SecondLoad? && !step.TakeMap? && !step.HandOver?
    ensures Placed(Apply(s, step))
  {
    SamePlaces(s, Apply(s, step));
    hide Places;
  }

  lemma InsertPlaced(s: State, t: nat, key: nat)
    requires Sound(s) && t in s.threads && s.threads[t] == Holding(key) && !s.flag
    ensures Placed(GetOrInsert(s, t, key))
  {
    var s' := GetOrInsert(s, t, key);
    if key in s.pipelines && s.pipelines[key] in s.alive {
      SamePlaces(s, s');
      var entry := Entry(key, s.pipelines[key]);
      assert Places(s, entry) >= 1;
    } else {
      NewPlaces(s, t, key);
      OldEntries(s);
      hide Places;
    }
  }

  /** A new entry is in the map, and the dead one it replaces is lost. */
  lemma NewPlaces(s: State, t: nat, key: nat)
    requires Placed(s) && t in s.threads
    requires !(key in s.pipelines && s.pipelines[key] in s.alive)
    ensures var s' := GetOrInsert(s, t, key);
            && (forall entry: Entry :: Places(s', entry) == if entry in s'.inserted then 1 else 0)
            && (key in s.pipelines ==> s.pipelines[key] < |s.inserted|)
  {
    var s' := GetOrInsert(s, t, key);
    NotInserted(s, Entry(key, |s.inserted|));
    forall entry: Entry
      ensures Places(s', entry) == if entry in s'.inserted then 1 else 0
    {
      assert Places(s, entry) == if entry in s.inserted then 1 else 0;
    }
    if key in s.pipelines {
      InsertedBefore(s, Entry(key, s.pipelines[key]));
    }
  }

  /** What was lost or handed over was inserted once. */
  lemma OldEntries(s: State)
    requires Placed(s)
    ensures forall i :: 0 <= i < |s.lost| ==> s.lost[i].chan < |s.inserted|
  {
    forall i | 0 <= i < |s.lost|
      ensures s.lost[i].chan < |s.inserted|
    {
      assert s.lost[i] in multiset(s.lost);
      InsertedBefore(s, s.lost[i]);
    }
  }

  lemma NotInserted(s: State, entry: Entry)
    requires Placed(s) && entry.chan >= |s.inserted|
    ensures entry !in s.inserted && Places(s, entry) == 0
  {
  }

  lemma InsertedBefore(s: State, entry: Entry)
    requires Placed(s) && Places(s, entry) >= 1
    ensures entry in s.inserted && entry.chan < |s.inserted|
  {
  }

  lemma TakePlaced(s: State)
    requires Sound(s) && s.responder == Checking
    ensures Placed(TakeOrMark(s))
  {
    var s' := TakeOrMark(s);
    forall entry: Entry
      ensures Places(s', entry) == Places(s, entry)
    {
    }
    hide Places;
  }

  lemma HandPlaced(s: State, key: nat)
    requires Sound(s) && s.responder.Handing? && key in s.responder.pending
    ensures Placed(Hand(s, key))
  {
    var s' := Hand(s, key);
    forall entry: Entry
      ensures Places(s', entry) == Places(s, entry)
    {
    }
    hide Places;
  }

  lemma StepSound(s: State, step: Step)
    requires Sound(s)
    ensures Sound(Apply(s, step))
  {
    hide Placed, Places;
    StepPlaced(s, step);
    StepExclusive(s, step);
    StepFlagged(s, step);
  }

  lemma StepExclusive(s: State, step: Step)
    requires Exclusive(s)
    ensures Exclusive(Apply(s, step))
  {
  }

  lemma StepFlagged(s: State, step: Step)
    requires Exclusive(s) && Flagged(s)
    ensures Flagged(Apply(s, step))
  {
  }

  lemma {:induction false} RunSound(s: State, steps: seq<Step>)
    requires Sound(s)
    ensures Sound(Run(s, steps))
  {
    if |steps| > 0 {
      RunSound(s, steps[..|steps| - 1]);
      StepSound(Run(s, steps[..|steps| - 1]), steps[|steps| - 1]);
    }
  }

  // ----- What holds of every interleaving

  /**
   Nobody is stranded. Under every interleaving, an inserted channel that is still alive is in the map, in
   the hands of the responder, or was passed to the resolver, and in only one of these places; once the
   flag is set the map is empty and it was passed to the resolver exactly once.
   */
  lemma NobodyIsStranded(steps: seq<Step>, entry: Entry)
    requires var s := Run(START, steps); entry in s.inserted && entry.chan in s.alive
    ensures var s := Run(START, steps);
            && (if Under(s.pipelines, entry) then 1 else 0) + (if Under(Pending(s), entry) then 1 else 0)
               + multiset(s.handed)[entry] == 1
            && (s.flag ==> s.pipelines == map[] && multiset(s.handed)[entry] == 1)
  {
    RunSound(START, steps);
    hide Run;
    var s := Run(START, steps);
    assert Places(s, entry) == 1;
    assert entry !in s.lost;
  }

  /** What a call to `build` returned before the flag was set is such a channel, under the key asked for. */
  lemma ReturnedWasInserted(steps: seq<Step>, t: nat)
    requires var s := Run(START, steps); t in s.threads && s.threads[t].Returned?
    ensures var s := Run(START, steps); s.threads[t].entry in s.inserted
  {
    RunSound(START, steps);
    hide Run;
  }

  /** A call reads the pipeline only after it was written: the answer is there before the flag is. */
  lemma DirectIsAnswered(steps: seq<Step>, t: nat)
    requires var s := Run(START, steps); t in s.threads && (s.threads[t].Direct? || s.threads[t].ReturnedDirect?)
    ensures var s := Run(START, steps); s.flag && s.answered
  {
    RunSound(START, steps);
    hide Run;
  }

  /** Once the flag is set it stays set, the map stays empty, and nothing is inserted or handed over any more. */
  lemma {:induction false} FlagIsFinal(s: State, steps: seq<Step>)
    requires Sound(s) && s.flag
    ensures var s' := Run(s, steps);
            Sound(s') && s'.flag && s'.pipelines == map[] && s'.inserted == s.inserted && s'.handed == s.handed
  {
    RunSound(s, steps);
    hide Sound;
    if |steps| > 0 {
      FlagIsFinal(s, steps[..|steps| - 1]);
      FlagStays(Run(s, steps[..|steps| - 1]), steps[|steps| - 1]);
    }
  }

  lemma FlagStays(s: State, step: Step)
    requires Sound(s) && s.flag
    ensures var s' := Apply(s, step);
            s'.flag && s'.pipelines == map[] && s'.inserted == s.inserted && s'.handed == s.handed
  {
    hide Placed, GetOrInsert, Places;
  }

  /** Under its key, the map holds the channel made last; and before the answer nothing was taken from the map. */
  ghost predicate Newest(s: State) {
    && (forall i :: 0 <= i < |s.inserted| && s.inserted[i].key in s.pipelines ==>
          s.inserted[i].chan <= s.pipelines[s.inserted[i].key])
    && (s.responder.Unanswered? ==> s.handed == [])
    && forall t :: t in s.threads && s.threads[t].Returned? ==> s.threads[t].entry in s.inserted
  }

  lemma StepNewest(s: State, step: Step)
    requires Sound(s) && Newest(s)
    ensures Newest(Apply(s, step))
  {
    hide Places;
    if Enabled(s, step) && step.SecondLoad? && !s.flag {
      InsertNewest(s, step.t, s.threads[step.t].key);
    }
  }

  lemma InsertNewest(s: State, t: nat, key: nat)
    requires Sound(s) && Newest(s) && t in s.threads && s.threads[t] == Holding(key) && !s.flag
    ensures Newest(GetOrInsert(s, t, key))
  {
    if key in s.pipelines && s.pipelines[key] in s.alive {
      assert Places(s, Entry(key, s.pipelines[key])) >= 1;
      InsertedBefore(s, Entry(key, s.pipelines[key]));
    }
    hide Places;
  }

  lemma {:induction false} RunNewest(steps: seq<Step>)
    ensures Sound(Run(START, steps)) && Newest(Run(START, steps))
  {
    if |steps| > 0 {
      RunNewest(steps[..|steps| - 1]);
      hide Sound, Newest, Apply;
      StepSound(Run(START, steps[..|steps| - 1]), steps[|steps| - 1]);
      StepNewest(Run(START, steps[..|steps| - 1]), steps[|steps| - 1]);
    }
  }

  /** The responder has the entry in its hands, or passed it on. */
  predicate Taken(s: State, entry: Entry) {
    Under(Pending(s), entry) || entry in s.handed
  }

  /**
   Calls for one key share a channel as long as it lives and the responder did not take it: two calls hold
   different live channels only if the responder took the one that was made first. Before the answer it
   takes none.
   */
  lemma SameKeySameChannel(steps: seq<Step>, t: nat, u: nat)
    requires var s := Run(START, steps);
             && t in s.threads && u in s.threads && s.threads[t].Returned? && s.threads[u].Returned?
             && s.threads[t].entry.key == s.threads[u].entry.key
             && s.threads[t].entry.chan in s.alive && s.threads[u].entry.chan in s.alive
    ensures var s := Run(START, steps);
            var a, b := s.threads[t].entry, s.threads[u].entry;
            && (a.chan < b.chan ==> Taken(s, a)) && (b.chan < a.chan ==> Taken(s, b))
            && (!s.answered ==> a == b)
  {
    RunNewest(steps);
    hide Run;
    var s := Run(START, steps);
    var a, b := s.threads[t].entry, s.threads[u].entry;
    LiveIsPlaced(s, a);
    LiveIsPlaced(s, b);
    hide Places;
  }

  lemma LiveIsPlaced(s: State, entry: Entry)
    requires Sound(s) && entry in s.inserted && entry.chan in s.alive
    ensures Under(s.pipelines, entry) || Taken(s, entry)
  {
    assert Places(s, entry) == 1;
    assert entry !in s.lost;
  }

  /** Between two rounds of the responder a second channel is made for a key, while the first one lives. */
  lemma SecondChannel()
    ensures exists steps ::
              var s := Run(START, steps);
              && 0 in s.threads && 1 in s.threads && !s.flag
              && s.threads[0] == Returned(Entry(7, 0)) && s.threads[1] == Returned(Entry(7, 1))
              && s.alive == {0, 1}
  {
    hide Run, Build, Apply;
    var one, two := Build(0, 7), [Respond, Lock, TakeMap];
    var three := Build(1, 7);
    var s1 := GetOrInsert(START, 0, 7);
    var s2 := s1.(answered := true, responder := Handing(map[7 := 0]), pipelines := map[]);
    BuildReturns(START, 0, 7);
    MapTaken(s1);
    BuildReturns(s2, 1, 7);
    RunsOn(START, one, two);
    RunsOn(START, one + two, three);
    assert Run(START, one + two + three) == GetOrInsert(s2, 1, 7);
  }

  /** A whole call to `build`. */
  function Build(t: nat, key: nat): seq<Step> {
    [Call(t, key), FirstLoad(t), Acquire(t), SecondLoad(t)]
  }

  lemma BuildReturns(s: State, t: nat, key: nat)
    requires t !in s.threads && s.lock == Free && !s.flag
    ensures Run(s, Build(t, key)) == GetOrInsert(s, t, key)
  {
    hide Run, Under, Places;
    FourSteps(s, Build(t, key));
    var s1 := Apply(s, Call(t, key));
    var s2 := Apply(s1, FirstLoad(t));
    var s3 := Apply(s2, Acquire(t));
    var entry := GetOrInsert(s, t, key).threads[t];
    assert s3.threads[t := entry] == s.threads[t := entry];
  }

  lemma MapTaken(s: State)
    requires s.responder == Unanswered && s.lock == Free && s.pipelines != map[]
    ensures Run(s, [Respond, Lock, TakeMap])
         == s.(answered := true, responder := Handing(s.pipelines), pipelines := map[])
  {
    hide Run, GetOrInsert, Hand;
    ThreeSteps(s, [Respond, Lock, TakeMap]);
  }

  lemma {:induction false} RunsOn(s: State, steps: seq<Step>, more: seq<Step>)
    ensures Run(s, steps + more) == Run(Run(s, steps), more)
  {
    if |more| == 0 {
      assert steps + more == steps;
    } else {
      RunsOn(s, steps, more[..|more| - 1]);
      assert (steps + more)[..|steps + more| - 1] == steps + more[..|more| - 1];
    }
  }

  lemma ThreeSteps(s: State, steps: seq<Step>)
    requires |steps| == 3
    ensures Run(s, steps) == Apply(Apply(Apply(s, steps[0]), steps[1]), steps[2])
  {
    assert steps[..2][..1] == [steps[0]] && steps[..2][1] == steps[1];
    assert Run(s, [steps[0]]) == Apply(s, steps[0]);
    hide Apply;
    assert Run(s, steps[..2]) == Apply(Run(s, steps[..2][..1]), steps[1]);
  }

  lemma FourSteps(s: State, steps: seq<Step>)
    requires |steps| == 4
    ensures Run(s, steps) == Apply(Apply(Apply(Apply(s, steps[0]), steps[1]), steps[2]), steps[3])
  {
    hide Apply;
    ThreeSteps(s, steps[..3]);
    assert Run(s, steps) == Apply(Run(s, steps[..3]), steps[3]);
  }

  // ----- Progress

  /** What a call to `build` has before it; a channel it inserts costs the responder up to four more steps. */
  function CallLeft(at: Building): nat {
    match at
    case Starting(_) => 10
    case Waiting(_) => 9
    case Holding(_) => 8
    case Direct(_) => 1
    case _ => 0
  }

  ghost function CallsLeft(threads: map<nat, Building>): nat
    decreases threads.Keys
  {
    if threads == map[] then
      0
    else
      var t :| t in threads;
      CallLeft(threads[t]) + CallsLeft(threads - {t})
  }

  lemma {:induction false} CallsWithout(threads: map<nat, Building>, t: nat)
    requires t in threads
    ensures CallsLeft(threads) == CallLeft(threads[t]) + CallsLeft(threads - {t})
    decreases threads.Keys
  {
    hide CallLeft;
    var u :| u in threads && CallsLeft(threads) == CallLeft(threads[u]) + CallsLeft(threads - {u});
    if u != t {
      CallsWithout(threads - {u}, t);
      CallsWithout(threads - {t}, u);
      assert threads - {u} - {t} == threads - {t} - {u};
    }
  }

  /** The thread goes on. */
  lemma CallsAfter(threads: map<nat, Building>, t: nat, at: Building)
    ensures CallsLeft(threads[t := at])
         == CallsLeft(threads) - (if t in threads then CallLeft(threads[t]) else 0) + CallLeft(at)
  {
    hide CallLeft;
    var threads' := threads[t := at];
    CallsWithout(threads', t);
    if t in threads {
      CallsWithout(threads, t);
      assert threads' - {t} == threads - {t};
    } else {
      assert threads' - {t} == threads;
    }
  }

  /** The steps the responder has before it: one for each channel, and a round for every map it takes. */
  function ResponderLeft(s: State): nat {
    match s.responder
    case Unanswered => 1 + LoopLeft(|s.pipelines|)
    case Looping => LoopLeft(|s.pipelines|)
    case Checking => LoopLeft(|s.pipelines|) - 1
    case Handing(pending) => |pending| + 1 + LoopLeft(|s.pipelines|)
    case Marked => 1
    case Done => 0
  }

  function LoopLeft(n: nat): nat {
    if n == 0 then 3 else n + 6
  }

  /** All steps that are left if there are no further calls. */
  ghost function Left(s: State): nat {
    CallsLeft(s.threads) + ResponderLeft(s)
  }

  /** A step of the responder, or of a call that was made. */
  predicate IsProgress(step: Step) {
    !step.Call? && !step.Die?
  }

  /** Whatever is scheduled, every step of the responder and of a call that was made leaves less to do. */
  lemma StepLeavesLess(s: State, step: Step)
    requires Sound(s) && Enabled(s, step)
    ensures IsProgress(step) ==> Left(Apply(s, step)) < Left(s)
    ensures step.Die? ==> Left(Apply(s, step)) == Left(s)
    ensures step.Call? ==> Left(Apply(s, step)) == Left(s) + 10
  {
    hide CallsLeft, ResponderLeft, Apply, Sound;
    match step {
      case Respond | Lock | TakeMap | HandOver(_) | NextRound | Unlock => ResponderStep(s, step);
      case SecondLoad(t) => SecondLoadStep(s, t);
      case _ => OtherStep(s, step);
    }
  }

  lemma ResponderStep(s: State, step: Step)
    requires Enabled(s, step)
    requires step.Respond? || step.Lock? || step.TakeMap? || step.HandOver? || step.NextRound? || step.Unlock?
    ensures Apply(s, step).threads == s.threads && ResponderLeft(Apply(s, step)) < ResponderLeft(s)
  {
    hide GetOrInsert;
    if step.HandOver? {
      HandLeavesLess(s, step.key);
      hide Hand;
    }
  }

  lemma HandLeavesLess(s: State, key: nat)
    requires s.responder.Handing? && key in s.responder.pending
    ensures Hand(s, key).threads == s.threads && ResponderLeft(Hand(s, key)) < ResponderLeft(s)
  {
    OneLess(s.responder.pending, key);
  }

  lemma OneLess(entries: map<nat, nat>, key: nat)
    requires key in entries
    ensures |entries - {key}| == |entries| - 1
  {
    assert entries.Keys == (entries - {key}).Keys + {key};
  }

  lemma SecondLoadStep(s: State, t: nat)
    requires Enabled(s, SecondLoad(t))
    ensures Left(Apply(s, SecondLoad(t))) < Left(s)
  {
    hide CallsLeft;
    var s' := Apply(s, SecondLoad(t));
    assert s'.threads == s.threads[t := s'.threads[t]] && CallLeft(s'.threads[t]) <= 1;
    CallsAfter(s.threads, t, s'.threads[t]);
    OneMore(s.pipelines, s.threads[t].key, |s.inserted|);
    hide GetOrInsert;
  }

  lemma OtherStep(s: State, step: Step)
    requires Enabled(s, step)
    requires step.Call? || step.FirstLoad? || step.Acquire? || step.Resolve? || step.Die?
    ensures IsProgress(step) ==> Left(Apply(s, step)) < Left(s)
    ensures step.Die? ==> Left(Apply(s, step)) == Left(s)
    ensures step.Call? ==> Left(Apply(s, step)) == Left(s) + 10
  {
    hide CallsLeft;
    var s' := Apply(s, step);
    if !step.Die? {
      assert s'.threads == s.threads[step.t := s'.threads[step.t]];
      CallsAfter(s.threads, step.t, s'.threads[step.t]);
    }
  }

  lemma OneMore(entries: map<nat, nat>, key: nat, chan: nat)
    ensures |entries[key := chan]| == |entries| + if key in entries then 0 else 1
  {
    assert entries[key := chan].Keys == entries.Keys + {key};
  }

  /** The next step of the responder, or of the call that holds the lock it waits for. */
  ghost function NextStep(s: State): Step {
    match s.responder
    case Unanswered => Respond
    case Looping => if s.lock.HeldBy? then SecondLoad(s.lock.thread) else Lock
    case Checking => TakeMap
    case Handing(pending) =>
      if pending == map[] then
        NextRound
      else
        var key :| key in pending;
        HandOver(key)
    case _ => Unlock
  }

  /** Until it is done, the responder can go on, or waits for a call that can. */
  lemma NeverStuck(s: State)
    requires Sound(s) && !s.responder.Done?
    ensures Enabled(s, NextStep(s)) && IsProgress(NextStep(s))
    ensures NextStep(s).SecondLoad? ==> s.lock == HeldBy(NextStep(s).t)
  {
    hide Placed, Places;
  }

  /** The steps of a schedule that were progress, and the calls that were made in it. */
  function ProgressIn(s: State, steps: seq<Step>): nat {
    if |steps| == 0 then 0
    else
      var last := steps[|steps| - 1];
      ProgressIn(s, steps[..|steps| - 1])
      + if IsProgress(last) && Enabled(Run(s, steps[..|steps| - 1]), last) then 1 else 0
  }

  function CallsIn(steps: seq<Step>): nat {
    if |steps| == 0 then 0 else CallsIn(steps[..|steps| - 1]) + if steps[|steps| - 1].Call? then 1 else 0
  }

  /**
   Every schedule comes to an end: it has no more steps that are progress than were left when it began, and
   ten for every call that is made in it; and if the responder has answered and nobody can go on, it is done.
   */
  lemma {:induction false} SchedulesEnd(s: State, steps: seq<Step>)
    requires Sound(s)
    ensures ProgressIn(s, steps) + Left(Run(s, steps)) <= Left(s) + 10 * CallsIn(steps)
    ensures var s' := Run(s, steps);
            (forall step :: IsProgress(step) ==> !Enabled(s', step)) ==> s'.responder.Done? && s'.flag
  {
    RunSound(s, steps);
    hide Apply, Placed, Left, Enabled;
    if |steps| > 0 {
      var fore, last := steps[..|steps| - 1], steps[|steps| - 1];
      SchedulesEnd(s, fore);
      RunSound(s, fore);
      if Enabled(Run(s, fore), last) {
        StepLeavesLess(Run(s, fore), last);
      } else {
        DisabledStays(Run(s, fore), last);
      }
    }
    if !Run(s, steps).responder.Done? {
      NeverStuck(Run(s, steps));
    }
  }

  lemma DisabledStays(s: State, step: Step)
    requires !Enabled(s, step)
    ensures Apply(s, step) == s
  {
    hide Enabled;
  }

  /** Every step is the next one of the responder, or of the call that holds the lock it waits for. */
  ghost predicate Drives(s: State, steps: seq<Step>) {
    forall n :: 0 <= n < |steps| ==> steps[n] == NextStep(Run(s, steps[..n]))
  }

  /**
   From every reachable state the responder comes to an end by itself, waiting only for the call that holds the
   lock; and then every inserted channel that lives was handed over exactly once.
   */
  lemma {:induction false} ResponderFinishes(s: State) returns (steps: seq<Step>)
    requires Sound(s)
    ensures Drives(s, steps) && |steps| <= Left(s) && CallsIn(steps) == 0
    ensures var s' := Run(s, steps);
            && s'.responder.Done? && s'.flag && s'.pipelines == map[]
            && forall entry :: entry in s'.inserted && entry.chan in s'.alive ==> multiset(s'.handed)[entry] == 1
    decreases Left(s)
  {
    hide Apply, Left, Places;
    if s.responder.Done? {
      steps := [];
      HandedOnce(s);
    } else {
      var step := NextStep(s);
      NeverStuck(s);
      StepSound(s, step);
      StepLeavesLess(s, step);
      hide Sound;
      var rest := ResponderFinishes(Apply(s, step));
      steps := [step] + rest;
      FirstStep(s, step, rest);
    }
  }

  lemma HandedOnce(s: State)
    requires Sound(s) && s.responder.Done?
    ensures s.flag && s.pipelines == map[]
    ensures forall entry :: entry in s.inserted && entry.chan in s.alive ==> multiset(s.handed)[entry] == 1
  {
    forall entry | entry in s.inserted && entry.chan in s.alive
      ensures multiset(s.handed)[entry] == 1
    {
      assert Places(s, entry) == 1;
      assert entry !in s.lost;
    }
  }

  lemma FirstStep(s: State, step: Step, rest: seq<Step>)
    requires step == NextStep(s) && !step.Call? && Drives(Apply(s, step), rest) && CallsIn(rest) == 0
    ensures Drives(s, [step] + rest) && Run(s, [step] + rest) == Run(Apply(s, step), rest)
    ensures CallsIn([step] + rest) == 0
  {
    hide Apply, NextStep;
    var steps := [step] + rest;
    assert Run(s, [step]) == Apply(s, step);
    RunsOn(s, [step], rest);
    CallsInBoth([step], rest);
    forall n | 0 <= n < |steps|
      ensures steps[n] == NextStep(Run(s, steps[..n]))
    {
      if n > 0 {
        assert steps[..n] == [step] + rest[..n - 1];
        RunsOn(s, [step], rest[..n - 1]);
      }
    }
  }

  lemma {:induction false} CallsInBoth(steps: seq<Step>, more: seq<Step>)
    ensures CallsIn(steps + more) == CallsIn(steps) + CallsIn(more)
  {
    if |more| == 0 {
      assert steps + more == steps;
    } else {
      CallsInBoth(steps, more[..|more| - 1]);
      assert (steps + more)[..|steps + more| - 1] == steps + more[..|more| - 1];
    }
  }

  // ----- The key asked for

  function KeyOf(at: Building): nat {
    match at
    case Returned(entry) => entry.key
    case _ => at.key
  }

  /** Step `n` is where thread `t` calls `build`. */
  predicate CallsAt(steps: seq<Step>, n: nat, t: nat) {
    n < |steps| && steps[n].Call? && steps[n].t == t && !CallsBefore(steps, n, t)
  }

  predicate CallsBefore(steps: seq<Step>, n: nat, t: nat)
    requires n <= |steps|
  {
    exists m :: 0 <= m < n && steps[m].Call? && steps[m].t == t
  }

  /** A call returns what is under the key it was made with, in both ways. */
  lemma {:induction false} KeyIsKept(steps: seq<Step>, n: nat, t: nat)
    requires CallsAt(steps, n, t)
    ensures t in Run(START, steps).threads && KeyOf(Run(START, steps).threads[t]) == steps[n].key
    decreases |steps|
  {
    var fore := steps[..|steps| - 1];
    if n == |fore| {
      NotCalled(fore, t);
    } else {
      assert CallsAt(fore, n, t) by {
        assert forall m :: 0 <= m < n ==> fore[m] == steps[m];
      }
      KeyIsKept(fore, n, t);
      StepKeepsKey(Run(START, fore), steps[|steps| - 1], t);
    }
  }

  lemma StepKeepsKey(s: State, step: Step, t: nat)
    requires t in s.threads
    ensures t in Apply(s, step).threads && KeyOf(Apply(s, step).threads[t]) == KeyOf(s.threads[t])
  {
  }

  lemma {:induction false} NotCalled(steps: seq<Step>, t: nat)
    requires !CallsBefore(steps, |steps|, t)
    ensures t !in Run(START, steps).threads
  {
    if |steps| > 0 {
      var fore := steps[..|steps| - 1];
      assert !CallsBefore(fore, |fore|, t) by {
        assert forall m :: 0 <= m < |fore| ==> fore[m] == steps[m];
      }
      NotCalled(fore, t);
    }
  }
}
