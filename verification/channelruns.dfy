/**
 What holds of channels over whole runs, and what single operations achieve.
 */
module ChannelRuns {
  import opened Options
  import opened Channels
  import opened ChannelSteps

  lemma StartSound()
    ensures Sound(START)
  {
  }

  /** The state a run of steps leads to from nothing. */
  function After(steps: seq<Step>): (net: Net)
    ensures Sound(net)
  {
    StartSound();
    Run(START, steps)
  }

  // ----- Whole runs

  /**
   Conservation: everything that was ever accepted into a queue is in exactly one place, where it waits,
   with who received it, answered with an error once, or discarded because it was an event on a closed
   channel.
   */
  lemma ExactlyOnePlace(steps: seq<Step>)
    ensures var net := After(steps);
            && multiset(net.past.sent)
               == Queued(net.chans) + multiset(net.past.received) + Requests(net.past.answered)
                  + multiset(net.past.discarded)
            && forall i :: 0 <= i < |net.past.discarded| ==> net.past.discarded[i].Event?
  {
    hide Run, Queued, Requests, Forest, InRange, Homed, InOrder, Delivered;
    StartSound();
    var net := Run(START, steps);
    Rearrange(multiset(net.past.sent), multiset(net.past.taken), Queued(net.chans), multiset(net.past.received),
              Requests(net.past.answered), multiset(net.past.discarded));
  }

  lemma Rearrange(sent: multiset<Item>, taken: multiset<Item>, queued: multiset<Item>, received: multiset<Item>,
                  answered: multiset<Item>, discarded: multiset<Item>)
    requires sent == taken + queued && taken == received + answered + discarded
    ensures sent == queued + received + answered + discarded
  {
  }

  /**
   Order: what was received of a sender is an initial part of what it sent, across any number of forwards;
   what still waits at its root is the final part of it.
   */
  lemma FirstSentFirstReceived(steps: seq<Step>, h: nat)
    requires h < |After(steps).senders|
    ensures var net := After(steps);
            && Of(net.past.received, h) <= Of(net.past.sent, h)
            && Of(net.past.sent, h) == Of(net.past.taken, h) + Of(net.chans[SenderRoot(net, h)].queue, h)
            && (!net.chans[SenderRoot(net, h)].resolution.Failed? ==>
                  Of(net.past.sent, h)
                  == Of(net.past.received, h) + Of(net.chans[SenderRoot(net, h)].queue, h))
  {
    hide Of, Run, Conserved;
  }

  /** Forwarding stays a forest: following links never comes back, and ends at a channel that is not forwarded. */
  lemma ForwardingIsAForest(steps: seq<Step>, c: nat)
    requires c < |After(steps).chans|
    ensures var net := After(steps);
            && (net.chans[c].resolution.Forwarded? ==> forall n: nat :: n > 0 ==> Follow(net, c, n) != c)
            && (forall n: nat :: n >= net.clock ==> Follow(net, c, n) == Root(net, c))
            && !net.chans[Root(net, c)].resolution.Forwarded?
  {
    hide Run, Of, Conserved, Root, Follow;
    var net := After(steps);
    if net.chans[c].resolution.Forwarded? {
      forall n: nat | n > 0
        ensures Follow(net, c, n) != c
      {
        NoCycle(net, c, n);
      }
    }
    forall n: nat | n >= net.clock
      ensures Follow(net, c, n) == Root(net, c)
    {
      FollowEnds(net, c, n);
    }
  }

  /** `net'` comes after `net`: resolutions are final, and history only grows. */
  predicate Later(net: Net, net': Net) {
    && |net.chans| <= |net'.chans| && |net.senders| <= |net'.senders|
    && (forall c :: 0 <= c < |net.chans| ==> FinalChan(net.chans[c], net'.chans[c]))
    && net.past.sent <= net'.past.sent && net.past.finished <= net'.past.finished
    && net.past.taken <= net'.past.taken && net.past.received <= net'.past.received
    && net.past.answered <= net'.past.answered && net.past.discarded <= net'.past.discarded
    && net.past.woken <= net'.past.woken
  }

  /** A resolved channel stays as it is: what is in the queue of a dropped one stays there. */
  predicate FinalChan(chan: Chan, chan': Chan) {
    !chan.resolution.Open? ==> chan' == chan
  }

  lemma RemovedLater(net: Net, c: nat, chan: Chan, n: nat, received: seq<Item>, answered: seq<Answer>,
                     discarded: seq<Item>)
    requires c < |net.chans| && n <= |net.chans[c].queue| && net.chans[c].resolution.Open?
    ensures Later(net, Removed(net, c, chan, n, received, answered, discarded))
  {
  }

  lemma AcceptedLater(net: Net, c: nat, item: Item)
    requires c < |net.chans| && net.chans[c].resolution.Open?
    ensures Later(net, Accepted(net, c, item))
  {
  }

  lemma LinkedLater(net: Net, c: nat, root: nat)
    requires c < |net.chans| && root < |net.chans| && c != root
    requires net.chans[c].resolution.Open? && net.chans[root].resolution.Open?
    ensures Later(net, Linked(net, c, root))
  {
  }

  lemma SameIsLater(net: Net)
    ensures Later(net, net)
  {
  }

  /** Of every operation that takes something out of a channel. */
  lemma ReceiverStepIsLater(net: Net, c: nat, error: nat, waker: nat)
    requires Sound(net) && c < |net.chans|
    ensures HasReceiver(net, c) ==>
              && Later(net, Closing(net, c, error)) && Later(net, Dropping(net, c))
              && Later(net, Receiving(net, c)) && Later(net, Polling(net, c, waker))
    ensures net.chans[c].holder.Weak? ==> Later(net, Upgrading(net, c))
  {
    hide Sound, Removed, Later, Batches, Answers, Events;
    HoldersAreOpen(net);
    SameIsLater(net);
    var chan := net.chans[c];
    if HasReceiver(net, c) {
      var order := Batches(chan.queue);
      RemovedLater(net, c, chan.(queue := [], waker := None, resolution := Failed(error), holder := Nobody),
                   |chan.queue|, [], Answers(order, error), Events(order));
      RemovedLater(net, c, chan.(resolution := Dropped, holder := Nobody), 0, [], [], []);
      RemovedLater(net, c, chan.(waker := Some(waker)), 0, [], [], []);
      if chan.queue != [] {
        RemovedLater(net, c, chan.(queue := chan.queue[1..]), 1, chan.queue[..1], [], []);
      }
    }
    if chan.holder.Weak? {
      RemovedLater(net, c, chan.(holder := Strong), 0, [], [], []);
    }
  }

  lemma ForwardIsLater(net: Net, c: nat, h: nat)
    requires Sound(net) && HasReceiver(net, c) && h < |net.senders|
    ensures Later(net, Forwarding(net, c, h))
  {
    hide Linked, Closing, Dropping, Later, Homed, InOrder, Delivered, Conserved, Settled;
    HoldersAreOpen(net);
    SameIsLater(net);
    var root := SenderRoot(net, h);
    ReceiverStepIsLater(net, c, if net.chans[root].resolution.Failed? then net.chans[root].resolution.error else 0, 0);
    if net.chans[root].resolution.Open? && root != c {
      LinkedLater(net, c, root);
    }
  }

  lemma SendIsLater(net: Net, item: Item)
    requires Sound(net) && item.via < |net.senders|
    ensures Later(net, Sending(net, item)) && Later(net, SendingFinished(net, item))
  {
    hide Accepted, Homed, InOrder, Delivered, Conserved, Settled;
    var root := SenderRoot(net, item.via);
    if net.chans[root].resolution.Open? {
      AcceptedLater(net, root, item);
    }
  }

  lemma NewIsLater(net: Net, resolution: Resolution<nat>, holder: Holder, h: nat)
    requires Sound(net)
    ensures !resolution.Forwarded? && (resolution.Open? <==> holder != Nobody) ==>
              Later(net, Growing(net, resolution, holder))
    ensures h < |net.senders| ==> Later(net, Cloning(net, h)) && Later(net, Resolving(net, h))
  {
    hide Sound, Root;
  }

  lemma StepIsLater(net: Net, step: Step)
    requires Sound(net)
    ensures Later(net, Apply(net, step))
  {
    hide Sound, Later, Growing, Cloning, Resolving, Sending, SendingFinished, Forwarding, Polling, Receiving, Closing,
         Dropping, Upgrading;
    SameIsLater(net);
    if Enabled(net, step) {
      match step {
        case NewChannel => NewIsLater(net, Open, Strong, 0);
        case NewBroken(error) => NewIsLater(net, Failed(error), Nobody, 0);
        case NewWeak => NewIsLater(net, Open, Weak, 0);
        case Clone(h) => NewIsLater(net, Open, Strong, h);
        case ResolveInPlace(h) => NewIsLater(net, Open, Strong, h);
        case Send(h, id, _) => SendIsLater(net, Request(id, h));
        case SendEvent(h, id) => SendIsLater(net, Event(id, h));
        case ForwardTo(c, h) => ForwardIsLater(net, c, h);
        case Upgrade(c) => ReceiverStepIsLater(net, c, 0, 0);
        case PollRecv(c, waker) => ReceiverStepIsLater(net, c, 0, waker);
        case TryRecv(c) => ReceiverStepIsLater(net, c, 0, 0);
        case Close(c, error) => ReceiverStepIsLater(net, c, error, 0);
        case DropReceiver(c) => ReceiverStepIsLater(net, c, 0, 0);
      }
    }
  }

  lemma HoldersAreOpen(net: Net)
    requires Sound(net)
    ensures forall c :: 0 <= c < |net.chans| ==> (net.chans[c].resolution.Open? <==> net.chans[c].holder != Nobody)
  {
    hide Forest, Homed, InOrder, Delivered, Conserved;
    forall c | 0 <= c < |net.chans|
      ensures net.chans[c].resolution.Open? <==> net.chans[c].holder != Nobody
    {
      assert Settled(net.chans[c]);
    }
  }

  lemma {:induction false} RunIsLater(net: Net, steps: seq<Step>)
    requires Sound(net)
    ensures Later(net, Run(net, steps))
  {
    if |steps| > 0 {
      RunIsLater(net, steps[..|steps| - 1]);
      var between := Run(net, steps[..|steps| - 1]);
      StepIsLater(between, steps[|steps| - 1]);
      LaterTrans(net, between, Apply(between, steps[|steps| - 1]));
    }
  }

  lemma LaterTrans(a: Net, b: Net, c: Net)
    requires Later(a, b) && Later(b, c)
    ensures Later(a, c)
  {
  }

  // ----- Single operations

  /** A forward is refused exactly when it leads back to the channel itself, and then nothing has changed. */
  lemma ForwardReturned(net: Net, c: nat, h: nat)
    requires Sound(net) && HasReceiver(net, c) && h < |net.senders|
    ensures Forwarding(net, c, h) == net <==> SenderRoot(net, h) == c
    ensures Forwarding(net, c, h).chans[c].resolution.Open? <==> SenderRoot(net, h) == c
  {
    hide Forest, Homed, InOrder, Delivered, Conserved, Batches, Answers, Events, Requests, Queued, Root, Settled;
    HoldersAreOpen(net);
  }

  /**
   A forward to an open channel: every sender of either channel leads to the other one now, no other sender
   moved, and the items follow the ones that were there.
   */
  lemma ForwardJoins(net: Net, c: nat, h: nat, g: nat)
    requires Sound(net) && HasReceiver(net, c) && h < |net.senders| && g < |net.senders|
    requires SenderRoot(net, h) != c && net.chans[SenderRoot(net, h)].resolution.Open?
    ensures var root := SenderRoot(net, h);
            var net' := Forwarding(net, c, h);
            && SenderRoot(net', g) == (if SenderRoot(net, g) == c then root else SenderRoot(net, g))
            && net'.chans[root].queue == net.chans[root].queue + net.chans[c].queue
            && net'.chans[c].queue == []
            && net'.past.woken
               == net.past.woken + if net.chans[c].queue == [] then [] else Wakes(net.chans[root].waker)
  {
    hide Homed, InOrder, Delivered, Conserved, Root, Of;
    HoldersAreOpen(net);
    var root := SenderRoot(net, h);
    assert Linkable(net, c, root);
    LinkedRoots(net, c, root);
  }

  /** Closing answers every waiting request once, with the error, and refuses everything from then on. */
  lemma CloseAnswersAll(net: Net, c: nat, error: nat, later: seq<Step>, item: Item)
    requires Sound(net) && HasReceiver(net, c)
    requires var net' := Run(Closing(net, c, error), later);
             item.via < |net'.senders| && SenderRoot(net', item.via) == c
    ensures var net' := Closing(net, c, error);
            && net'.chans[c].queue == []
            && |net.past.answered| <= |net'.past.answered|
            && (var more := net'.past.answered[|net.past.answered|..];
                && Requests(more) + multiset(Events(Batches(net.chans[c].queue))) == multiset(net.chans[c].queue)
                && forall i :: 0 <= i < |more| ==> more[i].request.Request? && more[i].error == error)
    ensures var net' := Run(Closing(net, c, error), later);
            Sending(net', item) == net' && net'.chans[c].resolution == Failed(error)
  {
    hide Forest, Homed, InOrder, Delivered, Conserved, Batches, Answers, Events, Requests, Queued, Root, Settled;
    var queue := net.chans[c].queue;
    var net' := Closing(net, c, error);
    RunIsLater(net', later);
    assert net'.past.answered == net.past.answered + Answers(Batches(queue), error);
    assert net'.past.answered[|net.past.answered|..] == Answers(Batches(queue), error);
    ClosingSorts(queue, error);
    assert queue[..|queue|] == queue;
    RightKinds(Batches(queue), error);
  }

  /** Sender `h` leads to where it led, nothing can be sent through it, and nothing was. */
  predicate Refusing(net: Net, net': Net, h: nat)
    requires Forest(net) && InRange(net) && Forest(net') && InRange(net')
  {
    && h < |net.senders| && h < |net'.senders|
    && SenderRoot(net', h) == SenderRoot(net, h)
    && !net'.chans[SenderRoot(net', h)].resolution.Open?
    && Of(net'.past.sent, h) == Of(net.past.sent, h)
  }

  /**
   A refusal is final: a sender that was refused once is refused whatever happens later, and nothing that
   anybody sends is ever accepted through it.
   */
  lemma {:induction false} RefusedForGood(net: Net, item: Item, later: seq<Step>, again: Item)
    requires Sound(net) && item.via < |net.senders| && again.via == item.via
    requires Sending(net, item) == net || SendingFinished(net, item) == net
    ensures var net' := Run(net, later);
            && again.via < |net'.senders|
            && Sending(net', again) == net' && SendingFinished(net', again) == net'
            && Of(net'.past.sent, item.via) == Of(net.past.sent, item.via)
  {
    hide Homed, InOrder, Delivered, Conserved, Settled, Root, Run, Of;
    AcceptedIffOpen(net, item);
    StaysRefused(net, later, item.via);
    AcceptedIffOpen(Run(net, later), again);
  }

  /** An item is accepted exactly when the sender's root can still be received from. */
  lemma AcceptedIffOpen(net: Net, item: Item)
    requires Sound(net) && item.via < |net.senders|
    ensures Sending(net, item) == net <==> !net.chans[SenderRoot(net, item.via)].resolution.Open?
    ensures SendingFinished(net, item) == net <==> !net.chans[SenderRoot(net, item.via)].resolution.Open?
    ensures SendingFinished(net, item).chans == net.chans
  {
    hide Homed, InOrder, Delivered, Conserved, Root;
    assert |net.past.sent + [item]| != |net.past.sent|;
    assert |net.past.finished + [item]| != |net.past.finished|;
  }

  lemma {:induction false} StaysRefused(net: Net, steps: seq<Step>, h: nat)
    requires Sound(net) && Refusing(net, net, h)
    ensures Refusing(net, Run(net, steps), h)
  {
    hide Sound, Apply, Refusing;
    if |steps| > 0 {
      StaysRefused(net, steps[..|steps| - 1], h);
      var between := Run(net, steps[..|steps| - 1]);
      StepRefuses(net, between, steps[|steps| - 1], h);
    }
  }

  lemma StepRefuses(net: Net, between: Net, step: Step, h: nat)
    requires Sound(net) && Sound(between) && Refusing(net, between, h)
    ensures Refusing(net, Apply(between, step), h)
  {
    hide Sound, Growing, Cloning, Resolving, Sending, SendingFinished, Forwarding, Polling, Receiving, Closing,
         Dropping, Upgrading, Refusing;
    if Enabled(between, step) {
      match step {
        case Send(g, id, _) => SendRefuses(net, between, Request(id, g), h);
        case SendEvent(g, id) => SendRefuses(net, between, Event(id, g), h);
        case ForwardTo(c, g) => ForwardRefuses(net, between, c, g, h);
        case NewChannel => GrowingRefuses(net, between, Open, Strong, 0, h);
        case NewBroken(error) => GrowingRefuses(net, between, Failed(error), Nobody, 0, h);
        case NewWeak => GrowingRefuses(net, between, Open, Weak, 0, h);
        case Clone(g) => GrowingRefuses(net, between, Open, Strong, g, h);
        case ResolveInPlace(g) => GrowingRefuses(net, between, Open, Strong, g, h);
        case Upgrade(c) => RemovingRefuses(net, between, c, 0, 0, h);
        case PollRecv(c, waker) => RemovingRefuses(net, between, c, 0, waker, h);
        case TryRecv(c) => RemovingRefuses(net, between, c, 0, 0, h);
        case Close(c, error) => RemovingRefuses(net, between, c, error, 0, h);
        case DropReceiver(c) => RemovingRefuses(net, between, c, 0, 0, h);
      }
    }
  }

  lemma SendRefuses(net: Net, between: Net, item: Item, h: nat)
    requires Sound(net) && Sound(between) && Refusing(net, between, h) && item.via < |between.senders|
    ensures Refusing(net, Sending(between, item), h) && Refusing(net, SendingFinished(between, item), h)
  {
    hide Homed, InOrder, Delivered, Conserved, Root, Of, Settled;
    SameRoots(between, Sending(between, item));
    SameRoots(between, SendingFinished(between, item));
    OfConcat(between.past.sent, [item], h);
    if item.via != h {
      OfNone([item], h);
    }
  }

  lemma ForwardRefuses(net: Net, between: Net, c: nat, g: nat, h: nat)
    requires Sound(net) && Sound(between) && Refusing(net, between, h)
    requires HasReceiver(between, c) && g < |between.senders|
    ensures Refusing(net, Forwarding(between, c, g), h)
  {
    hide Homed, InOrder, Delivered, Conserved, Root, Of, Closing, Dropping, Batches, Answers, Events;
    HoldersAreOpen(between);
    var root := SenderRoot(between, g);
    RemovingRefuses(net, between, c,
                    if between.chans[root].resolution.Failed? then between.chans[root].resolution.error else 0, 0, h);
    if between.chans[root].resolution.Open? && root != c {
      LinkedRoots(between, c, root);
    }
  }

  lemma GrowingRefuses(net: Net, between: Net, resolution: Resolution<nat>, holder: Holder, g: nat, h: nat)
    requires Sound(net) && Sound(between) && Refusing(net, between, h)
    ensures !resolution.Forwarded? && (resolution.Open? <==> holder != Nobody) ==>
              Refusing(net, Growing(between, resolution, holder), h)
    ensures g < |between.senders| ==>
              Refusing(net, Cloning(between, g), h) && Refusing(net, Resolving(between, g), h)
  {
    hide Homed, InOrder, Delivered, Conserved, Root, Of, Settled;
    if !resolution.Forwarded? && (resolution.Open? <==> holder != Nobody) {
      SameRoots(between, Growing(between, resolution, holder));
    }
    if g < |between.senders| {
      SameRoots(between, Cloning(between, g));
      SameRoots(between, Resolving(between, g));
      RootOfRoot(between, between.senders[g]);
    }
  }

  lemma RootOfRoot(net: Net, c: nat)
    requires Forest(net) && c < |net.chans|
    ensures Root(net, Root(net, c)) == Root(net, c)
  {
  }

  lemma RemovingRefuses(net: Net, between: Net, c: nat, error: nat, waker: nat, h: nat)
    requires Sound(net) && Sound(between) && Refusing(net, between, h) && c < |between.chans|
    ensures HasReceiver(between, c) ==>
              && Refusing(net, Closing(between, c, error), h) && Refusing(net, Dropping(between, c), h)
              && Refusing(net, Receiving(between, c), h) && Refusing(net, Polling(between, c, waker), h)
    ensures between.chans[c].holder.Weak? ==> Refusing(net, Upgrading(between, c), h)
  {
    hide Sound, Refusing, Batches, Answers, Events;
    HoldersAreOpen(between);
    if HasReceiver(between, c) {
      RemovedRefuses(net, between, Closing(between, c, error), c, h);
      RemovedRefuses(net, between, Dropping(between, c), c, h);
      RemovedRefuses(net, between, Receiving(between, c), c, h);
      RemovedRefuses(net, between, Polling(between, c, waker), c, h);
    }
    if between.chans[c].holder.Weak? {
      RemovedRefuses(net, between, Upgrading(between, c), c, h);
    }
  }

  /** An open channel changes without being forwarded. */
  lemma RemovedRefuses(net: Net, between: Net, net': Net, c: nat, h: nat)
    requires Sound(net) && Sound(between) && Sound(net') && Refusing(net, between, h) && c < |between.chans|
    requires net'.senders == between.senders && net'.clock == between.clock && net'.past.sent == between.past.sent
    requires between.chans[c].resolution.Open? && |net'.chans| == |between.chans|
    requires !net'.chans[c].resolution.Forwarded?
    requires forall d :: 0 <= d < |net'.chans| && d != c ==> net'.chans[d] == between.chans[d]
    ensures Refusing(net, net', h)
  {
    hide Homed, InOrder, Delivered, Conserved, Root, Of, Settled;
    SameRoots(between, net');
  }

  /** Where an item that was accepted can be. */
  predicate Accounted(net: Net, item: Item)
    requires Forest(net) && InRange(net)
  {
    && item.via < |net.senders|
    && (|| item in net.chans[SenderRoot(net, item.via)].queue
        || item in net.past.received
        || item in net.past.discarded
        || exists i :: 0 <= i < |net.past.answered| && net.past.answered[i].request == item)
  }

  /**
   What was accepted stays accounted for: whatever happens later, it waits at the channel its sender leads
   to by then, or it was received, discarded, or answered with an error.
   */
  lemma AcceptedForGood(net: Net, item: Item, later: seq<Step>)
    requires Sound(net) && item.via < |net.senders| && Sending(net, item) != net
    ensures var net' := Run(Sending(net, item), later);
            item in net'.past.sent && Accounted(net', item)
  {
    hide Forest, InRange, Homed, InOrder, Delivered, Conserved, Run, Root;
    var accepted := Sending(net, item);
    assert item in accepted.past.sent by {
      assert accepted.past.sent[|net.past.sent|] == item;
    }
    RunIsLater(accepted, later);
    var net' := Run(accepted, later);
    assert item in net'.past.sent;
    SentIsAccounted(net', item);
  }

  lemma SentIsAccounted(net: Net, item: Item)
    requires Sound(net) && item in net.past.sent
    ensures Accounted(net, item)
  {
    hide Root, Of, InOrder, Delivered, Queued, Requests, Settled;
    if item in Queued(net.chans) {
      var c := QueuedIn(net.chans, item);
    } else {
      assert item in multiset(net.past.sent);
      assert item in multiset(net.past.taken);
      if item in Requests(net.past.answered) {
        var i := AnsweredAt(net.past.answered, item);
      }
    }
  }

  lemma {:induction false} QueuedIn(chans: seq<Chan>, item: Item) returns (c: nat)
    requires item in Queued(chans)
    ensures c < |chans| && item in chans[c].queue
  {
    var n := |chans| - 1;
    if item in chans[n].queue {
      c := n;
    } else {
      c := QueuedIn(chans[..n], item);
    }
  }

  lemma {:induction false} AnsweredAt(answers: seq<Answer>, item: Item) returns (i: nat)
    requires item in Requests(answers)
    ensures i < |answers| && answers[i].request == item
  {
    var n := |answers| - 1;
    if answers[n].request == item {
      i := n;
    } else {
      i := AnsweredAt(answers[..n], item);
    }
  }

  /**
   No lost wakeup: a registered waker stays until it is woken, the receiver polls again, or the channel is
   resolved; and while it is there, nothing is there to receive.
   */
  lemma WakerIsKept(net: Net, step: Step, c: nat, waker: nat)
    requires Sound(net) && c < |net.chans| && net.chans[c].waker == Some(waker)
    requires !step.PollRecv? || step.c != c
    ensures c < |Apply(net, step).chans|
    ensures var net' := Apply(net, step);
            || (net'.chans[c].waker == Some(waker) && net'.chans[c].queue == [])
            || net'.past.woken == net.past.woken + [waker]
            || !net'.chans[c].resolution.Open?
  {
    hide Sound, Sending, SendingFinished, Forwarding, Closing, Dropping, Receiving, Polling, Upgrading;
    SoundHidden(net, step, c);
    if Enabled(net, step) {
      match step {
        case ForwardTo(d, h) => ForwardKeepsWaker(net, d, h, c, waker);
        case Send(h, id, isFinished) =>
          SendKeepsWaker(net, Request(id, h), c, waker);
        case SendEvent(h, id) => SendKeepsWaker(net, Event(id, h), c, waker);
        case _ => OthersKeepWaker(net, step, c, waker);
      }
    }
  }

  lemma SoundHidden(net: Net, step: Step, c: nat)
    requires Sound(net) && c < |net.chans|
    ensures c < |Apply(net, step).chans|
    ensures Settled(net.chans[c]) && Settled(Apply(net, step).chans[c])
  {
    hide Forest, InRange, Homed, InOrder, Delivered, Conserved, Apply, Settled;
    StepIsLater(net, step);
  }

  lemma ForwardKeepsWaker(net: Net, d: nat, h: nat, c: nat, waker: nat)
    requires Sound(net) && HasReceiver(net, d) && h < |net.senders|
    requires c < |net.chans| && net.chans[c].waker == Some(waker)
    ensures var net' := Forwarding(net, d, h);
            && c < |net'.chans|
            && (|| net'.chans[c].waker == Some(waker)
                || net'.past.woken == net.past.woken + [waker]
                || !net'.chans[c].resolution.Open?)
  {
    hide Forest, Homed, InOrder, Delivered, Conserved, Batches, Answers, Events, Root;
  }

  lemma SendKeepsWaker(net: Net, item: Item, c: nat, waker: nat)
    requires Sound(net) && item.via < |net.senders|
    requires c < |net.chans| && net.chans[c].waker == Some(waker)
    ensures var net' := Sending(net, item);
            && c < |net'.chans|
            && (net'.chans[c].waker == Some(waker) || net'.past.woken == net.past.woken + [waker])
    ensures SendingFinished(net, item).chans == net.chans
  {
    hide Forest, Homed, InOrder, Delivered, Conserved, Root;
  }

  lemma OthersKeepWaker(net: Net, step: Step, c: nat, waker: nat)
    requires Sound(net) && Enabled(net, step) && !step.ForwardTo? && !step.Send? && !step.SendEvent?
    requires c < |net.chans| && net.chans[c].waker == Some(waker)
    requires !step.PollRecv? || step.c != c
    ensures var net' := Apply(net, step);
            && c < |net'.chans|
            && (net'.chans[c].waker == Some(waker) || !net'.chans[c].resolution.Open?)
  {
    hide Forest, InRange, Homed, InOrder, Delivered, Conserved, Batches, Answers, Events, Root, Queued, Requests, Of;
    assert Settled(net.chans[c]);
  }

  /** Where `close` answers item `j` of a batch: batches in order, each from its end. */
  lemma {:induction false} BatchesAt<T>(items: seq<T>, batch: nat, j: nat)
    requires j < BATCH && BATCH * batch + j < |items|
    ensures |Batches(items)| == |items|
    ensures var left := |items| - BATCH * batch;
            var size := if left < BATCH then left else BATCH;
            Batches(items)[BATCH * batch + j] == items[BATCH * batch + size - 1 - j]
    decreases batch
  {
    BatchesLength(items);
    if |items| <= BATCH {
      ReversedAt(items, j);
    } else {
      ReversedSame(items[..BATCH]);
      if batch == 0 {
        ReversedAt(items[..BATCH], j);
      } else {
        BatchesAt(items[BATCH..], batch - 1, j);
      }
    }
  }

  /** Answers come in the order of the queue only when there is nothing to order. */
  lemma AnswersInOrder<T>(items: seq<T>)
    requires forall i, j :: 0 <= i < j < |items| ==> items[i] != items[j]
    ensures Batches(items) == items <==> |items| <= 1
  {
    BatchesLength(items);
    if |items| > 0 {
      BatchesAt(items, 0, 0);
    }
  }

  lemma {:induction false} BatchesLength<T>(items: seq<T>)
    ensures |Batches(items)| == |items|
  {
    if |items| <= BATCH {
      ReversedSame(items);
    } else {
      ReversedSame(items[..BATCH]);
      BatchesLength(items[BATCH..]);
    }
  }

  lemma {:induction false} ReversedAt<T>(items: seq<T>, k: nat)
    requires k < |items|
    ensures |Reversed(items)| == |items| && Reversed(items)[k] == items[|items| - 1 - k]
  {
    if k > 0 {
      ReversedAt(items[..|items| - 1], k - 1);
    } else {
      ReversedSame(items);
    }
  }
}
