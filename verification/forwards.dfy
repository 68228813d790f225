/**
 What closing, dropping and forwarding a channel does to its senders: how their sends end from then on.
 */
module Forwards {
  import opened Options
  import opened Channels
  import opened ChannelSteps
  import opened ChannelRuns

  /** How a send through sender `g` ends. */
  function SendAnswer(net: Net, g: nat): Refusal
    requires Forest(net) && InRange(net) && g < |net.senders|
  {
    RefusedBy(net.chans[SenderRoot(net, g)].resolution)
  }

  /** That is what a send does: the item comes to the end of the queue, or nothing changes. */
  lemma AnswerDecides(net: Net, item: Item)
    requires Sound(net) && item.via < |net.senders|
    ensures var root := SenderRoot(net, item.via);
            if SendAnswer(net, item.via).Taken? then
              && Sending(net, item).chans[root].queue == net.chans[root].queue + [item]
              && SendingFinished(net, item).past.finished == net.past.finished + [item]
            else
              Sending(net, item) == net && SendingFinished(net, item) == net
  {
    hide Homed, InOrder, Delivered, Conserved, Root;
  }

  // ----- Senders of one channel stay together

  /** All senders lead to where they led, except those of channel `c`, which lead to `root`. */
  ghost predicate SendersMove(net: Net, net': Net, c: nat, root: nat)
    requires Forest(net) && InRange(net) && Forest(net') && InRange(net')
  {
    && |net.senders| <= |net'.senders|
    && forall g :: 0 <= g < |net.senders| ==>
         SenderRoot(net', g) == if SenderRoot(net, g) == c then root else SenderRoot(net, g)
  }

  /** In one step the senders of one channel move at most, and they move to one other. */
  lemma StepMoves(net: Net, step: Step) returns (c: nat, root: nat)
    requires Sound(net)
    ensures SendersMove(net, Apply(net, step), c, root)
  {
    hide Sound, Growing, Cloning, Resolving, Sending, SendingFinished, Forwarding, Polling, Receiving, Closing,
         Dropping, Upgrading, SendersMove;
    SoundIsRanged(net);
    SoundIsRanged(Apply(net, step));
    c, root := |net.chans|, 0;
    NobodyMoves(net, net);
    if Enabled(net, step) {
      match step {
        case NewChannel => GrowingMoves(net, Open, Strong, 0);
        case NewBroken(error) => GrowingMoves(net, Failed(error), Nobody, 0);
        case NewWeak => GrowingMoves(net, Open, Weak, 0);
        case Clone(g) => GrowingMoves(net, Open, Strong, g);
        case ResolveInPlace(g) => GrowingMoves(net, Open, Strong, g);
        case Send(g, id, _) => SendMoves(net, Request(id, g));
        case SendEvent(g, id) => SendMoves(net, Event(id, g));
        case ForwardTo(d, g) => c, root := ForwardMoves(net, d, g);
        case Upgrade(d) => RemovingMoves(net, d, 0, 0);
        case PollRecv(d, waker) => RemovingMoves(net, d, 0, waker);
        case TryRecv(d) => RemovingMoves(net, d, 0, 0);
        case Close(d, error) => RemovingMoves(net, d, error, 0);
        case DropReceiver(d) => RemovingMoves(net, d, 0, 0);
      }
    }
  }

  lemma SoundIsRanged(net: Net)
    requires Sound(net)
    ensures Forest(net) && InRange(net)
  {
  }

  lemma NobodyMoves(net: Net, net': Net)
    requires Forest(net) && InRange(net) && Forest(net') && InRange(net') && SameLinks(net, net')
    requires net.senders <= net'.senders
    ensures SendersMove(net, net', |net.chans|, 0)
  {
    hide Root;
    SameRoots(net, net');
  }

  lemma GrowingMoves(net: Net, resolution: Resolution<nat>, holder: Holder, g: nat)
    requires Sound(net)
    ensures !resolution.Forwarded? && (resolution.Open? <==> holder != Nobody) ==>
              SendersMove(net, Growing(net, resolution, holder), |net.chans|, 0)
    ensures g < |net.senders| ==>
              && SendersMove(net, Cloning(net, g), |net.chans|, 0)
              && SendersMove(net, Resolving(net, g), |net.chans|, 0)
  {
    hide Homed, InOrder, Delivered, Conserved, Root, Of, Settled;
    if !resolution.Forwarded? && (resolution.Open? <==> holder != Nobody) {
      NobodyMoves(net, Growing(net, resolution, holder));
    }
    if g < |net.senders| {
      NobodyMoves(net, Cloning(net, g));
      SameRoots(net, Resolving(net, g));
      RootOfRoot(net, net.senders[g]);
    }
  }

  lemma SendMoves(net: Net, item: Item)
    requires Sound(net) && item.via < |net.senders|
    ensures SendersMove(net, Sending(net, item), |net.chans|, 0)
    ensures SendersMove(net, SendingFinished(net, item), |net.chans|, 0)
  {
    hide Homed, InOrder, Delivered, Conserved, Root, Of, Settled, SendersMove;
    NobodyMoves(net, Sending(net, item));
    NobodyMoves(net, SendingFinished(net, item));
  }

  lemma RemovingMoves(net: Net, c: nat, error: nat, waker: nat)
    requires Sound(net) && c < |net.chans|
    ensures HasReceiver(net, c) ==>
              && SendersMove(net, Closing(net, c, error), |net.chans|, 0)
              && SendersMove(net, Dropping(net, c), |net.chans|, 0)
              && SendersMove(net, Receiving(net, c), |net.chans|, 0)
              && SendersMove(net, Polling(net, c, waker), |net.chans|, 0)
    ensures net.chans[c].holder.Weak? ==> SendersMove(net, Upgrading(net, c), |net.chans|, 0)
  {
    hide Homed, InOrder, Delivered, Conserved, Settled, Root, Of, SendersMove, Batches, Answers, Events;
    HoldersAreOpen(net);
    if HasReceiver(net, c) {
      NobodyMoves(net, Closing(net, c, error));
      NobodyMoves(net, Dropping(net, c));
      NobodyMoves(net, Receiving(net, c));
      NobodyMoves(net, Polling(net, c, waker));
    }
    if net.chans[c].holder.Weak? {
      NobodyMoves(net, Upgrading(net, c));
    }
  }

  lemma ForwardMoves(net: Net, d: nat, h: nat) returns (c: nat, root: nat)
    requires Sound(net) && HasReceiver(net, d) && h < |net.senders|
    ensures SendersMove(net, Forwarding(net, d, h), c, root)
  {
    hide Homed, InOrder, Delivered, Conserved, Root, Of, Closing, Dropping, Batches, Answers, Events;
    HoldersAreOpen(net);
    c, root := |net.chans|, 0;
    var to := SenderRoot(net, h);
    if net.chans[to].resolution.Open? && to != d {
      LinkedRoots(net, d, to);
      c, root := d, to;
    } else {
      RemovingMoves(net, d, if net.chans[to].resolution.Failed? then net.chans[to].resolution.error else 0, 0);
      NobodyMoves(net, net);
    }
  }

  /** Senders that lead to one channel lead to one channel for good. */
  lemma {:induction false} TogetherForGood(net: Net, later: seq<Step>, g: nat, h: nat)
    requires Sound(net) && g < |net.senders| && h < |net.senders| && SenderRoot(net, g) == SenderRoot(net, h)
    ensures var net' := Run(net, later);
            && |net.senders| <= |net'.senders| && SenderRoot(net', g) == SenderRoot(net', h)
  {
    hide Homed, InOrder, Delivered, Conserved, Settled, Root, Apply;
    if |later| > 0 {
      TogetherForGood(net, later[..|later| - 1], g, h);
      var c, root := StepMoves(Run(net, later[..|later| - 1]), later[|later| - 1]);
    }
  }

  /** Sends that are refused are refused in the same way for good. */
  lemma RefusedAlike(net: Net, later: seq<Step>, g: nat)
    requires Sound(net) && g < |net.senders| && !SendAnswer(net, g).Taken?
    ensures var net' := Run(net, later);
            && |net.senders| <= |net'.senders| && SendAnswer(net', g) == SendAnswer(net, g)
  {
    hide Homed, InOrder, Delivered, Conserved, Settled, Root, Run, Of;
    StaysRefused(net, later, g);
    RunIsLater(net, later);
  }

  // ----- Closing and dropping

  /** After a channel was closed, every send that leads there is refused with the error, whatever runs later. */
  lemma ClosedForGood(net: Net, c: nat, error: nat, later: seq<Step>, g: nat)
    requires Sound(net) && HasReceiver(net, c) && g < |net.senders| && SenderRoot(net, g) == c
    ensures var net' := Run(Apply(net, Close(c, error)), later);
            g < |net'.senders| && SendAnswer(net', g) == ClosedWith(error)
  {
    hide Homed, InOrder, Delivered, Conserved, Settled, Root, Run, Of, Batches, Answers, Events;
    RemovingMoves(net, c, error, 0);
    RefusedAlike(Apply(net, Close(c, error)), later, g);
  }

  /** After its receiver was dropped, every send that leads there is refused because of that. */
  lemma DroppedForGood(net: Net, c: nat, later: seq<Step>, g: nat)
    requires Sound(net) && HasReceiver(net, c) && g < |net.senders| && SenderRoot(net, g) == c
    ensures var net' := Run(Apply(net, DropReceiver(c)), later);
            g < |net'.senders| && SendAnswer(net', g) == ReceiverDropped
  {
    hide Homed, InOrder, Delivered, Conserved, Settled, Root, Run, Of;
    RemovingMoves(net, c, 0, 0);
    RefusedAlike(Apply(net, DropReceiver(c)), later, g);
  }

  // ----- Forwarding to a channel that was resolved

  /**
   A forward to a channel that was closed: every waiting request is answered once with its error, the events
   are discarded, nothing waits any more, and every sender is refused with the error from then on.
   */
  lemma ForwardToClosed(net: Net, c: nat, h: nat, error: nat, later: seq<Step>, g: nat)
    requires Sound(net) && HasReceiver(net, c) && h < |net.senders| && g < |net.senders|
    requires SendAnswer(net, h) == ClosedWith(error) && SenderRoot(net, g) == c
    ensures var net' := Apply(net, ForwardTo(c, h));
            && net'.chans[c].queue == [] && net'.past.received == net.past.received
            && net.past.answered <= net'.past.answered && net.past.discarded <= net'.past.discarded
            && var more, events := net'.past.answered[|net.past.answered|..],
                                   net'.past.discarded[|net.past.discarded|..];
               && Requests(more) + multiset(events) == multiset(net.chans[c].queue)
               && (forall i :: 0 <= i < |more| ==> more[i].request.Request? && more[i].error == error)
               && (forall i :: 0 <= i < |events| ==> events[i].Event?)
    ensures var net' := Run(Apply(net, ForwardTo(c, h)), later);
            g < |net'.senders| && SendAnswer(net', g) == ClosedWith(error)
  {
    hide Homed, InOrder, Delivered, Conserved, Settled, Root, Run, Of, Batches, Answers, Events, Requests;
    var queue := net.chans[c].queue;
    var net' := Apply(net, ForwardTo(c, h));
    assert net' == Closing(net, c, error);
    assert net'.past.answered[|net.past.answered|..] == Answers(Batches(queue), error);
    assert net'.past.discarded[|net.past.discarded|..] == Events(Batches(queue));
    ClosingSorts(queue, error);
    assert queue[..|queue|] == queue;
    RightKinds(Batches(queue), error);
    ClosedForGood(net, c, error, later, g);
  }

  /**
   A forward to a channel whose receiver was dropped: nothing is answered, received or discarded, what waits
   stays where it is, and every sender is refused for that reason from then on.
   */
  lemma ForwardToDropped(net: Net, c: nat, h: nat, later: seq<Step>, g: nat)
    requires Sound(net) && HasReceiver(net, c) && h < |net.senders| && g < |net.senders|
    requires SendAnswer(net, h) == ReceiverDropped && SenderRoot(net, g) == c
    ensures var net' := Apply(net, ForwardTo(c, h));
            net'.chans[c].queue == net.chans[c].queue && net'.past == net.past
    ensures var net' := Run(Apply(net, ForwardTo(c, h)), later);
            g < |net'.senders| && SendAnswer(net', g) == ReceiverDropped
  {
    hide Homed, InOrder, Delivered, Conserved, Settled, Root, Run, Of;
    DroppedForGood(net, c, later, g);
  }

  /**
   After any forward that is not given back, every sender of the channel is treated like the sender it was
   forwarded to, now and whatever runs later.
   */
  lemma ForwardedAlike(net: Net, c: nat, h: nat, later: seq<Step>, g: nat)
    requires Sound(net) && HasReceiver(net, c) && h < |net.senders| && g < |net.senders|
    requires SenderRoot(net, g) == c && SenderRoot(net, h) != c
    ensures var net' := Run(Apply(net, ForwardTo(c, h)), later);
            && g < |net'.senders| && h < |net'.senders| && SendAnswer(net', g) == SendAnswer(net', h)
  {
    hide Homed, InOrder, Delivered, Conserved, Settled, Root, Run, Of, Closing, Dropping, Batches, Answers, Events;
    HoldersAreOpen(net);
    var net' := Apply(net, ForwardTo(c, h));
    var to := SenderRoot(net, h);
    if net.chans[to].resolution.Open? {
      LinkedRoots(net, c, to);
      TogetherForGood(net', later, g, h);
    } else {
      OthersStay(net, c, h);
      RefusedAlike(net', later, h);
      if net.chans[to].resolution.Failed? {
        ForwardToClosed(net, c, h, net.chans[to].resolution.error, later, g);
      } else {
        ForwardToDropped(net, c, h, later, g);
      }
    }
  }

  /** A forward to a resolved channel leaves the senders of that one alone. */
  lemma OthersStay(net: Net, c: nat, h: nat)
    requires Sound(net) && HasReceiver(net, c) && h < |net.senders|
    requires !net.chans[SenderRoot(net, h)].resolution.Open?
    ensures var net' := Apply(net, ForwardTo(c, h));
            |net'.senders| == |net.senders| && SendAnswer(net', h) == SendAnswer(net, h)
  {
    hide Homed, InOrder, Delivered, Conserved, Settled, Root, Of, Batches, Answers, Events;
    HoldersAreOpen(net);
    var to := SenderRoot(net, h);
    RemovingMoves(net, c, if net.chans[to].resolution.Failed? then net.chans[to].resolution.error else 0, 0);
  }
}
