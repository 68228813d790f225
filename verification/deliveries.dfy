/**
 What receiving gives: every item that waits, the oldest first, and a wakeup for whoever waits for one.
 */
module Deliveries {
  import opened Options
  import opened Channels
  import opened ChannelSteps
  import opened ChannelRuns
  import opened Forwards

  /** Receiving takes the oldest item and leaves all else alone; polling does the same. */
  lemma TakesOldest(net: Net, c: nat, waker: nat)
    requires Sound(net) && HasReceiver(net, c) && net.chans[c].queue != []
    ensures var queue, net' := net.chans[c].queue, Apply(net, TryRecv(c));
            && net' == Apply(net, PollRecv(c, waker))
            && net'.chans == net.chans[c := net.chans[c].(queue := queue[1..])]
            && net'.past == net.past.(received := net.past.received + [queue[0]], taken := net.past.taken + [queue[0]])
            && net'.senders == net.senders && net'.clock == net.clock
  {
    hide Homed, InOrder, Delivered, Conserved, Root, Settled;
    var queue := net.chans[c].queue;
    assert queue[..1] == [queue[0]];
    assert net.past.answered + [] == net.past.answered && net.past.discarded + [] == net.past.discarded;
  }

  /** With nothing to receive, trying to changes nothing, and polling leaves the waker that polled last. */
  lemma NothingThere(net: Net, c: nat, waker: nat)
    requires Sound(net) && HasReceiver(net, c) && net.chans[c].queue == []
    ensures Apply(net, TryRecv(c)) == net
    ensures var net' := Apply(net, PollRecv(c, waker));
            && net'.chans == net.chans[c := net.chans[c].(waker := Some(waker))]
            && net'.past == net.past && net'.senders == net.senders && net'.clock == net.clock
  {
    hide Homed, InOrder, Delivered, Conserved, Root, Settled;
    var queue, past := net.chans[c].queue, net.past;
    assert queue[..0] == [] && queue[0..] == queue && past.taken + [] == past.taken;
    assert past.received + [] == past.received && past.answered + [] == past.answered;
    assert past.discarded + [] == past.discarded;
  }

  function Attempts(c: nat, n: nat): seq<Step> {
    if n == 0 then [] else Attempts(c, n - 1) + [TryRecv(c)]
  }

  /** As many attempts as items wait receive all of them in order, and no more is there. */
  lemma {:induction false} ReceivesAll(net: Net, c: nat, n: nat)
    requires Sound(net) && HasReceiver(net, c) && n <= |net.chans[c].queue|
    ensures var net' := Run(net, Attempts(c, n));
            && net'.chans == net.chans[c := net.chans[c].(queue := net.chans[c].queue[n..])]
            && net'.past.received == net.past.received + net.chans[c].queue[..n]
            && net'.past.woken == net.past.woken && net'.senders == net.senders
  {
    hide Sound, Apply;
    var queue := net.chans[c].queue;
    if n == 0 {
      assert queue[0..] == queue && net.past.received + [] == net.past.received;
    } else {
      ReceivesAll(net, c, n - 1);
      var before := Run(net, Attempts(c, n - 1));
      assert Attempts(c, n)[..|Attempts(c, n)| - 1] == Attempts(c, n - 1);
      TakesOldest(before, c, 0);
      assert queue[n - 1..][0] == queue[n - 1] && queue[n - 1..][1..] == queue[n..];
      assert queue[..n] == queue[..n - 1] + [queue[n - 1]];
    }
  }

  /** Whoever polls in vain is woken by the next item that is accepted, exactly once, and then receives it. */
  lemma WokenThenServed(net: Net, c: nat, waker: nat, item: Item, again: nat)
    requires Sound(net) && HasReceiver(net, c) && net.chans[c].queue == []
    requires item.via < |net.senders| && SenderRoot(net, item.via) == c
    ensures item.via < |Apply(net, PollRecv(c, waker)).senders|
    ensures var sent := Sending(Apply(net, PollRecv(c, waker)), item);
            && sent.past.woken == net.past.woken + [waker]
            && HasReceiver(sent, c) && sent.chans[c].waker == None
            && var net' := Apply(sent, PollRecv(c, again));
               && net'.past.received == net.past.received + [item]
               && net'.past.woken == net.past.woken + [waker]
               && HasReceiver(net', c) && net'.chans[c].queue == []
  {
    hide Homed, InOrder, Delivered, Conserved, Settled, Root, Apply, Sending;
    NothingThere(net, c, waker);
    var polled := Apply(net, PollRecv(c, waker));
    SameRoots(net, polled);
    SendWakes(polled, c, waker, item);
    TakesOldest(Sending(polled, item), c, again);
  }

  lemma SendWakes(net: Net, c: nat, waker: nat, item: Item)
    requires Sound(net) && HasReceiver(net, c) && net.chans[c].queue == [] && net.chans[c].waker == Some(waker)
    requires item.via < |net.senders| && SenderRoot(net, item.via) == c
    ensures var sent := Sending(net, item);
            && sent.past.woken == net.past.woken + [waker] && sent.past.received == net.past.received
            && HasReceiver(sent, c) && sent.chans[c].waker == None && sent.chans[c].queue == [item]
  {
    hide Homed, InOrder, Delivered, Conserved, Root;
    HoldersAreOpen(net);
  }

  /** A weak channel that is upgraded can be received from, and that is all that changes. */
  lemma UpgradeReceives(net: Net, c: nat)
    requires Sound(net) && c < |net.chans| && net.chans[c].holder.Weak?
    ensures var net' := Apply(net, Upgrade(c));
            && HasReceiver(net', c) && net'.chans == net.chans[c := net.chans[c].(holder := Strong)]
            && net'.past == net.past && net'.senders == net.senders && net'.clock == net.clock
  {
    hide Homed, InOrder, Delivered, Conserved, Root, Settled;
    var queue, past := net.chans[c].queue, net.past;
    assert queue[..0] == [] && queue[0..] == queue && past.taken + [] == past.taken;
    assert past.received + [] == past.received && past.answered + [] == past.answered;
    assert past.discarded + [] == past.discarded;
  }

  /** How a send through the first sender of a new channel ends. */
  function FirstAnswer(step: Step): Refusal {
    if step.NewBroken? then ClosedWith(step.error) else Taken
  }

  /** A new channel is empty, has one sender, and can be received from if it is neither broken nor weak. */
  lemma NewChannelAnswers(net: Net, step: Step)
    requires Sound(net) && (step.NewChannel? || step.NewBroken? || step.NewWeak?)
    ensures var net' := Apply(net, step);
            && |net'.chans| == |net.chans| + 1 && net'.chans[..|net.chans|] == net.chans
            && |net'.senders| == |net.senders| + 1 && net'.senders[..|net.senders|] == net.senders
            && SenderRoot(net', |net.senders|) == |net.chans|
            && SendAnswer(net', |net.senders|) == FirstAnswer(step)
            && (HasReceiver(net', |net.chans|) <==> step.NewChannel?)
            && (net'.chans[|net.chans|].holder.Weak? <==> step.NewWeak?)
            && net'.chans[|net.chans|].queue == [] && net'.past == net.past
  {
    hide Homed, InOrder, Delivered, Conserved, Settled;
    assert net.chans == Apply(net, step).chans[..|net.chans|];
  }

  /** A clone leads where its sender leads, and a sender that was resolved refers to where it leads at once. */
  lemma SendersAlike(net: Net, h: nat)
    requires Sound(net) && h < |net.senders|
    ensures var net' := Apply(net, Clone(h));
            && |net'.senders| == |net.senders| + 1 && net'.senders[..|net.senders|] == net.senders
            && SenderRoot(net', |net.senders|) == SenderRoot(net, h) && net'.chans == net.chans
            && net'.past == net.past
    ensures var net' := Apply(net, ResolveInPlace(h));
            && |net'.senders| == |net.senders| && net'.senders[h] == SenderRoot(net, h) && net'.chans == net.chans
            && net'.past == net.past
            && forall g :: 0 <= g < |net.senders| && g != h ==> net'.senders[g] == net.senders[g]
  {
    hide Homed, InOrder, Delivered, Conserved, Settled, Root;
    SameRoots(net, Apply(net, Clone(h)));
  }
}
