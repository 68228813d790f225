/**
 The public operations of `mpsc`, each as one atomic step, and what every run of them keeps.

 Finer interleavings are not claimed: after resolving a second time, `resolve_and_lock` and `forward_to`
 go on holding the lock of the channel they found first.
 */
module ChannelSteps {
  import opened Options
  import opened Channels

  datatype Step =
    | NewChannel
    | NewBroken(error: nat)
    | NewWeak
    | Upgrade(c: nat)
    | Clone(h: nat)
    | ResolveInPlace(h: nat)
    | Send(h: nat, id: nat, isFinished: bool)
    | SendEvent(h: nat, id: nat)
    | ForwardTo(c: nat, h: nat)
    | PollRecv(c: nat, waker: nat)
    | TryRecv(c: nat)
    | Close(c: nat, error: nat)
    | DropReceiver(c: nat)

  /** The handles the operation is called on exist; a receiver exists while nobody consumed it. */
  predicate Enabled(net: Net, step: Step) {
    match step
    case NewChannel | NewBroken(_) | NewWeak => true
    case Upgrade(c) => c < |net.chans| && net.chans[c].holder.Weak?
    case Clone(h) => h < |net.senders|
    case ResolveInPlace(h) => h < |net.senders|
    case Send(h, _, _) => h < |net.senders|
    case SendEvent(h, _) => h < |net.senders|
    case ForwardTo(c, h) => HasReceiver(net, c) && h < |net.senders|
    case PollRecv(c, _) => HasReceiver(net, c)
    case TryRecv(c) => HasReceiver(net, c)
    case Close(c, _) => HasReceiver(net, c)
    case DropReceiver(c) => HasReceiver(net, c)
  }

  datatype Refusal = Taken | ReceiverDropped | ClosedWith(error: nat)

  /** The error of `send` when the most resolved channel has this resolution. */
  function RefusedBy(resolution: Resolution<nat>): Refusal {
    match resolution
    case Dropped => ReceiverDropped
    case Failed(error) => ClosedWith(error)
    case _ => Taken
  }

  predicate HasReceiver(net: Net, c: nat) {
    c < |net.chans| && net.chans[c].holder.Strong?
  }

  function Reversed<T>(items: seq<T>): seq<T> {
    if |items| == 0 then [] else [items[|items| - 1]] + Reversed(items[..|items| - 1])
  }

  /** The number of items `close` takes out under one lock. */
  const BATCH: nat := 32

  /** The order in which `close` answers: batch by batch, each batch from its end. */
  function Batches<T>(items: seq<T>): seq<T> {
    if |items| <= BATCH then Reversed(items) else Reversed(items[..BATCH]) + Batches(items[BATCH..])
  }

  /** The error responses to the requests among the items. */
  function Answers(items: seq<Item>, error: nat): seq<Answer> {
    if |items| == 0 then []
    else Answers(items[..|items| - 1], error)
         + if items[|items| - 1].Request? then [Answer(items[|items| - 1], error)] else []
  }

  function Events(items: seq<Item>): seq<Item> {
    if |items| == 0 then []
    else Events(items[..|items| - 1])
         + if items[|items| - 1].Event? then [items[|items| - 1]] else []
  }

  lemma {:induction false} ReversedSame<T>(items: seq<T>)
    ensures multiset(Reversed(items)) == multiset(items) && |Reversed(items)| == |items|
  {
    if |items| > 0 {
      ReversedSame(items[..|items| - 1]);
      assert items == items[..|items| - 1] + [items[|items| - 1]];
    }
  }

  lemma {:induction false} BatchesSame<T>(items: seq<T>)
    ensures multiset(Batches(items)) == multiset(items)
  {
    if |items| <= BATCH {
      ReversedSame(items);
    } else {
      ReversedSame(items[..BATCH]);
      BatchesSame(items[BATCH..]);
      assert items == items[..BATCH] + items[BATCH..];
    }
  }

  lemma {:induction false} RightKinds(items: seq<Item>, error: nat)
    ensures forall i :: 0 <= i < |Events(items)| ==> Events(items)[i].Event?
    ensures forall i :: 0 <= i < |Answers(items, error)| ==>
              Answers(items, error)[i].request.Request? && Answers(items, error)[i].error == error
  {
    if |items| > 0 {
      RightKinds(items[..|items| - 1], error);
    }
  }

  lemma AnswersSnoc(fore: seq<Item>, last: Item, error: nat)
    ensures Answers(fore + [last], error) == Answers(fore, error) + if last.Request? then [Answer(last, error)] else []
    ensures Events(fore + [last]) == Events(fore) + if last.Event? then [last] else []
  {
    assert (fore + [last])[..|fore|] == fore;
  }

  lemma NothingSorted(error: nat)
    ensures Requests(Answers([], error)) == multiset{} && Events([]) == []
  {
  }

  /** Closing sorts the items into answered requests and discarded events. */
  lemma {:induction false} AnswersAndEvents(items: seq<Item>, error: nat)
    ensures multiset(items) == Requests(Answers(items, error)) + multiset(Events(items))
  {
    hide Requests, Answers, Events;
    if |items| == 0 {
      NothingSorted(error);
    } else {
      var fore, last := items[..|items| - 1], items[|items| - 1];
      AnswersAndEvents(fore, error);
      AnswersSnoc(fore, last, error);
      assert items == fore + [last];
      if last.Request? {
        RequestsSnoc(Answers(fore, error), Answer(last, error));
        assert Answers(items, error) == Answers(fore, error) + [Answer(last, error)];
        assert Events(items) == Events(fore);
      } else {
        assert Answers(items, error) == Answers(fore, error);
        assert multiset(Events(items)) == multiset(Events(fore)) + multiset{last};
      }
    }
  }

  // ----- The operations

  function Terminated(net: Net, c: nat, chan: Chan, n: nat, received: seq<Item>, answered: seq<Answer>,
                      discarded: seq<Item>): (r: Net)
    requires Sound(net) && MayRemove(net, c, chan, n, received, answered, discarded)
    ensures Sound(r)
  {
    RemovedSound(net, c, chan, n, received, answered, discarded);
    Removed(net, c, chan, n, received, answered, discarded)
  }

  function Sending(net: Net, item: Item): (r: Net)
    requires Sound(net) && item.via < |net.senders|
    ensures Sound(r)
  {
    var root := SenderRoot(net, item.via);
    if net.chans[root].resolution.Open? then
      AcceptedSound(net, root, item);
      Accepted(net, root, item)
    else
      net
  }

  /** A request nobody waits for is accepted, and dropped at once. */
  function SendingFinished(net: Net, item: Item): (r: Net)
    requires Sound(net) && item.via < |net.senders|
    ensures Sound(r)
  {
    if net.chans[SenderRoot(net, item.via)].resolution.Open? then
      FinishedSound(net, item);
      net.(past := net.past.(finished := net.past.finished + [item]))
    else
      net
  }

  lemma FinishedSound(net: Net, item: Item)
    requires Sound(net)
    ensures Sound(net.(past := net.past.(finished := net.past.finished + [item])))
  {
    var net' := net.(past := net.past.(finished := net.past.finished + [item]));
    assert Forest(net') && InRange(net');
    SameRoots(net, net');
    hide Root, Of, Queued, Requests;
    assert Homed(net') && InOrder(net') && Delivered(net');
  }

  function Receiving(net: Net, c: nat): (r: Net)
    requires Sound(net) && HasReceiver(net, c)
    ensures Sound(r)
  {
    var chan := net.chans[c];
    if chan.queue == [] then
      net
    else
      OneReceived(chan.queue);
      Terminated(net, c, chan.(queue := chan.queue[1..]), 1, chan.queue[..1], [], [])
  }

  lemma OneReceived(queue: seq<Item>)
    requires queue != []
    ensures multiset(queue[..1]) == multiset(queue[..1]) + Requests([]) + multiset([])
  {
  }

  lemma NoneReceived(queue: seq<Item>)
    ensures multiset(queue[..0]) == multiset([]) + Requests([]) + multiset([])
  {
  }

  function Polling(net: Net, c: nat, waker: nat): (r: Net)
    requires Sound(net) && HasReceiver(net, c)
    ensures Sound(r)
  {
    if net.chans[c].queue == [] then
      NoneReceived(net.chans[c].queue);
      Terminated(net, c, net.chans[c].(waker := Some(waker)), 0, [], [], [])
    else
      Receiving(net, c)
  }

  function Closing(net: Net, c: nat, error: nat): (r: Net)
    requires Sound(net) && HasReceiver(net, c)
    ensures Sound(r)
  {
    var chan := net.chans[c];
    var order := Batches(chan.queue);
    ClosingSorts(chan.queue, error);
    Terminated(net, c, chan.(queue := [], waker := None, resolution := Failed(error), holder := Nobody), |chan.queue|,
               [], Answers(order, error), Events(order))
  }

  lemma ClosingSorts(queue: seq<Item>, error: nat)
    ensures multiset(queue[..|queue|])
         == multiset([]) + Requests(Answers(Batches(queue), error)) + multiset(Events(Batches(queue)))
    ensures forall i :: 0 <= i < |Events(Batches(queue))| ==> Events(Batches(queue))[i].Event?
    ensures forall i :: 0 <= i < |Answers(Batches(queue), error)| ==>
              Answers(Batches(queue), error)[i].request.Request?
  {
    hide Batches, Answers, Events, Requests;
    BatchesSame(queue);
    AnswersAndEvents(Batches(queue), error);
    RightKinds(Batches(queue), error);
    assert queue[..|queue|] == queue;
  }

  function Dropping(net: Net, c: nat): (r: Net)
    requires Sound(net) && HasReceiver(net, c)
    ensures Sound(r)
  {
    NoneReceived(net.chans[c].queue);
    Terminated(net, c, net.chans[c].(resolution := Dropped, holder := Nobody), 0, [], [], [])
  }

  function Forwarding(net: Net, c: nat, h: nat): (r: Net)
    requires Sound(net) && HasReceiver(net, c) && h < |net.senders|
    ensures Sound(r)
  {
    var root := SenderRoot(net, h);
    if net.chans[root].resolution.Dropped? then
      Dropping(net, c)
    else if net.chans[root].resolution.Failed? then
      Closing(net, c, net.chans[root].resolution.error)
    else if root == c then
      net
    else
      LinkedSound(net, c, root);
      Linked(net, c, root)
  }

  function Upgrading(net: Net, c: nat): (r: Net)
    requires Sound(net) && c < |net.chans| && net.chans[c].holder.Weak?
    ensures Sound(r)
  {
    NoneReceived(net.chans[c].queue);
    Terminated(net, c, net.chans[c].(holder := Strong), 0, [], [], [])
  }

  function Growing(net: Net, resolution: Resolution<nat>, holder: Holder): (r: Net)
    requires Sound(net) && !resolution.Forwarded? && (resolution.Open? <==> holder != Nobody)
    ensures Sound(r)
  {
    GrownSound(net, NewChan(resolution, holder));
    Grown(net, NewChan(resolution, holder))
  }

  function Cloning(net: Net, h: nat): (r: Net)
    requires Sound(net) && h < |net.senders|
    ensures Sound(r)
  {
    ClonedSound(net, h);
    net.(senders := net.senders + [net.senders[h]])
  }

  function Resolving(net: Net, h: nat): (r: Net)
    requires Sound(net) && h < |net.senders|
    ensures Sound(r)
  {
    ResolvedSound(net, h, SenderRoot(net, h));
    net.(senders := net.senders[h := SenderRoot(net, h)])
  }

  /** One step of a run; an operation on a handle that does not exist cannot be called. */
  function Apply(net: Net, step: Step): (r: Net)
    requires Sound(net)
    ensures Sound(r)
  {
    hide Sound;
    if !Enabled(net, step) then
      net
    else
      match step
      case NewChannel => Growing(net, Open, Strong)
      case NewBroken(error) => Growing(net, Failed(error), Nobody)
      case NewWeak => Growing(net, Open, Weak)
      case Upgrade(c) => Upgrading(net, c)
      case Clone(h) => Cloning(net, h)
      case ResolveInPlace(h) => Resolving(net, h)
      case Send(h, id, isFinished) =>
        if isFinished then SendingFinished(net, Request(id, h)) else Sending(net, Request(id, h))
      case SendEvent(h, id) => Sending(net, Event(id, h))
      case ForwardTo(c, h) => Forwarding(net, c, h)
      case PollRecv(c, waker) => Polling(net, c, waker)
      case TryRecv(c) => Receiving(net, c)
      case Close(c, error) => Closing(net, c, error)
      case DropReceiver(c) => Dropping(net, c)
  }

  /** The state after the steps. */
  function Run(net: Net, steps: seq<Step>): (r: Net)
    requires Sound(net)
    ensures Sound(r)
  {
    if |steps| == 0 then net else Apply(Run(net, steps[..|steps| - 1]), steps[|steps| - 1])
  }
}
