/**
 Forwardable channels: every public operation of `mpsc` as one step on the state of all channels, and
 what every run of such steps keeps.

 Besides what the source stores, the state carries the history of a run: what was accepted, what left a
 queue and how, who was woken, and when a channel was forwarded.
 */
module Channels {
  import opened Options

  /** A queued link. `via` names the sender it was sent through. */
  datatype Item =
    | Request(id: nat, via: nat)
    | Event(id: nat, via: nat)

  /** How a channel was resolved. */
  datatype Resolution<+T> = Open | Forwarded(to: T) | Failed(error: nat) | Dropped

  /** Who can receive from a channel: its receiver, a weak channel that can become one, or nobody. */
  datatype Holder = Strong | Weak | Nobody

  /** A shared channel. `stamp` is the time of its forwarding. */
  datatype Chan = Chan(queue: seq<Item>, waker: Option<nat>, resolution: Resolution<nat>, holder: Holder, stamp: nat)

  datatype Answer = Answer(request: Item, error: nat)

  /** The channels, and the channel every sender refers to. */
  datatype Net = Net(chans: seq<Chan>, senders: seq<nat>, clock: nat, past: History)

  /**
   `sent`: accepted into a queue; `finished`: accepted and dropped at once; `taken`: removed from a queue,
   in that order, which is one of `received`, `answered` with an error, and `discarded`.
   */
  datatype History = History(sent: seq<Item>, finished: seq<Item>, taken: seq<Item>, received: seq<Item>,
                             answered: seq<Answer>, discarded: seq<Item>, woken: seq<nat>)

  const START: Net := Net([], [], 0, History([], [], [], [], [], [], []))

  function NewChan(resolution: Resolution<nat>, holder: Holder): Chan {
    Chan([], None, resolution, holder, 0)
  }

  // ----- Forwarding is a forest

  /** A channel is forwarded to one that is not forwarded, or was forwarded later. */
  predicate Forest(net: Net) {
    forall c :: 0 <= c < |net.chans| && net.chans[c].resolution.Forwarded? ==>
      var to := net.chans[c].resolution.to;
      && to < |net.chans|
      && net.chans[c].stamp < net.clock
      && (net.chans[to].resolution.Forwarded? ==> net.chans[c].stamp < net.chans[to].stamp)
  }

  /** `most_resolved`. */
  function Root(net: Net, c: nat): (root: nat)
    requires Forest(net) && c < |net.chans|
    ensures root < |net.chans| && !net.chans[root].resolution.Forwarded?
    decreases if net.chans[c].resolution.Forwarded? then 1 + net.clock - net.chans[c].stamp else 0
  {
    if net.chans[c].resolution.Forwarded? then Root(net, net.chans[c].resolution.to) else c
  }

  /** The channel `n` forward links from `c`; a channel that is not forwarded stays. */
  function Follow(net: Net, c: nat, n: nat): (d: nat)
    requires Forest(net) && c < |net.chans|
    ensures d < |net.chans|
    decreases n
  {
    if n == 0 || !net.chans[c].resolution.Forwarded? then c else Follow(net, net.chans[c].resolution.to, n - 1)
  }

  /** Following forward links never leads back. */
  lemma {:induction false} NoCycle(net: Net, c: nat, n: nat)
    requires Forest(net) && c < |net.chans| && net.chans[c].resolution.Forwarded? && n > 0
    ensures Follow(net, c, n) != c
  {
    LaterStamp(net, net.chans[c].resolution.to, n - 1, net.chans[c].stamp);
  }

  lemma {:induction false} LaterStamp(net: Net, c: nat, n: nat, stamp: nat)
    requires Forest(net) && c < |net.chans|
    requires net.chans[c].resolution.Forwarded? ==> stamp < net.chans[c].stamp
    ensures var d := Follow(net, c, n);
            net.chans[d].resolution.Forwarded? ==> stamp < net.chans[d].stamp
    decreases n
  {
    if n > 0 && net.chans[c].resolution.Forwarded? {
      LaterStamp(net, net.chans[c].resolution.to, n - 1, net.chans[c].stamp);
    }
  }

  /** After finitely many links, and then for good, one is at the most resolved channel. */
  lemma {:induction false} FollowEnds(net: Net, c: nat, n: nat)
    requires Forest(net) && c < |net.chans|
    requires net.chans[c].resolution.Forwarded? ==> n >= net.clock - net.chans[c].stamp
    ensures Follow(net, c, n) == Root(net, c)
    decreases n
  {
    if net.chans[c].resolution.Forwarded? {
      FollowEnds(net, net.chans[c].resolution.to, n - 1);
    }
  }

  // ----- What every state satisfies

  /** The items that were sent through a sender, in order. */
  function Of(items: seq<Item>, sender: nat): seq<Item> {
    if |items| == 0 then []
    else Of(items[..|items| - 1], sender)
         + if items[|items| - 1].via == sender then [items[|items| - 1]] else []
  }

  /** The items of all queues. */
  function Queued(chans: seq<Chan>): multiset<Item> {
    if |chans| == 0 then multiset{}
    else Queued(chans[..|chans| - 1]) + multiset(chans[|chans| - 1].queue)
  }

  predicate Known(items: seq<Item>, senders: nat) {
    forall i :: 0 <= i < |items| ==> items[i].via < senders
  }

  /**
   Only channels that may still be received from, or were dropped, hold items; a waker is only kept while
   none are there.
   */
  predicate Settled(chan: Chan) {
    && (chan.resolution.Forwarded? || chan.resolution.Failed? ==> chan.queue == [])
    && (chan.waker.Some? ==> chan.queue == [])
    && (chan.resolution.Open? <==> chan.holder != Nobody)
  }

  predicate InRange(net: Net) {
    && (forall h :: 0 <= h < |net.senders| ==> net.senders[h] < |net.chans|)
    && Known(net.past.sent, |net.senders|) && Known(net.past.taken, |net.senders|)
    && Known(net.past.received, |net.senders|)
    && forall c :: 0 <= c < |net.chans| ==> Known(net.chans[c].queue, |net.senders|)
  }

  /** Every queued item is where its sender leads now. */
  predicate Homed(net: Net)
    requires Forest(net) && InRange(net)
  {
    forall c, i :: 0 <= c < |net.chans| && 0 <= i < |net.chans[c].queue| ==>
      Root(net, net.senders[net.chans[c].queue[i].via]) == c
  }

  function SenderRoot(net: Net, h: nat): nat
    requires Forest(net) && InRange(net) && h < |net.senders|
  {
    Root(net, net.senders[h])
  }

  /** What a sender had accepted is what left the queues, in order, followed by what waits at its root, in order. */
  predicate InOrder(net: Net)
    requires Forest(net) && InRange(net)
  {
    forall h :: 0 <= h < |net.senders| ==>
      Of(net.past.sent, h) == Of(net.past.taken, h) + Of(net.chans[SenderRoot(net, h)].queue, h)
  }

  /** What was received of a sender came in the order it was sent, without gaps; closing a channel ends it. */
  predicate Delivered(net: Net)
    requires Forest(net) && InRange(net)
  {
    forall h :: 0 <= h < |net.senders| ==>
      && Of(net.past.received, h) <= Of(net.past.sent, h)
      && (!net.chans[SenderRoot(net, h)].resolution.Failed? ==>
            Of(net.past.received, h) == Of(net.past.taken, h))
  }

  function Requests(answers: seq<Answer>): multiset<Item> {
    if |answers| == 0 then multiset{}
    else Requests(answers[..|answers| - 1]) + multiset{answers[|answers| - 1].request}
  }

  /** Every accepted item is in exactly one place. */
  predicate Conserved(net: Net) {
    && multiset(net.past.sent) == multiset(net.past.taken) + Queued(net.chans)
    && multiset(net.past.taken)
       == multiset(net.past.received) + Requests(net.past.answered) + multiset(net.past.discarded)
    && (forall i :: 0 <= i < |net.past.discarded| ==> net.past.discarded[i].Event?)
    && (forall i :: 0 <= i < |net.past.answered| ==> net.past.answered[i].request.Request?)
  }

  predicate Sound(net: Net) {
    && Forest(net) && InRange(net) && Homed(net) && InOrder(net) && Delivered(net) && Conserved(net)
    && forall c :: 0 <= c < |net.chans| ==> Settled(net.chans[c])
  }

  // ----- Lemmas on items and queues

  lemma {:induction false} OfConcat(a: seq<Item>, b: seq<Item>, sender: nat)
    ensures Of(a + b, sender) == Of(a, sender) + Of(b, sender)
  {
    if |b| == 0 {
      assert a + b == a;
    } else {
      OfConcat(a, b[..|b| - 1], sender);
      assert (a + b)[..|a + b| - 1] == a + b[..|b| - 1];
    }
  }

  lemma {:induction false} OfNone(items: seq<Item>, sender: nat)
    requires forall i :: 0 <= i < |items| ==> items[i].via != sender
    ensures Of(items, sender) == []
  {
    if |items| > 0 {
      OfNone(items[..|items| - 1], sender);
    }
  }

  lemma QueuedPush(chans: seq<Chan>, chan: Chan)
    ensures Queued(chans + [chan]) == Queued(chans) + multiset(chan.queue)
  {
    assert (chans + [chan])[..|chans|] == chans;
  }

  lemma {:induction false} QueuedUpdate(chans: seq<Chan>, c: nat, chan: Chan)
    requires c < |chans|
    ensures Queued(chans[c := chan]) + multiset(chans[c].queue) == Queued(chans) + multiset(chan.queue)
  {
    hide Queued;
    var fore, last := chans[..|chans| - 1], chans[|chans| - 1];
    QueuedPush(fore, last);
    assert chans == fore + [last];
    if c < |fore| {
      QueuedUpdate(fore, c, chan);
      QueuedPush(fore[c := chan], last);
      assert chans[c := chan] == fore[c := chan] + [last];
      var fore' := fore[c := chan];
      assert Queued(chans[c := chan]) == Queued(fore') + multiset(last.queue);
      assert chans[c] == fore[c];
      assert Queued(fore') + multiset(fore[c].queue) == Queued(fore) + multiset(chan.queue);
      calc {
        Queued(fore') + multiset(last.queue) + multiset(fore[c].queue);
        Queued(fore') + multiset(fore[c].queue) + multiset(last.queue);
        Queued(fore) + multiset(chan.queue) + multiset(last.queue);
        Queued(fore) + multiset(last.queue) + multiset(chan.queue);
      }
    } else {
      QueuedPush(fore, chan);
      assert chans[c := chan] == fore + [chan];
    }
  }

  lemma RequestsSnoc(answers: seq<Answer>, answer: Answer)
    ensures Requests(answers + [answer]) == Requests(answers) + multiset{answer.request}
  {
    assert (answers + [answer])[..|answers|] == answers;
  }

  lemma NoRequests()
    ensures Requests([]) == multiset{}
  {
  }

  lemma {:induction false} RequestsConcat(a: seq<Answer>, b: seq<Answer>)
    ensures Requests(a + b) == Requests(a) + Requests(b)
  {
    hide Requests;
    if |b| == 0 {
      NoRequests();
      assert a + b == a && b == [];
    } else {
      var fore, last := b[..|b| - 1], b[|b| - 1];
      RequestsConcat(a, fore);
      RequestsSnoc(a + fore, last);
      RequestsSnoc(fore, last);
      assert b == fore + [last] && a + b == a + fore + [last];
    }
  }

  /** Whether `net'` has the same forward links and clock, for the channels `net` has. */
  predicate SameLinks(net: Net, net': Net) {
    && |net.chans| <= |net'.chans| && net'.clock == net.clock
    && forall c :: 0 <= c < |net.chans| ==>
         && (net.chans[c].resolution.Forwarded? <==> net'.chans[c].resolution.Forwarded?)
         && (net.chans[c].resolution.Forwarded? ==>
               && net'.chans[c].resolution == net.chans[c].resolution
               && net'.chans[c].stamp == net.chans[c].stamp)
  }

  lemma {:induction false} SameRoot(net: Net, net': Net, c: nat)
    requires Forest(net) && Forest(net') && c < |net.chans| && SameLinks(net, net')
    ensures Root(net', c) == Root(net, c)
    decreases if net.chans[c].resolution.Forwarded? then 1 + net.clock - net.chans[c].stamp else 0
  {
    if net.chans[c].resolution.Forwarded? {
      SameRoot(net, net', net.chans[c].resolution.to);
    }
  }

  // ----- The three changes every operation is made of

  /** Channel `c` becomes `chan` and its first `n` items leave it. */
  function Removed(net: Net, c: nat, chan: Chan, n: nat, received: seq<Item>, answered: seq<Answer>,
                   discarded: seq<Item>): Net
    requires c < |net.chans| && n <= |net.chans[c].queue|
  {
    var past := net.past;
    net.(chans := net.chans[c := chan],
         past := past.(taken := past.taken + net.chans[c].queue[..n], received := past.received + received,
                       answered := past.answered + answered, discarded := past.discarded + discarded))
  }

  /** The item is put at the end of the queue of `c`, and the waker kept there is used up. */
  function Accepted(net: Net, c: nat, item: Item): Net
    requires c < |net.chans|
  {
    var chan := net.chans[c];
    var past := net.past;
    net.(chans := net.chans[c := chan.(queue := chan.queue + [item], waker := None)],
         past := past.(sent := past.sent + [item], woken := past.woken + Wakes(chan.waker)))
  }

  function Wakes(waker: Option<nat>): seq<nat> {
    if waker.Some? then [waker.value] else []
  }

  /** `c` is forwarded to `root`, and its items go to the end of the queue there. */
  function Linked(net: Net, c: nat, root: nat): Net
    requires c < |net.chans| && root < |net.chans| && c != root
  {
    var chan, other := net.chans[c], net.chans[root];
    var chan' := chan.(queue := [], resolution := Forwarded(root), holder := Nobody, stamp := net.clock);
    var net' := net.(chans := net.chans[c := chan'], clock := net.clock + 1);
    if chan.queue == [] then net'
    else net'.(chans := net'.chans[root := other.(queue := other.queue + chan.queue, waker := None)],
               past := net.past.(woken := net.past.woken + Wakes(other.waker)))
  }

  predicate MayRemove(net: Net, c: nat, chan: Chan, n: nat, received: seq<Item>, answered: seq<Answer>,
                      discarded: seq<Item>)
  {
    && c < |net.chans| && n <= |net.chans[c].queue|
    && chan.queue == net.chans[c].queue[n..] && Settled(chan)
    && net.chans[c].resolution.Open? && !chan.resolution.Forwarded?
    && (received == net.chans[c].queue[..n] || (received == [] && chan.resolution.Failed?))
    && multiset(net.chans[c].queue[..n]) == multiset(received) + Requests(answered) + multiset(discarded)
    && (forall i :: 0 <= i < |discarded| ==> discarded[i].Event?)
    && (forall i :: 0 <= i < |answered| ==> answered[i].request.Request?)
  }

  lemma RemovedSound(net: Net, c: nat, chan: Chan, n: nat, received: seq<Item>, answered: seq<Answer>,
                     discarded: seq<Item>)
    requires Sound(net) && MayRemove(net, c, chan, n, received, answered, discarded)
    ensures Sound(Removed(net, c, chan, n, received, answered, discarded))
  {
    hide Root, Of, Queued, Requests;
    var net' := Removed(net, c, chan, n, received, answered, discarded);
    assert Forest(net') && InRange(net') && SameLinks(net, net');
    SameRoots(net, net');
    assert Homed(net') by {
      forall d, i | 0 <= d < |net'.chans| && 0 <= i < |net'.chans[d].queue|
        ensures Root(net', net'.senders[net'.chans[d].queue[i].via]) == d
      {
        if d == c {
          assert chan.queue[i] == net.chans[c].queue[n + i];
        }
      }
    }
    RemovedInOrder(net, net', c, n);
    RemovedDelivered(net, net', c, n, received);
    RemovedConserved(net, c, chan, n, received, answered, discarded);
  }

  lemma SameRoots(net: Net, net': Net)
    requires Forest(net) && Forest(net') && SameLinks(net, net')
    ensures forall c :: 0 <= c < |net.chans| ==> Root(net', c) == Root(net, c)
  {
    forall c | 0 <= c < |net.chans|
      ensures Root(net', c) == Root(net, c)
    {
      SameRoot(net, net', c);
    }
  }

  lemma RemovedInOrder(net: Net, net': Net, c: nat, n: nat)
    requires Sound(net) && Forest(net') && InRange(net')
    requires c < |net.chans| == |net'.chans| && n <= |net.chans[c].queue|
    requires net'.senders == net.senders && net'.past.sent == net.past.sent
    requires forall d :: 0 <= d < |net.chans| ==> Root(net', d) == Root(net, d)
    requires forall d :: 0 <= d < |net.chans| && d != c ==> net'.chans[d] == net.chans[d]
    requires net'.chans[c].queue == net.chans[c].queue[n..]
    requires net'.past.taken == net.past.taken + net.chans[c].queue[..n]
    ensures InOrder(net')
  {
    hide Root, Of, Queued, Requests;
    var queue := net.chans[c].queue;
    forall h | 0 <= h < |net.senders|
      ensures Of(net'.past.sent, h) == Of(net'.past.taken, h) + Of(net'.chans[SenderRoot(net', h)].queue, h)
    {
      OfConcat(net.past.taken, queue[..n], h);
      if SenderRoot(net, h) == c {
        assert queue == queue[..n] + queue[n..];
        OfConcat(queue[..n], queue[n..], h);
      } else {
        NotHere(net, c, h);
        OfNone(queue[..n], h);
      }
    }
  }

  lemma RemovedDelivered(net: Net, net': Net, c: nat, n: nat, received: seq<Item>)
    requires Sound(net) && Forest(net') && InRange(net') && InOrder(net')
    requires c < |net.chans| == |net'.chans| && n <= |net.chans[c].queue| && net.chans[c].resolution.Open?
    requires net'.senders == net.senders && net'.past.sent == net.past.sent
    requires forall d :: 0 <= d < |net.chans| ==> Root(net', d) == Root(net, d)
    requires forall d :: 0 <= d < |net.chans| && d != c ==> net'.chans[d] == net.chans[d]
    requires net'.past.taken == net.past.taken + net.chans[c].queue[..n]
    requires net'.past.received == net.past.received + received
    requires received == net.chans[c].queue[..n] || (received == [] && net'.chans[c].resolution.Failed?)
    ensures Delivered(net')
  {
    hide Root, Of, Queued, Requests, Conserved;
    var queue := net.chans[c].queue;
    forall h | 0 <= h < |net.senders|
      ensures Of(net'.past.received, h) <= Of(net'.past.sent, h)
      ensures !net'.chans[SenderRoot(net', h)].resolution.Failed? ==>
                Of(net'.past.received, h) == Of(net'.past.taken, h)
    {
      OfConcat(net.past.taken, queue[..n], h);
      OfConcat(net.past.received, received, h);
      OfNone([], h);
      if SenderRoot(net, h) != c {
        NotHere(net, c, h);
        OfNone(queue[..n], h);
      }
    }
  }

  /** A queue holds nothing of a sender that leads elsewhere. */
  lemma NotHere(net: Net, c: nat, h: nat)
    requires Sound(net) && c < |net.chans| && h < |net.senders| && SenderRoot(net, h) != c
    ensures forall i :: 0 <= i < |net.chans[c].queue| ==> net.chans[c].queue[i].via != h
  {
    hide Root, Of, Queued, Requests, InOrder, Delivered, Conserved;
  }

  lemma RemovedConserved(net: Net, c: nat, chan: Chan, n: nat, received: seq<Item>, answered: seq<Answer>,
                         discarded: seq<Item>)
    requires Conserved(net) && MayRemove(net, c, chan, n, received, answered, discarded)
    ensures Conserved(Removed(net, c, chan, n, received, answered, discarded))
  {
    hide Queued, Requests;
    var queue := net.chans[c].queue;
    QueuedUpdate(net.chans, c, chan);
    RequestsConcat(net.past.answered, answered);
    assert queue == queue[..n] + queue[n..];
    Regroup(multiset(net.past.sent), multiset(net.past.taken), Queued(net.chans), Queued(net.chans[c := chan]),
            multiset(queue[..n]), multiset(queue[n..]));
  }

  lemma Regroup(sent: multiset<Item>, taken: multiset<Item>, queued: multiset<Item>, queued': multiset<Item>,
                left: multiset<Item>, stayed: multiset<Item>)
    requires sent == taken + queued && queued' + (left + stayed) == queued + stayed
    ensures sent == (taken + left) + queued'
  {
    forall x: Item
      ensures sent[x] == ((taken + left) + queued')[x]
    {
      assert (queued' + (left + stayed))[x] == (queued + stayed)[x];
    }
  }

  lemma AcceptedConserved(sent: multiset<Item>, taken: multiset<Item>, queued: multiset<Item>, queued': multiset<Item>,
                          queue: multiset<Item>, item: Item)
    requires sent == taken + queued && queued' + queue == queued + (queue + multiset{item})
    ensures sent + multiset{item} == taken + queued'
  {
    forall x: Item
      ensures (sent + multiset{item})[x] == (taken + queued')[x]
    {
      assert (queued' + queue)[x] == (queued + (queue + multiset{item}))[x];
    }
  }

  lemma AcceptedSound(net: Net, c: nat, item: Item)
    requires Sound(net) && c < |net.chans| && net.chans[c].resolution.Open?
    requires item.via < |net.senders| && SenderRoot(net, item.via) == c
    ensures Sound(Accepted(net, c, item))
  {
    hide Root, Of, Queued, Requests;
    var net' := Accepted(net, c, item);
    var queue := net.chans[c].queue;
    assert Forest(net') && InRange(net') && SameLinks(net, net');
    SameRoots(net, net');
    assert Homed(net');
    assert InOrder(net') && Delivered(net') by {
      forall h | 0 <= h < |net.senders|
        ensures Of(net'.past.sent, h) == Of(net'.past.taken, h) + Of(net'.chans[SenderRoot(net', h)].queue, h)
        ensures Of(net'.past.received, h) <= Of(net'.past.sent, h)
      {
        OfConcat(net.past.sent, [item], h);
        OfConcat(queue, [item], h);
        if h != item.via {
          OfNone([item], h);
        }
      }
    }
    assert Conserved(net') by {
      QueuedUpdate(net.chans, c, net'.chans[c]);
      assert multiset(queue + [item]) == multiset(queue) + multiset{item};
      AcceptedConserved(multiset(net.past.sent), multiset(net.past.taken), Queued(net.chans), Queued(net'.chans),
                        multiset(queue), item);
    }
  }

  // ----- Forwarding one channel to another

  lemma LinkedForest(net: Net, c: nat, root: nat)
    requires Sound(net) && c < |net.chans| && root < |net.chans| && c != root
    requires !net.chans[c].resolution.Forwarded? && !net.chans[root].resolution.Forwarded?
    ensures Forest(Linked(net, c, root))
  {
  }

  lemma {:induction false} LinkedRoot(net: Net, c: nat, root: nat, d: nat)
    requires c < |net.chans| && root < |net.chans| && c != root
    requires Forest(net) && Forest(Linked(net, c, root)) && d < |net.chans|
    requires !net.chans[c].resolution.Forwarded? && !net.chans[root].resolution.Forwarded?
    ensures Root(Linked(net, c, root), d) == if Root(net, d) == c then root else Root(net, d)
    decreases if net.chans[d].resolution.Forwarded? then 1 + net.clock - net.chans[d].stamp else 0
  {
    var net' := Linked(net, c, root);
    if net.chans[d].resolution.Forwarded? {
      assert net'.chans[d].resolution == net.chans[d].resolution;
      LinkedRoot(net, c, root, net.chans[d].resolution.to);
    } else if d == c {
      assert Root(net', c) == Root(net', root);
    }
  }

  predicate Linkable(net: Net, c: nat, root: nat) {
    && c < |net.chans| && root < |net.chans| && c != root
    && net.chans[c].resolution.Open? && net.chans[root].resolution.Open?
  }

  lemma LinkedRoots(net: Net, c: nat, root: nat)
    requires Sound(net) && Linkable(net, c, root)
    ensures Forest(Linked(net, c, root))
    ensures forall d :: 0 <= d < |net.chans| ==>
              Root(Linked(net, c, root), d) == if Root(net, d) == c then root else Root(net, d)
  {
    LinkedForest(net, c, root);
    forall d | 0 <= d < |net.chans|
      ensures Root(Linked(net, c, root), d) == if Root(net, d) == c then root else Root(net, d)
    {
      LinkedRoot(net, c, root, d);
    }
  }

  lemma LinkedHomed(net: Net, c: nat, root: nat)
    requires Sound(net) && Linkable(net, c, root)
    ensures Forest(Linked(net, c, root)) && InRange(Linked(net, c, root)) && Homed(Linked(net, c, root))
  {
    hide Root, Of, Queued, Requests, InOrder, Delivered, Conserved;
    LinkedRoots(net, c, root);
    var net' := Linked(net, c, root);
    var own := |net.chans[root].queue|;
    assert InRange(net');
    forall d, i | 0 <= d < |net'.chans| && 0 <= i < |net'.chans[d].queue|
      ensures Root(net', net'.senders[net'.chans[d].queue[i].via]) == d
    {
      if d == root && i >= own {
        assert net'.chans[d].queue[i] == net.chans[c].queue[i - own];
      } else {
        assert net'.chans[d].queue[i] == net.chans[d].queue[i];
      }
    }
  }

  lemma LinkedInOrder(net: Net, c: nat, root: nat)
    requires Sound(net) && Linkable(net, c, root)
    requires Forest(Linked(net, c, root)) && InRange(Linked(net, c, root))
    ensures InOrder(Linked(net, c, root))
  {
    hide Root, Of, Queued, Requests, Homed, Delivered, Conserved;
    LinkedRoots(net, c, root);
    var net' := Linked(net, c, root);
    var here, there := net.chans[c].queue, net.chans[root].queue;
    assert net'.chans[root].queue == there + here;
    forall h | 0 <= h < |net.senders|
      ensures Of(net'.past.sent, h) == Of(net'.past.taken, h) + Of(net'.chans[SenderRoot(net', h)].queue, h)
    {
      var home := SenderRoot(net, h);
      OfConcat(there, here, h);
      if home != c {
        NotHere(net, c, h);
        OfNone(here, h);
      }
      if home != root {
        NotHere(net, root, h);
        OfNone(there, h);
      }
    }
  }

  lemma LinkedDelivered(net: Net, c: nat, root: nat)
    requires Sound(net) && Linkable(net, c, root)
    requires Forest(Linked(net, c, root)) && InRange(Linked(net, c, root))
    ensures Delivered(Linked(net, c, root))
  {
    hide Root, Of, Queued, Requests, Homed, InOrder, Conserved;
    LinkedRoots(net, c, root);
  }

  lemma LinkedConserved(net: Net, c: nat, root: nat)
    requires Sound(net) && Linkable(net, c, root)
    ensures Conserved(Linked(net, c, root))
  {
    hide Root, Of, Queued, Requests, Homed, InOrder;
    var net' := Linked(net, c, root);
    var here, there := net.chans[c].queue, net.chans[root].queue;
    var between := net.chans[c := net'.chans[c]];
    QueuedUpdate(net.chans, c, net'.chans[c]);
    assert Queued(between) + multiset(here) == Queued(net.chans);
    if here == [] {
      assert net'.chans == between;
    } else {
      QueuedUpdate(between, root, net'.chans[root]);
      assert net'.chans == between[root := net'.chans[root]];
      assert multiset(there + here) == multiset(there) + multiset(here);
      MovedConserved(Queued(net.chans), Queued(between), Queued(net'.chans), multiset(here), multiset(there));
    }
  }

  lemma MovedConserved(queued: multiset<Item>, between: multiset<Item>, queued': multiset<Item>,
                       here: multiset<Item>, there: multiset<Item>)
    requires between + here == queued && queued' + there == between + (there + here)
    ensures queued' == queued
  {
    forall x: Item
      ensures queued'[x] == queued[x]
    {
      assert (between + here)[x] == queued[x] && (queued' + there)[x] == (between + (there + here))[x];
    }
  }

  lemma LinkedSound(net: Net, c: nat, root: nat)
    requires Sound(net) && Linkable(net, c, root)
    ensures Sound(Linked(net, c, root))
  {
    LinkedHomed(net, c, root);
    LinkedInOrder(net, c, root);
    LinkedDelivered(net, c, root);
    LinkedConserved(net, c, root);
    hide Root, Of, Queued, Requests, Homed, InOrder, Delivered, Conserved, Forest, InRange;
  }

  // ----- New channels and senders

  /** A new channel without history, and a first sender for it. */
  function Grown(net: Net, chan: Chan): Net {
    net.(chans := net.chans + [chan], senders := net.senders + [|net.chans|])
  }

  lemma GrownSound(net: Net, chan: Chan)
    requires Sound(net) && Settled(chan) && chan.queue == [] && !chan.resolution.Forwarded?
    ensures Sound(Grown(net, chan))
  {
    hide Root, Of, Queued, Requests;
    var net' := Grown(net, chan);
    assert Forest(net') && InRange(net') && SameLinks(net, net');
    SameRoots(net, net');
    assert Homed(net');
    NewSenderInOrder(net, net');
    QueuedPush(net.chans, chan);
  }

  /** A sender that is new has sent nothing. */
  lemma NewSenderInOrder(net: Net, net': Net)
    requires Sound(net) && Forest(net') && InRange(net') && SameLinks(net, net')
    requires |net'.senders| == |net.senders| + 1 && net'.senders[..|net.senders|] == net.senders
    requires net'.past == net.past
    requires forall c :: 0 <= c < |net.chans| ==> net'.chans[c].queue == net.chans[c].queue
    requires forall c :: |net.chans| <= c < |net'.chans| ==> net'.chans[c].queue == []
    requires forall c :: 0 <= c < |net.chans| ==> net'.chans[c].resolution == net.chans[c].resolution
    ensures InOrder(net') && Delivered(net')
  {
    hide Root, Of, Queued, Requests;
    SameRoots(net, net');
    var made := |net.senders|;
    OfNone(net.past.sent, made);
    OfNone(net.past.taken, made);
    OfNone(net.past.received, made);
    OfNone(net'.chans[SenderRoot(net', made)].queue, made);
    forall h | 0 <= h < |net.senders|
      ensures SenderRoot(net', h) == SenderRoot(net, h)
    {
      assert net'.senders[h] == net'.senders[..|net.senders|][h];
    }
  }

  /** Sender `h` refers to another channel with the same root. */
  lemma ResolvedSound(net: Net, h: nat, c: nat)
    requires Sound(net) && h < |net.senders| && c < |net.chans| && Root(net, c) == SenderRoot(net, h)
    ensures Sound(net.(senders := net.senders[h := c]))
  {
    hide Of, Queued, Requests;
    var net' := net.(senders := net.senders[h := c]);
    assert Forest(net') && InRange(net') && SameLinks(net, net');
    SameRoots(net, net');
    hide Root;
    assert forall g :: 0 <= g < |net.senders| ==> SenderRoot(net', g) == SenderRoot(net, g);
    assert Homed(net');
    assert InOrder(net');
  }

  lemma ClonedSound(net: Net, h: nat)
    requires Sound(net) && h < |net.senders|
    ensures Sound(net.(senders := net.senders + [net.senders[h]]))
  {
    hide Root, Of, Queued, Requests;
    var net' := net.(senders := net.senders + [net.senders[h]]);
    assert Forest(net') && InRange(net') && SameLinks(net, net');
    SameRoots(net, net');
    assert Homed(net');
    NewSenderInOrder(net, net');
  }
}
