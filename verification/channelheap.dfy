/**
 Channels as the program keeps them: objects that refer to each other, with queues changed in place.
 Every operation is proved to be the step it stands for.
 */
module ArrayVecs {
  import opened ChannelSteps

  /** `ArrayVec`: a fixed array filled from the front, and emptied from the back. */
  class ArrayVec<T(0)> {
    const inner: array<T>
    var curr: nat

    ghost predicate Valid()
      reads this
    {
      curr <= inner.Length
    }

    ghost function Contents(): seq<T>
      requires Valid()
      reads this, inner
    {
      inner[..curr]
    }

    constructor (n: nat)
      ensures Valid() && Contents() == [] && inner.Length == n && fresh(inner)
    {
      inner := new T[n];
      curr := 0;
    }

    function CanPush(): bool
      reads this
    {
      curr < inner.Length
    }

    method Push(x: T)
      requires Valid() && CanPush()
      modifies this, inner
      ensures Valid() && Contents() == old(Contents()) + [x]
    {
      inner[curr] := x;
      curr := curr + 1;
    }

    /** `for_each`: the items in the order the function is called on them. */
    method ForEach() returns (visited: seq<T>)
      requires Valid()
      modifies this
      ensures Valid() && Contents() == [] && visited == Reversed(old(Contents()))
    {
      visited := [];
      ghost var all := Contents();
      while curr > 0
        invariant curr <= |all| && Valid() && Contents() == all[..curr]
        invariant visited + Reversed(all[..curr]) == Reversed(all)
      {
        curr := curr - 1;
        visited := visited + [inner[curr]];
        assert all[..curr + 1][..curr] == all[..curr];
      }
    }
  }
}

module ChannelHeap {
  import opened Options
  import opened Channels
  import opened ChannelSteps
  import opened ChannelRuns
  import opened ArrayVecs

  class SharedChannel {
    var requests: seq<Item>
    var waker: Option<nat>
    var resolution: Resolution<SharedChannel>

    constructor (resolved: Resolution<SharedChannel>)
      ensures requests == [] && waker == None && resolution == resolved
    {
      requests := [];
      waker := None;
      resolution := resolved;
    }
  }

  /** The channels of a program and the senders that refer to them; `net` is what they stand for. */
  class Exchange {
    var shared: seq<SharedChannel>
    var senders: seq<SharedChannel>
    ghost var net: Net

    /** What a resolution looks like as an object. */
    static ghost function Image(resolution: Resolution<nat>, shared: seq<SharedChannel>): Resolution<SharedChannel> {
      match resolution
      case Open => Open
      case Forwarded(to) => if to < |shared| then Forwarded(shared[to]) else Dropped
      case Failed(error) => Failed(error)
      case Dropped => Dropped
    }

    ghost predicate Valid()
      reads this, shared
    {
      && Sound(net)
      && |shared| == |net.chans| && |senders| == |net.senders|
      && (forall i, j :: 0 <= i < j < |shared| ==> shared[i] != shared[j])
      && (forall i :: 0 <= i < |shared| ==>
            && shared[i].requests == net.chans[i].queue
            && shared[i].waker == net.chans[i].waker
            && shared[i].resolution == Image(net.chans[i].resolution, shared))
      && forall h :: 0 <= h < |senders| ==> senders[h] == shared[net.senders[h]]
    }

    constructor ()
      ensures Valid() && net == START
    {
      shared, senders, net := [], [], START;
      new;
      StartSound();
    }

    /** `channel`, `broken` and `weak_channel`: a new channel and a first sender for it. */
    method New(resolved: Resolution<nat>, ghost holder: Holder) returns (c: nat)
      requires Valid() && !resolved.Forwarded? && (resolved.Open? <==> holder != Nobody)
      modifies this
      ensures Valid() && net == Growing(old(net), resolved, holder)
      ensures c == old(|shared|) && |shared| == c + 1 && shared[..c] == old(shared) && fresh(shared[c])
    {
      hide Sound;
      c := |shared|;
      var channel := new SharedChannel(match resolved
                                       case Failed(error) => Failed(error)
                                       case Dropped => Dropped
                                       case _ => Open);
      SoundRange(net);
      net := Growing(net, resolved, holder);
      shared, senders := shared + [channel], senders + [channel];
    }

    static lemma SoundRange(net: Net)
      requires Sound(net)
      ensures Forest(net) && InRange(net)
    {
    }

    method CloneSender(h: nat) returns (g: nat)
      requires Valid() && h < |senders|
      modifies this
      ensures Valid() && net == Cloning(old(net), h) && g == old(|senders|) && shared == old(shared)
    {
      hide Sound;
      SoundRange(net);
      g := |senders|;
      net := Cloning(net, h);
      senders := senders + [senders[h]];
    }

    /** `most_resolved`. */
    method MostResolved(start: SharedChannel, ghost c: nat) returns (root: SharedChannel, ghost r: nat)
      requires Valid() && c < |shared| && start == shared[c]
      ensures Forest(net) && r == Root(net, c) && root == shared[r] && !root.resolution.Forwarded?
    {
      hide Sound;
      SoundRange(net);
      root, r := start, c;
      while root.resolution.Forwarded?
        invariant r < |shared| && root == shared[r] && Root(net, r) == Root(net, c)
        decreases if net.chans[r].resolution.Forwarded? then 1 + net.clock - net.chans[r].stamp else 0
      {
        root := root.resolution.to;
        r := net.chans[r].resolution.to;
      }
    }

    /** `resolve_in_place`. */
    method ResolveInPlace(h: nat)
      requires Valid() && h < |senders|
      modifies this
      ensures Valid() && net == Resolving(old(net), h) && shared == old(shared)
    {
      hide Sound;
      SoundRange(net);
      ghost var r;
      var root;
      root, r := MostResolved(senders[h], net.senders[h]);
      net := Resolving(net, h);
      senders := senders[h := root];
    }

    /** `upgrade` of a weak channel. */
    ghost method Upgrade(c: nat)
      requires Valid() && c < |net.chans| && net.chans[c].holder.Weak?
      modifies this`net
      ensures Valid() && net == Upgrading(old(net), c)
    {
      hide Sound;
      net := Upgrading(net, c);
      Unlinked(old(net), net, c);
    }

    /** `send`: nothing is woken for a request that is finished already. */
    method Send(h: nat, id: nat, isFinished: bool) returns (refusal: Refusal, woken: Option<nat>)
      requires Valid() && h < |senders|
      modifies this, shared
      ensures Valid() && shared == old(shared) && senders == old(senders)
      ensures net == Apply(old(net), Step.Send(h, id, isFinished))
      ensures refusal == RefusedBy(old(net).chans[SenderRoot(old(net), h)].resolution)
      ensures net.past.woken == old(net).past.woken + Wakes(woken)
    {
      hide Sound, Accepted;
      SoundRange(net);
      refusal, woken := Taken, None;
      var item := Request(id, h);
      var root;
      ghost var r;
      root, r := MostResolved(senders[h], net.senders[h]);
      if root.resolution.Dropped? {
        return ReceiverDropped, None;
      } else if root.resolution.Failed? {
        return ClosedWith(root.resolution.error), None;
      }
      if isFinished {
        root.requests := root.requests + [item];
        root.requests := root.requests[..|root.requests| - 1];
        net := SendingFinished(net, item);
      } else {
        woken := PushAndWake(root, r, item);
      }
    }

    /** `send_event`. */
    method SendEvent(h: nat, id: nat) returns (refusal: Refusal, woken: Option<nat>)
      requires Valid() && h < |senders|
      modifies this, shared
      ensures Valid() && shared == old(shared) && senders == old(senders)
      ensures net == Apply(old(net), Step.SendEvent(h, id))
      ensures refusal == RefusedBy(old(net).chans[SenderRoot(old(net), h)].resolution)
      ensures net.past.woken == old(net).past.woken + Wakes(woken)
    {
      hide Sound, Accepted;
      SoundRange(net);
      refusal, woken := Taken, None;
      var root;
      ghost var r;
      root, r := MostResolved(senders[h], net.senders[h]);
      if root.resolution.Dropped? {
        return ReceiverDropped, None;
      } else if root.resolution.Failed? {
        return ClosedWith(root.resolution.error), None;
      }
      woken := PushAndWake(root, r, Event(id, h));
    }

    /** `push_back`, and the waker to call once the lock is released. */
    method PushAndWake(root: SharedChannel, ghost r: nat, item: Item) returns (woken: Option<nat>)
      requires Valid() && item.via < |senders| && r < |shared| && root == shared[r]
      requires r == SenderRoot(net, item.via) && net.chans[r].resolution.Open?
      modifies this`net, root
      ensures Valid() && net == Sending(old(net), item)
      ensures net.past.woken == old(net).past.woken + Wakes(woken)
    {
      hide Sound;
      woken := root.waker;
      root.requests := root.requests + [item];
      root.waker := None;
      net := Sending(net, item);
      Unlinked(old(net), net, r);
      assert forall i :: 0 <= i < |shared| && i != r ==> shared[i] != root;
    }

    /** A step that changed channel `c` and left every forward link alone. */
    lemma Unlinked(before: Net, after: Net, c: nat)
      requires c < |before.chans| && |after.chans| == |before.chans|
      requires forall i :: 0 <= i < |before.chans| && i != c ==> after.chans[i] == before.chans[i]
      ensures forall i :: 0 <= i < |before.chans| && i != c ==> after.chans[i].resolution == before.chans[i].resolution
    {
    }

    /** `poll_recv`. A receiver is never closed by its senders: see `SenderCounts.NeverCloses`. */
    method PollRecv(c: nat, waker: nat) returns (item: Option<Item>)
      requires Valid() && HasReceiver(net, c)
      modifies this, shared
      ensures Valid() && shared == old(shared) && senders == old(senders)
      ensures net == Apply(old(net), Step.PollRecv(c, waker))
      ensures item == if old(net).chans[c].queue == [] then None else Some(old(net).chans[c].queue[0])
    {
      hide Sound, Removed;
      item := TryRecv(c);
      if item.None? {
        var channel := shared[c];
        if channel.waker.Some? && channel.waker.value != waker {
          channel.waker := None;
        }
        if channel.waker.None? {
          channel.waker := Some(waker);
        }
        net := Polling(net, c, waker);
        PollingIs(old(net), c, waker);
      }
    }

    lemma PollingIs(net: Net, c: nat, waker: nat)
      requires Sound(net) && HasReceiver(net, c) && net.chans[c].queue == []
      ensures Polling(net, c, waker).chans == net.chans[c := net.chans[c].(waker := Some(waker))]
      ensures Polling(net, c, waker).senders == net.senders
    {
    }

    /** `try_recv`. */
    method TryRecv(c: nat) returns (item: Option<Item>)
      requires Valid() && HasReceiver(net, c)
      modifies this, shared
      ensures Valid() && shared == old(shared) && senders == old(senders)
      ensures net == Apply(old(net), Step.TryRecv(c))
      ensures item == if old(net).chans[c].queue == [] then None else Some(old(net).chans[c].queue[0])
    {
      hide Sound, Removed;
      var channel := shared[c];
      if channel.requests == [] {
        return None;
      }
      item := Some(channel.requests[0]);
      channel.requests := channel.requests[1..];
      net := Receiving(net, c);
      ReceivingIs(old(net), c);
    }

    lemma ReceivingIs(net: Net, c: nat)
      requires Sound(net) && HasReceiver(net, c) && net.chans[c].queue != []
      ensures Receiving(net, c).chans == net.chans[c := net.chans[c].(queue := net.chans[c].queue[1..])]
      ensures Receiving(net, c).senders == net.senders
    {
    }

    /** Dropping a receiver that was not resolved. */
    method DropReceiver(c: nat)
      requires Valid() && HasReceiver(net, c)
      modifies this, shared
      ensures Valid() && shared == old(shared) && senders == old(senders)
      ensures net == Dropping(old(net), c)
    {
      hide Sound, Removed;
      shared[c].resolution := Dropped;
      net := Dropping(net, c);
      DroppingIs(old(net), c);
    }

    lemma DroppingIs(net: Net, c: nat)
      requires Sound(net) && HasReceiver(net, c)
      ensures Dropping(net, c).chans == net.chans[c := net.chans[c].(resolution := Dropped, holder := Nobody)]
      ensures Dropping(net, c).senders == net.senders
    {
    }

    /** `close`: the waiting requests are answered in batches of at most 32, taken out under the lock. */
    method Close(c: nat, error: nat) returns (answered: seq<Answer>)
      requires Valid() && HasReceiver(net, c)
      modifies this, shared
      ensures Valid() && shared == old(shared) && senders == old(senders)
      ensures net == Closing(old(net), c, error)
      ensures net.past.answered == old(net).past.answered + answered
    {
      hide Sound, Removed;
      var channel := shared[c];
      ghost var queue := channel.requests;
      channel.waker := None;
      channel.resolution := Failed(error);
      answered := DrainWithError(channel, error);
      net := Closing(net, c, error);
      ClosingIs(old(net), c, error);
    }

    lemma ClosingIs(net: Net, c: nat, error: nat)
      requires Sound(net) && HasReceiver(net, c)
      ensures var chan := net.chans[c].(queue := [], waker := None, resolution := Failed(error), holder := Nobody);
              Closing(net, c, error).chans == net.chans[c := chan]
      ensures Closing(net, c, error).senders == net.senders
      ensures Closing(net, c, error).past.answered
           == net.past.answered + Answers(Batches(net.chans[c].queue), error)
    {
    }

    /** The loop of `close`. */
    static method DrainWithError(channel: SharedChannel, error: nat) returns (answered: seq<Answer>)
      modifies channel`requests
      ensures channel.requests == [] && answered == Answers(Batches(old(channel.requests)), error)
    {
      hide Batches, Answers, Reversed;
      ghost var queue := channel.requests;
      var batch := new ArrayVec<Item>(BATCH);
      answered := [];
      ghost var flushed, first := [], 0;
      NothingAnswered(queue, error);
      while true
        invariant batch.Valid() && fresh(batch) && fresh(batch.inner) && batch.inner.Length == BATCH
        invariant 0 <= first <= first + batch.curr <= |queue|
        invariant batch.Contents() == queue[first..first + batch.curr]
        invariant channel.requests == queue[first + batch.curr..]
        invariant flushed + Batches(queue[first..]) == Batches(queue)
        invariant answered == Answers(flushed, error)
        decreases |channel.requests|, batch.curr
      {
        if !batch.CanPush() {
          ghost var full := batch.Contents();
          BatchesStep(queue[first..]);
          assert queue[first..][..BATCH] == full && queue[first..][BATCH..] == queue[first + BATCH..];
          AnswersConcat(flushed, Reversed(full), error);
          flushed, first := flushed + Reversed(full), first + BATCH;
          var visited := batch.ForEach();
          var more := Respond(visited, error);
          answered := answered + more;
        } else if channel.requests == [] {
          break;
        } else {
          batch.Push(channel.requests[0]);
          channel.requests := channel.requests[1..];
        }
      }
      LastBatch(queue[first..]);
      assert batch.Contents() == queue[first..];
      AnswersConcat(flushed, Reversed(queue[first..]), error);
      var visited := batch.ForEach();
      var more := Respond(visited, error);
      answered := answered + more;
    }

    /** The function `close` calls on every item: requests are answered, events are not. */
    static method Respond(items: seq<Item>, error: nat) returns (answered: seq<Answer>)
      ensures answered == Answers(items, error)
    {
      answered := [];
      for i := 0 to |items|
        invariant answered == Answers(items[..i], error)
      {
        assert items[..i + 1][..i] == items[..i];
        if items[i].Request? {
          answered := answered + [Answer(items[i], error)];
        }
      }
      assert items[..|items|] == items;
    }

    static lemma NothingAnswered(queue: seq<Item>, error: nat)
      ensures Answers([], error) == [] && [] + Batches(queue[0..]) == Batches(queue)
    {
      assert queue[0..] == queue;
    }

    static lemma BatchesStep(items: seq<Item>)
      requires |items| >= BATCH
      ensures Batches(items) == Reversed(items[..BATCH]) + Batches(items[BATCH..])
    {
      if |items| == BATCH {
        assert items[..BATCH] == items;
      }
    }

    static lemma LastBatch(items: seq<Item>)
      requires |items| <= BATCH
      ensures Batches(items) == Reversed(items)
    {
    }

    static lemma {:induction false} AnswersConcat(a: seq<Item>, b: seq<Item>, error: nat)
      ensures Answers(a + b, error) == Answers(a, error) + Answers(b, error)
    {
      hide Answers, Events;
      if |b| == 0 {
        NothingAnswered(b, error);
        assert a + b == a && b == [];
      } else {
        var fore, last := b[..|b| - 1], b[|b| - 1];
        AnswersConcat(a, fore, error);
        AnswersSnoc(a + fore, last, error);
        AnswersSnoc(fore, last, error);
        assert b == fore + [last] && a + b == a + fore + [last];
      }
    }

    /** `forward_to`: the receiver is given back when the sender leads to its own channel. */
    method ForwardTo(c: nat, h: nat) returns (returned: bool, woken: Option<nat>)
      requires Valid() && HasReceiver(net, c) && h < |senders|
      modifies this, shared
      ensures Valid() && shared == old(shared) && senders == old(senders)
      ensures net == Apply(old(net), Step.ForwardTo(c, h))
      ensures returned <==> SenderRoot(old(net), h) == c
      ensures net.past.woken == old(net).past.woken + Wakes(woken)
    {
      hide Sound, Removed, Linked, Closing, Dropping;
      SoundRange(net);
      returned, woken := false, None;
      var root;
      ghost var r;
      root, r := MostResolved(senders[h], net.senders[h]);
      HoldersAreOpen(net);
      if root.resolution.Dropped? {
        DroppingWakes(net, c);
        DropReceiver(c);
      } else if root.resolution.Failed? {
        ClosingWakes(net, c, root.resolution.error);
        var _ := Close(c, root.resolution.error);
      } else if shared[c] == root {
        returned := true;
      } else {
        woken := Link(shared[c], c, root, r, h);
      }
    }

    lemma DroppingWakes(net: Net, c: nat)
      requires Sound(net) && HasReceiver(net, c)
      ensures Dropping(net, c).past.woken == net.past.woken
    {
    }

    lemma ClosingWakes(net: Net, c: nat, error: nat)
      requires Sound(net) && HasReceiver(net, c)
      ensures Closing(net, c, error).past.woken == net.past.woken
    {
    }

    /** Forward `channel` to `root` and append its queue there; an empty queue wakes nobody. */
    method Link(channel: SharedChannel, ghost c: nat, root: SharedChannel, ghost r: nat, ghost h: nat)
      returns (woken: Option<nat>)
      requires Valid() && HasReceiver(net, c) && h < |senders| && channel == shared[c]
      requires r == SenderRoot(net, h) && root == shared[r] && r != c && net.chans[r].resolution.Open?
      modifies this`net, channel, root
      ensures Valid() && net == Forwarding(old(net), c, h)
      ensures net.past.woken == old(net).past.woken + Wakes(woken)
    {
      hide Sound;
      woken := None;
      channel.resolution := Forwarded(root);
      if channel.requests != [] {
        root.requests := root.requests + channel.requests;
        channel.requests := [];
        woken := root.waker;
        root.waker := None;
      }
      net := Forwarding(net, c, h);
      LinkedIs(old(net), c, h);
      assert forall i :: 0 <= i < |shared| && i != c && i != r ==> shared[i] != channel && shared[i] != root;
    }

    lemma LinkedIs(net: Net, c: nat, h: nat)
      requires Sound(net) && HasReceiver(net, c) && h < |net.senders|
      requires SenderRoot(net, h) != c && net.chans[SenderRoot(net, h)].resolution.Open?
      ensures var root := SenderRoot(net, h);
              var net' := Forwarding(net, c, h);
              && net' == Linked(net, c, root)
              && net'.senders == net.senders && |net'.chans| == |net.chans|
              && net'.chans[c].resolution == Forwarded(root) && net'.chans[c].queue == []
              && net'.chans[root].resolution == Open
              && forall i :: 0 <= i < |net.chans| && i != c && i != root ==> net'.chans[i] == net.chans[i]
    {
    }
  }
}
