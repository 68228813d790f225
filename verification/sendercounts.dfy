/**
 The count of the senders of a channel. It is compared to 0 before it is decremented, so the drop of the last
 sender does not close the channel.
 */
module SenderCounts {

  datatype Change = Add | Remove

  /** The senders there are after the changes, from the first one on. */
  function Senders(changes: seq<Change>): int {
    if |changes| == 0 then 1
    else Senders(changes[..|changes| - 1]) + if changes[|changes| - 1].Add? then 1 else -1
  }

  /** Every sender is dropped once. They are cloned, or made of a weak channel, which there can be without senders. */
  predicate Possible(changes: seq<Change>) {
    forall n :: 0 <= n < |changes| && changes[n].Remove? ==> Senders(changes[..n]) > 0
  }

  /** Some drop found the count it looks for. */
  ghost predicate Closes(changes: seq<Change>) {
    exists n :: 0 <= n < |changes| && changes[n].Remove? && Senders(changes[..n]) == 0
  }

  /** The part of `ResolutionState` that counts. */
  class SenderCount {
    var count: int
    var closed: bool
    ghost var changes: seq<Change>

    ghost predicate Valid()
      reads this
    {
      Possible(changes) && count == Senders(changes) && closed == Closes(changes)
    }

    constructor ()
      ensures Valid() && changes == [] && !closed
    {
      count, closed, changes := 1, false, [];
    }

    /** `add_sender`. */
    method AddSender()
      requires Valid()
      modifies this
      ensures Valid() && changes == old(changes) + [Add] && !closed
    {
      count := count + 1;
      More(changes, Add);
      changes := changes + [Add];
    }

    /** `remove_sender`: no drop closes the channel, not even that of the last sender. */
    method RemoveSender()
      requires Valid() && Senders(changes) > 0
      modifies this
      ensures Valid() && changes == old(changes) + [Remove] && !closed
    {
      var before := count;
      count := count - 1;
      closed := closed || before == 0;
      More(changes, Remove);
      changes := changes + [Remove];
    }
  }

  lemma More(changes: seq<Change>, change: Change)
    requires Possible(changes) && (change.Remove? ==> Senders(changes) > 0)
    ensures Possible(changes + [change])
    ensures Senders(changes + [change]) == Senders(changes) + if change.Add? then 1 else -1
    ensures !Closes(changes) && !Closes(changes + [change])
  {
    var more := changes + [change];
    assert more[..|changes|] == changes;
    forall n | 0 <= n < |more| && more[n].Remove?
      ensures Senders(more[..n]) > 0
    {
      assert n < |changes| ==> more[..n] == changes[..n];
    }
    NeverCloses(changes);
    NeverCloses(more);
  }

  /** In every possible history the channel stays open to its receiver, also when no sender is left. */
  lemma {:induction false} NeverCloses(changes: seq<Change>)
    requires Possible(changes)
    ensures !Closes(changes) && Senders(changes) >= 0
  {
    if |changes| > 0 {
      var fore := changes[..|changes| - 1];
      forall n | 0 <= n < |fore|
        ensures fore[..n] == changes[..n]
      {
      }
      NeverCloses(fore);
    }
  }

  /** The drop of the last sender is such a history. */
  lemma LastSenderGone()
    ensures Possible([Remove]) && Senders([Remove]) == 0 && !Closes([Remove])
  {
    assert [Remove][..0] == [];
    More([], Remove);
    NeverCloses([] + [Remove]);
    assert [] + [Remove] == [Remove];
  }
}
