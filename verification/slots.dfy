/**
 Tables of numbered slots with a heap of the free ones: `ExportTable` and `FreeVec` of the RPC connection.
 */
module Slots {
  import opened Options

  /** What the tables use of a binary heap: the least element comes out. */
  class LeastHeap {
    var items: seq<nat>

    constructor ()
      ensures items == []
    {
      items := [];
    }

    method Push(x: nat)
      modifies this
      ensures multiset(items) == multiset(old(items)) + multiset{x}
    {
      items := items + [x];
    }

    method Pop() returns (least: Option<nat>)
      modifies this
      ensures least.None? <==> old(items) == []
      ensures least.None? ==> items == []
      ensures least.Some? ==>
                && least.value in old(items)
                && multiset(old(items)) == multiset(items) + multiset{least.value}
                && forall i :: 0 <= i < |old(items)| ==> least.value <= old(items)[i]
    {
      if items == [] {
        return None;
      }
      var at := 0;
      for i := 1 to |items|
        invariant at < |items| && forall j :: 0 <= j < i ==> items[at] <= items[j]
      {
        if items[i] < items[at] {
          at := i;
        }
      }
      least := Some(items[at]);
      assert items == items[..at] + [items[at]] + items[at + 1..];
      items := items[..at] + items[at + 1..];
    }
  }

  /** The indices of the empty slots, in order. */
  function Empties<T>(slots: seq<Option<T>>): seq<nat> {
    if |slots| == 0 then []
    else Empties(slots[..|slots| - 1]) + if slots[|slots| - 1].None? then [|slots| - 1] else []
  }

  /** What the table maps ids to. */
  function Contents<T>(slots: seq<Option<T>>): map<nat, T> {
    map i: nat | i < |slots| && slots[i].Some? :: slots[i].value
  }

  class SlotTable<T> {
    var slots: seq<Option<T>>
    const freeSlots: LeastHeap

    /** The free heap is exactly the empty slots, each of them once. */
    ghost predicate Valid()
      reads this, freeSlots
    {
      multiset(freeSlots.items) == multiset(Empties(slots))
    }

    constructor ()
      ensures Valid() && fresh(freeSlots) && Contents(slots) == map[]
    {
      slots := [];
      freeSlots := new LeastHeap();
    }

    /** `get`. */
    function Get(id: nat): Option<T>
      reads this
    {
      if id < |slots| then slots[id] else None
    }

    /** `push`: the least id that is not in use. */
    method Push(value: T) returns (id: nat)
      requires Valid()
      modifies this, freeSlots
      ensures Valid()
      ensures id !in old(Contents(slots)) && forall j: nat :: j < id ==> j in old(Contents(slots))
      ensures Contents(slots) == old(Contents(slots))[id := value]
    {
      hide Empties, Contents;
      ghost var past := slots;
      EmptiesAre(past);
      var least := freeSlots.Pop();
      if least.Some? {
        id := least.value;
        assert id in multiset(old(freeSlots.items));
        LeastIsLeast(old(freeSlots.items), Empties(past), id);
      } else {
        NothingEmpty(old(freeSlots.items), Empties(past));
        id := |slots|;
        slots := slots + [None];
      }
      slots := slots[id := Some(value)];
      assert slots == Fill(past, id, value);
      Filled(past, id, value);
      if least.Some? {
        Cancel(multiset(freeSlots.items), multiset(Empties(slots)), id);
      }
      ContentsFilled(past, id, value);
    }

    /** `remove`. */
    method Remove(id: nat) returns (result: Option<T>)
      requires Valid()
      modifies this, freeSlots
      ensures Valid()
      ensures result == if id in old(Contents(slots)) then Some(old(Contents(slots))[id]) else None
      ensures Contents(slots) == old(Contents(slots)) - {id}
    {
      result := Get(id);
      if result.Some? {
        ghost var past := slots;
        slots := slots[id := None];
        freeSlots.Push(id);
        Emptied(past, id);
      }
    }

    /** `len`: the number of live entries. */
    method Len() returns (n: nat)
      requires Valid()
      ensures n == |Contents(slots)|
    {
      SlotsSplit(slots);
      assert |freeSlots.items| == |multiset(freeSlots.items)| == |multiset(Empties(slots))| == |Empties(slots)|;
      n := |slots| - |freeSlots.items|;
    }
  }

  lemma LeastIsLeast(heap: seq<nat>, empties: seq<nat>, id: nat)
    requires multiset(heap) == multiset(empties)
    requires forall i :: 0 <= i < |heap| ==> id <= heap[i]
    ensures forall i :: 0 <= i < |empties| ==> id <= empties[i]
    ensures forall x: nat :: x in empties ==> id <= x
  {
    forall i | 0 <= i < |empties|
      ensures id <= empties[i]
    {
      assert empties[i] in multiset(heap);
    }
  }

  lemma {:induction false} EmptiesAre<T>(slots: seq<Option<T>>)
    ensures forall x: nat :: x in Empties(slots) <==> x < |slots| && slots[x].None?
    ensures forall x: nat :: multiset(Empties(slots))[x] == if x < |slots| && slots[x].None? then 1 else 0
  {
    if |slots| > 0 {
      EmptiesAre(slots[..|slots| - 1]);
    }
  }

  lemma NothingEmpty(heap: seq<nat>, empties: seq<nat>)
    requires multiset(heap) == multiset(empties) && heap == []
    ensures empties == []
  {
    assert |multiset(empties)| == |empties|;
  }

  lemma Cancel(a: multiset<nat>, b: multiset<nat>, x: nat)
    requires a + multiset{x} == b + multiset{x}
    ensures a == b
  {
    forall y: nat
      ensures a[y] == b[y]
    {
      assert (a + multiset{x})[y] == (b + multiset{x})[y];
    }
  }

  function Fill<T>(slots: seq<Option<T>>, id: nat, value: T): seq<Option<T>>
    requires id <= |slots|
  {
    if id < |slots| then slots[id := Some(value)] else slots + [Some(value)]
  }

  /** A slot that was filled: what becomes of the empty slots. */
  lemma Filled<T>(slots: seq<Option<T>>, id: nat, value: T)
    requires id <= |slots| && (id < |slots| ==> slots[id].None?)
    ensures multiset(Empties(slots))
         == multiset(Empties(Fill(slots, id, value))) + (if id < |slots| then multiset{id} else multiset{})
  {
    hide Empties;
    EmptiesAre(slots);
    EmptiesAre(Fill(slots, id, value));
    forall x: nat
      ensures multiset(Empties(slots))[x]
           == (multiset(Empties(Fill(slots, id, value))) + (if id < |slots| then multiset{id} else multiset{}))[x]
    {
    }
  }

  /** The least empty slot is the least unused id. */
  lemma ContentsFilled<T>(slots: seq<Option<T>>, id: nat, value: T)
    requires id <= |slots| && (id < |slots| ==> slots[id].None?)
    requires forall j: nat :: j < id ==> slots[j].Some?
    ensures Contents(Fill(slots, id, value)) == Contents(slots)[id := value]
    ensures id !in Contents(slots) && forall j: nat :: j < id ==> j in Contents(slots)
  {
  }

  lemma Emptied<T>(slots: seq<Option<T>>, id: nat)
    requires id < |slots| && slots[id].Some?
    ensures multiset(Empties(slots[id := None])) == multiset(Empties(slots)) + multiset{id}
    ensures Contents(slots[id := None]) == Contents(slots) - {id}
  {
    hide Empties;
    EmptiesAre(slots);
    EmptiesAre(slots[id := None]);
    forall x: nat
      ensures multiset(Empties(slots[id := None]))[x] == (multiset(Empties(slots)) + multiset{id})[x]
    {
    }
  }

  /** Every slot is empty or live. */
  lemma {:induction false} SlotsSplit<T>(slots: seq<Option<T>>)
    ensures |slots| == |Empties(slots)| + |Contents(slots)|
  {
    if |slots| > 0 {
      var fore, last := slots[..|slots| - 1], slots[|slots| - 1];
      SlotsSplit(fore);
      if last.Some? {
        assert Contents(slots) == Contents(fore)[|fore| := last.value];
        assert |fore| !in Contents(fore);
      } else {
        assert Contents(slots) == Contents(fore);
      }
    } else {
      assert Contents(slots) == map[];
    }
  }
}
