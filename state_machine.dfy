/** The trace of one algorithm: `algorithms.StateMachine`, an append-only doubly-linked
    list of states with a counter, a forward iterator and `clear`. The ghost sequence
    `Contents` is the list as a value; `Valid()` ties the `first`/`last` fields, the
    `next`/`previous` links and `numberOfStates` to it. */
module StateMachines {
  import opened States

  class StateMachine<E> {
    var first: State?<E>
    var last: State?<E>
    var numberOfStates: int
    ghost var Contents: seq<State<E>>
    /** What the states in `Contents` record, and their times, in list order. */
    ghost var Entries: seq<Entry<E>>
    ghost var Times: seq<real>
    /** The states this list may write: every state of `Contents`. */
    ghost var Nodes: set<State<E>>

    ghost predicate Valid()
      reads this, Nodes
    {
      Recorded() && Linked()
    }

    /** The counter, the ghost records and the footprint agree with `Contents`. */
    ghost predicate Recorded()
      reads this
    {
      numberOfStates == |Contents| && |Entries| == |Contents| && |Times| == |Contents|
      && (forall k :: 0 <= k < |Contents| ==>
            Contents[k] in Nodes && Entries[k] == Contents[k].AsEntry()
            && Times[k] == Contents[k].time)
    }

    /** `first`, `last` and the links follow `Contents`. */
    ghost predicate Linked()
      requires Recorded()
      reads this, Nodes
    {
      (Contents == [] ==> first == null && last == null)
      && (Contents != [] ==>
            first == Contents[0] && last == Contents[|Contents| - 1] && last.next == null)
      && (forall k :: 0 <= k < |Contents| - 1 ==>
            Contents[k].next == Contents[k + 1] && Contents[k + 1].previous == Contents[k])
    }

    constructor ()
      ensures Valid() && Contents == [] && Entries == [] && Times == [] && Nodes == {}
      ensures first == null && last == null
    {
      first, last := null, null;
      numberOfStates := 0;
      Contents, Entries, Times, Nodes := [], [], [], {};
    }

    /** `append`: links `state` behind the last state (or makes it the only one) and counts
        it. Ids are neither assigned nor checked: the state is stored as given. The caller
        passes a state that is in no list yet, as every caller of `append` does. */
    method Append(state: State<E>)
      requires Valid()
      requires state !in Nodes && state.next == null
      modifies this, Nodes, state
      ensures Valid()
      ensures Contents == old(Contents) + [state]
      ensures Entries == old(Entries) + [state.AsEntry()]
      ensures Times == old(Times) + [state.time]
      ensures Nodes == old(Nodes) + {state}
      ensures numberOfStates == old(numberOfStates) + 1
      ensures last == state
      ensures old(first) == null ==> first == state && state.previous == old(state.previous)
      ensures old(first) != null ==>
                first == old(first) && old(last).next == state && state.previous == old(last)
    {
      if first == null {
        first, last := state, state;
        numberOfStates := numberOfStates + 1;
        Contents, Entries, Times, Nodes := [state], [state.AsEntry()], [state.time], Nodes + {state};
        return;
      }
      LinkLast(state);
    }

    /** The second branch of `append`: the list is not empty, so `state` goes behind `last`. */
    method LinkLast(state: State<E>)
      requires Valid() && first != null
      requires state !in Nodes && state.next == null
      modifies this, Nodes, state
      ensures Valid()
      ensures Contents == old(Contents) + [state]
      ensures Entries == old(Entries) + [state.AsEntry()]
      ensures Times == old(Times) + [state.time]
      ensures Nodes == old(Nodes) + {state}
      ensures numberOfStates == old(numberOfStates) + 1
      ensures first == old(first) && last == state
      ensures old(last).next == state && state.previous == old(last)
    {
      state.previous := last;
      last.next := state;
      last := last.next;
      numberOfStates := numberOfStates + 1;
      Contents, Entries, Times, Nodes :=
        Contents + [state], Entries + [state.AsEntry()], Times + [state.time], Nodes + {state};
    }

    /** `clear`: forgets every state; the states themselves keep their links. */
    method Clear()
      requires Valid()
      modifies this
      ensures Valid()
      ensures Contents == [] && Entries == [] && Times == [] && Nodes == {}
      ensures first == null && last == null && numberOfStates == 0
    {
      first, last := null, null;
      numberOfStates := 0;
      Contents, Entries, Times, Nodes := [], [], [], {};
    }

    /** `iterator`: a cursor positioned before the first state. */
    method Iterator() returns (it: StateIterator<E>)
      requires Valid()
      ensures fresh(it) && it.machine == this && it.Valid() && it.visited == 0
    {
      it := new StateIterator(this);
    }
  }

  /** The anonymous iterator class of `StateMachine.iterator()`. `visited` counts the states
      handed out since the cursor was (re)started; `current` is the last of them. */
  class StateIterator<E> {
    const machine: StateMachine<E>
    var current: State?<E>
    ghost var visited: nat

    ghost predicate Valid()
      reads this, machine, machine.Nodes
    {
      machine.Valid()
      && visited <= |machine.Contents|
      && (visited == 0 <==> current == null)
      && (visited > 0 ==> current == machine.Contents[visited - 1])
    }

    constructor (machine: StateMachine<E>)
      requires machine.Valid()
      ensures this.machine == machine && Valid() && visited == 0
    {
      this.machine := machine;
      current := null;
      visited := 0;
    }

    /** `hasNext`: some state is still to be handed out. */
    method HasNext() returns (b: bool)
      requires Valid()
      ensures b <==> visited < |machine.Contents|
    {
      if current == null {
        b := machine.first != null;
      } else {
        if visited < |machine.Contents| {
          assert current.next == machine.Contents[visited];
        }
        b := current.next != null;
      }
    }

    /** `next`: hands out the state after `current`. Past the end it returns null and
        drops `current`, so that the cursor starts over from `first`. */
    method Next() returns (s: State?<E>)
      requires Valid()
      modifies this
      ensures Valid()
      ensures old(visited) < |machine.Contents| ==>
                s == machine.Contents[old(visited)] && visited == old(visited) + 1
      ensures old(visited) == |machine.Contents| ==> s == null && visited == 0
    {
      if current == null {
        current := machine.first;
        if current != null {
          visited := 1;
        }
        return current;
      }
      current := current.next;
      if current == null {
        visited := 0;
      } else {
        visited := visited + 1;
      }
      return current;
    }
  }

  /** The consumer's loop `while (it.hasNext()) it.next()`: it visits exactly the appended
      states, in append order, and as many as `numberOfStates` says. */
  method Drain<E>(m: StateMachine<E>) returns (visited: seq<State<E>>)
    requires m.Valid()
    ensures visited == m.Contents
    ensures |visited| == m.numberOfStates
  {
    var it := m.Iterator();
    visited := [];
    var more := it.HasNext();
    while more
      invariant it.Valid() && it.machine == m && fresh(it)
      invariant visited == m.Contents[..it.visited]
      invariant more <==> it.visited < |m.Contents|
      decreases |m.Contents| - it.visited
    {
      var s := it.Next();
      visited := visited + [s];
      more := it.HasNext();
    }
  }
}
