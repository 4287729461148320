/** The queue object of Include/queue/queue.hpp, one method per critical section. */
module Queue {
  import opened QueueSpec

  lemma FirstIndexIs<T>(q: seq<Item<T>>, item: T, it: nat)
    requires it <= |q| && item !in Values(q)[..it] && (it < |q| ==> q[it].value == item)
    ensures FirstIndex(q, item) == it
  {
    forall j | 0 <= j < it ensures q[j].value != item {
      assert Values(q)[..it][j] == q[j].value;
    }
  }

  /** What erasing does to the values in the queue. */
  lemma ErasedValues<T>(s: State<T>, item: T, it: nat)
    requires it <= |s.queue| && item !in Values(s.queue)[..it]
    requires it < |s.queue| ==> Values(s.queue)[it] == item
    ensures Values(Step(s, Action.Erase(item)).queue) ==
      if it == |s.queue| then Values(s.queue) else Values(s.queue)[..it] + Values(s.queue)[it + 1..]
  {
    FirstIndexIs(s.queue, item, it);
    hide FirstIndex;
  }

  class RequestQueue<T(==)> {
    var list: seq<T>
    ghost var s: State<T>

    ghost predicate Valid()
      reads this
    {
      Inv(s) && list == Values(s.queue)
    }

    constructor ()
      ensures Valid() && s == Init() && list == []
    {
      list := [];
      s := Init();
    }

    /** Appends the item and notifies one sleeper, whichever the condition variable picks. */
    method Put(item: T, ghost chosen: Thread)
      requires Valid() && Enabled(s, Action.Put(item, chosen))
      modifies this
      ensures Valid() && s == Step(old(s), Action.Put(item, chosen))
      ensures list == old(list) + [item]
    {
      PutKeepsInv(s, item, chosen);
      hide Inv, Enabled;
      list := list + [item];
      s := Step(s, Action.Put(item, chosen));
    }

    /** Get from a test of the condition on: returns the front item, or goes to sleep. `resumed` tells whether
        the thread was woken from the wait or has just entered. */
    method Get(ghost t: Thread, ghost resumed: bool) returns (taken: bool, items: seq<T>)
      requires Valid() && Enabled(s, if resumed then Resume(t) else Action.Get(t))
      modifies this
      ensures Valid() && s == Step(old(s), if resumed then Resume(t) else Action.Get(t))
      ensures taken <==> old(list) != []
      ensures if taken then items == [old(list)[0]] && list == old(list)[1..] else items == [] && list == old(list)
      ensures !taken ==> t in s.waiting
    {
      ghost var a := if resumed then Resume(t) else Action.Get(t);
      StepKeepsInv(s, a);
      hide Inv;
      taken, items := list != [], [];
      if list != [] {
        items := [list[0]];
        list := list[1..];
      }
      s := Step(s, a);
    }

    static predicate RemovedAt(before: seq<T>, i: nat, after: seq<T>) {
      i < |before| && after == before[..i] + before[i + 1..]
    }

    /** Removes the first equal item, and only that. */
    method Erase(item: T)
      requires Valid()
      modifies this
      ensures Valid() && s == Step(old(s), Action.Erase(item))
      ensures item !in old(list) ==> list == old(list)
      ensures item in old(list) ==>
        exists i: nat :: RemovedAt(old(list), i, list) && old(list)[i] == item && item !in old(list)[..i]
    {
      EraseKeepsInv(s, item);
      hide Inv, Step, Values, FirstIndex;
      var it := 0;
      while it < |list|
        invariant it <= |list| && list == old(list) && s == old(s)
        invariant item !in list[..it]
      {
        if item == list[it] {
          list := list[..it] + list[it + 1..];
          assert RemovedAt(old(list), it, list);
          break;
        }
        it := it + 1;
      }
      ErasedValues(s, item, it);
      s := Step(s, Action.Erase(item));
    }

    method QueueClean()
      requires Valid()
      modifies this
      ensures Valid() && s == Step(old(s), Clean) && list == []
    {
      CleanKeepsInv(s);
      if list != [] {
        list := [];
      }
      s := Step(s, Clean);
    }

    method QueueLength() returns (n: nat)
      requires Valid()
      ensures n == |s.queue|
    {
      n := |list|;
    }
  }
}
