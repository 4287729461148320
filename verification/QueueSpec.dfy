/** The blocking queue of Include/queue/queue.hpp as a state machine. A critical section under the mutex is one
    step; waiting on the condition releases the mutex and puts the thread to sleep in the same step. */
module QueueSpec {
  type Thread = nat

  /** A queued value with its place in the order of all `Put` calls. */
  datatype Item<T> = Item(id: nat, value: T)

  datatype State<T> = State(
    queue: seq<Item<T>>,
    waiting: set<Thread>,      // asleep in m_condGet.wait, not notified
    notified: set<Thread>,     // chosen by notify_one, not running yet
    spurious: set<Thread>,     // woken for no reason, not running yet
    puts: seq<T>,              // every value put so far
    delivered: seq<Item<T>>,   // returned by Get, in order
    erased: set<nat>,
    cleaned: set<nat>)

  datatype Action<T> =
    | Put(value: T, chosen: Thread)   // `chosen` is whom notify_one picks, if anybody sleeps
    | Get(t: Thread)                  // a thread enters Get
    | Resume(t: Thread)               // a woken thread holds the mutex again and tests the loop condition
    | WakeSpuriously(t: Thread)
    | Erase(value: T)
    | Clean

  ghost function Init<T>(): State<T> {
    State([], {}, {}, {}, [], [], {}, {})
  }

  ghost predicate Asleep<T>(s: State<T>, t: Thread) { t in s.waiting || t in s.notified || t in s.spurious }

  ghost predicate Enabled<T>(s: State<T>, a: Action<T>) {
    match a
    case Put(_, chosen) => s.waiting != {} ==> chosen in s.waiting
    case Get(t) => !Asleep(s, t)
    case Resume(t) => t in s.notified || t in s.spurious
    case WakeSpuriously(t) => t in s.waiting
    case Erase(_) => true
    case Clean => true
  }

  /** The loop of Get from a test of the condition to returning or falling asleep. */
  ghost function Attempt<T>(s: State<T>, t: Thread): State<T> {
    if s.queue == [] then s.(waiting := s.waiting + {t})
    else s.(queue := s.queue[1..], delivered := s.delivered + [s.queue[0]])
  }

  /** The index of the first item with the value, or the length. */
  ghost function FirstIndex<T>(q: seq<Item<T>>, value: T): (i: nat)
    ensures i <= |q|
    ensures i < |q| ==> q[i].value == value
    ensures forall j :: 0 <= j < i ==> q[j].value != value
  {
    if q == [] || q[0].value == value then 0 else 1 + FirstIndex(q[1..], value)
  }

  ghost function Ids<T>(q: seq<Item<T>>): set<nat> { set x <- q :: x.id }

  ghost function Step<T>(s: State<T>, a: Action<T>): State<T>
    requires Enabled(s, a)
  {
    match a
    case Put(v, chosen) =>
      var s' := s.(queue := s.queue + [Item(|s.puts|, v)], puts := s.puts + [v]);
      if s.waiting == {} then s'
      else s'.(waiting := s.waiting - {chosen}, notified := s.notified + {chosen})
    case Get(t) => Attempt(s, t)
    case Resume(t) => Attempt(s.(notified := s.notified - {t}, spurious := s.spurious - {t}), t)
    case WakeSpuriously(t) => s.(waiting := s.waiting - {t}, spurious := s.spurious + {t})
    case Erase(v) =>
      var i := FirstIndex(s.queue, v);
      if i == |s.queue| then s
      else s.(queue := s.queue[..i] + s.queue[i + 1..], erased := s.erased + {s.queue[i].id})
    case Clean => s.(queue := [], cleaned := s.cleaned + Ids(s.queue))
  }

  /** The state after a run, if every action was enabled when it happened. */
  datatype Outcome<T> = Impossible | Reached(s: State<T>)

  ghost function Run<T>(actions: seq<Action<T>>): Outcome<T> {
    if actions == [] then Reached(Init())
    else
      var n := |actions| - 1;
      match Run(actions[..n])
      case Impossible => Impossible
      case Reached(s) => if Enabled(s, actions[n]) then Reached(Step(s, actions[n])) else Impossible
  }

  // ---------------------------------------------------------------- invariants

  ghost predicate Increasing<T>(q: seq<Item<T>>) {
    forall i, j :: 0 <= i < j < |q| ==> q[i].id < q[j].id
  }

  /** A sleeper that nobody has notified implies that there are at least as many notified threads on their
      way as there are items. */
  ghost predicate NoLostWakeup<T>(s: State<T>) {
    s.waiting != {} ==> |s.queue| <= |s.notified|
  }

  ghost predicate ThreadsApart<T>(s: State<T>) {
    s.waiting !! s.notified && s.waiting !! s.spurious && s.notified !! s.spurious
  }

  /** Items leave in Put order, and carry the values that were put. */
  ghost predicate Ordered<T>(s: State<T>) {
    && Increasing(s.delivered + s.queue)
    && (forall x :: x in s.delivered + s.queue ==> x.id < |s.puts| && x.value == s.puts[x.id])
  }

  /** Every item put is in exactly one place. */
  ghost predicate Accounted<T>(s: State<T>) {
    var d, q := Ids(s.delivered), Ids(s.queue);
    && (forall k :: 0 <= k < |s.puts| ==> k in d || k in q || k in s.erased || k in s.cleaned)
    && (forall k :: k in s.erased || k in s.cleaned ==> k < |s.puts|)
    && d !! q && d !! s.erased && d !! s.cleaned && q !! s.erased && q !! s.cleaned && s.erased !! s.cleaned
  }

  ghost predicate Inv<T>(s: State<T>) {
    NoLostWakeup(s) && ThreadsApart(s) && Ordered(s) && Accounted(s)
  }

  lemma TakeKeepsHistory<T>(s: State<T>, s': State<T>)
    requires Ordered(s) && Accounted(s) && s.queue != []
    requires s'.queue == s.queue[1..] && s'.delivered == s.delivered + [s.queue[0]]
    requires s'.puts == s.puts && s'.erased == s.erased && s'.cleaned == s.cleaned
    ensures Ordered(s') && Accounted(s')
  {
    var x := s.queue[0];
    assert s'.delivered + s'.queue == s.delivered + s.queue;
    RemoveId(s.queue, 0, |s.delivered|, s.delivered + s.queue);
    AppendId(s.delivered, x);
    assert s.queue[..0] + s.queue[1..] == s'.queue;
  }

  /** Taking one item out of an increasing queue takes its id out of the queue's ids. */
  lemma RemoveId<T>(q: seq<Item<T>>, i: nat, offset: nat, all: seq<Item<T>>)
    requires i < |q| && offset + |q| == |all| && all[offset..] == q && Increasing(all)
    ensures Ids(q[..i] + q[i + 1..]) == Ids(q) - {q[i].id} && q[i].id in Ids(q)
  {
    var rest := q[..i] + q[i + 1..];
    assert forall j :: 0 <= j < |q| ==> q[j] == all[offset + j];
    assert forall x :: x in rest ==> x in q && x.id != q[i].id;
    assert forall x :: x in q && x.id != q[i].id ==> x in rest;
  }

  lemma AppendId<T>(q: seq<Item<T>>, x: Item<T>)
    ensures Ids(q + [x]) == Ids(q) + {x.id}
  {
    assert forall y :: y in q + [x] <==> y in q || y == x;
    assert x in q + [x];
  }

  lemma AttemptKeepsInv<T>(s: State<T>, t: Thread)
    requires ThreadsApart(s) && Ordered(s) && Accounted(s) && !Asleep(s, t)
    requires s.waiting != {} ==> |s.queue| <= |s.notified| + 1
    ensures Inv(Attempt(s, t))
  {
    if s.queue != [] {
      TakeKeepsHistory(s, Attempt(s, t));
    }
  }

  lemma PutKeepsInv<T>(s: State<T>, v: T, chosen: Thread)
    requires Inv(s) && Enabled(s, Put(v, chosen))
    ensures Inv(Step(s, Put(v, chosen)))
  {
    var s' := Step(s, Put(v, chosen));
    var x := Item(|s.puts|, v);
    var all := s.delivered + s.queue;
    assert s'.delivered + s'.queue == all + [x];
    assert Ordered(s');
    AppendId(s.queue, x);
    assert forall y :: y in s.delivered || y in s.queue ==> y in all;
    NewIdIsFresh(s);
    hide Ordered, Increasing, Ids;
  }

  lemma NewIdIsFresh<T>(s: State<T>)
    requires Ordered(s) && Accounted(s)
    ensures |s.puts| !in Ids(s.delivered) && |s.puts| !in Ids(s.queue)
    ensures |s.puts| !in s.erased && |s.puts| !in s.cleaned
  {
    assert forall y :: y in s.delivered || y in s.queue ==> y in s.delivered + s.queue;
  }

  lemma RemoveKeepsOrder<T>(all: seq<Item<T>>, k: nat)
    requires k < |all| && Increasing(all)
    ensures Increasing(all[..k] + all[k + 1..])
    ensures forall x :: x in all[..k] + all[k + 1..] ==> x in all
  {
  }

  lemma EraseKeepsOrder<T>(s: State<T>, s': State<T>, i: nat)
    requires Ordered(s) && i < |s.queue|
    requires s'.queue == s.queue[..i] + s.queue[i + 1..] && s'.delivered == s.delivered && s'.puts == s.puts
    ensures Ordered(s')
    ensures Ids(s'.queue) == Ids(s.queue) - {s.queue[i].id}
    ensures s.queue[i].id in Ids(s.queue) && s.queue[i].id < |s.puts|
  {
    hide Increasing, Ids;
    var all, n := s.delivered + s.queue, |s.delivered|;
    RemoveId(s.queue, i, n, all);
    assert s.queue[i] == all[n + i] && all[n + i] in all;
    RemoveKeepsOrder(all, n + i);
    assert s'.delivered + s'.queue == all[..n + i] + all[n + i + 1..];
  }

  lemma EraseKeepsInv<T>(s: State<T>, v: T)
    requires Inv(s)
    ensures Inv(Step(s, Erase(v)))
  {
    hide Ordered, Ids, FirstIndex;
    var i := FirstIndex(s.queue, v);
    if i < |s.queue| {
      EraseKeepsOrder(s, Step(s, Erase(v)), i);
    }
  }

  lemma CleanKeepsInv<T>(s: State<T>)
    requires Inv(s)
    ensures Inv(Step(s, Clean))
  {
    var s' := Step(s, Clean);
    assert s'.delivered + [] == s.delivered;
    assert forall y :: y in s.delivered ==> y in s.delivered + s.queue;
    assert forall y :: y in s.queue ==> y in s.delivered + s.queue;
    assert (s.delivered + s.queue)[..|s.delivered|] == s.delivered;
  }

  lemma StepKeepsInv<T>(s: State<T>, a: Action<T>)
    requires Inv(s) && Enabled(s, a)
    ensures Inv(Step(s, a))
  {
    match a
    case Put(v, chosen) => PutKeepsInv(s, v, chosen);
    case Get(t) => AttemptKeepsInv(s, t);
    case Resume(t) => AttemptKeepsInv(s.(notified := s.notified - {t}, spurious := s.spurious - {t}), t);
    case WakeSpuriously(_) =>
    case Erase(v) => EraseKeepsInv(s, v);
    case Clean => CleanKeepsInv(s);
  }

  /** Every reachable state, for any number of threads and any schedule. */
  lemma {:induction false} ReachableInv<T>(actions: seq<Action<T>>)
    ensures Run(actions).Reached? ==> Inv(Run(actions).s)
  {
    if actions == [] {
    } else {
      var n := |actions| - 1;
      ReachableInv(actions[..n]);
      if Run(actions[..n]).Reached? && Enabled(Run(actions[..n]).s, actions[n]) {
        StepKeepsInv(Run(actions[..n]).s, actions[n]);
      }
    }
  }

  /** No lost wakeup: a non-empty queue never leaves everyone asleep. While somebody sleeps un-notified, there
      are at least as many notified threads as items, and any of them can run and takes the front item. */
  lemma NoOneForgotten<T>(actions: seq<Action<T>>)
    requires Run(actions).Reached? && Run(actions).s.waiting != {}
    ensures
      var s := Run(actions).s;
      && |s.queue| <= |s.notified|
      && (s.queue != [] ==> exists t :: t in s.notified)
      && (forall t :: t in s.notified && s.queue != [] ==>
            Enabled(s, Resume(t)) && Step(s, Resume(t)).delivered == s.delivered + [s.queue[0]])
  {
    ReachableInv(actions);
    var s := Run(actions).s;
    if s.queue != [] {
      assert s.notified != {};
      var t :| t in s.notified;
    }
  }

  /** Delivery follows the order of Put, and nothing is lost or duplicated. */
  lemma History<T>(actions: seq<Action<T>>)
    requires Run(actions).Reached?
    ensures
      var s := Run(actions).s;
      && (forall i, j :: 0 <= i < j < |s.delivered| ==> s.delivered[i].id < s.delivered[j].id)
      && (forall i, j :: 0 <= i < |s.delivered| && 0 <= j < |s.queue| ==> s.delivered[i].id < s.queue[j].id)
      && (forall i :: 0 <= i < |s.delivered| ==>
            s.delivered[i].id < |s.puts| && s.delivered[i].value == s.puts[s.delivered[i].id])
      && Accounted(s)
  {
    ReachableInv(actions);
    hide Run, Ids;
    InOrder(Run(actions).s);
  }

  lemma InOrder<T>(s: State<T>)
    requires Ordered(s)
    ensures forall i, j :: 0 <= i < j < |s.delivered| ==> s.delivered[i].id < s.delivered[j].id
    ensures forall i, j :: 0 <= i < |s.delivered| && 0 <= j < |s.queue| ==> s.delivered[i].id < s.queue[j].id
    ensures forall i :: 0 <= i < |s.delivered| ==>
              s.delivered[i].id < |s.puts| && s.delivered[i].value == s.puts[s.delivered[i].id]
  {
    var all, n := s.delivered + s.queue, |s.delivered|;
    forall i, j | 0 <= i < j < n ensures s.delivered[i].id < s.delivered[j].id {
      assert all[i] == s.delivered[i] && all[j] == s.delivered[j];
    }
    forall i, j | 0 <= i < n && 0 <= j < |s.queue| ensures s.delivered[i].id < s.queue[j].id {
      assert all[i] == s.delivered[i] && all[n + j] == s.queue[j];
    }
    forall i | 0 <= i < n
      ensures s.delivered[i].id < |s.puts| && s.delivered[i].value == s.puts[s.delivered[i].id]
    {
      assert all[i] == s.delivered[i] && all[i] in all;
    }
  }

  lemma {:induction false} ContiguousIds<T>(q: seq<Item<T>>, n: nat)
    requires Increasing(q) && forall k :: k in Ids(q) <==> 0 <= k < n
    ensures |q| == n && forall k :: 0 <= k < n ==> q[k].id == k
  {
    if q == [] {
      assert n > 0 ==> 0 in Ids(q);
    } else {
      var last := |q| - 1;
      assert q[last] in q && q[last].id in Ids(q);
      assert n - 1 in Ids(q);
      var j :| 0 <= j < |q| && q[j].id == n - 1;
      assert j == last;
      assert q == q[..last] + [q[last]];
      AppendId(q[..last], q[last]);
      assert forall x :: x in q[..last] ==> x.id != n - 1;
      ContiguousIds(q[..last], n - 1);
    }
  }

  ghost function Values<T>(q: seq<Item<T>>): (vs: seq<T>)
    ensures |vs| == |q| && forall i :: 0 <= i < |q| ==> vs[i] == q[i].value
  {
    seq(|q|, i requires 0 <= i < |q| => q[i].value)
  }

  /** Without erasing and cleaning, what was put is exactly what was delivered followed by what is queued. */
  lemma FirstInFirstOut<T>(actions: seq<Action<T>>)
    requires Run(actions).Reached? && Run(actions).s.erased == {} && Run(actions).s.cleaned == {}
    ensures var s := Run(actions).s; Values(s.delivered) + Values(s.queue) == s.puts
  {
    ReachableInv(actions);
    hide Run, Ids, Increasing;
    var s := Run(actions).s;
    var all := s.delivered + s.queue;
    IdsOfConcat(s.delivered, s.queue);
    IdsBelow(s);
    ContiguousIds(all, |s.puts|);
    assert forall i :: 0 <= i < |all| ==> all[i] in all;
    assert Values(all) == s.puts;
    assert Values(s.delivered) + Values(s.queue) == Values(all);
  }

  lemma IdsOfConcat<T>(p: seq<Item<T>>, q: seq<Item<T>>)
    ensures Ids(p + q) == Ids(p) + Ids(q)
  {
    assert forall x :: x in p + q <==> x in p || x in q;
    assert forall k :: k in Ids(p) ==> k in Ids(p + q);
    assert forall k :: k in Ids(q) ==> k in Ids(p + q);
  }

  lemma IdsBelow<T>(s: State<T>)
    requires Ordered(s)
    ensures forall k :: k in Ids(s.delivered + s.queue) ==> k < |s.puts|
  {
  }
}
