// The daemon's two threads around the command queue: the socket thread queues
// requests, the main thread waits and dequeues.  Each critical section is one
// step.  Requests are numbered in the order they are queued.
module CmdQueueProtocol {

  datatype Consumer =
    | AtWait    // about to call wait
    | Sleeping  // inside pthread_cond_wait, not signalled
    | AtDequeue // wait has returned or is bound to

  datatype State = State(
    list: seq<nat>,      // the queue, first member first
    consumer: Consumer,
    queued: nat,         // how many requests have been queued
    served: seq<nat>,    // the requests dequeued, in order
    overtook: bool)      // some request was queued while another was still there

  datatype Action = Queue | Wait | SpuriousWakeup | Dequeue

  const INIT := State([], AtWait, 0, [], false)

  predicate Enabled(s: State, a: Action) {
    match a
    case Queue => true
    case Wait => s.consumer == AtWait
    case SpuriousWakeup => s.consumer == Sleeping
    case Dequeue => s.consumer == AtDequeue
  }

  function Do(s: State, a: Action): State
    requires Enabled(s, a)
  {
    match a
    case Queue =>
      s.(list := [s.queued] + s.list, queued := s.queued + 1, overtook := s.overtook || s.list != [],
         consumer := if s.consumer == Sleeping then AtDequeue else s.consumer) // pthread_cond_signal
    case Wait => s.(consumer := if s.list != [] then AtDequeue else Sleeping)
    case SpuriousWakeup => s.(consumer := AtDequeue)
    case Dequeue =>
      if s.list == [] then s.(consumer := AtWait)
      else s.(consumer := AtWait, list := s.list[1..], served := s.served + [s.list[0]])
  }

  predicate Runs(s: State, actions: seq<Action>)
    decreases |actions|
  {
    actions == [] || (Enabled(s, actions[0]) && Runs(Do(s, actions[0]), actions[1..]))
  }

  function End(s: State, actions: seq<Action>): State
    requires Runs(s, actions)
    decreases |actions|
  {
    if actions == [] then s else End(Do(s, actions[0]), actions[1..])
  }

  predicate Ascending(t: seq<nat>) {
    forall i, j | 0 <= i < j < |t| :: t[i] < t[j]
  }

  function UpTo(n: nat): seq<nat> { seq(n, i => i) }

  ghost predicate Inv(s: State) {
    && (s.consumer == Sleeping ==> s.list == [])
    && multiset(s.served + s.list) == multiset(UpTo(s.queued))
    && (Ascending(s.served + s.list) <==> !s.overtook)
  }

  lemma EveryoneIsNumbered(s: State)
    requires Inv(s)
    ensures forall i | 0 <= i < |s.served + s.list| :: (s.served + s.list)[i] < s.queued
  {
    var t := s.served + s.list;
    forall i | 0 <= i < |t| ensures t[i] < s.queued {
      assert t[i] in multiset(t) && t[i] in UpTo(s.queued);
    }
  }

  // A new request at the head of the list keeps the order in which requests leave
  // ascending exactly when nobody was waiting.
  lemma QueueOrder(served: seq<nat>, list: seq<nat>, n: nat)
    requires forall i | 0 <= i < |served + list| :: (served + list)[i] < n
    ensures Ascending(served + ([n] + list)) <==> Ascending(served + list) && list == []
  {
    var t, u, k := served + list, served + ([n] + list), |served|;
    if list != [] {
      assert u[k] == n && u[k + 1] == t[k];
    } else {
      assert u == t + [n];
      assert forall i | 0 <= i < |t| :: u[i] == t[i];
    }
  }

  lemma InvHolds(s: State, a: Action)
    requires Inv(s) && Enabled(s, a)
    ensures Inv(Do(s, a))
  {
    match a
    case Queue =>
      EveryoneIsNumbered(s);
      QueueOrder(s.served, s.list, s.queued);
      assert UpTo(s.queued + 1) == UpTo(s.queued) + [s.queued];
      assert multiset(s.served + ([s.queued] + s.list)) == multiset(s.served + s.list) + multiset{s.queued};
    case Dequeue =>
      if s.list != [] {
        assert (s.served + [s.list[0]]) + s.list[1..] == s.served + s.list;
      }
    case _ =>
  }

  lemma {:induction false} InvOverRun(s: State, actions: seq<Action>)
    requires Inv(s) && Runs(s, actions)
    ensures Inv(End(s, actions))
    decreases |actions|
  {
    if actions != [] {
      InvHolds(s, actions[0]);
      InvOverRun(Do(s, actions[0]), actions[1..]);
    }
  }

  // The main thread never sleeps on a request.
  lemma NeverAsleepOnWork(actions: seq<Action>)
    requires Runs(INIT, actions)
    ensures End(INIT, actions).consumer == Sleeping ==> End(INIT, actions).list == []
  {
    InvOverRun(INIT, actions);
  }

  // Nor does it wake for nothing, unless the system wakes it without a signal: past its
  // wait it finds a request.
  lemma NeverAwakeForNothing(actions: seq<Action>)
    requires Runs(INIT, actions) && SpuriousWakeup !in actions
    ensures End(INIT, actions).consumer == AtDequeue ==> End(INIT, actions).list != []
  {
    AwakeOnWork(INIT, actions);
  }

  lemma {:induction false} AwakeOnWork(s: State, actions: seq<Action>)
    requires (s.consumer == AtDequeue ==> s.list != []) && Runs(s, actions) && SpuriousWakeup !in actions
    ensures End(s, actions).consumer == AtDequeue ==> End(s, actions).list != []
    decreases |actions|
  {
    if actions != [] {
      assert actions[0] in actions;
      AwakeOnWork(Do(s, actions[0]), actions[1..]);
    }
  }

  // The main thread by itself: it serves what is pending, the first member first, and
  // then goes to sleep.
  function Serving(n: nat): seq<Action> {
    if n == 0 then [Wait] else [Wait, Dequeue] + Serving(n - 1)
  }

  lemma {:induction false} MainThreadServesAll(s: State)
    requires s.consumer == AtWait
    ensures Runs(s, Serving(|s.list|))
    ensures End(s, Serving(|s.list|)) == s.(list := [], served := s.served + s.list, consumer := Sleeping)
    decreases |s.list|
  {
    var n := |s.list|;
    if n == 0 {
      OneStep(s, Wait, s.(consumer := Sleeping), []);
      assert [Wait] + [] == [Wait] && s.served + [] == s.served;
    } else {
      var s1 := s.(consumer := AtDequeue);
      var s2 := s.(list := s.list[1..], served := s.served + [s.list[0]]);
      MainThreadServesAll(s2);
      OneStep(s1, Dequeue, s2, Serving(n - 1));
      OneStep(s, Wait, s1, [Dequeue] + Serving(n - 1));
      assert Serving(n) == [Wait] + ([Dequeue] + Serving(n - 1));
      assert s2.served + s2.list == s.served + s.list;
    }
  }

  // Every request is dequeued once or is still in the list once.
  lemma ServedExactlyOnce(actions: seq<Action>, r: nat)
    requires Runs(INIT, actions)
    ensures var s := End(INIT, actions);
      multiset(s.served)[r] + multiset(s.list)[r] == if r < s.queued then 1 else 0
  {
    InvOverRun(INIT, actions);
    var s := End(INIT, actions);
    NumberedOnce(s.queued, r);
    assert multiset(s.served + s.list) == multiset(s.served) + multiset(s.list);
  }

  lemma {:induction false} NumberedOnce(n: nat, r: nat)
    ensures multiset(UpTo(n))[r] == if r < n then 1 else 0
  {
    if n > 0 {
      NumberedOnce(n - 1, r);
      assert UpTo(n) == UpTo(n - 1) + [n - 1];
    }
  }

  // The queue is a stack: once it is drained, requests have been served in the
  // order they came exactly when none was ever queued behind another's back.
  lemma InOrderIffNeverTwo(actions: seq<Action>)
    requires Runs(INIT, actions) && End(INIT, actions).list == []
    ensures Ascending(End(INIT, actions).served) <==> !CameOnTop(INIT, actions)
  {
    InvOverRun(INIT, actions);
    OvertookIff(INIT, actions);
    var s := End(INIT, actions);
    assert s.served + s.list == s.served;
  }

  // That is: when some request came while another was in the list.
  lemma {:induction false} OvertookIff(s: State, actions: seq<Action>)
    requires Runs(s, actions)
    ensures End(s, actions).overtook <==> s.overtook || CameOnTop(s, actions)
    decreases |actions|
  {
    if actions != [] {
      OvertookIff(Do(s, actions[0]), actions[1..]);
    }
  }

  predicate CameOnTop(s: State, actions: seq<Action>)
    requires Runs(s, actions)
    decreases |actions|
  {
    actions != [] && ((actions[0] == Queue && s.list != []) || CameOnTop(Do(s, actions[0]), actions[1..]))
  }

  // Two requests queued before the main thread gets to either are served newest first.
  lemma NewestFirst()
    ensures var actions := [Queue, Queue, Wait, Dequeue, Wait, Dequeue];
      && Runs(INIT, actions) && End(INIT, actions).list == [] && End(INIT, actions).served == [1, 0]
  {
    var s1 := State([0], AtWait, 1, [], false);
    var s2 := State([1, 0], AtWait, 2, [], true);
    var s3 := State([1, 0], AtDequeue, 2, [], true);
    var s4 := State([0], AtWait, 2, [1], true);
    var s5 := State([0], AtDequeue, 2, [1], true);
    var s6 := State([], AtWait, 2, [1, 0], true);
    OneStep(s5, Dequeue, s6, []);
    OneStep(s4, Wait, s5, [Dequeue]);
    OneStep(s3, Dequeue, s4, [Wait, Dequeue]);
    OneStep(s2, Wait, s3, [Dequeue, Wait, Dequeue]);
    OneStep(s1, Queue, s2, [Wait, Dequeue, Wait, Dequeue]);
    OneStep(INIT, Queue, s1, [Queue, Wait, Dequeue, Wait, Dequeue]);
  }

  lemma OneStep(s: State, a: Action, t: State, actions: seq<Action>)
    requires Enabled(s, a) && Do(s, a) == t && Runs(t, actions)
    ensures Runs(s, [a] + actions) && End(s, [a] + actions) == End(t, actions)
  {
    assert ([a] + actions)[1..] == actions;
  }
}
