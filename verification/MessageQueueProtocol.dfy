// The message queue under every interleaving of its users.  Posting, taking and
// flushing change the queue under a mutex and are one step each; the semaphore is
// posted after the mutex is released and waited for before it is taken, so these
// are steps of their own.  One flusher at a time holds the mutex while it drains
// the semaphore.
module MessageQueueProtocol {
  import opened MessageQueue

  datatype Pc =
    | Idle
    | Posting  // has queued its message, has not posted the semaphore yet
    | Getting  // is past the semaphore, has not taken the mutex yet
    | Peeking  // WaitMessage: holds a semaphore token it is about to give back
    | Flushing // holds the mutex

  datatype State = State(
    max: nat,
    queue: seq<Msg>,
    sem: nat,
    pcs: seq<Pc>,      // one per thread
    posted: seq<Msg>,  // every message ever queued
    taken: nat,        // how many messages getters took
    flushed: nat)      // how many messages flushes discarded

  datatype Action =
    | Post(m: Msg)
    | SemPost
    | SemWait
    | PeekWait
    | PeekPost
    | Timeout
    | Take
    | FlushBegin
    | FlushDrain
    | FlushEnd

  function Number(s: State, pc: Pc): nat { multiset(s.pcs)[pc] }

  predicate MutexFree(s: State) { Number(s, Flushing) == 0 }

  predicate Enabled(s: State, t: nat, a: Action) {
    && t < |s.pcs|
    && match a
       case Post(_) => s.pcs[t] == Idle && MutexFree(s)
       case SemPost => s.pcs[t] == Posting
       case SemWait => s.pcs[t] == Idle && s.sem > 0
       case PeekWait => s.pcs[t] == Idle && s.sem > 0
       case PeekPost => s.pcs[t] == Peeking
       case Timeout => s.pcs[t] == Idle
       case Take => s.pcs[t] == Getting && MutexFree(s)
       case FlushBegin => s.pcs[t] == Idle && MutexFree(s)
       case FlushDrain => s.pcs[t] == Flushing && s.sem > 0
       case FlushEnd => s.pcs[t] == Flushing && s.sem == 0
  }

  function Goto(s: State, t: nat, pc: Pc): State
    requires t < |s.pcs|
  {
    s.(pcs := s.pcs[t := pc])
  }

  function Do(s: State, t: nat, a: Action): State
    requires Enabled(s, t, a)
  {
    match a
    case Post(m) =>
      if |s.queue| >= s.max then s
      else Goto(s, t, Posting).(queue := s.queue + [m], posted := s.posted + [m])
    case SemPost => Goto(s, t, Idle).(sem := s.sem + 1)
    case SemWait => Goto(s, t, Getting).(sem := s.sem - 1)
    case PeekWait => Goto(s, t, Peeking).(sem := s.sem - 1)
    case PeekPost => Goto(s, t, Idle).(sem := s.sem + 1)
    case Timeout => s
    case Take =>
      if s.queue == [] then Goto(s, t, Idle)
      else Goto(s, t, Idle).(queue := s.queue[1..], taken := s.taken + 1)
    case FlushBegin => Goto(s, t, Flushing).(queue := [], flushed := s.flushed + |s.queue|)
    case FlushDrain => s.(sem := s.sem - 1)
    case FlushEnd => Goto(s, t, Idle)
  }

  function Init(max: nat, threads: nat): State {
    State(max, [], 0, seq(threads, _ => Idle), [], 0, 0)
  }

  // ----- Semaphore credit -----

  // The semaphore, plus what posters still owe it, plus what getters and peekers
  // have already drawn from it.
  function Credit(s: State): nat {
    s.sem + Number(s, Posting) + Number(s, Getting) + Number(s, Peeking)
  }

  function Surplus(s: State): int { Credit(s) - |s.queue| }

  lemma NumberAfterGoto(s: State, t: nat, pc: Pc, p: Pc)
    requires t < |s.pcs|
    ensures Number(Goto(s, t, pc), p) ==
            Number(s, p) - (if s.pcs[t] == p then 1 else 0) + (if pc == p then 1 else 0)
  {
  }

  // Credit and queue change together, except that a flush discards messages
  // before it discards credit, and that a getter may come back empty-handed.
  lemma SurplusChange(s: State, t: nat, a: Action)
    requires Enabled(s, t, a)
    ensures Surplus(Do(s, t, a)) == Surplus(s) + match a
      case FlushBegin => |s.queue|
      case FlushDrain => -1
      case Take => if s.queue == [] then -1 else 0
      case _ => 0
  {
    var u := Do(s, t, a);
    if u.pcs != s.pcs {
      NumberAfterGoto(s, t, u.pcs[t], Posting);
      NumberAfterGoto(s, t, u.pcs[t], Getting);
      NumberAfterGoto(s, t, u.pcs[t], Peeking);
    }
  }

  // ----- Runs -----

  // A run is a list of moves, each naming the thread that makes it.
  predicate Runs(s: State, moves: seq<(nat, Action)>)
    decreases |moves|
  {
    moves == [] ||
    (Enabled(s, moves[0].0, moves[0].1) && Runs(Do(s, moves[0].0, moves[0].1), moves[1..]))
  }

  function End(s: State, moves: seq<(nat, Action)>): State
    requires Runs(s, moves)
    decreases |moves|
  {
    if moves == [] then s else End(Do(s, moves[0].0, moves[0].1), moves[1..])
  }

  ghost predicate Inv(s: State) {
    && |s.queue| <= s.max
    && Number(s, Flushing) <= 1 && (Number(s, Flushing) == 1 ==> s.queue == [])
    && Surplus(s) >= 0
    && InOrder(s)
  }

  // Messages leave in posting order: what is queued is what was posted last.
  ghost predicate InOrder(s: State) {
    s.taken + s.flushed <= |s.posted| && s.queue == s.posted[s.taken + s.flushed..]
  }

  lemma InOrderHolds(s: State, t: nat, a: Action)
    requires InOrder(s) && Enabled(s, t, a)
    ensures InOrder(Do(s, t, a))
  {
  }

  lemma InvHolds(s: State, t: nat, a: Action)
    requires Inv(s) && Enabled(s, t, a)
    ensures Inv(Do(s, t, a))
  {
    InOrderHolds(s, t, a);
    SurplusHolds(s, t, a);
    OneFlusherHolds(s, t, a);
    hide InOrder, Surplus, Number;
  }

  lemma SurplusHolds(s: State, t: nat, a: Action)
    requires Inv(s) && Enabled(s, t, a)
    ensures Surplus(Do(s, t, a)) >= 0
  {
    SurplusChange(s, t, a);
    if a.FlushDrain? || (a.Take? && s.queue == []) {
      CreditCoversDrain(s, t, a);
    }
    hide InOrder, Surplus, Number;
  }

  lemma OneFlusherHolds(s: State, t: nat, a: Action)
    requires Inv(s) && Enabled(s, t, a)
    ensures var u := Do(s, t, a);
      Number(u, Flushing) <= 1 && (Number(u, Flushing) == 1 ==> u.queue == [])
  {
    var u := Do(s, t, a);
    SomeoneIsThere(s, t);
    if u.pcs != s.pcs {
      NumberAfterGoto(s, t, u.pcs[t], Flushing);
    }
    hide InOrder, Surplus, Number;
  }

  lemma SomeoneIsThere(s: State, t: nat)
    requires t < |s.pcs|
    ensures Number(s, s.pcs[t]) >= 1
  {
    assert s.pcs[t] in s.pcs;
  }

  // What a flush drains, and what an empty-handed getter gives up, is surplus.
  lemma CreditCoversDrain(s: State, t: nat, a: Action)
    requires Inv(s) && Enabled(s, t, a)
    requires a.FlushDrain? || (a.Take? && s.queue == [])
    ensures Surplus(s) >= 1
  {
    SomeoneIsThere(s, t);
  }

  lemma {:induction false} InvOverRun(s: State, moves: seq<(nat, Action)>)
    requires Inv(s) && Runs(s, moves)
    ensures Inv(End(s, moves))
    decreases |moves|
  {
    if moves != [] {
      InvHolds(s, moves[0].0, moves[0].1);
      InvOverRun(Do(s, moves[0].0, moves[0].1), moves[1..]);
    }
  }

  lemma InvAtStart(max: nat, threads: nat)
    ensures Inv(Init(max, threads)) && Surplus(Init(max, threads)) == 0
    ensures MutexFree(Init(max, threads))
  {
    var pcs := Init(max, threads).pcs;
    assert forall p | p in pcs :: p == Idle;
    assert Posting !in pcs && Getting !in pcs && Peeking !in pcs && Flushing !in pcs;
  }

  predicate NoFlush(moves: seq<(nat, Action)>) {
    forall i | 0 <= i < |moves| :: !moves[i].1.FlushBegin?
  }

  // Without a flush the books balance exactly.
  lemma {:induction false} BalanceOverRun(s: State, moves: seq<(nat, Action)>)
    requires Inv(s) && Surplus(s) == 0 && MutexFree(s) && Runs(s, moves) && NoFlush(moves)
    ensures Surplus(End(s, moves)) == 0 && End(s, moves).flushed == s.flushed
    decreases |moves|
  {
    if moves != [] {
      var (t, a) := moves[0];
      SurplusChange(s, t, a);
      InvHolds(s, t, a);
      SomeoneIsThere(s, t);
      NumberAfterGoto(s, t, Do(s, t, a).pcs[t], Flushing);
      BalanceOverRun(Do(s, t, a), moves[1..]);
    }
  }

  // ----- What users rely on -----

  // In every run: a message in the queue is covered by a token in the semaphore
  // or by a thread on its way, so once the threads are at rest the next getter
  // does not block.
  lemma NoMessageStranded(max: nat, threads: nat, moves: seq<(nat, Action)>)
    requires Runs(Init(max, threads), moves)
    ensures var s := End(Init(max, threads), moves);
      && |s.queue| <= Credit(s)
      && (s.queue != [] && (forall t | 0 <= t < |s.pcs| :: s.pcs[t] == Idle) ==> s.sem >= |s.queue|)
  {
    InvAtStart(max, threads);
    InvOverRun(Init(max, threads), moves);
    var s := End(Init(max, threads), moves);
    if forall t | 0 <= t < |s.pcs| :: s.pcs[t] == Idle {
      assert forall p | p in s.pcs :: p == Idle;
      assert Posting !in s.pcs && Getting !in s.pcs && Peeking !in s.pcs;
    }
  }

  // In every run without a flush, a getter past the semaphore finds a message,
  // and the k-th message taken is the k-th one posted.
  lemma GetterFindsItsMessage(max: nat, threads: nat, moves: seq<(nat, Action)>, t: nat)
    requires Runs(Init(max, threads), moves) && NoFlush(moves)
    requires Enabled(End(Init(max, threads), moves), t, Take)
    ensures var s := End(Init(max, threads), moves);
      && s.taken < |s.posted| && s.queue != [] && s.queue[0] == s.posted[s.taken]
      && Do(s, t, Take).queue == s.queue[1..]
  {
    InvAtStart(max, threads);
    InvOverRun(Init(max, threads), moves);
    BalanceOverRun(Init(max, threads), moves);
    SomeoneIsThere(End(Init(max, threads), moves), t);
  }

  // A flush leaves behind exactly the credit of the threads it caught between
  // their mutex and their semaphore, and none if it caught none.
  lemma FlushLeavesSurplus(s: State, t: nat)
    requires Inv(s) && Enabled(s, t, FlushEnd)
    ensures Surplus(Do(s, t, FlushEnd)) == Number(s, Posting) + Number(s, Getting) + Number(s, Peeking)
  {
    SomeoneIsThere(s, t);
    SurplusChange(s, t, FlushEnd);
  }

  // A getter past the semaphore comes back empty-handed exactly when the queue is
  // empty, and that takes credit nobody's message stands behind.
  lemma EmptyHandedTakesSurplus(s: State, t: nat)
    requires Inv(s) && Enabled(s, t, Take)
    ensures Surplus(s) == 0 ==> s.queue != []
    ensures s.queue == [] ==> Surplus(Do(s, t, Take)) == Surplus(s) - 1
  {
    SurplusChange(s, t, Take);
    SomeoneIsThere(s, t);
  }

  // ----- What one call does when nobody interferes -----

  // A thread that is not in a call, and nobody is flushing.
  predicate Free(s: State, t: nat) { t < |s.pcs| && s.pcs[t] == Idle && MutexFree(s) }

  lemma BackToIdle(s: State, t: nat, pc: Pc)
    requires Free(s, t)
    ensures s.pcs[t := pc][t := Idle] == s.pcs
  {
  }

  // A post puts the message last and a token into the semaphore, or is refused.
  lemma PostAlone(s: State, t: nat, m: Msg)
    requires Free(s, t)
    ensures |s.queue| >= s.max ==> Runs(s, [(t, Post(m))]) && End(s, [(t, Post(m))]) == s
    ensures |s.queue| < s.max ==>
      && Runs(s, [(t, Post(m)), (t, SemPost)])
      && End(s, [(t, Post(m)), (t, SemPost)])
         == s.(queue := s.queue + [m], posted := s.posted + [m], sem := s.sem + 1)
  {
    BackToIdle(s, t, Posting);
    if |s.queue| >= s.max {
      OneStep(s, t, Post(m), s, []);
    } else {
      var s1 := s.(pcs := s.pcs[t := Posting], queue := s.queue + [m], posted := s.posted + [m]);
      var s2 := s.(queue := s.queue + [m], posted := s.posted + [m], sem := s.sem + 1);
      OneStep(s1, t, SemPost, s2, []);
      OneStep(s, t, Post(m), s1, [(t, SemPost)]);
    }
  }

  // A get takes a token and the first message.
  lemma GetAlone(s: State, t: nat)
    requires Free(s, t) && s.sem > 0 && s.queue != []
    ensures Runs(s, [(t, SemWait), (t, Take)])
    ensures End(s, [(t, SemWait), (t, Take)]) == s.(queue := s.queue[1..], taken := s.taken + 1, sem := s.sem - 1)
  {
    var s1 := s.(pcs := s.pcs[t := Getting], sem := s.sem - 1);
    var s2 := s.(queue := s.queue[1..], taken := s.taken + 1, sem := s.sem - 1);
    BackToIdle(s, t, Getting);
    NumberAfterGoto(s, t, Getting, Flushing);
    OneStep(s1, t, Take, s2, []);
    OneStep(s, t, SemWait, s1, [(t, Take)]);
  }

  // Waiting for a message leaves everything as it was.
  lemma WaitAlone(s: State, t: nat)
    requires Free(s, t) && s.sem > 0
    ensures Runs(s, [(t, PeekWait), (t, PeekPost)]) && End(s, [(t, PeekWait), (t, PeekPost)]) == s
  {
    var s1 := s.(pcs := s.pcs[t := Peeking], sem := s.sem - 1);
    BackToIdle(s, t, Peeking);
    OneStep(s1, t, PeekPost, s, []);
    OneStep(s, t, PeekWait, s1, [(t, PeekPost)]);
  }

  // A flush discards all messages and all tokens.
  function Draining(t: nat, n: nat): seq<(nat, Action)> {
    if n == 0 then [(t, FlushEnd)] else [(t, FlushDrain)] + Draining(t, n - 1)
  }

  lemma {:induction false} DrainAlone(s: State, t: nat)
    requires t < |s.pcs| && s.pcs[t] == Flushing
    ensures Runs(s, Draining(t, s.sem))
    ensures End(s, Draining(t, s.sem)) == s.(sem := 0, pcs := s.pcs[t := Idle])
    decreases s.sem
  {
    if s.sem == 0 {
      OneStep(s, t, FlushEnd, s.(pcs := s.pcs[t := Idle]), []);
    } else {
      var s1 := s.(sem := s.sem - 1);
      DrainAlone(s1, t);
      OneStep(s, t, FlushDrain, s1, Draining(t, s.sem - 1));
    }
  }

  lemma FlushAlone(s: State, t: nat)
    requires Free(s, t)
    ensures Runs(s, [(t, FlushBegin)] + Draining(t, s.sem))
    ensures End(s, [(t, FlushBegin)] + Draining(t, s.sem))
         == s.(queue := [], sem := 0, flushed := s.flushed + |s.queue|)
  {
    var s1 := s.(pcs := s.pcs[t := Flushing], queue := [], flushed := s.flushed + |s.queue|);
    BackToIdle(s, t, Flushing);
    DrainAlone(s1, t);
    OneStep(s, t, FlushBegin, s1, Draining(t, s.sem));
  }

  // ----- Runs with flushes -----

  // How many threads are between the semaphore and the mutex.
  function Between(s: State): nat { Number(s, Posting) + Number(s, Getting) + Number(s, Peeking) }

  // Every flush ends while no thread is.
  predicate QuietFlushes(s: State, moves: seq<(nat, Action)>)
    requires Runs(s, moves)
    decreases |moves|
  {
    moves == [] ||
    var (t, a) := moves[0];
    (a.FlushEnd? ==> Between(s) == 0) && QuietFlushes(Do(s, t, a), moves[1..])
  }

  // The books balance whenever nobody is flushing.
  ghost predicate Balanced(s: State) { Inv(s) && (MutexFree(s) ==> Surplus(s) == 0) }

  lemma BalanceHolds(s: State, t: nat, a: Action)
    requires Balanced(s) && Enabled(s, t, a) && (a.FlushEnd? ==> Between(s) == 0)
    ensures Balanced(Do(s, t, a))
  {
    var u := Do(s, t, a);
    InvHolds(s, t, a);
    SurplusChange(s, t, a);
    SomeoneIsThere(s, t);
    if u.pcs != s.pcs {
      NumberAfterGoto(s, t, u.pcs[t], Flushing);
    }
    if a.FlushEnd? {
      FlushLeavesSurplus(s, t);
    }
    hide InOrder, Surplus;
  }

  lemma {:induction false} QuietFlushesBalance(s: State, moves: seq<(nat, Action)>)
    requires Balanced(s) && Runs(s, moves) && QuietFlushes(s, moves)
    ensures Balanced(End(s, moves))
    decreases |moves|
  {
    if moves != [] {
      BalanceHolds(s, moves[0].0, moves[0].1);
      QuietFlushesBalance(Do(s, moves[0].0, moves[0].1), moves[1..]);
    }
  }

  // In every run whose flushes end while no thread is in between, a getter past the
  // semaphore finds a message.
  lemma GetterFindsAMessage(max: nat, threads: nat, moves: seq<(nat, Action)>, t: nat)
    requires Runs(Init(max, threads), moves) && QuietFlushes(Init(max, threads), moves)
    requires Enabled(End(Init(max, threads), moves), t, Take)
    ensures End(Init(max, threads), moves).queue != []
  {
    InvAtStart(max, threads);
    QuietFlushesBalance(Init(max, threads), moves);
    EmptyHandedTakesSurplus(End(Init(max, threads), moves), t);
  }

  // Some getter may fail without a further flush.
  ghost predicate CanFail(s: State) {
    exists moves: seq<(nat, Action)>, t: nat {:trigger FailsAfter(s, moves, t)} :: FailsAfter(s, moves, t)
  }

  ghost predicate FailsAfter(s: State, moves: seq<(nat, Action)>, t: nat) {
    Runs(s, moves) && NoFlush(moves) && Enabled(End(s, moves), t, Take) && End(s, moves).queue == []
  }

  lemma FailsOneStepEarlier(s: State, t: nat, a: Action, moves: seq<(nat, Action)>, u: nat)
    requires Enabled(s, t, a) && !a.FlushBegin? && FailsAfter(Do(s, t, a), moves, u)
    ensures FailsAfter(s, [(t, a)] + moves, u)
  {
    OneStep(s, t, a, Do(s, t, a), moves);
  }

  // The move that brings a failure nearer: a getter takes, or if there is none a thread
  // pays back its token, or if all are idle one goes and gets.
  lemma MoveTowardsFailure(s: State) returns (t: nat, a: Action)
    requires Inv(s) && MutexFree(s) && Surplus(s) > 0 && |s.pcs| > 0
    ensures Enabled(s, t, a) && !a.FlushBegin? && (a.Take? || (s.pcs[t] != Getting && Number(s, Getting) == 0))
    ensures match a
      case Take => true
      case SemPost => true
      case PeekPost => true
      case SemWait => Number(s, Posting) + Number(s, Peeking) == 0
      case _ => false
  {
    if Getting in s.pcs {
      t :| t < |s.pcs| && s.pcs[t] == Getting;
      a := Take;
    } else if Posting in s.pcs {
      t :| t < |s.pcs| && s.pcs[t] == Posting;
      a := SemPost;
    } else if Peeking in s.pcs {
      t :| t < |s.pcs| && s.pcs[t] == Peeking;
      a := PeekPost;
    } else {
      assert s.pcs[0] in s.pcs && Flushing !in multiset(s.pcs);
      t, a := 0, SemWait;
    }
  }

  lemma {:induction false} SurplusCanFail(s: State) returns (moves: seq<(nat, Action)>, t: nat)
    requires Inv(s) && MutexFree(s) && Surplus(s) > 0 && |s.pcs| > 0
    ensures FailsAfter(s, moves, t)
    decreases |s.queue|, Number(s, Posting) + Number(s, Peeking), if Number(s, Getting) == 0 then 1 else 0
  {
    var u, a := MoveTowardsFailure(s);
    if a.Take? && s.queue == [] {
      return [], u;
    }
    var s' := Do(s, u, a);
    InvHolds(s, u, a);
    SurplusChange(s, u, a);
    Nearer(s, u, a);
    moves, t := SurplusCanFail(s');
    FailsOneStepEarlier(s, u, a, moves, t);
    moves := [(u, a)] + moves;
  }

  lemma Nearer(s: State, t: nat, a: Action)
    requires Enabled(s, t, a) && MutexFree(s)
    requires a.Take? || a.SemPost? || a.PeekPost? || a.SemWait?
    ensures var u := Do(s, t, a);
      && MutexFree(u) && |u.pcs| == |s.pcs|
      && (a.Take? && s.queue != [] ==> |u.queue| < |s.queue|)
      && (!a.Take? ==> u.queue == s.queue)
      && (a.SemPost? || a.PeekPost? ==>
            Number(u, Posting) + Number(u, Peeking) < Number(s, Posting) + Number(s, Peeking))
      && (a.SemWait? ==> Number(u, Posting) + Number(u, Peeking) == Number(s, Posting) + Number(s, Peeking)
                         && Number(u, Getting) > 0)
  {
    var u := Do(s, t, a);
    NumberAfterGoto(s, t, u.pcs[t], Posting);
    NumberAfterGoto(s, t, u.pcs[t], Peeking);
    NumberAfterGoto(s, t, u.pcs[t], Getting);
    NumberAfterGoto(s, t, u.pcs[t], Flushing);
  }

  // As long as nobody flushes any more, a getter can come back empty-handed exactly if
  // there is credit without a message behind it.
  lemma CanFailIff(s: State)
    requires Inv(s) && MutexFree(s) && |s.pcs| > 0
    ensures CanFail(s) <==> Surplus(s) > 0
  {
    if Surplus(s) > 0 {
      var moves, t := SurplusCanFail(s);
      assert FailsAfter(s, moves, t);
    } else if CanFail(s) {
      var moves: seq<(nat, Action)>, t: nat :| FailsAfter(s, moves, t);
      InvOverRun(s, moves);
      BalanceOverRun(s, moves);
      EmptyHandedTakesSurplus(End(s, moves), t);
    }
  }

  // A flush can make a later getter fail exactly if it ends while some thread is
  // between the semaphore and the mutex.
  lemma FlushCanFailIff(s: State, t: nat)
    requires Inv(s) && Enabled(s, t, FlushEnd)
    ensures CanFail(Do(s, t, FlushEnd)) <==> Between(s) > 0
  {
    var u := Do(s, t, FlushEnd);
    InvHolds(s, t, FlushEnd);
    FlushLeavesSurplus(s, t);
    NumberAfterGoto(s, t, Idle, Flushing);
    SomeoneIsThere(s, t);
    CanFailIff(u);
  }

  // It does happen: a flush between a poster's unlock and its sem_post leaves a
  // token without a message, and the next getter fails.
  lemma FlushCanLeaveAGetterEmptyHanded(m: Msg)
    ensures var moves := [(0, Post(m)), (1, FlushBegin), (1, FlushEnd), (0, SemPost), (1, SemWait)];
      Runs(Init(1, 2), moves) && Enabled(End(Init(1, 2), moves), 1, Take) && End(Init(1, 2), moves).queue == []
  {
    var s := (queue, sem, pcs, posted, flushed) => State(1, queue, sem, pcs, posted, 0, flushed);
    var s0 := s([], 0, [Idle, Idle], [], 0);
    var s1 := s([m], 0, [Posting, Idle], [m], 0);
    var s2 := s([], 0, [Posting, Flushing], [m], 1);
    var s3 := s([], 0, [Posting, Idle], [m], 1);
    var s4 := s([], 1, [Idle, Idle], [m], 1);
    var s5 := s([], 0, [Idle, Getting], [m], 1);
    assert Init(1, 2) == s0;
    OneStep(s4, 1, SemWait, s5, []);
    OneStep(s3, 0, SemPost, s4, [(1, SemWait)]);
    OneStep(s2, 1, FlushEnd, s3, [(0, SemPost), (1, SemWait)]);
    OneStep(s1, 1, FlushBegin, s2, [(1, FlushEnd), (0, SemPost), (1, SemWait)]);
    OneStep(s0, 0, Post(m), s1, [(1, FlushBegin), (1, FlushEnd), (0, SemPost), (1, SemWait)]);
  }

  lemma OneStep(s: State, t: nat, a: Action, u: State, moves: seq<(nat, Action)>)
    requires Enabled(s, t, a) && Do(s, t, a) == u && Runs(u, moves)
    ensures Runs(s, [(t, a)] + moves) && End(s, [(t, a)] + moves) == End(u, moves)
  {
    assert ([(t, a)] + moves)[1..] == moves;
  }
}
