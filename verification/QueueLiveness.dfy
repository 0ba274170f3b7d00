/** Termination of the queue protocol and what a run has achieved when it can go no further. */
module QueueLiveness {
  import opened QueueProtocol
  import opened QueueSafety

  function Min(a: int, b: int): int {
    if a <= b then a else b
  }

  // ---- A measure that every step but a spurious wake-up decreases --------------------------

  function DestroyerWeight(d: Destroyer, n: nat): nat {
    match d
    case NotCalled => 0
    case Ready => 6 * n + 5
    case StopSet => 6 * n + 4
    case Locked => 6 * n + 3
    case WokeEmpty => 3 * n + 2
    case WokeFull => 1
    case Gone => 0
  }

  /** Ten units for every call still to make, and a few for where each thread stands: a wake-up
      not yet issued weighs enough to pay for one more trip of a sleeper round its loop. */
  function Measure<T>(s: State<T>): nat {
    Total(s.threads, Weight) + DestroyerWeight(s.destroyer, |s.threads|)
  }

  lemma WeightRun<T>(s: State<T>, t: nat, c: nat)
    requires Enabled(s, Run(t, c)) && ThreadOk(s, s.threads[t])
    ensures Value(NextThread(s, t), Weight) + (if s.threads[t].pc == AtWake then 3 else 0)
          < Value(s.threads[t], Weight)
  {
  }

  lemma MeasureRun<T>(s: State<T>, t: nat, c: nat)
    requires Enabled(s, Run(t, c)) && ThreadOk(s, s.threads[t])
    ensures Measure(StepThread(s, t, c)) < Measure(s)
  {
    WeightRun(s, t, c);
    TotalRun(s, t, c, Weight);
    RunFrame(s, t, c);
  }

  lemma MeasureDestroy<T>(s: State<T>)
    requires Enabled(s, Destroy)
    ensures Measure(StepDestroyer(s)) < Measure(s)
  {
    TotalWakeAll(s.threads, if s.destroyer == Locked then Consumer else Producer, Weight);
  }

  lemma MeasureStep<T>(s: State<T>, a: Action)
    requires ThreadsOk(s) && Enabled(s, a)
    ensures a.Spurious? ==> Measure(Apply(s, a)) <= Measure(s) + 3
    ensures !a.Spurious? ==> Measure(Apply(s, a)) < Measure(s)
  {
    if a.Run? {
      assert ThreadOk(s, s.threads[a.t]);
      MeasureRun(s, a.t, a.choice);
    } else if a.Spurious? {
      TotalUpdate(s.threads, a.t, Wake(s.threads[a.t]), Weight);
    } else {
      MeasureDestroy(s);
    }
  }

  function Spurios(acts: seq<Action>): nat {
    if acts == [] then 0 else (if acts[0].Spurious? then 1 else 0) + Spurios(acts[1..])
  }

  /** No run is longer than the measure of its first state, plus four steps for each spurious
      wake-up in it. */
  lemma {:induction false} RunIsBounded<T>(s: State<T>, acts: seq<Action>)
    requires Inv(s) && ValidRun(s, acts)
    ensures |acts| + Measure(Final(s, acts)) <= Measure(s) + 4 * Spurios(acts)
    decreases |acts|
  {
    if acts != [] {
      MeasureStep(s, acts[0]);
      InvStep(s, acts[0]);
      RunIsBounded(Apply(s, acts[0]), acts[1..]);
    }
  }

  // ---- Every call is pending, carried out, or bailed out of --------------------------------

  function Done<T>(s: State<T>, r: Role): nat {
    if r == Producer then |s.sent| else |s.taken|
  }

  function Calls<T>(s: State<T>, r: Role): nat {
    Done(s, r) + Total(s.threads, Pending(r)) + Total(s.threads, Bailed(r))
  }

  lemma CallsThread<T>(s: State<T>, t: nat, c: nat, r: Role)
    requires Enabled(s, Run(t, c)) && ThreadOk(s, s.threads[t])
    ensures var th, th' := s.threads[t], NextThread(s, t);
      Done(StepThread(s, t, c), r) + Value(th', Pending(r)) + Value(th', Bailed(r))
      == Done(s, r) + Value(th, Pending(r)) + Value(th, Bailed(r))
  {
  }

  lemma CallsRun<T>(s: State<T>, t: nat, c: nat, r: Role)
    requires Enabled(s, Run(t, c)) && ThreadOk(s, s.threads[t])
    ensures Calls(StepThread(s, t, c), r) == Calls(s, r)
  {
    CallsThread(s, t, c, r);
    TotalRun(s, t, c, Pending(r));
    TotalRun(s, t, c, Bailed(r));
  }

  lemma CallsStep<T>(s: State<T>, a: Action, r: Role)
    requires ThreadsOk(s) && Enabled(s, a)
    ensures Calls(Apply(s, a), r) == Calls(s, r)
  {
    if a.Run? {
      assert ThreadOk(s, s.threads[a.t]);
      CallsRun(s, a.t, a.choice, r);
    } else if a.Spurious? {
      TotalUpdate(s.threads, a.t, Wake(s.threads[a.t]), Pending(r));
      TotalUpdate(s.threads, a.t, Wake(s.threads[a.t]), Bailed(r));
    } else {
      var woken := if s.destroyer == Locked then Consumer else Producer;
      TotalWakeAll(s.threads, woken, Pending(r));
      TotalWakeAll(s.threads, woken, Bailed(r));
    }
  }

  lemma {:induction false} CallsConserved<T>(s: State<T>, acts: seq<Action>, r: Role)
    requires Inv(s) && ValidRun(s, acts)
    ensures Calls(Final(s, acts), r) == Calls(s, r)
    decreases |acts|
  {
    if acts != [] {
      CallsStep(s, acts[0], r);
      InvStep(s, acts[0]);
      CallsConserved(Apply(s, acts[0]), acts[1..], r);
    }
  }

  /** The calls that the threads of role `r` were given to make. */
  function Asked<T>(s: State<T>, r: Role): nat {
    Total(s.threads, Pending(r))
  }

  lemma InitCalls<T(!new)>(s: State<T>, size: int, r: Role)
    requires Init(s, size)
    ensures Calls(s, r) == Asked(s, r)
  {
    assert forall t :: 0 <= t < |s.threads| ==> Fresh(s.threads[t]);
    TotalZero(s.threads, Bailed(r));
  }

  // ---- States in which nothing more happens ------------------------------------------------

  ghost predicate Quiescent<T>(s: State<T>) {
    forall a: Action :: !a.Spurious? ==> !Enabled(s, a)
  }

  predicate AllReturned<T>(s: State<T>) {
    forall t :: 0 <= t < |s.threads| ==> s.threads[t].pc == Outside && s.threads[t].Left() == 0
  }

  lemma QuiescentLockFree<T>(s: State<T>)
    requires LockOk(s) && Quiescent(s)
    ensures s.owner == Free
  {
    assert s.owner.Held? ==> Inside(s.threads[s.owner.t].pc) && Enabled(s, Run(s.owner.t, 0));
    assert s.owner == HeldByDestroyer ==> Enabled(s, Destroy);
  }

  /** When nothing more happens every thread is asleep or has made all its calls. */
  lemma QuiescentThread<T>(s: State<T>, t: nat)
    requires LockOk(s) && Quiescent(s) && t < |s.threads|
    ensures s.threads[t].pc == Asleep || (s.threads[t].pc == Outside && s.threads[t].Left() == 0)
  {
    QuiescentLockFree(s);
    var th := s.threads[t];
    assert Inside(th.pc) <==> s.owner == Held(t);
    if th.pc == AtWake {
      var r := Other(th.role);
      if !NoSleeper(s, r) {
        var c: nat :| Sleeper(s, r, c);
        assert Enabled(s, Run(t, c));
      } else {
        assert Enabled(s, Run(t, 0));
      }
    } else if th.pc != Asleep {
      assert !Enabled(s, Run(t, 0));
    }
  }

  lemma QuiescentNoCredit<T>(s: State<T>, r: Role)
    requires LockOk(s) && Quiescent(s)
    ensures Total(s.threads, Credit(r)) == 0
  {
    forall t | 0 <= t < |s.threads|
      ensures Value(s.threads[t], Credit(r)) == 0
    {
      QuiescentThread(s, t);
    }
    TotalZero(s.threads, Credit(r));
  }

  lemma QuiescentRole<T>(s: State<T>, r: Role)
    requires Inv(s) && Quiescent(s) && !s.stop
    ensures NoSleeper(s, r) ==> Total(s.threads, Pending(r)) == 0
    ensures !NoSleeper(s, r) ==> Total(s.threads, Pending(r)) > 0 && Slack(s, r) <= 0
  {
    QuiescentNoCredit(s, r);
    if NoSleeper(s, r) {
      forall t | 0 <= t < |s.threads|
        ensures Value(s.threads[t], Pending(r)) == 0
      {
        QuiescentThread(s, t);
        assert !Sleeper(s, r, t);
      }
      TotalZero(s.threads, Pending(r));
    } else {
      var t: nat :| Sleeper(s, r, t);
      assert ThreadOk(s, s.threads[t]);
      TotalAtLeast(s.threads, t, Pending(r));
    }
  }

  lemma NoBail<T>(s: State<T>, r: Role)
    requires ThreadsOk(s) && !s.stop
    ensures Total(s.threads, Bailed(r)) == 0
  {
    assert forall t :: 0 <= t < |s.threads| ==> ThreadOk(s, s.threads[t]);
    TotalZero(s.threads, Bailed(r));
  }

  /** How far a run gets that can go no further, for `puts` calls of `enqueue` and `gets` calls of
      `dequeue` in any distribution over the threads. */
  lemma QuiescentCounts<T>(s: State<T>)
    requires Inv(s) && Quiescent(s) && !s.stop
    ensures var puts, gets := Calls(s, Producer), Calls(s, Consumer);
      && |s.taken| == Min(puts, gets)
      && |s.sent| == Min(puts, gets + s.limit)
  {
    NoBail(s, Producer);
    NoBail(s, Consumer);
    QuiescentRole(s, Producer);
    QuiescentRole(s, Consumer);
    assert |Items(s.sent)| == |Items(s.taken)| + |s.items|;
  }

  lemma AllReturnedIff<T>(s: State<T>)
    requires Inv(s) && Quiescent(s) && !s.stop
    ensures AllReturned(s) <==>
      Total(s.threads, Pending(Producer)) == 0 && Total(s.threads, Pending(Consumer)) == 0
  {
    if AllReturned(s) {
      TotalZero(s.threads, Pending(Producer));
      TotalZero(s.threads, Pending(Consumer));
    }
    forall t | 0 <= t < |s.threads| && s.threads[t].pc == Asleep
      ensures !(Total(s.threads, Pending(Producer)) == 0 && Total(s.threads, Pending(Consumer)) == 0)
    {
      assert Sleeper(s, s.threads[t].role, t);
      QuiescentRole(s, s.threads[t].role);
    }
    forall t | 0 <= t < |s.threads|
      ensures s.threads[t].pc == Asleep || (s.threads[t].pc == Outside && s.threads[t].Left() == 0)
    {
      QuiescentThread(s, t);
    }
  }

  // ---- The liveness theorems ---------------------------------------------------------------

  /** A queue that is never destroyed: every interleaving stops within a bound known beforehand, four
      steps longer for each spurious wake-up in it, and where it can go no further it has made the
      most of the calls that any schedule could make; every call has returned exactly when there are
      at least as many `enqueue` calls as `dequeue` calls and the surplus fits in the queue. */
  lemma MaximalRun<T(!new)>(s0: State<T>, size: int, acts: seq<Action>)
    requires Init(s0, size) && s0.destroyer == NotCalled
    requires ValidRun(s0, acts)
    ensures |acts| <= Measure(s0) + 4 * Spurios(acts)
    ensures Quiescent(Final(s0, acts)) ==>
      var s := Final(s0, acts); var puts, gets := Asked(s0, Producer), Asked(s0, Consumer);
      && |s.taken| == Min(puts, gets)
      && |s.sent| == Min(puts, gets + Capacity(size))
      && (AllReturned(s) <==> gets <= puts <= gets + Capacity(size))
  {
    InitInv(s0, size);
    RunIsBounded(s0, acts);
    var s := Final(s0, acts);
    if Quiescent(s) {
      InvRun(s0, acts);
      LimitConstant(s0, acts);
      NeverStopped(s0, acts);
      CallsConserved(s0, acts, Producer);
      CallsConserved(s0, acts, Consumer);
      InitCalls(s0, size, Producer);
      InitCalls(s0, size, Consumer);
      NoBail(s, Producer);
      NoBail(s, Consumer);
      QuiescentCounts(s);
      AllReturnedIff(s);
    }
  }

  /** The capacity that a caller of `createQueue` asks for is the one he gets, as seen by those who put
      and get: a positive `size` bounds how many items the producers are ahead, and any other lets
      them all through, up to the largest `int`. */
  lemma SizeAskedFor<T(!new)>(s0: State<T>, size: int, acts: seq<Action>)
    requires Init(s0, size) && s0.destroyer == NotCalled
    requires ValidRun(s0, acts) && Quiescent(Final(s0, acts))
    ensures var s := Final(s0, acts); var puts, gets := Asked(s0, Producer), Asked(s0, Consumer);
      && (size > 0 ==> |s.sent| == Min(puts, gets + size))
      && (size <= 0 ==> |s.sent| == Min(puts, gets + 0x7fff_ffff))
      && (size <= 0 && puts <= 0x7fff_ffff ==> |s.sent| == puts)
      && (size > 0 ==> (AllReturned(s) <==> gets <= puts <= gets + size))
  {
    MaximalRun(s0, size, acts);
  }

  lemma {:induction false} NeverStopped<T>(s: State<T>, acts: seq<Action>)
    requires s.destroyer == NotCalled && !s.stop && ValidRun(s, acts)
    ensures Final(s, acts).destroyer == NotCalled && !Final(s, acts).stop
    decreases |acts|
  {
    if acts != [] {
      NeverStopped(Apply(s, acts[0]), acts[1..]);
    }
  }

  lemma StepCount<T>(s: State<T>, a: Action)
    ensures |Apply(s, a).threads| == |s.threads|
  {
  }

  lemma {:induction false} ThreadCount<T>(s: State<T>, acts: seq<Action>)
    ensures |Final(s, acts).threads| == |s.threads|
    decreases |acts|
  {
    if acts != [] {
      StepCount(s, acts[0]);
      ThreadCount(Apply(s, acts[0]), acts[1..]);
    }
  }

  /** As many `enqueue` calls as `dequeue` calls, over any number of threads: every maximal
      interleaving ends with every call returned, the queue empty, and every producer's whole
      program handed over in one common order. */
  lemma BalancedWorkloadFinishes<T(!new)>(s0: State<T>, size: int, acts: seq<Action>)
    requires Init(s0, size) && s0.destroyer == NotCalled
    requires ValidRun(s0, acts) && Quiescent(Final(s0, acts))
    requires Asked(s0, Producer) == Asked(s0, Consumer)
    ensures var s := Final(s0, acts);
      && AllReturned(s) && s.items == [] && Items(s.taken) == Items(s.sent)
      && |s.threads| == |s0.threads|
      && forall t :: 0 <= t < |s.threads| ==>
           if s0.threads[t].role == Producer then Of(s.sent, t) == s0.threads[t].puts
           else s.threads[t].log == Of(s.taken, t) && |s.threads[t].log| == s0.threads[t].gets
  {
    MaximalRun(s0, size, acts);
    FifoConservation(s0, size, acts);
    ReachableInv(s0, size, acts);
    NeverStopped(s0, acts);
    var s := Final(s0, acts);
    ThreadCount(s0, acts);
    forall t | 0 <= t < |s0.threads|
      ensures if s0.threads[t].role == Producer then Of(s.sent, t) == s0.threads[t].puts
              else s.threads[t].log == Of(s.taken, t) && |s.threads[t].log| == s0.threads[t].gets
    {
      ProgramOrder(s0, size, acts, t);
      assert ThreadOk(s, s.threads[t]);
      assert s.threads[t].Left() == 0;
    }
  }

  /** `destroyQueue`, up to its wake-alls, lets every blocked and every later call return: a run in
      which it is called stops within the bound, and then it has freed the lock and every call has
      returned. */
  lemma ShutdownReturnsAll<T(!new)>(s0: State<T>, size: int, acts: seq<Action>)
    requires Init(s0, size) && s0.destroyer == Ready
    requires ValidRun(s0, acts)
    ensures |acts| <= Measure(s0) + 4 * Spurios(acts)
    ensures Quiescent(Final(s0, acts)) ==>
      Final(s0, acts).destroyer == Gone && AllReturned(Final(s0, acts))
  {
    InitInv(s0, size);
    RunIsBounded(s0, acts);
    var s := Final(s0, acts);
    if Quiescent(s) {
      InvRun(s0, acts);
      QuiescentLockFree(s);
      Called(s0, acts);
      assert !Enabled(s, Destroy);
      forall t | 0 <= t < |s.threads|
        ensures s.threads[t].pc == Outside && s.threads[t].Left() == 0
      {
        QuiescentThread(s, t);
        assert !Sleeper(s, s.threads[t].role, t);
      }
    }
  }

  lemma {:induction false} Called<T>(s: State<T>, acts: seq<Action>)
    requires s.destroyer != NotCalled
    ensures Final(s, acts).destroyer != NotCalled
    decreases |acts|
  {
    if acts != [] {
      Called(Apply(s, acts[0]), acts[1..]);
    }
  }

  /** From every reachable state there is a way on to a state where nothing more happens, so the
      theorems above are about something. */
  lemma {:induction false} Completion<T(!new)>(s: State<T>) returns (acts: seq<Action>)
    requires Inv(s)
    ensures ValidRun(s, acts) && Spurios(acts) == 0 && Quiescent(Final(s, acts))
    decreases Measure(s)
  {
    if Quiescent(s) {
      acts := [];
    } else {
      var a: Action :| !a.Spurious? && Enabled(s, a);
      MeasureStep(s, a);
      InvStep(s, a);
      var rest := Completion(Apply(s, a));
      acts := [a] + rest;
      assert acts[1..] == rest;
    }
  }
}
