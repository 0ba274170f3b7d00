/** What every step of the queue protocol keeps, and what follows for all runs: spurious and
    stolen wake-ups, and a `stop` flag that changes at any moment, are all allowed here. */
module QueueSafety {
  import opened QueueProtocol

  /** Facts about a single thread in the state it sees. */
  predicate ThreadOk<T>(s: State<T>, th: Thread<T>) {
    && (th.pc == AtSleep ==> MustWait(s, th.role))
    && (th.pc == AtStopCheck ==> s.stop || !MustWait(s, th.role))
    && (th.pc == AtList ==> !MustWait(s, th.role))
    && (th.pc != Outside && th.pc != AtUnlock && th.pc != AtWake ==> th.Left() > 0)
    && (th.pc == Woken ==> th.woke)
    && (th.pc == AtBail ==> s.stop)
    && (th.bailed > 0 ==> s.stop && th.pc != AtList)
  }

  ghost predicate ThreadsOk<T>(s: State<T>) {
    forall t :: 0 <= t < |s.threads| ==> ThreadOk(s, s.threads[t])
  }

  /** One lock, one owner. */
  ghost predicate LockOk<T>(s: State<T>) {
    && (forall t :: 0 <= t < |s.threads| ==> (Inside(s.threads[t].pc) <==> s.owner == Held(t)))
    && (s.owner.Held? ==> s.owner.t < |s.threads|)
    && (DestroyerInside(s.destroyer) <==> s.owner == HeldByDestroyer)
    && (s.stop <==> s.destroyer != NotCalled && s.destroyer != Ready)
  }

  /** How much there is to do for a sleeper of role `r`: items to take, or room to fill. */
  function Slack<T>(s: State<T>, r: Role): int {
    if r == Consumer then |s.items| else s.limit - |s.items|
  }

  /** No wake-up is lost: while somebody sleeps, all the work he could do is covered by a wake-up
      still to be issued or by a woken thread that has not yet used its wake-up. */
  ghost predicate NoLostWakeup<T>(s: State<T>, r: Role) {
    !s.stop && !NoSleeper(s, r) ==> Slack(s, r) <= Total(s.threads, Credit(r))
  }

  /** First in, first out, nothing lost or duplicated. */
  ghost predicate Fifo<T>(s: State<T>) {
    && Items(s.sent) == Items(s.taken) + s.items
    && |s.items| <= s.limit
    && s.limit >= 1
    && !s.fault
  }

  /** Once the destroyer holds the lock nobody can fall asleep, and after each wake-all nobody
      sleeps on that condition. */
  ghost predicate ShutdownOk<T>(s: State<T>) {
    && (DestroyerInside(s.destroyer) || s.destroyer == Gone ==>
      forall t :: 0 <= t < |s.threads| ==> s.threads[t].pc != AtSleep)
    && (s.destroyer == WokeEmpty || s.destroyer == WokeFull || s.destroyer == Gone ==>
      NoSleeper(s, Consumer))
    && (s.destroyer == WokeFull || s.destroyer == Gone ==> NoSleeper(s, Producer))
  }

  ghost predicate Inv<T>(s: State<T>) {
    ThreadsOk(s) && LockOk(s) && Fifo(s) && ShutdownOk(s)
    && NoLostWakeup(s, Producer) && NoLostWakeup(s, Consumer)
  }

  lemma InitInv<T(!new)>(s: State<T>, size: int)
    requires Init(s, size)
    ensures Inv(s)
  {
    forall r: Role
      ensures NoSleeper(s, r)
    {
    }
  }

  /** What a step of thread `t` leaves alone: the other threads, except that one of them may be
      woken; and the list, unless `t` stood at its link or unlink. */
  lemma RunFrame<T>(s: State<T>, t: nat, c: nat)
    requires t < |s.threads|
    ensures var s' := StepThread(s, t, c);
      && |s'.threads| == |s.threads|
      && s'.limit == s.limit && s'.stop == s.stop && s'.destroyer == s.destroyer
      && s'.threads[t] == NextThread(s, t)
      && (s.threads[t].pc != AtList ==> s'.items == s.items && s'.sent == s.sent && s'.taken == s.taken)
      && (forall i :: 0 <= i < |s.threads| && i != t && s'.threads[i] != s.threads[i] ==>
            s.threads[t].pc == AtWake && s.threads[i].pc == Asleep && s'.threads[i] == Wake(s.threads[i]))
  {
  }

  lemma LockRun<T>(s: State<T>, t: nat, c: nat)
    requires LockOk(s) && Enabled(s, Run(t, c))
    ensures LockOk(StepThread(s, t, c))
  {
    var s' := StepThread(s, t, c);
    RunFrame(s, t, c);
    forall i | 0 <= i < |s'.threads|
      ensures Inside(s'.threads[i].pc) <==> s'.owner == Held(i)
    {
      assert Inside(s.threads[i].pc) <==> s.owner == Held(i);
      assert Inside(s.threads[t].pc) <==> s.owner == Held(t);
      if i != t {
        assert Inside(s'.threads[i].pc) <==> Inside(s.threads[i].pc);
      }
    }
  }

  lemma LockStep<T>(s: State<T>, a: Action)
    requires LockOk(s) && Enabled(s, a)
    ensures LockOk(Apply(s, a))
  {
    if a.Run? {
      LockRun(s, a.t, a.choice);
    }
  }

  lemma ThreadsSelf<T>(s: State<T>, t: nat, c: nat)
    requires Enabled(s, Run(t, c)) && ThreadOk(s, s.threads[t]) && |s.items| <= s.limit
    ensures ThreadOk(StepThread(s, t, c), NextThread(s, t))
  {
  }

  lemma ThreadsOther<T>(s: State<T>, t: nat, c: nat, i: nat)
    requires ThreadsOk(s) && LockOk(s) && Enabled(s, Run(t, c)) && i < |s.threads| && i != t
    ensures |StepThread(s, t, c).threads| == |s.threads|
    ensures ThreadOk(StepThread(s, t, c), StepThread(s, t, c).threads[i])
  {
    RunFrame(s, t, c);
    assert ThreadOk(s, s.threads[i]);
    if s.threads[t].pc == AtList {
      assert Inside(s.threads[t].pc) <==> s.owner == Held(t);
      assert Inside(s.threads[i].pc) <==> s.owner == Held(i);
    }
  }

  lemma ThreadsRun<T>(s: State<T>, t: nat, c: nat)
    requires ThreadsOk(s) && LockOk(s) && Enabled(s, Run(t, c)) && |s.items| <= s.limit
    ensures ThreadsOk(StepThread(s, t, c))
  {
    var s' := StepThread(s, t, c);
    RunFrame(s, t, c);
    forall i | 0 <= i < |s'.threads|
      ensures ThreadOk(s', s'.threads[i])
    {
      if i == t {
        assert ThreadOk(s, s.threads[t]);
        ThreadsSelf(s, t, c);
      } else {
        ThreadsOther(s, t, c, i);
      }
    }
  }

  lemma ThreadsStep<T>(s: State<T>, a: Action)
    requires ThreadsOk(s) && LockOk(s) && Fifo(s) && Enabled(s, a)
    ensures ThreadsOk(Apply(s, a))
  {
    if a.Run? {
      ThreadsRun(s, a.t, a.choice);
    } else {
      var s' := Apply(s, a);
      forall i | 0 <= i < |s'.threads|
        ensures ThreadOk(s', s'.threads[i])
      {
        assert ThreadOk(s, s.threads[i]);
      }
    }
  }

  lemma FifoLink<T>(s: State<T>, t: nat, c: nat)
    requires t < |s.threads| && Fifo(s) && s.threads[t].pc == AtList && s.threads[t].role == Producer
    requires s.threads[t].Left() > 0 && |s.items| < s.limit
    ensures Fifo(StepThread(s, t, c))
  {
    var x := s.threads[t].puts[0];
    ItemsAppend(s.sent, (t, x));
    assert Items(s.taken) + (s.items + [x]) == Items(s.taken) + s.items + [x];
  }

  lemma FifoUnlink<T>(s: State<T>, t: nat, c: nat)
    requires t < |s.threads| && Fifo(s) && s.threads[t].pc == AtList && s.threads[t].role == Consumer
    requires s.threads[t].Left() > 0 && s.items != []
    ensures Fifo(StepThread(s, t, c))
  {
    var x := s.items[0];
    ItemsAppend(s.taken, (t, x));
    assert Items(s.taken) + s.items == (Items(s.taken) + [x]) + s.items[1..];
  }

  lemma FifoStep<T>(s: State<T>, a: Action)
    requires ThreadsOk(s) && Fifo(s) && Enabled(s, a)
    ensures Fifo(Apply(s, a))
  {
    if a.Run? && s.threads[a.t].pc == AtList {
      assert ThreadOk(s, s.threads[a.t]);
      if s.threads[a.t].role == Producer {
        FifoLink(s, a.t, a.choice);
      } else {
        FifoUnlink(s, a.t, a.choice);
      }
    } else {
      var s' := Apply(s, a);
      assert s'.items == s.items && s'.sent == s.sent && s'.taken == s.taken;
    }
  }

  lemma ShutdownRun<T>(s: State<T>, t: nat, c: nat)
    requires ThreadsOk(s) && LockOk(s) && ShutdownOk(s) && Enabled(s, Run(t, c))
    ensures ShutdownOk(StepThread(s, t, c))
  {
    var s' := StepThread(s, t, c);
    RunFrame(s, t, c);
    forall r: Role, i: nat | Sleeper(s', r, i)
      ensures Sleeper(s, r, i) || (s.threads[i].pc == AtSleep && s.threads[i].role == r)
    {
      assert i == t || s'.threads[i] == s.threads[i];
    }
  }

  lemma ShutdownDestroy<T>(s: State<T>)
    requires LockOk(s) && ShutdownOk(s) && Enabled(s, Destroy)
    ensures ShutdownOk(StepDestroyer(s))
  {
    var ts, ts' := s.threads, StepDestroyer(s).threads;
    forall i | 0 <= i < |ts|
      ensures ts'[i].pc == AtSleep <==> ts[i].pc == AtSleep
      ensures s.owner == Free || s.owner == HeldByDestroyer ==> ts[i].pc != AtSleep
      ensures ts'[i].role == ts[i].role && (ts'[i].pc == Asleep ==> ts[i].pc == Asleep)
    {
      assert Inside(ts[i].pc) <==> s.owner == Held(i);
    }
    forall r: Role, i: nat | Sleeper(StepDestroyer(s), r, i)
      ensures Sleeper(s, r, i)
    {
    }
    forall i: nat
      ensures s.destroyer == Locked ==> !Sleeper(StepDestroyer(s), Consumer, i)
      ensures s.destroyer == WokeEmpty ==> !Sleeper(StepDestroyer(s), Producer, i)
    {
    }
  }

  lemma ShutdownStep<T>(s: State<T>, a: Action)
    requires ThreadsOk(s) && LockOk(s) && ShutdownOk(s) && Enabled(s, a)
    ensures ShutdownOk(Apply(s, a))
  {
    if a.Run? {
      ShutdownRun(s, a.t, a.choice);
    } else if a.Destroy? {
      ShutdownDestroy(s);
    } else {
      var s' := Apply(s, a);
      assert forall r: Role, i: nat :: Sleeper(s', r, i) ==> Sleeper(s, r, i);
    }
  }

  /** Every sum over the threads after a step of thread `t`: its own share changes, and that of
      the thread it wakes. */
  lemma TotalRun<T>(s: State<T>, t: nat, c: nat, g: Gauge)
    requires t < |s.threads|
    ensures Total(StepThread(s, t, c).threads, g) ==
        Total(s.threads, g) - Value(s.threads[t], g) + Value(NextThread(s, t), g)
        + (if Wakes(s, t, c) then Value(Wake(s.threads[c]), g) - Value(s.threads[c], g) else 0)
  {
    var ts := s.threads[t := NextThread(s, t)];
    TotalUpdate(s.threads, t, NextThread(s, t), g);
    if Wakes(s, t, c) {
      TotalUpdate(ts, c, Wake(ts[c]), g);
    }
  }

  lemma CreditRun<T>(s: State<T>, t: nat, c: nat, r: Role)
    requires Enabled(s, Run(t, c))
    ensures var s' := StepThread(s, t, c); var th := s.threads[t];
      Total(s'.threads, Credit(r)) ==
        if th.pc == AtWake
        then Total(s.threads, Credit(r)) - (if th.role == r then 0 else 1)
             + (if th.role != r && Sleeper(s, r, c) then 1 else 0)
        else Total(s.threads, Credit(r)) - Value(th, Credit(r)) + Value(s'.threads[t], Credit(r))
  {
    TotalRun(s, t, c, Credit(r));
  }

  /** A step other than the fall asleep creates no sleeper. */
  lemma NoNewSleeper<T>(s: State<T>, t: nat, c: nat, r: Role)
    requires t < |s.threads| && !(s.threads[t].pc == AtSleep && s.threads[t].role == r)
    ensures NoSleeper(s, r) ==> NoSleeper(StepThread(s, t, c), r)
  {
    var s' := StepThread(s, t, c);
    RunFrame(s, t, c);
    forall i: nat | Sleeper(s', r, i)
      ensures Sleeper(s, r, i)
    {
      assert i == t || s'.threads[i] == s.threads[i];
    }
  }

  /** Apart from the fall asleep, no step lets the work outgrow the credits: the link and the
      unlink create as many credits as work, and a wake-up hands its credit to the thread it wakes. */
  lemma WakeupBalance<T>(s: State<T>, t: nat, c: nat, r: Role)
    requires Enabled(s, Run(t, c)) && ThreadOk(s, s.threads[t]) && !s.stop && !NoSleeper(s, r)
    requires s.threads[t].pc != AtSleep
    ensures Slack(StepThread(s, t, c), r) - Slack(s, r)
         <= Total(StepThread(s, t, c).threads, Credit(r)) - Total(s.threads, Credit(r))
         || Slack(StepThread(s, t, c), r) <= 0
  {
    CreditRun(s, t, c, r);
    RunFrame(s, t, c);
  }

  lemma WakeupRun<T>(s: State<T>, t: nat, c: nat, r: Role)
    requires Inv(s) && Enabled(s, Run(t, c)) && !s.stop
    ensures NoLostWakeup(StepThread(s, t, c), r)
  {
    var s' := StepThread(s, t, c);
    RunFrame(s, t, c);
    assert ThreadOk(s, s.threads[t]);
    if s.threads[t].pc == AtSleep {
      CreditRun(s, t, c, r);
      if s.threads[t].role != r {
        NoNewSleeper(s, t, c, r);
      }
    } else {
      NoNewSleeper(s, t, c, r);
      if !NoSleeper(s', r) {
        WakeupBalance(s, t, c, r);
      }
    }
  }

  lemma WakeupStep<T>(s: State<T>, a: Action, r: Role)
    requires Inv(s) && Enabled(s, a)
    ensures NoLostWakeup(Apply(s, a), r)
  {
    var s' := Apply(s, a);
    if s'.stop {
      return;
    }
    if a.Spurious? {
      WakeupSpurious(s, a.t, r);
    } else {
      WakeupRun(s, a.t, a.choice, r);
    }
  }

  lemma WakeupSpurious<T>(s: State<T>, t: nat, r: Role)
    requires NoLostWakeup(s, r) && Enabled(s, Spurious(t))
    ensures NoLostWakeup(Apply(s, Spurious(t)), r)
  {
    var s' := Apply(s, Spurious(t));
    TotalUpdate(s.threads, t, Wake(s.threads[t]), Credit(r));
    forall i: nat | Sleeper(s', r, i)
      ensures Sleeper(s, r, i)
    {
    }
  }

  lemma InvStep<T>(s: State<T>, a: Action)
    requires Inv(s) && Enabled(s, a)
    ensures Inv(Apply(s, a))
  {
    LockStep(s, a);
    ThreadsStep(s, a);
    FifoStep(s, a);
    ShutdownStep(s, a);
    WakeupStep(s, a, Producer);
    WakeupStep(s, a, Consumer);
  }

  lemma {:induction false} InvRun<T>(s: State<T>, acts: seq<Action>)
    requires Inv(s) && ValidRun(s, acts)
    ensures Inv(Final(s, acts))
    decreases |acts|
  {
    if acts != [] {
      InvStep(s, acts[0]);
      InvRun(Apply(s, acts[0]), acts[1..]);
    }
  }

  // ---- Each thread's own calls -------------------------------------------------------------

  /** What thread `t` has done, against the program `start` it was given: a producer's items are in
      the list in program order with none skipped, a consumer has been handed exactly the items
      it unlinked, in that order, and every call is pending, carried out or bailed out of. */
  ghost predicate ProgramOk<T>(start: Thread<T>, s: State<T>, t: nat)
    requires t < |s.threads|
  {
    var th := s.threads[t];
    && th.role == start.role
    && (th.role == Producer ==>
      && Of(s.sent, t) <= start.puts
      && (th.bailed == 0 ==> Of(s.sent, t) + th.puts == start.puts)
      && |Of(s.sent, t)| + |th.puts| + th.bailed == |start.puts|)
    && (th.role == Consumer ==>
      && Of(s.taken, t) == th.log
      && |th.log| + th.gets + th.bailed == start.gets)
  }

  lemma ProgramLink<T>(start: Thread<T>, s: State<T>, u: nat, c: nat, t: nat)
    requires u < |s.threads| && t < |s.threads| && Links(s, u)
    requires ThreadOk(s, s.threads[u]) && ProgramOk(start, s, t)
    ensures ProgramOk(start, StepThread(s, u, c), t)
  {
    var th := s.threads[u];
    OfAppend(s.sent, (u, th.puts[0]), t);
    assert Of(s.sent, u) + th.puts == (Of(s.sent, u) + [th.puts[0]]) + th.puts[1..];
  }

  lemma ProgramUnlink<T>(start: Thread<T>, s: State<T>, u: nat, c: nat, t: nat)
    requires u < |s.threads| && t < |s.threads| && Unlinks(s, u) && ProgramOk(start, s, t)
    ensures ProgramOk(start, StepThread(s, u, c), t)
  {
    OfAppend(s.taken, (u, s.items[0]), t);
  }

  lemma ProgramOther<T>(start: Thread<T>, s: State<T>, u: nat, c: nat, t: nat)
    requires u < |s.threads| && t < |s.threads| && s.threads[u].pc != AtList
    requires ThreadOk(s, s.threads[u]) && ProgramOk(start, s, t)
    ensures |StepThread(s, u, c).threads| == |s.threads| && ProgramOk(start, StepThread(s, u, c), t)
  {
    var s' := StepThread(s, u, c);
    RunFrame(s, u, c);
    assert s'.sent == s.sent && s'.taken == s.taken;
    var th, th' := s.threads[t], s'.threads[t];
    if t == u && th.pc == AtBail {
      assert th'.bailed == th.bailed + 1 && th'.log == th.log && th'.role == th.role;
    } else {
      assert th'.puts == th.puts && th'.gets == th.gets && th'.log == th.log && th'.bailed == th.bailed;
    }
  }

  lemma ProgramStep<T>(start: Thread<T>, s: State<T>, a: Action, t: nat)
    requires t < |s.threads| && ThreadsOk(s) && Enabled(s, a) && ProgramOk(start, s, t)
    ensures |Apply(s, a).threads| == |s.threads| && ProgramOk(start, Apply(s, a), t)
  {
    if a.Run? {
      assert ThreadOk(s, s.threads[a.t]);
      if s.threads[a.t].pc == AtList {
        if Links(s, a.t) {
          ProgramLink(start, s, a.t, a.choice, t);
        } else {
          ProgramUnlink(start, s, a.t, a.choice, t);
        }
      } else {
        ProgramOther(start, s, a.t, a.choice, t);
      }
    } else {
      var s' := Apply(s, a);
      var th, th' := s.threads[t], s'.threads[t];
      assert s'.sent == s.sent && s'.taken == s.taken;
      assert th'.role == th.role && th'.puts == th.puts && th'.gets == th.gets;
      assert th'.log == th.log && th'.bailed == th.bailed;
    }
  }

  lemma {:induction false} ProgramRun<T>(start: Thread<T>, s: State<T>, acts: seq<Action>, t: nat)
    requires t < |s.threads| && Inv(s) && ValidRun(s, acts) && ProgramOk(start, s, t)
    ensures |Final(s, acts).threads| == |s.threads| && ProgramOk(start, Final(s, acts), t)
    decreases |acts|
  {
    if acts != [] {
      InvStep(s, acts[0]);
      ProgramStep(start, s, acts[0], t);
      ProgramRun(start, Apply(s, acts[0]), acts[1..], t);
    }
  }

  // ---- The safety theorems, for every run from a new queue ---------------------------------

  lemma ReachableInv<T(!new)>(s0: State<T>, size: int, acts: seq<Action>)
    requires Init(s0, size) && ValidRun(s0, acts)
    ensures Inv(Final(s0, acts))
  {
    InitInv(s0, size);
    InvRun(s0, acts);
  }

  /** What has been linked is what has been unlinked followed by the list, never beyond the
      capacity, and no unlink ever meets an empty list. */
  lemma FifoConservation<T(!new)>(s0: State<T>, size: int, acts: seq<Action>)
    requires Init(s0, size) && ValidRun(s0, acts)
    ensures var s := Final(s0, acts);
      Items(s.sent) == Items(s.taken) + s.items && |s.items| <= Capacity(size) && !s.fault
  {
    ReachableInv(s0, size, acts);
    LimitConstant(s0, acts);
  }

  lemma {:induction false} LimitConstant<T>(s: State<T>, acts: seq<Action>)
    ensures Final(s, acts).limit == s.limit
    decreases |acts|
  {
    if acts != [] {
      LimitConstant(Apply(s, acts[0]), acts[1..]);
    }
  }

  lemma ProgramOrder<T(!new)>(s0: State<T>, size: int, acts: seq<Action>, t: nat)
    requires Init(s0, size) && ValidRun(s0, acts) && t < |s0.threads|
    ensures |Final(s0, acts).threads| == |s0.threads|
    ensures ProgramOk(s0.threads[t], Final(s0, acts), t)
  {
    InitInv(s0, size);
    assert Fresh(s0.threads[t]);
    ProgramRun(s0.threads[t], s0, acts, t);
  }

  /** Work that a sleeper could do never exceeds the wake-ups under way, whatever wakes were
      spurious or stolen. */
  lemma NoWakeupIsLost<T(!new)>(s0: State<T>, size: int, acts: seq<Action>, sleeper: nat)
    requires Init(s0, size) && ValidRun(s0, acts) && !Final(s0, acts).stop
    requires sleeper < |Final(s0, acts).threads| && Final(s0, acts).threads[sleeper].pc == Asleep
    ensures var s := Final(s0, acts);
      if s.threads[sleeper].role == Consumer
      then |s.items| <= Total(s.threads, Credit(Consumer))
      else s.limit - |s.items| <= Total(s.threads, Credit(Producer))
  {
    ReachableInv(s0, size, acts);
    var s := Final(s0, acts);
    assert Sleeper(s, s.threads[sleeper].role, sleeper);
  }

  /** With no wake-up under way, a sleeping producer and a sleeping consumer cannot coexist. */
  lemma NoMutualSleep<T(!new)>(s0: State<T>, size: int, acts: seq<Action>, p: nat, c: nat)
    requires Init(s0, size) && ValidRun(s0, acts) && !Final(s0, acts).stop
    requires var s := Final(s0, acts);
      forall t :: 0 <= t < |s.threads| ==> !HasCredit(s.threads[t], Producer) && !HasCredit(s.threads[t], Consumer)
    ensures var s := Final(s0, acts); !(Sleeper(s, Producer, p) && Sleeper(s, Consumer, c))
  {
    ReachableInv(s0, size, acts);
    var s := Final(s0, acts);
    TotalZero(s.threads, Credit(Producer));
    TotalZero(s.threads, Credit(Consumer));
  }

  /** A thread that reaches its link finds room, one that reaches its unlink finds a node, even if
      `stop` flipped between its two reads. */
  lemma ListStepIsSafe<T(!new)>(s0: State<T>, size: int, acts: seq<Action>, t: nat)
    requires Init(s0, size) && ValidRun(s0, acts)
    requires t < |Final(s0, acts).threads| && Final(s0, acts).threads[t].pc == AtList
    ensures var s := Final(s0, acts);
      if s.threads[t].role == Producer then |s.items| < Capacity(size) else s.items != []
  {
    ReachableInv(s0, size, acts);
    LimitConstant(s0, acts);
    assert ThreadOk(Final(s0, acts), Final(s0, acts).threads[t]);
  }

  lemma {:induction false} GoneForever<T>(s: State<T>, acts: seq<Action>)
    requires s.destroyer == Gone && ValidRun(s, acts)
    ensures Final(s, acts).destroyer == Gone
    decreases |acts|
  {
    if acts != [] {
      GoneForever(Apply(s, acts[0]), acts[1..]);
    }
  }

  /** After `destroyQueue` has woken everybody, nobody sleeps, and nobody ever sleeps again. */
  lemma ShutdownIsComplete<T(!new)>(s0: State<T>, size: int, acts: seq<Action>, more: seq<Action>)
    requires Init(s0, size) && ValidRun(s0, acts) && Final(s0, acts).destroyer == Gone
    requires ValidRun(Final(s0, acts), more)
    ensures var s := Final(Final(s0, acts), more);
      forall t :: 0 <= t < |s.threads| ==> s.threads[t].pc != Asleep && s.threads[t].pc != AtSleep
  {
    ReachableInv(s0, size, acts);
    InvRun(Final(s0, acts), more);
    GoneForever(Final(s0, acts), more);
    var s := Final(Final(s0, acts), more);
    forall t | 0 <= t < |s.threads|
      ensures s.threads[t].pc != Asleep
    {
      assert !Sleeper(s, s.threads[t].role, t);
    }
  }
}
