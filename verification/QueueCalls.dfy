/** Whole calls in whole runs.  Whatever the other threads do, and however often and for whatever
    reason it is woken, a thread's call in a run of the step system does what the in-memory `enqueue`
    or `dequeue` does when the sections that the run has during its sleeps are its naps. */
module QueueCalls {
  import opened QueueProtocol
  import opened QueueSafety
  import opened QueueLinear
  import B = BlockingQueue

  /** A thread in a call whose outcome is still open. */
  predicate InCall(pc: PC) {
    pc.AtTest? || pc.AtSleep? || pc.Asleep? || pc.Woken? || pc.AtStopCheck? || pc.AtList?
  }

  predicate Sleeping(pc: PC) {
    pc.AtSleep? || pc.Asleep? || pc.Woken?
  }

  /** The queue that a call found, and the sections of each of its sleeps up to now.  A `stop` that is
      written between two sleeps, while the caller holds the lock, counts as part of the sleep before
      its test, or, before the first sleep, of what the call found. */
  datatype Record<T> = Record(found: B.Monitor<T>, naps: seq<seq<B.Section<T>>>)
  {
    ghost function Now(): B.Monitor<T> {
      B.AfterNaps(found, naps, |naps|)
    }
  }

  function AddSections<T>(c: Record<T>, ops: seq<B.Section<T>>): Record<T> {
    if c.naps == [] then c.(found := B.Effects(c.found, ops))
    else
      var last := |c.naps| - 1;
      c.(naps := c.naps[..last] + [c.naps[last] + ops])
  }

  /** The record of thread `t`'s call after action `a`: its own test that says wait opens a nap, what
      others do is added. */
  function Recorded<T>(c: Record<T>, s: System<T>, a: Action, t: nat): Record<T>
    requires t < |s.threads|
  {
    if a.Run? && a.t == t then
      if s.threads[t].pc == AtTest && NextThread(s, t).pc == AtSleep then c.(naps := c.naps + [[]]) else c
    else AddSections(c, Sections(s, a))
  }

  /** Up to the last of `acts` the call of `t` has no outcome. */
  ghost predicate During<T>(s: System<T>, acts: seq<Action>, t: nat)
    decreases |acts|
  {
    t < |s.threads| && (acts == [] || (InCall(s.threads[t].pc) && During(Apply(s, acts[0]), acts[1..], t)))
  }

  /** The record of all of `acts`, but for the last if that is the outcome. */
  ghost function RecordedRun<T>(c: Record<T>, s: System<T>, acts: seq<Action>, t: nat): Record<T>
    requires During(s, acts, t)
    decreases |acts|
  {
    if acts == [] then c else RecordedRun(Recorded(c, s, acts[0], t), Apply(s, acts[0]), acts[1..], t)
  }

  ghost predicate SameProgram<T>(x: Thread<T>, y: Thread<T>) {
    x.role == y.role && x.puts == y.puts && x.gets == y.gets && x.log == y.log
  }

  /** What the call found is the queue `m`, with at most a `stop` added. */
  ghost predicate Found<T>(c: Record<T>, m: B.Monitor<T>) {
    c.found == m || c.found == m.(stop := true)
  }

  ghost predicate RecordOk<T>(c: Record<T>, m: B.Monitor<T>, start: Thread<(T, int)>, s: System<T>, t: nat)
    requires t < |s.threads|
  {
    var th := s.threads[t];
    && SameProgram(th, start)
    && Found(c, m)
    && Seen(s) == c.Now()
    && (forall k :: 0 <= k < |c.naps| ==> B.Waits(B.AfterNaps(c.found, c.naps, k), th.role))
    && (c.naps == [] ==> Inside(th.pc))
    && (Sleeping(th.pc) ==> c.naps != [])
  }

  // ---- Naps added to and opened ------------------------------------------------------------

  lemma {:induction false} NapsFrame<T>(m: B.Monitor<T>, x: seq<seq<B.Section<T>>>, y: seq<seq<B.Section<T>>>, n: nat)
    requires n <= |x| && n <= |y| && x[..n] == y[..n]
    ensures B.AfterNaps(m, x, n) == B.AfterNaps(m, y, n)
  {
    if n > 0 {
      assert x[..n - 1] == x[..n][..n - 1] == y[..n][..n - 1] == y[..n - 1];
      assert x[n - 1] == x[..n][n - 1] == y[..n][n - 1] == y[n - 1];
      NapsFrame(m, x, y, n - 1);
    }
  }

  lemma OpenNap<T>(m: B.Monitor<T>, naps: seq<seq<B.Section<T>>>, k: nat)
    requires k <= |naps|
    ensures B.AfterNaps(m, naps + [[]], k) == B.AfterNaps(m, naps, k)
    ensures B.AfterNaps(m, naps + [[]], |naps| + 1) == B.AfterNaps(m, naps, |naps|)
  {
    assert (naps + [[]])[..k] == naps[..k];
    assert (naps + [[]])[..|naps|] == naps[..|naps|];
    NapsFrame(m, naps + [[]], naps, k);
    NapsFrame(m, naps + [[]], naps, |naps|);
  }

  lemma AddedNow<T>(c: Record<T>, ops: seq<B.Section<T>>)
    ensures AddSections(c, ops).Now() == B.Effects(c.Now(), ops)
    ensures |AddSections(c, ops).naps| == |c.naps|
  {
    if c.naps != [] {
      var last, c' := |c.naps| - 1, AddSections(c, ops);
      assert c'.naps[..last] == c.naps[..last];
      NapsFrame(c.found, c'.naps, c.naps, last);
      EffectsConcat(B.AfterNaps(c.found, c.naps, last), c.naps[last], ops);
    }
  }

  lemma AddedBefore<T>(c: Record<T>, ops: seq<B.Section<T>>, k: nat)
    requires k < |c.naps|
    ensures |AddSections(c, ops).naps| == |c.naps| && AddSections(c, ops).found == c.found
    ensures B.AfterNaps(c.found, AddSections(c, ops).naps, k) == B.AfterNaps(c.found, c.naps, k)
  {
    assert AddSections(c, ops).naps[..k] == c.naps[..k];
    NapsFrame(c.found, AddSections(c, ops).naps, c.naps, k);
  }

  // ---- Step by step ------------------------------------------------------------------------

  /** While a thread holds the lock the others do nothing to the queue but write `stop`. */
  lemma OnlyStop<T>(s: System<T>, a: Action, t: nat)
    requires LockOk(s) && Enabled(s, a) && t < |s.threads| && Inside(s.threads[t].pc) && !(a.Run? && a.t == t)
    ensures Sections(s, a) == [] || Sections(s, a) == [B.Stop]
  {
    assert Inside(s.threads[t].pc) <==> s.owner == Held(t);
    if a.Run? {
      assert Inside(s.threads[a.t].pc) <==> s.owner == Held(a.t);
    }
  }

  lemma StopFound<T>(c: Record<T>, m: B.Monitor<T>, ops: seq<B.Section<T>>)
    requires Found(c, m) && (c.naps == [] ==> ops == [] || ops == [B.Stop])
    ensures Found(AddSections(c, ops), m)
  {
    OneSection(c.found, B.Stop);
  }

  /** What others do to the thread: at most wake it. */
  lemma OthersLeave<T>(s: System<T>, a: Action, t: nat)
    requires Enabled(s, a) && t < |s.threads| && !(a.Run? && a.t == t)
    ensures |Apply(s, a).threads| == |s.threads|
    ensures var th, th' := s.threads[t], Apply(s, a).threads[t];
      SameProgram(th', th) && (th'.pc == th.pc || (th.pc == Asleep && th'.pc == Woken))
  {
    if a.Run? {
      RunFrame(s, a.t, a.choice);
    }
  }

  lemma OthersKeep<T>(c: Record<T>, m: B.Monitor<T>, start: Thread<(T, int)>, s: System<T>, a: Action, t: nat)
    requires Inv(s) && Enabled(s, a) && t < |s.threads| && !(a.Run? && a.t == t)
    requires RecordOk(c, m, start, s, t)
    ensures |Apply(s, a).threads| == |s.threads|
    ensures RecordOk(AddSections(c, Sections(s, a)), m, start, Apply(s, a), t)
  {
    var ops := Sections(s, a);
    var c' := AddSections(c, ops);
    StepIsSections(s, a);
    OthersLeave(s, a, t);
    AddedNow(c, ops);
    if c.naps == [] {
      OnlyStop(s, a, t);
    }
    StopFound(c, m, ops);
    forall k | 0 <= k < |c'.naps|
      ensures B.Waits(B.AfterNaps(c'.found, c'.naps, k), start.role)
    {
      AddedBefore(c, ops, k);
    }
  }

  /** The test that says wait: the call has to. */
  lemma TestSaysWait<T>(c: Record<T>, m: B.Monitor<T>, start: Thread<(T, int)>, s: System<T>,
      c': Record<T>, s': System<T>, t: nat)
    requires LockOk(s) && t < |s.threads| && s.threads[t].pc == AtTest && NextThread(s, t).pc == AtSleep
    requires RecordOk(c, m, start, s, t) && c' == c.(naps := c.naps + [[]])
    requires t < |s'.threads| && s'.threads[t] == NextThread(s, t) && Seen(s') == Seen(s)
    ensures RecordOk(c', m, start, s', t)
  {
    TestsAgree(s, t);
    OpenNap(c.found, c.naps, |c.naps|);
    forall k | 0 <= k < |c'.naps|
      ensures B.Waits(B.AfterNaps(c'.found, c'.naps, k), start.role)
    {
      OpenNap(c.found, c.naps, k);
    }
  }

  /** The caller's own steps up to its change of the list change nothing that is seen. */
  lemma OwnKeeps<T>(c: Record<T>, m: B.Monitor<T>, start: Thread<(T, int)>, s: System<T>, a: Action, t: nat)
    requires Inv(s) && Enabled(s, a) && a.Run? && a.t == t
    requires InCall(s.threads[t].pc) && s.threads[t].pc != AtList && RecordOk(c, m, start, s, t)
    ensures |Apply(s, a).threads| == |s.threads| && Apply(s, a).threads[t] == NextThread(s, t)
    ensures RecordOk(Recorded(c, s, a, t), m, start, Apply(s, a), t)
  {
    OtherStep(s, t, a.choice);
    RunFrame(s, t, a.choice);
    if NextThread(s, t).pc == AtSleep {
      TestSaysWait(c, m, start, s, Recorded(c, s, a, t), Apply(s, a), t);
    } else {
      OwnQuiet(c, m, start, s, Apply(s, a), t);
    }
  }

  lemma OwnQuiet<T>(c: Record<T>, m: B.Monitor<T>, start: Thread<(T, int)>, s: System<T>, s': System<T>, t: nat)
    requires t < |s.threads| && InCall(s.threads[t].pc) && s.threads[t].pc != AtList && NextThread(s, t).pc != AtSleep
    requires RecordOk(c, m, start, s, t)
    requires t < |s'.threads| && s'.threads[t] == NextThread(s, t) && Seen(s') == Seen(s)
    ensures RecordOk(c, m, start, s', t)
  {
  }

  // ---- The outcome -------------------------------------------------------------------------

  /** The specification of the in-memory call for the naps on record. */
  ghost predicate Meets<T>(c: Record<T>, start: Thread<(T, int)>, r: B.Outcome<T>, m': B.Monitor<T>) {
    if start.role == Producer
    then start.puts != [] && B.PutSpec(c.found, start.puts[0], c.naps, |c.naps|, r, m')
    else B.TakeSpec(c.found, c.naps, |c.naps|, r, m')
  }

  /** What the call has come to.  Asleep, it has done what the in-memory call does that is still asleep
      after the naps before this one.  Having seen `stop`, it leaves the queue as it is seen.  Having
      changed the list, it leaves what the in-memory call leaves, whether or not `stop` has been
      written since its second test. */
  ghost predicate CallDone<T>(c: Record<T>, start: Thread<(T, int)>, s: System<T>, t: nat)
    requires t < |s.threads|
  {
    var th := s.threads[t];
    if th.pc == AtBail then Meets(c, start, B.Stopped, Seen(s))
    else if th.pc == AtUnlock then
      var left := B.Monitor(s.items, s.limit, false);
      if start.role == Producer then Meets(c, start, B.Linked, left)
      else
        && |th.log| == |start.log| + 1 && start.log <= th.log
        && Meets(c, start, B.Unlinked(th.log[|start.log|].0), left)
    else if Sleeping(th.pc) then c.naps != [] && Meets(Before(c), start, B.StillAsleep, Before(c).Now())
    else true
  }

  /** The record without the nap that is still going on. */
  function Before<T>(c: Record<T>): Record<T>
    requires c.naps != []
  {
    c.(naps := c.naps[..|c.naps| - 1])
  }

  lemma StillAsleep<T>(c: Record<T>, m: B.Monitor<T>, start: Thread<(T, int)>, s: System<T>, t: nat)
    requires t < |s.threads| && RecordOk(c, m, start, s, t) && Sleeping(s.threads[t].pc) && start.Left() > 0
    ensures CallDone(c, start, s, t)
  {
    var n := |c.naps| - 1;
    forall k | 0 <= k <= n
      ensures B.AfterNaps(c.found, Before(c).naps, k) == B.AfterNaps(c.found, c.naps, k)
    {
      assert c.naps[..n][..k] == c.naps[..k];
      NapsFrame(c.found, c.naps[..n], c.naps, k);
    }
    assert B.Waits(B.AfterNaps(c.found, c.naps, n), start.role);
  }

  lemma SawStop<T>(c: Record<T>, m: B.Monitor<T>, start: Thread<(T, int)>, s: System<T>, t: nat)
    requires Inv(s) && t < |s.threads| && RecordOk(c, m, start, s, t) && s.threads[t].pc == AtBail && start.Left() > 0
    ensures CallDone(c, start, s, t)
  {
    assert ThreadOk(s, s.threads[t]);
    assert Inside(s.threads[t].pc) <==> s.owner == Held(t);
  }

  lemma ListChanged<T>(c: Record<T>, m: B.Monitor<T>, start: Thread<(T, int)>, s: System<T>, a: Action, t: nat)
    requires Inv(s) && Enabled(s, a) && a.Run? && a.t == t && s.threads[t].pc == AtList
    requires RecordOk(c, m, start, s, t) && start.Left() > 0
    ensures |Apply(s, a).threads| == |s.threads| && Apply(s, a).threads[t].pc == AtUnlock
    ensures CallDone(c, start, Apply(s, a), t)
  {
    assert ThreadOk(s, s.threads[t]);
    assert Inside(s.threads[t].pc) <==> s.owner == Held(t);
    RunFrame(s, t, a.choice);
  }

  lemma {:induction false} RecordRun<T>(c: Record<T>, m: B.Monitor<T>, start: Thread<(T, int)>, s: System<T>,
      acts: seq<Action>, t: nat)
    requires Inv(s) && ValidRun(s, acts) && During(s, acts, t) && start.Left() > 0
    requires RecordOk(c, m, start, s, t) && (InCall(s.threads[t].pc) || s.threads[t].pc == AtBail)
    ensures t < |Final(s, acts).threads|
    ensures Found(RecordedRun(c, s, acts, t), m)
    ensures CallDone(RecordedRun(c, s, acts, t), start, Final(s, acts), t)
    decreases |acts|
  {
    if acts == [] {
      if Sleeping(s.threads[t].pc) {
        StillAsleep(c, m, start, s, t);
      } else if s.threads[t].pc == AtBail {
        SawStop(c, m, start, s, t);
      }
    } else {
      var a, s', rest := acts[0], Apply(s, acts[0]), acts[1..];
      InvStep(s, a);
      if !(a.Run? && a.t == t) {
        OthersKeep(c, m, start, s, a, t);
        OthersLeave(s, a, t);
        RecordRun(Recorded(c, s, a, t), m, start, s', rest, t);
      } else if s.threads[t].pc != AtList {
        OwnKeeps(c, m, start, s, a, t);
        RecordRun(Recorded(c, s, a, t), m, start, s', rest, t);
      } else {
        ListChanged(c, m, start, s, a, t);
        assert rest == [];
      }
    }
  }

  /** A call of thread `t`, from where it takes the lock on, in any run and with anything before it. */
  lemma WholeCall<T(!new)>(s0: System<T>, size: int, before: seq<Action>, enter: Action, acts: seq<Action>, t: nat)
    requires Init(s0, size) && ValidRun(s0, before)
    requires var s := Final(s0, before);
      && Enabled(s, enter) && enter.Run? && enter.t == t && s.threads[t].pc == Outside
      && ValidRun(Apply(s, enter), acts) && During(Apply(s, enter), acts, t)
    ensures var s := Final(s0, before); var s1 := Apply(s, enter);
      var c := RecordedRun(Record(Seen(s), []), s1, acts, t);
      && Found(c, Seen(s))
      && t < |Final(s1, acts).threads|
      && CallDone(c, s.threads[t], Final(s1, acts), t)
  {
    var s := Final(s0, before);
    ReachableInv(s0, size, before);
    InvStep(s, enter);
    OtherStep(s, t, enter.choice);
    RunFrame(s, t, enter.choice);
    RecordRun(Record(Seen(s), []), Seen(s), s.threads[t], Apply(s, enter), acts, t);
  }
}
