/** The receive pipeline delivers: it stops when the system sends it nothing more, and then, unless
    its completion thread has ended, the callback has seen everything received. */
module PipelineLiveness {
  import opened Common
  import opened Pipeline
  import Q = QueueProtocol
  import S = QueueSafety
  import L = QueueLiveness

  // ---- A potential that only events from outside raise -------------------------------------

  function CompleterPotential(ct: Completer): nat {
    match ct
    case Got(_, _) => 30
    case Copied(_, _) => 29
    case Enqueuing(_) => 3
    case Rearming(_) => 2
    case Waiting(_) => 1
    case Ended(_) => 0
  }

  function HandlerPotential(h: Handler, gets: nat): nat {
    match h
    case Calling => 12
    case Holding(_) => 13
    case Dequeuing => if gets == 0 then 14 else 1
  }

  /** A chunk weighs the less the further it has got. */
  function Potential(s: State): nat
    requires |s.q.threads| == 2
  {
    L.Measure(s.q) + 14 * |s.q.items| + 15 * |s.q.threads[0].puts| + 31 * |s.port|
    + CompleterPotential(s.completer) + HandlerPotential(s.handler, s.q.threads[1].gets)
  }

  /** What the environment does. */
  predicate FromOutside(e: Event) {
    e.Accept? || e.Post? || e.PostFailure? || e.PortFails? || (e.Queue? && e.a.Spurious?)
  }

  /** The number of steps that an event from outside can bring about, itself included. */
  function Input(e: Event): nat {
    match e
    case Accept => 1
    case Post(_, _) => 32
    case PostFailure(_) => 32
    case Queue(a) => if a.Spurious? then 4 else 0
    case _ => 0
  }

  function Inputs(es: seq<Event>): nat {
    if es == [] then 0 else Input(es[0]) + Inputs(es[1..])
  }

  lemma QueueLengths(q: Q.State<Chunk>)
    requires QueueOk(q)
    ensures |q.sent| == |q.threads[1].log| + |q.items|
  {
    assert |Q.Items(q.sent)| == |Q.Items(q.taken)| + |q.items|;
  }

  /** A step of the queue keeps the number of chunks; they only move forward. */
  lemma QueueCounts(q: Q.State<Chunk>, a: Q.Action)
    requires QueueOk(q) && Q.Enabled(q, a)
    ensures |Q.Apply(q, a).threads| == 2
    ensures var q' := Q.Apply(q, a);
      var (puts, puts') := (|q.threads[0].puts|, |q'.threads[0].puts|);
      var (th, th') := (q.threads[1], q'.threads[1]);
      && |q'.items| + puts' + |th'.log| == |q.items| + puts + |th.log| && puts' <= puts
      && (|| (th'.gets == th.gets && |th'.log| == |th.log|)
          || (th.gets > 0 && th'.gets == th.gets - 1 && |th'.log| == |th.log| + 1))
  {
    var q' := Q.Apply(q, a);
    QueueStep(q, a);
    QueueLengths(q);
    QueueLengths(q');
    assert |Q.Items(q'.sent) + q'.threads[0].puts| == |Q.Items(q.sent) + q.threads[0].puts|;
  }

  lemma QueueEventPotential(s: State, a: Q.Action)
    requires QueueOk(s.q) && HandedOn(s) && Q.Enabled(s.q, a)
    ensures |Q.Apply(s.q, a).threads| == 2
    ensures Potential(s.(q := Q.Apply(s.q, a))) + 1 <= Potential(s) + Input(Queue(a))
  {
    QueueCounts(s.q, a);
    L.MeasureStep(s.q, a);
  }

  /** A call given to a thread weighs ten units. */
  lemma MoreCallsWeigh(q: Q.State<Chunk>, t: nat, th: Q.Thread<Chunk>)
    requires t < |q.threads| && th.pc == q.threads[t].pc && th.Left() == q.threads[t].Left() + 1
    ensures L.Measure(q.(threads := q.threads[t := th])) == L.Measure(q) + 10
  {
    Q.TotalUpdate(q.threads, t, th, Q.Weight);
  }

  lemma CallPotential(s: State, e: Event)
    requires |s.q.threads| == 2 && Shape(s.q) && HandedOn(s) && Enabled(s, e)
    requires e.CallEnqueue? || e.CallDequeue?
    ensures |Next(s, e).q.threads| == 2 && Potential(Next(s, e)) + 1 <= Potential(s)
  {
    var t := if e.CallEnqueue? then 0 else 1;
    MoreCallsWeigh(s.q, t, Next(s, e).q.threads[t]);
  }

  lemma OtherPotential(s: State, e: Event)
    requires |s.q.threads| == 2 && Shape(s.q) && Enabled(s, e)
    requires !e.Queue? && !e.CallEnqueue? && !e.CallDequeue?
    ensures Next(s, e).q == s.q && Potential(Next(s, e)) + 1 <= Potential(s) + Input(e)
  {
  }

  lemma StepPotential(s: State, e: Event)
    requires PipelineOk(s) && Enabled(s, e)
    ensures |Next(s, e).q.threads| == 2 && Potential(Next(s, e)) + 1 <= Potential(s) + Input(e)
  {
    if e.Queue? {
      QueueEventPotential(s, e.a);
    } else if e.CallEnqueue? || e.CallDequeue? {
      CallPotential(s, e);
    } else {
      OtherPotential(s, e);
    }
  }

  lemma {:induction false} RunPotential(s: State, es: seq<Event>, s': State)
    requires PipelineOk(s) && Reaches(s, es, s')
    ensures |s'.q.threads| == 2 && |es| + Potential(s') <= Potential(s) + Inputs(es)
    decreases |es|
  {
    if es != [] {
      StepPotential(s, es[0]);
      StepOk(s, es[0]);
      RunPotential(Next(s, es[0]), es[1..], s');
    }
  }

  // ---- Where it stops ----------------------------------------------------------------------

  /** Nothing more happens by itself. */
  ghost predicate Idle(s: State)
    requires |s.q.threads| == 2
  {
    forall e: Event :: !FromOutside(e) ==> !Enabled(s, e)
  }

  lemma IdleQueue(s: State)
    requires |s.q.threads| == 2 && Idle(s)
    ensures L.Quiescent(s.q)
  {
    forall a: Q.Action | !a.Spurious?
      ensures !Q.Enabled(s.q, a)
    {
      assert !Enabled(s, Queue(a));
    }
  }

  /** The handler sleeps in `dequeue`, on an empty queue. */
  lemma IdleHandler(s: State)
    requires QueueOk(s.q) && HandedOn(s) && Idle(s)
    ensures s.handler == Dequeuing && s.q.threads[1].gets == 1 && s.q.items == [] && Returned(s.q.threads[0])
  {
    var q := s.q;
    IdleQueue(s);
    assert !Enabled(s, CallDequeue) && !Enabled(s, Callback) && !Enabled(s, DequeueReturns);
    L.QuiescentThread(q, 0);
    L.QuiescentThread(q, 1);
    if Returned(q.threads[1]) {
      ReturnedChunk(s);
    }
    assert Q.Sleeper(q, Q.Consumer, 1) && S.ThreadOk(q, q.threads[1]);
    L.QuiescentRole(q, Q.Consumer);
    L.QuiescentRole(q, Q.Producer);
    assert !Q.Sleeper(q, Q.Producer, 0);
  }

  /** The completion thread is at the port, with nothing there, or has ended. */
  lemma IdleCompleter(s: State)
    requires |s.q.threads| == 2 && PortOk(s) && Idle(s) && Returned(s.q.threads[0])
    ensures s.completer.Ended? || (s.completer.Waiting? && s.port == [])
  {
    assert !Enabled(s, Get) && !Enabled(s, CloseClient) && !Enabled(s, Copy);
    assert !Enabled(s, CallEnqueue) && !Enabled(s, EnqueueReturns) && !Enabled(s, Rearm(true));
    assert s.port != [] ==> Fits(s.clients, s.port[0]);
  }

  /** What has been received has been handed on, but for what a thread that has ended left in the
      clients' buffers. */
  lemma IdleDelivers(s: State)
    requires PipelineOk(s) && Idle(s)
    ensures NonEmpty(s.posted) == s.handed + PortBytes(s.clients, s.port) && s.delivered == CutAll(s.handed)
    ensures !s.completer.Ended? ==> s.port == []
  {
    IdleHandler(s);
    IdleCompleter(s);
    assert Q.Items(s.q.sent) == Q.Items(s.q.taken) + s.q.items == s.handed;
    assert s.q.threads[0].puts == [];
  }

  /** The completion thread has had no reason to end. */
  predicate NoFailures(es: seq<Event>) {
    forall e :: e in es ==> !e.PortFails? && !e.PostFailure? && e != Rearm(false)
  }

  predicate Going(s: State) {
    !s.completer.Ended? && forall i :: 0 <= i < |s.port| ==> s.port[i].Received?
  }

  lemma {:induction false} KeepsGoing(s: State, es: seq<Event>, s': State)
    requires Going(s) && Reaches(s, es, s') && NoFailures(es)
    ensures Going(s')
    decreases |es|
  {
    if es != [] {
      assert es[0] in es;
      KeepsGoing(Next(s, es[0]), es[1..], s');
    }
  }

  /** In every run there are at most 23 steps more than the events from outside account for; and when
      nothing more happens in a run without failures, the callback has seen every chunk received, in
      order, each up to its first zero, and nothing else. */
  lemma EverythingDelivered(s: State, es: seq<Event>, s': State)
    requires Start(s) && Reaches(s, es, s')
    ensures |s'.q.threads| == 2 && |es| <= 23 + Inputs(es)
    ensures Idle(s') && NoFailures(es) ==> s'.delivered == CutAll(NonEmpty(Incoming(es)))
  {
    StartOk(s);
    RunOk(s, es, s');
    RunPotential(s, es, s');
    StartPotential(s);
    if Idle(s') && NoFailures(es) {
      KeepsGoing(s, es, s');
      IdleDelivers(s');
      PostedFromStart(s, es, s');
    }
  }

  lemma StartPotential(s: State)
    requires Start(s)
    ensures Potential(s) == 23
  {
    assert Q.Fresh(s.q.threads[0]) && Q.Fresh(s.q.threads[1]);
    var ts := s.q.threads;
    assert ts[1..][1..] == [];
    assert Q.Total(ts[1..], Q.Weight) == 5;
  }

  lemma StepInside(s: State) returns (e: Event)
    requires PipelineOk(s) && !Idle(s)
    ensures Enabled(s, e) && !FromOutside(e) && e != Rearm(false)
  {
    e :| !FromOutside(e) && Enabled(s, e);
    if e == Rearm(false) {
      e := Rearm(true);
    }
  }

  /** Such a state can be reached from everywhere. */
  lemma {:induction false} Settles(s: State) returns (es: seq<Event>, s': State)
    requires PipelineOk(s)
    ensures Reaches(s, es, s') && |s'.q.threads| == 2 && Idle(s')
    ensures forall e :: e in es ==> !FromOutside(e) && e != Rearm(false)
    decreases Potential(s)
  {
    if Idle(s) {
      es, s' := [], s;
    } else {
      var e := StepInside(s);
      StepPotential(s, e);
      StepOk(s, e);
      var rest;
      rest, s' := Settles(Next(s, e));
      es := [e] + rest;
      assert es[0] == e && es[1..] == rest;
    }
  }

  // ---- A port failure that frees a client in use -------------------------------------------

  lemma ReachesFirst(s: State, e: Event, es: seq<Event>, s': State)
    requires |s.q.threads| == 2 && Enabled(s, e) && Reaches(Next(s, e), es, s')
    ensures Reaches(s, [e] + es, s')
  {
    assert ([e] + es)[1..] == es;
  }

  lemma HeadFirst<T>(x: seq<T>, y: seq<T>)
    requires x != []
    ensures x + y == [x[0]] + (x[1..] + y)
  {
  }

  lemma {:induction false} ReachesOn(s: State, es: seq<Event>, mid: State, fs: seq<Event>, s': State)
    requires Reaches(s, es, mid) && Reaches(mid, fs, s')
    ensures Reaches(s, es + fs, s')
    decreases |es|
  {
    if es == [] {
      assert es + fs == fs;
    } else {
      ReachesOn(Next(s, es[0]), es[1..], mid, fs, s');
      ReachesFirst(s, es[0], es[1..] + fs, s');
      HeadFirst(es, fs);
    }
  }

  /** The one byte of the one client is at the port or in work, or its receive is armed again. */
  predicate OneOnTheWay(s: State) {
    match s.completer
    case Waiting(last) => s.port == (if last == None then [Received(0, 1)] else []) && (last == None || last == Some(0))
    case Got(c, n) => s.port == [] && c == 0 && n == 1
    case Copied(c, _) => s.port == [] && c == 0
    case Enqueuing(c) => s.port == [] && c == 0
    case Rearming(c) => s.port == [] && c == 0
    case Ended(_) => false
  }

  lemma {:induction false} StaysOnTheWay(s: State, es: seq<Event>, s': State)
    requires OneOnTheWay(s) && Reaches(s, es, s')
    requires forall e :: e in es ==> !FromOutside(e) && e != Rearm(false)
    ensures OneOnTheWay(s')
    decreases |es|
  {
    if es != [] {
      assert es[0] in es;
      StaysOnTheWay(Next(s, es[0]), es[1..], s');
    }
  }

  lemma FirstByte(s: State) returns (s': State)
    requires Start(s)
    ensures Reaches(s, [Accept, Post(0, [1])], s') && PipelineOk(s') && OneOnTheWay(s')
  {
    StartOk(s);
    var s1, post := Next(s, Accept), Post(0, [1]);
    StepOk(s, Accept);
    StepOk(s1, post);
    s' := Next(s1, post);
    ReachesFirst(s1, post, [], s');
    ReachesFirst(s, Accept, [post], s');
    assert [post] + [] == [post] && [Accept] + [post] == [Accept, post];
  }

  lemma FailsInUse(s: State) returns (s': State)
    requires PipelineOk(s) && Idle(s) && OneOnTheWay(s)
    ensures Reaches(s, [PortFails], s') && !NoneFreedInUse(s')
  {
    IdleHandler(s);
    IdleCompleter(s);
    s' := Next(s, PortFails);
    StepOk(s, PortFails);
    FreedIffEnded(s');
    ReachesFirst(s, PortFails, [], s');
    assert [PortFails] + [] == [PortFails];
  }

  /** From every start: a client connects and sends a byte, the byte is passed on and the receive armed
      again, and the port fails: the client is freed with its receive outstanding. */
  lemma FreedInUse(s: State) returns (es: seq<Event>, s': State)
    requires Start(s)
    ensures Reaches(s, es, s') && FailsHolding(s, es) && !NoneFreedInUse(s')
  {
    var first: seq<Event> := [Accept, Post(0, [1])];
    var s1 := FirstByte(s);
    var middle, s2 := Settles(s1);
    StaysOnTheWay(s1, middle, s2);
    RunOk(s1, middle, s2);
    s' := FailsInUse(s2);
    ReachesOn(s, first, s1, middle, s2);
    ReachesOn(s, first + middle, s2, [PortFails], s');
    es := first + middle + [PortFails];
    FreedInUseIff(s, es, s');
  }
}
