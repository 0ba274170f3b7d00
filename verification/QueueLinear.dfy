/** The step system and the queue in memory are the same queue.  Every step of the protocol is, to
    the list, no section, one section, or one section and a `Stop`, so every run of the protocol is
    a sequence of the sections that a sleeping call of the in-memory queue may wake up to.

    A `stop` that is written while a thread stands between its second test and its link or unlink
    is not read by that thread any more: it counts from the end of that step on. */
module QueueLinear {
  import opened QueueProtocol
  import opened QueueSafety
  import B = BlockingQueue

  type System<T> = State<(T, int)>

  /** Some thread is about to change the list. */
  predicate Midway<T>(s: System<T>) {
    s.owner.Held? && s.owner.t < |s.threads| && s.threads[s.owner.t].pc == AtList
  }

  function Seen<T>(s: System<T>): B.Monitor<T> {
    B.Monitor(s.items, s.limit, s.stop && !Midway(s))
  }

  function Sections<T>(s: System<T>, a: Action): seq<B.Section<T>> {
    match a
    case Run(t, _) =>
      if t >= |s.threads| || s.threads[t].pc != AtList then []
      else
        (if Links(s, t) then [B.Put(s.threads[t].puts[0].0, s.threads[t].puts[0].1)]
         else if Unlinks(s, t) then [B.Take]
         else [])
        + (if s.stop then [B.Stop] else [])
    case Spurious(_) => []
    case Destroy => if s.destroyer == Ready && !Midway(s) then [B.Stop] else []
  }

  lemma {:induction false} EffectsConcat<T>(m: B.Monitor<T>, x: seq<B.Section<T>>, y: seq<B.Section<T>>)
    ensures B.Effects(m, x + y) == B.Effects(B.Effects(m, x), y)
  {
    if y == [] {
      assert x + y == x;
    } else {
      var z := y[..|y| - 1];
      EffectsConcat(m, x, z);
      assert (x + y)[..|x + y| - 1] == x + z;
    }
  }

  lemma OneSection<T>(m: B.Monitor<T>, op: B.Section<T>)
    ensures B.Effects(m, [op]) == B.Effect(m, op)
  {
    assert [op][..0] == [];
  }

  /** Whoever is about to test is alone, so nobody is midway, and what it reads is what is seen. */
  lemma TestsAgree<T>(s: System<T>, t: nat)
    requires LockOk(s) && t < |s.threads|
    requires s.threads[t].pc == AtTest || s.threads[t].pc == AtStopCheck
    ensures Seen(s).stop == s.stop
    ensures (MustWait(s, s.threads[t].role) && !s.stop) <==> B.Waits(Seen(s), s.threads[t].role)
  {
    assert Inside(s.threads[t].pc) <==> s.owner == Held(t);
  }

  lemma ListStep<T>(s: System<T>, t: nat, c: nat)
    requires Inv(s) && Enabled(s, Run(t, c)) && s.threads[t].pc == AtList
    ensures Seen(StepThread(s, t, c)) == B.Effects(Seen(s), Sections(s, Run(t, c)))
  {
    var s', m := StepThread(s, t, c), Seen(s);
    var th := s.threads[t];
    assert ThreadOk(s, th);
    RunFrame(s, t, c);
    assert Midway(s) && !Midway(s') && !m.stop;
    var op: B.Section<T> := if th.role == Producer then B.Put(th.puts[0].0, th.puts[0].1) else B.Take;
    OneSection(m, op);
    assert B.Effect(m, op) == m.(items := s'.items);
    if s.stop {
      EffectsConcat(m, [op], [B.Stop]);
      OneSection(B.Effect(m, op), B.Stop);
    } else {
      assert Sections(s, Run(t, c)) == [op];
    }
  }

  lemma OtherStep<T>(s: System<T>, t: nat, c: nat)
    requires Inv(s) && Enabled(s, Run(t, c)) && s.threads[t].pc != AtList
    ensures Seen(StepThread(s, t, c)) == Seen(s)
  {
    var s' := StepThread(s, t, c);
    RunFrame(s, t, c);
    assert ThreadOk(s, s.threads[t]);
    assert Inside(s.threads[t].pc) <==> s.owner == Held(t);
    assert Midway(s) ==> s.threads[t].pc == AtWake;
    assert Midway(s') ==> Midway(s) || !s.stop;
  }

  lemma StepIsSections<T>(s: System<T>, a: Action)
    requires Inv(s) && Enabled(s, a)
    ensures Seen(Apply(s, a)) == B.Effects(Seen(s), Sections(s, a))
  {
    match a
    case Run(t, c) =>
      if s.threads[t].pc == AtList {
        ListStep(s, t, c);
      } else {
        OtherStep(s, t, c);
      }
    case Spurious(t) =>
      assert Inside(s.threads[t].pc) <==> s.owner == Held(t);
    case Destroy =>
      OneSection(Seen(s), B.Stop);
      if s.owner.Held? {
        assert s.destroyer == Ready || s.destroyer == StopSet;
      }
  }

  function AllSections<T>(s: System<T>, acts: seq<Action>): seq<B.Section<T>>
    decreases |acts|
  {
    if acts == [] then [] else Sections(s, acts[0]) + AllSections(Apply(s, acts[0]), acts[1..])
  }

  /** Any run between two moments is to the queue what its sections are. */
  lemma {:induction false} RunIsSections<T>(s: System<T>, acts: seq<Action>)
    requires Inv(s) && ValidRun(s, acts)
    ensures Seen(Final(s, acts)) == B.Effects(Seen(s), AllSections(s, acts))
    decreases |acts|
  {
    if acts != [] {
      StepIsSections(s, acts[0]);
      InvStep(s, acts[0]);
      RunIsSections(Apply(s, acts[0]), acts[1..]);
      EffectsConcat(Seen(s), Sections(s, acts[0]), AllSections(Apply(s, acts[0]), acts[1..]));
    }
  }

  /** From a new queue on, the list that the step system speaks of is the one in memory. */
  lemma ProtocolRefines<T(!new)>(s0: System<T>, size: int, acts: seq<Action>)
    requires Init(s0, size) && ValidRun(s0, acts)
    ensures var start: B.Monitor<T> := B.Monitor([], Capacity(size), false);
      Seen(Final(s0, acts)) == B.Effects(start, AllSections(s0, acts))
  {
    InitInv(s0, size);
    RunIsSections(s0, acts);
  }
}
