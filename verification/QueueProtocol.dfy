/** The bounded blocking queue as a system of interleaved steps.

    A thread makes a list of calls, all `enqueue` or all `dequeue`.  Each step is the code between
    two points where another thread may act: the lock is taken, the loop test is made, the thread
    falls asleep (which frees the lock), `stop` is read again, the list is changed, the lock is
    freed, the wake-up is issued.  One further thread may call `destroyQueue`, which writes `stop`
    before it takes the lock. */
module QueueProtocol {

  const INT_MAX := 0x7fff_ffff

  datatype Role = Producer | Consumer

  function Other(r: Role): Role {
    if r == Producer then Consumer else Producer
  }

  /** Where a thread stands.  From `AtTest` to `AtUnlock`, and at `AtBail`, it holds the lock. */
  datatype PC =
    | Outside      // between two calls
    | AtTest       // about to make the loop test
    | AtSleep      // the test said wait; about to sleep, still holding the lock
    | Asleep
    | Woken        // woken, has to take the lock again
    | AtStopCheck  // left the loop, about to read stop a second time
    | AtList       // about to link or unlink a node
    | AtUnlock     // list changed, lock still held
    | AtWake       // lock freed, wake-up not yet issued
    | AtBail       // saw stop, about to free the lock and return

  predicate Inside(pc: PC) {
    pc.AtTest? || pc.AtSleep? || pc.AtStopCheck? || pc.AtList? || pc.AtUnlock? || pc.AtBail?
  }

  /** `puts` (for a producer) and `gets` (for a consumer) are the calls not yet carried out,
      `log` what the completed `dequeue` calls returned, `bailed` the calls that returned because
      of `stop`.  `woke` says that the thread came to its current test from a sleep. */
  datatype Thread<T> = Thread(
    role: Role, pc: PC, woke: bool, puts: seq<T>, gets: nat, log: seq<T>, bailed: nat)
  {
    function Left(): nat {
      if role == Producer then |puts| else gets
    }
  }

  datatype Owner = Free | Held(t: nat) | HeldByDestroyer

  /** The progress of the `destroyQueue` call. */
  datatype Destroyer = NotCalled | Ready | StopSet | Locked | WokeEmpty | WokeFull | Gone

  predicate DestroyerInside(d: Destroyer) {
    d.Locked? || d.WokeEmpty? || d.WokeFull?
  }

  /** `sent` and `taken` are histories: who linked what, who unlinked what.  `fault` records an
      unlink from an empty list, a null pointer dereference in the program. */
  datatype State<T> = State(
    limit: nat, stop: bool, owner: Owner, items: seq<T>, threads: seq<Thread<T>>,
    destroyer: Destroyer, sent: seq<(nat, T)>, taken: seq<(nat, T)>, fault: bool)

  datatype Action = Run(t: nat, choice: nat) | Spurious(t: nat) | Destroy

  /** `glimitSize` as `createQueue(size)` sets it. */
  function Capacity(size: int): (limit: nat)
    ensures 1 <= limit && size <= limit
    ensures size > 0 ==> limit <= size
    ensures size <= 0 ==> limit == 0x7fff_ffff
  {
    if size <= 0 then INT_MAX else size
  }

  ghost predicate Init<T(!new)>(s: State<T>, size: int) {
    && s.limit == Capacity(size) && !s.stop && s.owner == Free && s.items == []
    && (forall t :: 0 <= t < |s.threads| ==> Fresh(s.threads[t]))
    && (s.destroyer == NotCalled || s.destroyer == Ready)
    && s.sent == [] && s.taken == [] && !s.fault
  }

  predicate Fresh<T>(th: Thread<T>) {
    th.pc == Outside && !th.woke && th.log == [] && th.bailed == 0
  }

  /** The first half of the loop test. */
  predicate MustWait<T>(s: State<T>, r: Role) {
    if r == Producer then |s.items| >= s.limit else |s.items| == 0
  }

  predicate Sleeper<T>(s: State<T>, r: Role, t: nat) {
    t < |s.threads| && s.threads[t].role == r && s.threads[t].pc == Asleep
  }

  ghost predicate NoSleeper<T>(s: State<T>, r: Role) {
    forall t: nat :: !Sleeper(s, r, t)
  }

  ghost predicate Enabled<T>(s: State<T>, a: Action) {
    match a
    case Run(t, c) =>
      t < |s.threads| &&
      (match s.threads[t].pc
       case Outside => s.threads[t].Left() > 0 && s.owner == Free
       case Woken => s.owner == Free
       case Asleep => false
       case AtWake =>
         var r := Other(s.threads[t].role);
         Sleeper(s, r, c) || NoSleeper(s, r)
       case _ => s.owner == Held(t))
    case Spurious(t) => t < |s.threads| && s.threads[t].pc == Asleep
    case Destroy =>
      match s.destroyer
      case NotCalled => false
      case StopSet => s.owner == Free
      case Gone => false
      case _ => true
  }

  function Wake<T>(th: Thread<T>): Thread<T> {
    th.(pc := Woken, woke := true)
  }

  function WakeAll<T>(ts: seq<Thread<T>>, r: Role): (ws: seq<Thread<T>>)
    ensures |ws| == |ts|
    ensures forall i :: 0 <= i < |ts| ==>
      ws[i] == if ts[i].role == r && ts[i].pc == Asleep then Wake(ts[i]) else ts[i]
  {
    if ts == [] then []
    else
      [if ts[0].role == r && ts[0].pc == Asleep then Wake(ts[0]) else ts[0]] + WakeAll(ts[1..], r)
  }

  /** Thread `t` is about to link its node; to unlink the first node. */
  predicate Links<T>(s: State<T>, t: nat)
    requires t < |s.threads|
  {
    s.threads[t].pc == AtList && s.threads[t].role == Producer && s.threads[t].puts != []
  }

  predicate Unlinks<T>(s: State<T>, t: nat)
    requires t < |s.threads|
  {
    s.threads[t].pc == AtList && s.threads[t].role == Consumer && s.threads[t].gets > 0 && s.items != []
  }

  /** Drops the first call still to make. */
  function DropCall<T>(th: Thread<T>): Thread<T> {
    if th.Left() == 0 then th
    else if th.role == Producer then th.(puts := th.puts[1..])
    else th.(gets := th.gets - 1)
  }

  /** Thread `t` after its next step. */
  function NextThread<T>(s: State<T>, t: nat): Thread<T>
    requires t < |s.threads|
  {
    var th := s.threads[t];
    match th.pc
    case Outside => th.(pc := AtTest, woke := false)
    case AtTest => th.(pc := if MustWait(s, th.role) && !s.stop then AtSleep else AtStopCheck)
    case AtSleep => th.(pc := Asleep)
    case Asleep => th
    case Woken => th.(pc := AtTest)
    case AtStopCheck => th.(pc := if s.stop then AtBail else AtList)
    case AtList =>
      if Links(s, t) then DropCall(th).(pc := AtUnlock)
      else if Unlinks(s, t) then DropCall(th).(pc := AtUnlock, log := th.log + [s.items[0]])
      else th
    case AtUnlock => th.(pc := AtWake)
    case AtWake => th.(pc := Outside)
    case AtBail => DropCall(th).(pc := Outside, bailed := th.bailed + 1)
  }

  function NextOwner<T>(s: State<T>, t: nat): Owner
    requires t < |s.threads|
  {
    var pc := s.threads[t].pc;
    if pc.Outside? || pc.Woken? then Held(t)
    else if pc.AtSleep? || pc.AtUnlock? || pc.AtBail? then Free
    else s.owner
  }

  /** Whether the step of thread `t` wakes thread `c`. */
  predicate Wakes<T>(s: State<T>, t: nat, c: nat)
    requires t < |s.threads|
  {
    s.threads[t].pc == AtWake && Sleeper(s, Other(s.threads[t].role), c)
  }

  /** One step of thread `t`; `c` is the thread that a wake-up picks. */
  function StepThread<T>(s: State<T>, t: nat, c: nat): State<T>
    requires t < |s.threads|
  {
    var ts := s.threads[t := NextThread(s, t)];
    var s' := s.(owner := NextOwner(s, t), threads := if Wakes(s, t, c) then ts[c := Wake(ts[c])] else ts);
    if Links(s, t) then
      s'.(items := s.items + [s.threads[t].puts[0]], sent := s.sent + [(t, s.threads[t].puts[0])])
    else if Unlinks(s, t) then
      s'.(items := s.items[1..], taken := s.taken + [(t, s.items[0])])
    else
      s'.(fault := s.fault || s.threads[t].pc == AtList)
  }

  function StepDestroyer<T>(s: State<T>): State<T> {
    match s.destroyer
    case Ready => s.(stop := true, destroyer := StopSet)
    case StopSet => s.(owner := HeldByDestroyer, destroyer := Locked)
    case Locked => s.(threads := WakeAll(s.threads, Consumer), destroyer := WokeEmpty)
    case WokeEmpty => s.(threads := WakeAll(s.threads, Producer), destroyer := WokeFull)
    case WokeFull => s.(owner := Free, destroyer := Gone)
    case NotCalled => s
    case Gone => s
  }

  function Apply<T>(s: State<T>, a: Action): State<T> {
    match a
    case Run(t, c) => if t < |s.threads| then StepThread(s, t, c) else s
    case Spurious(t) =>
      if t < |s.threads| then s.(threads := s.threads[t := Wake(s.threads[t])]) else s
    case Destroy => StepDestroyer(s)
  }

  /** A run: any sequence of enabled steps, in any interleaving. */
  ghost predicate ValidRun<T>(s: State<T>, acts: seq<Action>)
    decreases |acts|
  {
    acts == [] || (Enabled(s, acts[0]) && ValidRun(Apply(s, acts[0]), acts[1..]))
  }

  function Final<T>(s: State<T>, acts: seq<Action>): State<T>
    decreases |acts|
  {
    if acts == [] then s else Final(Apply(s, acts[0]), acts[1..])
  }

  /** Quantities summed over all threads. */
  datatype Gauge = Credit(r: Role) | Pending(r: Role) | Bailed(r: Role) | Weight

  /** A thread is worth one credit towards waking the sleepers of role `r` if it is of role `r`,
      has been woken and has not yet used what it was woken for, or if it is of the other role,
      has changed the list and has not yet issued its wake-up. */
  predicate HasCredit<T>(th: Thread<T>, r: Role) {
    if th.role == r
    then th.pc == Woken || (th.woke && (th.pc == AtTest || th.pc == AtStopCheck || th.pc == AtList))
    else th.pc == AtUnlock || th.pc == AtWake
  }

  function Rank(pc: PC): nat {
    match pc
    case AtUnlock => 10
    case AtWake => 9
    case AtBail => 1
    case Outside => 5
    case Woken => 4
    case AtTest => 3
    case AtSleep => 2
    case AtStopCheck => 2
    case AtList => 1
    case Asleep => 1
  }

  function Value<T>(th: Thread<T>, g: Gauge): nat {
    match g
    case Credit(r) => if HasCredit(th, r) then 1 else 0
    case Pending(r) => if th.role == r then th.Left() else 0
    case Bailed(r) => if th.role == r then th.bailed else 0
    case Weight => 10 * th.Left() + Rank(th.pc)
  }

  function Total<T>(ts: seq<Thread<T>>, g: Gauge): nat {
    if ts == [] then 0 else Value(ts[0], g) + Total(ts[1..], g)
  }

  lemma {:induction false} TotalUpdate<T>(ts: seq<Thread<T>>, i: nat, th: Thread<T>, g: Gauge)
    requires i < |ts|
    ensures Total(ts[i := th], g) == Total(ts, g) - Value(ts[i], g) + Value(th, g)
  {
    if i == 0 {
      assert ts[0 := th][1..] == ts[1..];
    } else {
      TotalUpdate(ts[1..], i - 1, th, g);
      assert ts[i := th][1..] == ts[1..][i - 1 := th];
    }
  }

  lemma {:induction false} TotalAtLeast<T>(ts: seq<Thread<T>>, i: nat, g: Gauge)
    requires i < |ts|
    ensures Total(ts, g) >= Value(ts[i], g)
  {
    if i != 0 {
      TotalAtLeast(ts[1..], i - 1, g);
    }
  }

  lemma {:induction false} TotalZero<T>(ts: seq<Thread<T>>, g: Gauge)
    requires forall i :: 0 <= i < |ts| ==> Value(ts[i], g) == 0
    ensures Total(ts, g) == 0
  {
    if ts != [] {
      TotalZero(ts[1..], g);
    }
  }

  /** Waking everybody costs at most three units of weight a thread, and leaves the counts of
      calls alone. */
  lemma {:induction false} TotalWakeAll<T>(ts: seq<Thread<T>>, r: Role, g: Gauge)
    requires !g.Credit?
    ensures Total(WakeAll(ts, r), g) <= Total(ts, g) + (if g.Weight? then 3 * |ts| else 0)
    ensures !g.Weight? ==> Total(WakeAll(ts, r), g) == Total(ts, g)
  {
    if ts != [] {
      TotalWakeAll(ts[1..], r, g);
      assert WakeAll(ts, r)[1..] == WakeAll(ts[1..], r);
    }
  }

  /** The items of a history, and those of one thread. */
  function Items<T>(h: seq<(nat, T)>): (r: seq<T>)
    ensures |r| == |h|
    ensures forall i :: 0 <= i < |h| ==> r[i] == h[i].1
  {
    if h == [] then [] else [h[0].1] + Items(h[1..])
  }

  function Of<T>(h: seq<(nat, T)>, t: nat): seq<T> {
    if h == [] then []
    else if h[|h| - 1].0 == t then Of(h[..|h| - 1], t) + [h[|h| - 1].1]
    else Of(h[..|h| - 1], t)
  }

  lemma ItemsAppend<T>(h: seq<(nat, T)>, e: (nat, T))
    ensures Items(h + [e]) == Items(h) + [e.1]
  {
  }

  lemma OfAppend<T>(h: seq<(nat, T)>, e: (nat, T), t: nat)
    ensures Of(h + [e], t) == if e.0 == t then Of(h, t) + [e.1] else Of(h, t)
  {
    assert (h + [e])[..|h|] == h;
  }
}
