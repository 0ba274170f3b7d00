/** The queue as it lies in memory: a singly linked list with `front`, `rear` and `size`, the
    capacity and the `stop` flag, and the calls that work on it in place.

    A call that sleeps frees the lock, so other threads' critical sections run before it tests
    again; `naps[i]` lists those of its i-th sleep.  A call whose naps are used up is still asleep. */
module BlockingQueue {
  import opened QueueProtocol

  /** What one critical section of another thread does to the queue.  A `stop` that is set in the
      middle of a section, after the section's last read of it, has the effect of `Stop` following
      the section. */
  datatype Section<T> = Put(data: T, len: int) | Take | Stop

  /** The queue without its nodes. */
  datatype Monitor<T> = Monitor(items: seq<(T, int)>, limit: nat, stop: bool)
  {
    predicate Valid() {
      |items| <= limit && limit >= 1
    }

    predicate Full() {
      |items| >= limit
    }
  }

  datatype Outcome<T> = NoQueue | StillAsleep | Stopped | Linked | Unlinked(data: T)

  /** A section that would have to wait, or that sees `stop`, changes nothing. */
  function Effect<T>(m: Monitor<T>, op: Section<T>): Monitor<T> {
    match op
    case Put(data, len) => if m.stop || m.Full() then m else m.(items := m.items + [(data, len)])
    case Take => if m.stop || m.items == [] then m else m.(items := m.items[1..])
    case Stop => m.(stop := true)
  }

  function Effects<T>(m: Monitor<T>, ops: seq<Section<T>>): Monitor<T> {
    if ops == [] then m else Effect(Effects(m, ops[..|ops| - 1]), ops[|ops| - 1])
  }

  /** The queue when the caller wakes from its first `n` naps. */
  function AfterNaps<T>(m: Monitor<T>, naps: seq<seq<Section<T>>>, n: nat): Monitor<T>
    requires n <= |naps|
  {
    if n == 0 then m else Effects(AfterNaps(m, naps, n - 1), naps[n - 1])
  }

  predicate Waits<T>(m: Monitor<T>, r: Role) {
    !m.stop && if r == Producer then m.Full() else m.items == []
  }

  /** What `enqueue` does: it sleeps for as long as the queue is full and not stopped; the item
      becomes the new last one if the first moment that this is over finds the queue not stopped. */
  ghost predicate PutSpec<T>(
      m: Monitor<T>, x: (T, int), naps: seq<seq<Section<T>>>, n: nat, r: Outcome<T>, m': Monitor<T>)
    requires n <= |naps|
  {
    var now := AfterNaps(m, naps, n);
    && (forall k :: 0 <= k < n ==> Waits(AfterNaps(m, naps, k), Producer))
    && match r
       case StillAsleep => n == |naps| && Waits(now, Producer) && m' == now
       case Stopped => now.stop && m' == now
       case Linked => !now.stop && !now.Full() && m' == now.(items := now.items + [x])
       case _ => false
  }

  /** What `dequeue` does; what it returns is the first item of the queue. */
  ghost predicate TakeSpec<T>(m: Monitor<T>, naps: seq<seq<Section<T>>>, n: nat, r: Outcome<T>, m': Monitor<T>)
    requires n <= |naps|
  {
    var now := AfterNaps(m, naps, n);
    && (forall k :: 0 <= k < n ==> Waits(AfterNaps(m, naps, k), Consumer))
    && match r
       case StillAsleep => n == |naps| && Waits(now, Consumer) && m' == now
       case Stopped => now.stop && m' == now
       case Unlinked(data) =>
         !now.stop && now.items != [] && data == now.items[0].0 && m' == now.(items := now.items[1..])
       case _ => false
  }

  class QueueNode<T> {
    var data: T
    var len: int
    var next: QueueNode?<T>

    constructor (data: T, len: int)
      ensures this.data == data && this.len == len && next == null
    {
      this.data, this.len, this.next := data, len, null;
    }
  }

  class Queue<T> {
    var front: QueueNode?<T>
    var rear: QueueNode?<T>
    var size: int
    var glimitSize: int
    var stop: bool
    ghost var nodes: seq<QueueNode<T>>  // the list from front to rear
    ghost var Repr: set<object>

    /** The list is acyclic, has `size` nodes, starts at `front`, ends at `rear`, and `front` and
        `rear` are null together, when it is empty; it never outgrows its capacity. */
    ghost predicate Valid()
      reads this, Repr
      ensures Valid() ==> this in Repr
    {
      && this in Repr && (forall i :: 0 <= i < |nodes| ==> nodes[i] in Repr)
      && size == |nodes|
      && size <= glimitSize && 1 <= glimitSize
      && front == (if nodes == [] then null else nodes[0])
      && rear == (if nodes == [] then null else nodes[|nodes| - 1])
      && (forall i :: 0 <= i < |nodes| - 1 ==> nodes[i].next == nodes[i + 1])
      && (nodes != [] ==> nodes[|nodes| - 1].next == null)
      && (forall i, j :: 0 <= i < j < |nodes| ==> nodes[i] != nodes[j])
    }

    ghost function View(): Monitor<T>
      requires Valid()
      reads this, Repr
    {
      Monitor(seq(|nodes|, i requires 0 <= i < |nodes| && Valid() reads this, Repr => (nodes[i].data, nodes[i].len)),
              glimitSize, stop)
    }

    constructor (size: int)
      ensures Valid() && fresh(Repr) && nodes == []
      ensures View() == Monitor([], Capacity(size), false)
      ensures glimitSize == if size > 0 then size else 0x7fff_ffff
    {
      front, rear := null, null;
      this.size := 0;
      stop := false;
      glimitSize := if size <= 0 then INT_MAX else size;
      nodes := [];
      Repr := {this};
    }

    method Link(node: QueueNode<T>)
      requires Valid() && node !in Repr && node.next == null && size < glimitSize
      modifies Repr
      ensures Valid() && nodes == old(nodes) + [node] && Repr == old(Repr) + {node}
      ensures View() == old(View()).(items := old(View()).items + [(node.data, node.len)])
    {
      if rear == null {
        front, rear := node, node;
      } else {
        rear.next := node;
        rear := node;
      }
      size := size + 1;
      nodes := nodes + [node];
      Repr := Repr + {node};
    }

    method Unlink() returns (data: T)
      requires Valid() && nodes != []
      modifies this
      ensures Valid() && nodes == old(nodes)[1..] && Repr == old(Repr)
      ensures data == old(View()).items[0].0
      ensures View() == old(View()).(items := old(View()).items[1..])
    {
      assert nodes[0].next == if |nodes| == 1 then null else nodes[1];
      var temp := front;
      data := temp.data;
      front := front.next;
      if front == null {
        rear := null;
      }
      size := size - 1;
      nodes := nodes[1..];
    }

    /** One critical section of another thread. */
    method Run(op: Section<T>)
      requires Valid()
      modifies Repr
      ensures Valid() && View() == Effect(old(View()), op)
      ensures fresh(Repr - old(Repr))
    {
      match op
      case Put(data, len) =>
        var node := new QueueNode(data, len);
        if size < glimitSize && !stop {
          Link(node);
        }
      case Take =>
        if size != 0 && !stop {
          var _ := Unlink();
        }
      case Stop =>
        stop := true;
    }

    /** The lock is free while the caller sleeps. */
    method Sleep(ops: seq<Section<T>>)
      requires Valid()
      modifies Repr
      ensures Valid() && View() == Effects(old(View()), ops)
      ensures fresh(Repr - old(Repr))
    {
      for i := 0 to |ops|
        invariant Valid() && View() == Effects(old(View()), ops[..i])
        invariant fresh(Repr - old(Repr))
      {
        assert ops[..i + 1][..i] == ops[..i];
        Run(ops[i]);
      }
      assert ops[..|ops|] == ops;
    }
  }

  /** `enqueue`; `n` is how often it slept. */
  method Enqueue<T>(q: Queue?<T>, data: T, len: int, naps: seq<seq<Section<T>>>) returns (r: Outcome<T>, n: nat)
    requires q != null ==> q.Valid()
    modifies if q == null then {} else q.Repr
    ensures q == null <==> r == NoQueue
    ensures q != null ==> q.Valid() && n <= |naps| && PutSpec(old(q.View()), (data, len), naps, n, r, q.View())
    ensures q != null ==> fresh(q.Repr - old(q.Repr))
  {
    n := 0;
    if q == null {
      return NoQueue, 0;
    }
    var newNode := new QueueNode(data, len);
    while q.size >= q.glimitSize && !q.stop
      invariant q.Valid() && n <= |naps| && q.View() == AfterNaps(old(q.View()), naps, n)
      invariant forall k :: 0 <= k < n ==> Waits(AfterNaps(old(q.View()), naps, k), Producer)
      invariant newNode !in q.Repr && newNode.next == null
      invariant newNode.data == data && newNode.len == len
      invariant fresh(q.Repr - old(q.Repr))
      decreases |naps| - n
    {
      if n == |naps| {
        return StillAsleep, n;
      }
      q.Sleep(naps[n]);
      n := n + 1;
    }
    if q.stop {
      return Stopped, n;
    }
    q.Link(newNode);
    return Linked, n;
  }

  /** `dequeue`. */
  method Dequeue<T>(q: Queue?<T>, naps: seq<seq<Section<T>>>) returns (r: Outcome<T>, n: nat)
    requires q != null ==> q.Valid()
    modifies if q == null then {} else q.Repr
    ensures q == null <==> r == NoQueue
    ensures q != null ==> q.Valid() && n <= |naps| && TakeSpec(old(q.View()), naps, n, r, q.View())
    ensures q != null ==> fresh(q.Repr - old(q.Repr))
  {
    n := 0;
    if q == null {
      return NoQueue, 0;
    }
    while q.size == 0 && !q.stop
      invariant q.Valid() && n <= |naps| && q.View() == AfterNaps(old(q.View()), naps, n)
      invariant forall k :: 0 <= k < n ==> Waits(AfterNaps(old(q.View()), naps, k), Consumer)
      invariant fresh(q.Repr - old(q.Repr))
      decreases |naps| - n
    {
      if n == |naps| {
        return StillAsleep, n;
      }
      q.Sleep(naps[n]);
      n := n + 1;
    }
    if q.stop {
      return Stopped, n;
    }
    var data := q.Unlink();
    return Unlinked(data), n;
  }

  /** The specifications leave no choice: the naps decide how often a call sleeps, what it returns
      and what it leaves behind. */
  lemma PutDetermined<T>(m: Monitor<T>, x: (T, int), naps: seq<seq<Section<T>>>,
      n1: nat, r1: Outcome<T>, m1: Monitor<T>, n2: nat, r2: Outcome<T>, m2: Monitor<T>)
    requires n1 <= |naps| && n2 <= |naps|
    requires PutSpec(m, x, naps, n1, r1, m1) && PutSpec(m, x, naps, n2, r2, m2)
    ensures n1 == n2 && r1 == r2 && m1 == m2
  {
    assert n1 < n2 ==> Waits(AfterNaps(m, naps, n1), Producer);
    assert n2 < n1 ==> Waits(AfterNaps(m, naps, n2), Producer);
  }

  lemma TakeDetermined<T>(m: Monitor<T>, naps: seq<seq<Section<T>>>,
      n1: nat, r1: Outcome<T>, m1: Monitor<T>, n2: nat, r2: Outcome<T>, m2: Monitor<T>)
    requires n1 <= |naps| && n2 <= |naps|
    requires TakeSpec(m, naps, n1, r1, m1) && TakeSpec(m, naps, n2, r2, m2)
    ensures n1 == n2 && r1 == r2 && m1 == m2
  {
    assert n1 < n2 ==> Waits(AfterNaps(m, naps, n1), Consumer);
    assert n2 < n1 ==> Waits(AfterNaps(m, naps, n2), Consumer);
  }

  /** Once `stop` is set no call sleeps any more, whatever happens meanwhile. */
  lemma {:induction false} StopIsForever<T>(m: Monitor<T>, naps: seq<seq<Section<T>>>, n: nat)
    requires n <= |naps| && m.stop
    ensures AfterNaps(m, naps, n).stop && AfterNaps(m, naps, n).items == m.items
  {
    if n > 0 {
      StopIsForever(m, naps, n - 1);
      StoppedEffects(AfterNaps(m, naps, n - 1), naps[n - 1]);
    }
  }

  lemma {:induction false} StoppedEffects<T>(m: Monitor<T>, ops: seq<Section<T>>)
    requires m.stop
    ensures Effects(m, ops) == m
  {
    if ops != [] {
      StoppedEffects(m, ops[..|ops| - 1]);
    }
  }
}
