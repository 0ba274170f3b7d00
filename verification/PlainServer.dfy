/** `ServerThread`: one array of sockets and a counter that outlives the call.  Every ready socket is
    read once a turn; a failing `accept` or an "exit" message ends the loop, and then all sockets
    still in the table are closed. */
module PlainServer {
  import opened ConnTables

  /** What a slot's socket has to say in a turn. */
  datatype Receipt = NotReady | Disconnected | Message(exit: bool)

  datatype PlainRound = PlainRound(incoming: Incoming, receipts: seq<Receipt>)

  predicate RoundsFor(rs: seq<PlainRound>, n: nat) {
    forall r :: r in rs ==> |r.receipts| == n
  }

  /** The table and whether the loop has been left. */
  datatype Progress = Progress(table: Table, ended: bool)

  function ReceiveOne(p: Progress, i: nat, r: Receipt): Progress
    requires i < |p.table.slots|
  {
    if p.ended || p.table.slots[i].Empty? then p
    else if r == Disconnected then p.(table := Drop(p.table, i))
    else p.(ended := r == Message(true))
  }

  function Receive(t: Table, rs: seq<Receipt>): (p: Progress)
    requires |rs| <= |t.slots|
    ensures |p.table.slots| == |t.slots|
  {
    if rs == [] then Progress(t, false)
    else ReceiveOne(Receive(t, rs[..|rs| - 1]), |rs| - 1, rs[|rs| - 1])
  }

  /** One turn, when the counter stood at `base` with the table empty. */
  function PlainTurn(t: Table, base: nat, r: PlainRound): (p: Progress)
    requires |r.receipts| == |t.slots|
    ensures |p.table.slots| == |t.slots|
  {
    if r.incoming.AcceptFailed? then Progress(t, true)
    else
      var t1 := if r.incoming.Accepted?
                then Arrive(t, r.incoming.socket, Established(r.incoming.socket), base + Used(t.slots) == |t.slots|)
                else t;
      Receive(t1, r.receipts)
  }

  function PlainTurns(t: Table, base: nat, rs: seq<PlainRound>): (p: Progress)
    requires RoundsFor(rs, |t.slots|)
    ensures |p.table.slots| == |t.slots|
    decreases |rs|
  {
    if rs == [] then Progress(t, false)
    else
      var p := PlainTurn(t, base, rs[0]);
      if p.ended then p else PlainTurns(p.table, base, rs[1..])
  }

  /** The sockets closed once every slot has been gone through. */
  function CloseAll(closed: seq<int>, slots: seq<Slot>): seq<int> {
    if slots == [] then closed
    else
      var before := CloseAll(closed, slots[..|slots| - 1]);
      var last := slots[|slots| - 1];
      if last.Empty? then before else before + [last.socket]
  }

  // ---- Every accepted socket is closed exactly once ----------------------------------------

  lemma {:induction false} ReceiveAccounts(t: Table, rs: seq<Receipt>, x: int)
    requires |rs| <= |t.slots| && Accounted(t, x)
    ensures Accounted(Receive(t, rs).table, x) && Receive(t, rs).table.accepted == t.accepted
  {
    if rs != [] {
      var i := |rs| - 1;
      ReceiveAccounts(t, rs[..i], x);
      DropAccounts(Receive(t, rs[..i]).table, i, x);
    }
  }

  function PlainArrival(r: PlainRound): seq<int> {
    if r.incoming.Accepted? then [r.incoming.socket] else []
  }

  lemma PlainTurnAccounts(t: Table, base: nat, r: PlainRound, x: int)
    requires |r.receipts| == |t.slots| && Accounted(t, x) && base + Used(t.slots) <= |t.slots|
    requires Count(t.accepted + PlainArrival(r), x) <= 1
    ensures Accounted(PlainTurn(t, base, r).table, x)
    ensures PlainTurn(t, base, r).table.accepted == t.accepted + PlainArrival(r)
  {
    var t1 := t;
    if r.incoming.Accepted? {
      var s, full := r.incoming.socket, base + Used(t.slots) == |t.slots|;
      CountAppend(t.accepted, s, x);
      ArriveAccounts(t, s, Established(s), full, x);
      t1 := Arrive(t, s, Established(s), full);
    }
    if !r.incoming.AcceptFailed? {
      ReceiveAccounts(t1, r.receipts, x);
    }
  }

  lemma ReceiveUses(t: Table, rs: seq<Receipt>)
    requires |rs| <= |t.slots|
    ensures Used(Receive(t, rs).table.slots) <= Used(t.slots)
    ensures Receive(t, rs).ended ==> Used(Receive(t, rs).table.slots) > 0
  {
    if rs != [] {
      var i := |rs| - 1;
      ReceiveUses(t, rs[..i]);
      SlotUpdate(Receive(t, rs[..i]).table.slots, i, Empty, 0);
    }
  }

  /** The counter never passes the capacity. */
  lemma PlainTurnUses(t: Table, base: nat, r: PlainRound)
    requires |r.receipts| == |t.slots| && base + Used(t.slots) <= |t.slots|
    ensures base + Used(PlainTurn(t, base, r).table.slots) <= |t.slots|
    ensures PlainTurn(t, base, r).ended && !r.incoming.AcceptFailed? ==> Used(PlainTurn(t, base, r).table.slots) > 0
  {
    if !r.incoming.AcceptFailed? {
      var t1 := t;
      if r.incoming.Accepted? {
        var s := r.incoming.socket;
        t1 := Arrive(t, s, Established(s), base + Used(t.slots) == |t.slots|);
          ArriveUses(t, base, s, Established(s));
      }
      ReceiveUses(t1, r.receipts);
    }
  }

  /** The sockets accepted up to the end of the loop. */
  function PlainArrivals(t: Table, base: nat, rs: seq<PlainRound>): seq<int>
    requires RoundsFor(rs, |t.slots|)
    decreases |rs|
  {
    if rs == [] then []
    else
      var p := PlainTurn(t, base, rs[0]);
      PlainArrival(rs[0]) + (if p.ended then [] else PlainArrivals(p.table, base, rs[1..]))
  }

  lemma {:induction false} PlainRunAccounts(t: Table, base: nat, rs: seq<PlainRound>, x: int)
    requires RoundsFor(rs, |t.slots|)
    requires Accounted(t, x) && base + Used(t.slots) <= |t.slots|
    requires Count(t.accepted + PlainArrivals(t, base, rs), x) <= 1
    ensures Accounted(PlainTurns(t, base, rs).table, x)
    ensures PlainTurns(t, base, rs).table.accepted == t.accepted + PlainArrivals(t, base, rs)
    ensures base + Used(PlainTurns(t, base, rs).table.slots) <= |t.slots|
    decreases |rs|
  {
    if rs == [] {
      assert t.accepted + [] == t.accepted;
    } else {
      PlainTurnUses(t, base, rs[0]);
      var p, a := PlainTurn(t, base, rs[0]), PlainArrival(rs[0]);
      if p.ended {
        assert t.accepted + (a + []) == t.accepted + a;
        PlainTurnAccounts(t, base, rs[0], x);
      } else {
        var rest := PlainArrivals(p.table, base, rs[1..]);
        assert t.accepted + (a + rest) == (t.accepted + a) + rest;
        CountConcat(t.accepted + a, rest, x);
        PlainTurnAccounts(t, base, rs[0], x);
        PlainRunAccounts(p.table, base, rs[1..], x);
      }
    }
  }

  lemma {:induction false} HeldAppend(slots: seq<Slot>, x: int)
    requires slots != []
    ensures Held(slots, x) == Held(slots[..|slots| - 1], x) + Hold(slots[|slots| - 1], x)
  {
    if |slots| > 1 {
      HeldAppend(slots[1..], x);
      assert slots[1..][..|slots| - 2] == slots[..|slots| - 1][1..];
    }
  }

  lemma {:induction false} CloseAllCounts(closed: seq<int>, slots: seq<Slot>, x: int)
    ensures Count(CloseAll(closed, slots), x) == Count(closed, x) + Held(slots, x)
  {
    if slots != [] {
      var i := |slots| - 1;
      CloseAllCounts(closed, slots[..i], x);
      HeldAppend(slots, x);
      CountAppend(CloseAll(closed, slots[..i]), if slots[i].Empty? then 0 else slots[i].socket, x);
    }
  }

  /** However the loop ends, every socket it accepted has then been closed exactly once, and no
      other socket has been closed.  `n` is the size of the table, `base` what an earlier call left
      in the counter. */
  lemma AllClosedOnce(n: nat, base: nat, rs: seq<PlainRound>, x: int)
    requires RoundsFor(rs, n)
    requires base <= n && Count(PlainArrivals(NewTable(n), base, rs), x) <= 1
    ensures var t := PlainTurns(NewTable(n), base, rs).table;
      && t.accepted == PlainArrivals(NewTable(n), base, rs)
      && Count(CloseAll(t.closed, t.slots), x) == Count(t.accepted, x)
  {
    var t0 := NewTable(n);
    NewTableIsEmpty(n, x);
    assert t0.accepted + PlainArrivals(t0, base, rs) == PlainArrivals(t0, base, rs);
    PlainRunAccounts(t0, base, rs, x);
    var t := PlainTurns(t0, base, rs).table;
    CloseAllCounts(t.closed, t.slots, x);
  }

  // ---- What becomes of each slot -----------------------------------------------------------

  /** Slot `i` holds a client that says "exit". */
  predicate ExitAt(t: Table, rs: seq<Receipt>, i: nat)
    requires i < |rs| <= |t.slots|
  {
    !t.slots[i].Empty? && rs[i] == Message(true)
  }

  /** The receive pass goes as far as slot `k`, where the first "exit" comes, or through all slots; up
      to there the slots of disconnected clients are freed, and no other slot changes. */
  lemma {:induction false} ReceiveAt(t: Table, rs: seq<Receipt>, k: nat, i: nat)
    requires k <= |rs| <= |t.slots| && i < |t.slots|
    requires (forall j :: 0 <= j < k ==> !ExitAt(t, rs, j)) && (k < |rs| ==> ExitAt(t, rs, k))
    ensures Receive(t, rs).ended <==> k < |rs|
    ensures Receive(t, rs).table.slots[i] == if i < k && rs[i] == Disconnected then Empty else t.slots[i]
    decreases |rs|
  {
    if rs != [] {
      var last := |rs| - 1;
      assert forall j :: 0 <= j < last ==> ExitAt(t, rs[..last], j) == ExitAt(t, rs, j);
      var k' := if k < last then k else last;
      assert k == |rs| ==> !ExitAt(t, rs, last);
      ReceiveAt(t, rs[..last], k', i);
      ReceiveAt(t, rs[..last], k', last);
    }
  }

  /** What it closes: the sockets of the clients, up to there, that have disconnected. */
  lemma {:induction false} ReceiveCloses(t: Table, rs: seq<Receipt>, k: nat, x: int)
    requires k <= |rs| <= |t.slots|
    requires (forall j :: 0 <= j < k ==> !ExitAt(t, rs, j)) && (k < |rs| ==> ExitAt(t, rs, k))
    ensures x in Receive(t, rs).table.closed <==>
      x in t.closed || exists i :: 0 <= i < k && Hold(t.slots[i], x) == 1 && rs[i] == Disconnected
    decreases |rs|
  {
    if rs != [] {
      var last := |rs| - 1;
      assert forall j :: 0 <= j < last ==> ExitAt(t, rs[..last], j) == ExitAt(t, rs, j);
      var k' := if k < last then k else last;
      assert k == |rs| ==> !ExitAt(t, rs, last);
      ReceiveAt(t, rs[..last], k', last);
      ReceiveCloses(t, rs[..last], k', x);
    }
  }

  /** The table when the receive pass begins. */
  function PlainArrived(t: Table, base: nat, r: PlainRound): (t': Table)
    ensures |t'.slots| == |t.slots|
  {
    if r.incoming.Accepted?
    then Arrive(t, r.incoming.socket, Established(r.incoming.socket), base + Used(t.slots) == |t.slots|)
    else t
  }

  /** The life of a slot in a turn whose receive pass goes as far as slot `k`, and when the turn ends the
      call. */
  lemma PlainTurnAt(t: Table, base: nat, r: PlainRound, k: nat, i: nat)
    requires |r.receipts| == |t.slots| && k <= |t.slots| && i < |t.slots|
    requires var t1 := PlainArrived(t, base, r);
      (forall j :: 0 <= j < k ==> !ExitAt(t1, r.receipts, j)) && (k < |t.slots| ==> ExitAt(t1, r.receipts, k))
    ensures PlainTurn(t, base, r).ended <==> r.incoming.AcceptFailed? || k < |t.slots|
    ensures var before, after := PlainArrived(t, base, r).slots[i], PlainTurn(t, base, r).table.slots[i];
      && before == (if r.incoming.Accepted? && base + Used(t.slots) != |t.slots| && t.slots[i].Empty?
                       && (forall j :: 0 <= j < i ==> !t.slots[j].Empty?)
                    then Established(r.incoming.socket) else t.slots[i])
      && after == if !r.incoming.AcceptFailed? && i < k && r.receipts[i] == Disconnected then Empty else before
  {
    if r.incoming.Accepted? {
      var s := r.incoming.socket;
      ArriveAt(t, s, Established(s), base + Used(t.slots) == |t.slots|, i);
    }
    ReceiveAt(PlainArrived(t, base, r), r.receipts, k, i);
  }

  // ---- What the static counter does to later calls -----------------------------------------

  /** No connection is refused while a slot is free. */
  predicate Fair(t: Table, base: nat, rs: seq<PlainRound>)
    requires RoundsFor(rs, |t.slots|)
    decreases |rs|
  {
    rs == [] ||
    (var p, a := PlainTurn(t, base, rs[0]), rs[0].incoming;
     && (a.Accepted? && FirstEmpty(t.slots) < |t.slots| ==> Admits(t, base, a.socket, Established(a.socket)))
     && (p.ended || Fair(p.table, base, rs[1..])))
  }

  /** The counter when a call has gone through `rs`. */
  function CounterAfter(n: nat, base: nat, rs: seq<PlainRound>): nat
    requires RoundsFor(rs, n)
  {
    base + Used(PlainTurns(NewTable(n), base, rs).table.slots)
  }

  lemma {:induction false} FairFromZero(t: Table, rs: seq<PlainRound>)
    requires RoundsFor(rs, |t.slots|)
    ensures Fair(t, 0, rs)
    decreases |rs|
  {
    if rs != [] {
      var a := rs[0].incoming;
      FullIff(t.slots);
      if a.Accepted? && FirstEmpty(t.slots) < |t.slots| {
        AdmittedIff(t, 0, a.socket, Established(a.socket));
      }
      FairFromZero(PlainTurn(t, 0, rs[0]).table, rs[1..]);
    }
  }

  function Silence(n: nat): seq<Receipt> {
    seq(n, _ => NotReady)
  }

  /** Peers `socket`, `socket` + 1, ... connect one a turn and say nothing. */
  function Callers(n: nat, socket: int, k: nat): (rs: seq<PlainRound>)
    ensures |rs| == k && RoundsFor(rs, n)
    decreases k
  {
    if k == 0 then [] else [PlainRound(Accepted(socket), Silence(n))] + Callers(n, socket + 1, k - 1)
  }

  lemma {:induction false} SilenceKeeps(t: Table, k: nat)
    requires k <= |t.slots|
    ensures Receive(t, Silence(k)) == Progress(t, false)
  {
    if k > 0 {
      assert Silence(k)[..k - 1] == Silence(k - 1);
      SilenceKeeps(t, k - 1);
    }
  }

  /** When callers come one after the other, the one that meets the counter at the capacity is refused
      although a slot is free. */
  lemma {:induction false} CallerRefused(t: Table, base: nat, socket: int, k: nat)
    requires 0 < base && base + Used(t.slots) + k == |t.slots|
    ensures !Fair(t, base, Callers(|t.slots|, socket, k + 1))
    decreases k
  {
    var n := |t.slots|;
    var rs := Callers(n, socket, k + 1);
    FullIff(t.slots);
    AdmittedIff(t, base, socket, Established(socket));
    if k > 0 {
      var i := FirstEmpty(t.slots);
      var t1 := Arrive(t, socket, Established(socket), false);
      SlotUpdate(t.slots, i, Established(socket), 0);
      SilenceKeeps(t1, n);
      assert PlainTurn(t, base, rs[0]) == Progress(t1, false);
      assert rs[1..] == Callers(n, socket + 1, k);
      CallerRefused(t1, base, socket + 1, k - 1);
    }
  }

  ghost predicate AlwaysFair(n: nat, base: nat) {
    forall rs: seq<PlainRound> :: RoundsFor(rs, n) ==> Fair(NewTable(n), base, rs)
  }

  /** The exact condition on the counter that a call finds: it is 0. */
  lemma FairIff(n: nat, base: nat)
    requires 0 < n && base <= n
    ensures AlwaysFair(n, base) <==> base == 0
  {
    if base == 0 {
      forall rs: seq<PlainRound> | RoundsFor(rs, n)
        ensures Fair(NewTable(n), base, rs)
      {
        FairFromZero(NewTable(n), rs);
      }
    } else {
      NewTableIsEmpty(n, 0);
      CallerRefused(NewTable(n), base, 1, n - base);
      assert !Fair(NewTable(n), base, Callers(n, 1, n - base + 1));
    }
  }

  /** A call that finds the counter at `base` lets its first caller in if and only if `base` is below
      the capacity. */
  lemma FirstCallerAdmittedIff(n: nat, base: nat, socket: int)
    requires 0 < n && base <= n
    ensures Admits(NewTable(n), base, socket, Established(socket)) <==> base < n
  {
    NewTableIsEmpty(n, 0);
    FullIff(NewTable(n).slots);
    AdmittedIff(NewTable(n), base, socket, Established(socket));
  }

  /** The call ends by an "exit" message. */
  predicate EndsByExit(t: Table, base: nat, rs: seq<PlainRound>)
    requires RoundsFor(rs, |t.slots|)
    decreases |rs|
  {
    rs != [] &&
    (var p := PlainTurn(t, base, rs[0]);
     if p.ended then !rs[0].incoming.AcceptFailed? else EndsByExit(p.table, base, rs[1..]))
  }

  /** Whoever says "exit" is still in the table, and in the counter, when the call returns. */
  lemma {:induction false} ExitLeavesOne(t: Table, base: nat, rs: seq<PlainRound>)
    requires RoundsFor(rs, |t.slots|) && base + Used(t.slots) <= |t.slots| && EndsByExit(t, base, rs)
    ensures PlainTurns(t, base, rs).ended && Used(PlainTurns(t, base, rs).table.slots) > 0
    decreases |rs|
  {
    PlainTurnUses(t, base, rs[0]);
    var p := PlainTurn(t, base, rs[0]);
    if !p.ended {
      ExitLeavesOne(p.table, base, rs[1..]);
    }
  }

  lemma {:induction false} RunUses(t: Table, base: nat, rs: seq<PlainRound>)
    requires RoundsFor(rs, |t.slots|) && base + Used(t.slots) <= |t.slots|
    ensures base + Used(PlainTurns(t, base, rs).table.slots) <= |t.slots|
    decreases |rs|
  {
    if rs != [] {
      PlainTurnUses(t, base, rs[0]);
      var p := PlainTurn(t, base, rs[0]);
      if !p.ended {
        RunUses(p.table, base, rs[1..]);
      }
    }
  }

  /** The counter after a sequence of calls, and how many of them ended by "exit". */
  function CounterAfterAll(n: nat, base: nat, calls: seq<seq<PlainRound>>): nat
    requires forall rs :: rs in calls ==> RoundsFor(rs, n)
    decreases |calls|
  {
    if calls == [] then base else CounterAfterAll(n, CounterAfter(n, base, calls[0]), calls[1..])
  }

  function Exits(n: nat, base: nat, calls: seq<seq<PlainRound>>): nat
    requires forall rs :: rs in calls ==> RoundsFor(rs, n)
    decreases |calls|
  {
    if calls == [] then 0
    else
      (if EndsByExit(NewTable(n), base, calls[0]) then 1 else 0)
      + Exits(n, CounterAfter(n, base, calls[0]), calls[1..])
  }

  /** The counter never falls from call to call, and every "exit" raises it for good. */
  lemma {:induction false} ExitsUseUpSlots(n: nat, base: nat, calls: seq<seq<PlainRound>>)
    requires base <= n && forall rs :: rs in calls ==> RoundsFor(rs, n)
    ensures base + Exits(n, base, calls) <= CounterAfterAll(n, base, calls) <= n
    decreases |calls|
  {
    if calls != [] {
      var rs := calls[0];
      NewTableIsEmpty(n, 0);
      RunUses(NewTable(n), base, rs);
      if EndsByExit(NewTable(n), base, rs) {
        ExitLeavesOne(NewTable(n), base, rs);
      }
      ExitsUseUpSlots(n, CounterAfter(n, base, rs), calls[1..]);
    }
  }

  /** From a counter of 0, no more than `n` calls can ever end by "exit"; once `n` have, every
      connection to every later call is closed at once. */
  lemma RefusesForGood(n: nat, calls: seq<seq<PlainRound>>, later: seq<PlainRound>)
    requires (forall rs :: rs in calls ==> RoundsFor(rs, n)) && RoundsFor(later, n)
    ensures Exits(n, 0, calls) <= n
    ensures Exits(n, 0, calls) == n ==>
      var t := PlainTurns(NewTable(n), CounterAfterAll(n, 0, calls), later).table;
      t.slots == NewTable(n).slots && t.accepted == t.closed
  {
    ExitsUseUpSlots(n, 0, calls);
    if Exits(n, 0, calls) == n {
      NewTableIsEmpty(n, 0);
      StaleCounterRefusesAll(NewTable(n), later);
    }
  }

  /** Two peers connect to a server of two slots, and the first says "exit". */
  const TwoPeers: seq<PlainRound> :=
    [PlainRound(Accepted(1), [NotReady, NotReady]), PlainRound(Accepted(2), [Message(true), NotReady])]

  /** One call is enough to make a server of two slots refuse everybody. */
  lemma OneCallCanFillTheCounter(later: seq<PlainRound>)
    requires RoundsFor(later, 2)
    ensures PlainTurns(NewTable(2), 0, TwoPeers).ended && CounterAfter(2, 0, TwoPeers) == 2
    ensures var t := PlainTurns(NewTable(2), CounterAfter(2, 0, TwoPeers), later).table;
      t.slots == NewTable(2).slots && t.accepted == t.closed
  {
    var t0 := NewTable(2);
    var t1 := Table([Established(1), Empty], [1], []);
    var t2 := Table([Established(1), Established(2)], [1, 2], []);
    assert t0.slots == [Empty, Empty];
    SilenceKeeps(t1, 2);
    assert TwoPeers[0].receipts == Silence(2);
    assert Arrive(t0, 1, Established(1), false) == t1;
    assert PlainTurn(t0, 0, TwoPeers[0]) == Progress(t1, false);
    assert FirstEmpty(t1.slots) == 1 && Arrive(t1, 2, Established(2), false) == t2;
    var rs := TwoPeers[1].receipts;
    assert Receive(t2, rs[..1]) == Progress(t2, true) by {
      assert rs[..1][..0] == [];
    }
    assert rs[..2] == rs;
    assert PlainTurn(t1, 0, TwoPeers[1]) == Progress(t2, true);
    assert TwoPeers[1..] == [TwoPeers[1]];
    assert PlainTurns(t1, 0, TwoPeers[1..]) == Progress(t2, true);
    assert CounterAfter(2, 0, TwoPeers) == 2;
    StaleCounterRefusesAll(t0, later);
  }

  /** With the counter at the capacity and the table empty every connection is refused. */
  lemma {:induction false} StaleCounterRefusesAll(t: Table, rs: seq<PlainRound>)
    requires RoundsFor(rs, |t.slots|)
    requires Used(t.slots) == 0 && t.accepted == t.closed
    ensures var t' := PlainTurns(t, |t.slots|, rs).table;
      t'.slots == t.slots && t'.accepted == t'.closed
    decreases |rs|
  {
    if rs != [] && !rs[0].incoming.AcceptFailed? {
      var r := rs[0];
      var t1 := if r.incoming.Accepted?
                then Arrive(t, r.incoming.socket, Established(r.incoming.socket), true) else t;
      NothingToReceive(t1, r.receipts);
      assert PlainTurn(t, |t.slots|, r) == Progress(t1, false);
      StaleCounterRefusesAll(t1, rs[1..]);
    }
  }

  lemma {:induction false} NothingToReceive(t: Table, rs: seq<Receipt>)
    requires |rs| <= |t.slots| && Used(t.slots) == 0
    ensures Receive(t, rs) == Progress(t, false)
  {
    if rs != [] {
      NothingToReceive(t, rs[..|rs| - 1]);
      UnusedIsEmpty(t.slots, |rs| - 1);
    }
  }

  lemma {:induction false} UnusedIsEmpty(slots: seq<Slot>, i: nat)
    requires i < |slots| && Used(slots) == 0
    ensures slots[i].Empty?
  {
    if i > 0 {
      UnusedIsEmpty(slots[1..], i - 1);
    }
  }

  class Server {
    const N: nat
    const clients: array<int>
    var count: int           // static: keeps its value from call to call
    ghost const base: nat    // its value at the call
    ghost var accepted: seq<int>
    ghost var closed: seq<int>

    ghost predicate Valid()
      reads this, clients
    {
      && clients.Length == N
      && (forall i :: 0 <= i < N ==> clients[i] >= 0)
      && count == base + Used(View().slots)
    }

    static function SlotOf(client: int): Slot {
      if client == 0 then Empty else Established(client)
    }

    ghost function View(): (t: Table)
      requires clients.Length == N
      reads this, clients
      ensures |t.slots| == N
    {
      Table(seq(N, i requires 0 <= i < N && clients.Length == N reads this, clients => SlotOf(clients[i])),
            accepted, closed)
    }

    constructor (n: nat, count: nat)
      ensures Valid() && N == n && base == count && View() == NewTable(n) && fresh(clients)
    {
      N := n;
      clients := new int[n](_ => 0);
      this.count := count;
      base := count;
      accepted, closed := [], [];
      new;
      assert View().slots == NewTable(n).slots;
      NewTableIsEmpty(n, 0);
    }

    method Accept(socket: int)
      requires Valid() && socket > 0 && count <= N
      modifies this`count, this`accepted, this`closed, clients
      ensures Valid()
      ensures View() == Arrive(old(View()), socket, Established(socket), base + Used(old(View()).slots) == N)
    {
      ghost var t := View();
      FullIff(t.slots);
      accepted := accepted + [socket];
      if count == N {
        closed := closed + [socket];
        assert View().slots == t.slots;
      } else {
        count := count + 1;
        var i := 0;
        while i < N
          invariant 0 <= i <= FirstEmpty(t.slots) && clients[..] == old(clients[..])
        {
          assert t.slots[i] == SlotOf(clients[i]);
          if clients[i] == 0 {
            break;
          }
          i := i + 1;
        }
        clients[i] := socket;
        SlotUpdate(t.slots, i, Established(socket), 0);
        assert View().slots == t.slots[i := Established(socket)];
      }
    }

    /** The loop over the connections; `exit` says that it jumped to `endloop`. */
    method ReceivePass(rs: seq<Receipt>) returns (exit: bool)
      requires Valid() && |rs| == N
      modifies this`count, this`closed, clients
      ensures Valid() && Progress(View(), exit) == Receive(old(View()), rs)
    {
      ghost var t := View();
      exit := false;
      for i := 0 to N
        invariant Valid() && Progress(View(), exit) == Receive(t, rs[..i])
        invariant !exit
      {
        assert rs[..i + 1][..i] == rs[..i];
        ghost var v := View();
        assert v.slots[i] == SlotOf(clients[i]);
        var client := clients[i];
        if client != 0 && rs[i] != NotReady {
          if rs[i] == Disconnected {
            closed := closed + [client];
            clients[i] := 0;
            count := count - 1;
            SlotUpdate(v.slots, i, Empty, 0);
            assert View().slots == v.slots[i := Empty];
          } else if rs[i].exit {
            exit := true;
            StaysEnded(t, rs, i + 1);
            return;
          }
        }
      }
      assert rs[..N] == rs;
    }

    /** One turn; `exit` says that it left the loop. */
    method OneTurn(r: PlainRound) returns (exit: bool)
      requires Valid() && count <= N && |r.receipts| == N && (r.incoming.Accepted? ==> r.incoming.socket > 0)
      modifies this`count, this`accepted, this`closed, clients
      ensures Valid() && count <= N && Progress(View(), exit) == PlainTurn(old(View()), base, r)
    {
      PlainTurnUses(View(), base, r);
      if r.incoming.AcceptFailed? {
        return true;
      }
      if r.incoming.Accepted? {
        Accept(r.incoming.socket);
      }
      exit := ReceivePass(r.receipts);
    }

    /** The code at `endloop`. */
    method CloseRest()
      requires Valid()
      modifies this`closed
      ensures closed == CloseAll(old(closed), old(View().slots))
    {
      ghost var slots := View().slots;
      for k := 0 to N
        invariant View().slots == slots && closed == CloseAll(old(closed), slots[..k])
      {
        assert slots[..k + 1][..k] == slots[..k];
        assert slots[k] == SlotOf(clients[k]);
        var client := clients[k];
        if client != 0 {
          closed := closed + [client];
        }
      }
      assert slots[..N] == slots;
    }

    /** The whole call, up to the first round that ends it.  Leaving the loop, it closes what is left. */
    method Run(rounds: seq<PlainRound>) returns (returned: bool)
      requires Valid() && count <= N
      requires forall r :: r in rounds ==>
        |r.receipts| == N && (r.incoming.Accepted? ==> r.incoming.socket > 0)
      modifies this`count, this`accepted, this`closed, clients
      ensures var p := PlainTurns(old(View()), base, rounds);
        && returned == p.ended && accepted == p.table.accepted
        && closed == (if returned then CloseAll(p.table.closed, p.table.slots) else p.table.closed)
        && count == base + Used(p.table.slots)
    {
      var i := 0;
      while i < |rounds|
        invariant 0 <= i <= |rounds| && Valid() && count <= N
        invariant RoundsFor(rounds[i..], N)
        invariant PlainTurns(View(), base, rounds[i..]) == PlainTurns(old(View()), base, rounds)
      {
        assert rounds[i..][1..] == rounds[i + 1..];
        assert rounds[i] in rounds;
        var exit := OneTurn(rounds[i]);
        if exit {
          CloseRest();
          return true;
        }
        i := i + 1;
      }
      return false;
    }
  }

  lemma {:induction false} StaysEnded(t: Table, rs: seq<Receipt>, n: nat)
    requires n <= |rs| <= |t.slots| && Receive(t, rs[..n]).ended
    ensures Receive(t, rs) == Receive(t, rs[..n])
    decreases |rs|
  {
    if n < |rs| {
      var i := |rs| - 1;
      assert rs[..i][..n] == rs[..n];
      StaysEnded(t, rs[..i], n);
    } else {
      assert rs[..n] == rs;
    }
  }
}
