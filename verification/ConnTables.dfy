/** The connection tables of the two select servers: parallel arrays of sockets and SSL handles
    with a counter, updated slot by slot.  What `select`, `accept`, `SSL_accept`, `SSL_read` and
    `recv` report is arbitrary.  Handles are positive and never reused; an SSL handle is named by
    the socket that it was given. */
module ConnTables {

  datatype Incoming = Quiet | AcceptFailed | Accepted(socket: int)
  datatype Handshake = Pending | Failed | Succeeded
  datatype Reading = WantRead | Broken | Data

  /** One turn of the endless loop of `SSLServerThread`: what arrives, and what each slot's
      handshake and read would report. */
  datatype Round = Round(incoming: Incoming, handshakes: seq<Handshake>, readings: seq<Reading>)

  datatype Slot = Empty | Handshaking(socket: int) | Established(socket: int)

  /** The slots, and the histories of the sockets accepted and of the sockets closed. */
  datatype Table = Table(slots: seq<Slot>, accepted: seq<int>, closed: seq<int>)

  /** How often a socket occurs: in a history, in a slot, in the slots. */
  function Count(h: seq<int>, x: int): nat {
    if h == [] then 0 else Count(h[..|h| - 1], x) + (if h[|h| - 1] == x then 1 else 0)
  }

  function Hold(s: Slot, x: int): nat {
    if !s.Empty? && s.socket == x then 1 else 0
  }

  function Held(t: seq<Slot>, x: int): nat {
    if t == [] then 0 else Hold(t[0], x) + Held(t[1..], x)
  }

  /** How many slots are in use. */
  function Used(t: seq<Slot>): (n: nat)
    ensures n <= |t|
  {
    if t == [] then 0 else (if t[0].Empty? then 0 else 1) + Used(t[1..])
  }

  // ---- What a turn does --------------------------------------------------------------------

  function FirstEmpty(t: seq<Slot>): (k: nat)
    ensures k <= |t| && (forall j :: 0 <= j < k ==> !t[j].Empty?)
    ensures k < |t| ==> t[k].Empty?
  {
    if t == [] || t[0].Empty? then 0 else 1 + FirstEmpty(t[1..])
  }

  /** `start` is what a new connection starts as. */
  function Arrive(t: Table, socket: int, start: Slot, full: bool): Table {
    if full then t.(accepted := t.accepted + [socket], closed := t.closed + [socket])
    else
      var k := FirstEmpty(t.slots);
      t.(accepted := t.accepted + [socket],
         slots := if k < |t.slots| then t.slots[k := start] else t.slots)
  }

  function Drop(t: Table, i: nat): Table
    requires i < |t.slots|
  {
    if t.slots[i].Empty? then t
    else t.(slots := t.slots[i := Empty], closed := t.closed + [t.slots[i].socket])
  }

  function HandshakeOne(t: Table, i: nat, h: Handshake): Table
    requires i < |t.slots|
  {
    if !t.slots[i].Handshaking? || h == Pending then t
    else if h == Failed then Drop(t, i)
    else t.(slots := t.slots[i := Established(t.slots[i].socket)])
  }

  function ReadOne(t: Table, i: nat, r: Reading): Table
    requires i < |t.slots|
  {
    if t.slots[i].Established? && r == Broken then Drop(t, i) else t
  }

  function Handshakes(t: Table, hs: seq<Handshake>): (t': Table)
    requires |hs| <= |t.slots|
    ensures |t'.slots| == |t.slots|
  {
    if hs == [] then t
    else HandshakeOne(Handshakes(t, hs[..|hs| - 1]), |hs| - 1, hs[|hs| - 1])
  }

  function Reads(t: Table, rs: seq<Reading>): (t': Table)
    requires |rs| <= |t.slots|
    ensures |t'.slots| == |t.slots|
  {
    if rs == [] then t else ReadOne(Reads(t, rs[..|rs| - 1]), |rs| - 1, rs[|rs| - 1])
  }

  predicate RoundFor(r: Round, n: nat) {
    |r.handshakes| == n && |r.readings| == n
  }

  /** One turn of `SSLServerThread`.  The counter is static; `base` is what it held, when the table was
      new, beyond the slots in use. */
  function Turn(t: Table, base: nat, r: Round): (t': Table)
    requires RoundFor(r, |t.slots|)
    ensures |t'.slots| == |t.slots|
  {
    if r.incoming.AcceptFailed? then t
    else
      var t1 := if r.incoming.Accepted?
                then Arrive(t, r.incoming.socket, Handshaking(r.incoming.socket), base + Used(t.slots) == |t.slots|)
                else t;
      Reads(Handshakes(t1, r.handshakes), r.readings)
  }

  /** A run of the server: it ends with the first failing `accept`. */
  function Turns(t: Table, base: nat, rs: seq<Round>): (t': Table)
    requires forall r :: r in rs ==> RoundFor(r, |t.slots|)
    ensures |t'.slots| == |t.slots|
    decreases |rs|
  {
    if rs == [] || rs[0].incoming.AcceptFailed? then t else Turns(Turn(t, base, rs[0]), base, rs[1..])
  }

  // ---- What every turn keeps ---------------------------------------------------------------

  /** Socket `x` was accepted at most once; if it was, it is in exactly one slot or has been closed
      exactly once, and if it was not, neither. */
  predicate Accounted(t: Table, x: int) {
    && Count(t.accepted, x) <= 1
    && Count(t.accepted, x) == Count(t.closed, x) + Held(t.slots, x)
  }

  lemma CountAppend(h: seq<int>, e: int, x: int)
    ensures Count(h + [e], x) == Count(h, x) + (if e == x then 1 else 0)
  {
    assert (h + [e])[..|h|] == h;
  }

  lemma {:induction false} SlotUpdate(t: seq<Slot>, i: nat, s: Slot, x: int)
    requires i < |t|
    ensures Held(t[i := s], x) == Held(t, x) - Hold(t[i], x) + Hold(s, x)
    ensures Used(t[i := s]) == Used(t) - (if t[i].Empty? then 0 else 1) + (if s.Empty? then 0 else 1)
  {
    if i == 0 {
      assert t[0 := s][1..] == t[1..];
    } else {
      SlotUpdate(t[1..], i - 1, s, x);
      assert t[i := s][1..] == t[1..][i - 1 := s];
    }
  }

  /** A slot is empty whenever the counter is below the capacity. */
  lemma {:induction false} FullIff(t: seq<Slot>)
    ensures Used(t) == |t| <==> FirstEmpty(t) == |t|
  {
    if t != [] && !t[0].Empty? {
      FullIff(t[1..]);
    }
  }

  /** The connection gets a slot. */
  predicate Admits(t: Table, base: nat, socket: int, start: Slot) {
    Arrive(t, socket, start, base + Used(t.slots) == |t.slots|).slots != t.slots
  }

  /** With a slot free, a new connection is let in exactly while the counter is below the capacity. */
  lemma AdmittedIff(t: Table, base: nat, socket: int, start: Slot)
    requires !start.Empty? && FirstEmpty(t.slots) < |t.slots|
    ensures Admits(t, base, socket, start) <==> base + Used(t.slots) != |t.slots|
  {
  }

  /** The counter, `base` and the slots in use, never passes the capacity. */
  lemma ArriveUses(t: Table, base: nat, socket: int, start: Slot)
    requires !start.Empty? && base + Used(t.slots) <= |t.slots|
    ensures base + Used(Arrive(t, socket, start, base + Used(t.slots) == |t.slots|).slots) <= |t.slots|
  {
    FullIff(t.slots);
    if FirstEmpty(t.slots) < |t.slots| {
      SlotUpdate(t.slots, FirstEmpty(t.slots), start, 0);
    }
  }

  lemma {:induction false} HandshakesUse(t: Table, hs: seq<Handshake>)
    requires |hs| <= |t.slots|
    ensures Used(Handshakes(t, hs).slots) <= Used(t.slots)
  {
    if hs != [] {
      var i := |hs| - 1;
      var slots := Handshakes(t, hs[..i]).slots;
      HandshakesUse(t, hs[..i]);
      SlotUpdate(slots, i, Empty, 0);
      if slots[i].Handshaking? {
        SlotUpdate(slots, i, Established(slots[i].socket), 0);
      }
    }
  }

  lemma {:induction false} ReadsUse(t: Table, rs: seq<Reading>)
    requires |rs| <= |t.slots|
    ensures Used(Reads(t, rs).slots) <= Used(t.slots)
  {
    if rs != [] {
      var i := |rs| - 1;
      ReadsUse(t, rs[..i]);
      SlotUpdate(Reads(t, rs[..i]).slots, i, Empty, 0);
    }
  }

  lemma TurnUses(t: Table, base: nat, r: Round)
    requires RoundFor(r, |t.slots|) && base + Used(t.slots) <= |t.slots|
    ensures base + Used(Turn(t, base, r).slots) <= |t.slots|
  {
    if !r.incoming.AcceptFailed? {
      var t1 := t;
      if r.incoming.Accepted? {
        var s := r.incoming.socket;
        ArriveUses(t, base, s, Handshaking(s));
        t1 := Arrive(t, s, Handshaking(s), base + Used(t.slots) == |t.slots|);
      }
      HandshakesUse(t1, r.handshakes);
      ReadsUse(Handshakes(t1, r.handshakes), r.readings);
    }
  }

  lemma DropAccounts(t: Table, i: nat, x: int)
    requires i < |t.slots| && Accounted(t, x)
    ensures Accounted(Drop(t, i), x)
  {
    if !t.slots[i].Empty? {
      CountAppend(t.closed, t.slots[i].socket, x);
      SlotUpdate(t.slots, i, Empty, x);
    }
  }

  lemma ArriveAccounts(t: Table, socket: int, start: Slot, full: bool, x: int)
    requires Accounted(t, x) && Count(t.accepted, x) + (if socket == x then 1 else 0) <= 1
    requires !start.Empty? && start.socket == socket && (Used(t.slots) == |t.slots| ==> full)
    ensures Accounted(Arrive(t, socket, start, full), x)
  {
    CountAppend(t.accepted, socket, x);
    CountAppend(t.closed, socket, x);
    FullIff(t.slots);
    if !full {
      SlotUpdate(t.slots, FirstEmpty(t.slots), start, x);
    }
  }

  lemma HandshakeAccounts(t: Table, i: nat, h: Handshake, x: int)
    requires i < |t.slots| && Accounted(t, x)
    ensures Accounted(HandshakeOne(t, i, h), x) && HandshakeOne(t, i, h).accepted == t.accepted
  {
    DropAccounts(t, i, x);
    if t.slots[i].Handshaking? {
      SlotUpdate(t.slots, i, Established(t.slots[i].socket), x);
    }
  }

  lemma {:induction false} HandshakesAccount(t: Table, hs: seq<Handshake>, x: int)
    requires |hs| <= |t.slots| && Accounted(t, x)
    ensures Accounted(Handshakes(t, hs), x) && Handshakes(t, hs).accepted == t.accepted
  {
    if hs != [] {
      var i := |hs| - 1;
      HandshakesAccount(t, hs[..i], x);
      HandshakeAccounts(Handshakes(t, hs[..i]), i, hs[i], x);
    }
  }

  lemma {:induction false} ReadsAccount(t: Table, rs: seq<Reading>, x: int)
    requires |rs| <= |t.slots| && Accounted(t, x)
    ensures Accounted(Reads(t, rs), x) && Reads(t, rs).accepted == t.accepted
  {
    if rs != [] {
      var i := |rs| - 1;
      ReadsAccount(t, rs[..i], x);
      DropAccounts(Reads(t, rs[..i]), i, x);
    }
  }

  /** The socket that a turn accepts. */
  function Arrival(r: Round): seq<int> {
    if r.incoming.Accepted? then [r.incoming.socket] else []
  }

  lemma TurnAccounts(t: Table, base: nat, r: Round, x: int)
    requires RoundFor(r, |t.slots|) && base + Used(t.slots) <= |t.slots|
    requires Accounted(t, x) && Count(t.accepted + Arrival(r), x) <= 1
    ensures Accounted(Turn(t, base, r), x) && Turn(t, base, r).accepted == t.accepted + Arrival(r)
  {
    var t1 := t;
    if r.incoming.Accepted? {
      var s, full := r.incoming.socket, base + Used(t.slots) == |t.slots|;
      CountAppend(t.accepted, s, x);
      ArriveAccounts(t, s, Handshaking(s), full, x);
      t1 := Arrive(t, s, Handshaking(s), full);
    }
    if !r.incoming.AcceptFailed? {
      HandshakesAccount(t1, r.handshakes, x);
      ReadsAccount(Handshakes(t1, r.handshakes), r.readings, x);
    }
  }

  /** The sockets accepted before the first failing `accept`. */
  function Arrivals(rs: seq<Round>): seq<int> {
    if rs == [] || rs[0].incoming.AcceptFailed? then [] else Arrival(rs[0]) + Arrivals(rs[1..])
  }

  lemma {:induction false} CountConcat(g: seq<int>, h: seq<int>, x: int)
    ensures Count(g + h, x) == Count(g, x) + Count(h, x)
  {
    if h == [] {
      assert g + h == g;
    } else {
      CountConcat(g, h[..|h| - 1], x);
      assert (g + h)[..|g + h| - 1] == g + h[..|h| - 1];
    }
  }

  /** Over every run, for every socket: it has been accepted if it arrived, and then it is in exactly
      one slot or has been closed exactly once. */
  lemma {:induction false} RunAccounts(t: Table, base: nat, rs: seq<Round>, x: int)
    requires forall r :: r in rs ==> RoundFor(r, |t.slots|)
    requires base + Used(t.slots) <= |t.slots|
    requires Accounted(t, x) && Count(t.accepted + Arrivals(rs), x) <= 1
    ensures Accounted(Turns(t, base, rs), x)
    ensures Turns(t, base, rs).accepted == t.accepted + Arrivals(rs)
    ensures base + Used(Turns(t, base, rs).slots) <= |t.slots|
    decreases |rs|
  {
    if rs == [] || rs[0].incoming.AcceptFailed? {
      assert t.accepted + [] == t.accepted;
    } else {
      var a, rest := Arrival(rs[0]), Arrivals(rs[1..]);
      assert t.accepted + Arrivals(rs) == (t.accepted + a) + rest;
      CountConcat(t.accepted + a, rest, x);
      TurnAccounts(t, base, rs[0], x);
      TurnUses(t, base, rs[0]);
      RunAccounts(Turn(t, base, rs[0]), base, rs[1..], x);
    }
  }

  // ---- What becomes of each slot -----------------------------------------------------------

  /** Where a new connection goes: into the first free slot, if the counter allows one. */
  lemma ArriveAt(t: Table, socket: int, start: Slot, full: bool, i: nat)
    requires i < |t.slots|
    ensures |Arrive(t, socket, start, full).slots| == |t.slots|
    ensures Arrive(t, socket, start, full).slots[i] ==
      if !full && t.slots[i].Empty? && (forall j :: 0 <= j < i ==> !t.slots[j].Empty?) then start else t.slots[i]
    ensures Arrive(t, socket, start, full).closed == if full then t.closed + [socket] else t.closed
  {
  }

  /** The handshake pass: a handshaking slot is established, freed or left as its own handshake
      reports, and no other slot changes. */
  lemma {:induction false} HandshakesAt(t: Table, hs: seq<Handshake>, i: nat)
    requires |hs| <= |t.slots| && i < |t.slots|
    ensures Handshakes(t, hs).slots[i] ==
      if i < |hs| && t.slots[i].Handshaking? && hs[i] == Succeeded then Established(t.slots[i].socket)
      else if i < |hs| && t.slots[i].Handshaking? && hs[i] == Failed then Empty
      else t.slots[i]
  {
    if hs != [] {
      HandshakesAt(t, hs[..|hs| - 1], i);
    }
  }

  /** What it closes: the sockets whose handshake has failed. */
  lemma {:induction false} HandshakesClose(t: Table, hs: seq<Handshake>, x: int)
    requires |hs| <= |t.slots|
    ensures x in Handshakes(t, hs).closed <==>
      x in t.closed || exists i :: 0 <= i < |hs| && t.slots[i] == Handshaking(x) && hs[i] == Failed
  {
    if hs != [] {
      var last := |hs| - 1;
      HandshakesClose(t, hs[..last], x);
      HandshakesAt(t, hs[..last], last);
    }
  }

  /** The read pass: an established slot is freed when its read is broken, and no other slot changes. */
  lemma {:induction false} ReadsAt(t: Table, rs: seq<Reading>, i: nat)
    requires |rs| <= |t.slots| && i < |t.slots|
    ensures Reads(t, rs).slots[i] ==
      if i < |rs| && t.slots[i].Established? && rs[i] == Broken then Empty else t.slots[i]
  {
    if rs != [] {
      ReadsAt(t, rs[..|rs| - 1], i);
    }
  }

  lemma {:induction false} ReadsClose(t: Table, rs: seq<Reading>, x: int)
    requires |rs| <= |t.slots|
    ensures x in Reads(t, rs).closed <==>
      x in t.closed || exists i :: 0 <= i < |rs| && t.slots[i] == Established(x) && rs[i] == Broken
  {
    if rs != [] {
      var last := |rs| - 1;
      ReadsClose(t, rs[..last], x);
      ReadsAt(t, rs[..last], last);
    }
  }

  /** The table when the passes begin. */
  function Arrived(t: Table, base: nat, r: Round): (t': Table)
    ensures |t'.slots| == |t.slots|
  {
    if r.incoming.Accepted?
    then Arrive(t, r.incoming.socket, Handshaking(r.incoming.socket), base + Used(t.slots) == |t.slots|)
    else t
  }

  /** The life of a slot in a turn. */
  lemma TurnAt(t: Table, base: nat, r: Round, i: nat)
    requires RoundFor(r, |t.slots|) && !r.incoming.AcceptFailed? && i < |t.slots|
    ensures var before, after := Arrived(t, base, r).slots[i], Turn(t, base, r).slots[i];
      var h, read := r.handshakes[i], r.readings[i];
      && before == (if r.incoming.Accepted? && base + Used(t.slots) != |t.slots| && t.slots[i].Empty?
                       && (forall j :: 0 <= j < i ==> !t.slots[j].Empty?)
                    then Handshaking(r.incoming.socket) else t.slots[i])
      && after == match before
                  case Empty => Empty
                  case Handshaking(x) =>
                    if h == Failed || (h == Succeeded && read == Broken) then Empty
                    else if h == Succeeded then Established(x)
                    else Handshaking(x)
                  case Established(x) => if read == Broken then Empty else Established(x)
  {
    var t1 := Arrived(t, base, r);
    if r.incoming.Accepted? {
      var s := r.incoming.socket;
      ArriveAt(t, s, Handshaking(s), base + Used(t.slots) == |t.slots|, i);
    }
    HandshakesAt(t1, r.handshakes, i);
    ReadsAt(Handshakes(t1, r.handshakes), r.readings, i);
  }

  /** The three reasons to close socket `x` in a turn: it arrives when the counter is at the capacity,
      its handshake fails, or it is established, perhaps only in this turn, and its read is broken. */
  ghost predicate Closes(t: Table, base: nat, r: Round, x: int)
    requires RoundFor(r, |t.slots|)
  {
    var slots := Arrived(t, base, r).slots;
    || (r.incoming == Accepted(x) && base + Used(t.slots) == |t.slots|)
    || (exists i :: 0 <= i < |slots| && slots[i] == Handshaking(x) && r.handshakes[i] == Failed)
    || (exists i :: 0 <= i < |slots| && r.readings[i] == Broken
          && (slots[i] == Established(x) || (slots[i] == Handshaking(x) && r.handshakes[i] == Succeeded)))
  }

  lemma TurnCloses(t: Table, base: nat, r: Round, x: int)
    requires RoundFor(r, |t.slots|) && !r.incoming.AcceptFailed?
    ensures x in Turn(t, base, r).closed <==> x in t.closed || Closes(t, base, r, x)
  {
    var t1 := Arrived(t, base, r);
    var t2 := Handshakes(t1, r.handshakes);
    HandshakesClose(t1, r.handshakes, x);
    ReadsClose(t2, r.readings, x);
    forall i | 0 <= i < |t1.slots|
      ensures t2.slots[i] == Established(x) <==>
        t1.slots[i] == Established(x) || (t1.slots[i] == Handshaking(x) && r.handshakes[i] == Succeeded)
    {
      HandshakesAt(t1, r.handshakes, i);
    }
  }

  /** The server has not met a failing `accept` in its first `k` turns. */
  predicate Alive(rs: seq<Round>, k: nat)
    requires k <= |rs|
  {
    forall j :: 0 <= j < k ==> !rs[j].incoming.AcceptFailed?
  }

  lemma {:induction false} TurnsSnoc(t: Table, base: nat, rs: seq<Round>, r: Round)
    requires RoundFor(r, |t.slots|) && forall q :: q in rs ==> RoundFor(q, |t.slots|)
    ensures Turns(t, base, rs + [r]) ==
      if Alive(rs, |rs|) && !r.incoming.AcceptFailed? then Turn(Turns(t, base, rs), base, r) else Turns(t, base, rs)
    decreases |rs|
  {
    if rs == [] {
      assert rs + [r] == [r] && [r][1..] == [];
    } else {
      assert (rs + [r])[1..] == rs[1..] + [r];
      if !rs[0].incoming.AcceptFailed? {
        TurnsSnoc(Turn(t, base, rs[0]), base, rs[1..], r);
        assert forall j :: 0 <= j < |rs| - 1 ==> rs[1..][j] == rs[j + 1];
        assert Alive(rs, |rs|) <==> Alive(rs[1..], |rs| - 1) by {
          if Alive(rs[1..], |rs| - 1) {
            forall j | 0 <= j < |rs|
              ensures !rs[j].incoming.AcceptFailed?
            {
              assert j > 0 ==> rs[j] == rs[1..][j - 1];
            }
          }
        }
      }
    }
  }

  /** Turn `k` of the run closes socket `x`. */
  ghost predicate ClosesAt(t: Table, base: nat, rs: seq<Round>, k: nat, x: int)
    requires k < |rs| && forall r :: r in rs ==> RoundFor(r, |t.slots|)
  {
    Alive(rs, k + 1) && Closes(Turns(t, base, rs[..k]), base, rs[k], x)
  }

  /** Over every run, a socket has been closed if and only if it was refused, its handshake failed or
      its read was broken, in some turn. */
  lemma {:induction false} ClosedIff(n: nat, base: nat, rs: seq<Round>, x: int)
    requires forall r :: r in rs ==> RoundFor(r, n)
    ensures x in Turns(NewTable(n), base, rs).closed <==>
      exists k :: 0 <= k < |rs| && ClosesAt(NewTable(n), base, rs, k, x)
    decreases |rs|
  {
    if rs != [] {
      var t, last := NewTable(n), |rs| - 1;
      var front := rs[..last];
      assert rs == front + [rs[last]];
      ClosedIff(n, base, front, x);
      TurnsSnoc(t, base, front, rs[last]);
      forall k | 0 <= k < last
        ensures ClosesAt(t, base, rs, k, x) <==> ClosesAt(t, base, front, k, x)
      {
        assert front[..k] == rs[..k] && front[k] == rs[k];
        assert Alive(rs, k + 1) <==> Alive(front, k + 1);
      }
      assert Alive(rs, |rs|) <==> Alive(front, last) && !rs[last].incoming.AcceptFailed?;
      if Alive(rs, |rs|) {
        TurnCloses(Turns(t, base, front), base, rs[last], x);
      }
      assert ClosesAt(t, base, rs, last, x) <==>
        Alive(rs, |rs|) && Closes(Turns(t, base, front), base, rs[last], x);
    }
  }

  /** Some turn of the run reports that the handshake of socket `x` has succeeded. */
  ghost predicate SucceedsAt(t: Table, base: nat, rs: seq<Round>, k: nat, x: int)
    requires k < |rs| && forall r :: r in rs ==> RoundFor(r, |t.slots|)
  {
    var slots := Arrived(Turns(t, base, rs[..k]), base, rs[k]).slots;
    assert rs[k] in rs && RoundFor(rs[k], |t.slots|);
    exists i :: 0 <= i < |slots| && slots[i] == Handshaking(x) && rs[k].handshakes[i] == Succeeded
  }

  /** No connection is read from before its handshake has succeeded. */
  lemma {:induction false} EstablishedBySuccess(n: nat, base: nat, rs: seq<Round>, i: nat)
    requires (forall r :: r in rs ==> RoundFor(r, n)) && i < n
    requires Turns(NewTable(n), base, rs).slots[i].Established?
    ensures var x := Turns(NewTable(n), base, rs).slots[i].socket;
      exists k :: 0 <= k < |rs| && SucceedsAt(NewTable(n), base, rs, k, x)
    decreases |rs|
  {
    var t, last := NewTable(n), |rs| - 1;
    var x := Turns(t, base, rs).slots[i].socket;
    var front := rs[..last];
    var t1 := Turns(t, base, front);
    assert rs == front + [rs[last]];
    TurnsSnoc(t, base, front, rs[last]);
    if t1.slots[i] == Established(x) {
      EstablishedBySuccess(n, base, front, i);
      var k :| 0 <= k < last && SucceedsAt(t, base, front, k, x);
      assert front[..k] == rs[..k] && front[k] == rs[k];
      assert SucceedsAt(t, base, rs, k, x);
    } else {
      TurnAt(t1, base, rs[last], i);
      assert SucceedsAt(t, base, rs, last, x);
    }
  }

  function NewTable(n: nat): Table {
    Table(seq(n, _ => Empty), [], [])
  }

  lemma {:induction false} NewTableIsEmpty(n: nat, x: int)
    ensures Held(NewTable(n).slots, x) == 0 && Used(NewTable(n).slots) == 0
  {
    if n > 0 {
      NewTableIsEmpty(n - 1, x);
      assert NewTable(n).slots[1..] == NewTable(n - 1).slots;
    }
  }

  /** The same from the start of `SSLServerThread`, whatever an earlier call left in the counter, for
      sockets that are never reused. */
  lemma EverySocketAccounted(n: nat, base: nat, rs: seq<Round>, x: int)
    requires forall r :: r in rs ==> RoundFor(r, n)
    requires base <= n && Count(Arrivals(rs), x) <= 1
    ensures var t := Turns(NewTable(n), base, rs);
      && Count(t.closed, x) + Held(t.slots, x) == Count(Arrivals(rs), x)
      && base + Used(t.slots) <= n
  {
    NewTableIsEmpty(n, x);
    assert [] + Arrivals(rs) == Arrivals(rs);
    RunAccounts(NewTable(n), base, rs, x);
  }
}
