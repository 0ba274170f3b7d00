/** `SSLServerThread`: three parallel arrays and a counter.  A slot is handshaking while `hConns`
    holds its SSL handle and established once `rwConns` does. */
module SslServer {
  import opened ConnTables

  class Server {
    const N: nat
    const clients: array<int>
    const hConns: array<int>
    const rwConns: array<int>
    var count: int           // static: keeps its value from call to call
    ghost const base: nat    // its value at the call
    ghost var accepted: seq<int>
    ghost var closed: seq<int>

    /** The arrays agree on what each slot is, and the counter on how many are in use beyond what
        it held at the call. */
    ghost predicate Valid()
      reads this, clients, hConns, rwConns
    {
      && clients.Length == hConns.Length == rwConns.Length == N
      && clients != hConns && clients != rwConns && hConns != rwConns
      && (forall i :: 0 <= i < N ==> SlotOk(clients[i], hConns[i], rwConns[i]))
      && count == base + Used(View().slots) && count <= N
    }

    static predicate SlotOk(client: int, h: int, rw: int) {
      if client == 0 then h == 0 && rw == 0
      else client > 0 && ((h == client && rw == 0) || (h == 0 && rw == client))
    }

    static function SlotOf(client: int, h: int): Slot {
      if client == 0 then Empty else if h != 0 then Handshaking(client) else Established(client)
    }

    ghost function View(): (t: Table)
      requires clients.Length == hConns.Length == N
      reads this, clients, hConns
      ensures |t.slots| == N
    {
      Table(seq(N, i requires 0 <= i < N && clients.Length == hConns.Length == N reads this, clients, hConns =>
              SlotOf(clients[i], hConns[i])), accepted, closed)
    }

    constructor (n: nat, count: nat)
      requires count <= n
      ensures Valid() && N == n && base == count && View() == NewTable(n)
      ensures fresh(clients) && fresh(hConns) && fresh(rwConns)
    {
      N := n;
      clients := new int[n](_ => 0);
      hConns := new int[n](_ => 0);
      rwConns := new int[n](_ => 0);
      this.count := count;
      base := count;
      accepted, closed := [], [];
      new;
      assert View().slots == NewTable(n).slots;
      NewTableIsEmpty(n, 0);
    }

    /** An `accept` that succeeded. */
    method Accept(socket: int)
      requires Valid() && socket > 0
      modifies this, clients, hConns
      ensures Valid()
      ensures View() == Arrive(old(View()), socket, Handshaking(socket), base + Used(old(View()).slots) == N)
    {
      ghost var t := View();
      FullIff(t.slots);
      ArriveUses(t, base, socket, Handshaking(socket));
      accepted := accepted + [socket];
      if count == N {
        closed := closed + [socket];
        assert View().slots == t.slots;
      } else {
        count := count + 1;
        var i := 0;
        while i < N
          invariant 0 <= i <= FirstEmpty(t.slots)
          invariant clients[..] == old(clients[..]) && hConns[..] == old(hConns[..])
        {
          assert t.slots[i] == SlotOf(clients[i], hConns[i]);
          if clients[i] == 0 {
            break;
          }
          i := i + 1;
        }
        clients[i] := socket;
        hConns[i] := socket;
        SlotUpdate(t.slots, i, Handshaking(socket), 0);
        assert View().slots == t.slots[i := Handshaking(socket)];
      }
    }

    /** One pass of the handshake loop. */
    method HandshakeSlot(i: nat, ret: Handshake)
      requires Valid() && i < N
      modifies this`count, this`closed, clients, hConns, rwConns
      ensures Valid() && View() == HandshakeOne(old(View()), i, ret)
      ensures var waits := old(hConns[i]) != 0;
        && (!waits || ret == Pending ==>
              && closed == old(closed) && clients[i] == old(clients[i])
              && hConns[i] == old(hConns[i]) && rwConns[i] == old(rwConns[i]))
        && (waits && ret == Failed ==>
              closed == old(closed) + [old(clients[i])] && clients[i] == hConns[i] == rwConns[i] == 0)
        && (waits && ret == Succeeded ==>
              closed == old(closed) && clients[i] == old(clients[i]) && hConns[i] == 0 && rwConns[i] == old(hConns[i]))
    {
      ghost var t := View();
      assert t.slots[i] == SlotOf(clients[i], hConns[i]);
      var sconn := hConns[i];
      if sconn != 0 {
        if ret != Succeeded {
          if ret == Pending {
            return;
          }
          hConns[i] := 0;
          closed := closed + [clients[i]];
          clients[i] := 0;
          count := count - 1;
          SlotUpdate(t.slots, i, Empty, 0);
          assert View().slots == t.slots[i := Empty];
        } else {
          hConns[i] := 0;
          rwConns[i] := sconn;
          SlotUpdate(t.slots, i, Established(sconn), 0);
          assert View().slots == t.slots[i := Established(sconn)];
        }
      }
    }

    /** One pass of the read loop. */
    method ReadSlot(i: nat, read: Reading)
      requires Valid() && i < N
      modifies this`count, this`closed, clients, rwConns
      ensures Valid() && View() == ReadOne(old(View()), i, read)
      ensures if old(rwConns[i]) != 0 && read == Broken
              then closed == old(closed) + [old(clients[i])] && clients[i] == rwConns[i] == 0
              else closed == old(closed) && clients[i] == old(clients[i]) && rwConns[i] == old(rwConns[i])
    {
      ghost var t := View();
      assert t.slots[i] == SlotOf(clients[i], hConns[i]);
      var sconn := rwConns[i];
      if sconn == 0 {
        return;
      }
      if read != Data {
        if read == WantRead {
          return;
        }
        closed := closed + [clients[i]];
        clients[i] := 0;
        rwConns[i] := 0;
        count := count - 1;
        SlotUpdate(t.slots, i, Empty, 0);
        assert View().slots == t.slots[i := Empty];
      }
    }

    method HandshakePass(hs: seq<Handshake>)
      requires Valid() && |hs| == N
      modifies this`count, this`closed, clients, hConns, rwConns
      ensures Valid() && View() == Handshakes(old(View()), hs)
    {
      for i := 0 to N
        invariant Valid() && View() == Handshakes(old(View()), hs[..i])
      {
        assert hs[..i + 1][..i] == hs[..i];
        HandshakeSlot(i, hs[i]);
      }
      assert hs[..N] == hs;
    }

    method ReadPass(rs: seq<Reading>)
      requires Valid() && |rs| == N
      modifies this`count, this`closed, clients, rwConns
      ensures Valid() && View() == Reads(old(View()), rs)
    {
      for i := 0 to N
        invariant Valid() && View() == Reads(old(View()), rs[..i])
      {
        assert rs[..i + 1][..i] == rs[..i];
        ReadSlot(i, rs[i]);
      }
      assert rs[..N] == rs;
    }

    /** One turn of the endless loop; `go` is false if it leaves the loop. */
    method OneTurn(r: Round) returns (go: bool)
      requires Valid() && RoundFor(r, N) && (r.incoming.Accepted? ==> r.incoming.socket > 0)
      modifies this, clients, hConns, rwConns
      ensures Valid() && View() == Turn(old(View()), base, r) && go == !r.incoming.AcceptFailed?
      ensures r.incoming.AcceptFailed? ==> View() == old(View())
    {
      if r.incoming.AcceptFailed? {
        return false;
      }
      if r.incoming.Accepted? {
        Accept(r.incoming.socket);
      }
      HandshakePass(r.handshakes);
      ReadPass(r.readings);
      return true;
    }

    /** As many turns as there are rounds, or up to the first failing `accept`. */
    method Serve(rounds: seq<Round>)
      requires Valid()
      requires forall r :: r in rounds ==> RoundFor(r, N) && (r.incoming.Accepted? ==> r.incoming.socket > 0)
      modifies this, clients, hConns, rwConns
      ensures Valid() && View() == Turns(old(View()), base, rounds)
    {
      var i := 0;
      while i < |rounds|
        invariant 0 <= i <= |rounds| && Valid()
        invariant forall r :: r in rounds[i..] ==> RoundFor(r, N)
        invariant Turns(View(), base, rounds[i..]) == Turns(old(View()), base, rounds)
      {
        assert rounds[i..][1..] == rounds[i + 1..];
        assert rounds[i] in rounds;
        var go := OneTurn(rounds[i]);
        if !go {
          return;
        }
        i := i + 1;
      }
    }
  }
}
