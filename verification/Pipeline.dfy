/** The receive pipeline of the completion-port server, over the blocking queue.  The system fills a
    client's buffer and posts a completion; the completion thread copies the bytes, enqueues the
    copy and arms the next receive; the handler dequeues and calls back.

    Thread 0 of the queue is the completion thread, thread 1 the handler; their queue calls are runs
    of the queue's own steps, interleaved with everything else here. */
module Pipeline {
  import opened QueueProtocol
  import opened QueueSafety
  import opened Common

  type Chunk = seq<int>

  const BUF_SIZE := 512

  /** `armed` counts the receives that are outstanding for the client; one that is no longer `open`
      has been closed and freed. */
  datatype Client = Client(buffer: Chunk, armed: nat, open: bool)

  /** What the port reports: so many bytes received, or that a client's receive has failed. */
  datatype Completion = Received(client: nat, count: nat) | Failed(client: nat)

  /** `last` is what `clientCtx` holds while the thread waits at the port; whatever it holds is closed
      and freed when the port fails, and that is `freed`. */
  datatype Completer =
    | Waiting(last: Option<nat>)
    | Got(client: nat, count: nat)
    | Copied(client: nat, data: Chunk)
    | Enqueuing(client: nat)
    | Rearming(client: nat)
    | Ended(freed: Option<nat>)

  datatype Handler = Calling | Dequeuing | Holding(data: Chunk)

  /** `posted` lists the bytes of every completion at the moment it was posted, `handed` the chunks
      the handler has passed on, `delivered` what the callback saw of them. */
  datatype State = State(
    clients: seq<Client>, port: seq<Completion>, completer: Completer,
    q: QueueProtocol.State<Chunk>, handler: Handler,
    posted: seq<Chunk>, handed: seq<Chunk>, delivered: seq<Chunk>)

  datatype Event =
    | Accept
    | Post(client: nat, data: Chunk)    // the system completes a receive; no data: the peer closed
    | PostFailure(client: nat)          // the system fails a receive
    | Get
    | PortFails                         // and gives no completion
    | CloseClient
    | Copy
    | CallEnqueue
    | EnqueueReturns
    | Rearm(ok: bool)
    | CallDequeue
    | DequeueReturns
    | Callback
    | Queue(a: QueueProtocol.Action)

  ghost predicate Start(s: State) {
    && s.clients == [] && s.port == [] && s.completer == Waiting(None) && s.handler == Calling
    && s.posted == [] && s.handed == [] && s.delivered == []
    && QueueProtocol.Init(s.q, 0) && s.q.destroyer == NotCalled
    && |s.q.threads| == 2
    && s.q.threads[0].role == Producer && s.q.threads[0].puts == []
    && s.q.threads[1].role == Consumer && s.q.threads[1].gets == 0
  }

  /** `strlen` of the zero-terminated copy. */
  function CutAtNul(data: Chunk): (r: Chunk)
    ensures r <= data && 0 !in r
    ensures r == data || data[|r|] == 0
  {
    if data == [] || data[0] == 0 then [] else [data[0]] + CutAtNul(data[1..])
  }

  predicate Returned(th: Thread<Chunk>) {
    th.pc == Outside && th.Left() == 0
  }

  ghost predicate Enabled(s: State, e: Event)
    requires |s.q.threads| == 2
  {
    match e
    case Accept => true
    case Post(c, data) => c < |s.clients| && s.clients[c].armed > 0 && |data| <= BUF_SIZE
    case PostFailure(c) => c < |s.clients| && s.clients[c].armed > 0
    case Get => s.completer.Waiting? && s.port != [] && s.port[0].client < |s.clients|
    case PortFails => s.completer.Waiting? && (s.completer.last.Some? ==> s.completer.last.value < |s.clients|)
    case CloseClient => s.completer.Got? && s.completer.count == 0 && s.completer.client < |s.clients|
    case Copy =>
      s.completer.Got? && s.completer.count > 0 && s.completer.client < |s.clients|
      && s.completer.count <= |s.clients[s.completer.client].buffer|
    case CallEnqueue => s.completer.Copied?
    case EnqueueReturns => s.completer.Enqueuing? && Returned(s.q.threads[0])
    case Rearm(ok) => s.completer.Rearming? && s.completer.client < |s.clients|
    case CallDequeue => s.handler == Calling
    case DequeueReturns => s.handler == Dequeuing && Returned(s.q.threads[1]) && s.q.threads[1].log != []
    case Callback => s.handler.Holding?
    case Queue(a) => QueueProtocol.Enabled(s.q, a)
  }

  function SetClient(s: State, c: nat, client: Client): State
    requires c < |s.clients|
  {
    s.(clients := s.clients[c := client])
  }

  function Close(s: State, c: nat): State
    requires c < |s.clients|
  {
    SetClient(s, c, s.clients[c].(open := false))
  }

  function Submit(q: QueueProtocol.State<Chunk>, data: Chunk): QueueProtocol.State<Chunk>
    requires |q.threads| == 2
  {
    q.(threads := q.threads[0 := q.threads[0].(puts := q.threads[0].puts + [data])])
  }

  function Request(q: QueueProtocol.State<Chunk>): QueueProtocol.State<Chunk>
    requires |q.threads| == 2
  {
    q.(threads := q.threads[1 := q.threads[1].(gets := q.threads[1].gets + 1)])
  }

  ghost function Next(s: State, e: Event): State
    requires |s.q.threads| == 2 && Enabled(s, e)
  {
    match e
    case Accept => s.(clients := s.clients + [Client(seq(BUF_SIZE, _ => 0), 1, true)])
    case Post(c, data) =>
      var client := s.clients[c];
      var buffer := if |data| <= |client.buffer| then data + client.buffer[|data|..] else data;
      SetClient(s, c, client.(buffer := buffer, armed := client.armed - 1))
        .(port := s.port + [Received(c, |data|)], posted := s.posted + [data])
    case PostFailure(c) =>
      SetClient(s, c, s.clients[c].(armed := s.clients[c].armed - 1)).(port := s.port + [Failed(c)])
    case Get =>
      var done := s.port[0];
      (if done.Failed? then Close(s, done.client).(completer := Ended(None))
       else s.(completer := Got(done.client, done.count))).(port := s.port[1..])
    case PortFails =>
      var last := s.completer.last;
      (if last.Some? then Close(s, last.value) else s).(completer := Ended(last))
    case CloseClient => Close(s, s.completer.client).(completer := Waiting(None))
    case Copy =>
      var c := s.completer.client;
      s.(completer := Copied(c, s.clients[c].buffer[..s.completer.count]))
    case CallEnqueue => s.(q := Submit(s.q, s.completer.data), completer := Enqueuing(s.completer.client))
    case EnqueueReturns => s.(completer := Rearming(s.completer.client))
    case Rearm(ok) =>
      var c := s.completer.client;
      if ok then SetClient(s, c, s.clients[c].(armed := s.clients[c].armed + 1)).(completer := Waiting(Some(c)))
      else Close(s, c).(completer := Ended(None))
    case CallDequeue => s.(q := Request(s.q), handler := Dequeuing)
    case DequeueReturns =>
      var log := s.q.threads[1].log;
      s.(handler := Holding(log[|log| - 1]))
    case Callback =>
      var data := s.handler.data;
      s.(handler := Calling, handed := s.handed + [data], delivered := s.delivered + [CutAtNul(data)])
    case Queue(a) => s.(q := Apply(s.q, a))
  }

  // ---- The queue's part --------------------------------------------------------------------

  /** Two threads; only the handler has taken anything. */
  predicate Shape(q: QueueProtocol.State<Chunk>) {
    && |q.threads| == 2 && q.threads[0].role == Producer && q.threads[1].role == Consumer
    && Items(q.taken) == q.threads[1].log
  }

  ghost predicate QueueOk(q: QueueProtocol.State<Chunk>) {
    Inv(q) && !q.stop && q.destroyer == NotCalled && Shape(q)
  }

  lemma QueueLink(q: QueueProtocol.State<Chunk>, t: nat, c: nat)
    requires Shape(q) && t < 2 && Links(q, t)
    ensures var q' := StepThread(q, t, c);
      && Items(q'.sent) + q'.threads[0].puts == Items(q.sent) + q.threads[0].puts
      && q'.taken == q.taken && q'.threads[1] == q.threads[1]
      && |q'.threads[0].puts| < |q.threads[0].puts|
  {
    var puts := q.threads[0].puts;
    ItemsAppend(q.sent, (0, puts[0]));
    assert Items(q.sent) + puts == (Items(q.sent) + [puts[0]]) + puts[1..];
  }

  lemma QueueUnlink(q: QueueProtocol.State<Chunk>, t: nat, c: nat)
    requires Shape(q) && t < 2 && Unlinks(q, t)
    ensures var q' := StepThread(q, t, c);
      && q'.sent == q.sent && q'.threads[0] == q.threads[0]
      && Items(q'.taken) == q'.threads[1].log
      && q.threads[1].gets > 0 && q'.threads[1].gets == q.threads[1].gets - 1
      && q'.threads[1].log == q.threads[1].log + [q.items[0]]
  {
    ItemsAppend(q.taken, (1, q.items[0]));
  }

  lemma QueueOther(q: QueueProtocol.State<Chunk>, t: nat, c: nat)
    requires Shape(q) && t < 2 && ThreadOk(q, q.threads[t]) && !q.stop && !Links(q, t) && !Unlinks(q, t)
    ensures var q' := StepThread(q, t, c);
      && q'.sent == q.sent && q'.taken == q.taken
      && q'.threads[0].puts == q.threads[0].puts
      && q'.threads[1].gets == q.threads[1].gets && q'.threads[1].log == q.threads[1].log
  {
    RunFrame(q, t, c);
  }

  /** A step of the queue moves a chunk from the caller to the list, or from the list to the
      caller, or nothing. */
  lemma QueueStep(q: QueueProtocol.State<Chunk>, a: QueueProtocol.Action)
    requires QueueOk(q) && QueueProtocol.Enabled(q, a)
    ensures QueueOk(Apply(q, a))
    ensures |Apply(q, a).threads[0].puts| <= |q.threads[0].puts|
    ensures var q' := Apply(q, a);
      && Items(q'.sent) + q'.threads[0].puts == Items(q.sent) + q.threads[0].puts
      && (|| (q'.threads[1].gets == q.threads[1].gets && q'.threads[1].log == q.threads[1].log)
          || (q.threads[1].gets > 0 && q'.threads[1].gets == q.threads[1].gets - 1
              && q'.threads[1].log != [] && q'.threads[1].log[..|q'.threads[1].log| - 1] == q.threads[1].log))
  {
    InvStep(q, a);
    if a.Run? {
      assert ThreadOk(q, q.threads[a.t]);
      RunFrame(q, a.t, a.choice);
      if Links(q, a.t) {
        QueueLink(q, a.t, a.choice);
      } else if Unlinks(q, a.t) {
        QueueUnlink(q, a.t, a.choice);
      } else {
        QueueOther(q, a.t, a.choice);
      }
    }
  }

  /** One more call for a thread to make. */
  lemma MoreCalls(q: QueueProtocol.State<Chunk>, t: nat, th: Thread<Chunk>)
    requires QueueOk(q) && t < 2
    requires th == q.threads[t].(puts := th.puts, gets := th.gets) && th.Left() >= q.threads[t].Left()
    ensures QueueOk(q.(threads := q.threads[t := th]))
  {
    var q' := q.(threads := q.threads[t := th]);
    forall r: Role
      ensures Total(q'.threads, Credit(r)) == Total(q.threads, Credit(r))
      ensures NoSleeper(q, r) ==> NoSleeper(q', r)
    {
      TotalUpdate(q.threads, t, th, Credit(r));
      assert forall i: nat :: Sleeper(q', r, i) ==> Sleeper(q, r, i);
    }
    forall i | 0 <= i < 2
      ensures ThreadOk(q', q'.threads[i])
      ensures Inside(q'.threads[i].pc) <==> q'.owner == Held(i)
    {
      assert ThreadOk(q, q.threads[i]);
      assert Inside(q.threads[i].pc) <==> q.owner == Held(i);
    }
    forall r: Role, i: nat | Sleeper(q', r, i)
      ensures Sleeper(q, r, i)
    {
    }
  }

  // ---- One receive a client ----------------------------------------------------------------

  function PortCount(port: seq<Completion>, c: nat): nat {
    if port == [] then 0 else (if port[0].client == c then 1 else 0) + PortCount(port[1..], c)
  }

  /** Whether the completion thread is at work for client `c`. */
  function Busy(ct: Completer, c: nat): nat {
    match ct
    case Got(client, _) => if client == c then 1 else 0
    case Copied(client, _) => if client == c then 1 else 0
    case Enqueuing(client) => if client == c then 1 else 0
    case Rearming(client) => if client == c then 1 else 0
    case Waiting(_) => 0
    case Ended(_) => 0
  }

  /** How often client `c` is referred to: by receives that are outstanding, by completions, and by
      the completion thread. */
  function Uses(s: State, c: nat): nat
    requires c < |s.clients|
  {
    s.clients[c].armed + PortCount(s.port, c) + Busy(s.completer, c)
  }

  predicate Receiving(s: State, c: nat)
    requires c < |s.clients|
  {
    && Uses(s, c) == (if s.clients[c].open || s.completer == Ended(Some(c)) then 1 else 0)
    && (s.completer == Waiting(Some(c)) ==> s.clients[c].open)
    && (s.completer == Ended(Some(c)) ==> !s.clients[c].open)
  }

  /** A client that is open has just one receive outstanding, posted or being worked on, and a client
      that has been closed, and its context freed, has none, unless it was freed because the port
      failed: the client that `clientCtx` still holds at the port always has one. */
  predicate OneReceive(s: State) {
    forall c :: 0 <= c < |s.clients| ==> Receiving(s, c)
  }

  predicate Fits(clients: seq<Client>, d: Completion) {
    d.client < |clients| && (d.Received? ==> d.count <= |clients[d.client].buffer|)
  }

  /** Completions name clients that exist and bytes that are in their buffers. */
  predicate PortOk(s: State) {
    && (forall i :: 0 <= i < |s.port| ==> Fits(s.clients, s.port[i]))
    && match s.completer
       case Waiting(last) => last.Some? ==> last.value < |s.clients|
       case Got(c, n) => Fits(s.clients, Received(c, n))
       case Copied(c, data) => c < |s.clients| && data != []
       case Enqueuing(c) => c < |s.clients|
       case Rearming(c) => c < |s.clients|
       case Ended(freed) => freed.Some? ==> freed.value < |s.clients|
  }

  lemma {:induction false} PortCountAppend(port: seq<Completion>, d: Completion, c: nat)
    ensures PortCount(port + [d], c) == PortCount(port, c) + (if d.client == c then 1 else 0)
  {
    if port == [] {
      assert port + [d] == [d] && [d][1..] == [];
    } else {
      PortCountAppend(port[1..], d, c);
      assert (port + [d])[1..] == port[1..] + [d];
    }
  }

  lemma {:induction false} PortCountZero(port: seq<Completion>, c: nat, i: nat)
    requires PortCount(port, c) == 0 && i < |port|
    ensures port[i].client != c
  {
    if i > 0 {
      PortCountZero(port[1..], c, i - 1);
    }
  }

  lemma PortCountBeyond(port: seq<Completion>, c: nat)
    requires forall i :: 0 <= i < |port| ==> port[i].client < c
    ensures PortCount(port, c) == 0
  {
    if port != [] {
      PortCountBeyond(port[1..], c);
    }
  }

  // ---- Where the received bytes are --------------------------------------------------------

  function Bytes(clients: seq<Client>, d: Completion): seq<Chunk> {
    if Fits(clients, d) && d.Received? && d.count > 0 then [clients[d.client].buffer[..d.count]] else []
  }

  /** What waits in the clients' buffers for the completion thread. */
  function PortBytes(clients: seq<Client>, port: seq<Completion>): seq<Chunk> {
    if port == [] then [] else Bytes(clients, port[0]) + PortBytes(clients, port[1..])
  }

  /** What the completion thread has in hand. */
  function InHand(s: State): seq<Chunk> {
    match s.completer
    case Got(c, n) => Bytes(s.clients, Received(c, n))
    case Copied(_, data) => [data]
    case _ => []
  }

  function NonEmpty(chunks: seq<Chunk>): seq<Chunk> {
    if chunks == [] then []
    else
      var last := chunks[|chunks| - 1];
      NonEmpty(chunks[..|chunks| - 1]) + (if last == [] then [] else [last])
  }

  function CutAll(chunks: seq<Chunk>): (r: seq<Chunk>)
    ensures |r| == |chunks| && forall i :: 0 <= i < |chunks| ==> r[i] == CutAtNul(chunks[i])
  {
    seq(|chunks|, i requires 0 <= i < |chunks| => CutAtNul(chunks[i]))
  }

  /** What has been received is what has been enqueued, is being enqueued, is in hand, or waits. */
  predicate Conserved(s: State)
    requires |s.q.threads| == 2
  {
    NonEmpty(s.posted) ==
      ((Items(s.q.sent) + s.q.threads[0].puts) + InHand(s)) + PortBytes(s.clients, s.port)
  }

  /** What has been dequeued has been handed on, save at most one chunk. */
  predicate HandedOn(s: State)
    requires |s.q.threads| == 2
  {
    var th := s.q.threads[1];
    && s.delivered == CutAll(s.handed)
    && match s.handler
       case Calling => th.gets == 0 && th.log == s.handed
       case Holding(data) => th.gets == 0 && th.log == s.handed + [data]
       case Dequeuing =>
         || (th.gets == 1 && th.log == s.handed)
         || (th.gets == 0 && th.log != [] && th.log[..|th.log| - 1] == s.handed)
  }

  /** At most one chunk is on its way into the queue, and only while the completion thread is in its
      call. */
  predicate CallerOk(s: State)
    requires |s.q.threads| == 2
  {
    |s.q.threads[0].puts| <= (if s.completer.Enqueuing? then 1 else 0)
  }

  ghost predicate PipelineOk(s: State) {
    QueueOk(s.q) && CallerOk(s) && OneReceive(s) && PortOk(s) && Conserved(s) && HandedOn(s)
  }

  predicate SameBuffer(clients: seq<Client>, clients': seq<Client>, d: Completion) {
    && Fits(clients, d) && d.client < |clients'|
    && clients'[d.client].buffer == clients[d.client].buffer
  }

  lemma {:induction false} PortFrame(clients: seq<Client>, clients': seq<Client>, port: seq<Completion>)
    requires forall i :: 0 <= i < |port| ==> SameBuffer(clients, clients', port[i])
    ensures PortBytes(clients', port) == PortBytes(clients, port)
  {
    if port != [] {
      assert SameBuffer(clients, clients', port[0]);
      PortFrame(clients, clients', port[1..]);
    }
  }

  lemma {:induction false} PortBytesAppend(clients: seq<Client>, port: seq<Completion>, d: Completion)
    ensures PortBytes(clients, port + [d]) == PortBytes(clients, port) + Bytes(clients, d)
  {
    if port == [] {
      assert port + [d] == [d] && [d][1..] == [];
    } else {
      PortBytesAppend(clients, port[1..], d);
      var all := port + [d];
      assert all[1..] == port[1..] + [d] && all[0] == port[0];
    }
  }

  lemma NonEmptyAppend(chunks: seq<Chunk>, data: Chunk)
    ensures NonEmpty(chunks + [data]) == NonEmpty(chunks) + (if data == [] then [] else [data])
  {
    assert (chunks + [data])[..|chunks|] == chunks;
  }

  // ---- Step by step ------------------------------------------------------------------------

  lemma StartOk(s: State)
    requires Start(s)
    ensures PipelineOk(s)
  {
    InitInv(s.q, 0);
    assert Fresh(s.q.threads[0]) && Fresh(s.q.threads[1]);
  }

  lemma AcceptReceiving(s: State)
    requires |s.q.threads| == 2 && OneReceive(s) && PortOk(s)
    ensures OneReceive(Next(s, Accept)) && PortOk(Next(s, Accept))
    ensures forall i :: 0 <= i < |s.port| ==> SameBuffer(s.clients, Next(s, Accept).clients, s.port[i])
    ensures InHand(Next(s, Accept)) == InHand(s)
  {
    var s' := Next(s, Accept);
    forall i | 0 <= i < |s.port|
      ensures SameBuffer(s.clients, s'.clients, s.port[i]) && Fits(s'.clients, s'.port[i])
    {
      assert Fits(s.clients, s.port[i]);
    }
    PortCountBeyond(s.port, |s.clients|);
    forall c | 0 <= c < |s'.clients|
      ensures Receiving(s', c)
    {
      if c < |s.clients| {
        assert Receiving(s, c);
      }
    }
  }

  lemma AcceptOk(s: State)
    requires PipelineOk(s)
    ensures PipelineOk(Next(s, Accept))
  {
    AcceptReceiving(s);
    PortFrame(s.clients, Next(s, Accept).clients, s.port);
  }

  lemma PostReceiving(s: State, c: nat, data: Chunk)
    requires |s.q.threads| == 2 && OneReceive(s) && PortOk(s) && Enabled(s, Post(c, data))
    ensures OneReceive(Next(s, Post(c, data))) && PortOk(Next(s, Post(c, data)))
    ensures forall i :: 0 <= i < |s.port| ==> SameBuffer(s.clients, Next(s, Post(c, data)).clients, s.port[i])
    ensures InHand(Next(s, Post(c, data))) == InHand(s)
  {
    var s' := Next(s, Post(c, data));
    assert Receiving(s, c);
    forall i | 0 <= i < |s.port|
      ensures SameBuffer(s.clients, s'.clients, s.port[i]) && Fits(s'.clients, s.port[i])
    {
      assert Fits(s.clients, s.port[i]);
      PortCountZero(s.port, c, i);
    }
    forall x | 0 <= x < |s'.clients|
      ensures Receiving(s', x)
    {
      assert Receiving(s, x);
      PortCountAppend(s.port, Received(c, |data|), x);
    }
  }

  /** The bytes arrive in a buffer that nothing else refers to. */
  lemma PostBytes(s: State, c: nat, data: Chunk)
    requires |s.q.threads| == 2 && OneReceive(s) && PortOk(s) && Enabled(s, Post(c, data))
    ensures var s' := Next(s, Post(c, data));
      PortBytes(s'.clients, s'.port) == PortBytes(s.clients, s.port) + (if data == [] then [] else [data])
  {
    var s' := Next(s, Post(c, data));
    var d := Received(c, |data|);
    PostReceiving(s, c, data);
    PortFrame(s.clients, s'.clients, s.port);
    PortBytesAppend(s'.clients, s.port, d);
    assert s'.clients[c].buffer[..|data|] == data;
  }

  lemma PostConserves(s: State, c: nat, data: Chunk)
    requires |s.q.threads| == 2 && OneReceive(s) && PortOk(s) && Conserved(s) && Enabled(s, Post(c, data))
    ensures Conserved(Next(s, Post(c, data)))
  {
    var added, before := if data == [] then [] else [data], (Items(s.q.sent) + s.q.threads[0].puts) + InHand(s);
    PostReceiving(s, c, data);
    PostBytes(s, c, data);
    NonEmptyAppend(s.posted, data);
    assert (before + PortBytes(s.clients, s.port)) + added == before + (PortBytes(s.clients, s.port) + added);
  }

  lemma PostOk(s: State, c: nat, data: Chunk)
    requires PipelineOk(s) && Enabled(s, Post(c, data))
    ensures PipelineOk(Next(s, Post(c, data)))
  {
    PostReceiving(s, c, data);
    PostConserves(s, c, data);
  }

  /** A client record changes, but not the bytes in its buffer. */
  lemma ClientFrame(s: State, c: nat, client: Client)
    requires PortOk(s) && c < |s.clients| && client.buffer == s.clients[c].buffer
    ensures PortOk(SetClient(s, c, client))
    ensures PortBytes(SetClient(s, c, client).clients, s.port) == PortBytes(s.clients, s.port)
  {
    var s' := SetClient(s, c, client);
    forall i | 0 <= i < |s.port|
      ensures SameBuffer(s.clients, s'.clients, s.port[i])
    {
      assert Fits(s.clients, s.port[i]);
    }
    PortFrame(s.clients, s'.clients, s.port);
  }

  lemma PostFailureReceiving(s: State, c: nat)
    requires |s.q.threads| == 2 && OneReceive(s) && PortOk(s) && Enabled(s, PostFailure(c))
    ensures var s' := Next(s, PostFailure(c));
      && OneReceive(s') && PortOk(s') && InHand(s') == InHand(s)
      && PortBytes(s'.clients, s'.port) == PortBytes(s.clients, s.port)
  {
    var s' := Next(s, PostFailure(c));
    ClientFrame(s, c, s'.clients[c]);
    PortBytesAppend(s'.clients, s.port, Failed(c));
    forall x | 0 <= x < |s'.clients|
      ensures Receiving(s', x)
    {
      assert Receiving(s, x);
      PortCountAppend(s.port, Failed(c), x);
    }
  }

  lemma PostFailureOk(s: State, c: nat)
    requires PipelineOk(s) && Enabled(s, PostFailure(c))
    ensures PipelineOk(Next(s, PostFailure(c)))
  {
    PostFailureReceiving(s, c);
  }

  lemma GetFailureReceiving(s: State)
    requires |s.q.threads| == 2 && OneReceive(s) && PortOk(s) && Enabled(s, Get) && s.port[0].Failed?
    ensures OneReceive(Next(s, Get)) && PortOk(Next(s, Get))
    ensures PortBytes(Next(s, Get).clients, s.port[1..]) == PortBytes(s.clients, s.port)
  {
    var s' := Next(s, Get);
    var c := s.port[0].client;
    ClientFrame(s, c, s'.clients[c]);
    forall x | 0 <= x < |s'.clients|
      ensures Receiving(s', x)
    {
      assert Receiving(s, x);
    }
  }

  lemma GetFailureOk(s: State)
    requires PipelineOk(s) && Enabled(s, Get) && s.port[0].Failed?
    ensures PipelineOk(Next(s, Get))
  {
    GetFailureReceiving(s);
  }

  lemma GetReceiving(s: State)
    requires |s.q.threads| == 2 && OneReceive(s) && PortOk(s) && Enabled(s, Get) && s.port[0].Received?
    ensures OneReceive(Next(s, Get)) && PortOk(Next(s, Get))
    ensures InHand(s) == [] && InHand(Next(s, Get)) == Bytes(s.clients, s.port[0])
  {
    var s' := Next(s, Get);
    assert Fits(s.clients, s.port[0]);
    forall c | 0 <= c < |s'.clients|
      ensures Receiving(s', c)
    {
      assert Receiving(s, c);
    }
  }

  lemma GetOk(s: State)
    requires PipelineOk(s) && Enabled(s, Get) && s.port[0].Received?
    ensures PipelineOk(Next(s, Get))
  {
    GetReceiving(s);
    GetConserves(s);
  }

  lemma GetConserves(s: State)
    requires |s.q.threads| == 2 && OneReceive(s) && PortOk(s) && Conserved(s)
    requires Enabled(s, Get) && s.port[0].Received?
    ensures Conserved(Next(s, Get))
  {
    var before, first := Items(s.q.sent) + s.q.threads[0].puts, Bytes(s.clients, s.port[0]);
    var rest := PortBytes(s.clients, s.port[1..]);
    GetReceiving(s);
    assert (before + []) + (first + rest) == (before + first) + rest;
  }

  lemma PortFailsOk(s: State)
    requires PipelineOk(s) && Enabled(s, PortFails)
    ensures PipelineOk(Next(s, PortFails))
  {
    var s' := Next(s, PortFails);
    if s.completer.last.Some? {
      var c := s.completer.last.value;
      ClientFrame(s, c, s'.clients[c]);
    }
    forall x | 0 <= x < |s'.clients|
      ensures Receiving(s', x)
    {
      assert Receiving(s, x);
    }
  }

  lemma CloseOk(s: State)
    requires PipelineOk(s) && Enabled(s, CloseClient)
    ensures PipelineOk(Next(s, CloseClient))
  {
    var s' := Next(s, CloseClient);
    var c := s.completer.client;
    ClientFrame(s, c, s'.clients[c]);
    forall x | 0 <= x < |s'.clients|
      ensures Receiving(s', x)
    {
      assert Receiving(s, x);
    }
  }

  lemma CopyOk(s: State)
    requires PipelineOk(s) && Enabled(s, Copy)
    ensures PipelineOk(Next(s, Copy))
  {
    var s' := Next(s, Copy);
    forall x | 0 <= x < |s'.clients|
      ensures Receiving(s', x)
    {
      assert Receiving(s, x);
    }
    assert InHand(s') == InHand(s);
  }

  lemma RearmOk(s: State, ok: bool)
    requires PipelineOk(s) && Enabled(s, Rearm(ok))
    ensures PipelineOk(Next(s, Rearm(ok)))
  {
    var s' := Next(s, Rearm(ok));
    var c := s.completer.client;
    ClientFrame(s, c, s'.clients[c]);
    forall x | 0 <= x < |s'.clients|
      ensures Receiving(s', x)
    {
      assert Receiving(s, x);
    }
  }

  lemma CallEnqueueOk(s: State)
    requires PipelineOk(s) && Enabled(s, CallEnqueue)
    ensures PipelineOk(Next(s, CallEnqueue))
  {
    var s' := Next(s, CallEnqueue);
    MoreCalls(s.q, 0, s'.q.threads[0]);
    SamePlaces(s, s');
    CallConserves(s);
  }

  lemma CallConserves(s: State)
    requires |s.q.threads| == 2 && Conserved(s) && Enabled(s, CallEnqueue)
    ensures Conserved(Next(s, CallEnqueue))
  {
    assert (Items(s.q.sent) + s.q.threads[0].puts) + [s.completer.data]
        == Items(s.q.sent) + (s.q.threads[0].puts + [s.completer.data]);
  }

  predicate SameClient(ct: Completer, ct': Completer) {
    || ct' == ct
    || (ct.Copied? && ct' == Enqueuing(ct.client))
    || (ct.Enqueuing? && ct' == Rearming(ct.client))
  }

  /** The completion thread goes on with the same client. */
  lemma SamePlaces(s: State, s': State)
    requires OneReceive(s) && s'.clients == s.clients && s'.port == s.port
    requires SameClient(s.completer, s'.completer)
    ensures OneReceive(s')
  {
    forall x | 0 <= x < |s'.clients|
      ensures Receiving(s', x)
    {
      assert Receiving(s, x);
    }
  }

  lemma EnqueueReturnsOk(s: State)
    requires PipelineOk(s) && Enabled(s, EnqueueReturns)
    ensures PipelineOk(Next(s, EnqueueReturns))
  {
    SamePlaces(s, Next(s, EnqueueReturns));
  }

  lemma CallDequeueOk(s: State)
    requires PipelineOk(s) && Enabled(s, CallDequeue)
    ensures PipelineOk(Next(s, CallDequeue))
  {
    var s' := Next(s, CallDequeue);
    SamePlaces(s, s');
    MoreCalls(s.q, 1, s'.q.threads[1]);
  }

  /** A `dequeue` that has returned has returned a chunk: the one after those already handed on. */
  lemma ReturnedChunk(s: State)
    requires Shape(s.q) && HandedOn(s) && s.handler == Dequeuing && Returned(s.q.threads[1])
    ensures var log := s.q.threads[1].log;
      s.q.threads[1].gets == 0 && log != [] && log == s.handed + [log[|log| - 1]]
  {
    var th := s.q.threads[1];
    assert th.gets == 0;
    assert th.log == th.log[..|th.log| - 1] + [th.log[|th.log| - 1]];
  }

  lemma DequeueReturnsOk(s: State)
    requires PipelineOk(s) && Enabled(s, DequeueReturns)
    ensures PipelineOk(Next(s, DequeueReturns))
  {
    SamePlaces(s, Next(s, DequeueReturns));
    ReturnedChunk(s);
  }

  lemma CallbackOk(s: State)
    requires PipelineOk(s) && Enabled(s, Callback)
    ensures PipelineOk(Next(s, Callback))
  {
    var s' := Next(s, Callback);
    SamePlaces(s, s');
    assert CutAll(s'.handed) == CutAll(s.handed) + [CutAtNul(s.handler.data)];
  }

  lemma QueueEventOk(s: State, a: QueueProtocol.Action)
    requires PipelineOk(s) && Enabled(s, Queue(a))
    ensures PipelineOk(Next(s, Queue(a)))
  {
    QueueStep(s.q, a);
    SamePlaces(s, Next(s, Queue(a)));
  }

  lemma StepOk(s: State, e: Event)
    requires PipelineOk(s) && Enabled(s, e)
    ensures PipelineOk(Next(s, e))
  {
    match e
    case Accept => AcceptOk(s);
    case Post(c, data) => PostOk(s, c, data);
    case PostFailure(c) => PostFailureOk(s, c);
    case Get =>
      if s.port[0].Failed? {
        GetFailureOk(s);
      } else {
        GetOk(s);
      }
    case PortFails => PortFailsOk(s);
    case CloseClient => CloseOk(s);
    case Copy => CopyOk(s);
    case CallEnqueue => CallEnqueueOk(s);
    case EnqueueReturns => EnqueueReturnsOk(s);
    case Rearm(ok) => RearmOk(s, ok);
    case CallDequeue => CallDequeueOk(s);
    case DequeueReturns => DequeueReturnsOk(s);
    case Callback => CallbackOk(s);
    case Queue(a) => QueueEventOk(s, a);
  }

  // ---- Whole runs --------------------------------------------------------------------------

  ghost predicate Reaches(s: State, es: seq<Event>, s': State)
    decreases |es|
  {
    if es == [] then s' == s
    else |s.q.threads| == 2 && Enabled(s, es[0]) && Reaches(Next(s, es[0]), es[1..], s')
  }

  lemma {:induction false} RunOk(s: State, es: seq<Event>, s': State)
    requires PipelineOk(s) && Reaches(s, es, s')
    ensures PipelineOk(s')
    decreases |es|
  {
    if es != [] {
      StepOk(s, es[0]);
      RunOk(Next(s, es[0]), es[1..], s');
    }
  }

  /** In every run, no client has two receives outstanding, nor one while its buffer is still being
      read; and a client that nothing is outstanding for has been closed. */
  lemma AtMostOneReceive(s: State, es: seq<Event>, s': State, c: nat)
    requires Start(s) && Reaches(s, es, s') && c < |s'.clients|
    ensures Uses(s', c) <= 1
    ensures s'.clients[c].open ==> Uses(s', c) == 1
  {
    StartOk(s);
    RunOk(s, es, s');
    assert Receiving(s', c);
  }

  /** In the run the completion thread takes a failed receive from the port. */
  ghost predicate TakesFailure(s: State, es: seq<Event>)
    decreases |es|
  {
    es != [] && |s.q.threads| == 2 && Enabled(s, es[0])
    && ((es[0] == Get && s.port[0].Failed?) || TakesFailure(Next(s, es[0]), es[1..]))
  }

  lemma {:induction false} EndedRun(s: State, es: seq<Event>, s': State)
    requires PipelineOk(s) && Reaches(s, es, s')
    ensures s'.completer.Ended? <==>
      s.completer.Ended? || PortFails in es || Rearm(false) in es || TakesFailure(s, es)
    decreases |es|
  {
    if es != [] {
      var e, s1 := es[0], Next(s, es[0]);
      StepOk(s, e);
      EndedRun(s1, es[1..], s');
      assert es == [e] + es[1..];
      EndedStep(s, e);
    }
  }

  lemma EndedStep(s: State, e: Event)
    requires |s.q.threads| == 2 && Enabled(s, e)
    ensures Next(s, e).completer.Ended? <==>
      s.completer.Ended? || e == PortFails || e == Rearm(false) || (e == Get && s.port[0].Failed?)
  {
  }

  /** The completion thread has ended if and only if the port, a re-arm or a receive has failed. */
  lemma EndedIff(s: State, es: seq<Event>, s': State)
    requires Start(s) && Reaches(s, es, s')
    ensures s'.completer.Ended? <==> PortFails in es || Rearm(false) in es || TakesFailure(s, es)
  {
    StartOk(s);
    EndedRun(s, es, s');
  }

  /** And the client it failed for has then been closed, with nothing outstanding. */
  lemma FailureCloses(s: State, e: Event, c: nat)
    requires PipelineOk(s) && Enabled(s, e) && c < |s.clients|
    requires (e == Rearm(false) && s.completer.client == c) || (e == Get && s.port[0] == Failed(c))
      || (e == CloseClient && s.completer.client == c)
    ensures var s' := Next(s, e); c < |s'.clients| && !s'.clients[c].open && Uses(s', c) == 0
  {
    StepOk(s, e);
    assert Receiving(s, c);
    assert Receiving(Next(s, e), c);
  }

  /** Nothing refers any more to a client whose context has been freed. */
  predicate NoneFreedInUse(s: State) {
    forall c :: 0 <= c < |s.clients| && !s.clients[c].open ==> Uses(s, c) == 0
  }

  /** In the run the port fails while `clientCtx` holds a client. */
  ghost predicate FailsHolding(s: State, es: seq<Event>)
    decreases |es|
  {
    es != [] && |s.q.threads| == 2 && Enabled(s, es[0])
    && ((es[0] == PortFails && s.completer.last.Some?) || FailsHolding(Next(s, es[0]), es[1..]))
  }

  lemma FreedStep(s: State, e: Event)
    requires PipelineOk(s) && Enabled(s, e)
    ensures var ct, ct' := s.completer, Next(s, e).completer;
      (ct'.Ended? && ct'.freed.Some?) <==> (ct.Ended? && ct.freed.Some?) || (e == PortFails && ct.last.Some?)
  {
  }

  lemma {:induction false} FreedRun(s: State, es: seq<Event>, s': State)
    requires PipelineOk(s) && Reaches(s, es, s')
    ensures (s'.completer.Ended? && s'.completer.freed.Some?) <==>
      (s.completer.Ended? && s.completer.freed.Some?) || FailsHolding(s, es)
    decreases |es|
  {
    if es != [] {
      FreedStep(s, es[0]);
      StepOk(s, es[0]);
      FreedRun(Next(s, es[0]), es[1..], s');
    }
  }

  lemma FreedIffEnded(s: State)
    requires OneReceive(s) && PortOk(s)
    ensures NoneFreedInUse(s) <==> !(s.completer.Ended? && s.completer.freed.Some?)
  {
    if s.completer.Ended? && s.completer.freed.Some? {
      assert Receiving(s, s.completer.freed.value);
    } else {
      forall c | 0 <= c < |s.clients| && !s.clients[c].open
        ensures Uses(s, c) == 0
      {
        assert Receiving(s, c);
      }
    }
  }

  /** Just when a freed client is still in use: the port failed while `clientCtx` held a client, which
      it does from every successful re-arm to the next completion.  That client is then freed with a
      receive outstanding or completed. */
  lemma FreedInUseIff(s: State, es: seq<Event>, s': State)
    requires Start(s) && Reaches(s, es, s')
    ensures NoneFreedInUse(s') <==> !FailsHolding(s, es)
  {
    StartOk(s);
    RunOk(s, es, s');
    FreedRun(s, es, s');
    FreedIffEnded(s');
  }

  /** The data that the system has received in `es`. */
  function Incoming(es: seq<Event>): seq<Chunk> {
    if es == [] then [] else (if es[0].Post? then [es[0].data] else []) + Incoming(es[1..])
  }

  lemma {:induction false} PostedRun(s: State, es: seq<Event>, s': State)
    requires Reaches(s, es, s')
    ensures s'.posted == s.posted + Incoming(es)
    decreases |es|
  {
    if es != [] {
      PostedRun(Next(s, es[0]), es[1..], s');
      PostedStep(s, es[0]);
    }
  }

  lemma PostedFromStart(s: State, es: seq<Event>, s': State)
    requires Start(s) && Reaches(s, es, s')
    ensures s'.posted == Incoming(es)
  {
    PostedRun(s, es, s');
    assert [] + Incoming(es) == Incoming(es);
  }

  lemma PostedStep(s: State, e: Event)
    requires |s.q.threads| == 2 && Enabled(s, e)
    ensures Next(s, e).posted == s.posted + (if e.Post? then [e.data] else [])
  {
  }

  lemma Placed(s: State) returns (onWay: seq<Chunk>)
    requires Shape(s.q) && Fifo(s.q) && Conserved(s) && HandedOn(s)
    ensures match s.handler
            case Calling => onWay == []
            case Holding(data) => onWay == [data]
            case Dequeuing => |onWay| <= 1
    ensures NonEmpty(s.posted) ==
      s.handed + onWay + s.q.items + s.q.threads[0].puts + InHand(s) + PortBytes(s.clients, s.port)
  {
    var log := s.q.threads[1].log;
    onWay := log[|s.handed|..];
    assert log == s.handed + onWay;
    assert Items(s.q.sent) == s.handed + onWay + s.q.items;
  }

  /** In every run: the bytes received, chunk by chunk in the order of their completions, are those
      handed to the callback, at most one chunk on its way to it, those queued, at most one on its
      way into the queue, the one the completion thread has in hand, and those that wait in the
      clients' buffers.  The callback saw each chunk up to its first zero. */
  lemma InOrderDelivery(s: State, es: seq<Event>, s': State) returns (onWay: seq<Chunk>)
    requires Start(s) && Reaches(s, es, s')
    ensures |s'.q.threads| == 2
    ensures match s'.handler
            case Calling => onWay == []
            case Holding(data) => onWay == [data]
            case Dequeuing => |onWay| <= 1
    ensures |s'.q.threads[0].puts| <= (if s'.completer.Enqueuing? then 1 else 0)
    ensures NonEmpty(Incoming(es)) ==
      s'.handed + onWay + s'.q.items + s'.q.threads[0].puts + InHand(s') + PortBytes(s'.clients, s'.port)
    ensures s'.delivered == CutAll(s'.handed)
  {
    StartOk(s);
    RunOk(s, es, s');
    PostedFromStart(s, es, s');
    onWay := Placed(s');
  }
}
