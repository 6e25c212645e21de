/** One `EchoServerProtocol` instance. The server's listener builds a fresh
    instance per accepted connection, and the client list and the response
    counter are attributes of that instance, so the list only ever holds the
    instance itself: there is no registry or counter shared between
    connections. Each operation is a step function on an immutable record;
    random draws arrive as inputs. */
module Server {
  import opened Wrappers
  import opened PyStr
  import opened Wire

  /** Identity of a protocol instance. */
  type ProtocolId = nat

  datatype Server = Server(
    id: ProtocolId,               // the instance itself (`self`)
    peer: Option<string>,         // the transport's peer name, set by connection_made
    clients: seq<ProtocolId>,     // `self.clients`
    counter: nat,                 // `self.response_counter`
    keepaliveStarted: bool)       // whether `send_keepalive` was started

  /** The non-time fields of the server's log lines. */
  datatype LogLine =
    | Connected(peer: string)
    | Disconnected(peer: string)
    | Received(message: string)
    | Ignored(request: string)
    | Answered(request: string, response: string)

  /** A message written to a client's transport. */
  datatype Outgoing =
    | Reply(responseId: nat, requestNumber: int, liveClients: nat)
    | Keepalive(responseId: nat, to: ProtocolId)

  /** The text of an outgoing message, before the newline. */
  function Render(o: Outgoing): string {
    match o
    case Reply(c, n, k) => PongText(c, n, k)
    case Keepalive(c, _) => KeepaliveText(c)
  }

  /** What a step leaves behind: the next state, the log lines and the
      messages written, in order. */
  datatype Effect = Effect(next: Server, log: seq<LogLine>, sent: seq<Outgoing>)

  /** The list holds nothing but the instance itself, and a non-empty list
      means connection_made has run and the transport is known. */
  predicate Valid(s: Server) {
    && (forall i :: 0 <= i < |s.clients| ==> s.clients[i] == s.id)
    && (|s.clients| > 0 ==> s.peer.Some?)
  }

  /** A freshly constructed instance. */
  function Init(id: ProtocolId): (s: Server)
    ensures Valid(s)
    ensures s.clients == [] && s.counter == 0 && !s.keepaliveStarted
  {
    Server(id, None, [], 0, false)
  }

  /** `list.remove(x)`: drops the first occurrence of `x`, or raises
      `ValueError` when there is none. */
  function RemoveFirst<T(==)>(xs: seq<T>, x: T): (r: Result<seq<T>, Exception>)
    ensures r.Err? <==> x !in xs
    ensures r.Err? ==> r.error == ValueError
    ensures r.Ok? ==> multiset(r.value) == multiset(xs) - multiset{x}
    ensures r.Ok? ==> |r.value| == |xs| - 1
  {
    if |xs| == 0 then Err(ValueError)
    else
      assert xs == [xs[0]] + xs[1..];
      if xs[0] == x then Ok(xs[1..])
      else
        match RemoveFirst(xs[1..], x)
        case Err(e) => Err(e)
        case Ok(rest) => Ok([xs[0]] + rest)
  }

  /** `connection_made`: appends the instance to its list, logs the peer,
      and starts the keepalive loop when the list has just become one long. */
  function ConnectionMade(s: Server, peer: string): (e: Effect)
    ensures e.next.clients == s.clients + [s.id]
    ensures e.next.keepaliveStarted <==> s.keepaliveStarted || |e.next.clients| == 1
    ensures e.next.counter == s.counter && e.next.peer == Some(peer)
    ensures e.log == [Connected(peer)] && e.sent == []
    ensures Valid(s) ==> Valid(e.next)
  {
    var clients := s.clients + [s.id];
    var next := s.(peer := Some(peer), clients := clients,
                   keepaliveStarted := s.keepaliveStarted || |clients| == 1);
    Effect(next, [Connected(peer)], [])
  }

  /** `connection_lost`: removes one occurrence of the instance, then logs
      the peer; `list.remove` raises `ValueError` when the instance is no
      longer in the list. */
  function ConnectionLost(s: Server): (r: Result<Effect, Exception>)
    requires Valid(s)
    ensures r.Err? <==> s.id !in s.clients
    ensures r.Err? ==> r.error == ValueError
    ensures r.Ok? ==> |r.value.next.clients| == |s.clients| - 1
    ensures r.Ok? ==> r.value.next == s.(clients := r.value.next.clients)
    ensures r.Ok? ==> r.value.log == [Disconnected(s.peer.value)] && r.value.sent == []
    ensures r.Ok? ==> Valid(r.value.next)
  {
    match RemoveFirst(s.clients, s.id)
    case Err(e) => Err(e)
    case Ok(rest) =>
      assert forall i :: 0 <= i < |rest| ==> rest[i] in multiset(s.clients);
      Ok(Effect(s.(clients := rest), [Disconnected(s.peer.value)], []))
  }

  /** What `data_received` decided. */
  datatype Reaction =
    | Dropped
    | Scheduled(requestNumber: int, delayMs: int)
    | Raised(error: Exception)

  datatype Receipt = Receipt(log: seq<LogLine>, reaction: Reaction)

  /** The drop probability of `random.random() < 0.1`. */
  const DropBelow: real := 0.1

  /** `data_received`: strips and logs the message; when the draw falls
      under the drop threshold logs it as ignored and stops; otherwise
      extracts the request number (which may raise) and schedules
      `send_response` after the drawn delay. `draw` stands for
      `random.random()` and `delayMs` for `random.randint(100, 1000)`. */
  function DataReceived(data: string, draw: real, delayMs: int): (r: Receipt)
    requires 0.0 <= draw < 1.0
    requires 100 <= delayMs <= 1000
    ensures |r.log| >= 1 && r.log[0] == Received(Strip(data))
    ensures r.reaction.Dropped? <==> draw < DropBelow
    ensures r.reaction.Dropped? ==> r.log == [Received(Strip(data)), Ignored(Strip(data))]
    ensures !r.reaction.Dropped? ==> r.log == [Received(Strip(data))]
    ensures r.reaction.Scheduled? ==>
      ExtractNumber(Strip(data)) == Ok(r.reaction.requestNumber) && r.reaction.delayMs == delayMs
    ensures r.reaction.Raised? ==> ExtractNumber(Strip(data)) == Err(r.reaction.error)
    ensures draw >= DropBelow ==> (r.reaction.Scheduled? <==> ExtractNumber(Strip(data)).Ok?)
  {
    var message := Strip(data);
    if draw < DropBelow then
      Receipt([Received(message), Ignored(message)], Dropped)
    else
      match ExtractNumber(message)
      case Err(e) => Receipt([Received(message)], Raised(e))
      case Ok(n) => Receipt([Received(message)], Scheduled(n, delayMs))
  }

  /** `send_response(n)`: replies `[c] PONG n (k)` with the current counter
      and the list length read when the timer fires, logs the request and
      the reply, then advances the counter. */
  function SendResponse(s: Server, n: int): (e: Effect)
    ensures e.next == s.(counter := s.counter + 1)
    ensures |e.sent| == 1 && e.sent[0].Reply?
    ensures e.sent[0].responseId == s.counter && e.sent[0].requestNumber == n
    ensures e.sent[0].liveClients == |s.clients|
    ensures e.log == [Answered(PingText(n), Render(e.sent[0]))]
    ensures Valid(s) ==> Valid(e.next)
  {
    var reply := Reply(s.counter, n, |s.clients|);
    Effect(s.(counter := s.counter + 1), [Answered(PingText(n), Render(reply))], [reply])
  }

  /** The writes of one pass of the keepalive loop over `clients`, the
      counter starting at `counter`. */
  function KeepaliveSends(clients: seq<ProtocolId>, counter: nat): (r: seq<Outgoing>)
    ensures |r| == |clients|
    ensures forall i :: 0 <= i < |r| ==> r[i] == Keepalive(counter + i, clients[i])
  {
    if |clients| == 0 then []
    else [Keepalive(counter, clients[0])] + KeepaliveSends(clients[1..], counter + 1)
  }

  /** One iteration of `send_keepalive` after its sleep: one keepalive per
      list entry, in list order, each with the next counter value. */
  function KeepaliveTick(s: Server): (e: Effect)
    ensures e.next == s.(counter := s.counter + |s.clients|)
    ensures |e.sent| == |s.clients| && e.log == []
    ensures forall i :: 0 <= i < |e.sent| ==>
      e.sent[i] == Keepalive(s.counter + i, s.clients[i])
  {
    Effect(s.(counter := s.counter + |s.clients|), [], KeepaliveSends(s.clients, s.counter))
  }

  /** Lifecycle: a connection made and then lost leaves the list as it was;
      the keepalive loop starts on the first connection only. */
  lemma MadeThenLost(id: ProtocolId, peer: string)
    ensures var made := ConnectionMade(Init(id), peer);
      && made.next.keepaliveStarted
      && ConnectionLost(made.next).Ok?
      && ConnectionLost(made.next).value.next.clients == []
      && ConnectionLost(made.next).value.log == [Disconnected(peer)]
  {
    var made := ConnectionMade(Init(id), peer);
    assert made.next.clients == [id];
  }

  /** A second `connection_lost` raises `ValueError`: after the first one the
      instance is no longer in its list. */
  lemma SecondLostRaises(s: Server)
    requires Valid(s) && |s.clients| == 1
    ensures ConnectionLost(s).Ok?
    ensures ConnectionLost(ConnectionLost(s).value.next) == Err(ValueError)
  {
  }

  /** A dropped message is never parsed, so even a malformed one cannot
      raise; only the ignored-log entry results. */
  lemma DropNeverRaises(data: string, draw: real, delayMs: int)
    requires 0.0 <= draw < DropBelow
    requires 100 <= delayMs <= 1000
    ensures DataReceived(data, draw, delayMs) ==
      Receipt([Received(Strip(data)), Ignored(Strip(data))], Dropped)
  {
  }

  /** A request line from the client that is not dropped schedules exactly
      one response carrying its request number. */
  lemma PingIsScheduled(n: int, draw: real, delayMs: int)
    requires DropBelow <= draw < 1.0
    requires 100 <= delayMs <= 1000
    ensures DataReceived(Line(PingText(n)), draw, delayMs).reaction == Scheduled(n, delayMs)
  {
    PingRoundTrip(n);
  }

  /** A message without `[` that is not dropped raises `IndexError`. */
  lemma NoBracketRaises(data: string, draw: real, delayMs: int)
    requires '[' !in data
    requires DropBelow <= draw < 1.0
    requires 100 <= delayMs <= 1000
    ensures DataReceived(data, draw, delayMs).reaction == Raised(IndexError)
  {
    TrimKeepsVisible(StrBlanks, data, '[');
  }
}
