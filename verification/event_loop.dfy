/** A server instance driven by a sequence of events, as the event loop
    delivers them: the connection opening and closing, incoming messages,
    `call_later` timers firing, and keepalive iterations. The loop's pending
    timers are kept beside the instance so that every reply can be traced
    back to the request that scheduled it. */
module EventLoop {
  import opened Wrappers
  import opened PyStr
  import opened Wire
  import opened Server

  /** A pending `call_later(delay, send_response, n)`. */
  datatype Timer = Timer(requestNumber: int, delayMs: int)

  datatype Loop = Loop(server: Server, timers: seq<Timer>)

  datatype Event =
    | Connect(peer: string)
    | Disconnect
    | Receive(data: string, draw: real, delayMs: int)
    | Fire(slot: nat)         // the timer at this position in `timers` fires
    | Tick                    // one iteration of the keepalive loop

  /** The random inputs of a `Receive` lie in the ranges of
      `random.random()` and `random.randint(100, 1000)`. */
  predicate Admissible(e: Event) {
    e.Receive? ==> 0.0 <= e.draw < 1.0 && 100 <= e.delayMs <= 1000
  }

  predicate AllAdmissible(events: seq<Event>) {
    forall i :: 0 <= i < |events| ==> Admissible(events[i])
  }

  /** One event's outcome; `raised` is the exception the handler let escape. */
  datatype Outcome = Outcome(next: Loop, log: seq<LogLine>, sent: seq<Outgoing>, raised: Option<Exception>)

  function Quiet(l: Loop): Outcome {
    Outcome(l, [], [], None)
  }

  /** Removes the timer at position `slot`. */
  function Without(ts: seq<Timer>, slot: nat): (r: seq<Timer>)
    requires slot < |ts|
    ensures multiset(r) + multiset{ts[slot]} == multiset(ts)
  {
    assert ts == ts[..slot] + [ts[slot]] + ts[slot + 1..];
    ts[..slot] + ts[slot + 1..]
  }

  /** Delivers one event. A `Fire` naming no pending timer and a `Tick`
      before the keepalive loop was started are not events the loop can
      deliver; they change nothing. */
  function Step(l: Loop, e: Event): (o: Outcome)
    requires Valid(l.server) && Admissible(e)
    ensures Valid(o.next.server)
    ensures o.next.server.counter == l.server.counter + |o.sent|
    ensures Numbered(o.sent, l.server.counter)
  {
    match e
    case Connect(peer) =>
      var m := ConnectionMade(l.server, peer);
      Outcome(l.(server := m.next), m.log, m.sent, None)
    case Disconnect =>
      (match ConnectionLost(l.server)
       case Err(x) => Outcome(l, [], [], Some(x))
       case Ok(m) => Outcome(l.(server := m.next), m.log, m.sent, None))
    case Receive(data, draw, delayMs) =>
      var r := DataReceived(data, draw, delayMs);
      (match r.reaction
       case Dropped => Outcome(l, r.log, [], None)
       case Raised(x) => Outcome(l, r.log, [], Some(x))
       case Scheduled(n, d) => Outcome(l.(timers := l.timers + [Timer(n, d)]), r.log, [], None))
    case Fire(slot) =>
      if slot < |l.timers| then
        var m := SendResponse(l.server, l.timers[slot].requestNumber);
        Outcome(Loop(m.next, Without(l.timers, slot)), m.log, m.sent, None)
      else Quiet(l)
    case Tick =>
      if l.server.keepaliveStarted then
        var m := KeepaliveTick(l.server);
        Outcome(l.(server := m.next), m.log, m.sent, None)
      else Quiet(l)
  }

  /** The record of a run: where it ended, what it logged and wrote, and the
      exception that ended it early, if any. */
  datatype Trace = Trace(final: Loop, log: seq<LogLine>, sent: seq<Outgoing>, raised: Option<Exception>)

  /** Delivers the events in order, stopping at the first exception. */
  function Run(l: Loop, events: seq<Event>): Trace
    requires Valid(l.server) && AllAdmissible(events)
    decreases |events|
  {
    if |events| == 0 then Trace(l, [], [], None)
    else
      var o := Step(l, events[0]);
      if o.raised.Some? then Trace(o.next, o.log, o.sent, o.raised)
      else
        var t := Run(o.next, events[1..]);
        Trace(t.final, o.log + t.log, o.sent + t.sent, t.raised)
  }

  /** A freshly constructed instance with no timers. */
  function Start(id: ProtocolId): Loop {
    Loop(Init(id), [])
  }

  /** Every message written carries the next counter value: the i-th one
      written in a run carries the starting counter plus i, and the counter
      ends advanced by the number of messages written. */
  lemma {:induction false} RunIds(l: Loop, events: seq<Event>)
    requires Valid(l.server) && AllAdmissible(events)
    ensures var t := Run(l, events);
      && Valid(t.final.server)
      && t.final.server.counter == l.server.counter + |t.sent|
      && Numbered(t.sent, l.server.counter)
    decreases |events|
  {
    if |events| > 0 {
      var o := Step(l, events[0]);
      if o.raised.None? {
        RunIds(o.next, events[1..]);
        var t := Run(o.next, events[1..]);
        assert Run(l, events) == Trace(t.final, o.log + t.log, o.sent + t.sent, t.raised);
        NumberedConcat(o.sent, t.sent, l.server.counter);
      }
    }
  }

  /** The messages carry consecutive ids starting at `first`. */
  ghost predicate Numbered(sent: seq<Outgoing>, first: nat) {
    forall i :: 0 <= i < |sent| ==> sent[i].responseId == first + i
  }

  lemma NumberedConcat(a: seq<Outgoing>, b: seq<Outgoing>, first: nat)
    requires Numbered(a, first) && Numbered(b, first + |a|)
    ensures Numbered(a + b, first)
  {
    forall i | |a| <= i < |a + b|
      ensures (a + b)[i].responseId == first + i
    {
      assert (a + b)[i] == b[i - |a|];
    }
  }

  /** From a fresh instance, replies and keepalives carry the ids 0, 1, 2, …
      in the order they are written, so no id repeats and ids only grow. */
  lemma IdsStrictlyIncrease(id: ProtocolId, events: seq<Event>)
    requires AllAdmissible(events)
    ensures var t := Run(Start(id), events);
      && (forall i :: 0 <= i < |t.sent| ==> t.sent[i].responseId == i)
      && (forall i, j :: 0 <= i < j < |t.sent| ==> t.sent[i].responseId < t.sent[j].responseId)
  {
    RunIds(Start(id), events);
    var t := Run(Start(id), events);
    assert forall i :: 0 <= i < |t.sent| ==> t.sent[i].responseId == i;
  }

  // ---------------------------------------------------------------------------
  // Correlation of replies with requests
  // ---------------------------------------------------------------------------

  /** The request numbers of the replies among `sent`, in order: every
      reply's number is listed, and every listed number is some reply's. */
  function ReplyNumbers(sent: seq<Outgoing>): (r: seq<int>)
    ensures forall i :: 0 <= i < |sent| && sent[i].Reply? ==> sent[i].requestNumber in r
    ensures forall x :: x in r ==>
      exists i :: 0 <= i < |sent| && sent[i].Reply? && sent[i].requestNumber == x
  {
    if |sent| == 0 then []
    else (if sent[0].Reply? then [sent[0].requestNumber] else []) + ReplyNumbers(sent[1..])
  }

  lemma {:induction false} ReplyNumbersAppend(a: seq<Outgoing>, b: seq<Outgoing>)
    ensures ReplyNumbers(a + b) == ReplyNumbers(a) + ReplyNumbers(b)
    decreases |a|
  {
    if |a| > 0 {
      assert (a + b)[1..] == a[1..] + b;
      ReplyNumbersAppend(a[1..], b);
    } else {
      assert a + b == b;
    }
  }

  /** Keepalives carry no request number. */
  lemma {:induction false} KeepalivesAnswerNothing(clients: seq<ProtocolId>, counter: nat)
    ensures ReplyNumbers(KeepaliveSends(clients, counter)) == []
    decreases |clients|
  {
    if |clients| > 0 {
      KeepalivesAnswerNothing(clients[1..], counter + 1);
    }
  }

  /** The request numbers the pending timers will answer. */
  function Pending(ts: seq<Timer>): (r: seq<int>)
    ensures |r| == |ts|
    ensures forall i :: 0 <= i < |ts| ==> r[i] == ts[i].requestNumber
  {
    seq(|ts|, i requires 0 <= i < |ts| => ts[i].requestNumber)
  }

  lemma PendingWithout(ts: seq<Timer>, slot: nat)
    requires slot < |ts|
    ensures multiset(Pending(Without(ts, slot))) + multiset{ts[slot].requestNumber} == multiset(Pending(ts))
  {
    var p := Pending(ts);
    assert p == p[..slot] + [p[slot]] + p[slot + 1..];
    assert Pending(Without(ts, slot)) == p[..slot] + p[slot + 1..];
  }

  /** The request number a message schedules a reply for, if any: that of
      a message not dropped whose extraction succeeds. */
  function AcceptedBy(e: Event): seq<int>
    requires Admissible(e)
  {
    if e.Receive? && e.draw >= DropBelow && ExtractNumber(Strip(e.data)).Ok?
    then [ExtractNumber(Strip(e.data)).value] else []
  }

  /** The request numbers a run's messages schedule replies for. */
  function Accepted(events: seq<Event>): seq<int>
    requires AllAdmissible(events)
  {
    if |events| == 0 then [] else AcceptedBy(events[0]) + Accepted(events[1..])
  }

  /** The balance `RepliesMatchRequests` keeps: replies written plus timers
      pending, against timers pending at the start plus requests accepted. */
  ghost predicate Balanced(sent: seq<Outgoing>, before: seq<Timer>, after: seq<Timer>, accepted: seq<int>) {
    multiset(ReplyNumbers(sent)) + multiset(Pending(after)) == multiset(Pending(before)) + multiset(accepted)
  }

  /** Nothing is answered that was not asked: over a run that raises
      nothing, the request numbers of the replies written plus those still
      pending equal those pending at the start plus those of the accepted
      messages. */
  lemma {:induction false} RepliesMatchRequests(l: Loop, events: seq<Event>)
    requires Valid(l.server) && AllAdmissible(events)
    requires Run(l, events).raised.None?
    ensures var t := Run(l, events);
      Balanced(t.sent, l.timers, t.final.timers, Accepted(events))
    decreases |events|
  {
    if |events| > 0 {
      var e := events[0];
      var rest := events[1..];
      var o := Step(l, e);
      assert o.raised.None?;
      var t := Run(o.next, rest);
      assert Run(l, events) == Trace(t.final, o.log + t.log, o.sent + t.sent, t.raised);
      RepliesMatchRequests(o.next, rest);
      StepMatches(l, e);
      ReplyNumbersAppend(o.sent, t.sent);
      assert multiset(ReplyNumbers(o.sent + t.sent)) ==
        multiset(ReplyNumbers(o.sent)) + multiset(ReplyNumbers(t.sent));
      assert multiset(Accepted(events)) == multiset(AcceptedBy(e)) + multiset(Accepted(rest));
      BalanceChains(
        multiset(ReplyNumbers(o.sent)), multiset(Pending(o.next.timers)),
        multiset(Pending(l.timers)), multiset(AcceptedBy(e)),
        multiset(ReplyNumbers(t.sent)), multiset(Pending(t.final.timers)),
        multiset(Accepted(rest)));
    }
  }

  /** Two consecutive balances compose: what the first leaves pending is
      what the second starts from. */
  lemma BalanceChains<T>(r1: multiset<T>, mid: multiset<T>, start: multiset<T>, a1: multiset<T>,
                         r2: multiset<T>, end: multiset<T>, a2: multiset<T>)
    requires r1 + mid == start + a1
    requires r2 + end == mid + a2
    ensures (r1 + r2) + end == start + (a1 + a2)
  {
    forall x
      ensures ((r1 + r2) + end)[x] == (start + (a1 + a2))[x]
    {
      assert (r1 + mid)[x] == (start + a1)[x];
      assert (r2 + end)[x] == (mid + a2)[x];
    }
  }

  /** One event keeps the balance of `RepliesMatchRequests`. */
  lemma StepMatches(l: Loop, e: Event)
    requires Valid(l.server) && Admissible(e)
    requires Step(l, e).raised.None?
    ensures var o := Step(l, e);
      Balanced(o.sent, l.timers, o.next.timers, AcceptedBy(e))
  {
    match e
    case Receive(data, draw, delayMs) =>
      ReceiveMatches(l, data, draw, delayMs);
    case Fire(slot) =>
      FireMatches(l, slot);
    case Tick =>
      if l.server.keepaliveStarted {
        KeepalivesAnswerNothing(l.server.clients, l.server.counter);
      }
    case _ =>
  }

  lemma PendingAppend(ts: seq<Timer>, t: Timer)
    ensures Pending(ts + [t]) == Pending(ts) + [t.requestNumber]
  {
  }

  lemma ReceiveMatches(l: Loop, data: string, draw: real, delayMs: int)
    requires Valid(l.server) && 0.0 <= draw < 1.0 && 100 <= delayMs <= 1000
    requires Step(l, Receive(data, draw, delayMs)).raised.None?
    ensures var o := Step(l, Receive(data, draw, delayMs));
      Balanced(o.sent, l.timers, o.next.timers, AcceptedBy(Receive(data, draw, delayMs)))
  {
    var e := Receive(data, draw, delayMs);
    var o := Step(l, e);
    ReceiveAccepts(l, data, draw, delayMs);
    if o.next.timers != l.timers {
      PendingAppend(l.timers, o.next.timers[|l.timers|]);
    }
  }

  /** A message that raises nothing either schedules one timer for the
      number it carries or leaves the loop as it was, writing nothing. */
  lemma ReceiveAccepts(l: Loop, data: string, draw: real, delayMs: int)
    requires Valid(l.server) && 0.0 <= draw < 1.0 && 100 <= delayMs <= 1000
    requires Step(l, Receive(data, draw, delayMs)).raised.None?
    ensures var o := Step(l, Receive(data, draw, delayMs));
      var a := AcceptedBy(Receive(data, draw, delayMs));
      && o.sent == []
      && |a| <= 1
      && (|a| == 0 ==> o.next.timers == l.timers)
      && (|a| == 1 ==> o.next.timers == l.timers + [Timer(a[0], delayMs)])
  {
    if draw < DropBelow {
      ReceiveDropped(l, data, draw, delayMs);
    } else {
      ReceiveScheduled(l, data, draw, delayMs);
    }
  }

  lemma ReceiveDropped(l: Loop, data: string, draw: real, delayMs: int)
    requires Valid(l.server) && 0.0 <= draw < DropBelow && 100 <= delayMs <= 1000
    ensures Step(l, Receive(data, draw, delayMs)) == Outcome(l, DataReceived(data, draw, delayMs).log, [], None)
    ensures AcceptedBy(Receive(data, draw, delayMs)) == []
  {
  }

  lemma ReceiveScheduled(l: Loop, data: string, draw: real, delayMs: int)
    requires Valid(l.server) && DropBelow <= draw < 1.0 && 100 <= delayMs <= 1000
    requires Step(l, Receive(data, draw, delayMs)).raised.None?
    ensures ExtractNumber(Strip(data)).Ok?
    ensures var n := ExtractNumber(Strip(data)).value;
      && AcceptedBy(Receive(data, draw, delayMs)) == [n]
      && Step(l, Receive(data, draw, delayMs)).next.timers == l.timers + [Timer(n, delayMs)]
      && Step(l, Receive(data, draw, delayMs)).sent == []
  {
    var r := DataReceived(data, draw, delayMs);
    assert r.reaction.Scheduled?;
  }

  /** A timer that fires writes exactly one reply, for its own request
      number, and leaves the pending timers without it; a slot that holds no
      timer does nothing. Either way the balance is kept. */
  lemma FireMatches(l: Loop, slot: nat)
    requires Valid(l.server)
    ensures var o := Step(l, Fire(slot));
      Balanced(o.sent, l.timers, o.next.timers, AcceptedBy(Fire(slot)))
    ensures var o := Step(l, Fire(slot));
      slot < |l.timers| ==>
        && o.raised.None?
        && o.sent == [Reply(l.server.counter, l.timers[slot].requestNumber, |l.server.clients|)]
        && o.next.timers == Without(l.timers, slot)
    ensures var o := Step(l, Fire(slot));
      slot >= |l.timers| ==> o.sent == [] && o.next == l && o.raised.None?
  {
    if slot < |l.timers| {
      var n := l.timers[slot].requestNumber;
      PendingWithout(l.timers, slot);
      var m := SendResponse(l.server, n);
      assert m.sent == [Reply(l.server.counter, n, |l.server.clients|)];
      assert ReplyNumbers(m.sent) == [n] by {
        assert m.sent[1..] == [];
      }
    }
  }

  /** A request number that no accepted message carried and no timer held
      is never answered; in particular a dropped request whose number no
      other request shares gets no reply. */
  lemma DroppedNeverAnswered(l: Loop, events: seq<Event>, n: int)
    requires Valid(l.server) && AllAdmissible(events)
    requires Run(l, events).raised.None?
    requires n !in Accepted(events) && n !in Pending(l.timers)
    ensures n !in ReplyNumbers(Run(l, events).sent)
  {
    var t := Run(l, events);
    RepliesMatchRequests(l, events);
    assert n !in multiset(Pending(l.timers)) + multiset(Accepted(events));
    assert n !in multiset(ReplyNumbers(t.sent));
  }
}
