/** The two endpoints read against each other: what the client logs for
    each line the server writes, should that line reach it. A line written
    after the connection is lost is discarded by the closed transport and
    never read; these lemmas say what the client makes of a line it does
    read. */
module Exchange {
  import opened Wrappers
  import opened Wire
  import S = Server
  import C = Client
  import EventLoop

  /** On reading a server keepalive the client logs a keepalive, and on
      reading a server reply it logs the reply's response id. */
  lemma ClientReadsServer(o: S.Outgoing)
    ensures C.DataReceived(Line(S.Render(o))) ==
      if o.Keepalive? then Ok(C.KeepaliveLogged) else Ok(C.PongLogged(o.responseId))
  {
    match o
    case Keepalive(c, _) => C.KeepaliveClassified(c);
    case Reply(c, n, k) => C.PongLogsResponseId(c, n, k);
  }

  /** When the i-th line written carries the id i, the client, on reading
      the i-th line, logs it, when it is a reply, with the number i. */
  lemma ClientLogsPositions(sent: seq<S.Outgoing>)
    requires forall i :: 0 <= i < |sent| ==> sent[i].responseId == i
    ensures forall i :: 0 <= i < |sent| && sent[i].Reply? ==>
      C.DataReceived(Line(S.Render(sent[i]))) == Ok(C.PongLogged(i))
  {
    forall i | 0 <= i < |sent| && sent[i].Reply?
      ensures C.DataReceived(Line(S.Render(sent[i]))) == Ok(C.PongLogged(i))
    {
      ClientReadsServer(sent[i]);
    }
  }

  /** Over any run of a fresh server instance, the client, on reading the
      i-th line written, logs it, when it is a reply, with the number i, so
      the numbers it logs for the replies it reads strictly increase. */
  lemma ClientLogsIdsInOrder(id: S.ProtocolId, events: seq<EventLoop.Event>)
    requires EventLoop.AllAdmissible(events)
    ensures var sent := EventLoop.Run(EventLoop.Start(id), events).sent;
      forall i :: 0 <= i < |sent| && sent[i].Reply? ==>
        C.DataReceived(Line(S.Render(sent[i]))) == Ok(C.PongLogged(i))
  {
    var t := EventLoop.Run(EventLoop.Start(id), events);
    EventLoop.RunIds(EventLoop.Start(id), events);
    assert EventLoop.Start(id).server.counter == 0;
    assert forall i :: 0 <= i < |t.sent| ==> t.sent[i].responseId == i;
    ClientLogsPositions(t.sent);
  }
}
