/** One `ClientProtocol` instance: a counter that stamps successive
    `[n] PING` requests, the request-sending task that the connection
    starts and its loss cancels, and the classification of incoming lines
    into keepalives and numbered replies. The random sleep between requests
    is not modelled; a send step stands for one loop iteration after it. */
module Client {
  import opened Wrappers
  import opened PyStr
  import opened Wire

  /** The request-sending task: never created, running, or cancelled. */
  datatype Task = NoTask | Running | Cancelled

  datatype Client = Client(
    clientId: int,          // `self.client_id`
    requestNumber: nat,     // `self.request_number`
    sender: Task)           // `self.keepalive_task`, which runs `send_requests`

  /** The non-time fields of the client's log lines. */
  datatype ClientLog =
    | RequestLogged(request: string)   // `{date}; {time}; {request}; ; `
    | KeepaliveLogged                  // `{date}; ; ; ; `
    | PongLogged(number: int)          // `{date}; ; [{number}] PONG; ; `

  function Init(clientId: int): (c: Client)
    ensures c.requestNumber == 0 && c.sender == NoTask
  {
    Client(clientId, 0, NoTask)
  }

  /** `connection_made`: starts the request-sending task. */
  function ConnectionMade(c: Client): (r: Client)
    ensures r.sender == Running && r.requestNumber == c.requestNumber
  {
    c.(sender := Running)
  }

  /** `connection_lost`: cancels the task when one was created and does
      nothing otherwise; cancelling a cancelled task changes nothing. */
  function ConnectionLost(c: Client): (r: Client)
    ensures r.sender != Running
    ensures r.requestNumber == c.requestNumber
    ensures c.sender == NoTask ==> r == c
    ensures c.sender != NoTask ==> r.sender == Cancelled
  {
    if c.sender == NoTask then c else c.(sender := Cancelled)
  }

  /** What one iteration of the sending loop leaves behind. */
  datatype Emission = Emission(next: Client, request: string, log: ClientLog)

  /** One iteration of `send_requests`: builds `[n] PING` from the counter,
      logs it, writes it with a newline and advances the counter. Only a
      running task iterates. */
  function SendRequest(c: Client): (r: Option<Emission>)
    ensures r.Some? <==> c.sender == Running
    ensures r.Some? ==> r.value.next == c.(requestNumber := c.requestNumber + 1)
    ensures r.Some? ==> r.value.log == RequestLogged(r.value.request)
    ensures r.Some? ==> r.value.request == PingText(c.requestNumber)
  {
    if c.sender != Running then None
    else
      var request := PingText(c.requestNumber);
      Some(Emission(c.(requestNumber := c.requestNumber + 1), request, RequestLogged(request)))
  }

  /** `k` iterations of the sending loop: the i-th line written is
      `[n + i] PING` for the starting counter `n`, and the counter ends at
      `n + k`. `ServerReadsRequests` shows the server reads `n + i` back. */
  method SendRequests(c: Client, k: nat) returns (c': Client, lines: seq<string>)
    requires c.sender == Running
    ensures c' == c.(requestNumber := c.requestNumber + k)
    ensures |lines| == k
    ensures forall i :: 0 <= i < k ==> lines[i] == Line(PingText(c.requestNumber + i))
  {
    c' := c;
    lines := [];
    var i := 0;
    while i < k
      invariant 0 <= i <= k
      invariant c' == c.(requestNumber := c.requestNumber + i)
      invariant |lines| == i
      invariant forall j :: 0 <= j < i ==> lines[j] == Line(PingText(c.requestNumber + j))
    {
      var e := SendRequest(c');
      var line := Line(e.value.request);
      assert line == Line(PingText(c.requestNumber + i));
      lines := lines + [line];
      c' := e.value.next;
      i := i + 1;
    }
  }

  /** The server reads back from each line `SendRequests` writes the number
      it was stamped with. */
  lemma ServerReadsRequests(lines: seq<string>, first: nat)
    requires forall i :: 0 <= i < |lines| ==> lines[i] == Line(PingText(first + i))
    ensures forall i :: 0 <= i < |lines| ==> ExtractNumber(Strip(lines[i])) == Ok(first + i)
  {
    forall i | 0 <= i < |lines|
      ensures ExtractNumber(Strip(lines[i])) == Ok(first + i)
    {
      var n := first + i;
      assert lines[i] == Line(PingText(n));
      PingRoundTrip(n);
    }
  }

  /** After the connection is lost, the sending loop emits nothing more. */
  lemma LostStopsSending(c: Client)
    ensures SendRequest(ConnectionLost(c)).None?
  {
  }

  /** `log_response`: a line containing `keepalive` is logged as a keepalive
      without being parsed; any other line has its bracketed number
      extracted, which raises on a line without `[` or with a non-integer
      body. */
  function LogResponse(m: string): (r: Result<ClientLog, Exception>)
    ensures Contains(m, KeepaliveMarker) ==> r == Ok(KeepaliveLogged)
    ensures !Contains(m, KeepaliveMarker) && '[' !in m ==> r == Err(IndexError)
    ensures r.Ok? ==> r.value.KeepaliveLogged? || r.value.PongLogged?
    ensures !Contains(m, KeepaliveMarker) ==> (r.Ok? <==> ExtractNumber(m).Ok?)
    ensures !Contains(m, KeepaliveMarker) && r.Ok? ==> r.value == PongLogged(ExtractNumber(m).value)
    ensures !Contains(m, KeepaliveMarker) && r.Err? ==> r.error == ExtractNumber(m).error
  {
    if Contains(m, KeepaliveMarker) then Ok(KeepaliveLogged)
    else
      match ExtractNumber(m)
      case Err(e) => Err(e)
      case Ok(n) => Ok(PongLogged(n))
  }

  /** `data_received`: strips the line and classifies it. Stripping does
      not change whether the line is a keepalive or holds `[`. */
  function DataReceived(data: string): (r: Result<ClientLog, Exception>)
    ensures Contains(data, KeepaliveMarker) ==> r == Ok(KeepaliveLogged)
    ensures !Contains(data, KeepaliveMarker) && '[' !in data ==> r == Err(IndexError)
    ensures !Contains(data, KeepaliveMarker) ==>
      r == (match ExtractNumber(Strip(data))
            case Ok(n) => Ok(PongLogged(n))
            case Err(e) => Err(e))
    ensures r.Ok? ==> r.value.KeepaliveLogged? || r.value.PongLogged?
  {
    ContainsStrip(data, KeepaliveMarker);
    TrimKeepsVisible(StrBlanks, data, '[');
    LogResponse(Strip(data))
  }

  /** On a line without the separators 0x1c-0x1f, stripping first changes
      nothing: the line is classified as it arrived. */
  lemma DataReceivedRaw(data: string)
    requires forall k :: 0 <= k < |data| ==> !IsInfoSeparator(data[k])
    ensures DataReceived(data) == LogResponse(data)
  {
    ContainsStrip(data, KeepaliveMarker);
    ExtractNumberStrip(data);
  }

  /** Every keepalive from the server is logged as a keepalive. */
  lemma KeepaliveClassified(id: int)
    ensures DataReceived(Line(KeepaliveText(id))) == Ok(KeepaliveLogged)
  {
    StripLine(KeepaliveText(id));
  }

  /** A reply `[c] PONG n (k)` is logged with c, its response id, and not
      with n, the number of the request it answers. */
  lemma PongLogsResponseId(id: int, n: int, k: int)
    ensures DataReceived(Line(PongText(id, n, k))) == Ok(PongLogged(id))
    ensures id != n ==> DataReceived(Line(PongText(id, n, k))) != Ok(PongLogged(n))
  {
    PongLacksMarker(id, n, k);
    StripLine(PongText(id, n, k));
    PongYieldsResponseId(id, n, k);
  }

  /** A line that is neither a keepalive nor holds an integer in its first
      brackets raises: `IndexError` without `[`, `ValueError` otherwise. */
  lemma MalformedRaises(data: string)
    requires !Contains(data, KeepaliveMarker)
    requires '[' !in data ||
      (BracketBody(Strip(data)).Ok? && ParseInt(BracketBody(Strip(data)).value).Err?)
    ensures DataReceived(data).Err?
    ensures DataReceived(data).error == (if '[' in data then ValueError else IndexError)
  {
    TrimKeepsVisible(StrBlanks, data, '[');
  }
}
