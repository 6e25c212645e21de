# Ping/pong over TCP: a Dafny model of the protocol core

This project models the two asyncio protocol classes of a small TCP
request/response simulator: the server's `EchoServerProtocol` (`server.py`)
and the client's `ClientProtocol` (`client2.py`).

- The client stamps successive requests `[n] PING`. The server answers each
  one after a random delay with `[c] PONG n (k)`, drops about one request in
  ten, and sends `[c] keepalive` every five seconds. Both sides pull a number
  out of an incoming line with `int(s.split('[')[1].split(']')[0])`.
- Everything is modelled as pure functions over immutable records. Random
  draws are inputs whose ranges are preconditions. Exceptions are `Result`
  values.

Modules:

- `Wrappers`: `Option` and `Result`.
- `PyStr`: the pieces of Python it relies on.
  - `str.strip()`, `str.split(c)` and its inverse `join`.
  - Substring `in`.
  - `int(s)`: optional sign and digits, with single underscores between
    digits, surrounded by the whitespace `int()` skips. That is tab, line
    feed, vertical tab, form feed, carriage return and space. The
    information separators 0x1c-0x1f, which `strip()` does remove, are
    not skipped.
  - `str(i)`.
- `Wire`: the three message formats and the bracket extraction.
- `Server`: one `EchoServerProtocol` instance as a state record with one step
  per handler.
- `EventLoop`: a server instance driven by a sequence of events.
  - It keeps the pending `call_later` timers, so every reply can be traced
    back to the request that scheduled it.
  - A run stops at the first exception a handler lets escape.
- `Client`: one `ClientProtocol` instance.
- `Exchange`: the client's reading of what the server writes.

Behaviours of the code that the model keeps as written:

- `self.clients` and `self.response_counter` are instance attributes
  (server.py:11-12). `create_server` builds one instance per connection
  (server.py:67), so there is no registry or counter shared between
  connections.
  - The list only ever holds the instance itself, so the `k` of a reply is 1
    while connected.
  - Response ids are per connection.
- `connection_lost` cancels no timer (server.py:23-25): a reply scheduled
  before the loss is still written.
- A second `connection_lost` on one instance raises `ValueError` from
  `list.remove`.
- The drop decision comes before the parse (server.py:39-43). A dropped
  malformed line therefore raises nothing.
- The counter is read before it is incremented (server.py:48-51), so ids
  start at 0.
- The client classifies lines by the substring `keepalive` (client2.py:46),
  as written.
- On a reply, the client logs the number in the first brackets. That is the
  response id `c`, not the request number `n`.

## Model

| member | source | states |
|---|---|---|
| PyStr.Strip | server.py:36 | the stripped text has no whitespace at either end, is no longer than the input, and is empty only when the input is all whitespace |
| PyStr.Trim | server.py:36-43 | with either whitespace set (`strip()`'s or the narrower one `int()` skips), the trimmed text has none of it at either end, is no longer than the input, and is empty only when the input is all such whitespace |
| PyStr.TrimDecompose | server.py:36 | trimming keeps one contiguous slice of the input and drops only whitespace before and after it |
| PyStr.TrimPadded | server.py:36 | trimming a text with no whitespace at its ends, padded with whitespace on both sides, gives back exactly that text |
| PyStr.TrimKeepsVisible | server.py:36 | a character that is not whitespace occurs in the stripped text exactly when it occurs in the input |
| PyStr.StripPaddingForInt | server.py:36-43 | on a text without 0x1c-0x1f, what `strip()` removes after the kept part is whitespace that `int()` also skips |
| PyStr.Split | server.py:43 | a split has at least one piece, no piece holds the separator, there is more than one piece exactly when the separator occurs, and the first piece is a prefix of the input |
| PyStr.JoinSplit | server.py:43 | joining the pieces of a split with the separator gives the input back |
| PyStr.SplitJoin | server.py:43 | splitting a join of separator-free pieces gives the pieces back |
| PyStr.SplitAtSep | server.py:43 | splitting at the first separator yields the piece before it, followed by the split of the rest |
| PyStr.Contains | client2.py:46 | `w in s` holds exactly when `w` occurs at some position of `s` |
| PyStr.ContainsStrip | client2.py:33-46 | a word with no whitespace at its ends occurs in a line exactly when it occurs in the stripped line |
| PyStr.ParseInt | server.py:43 | `int()` raises nothing but `ValueError` |
| PyStr.ParseIntNeedsDigit | server.py:43 | `int()` of a text without a digit raises `ValueError` |
| PyStr.ParseIntAppendSpace | server.py:43 | trailing whitespace of the kind `int()` skips does not change what it returns or raises |
| PyStr.ShowInt | server.py:48 | the decimal rendering is non-empty, has no whitespace at its ends, holds only digits and a leading minus, and begins with a minus exactly for negative numbers |
| PyStr.ShowNat | server.py:48 | the rendering of a natural number is all digits, has no leading zero unless the number is 0, and has that number as its value |
| PyStr.ParseShowInt | server.py:43 | `int(str(i)) == i` for every integer |
| PyStr.SeparatorDefeatsParse | server.py:36-43 | for every integer `i`, `int(str(i) + '\x1c')` raises `ValueError`, while stripping first removes the separator and `int()` then gives `i` |
| Wire.PingText | client2.py:27 | the request `[n] PING` is one line with no whitespace at either end, so the receiver's `strip()` removes only the newline |
| Wire.PongText | server.py:48 | the reply `[c] PONG n (k)` is one line with no whitespace at either end |
| Wire.KeepaliveText | server.py:31 | the keepalive `[c] keepalive` is one line with no whitespace at either end, and holds the substring `keepalive` the client looks for |
| Wire.BracketBody | server.py:43 | the bracket body exists exactly when the line holds `[` (otherwise `IndexError`) and never holds `[` or `]` |
| Wire.BracketBodyOf | server.py:43 | in `a[b…` with no `[` in `a`, the body is `b` when `b` holds no bracket and is followed by the end, `[` or `]` |
| Wire.BracketBodyShape | server.py:43 | conversely, every line holding `[` has that shape around its extracted body |
| Wire.ExtractNumber | server.py:43 | a line without `[` raises `IndexError`; any other failure is `ValueError` |
| Wire.NonIntegerBodyFails | server.py:43 | a bracket body that is not an integer makes the extraction raise `ValueError` |
| Wire.ExtractNumberStrip | server.py:36-43 | on a line without the separators 0x1c-0x1f, stripping it first changes neither the number extracted nor the exception raised |
| Wire.SeparatorChangesNumber | server.py:36-43 | on `[i` followed by 0x1c, extraction from the raw line raises `ValueError`, but from the stripped line it yields `i` |
| Wire.PingRoundTrip | client2.py:27-29 | the server reads back `n` from the request line `[n] PING` plus newline |
| Wire.PongYieldsResponseId | server.py:48-50 | a reply line `[c] PONG n (k)` yields `c` |
| Wire.KeepaliveYieldsResponseId | server.py:31-33 | a keepalive line `[c] keepalive` yields `c` |
| Wire.PongLacksMarker | server.py:48 | no reply holds the substring `keepalive` |
| Server.Init | server.py:10-13 | a new instance has an empty list, counter 0, no keepalive loop, and satisfies the instance invariant |
| Server.RemoveFirst | server.py:24 | `list.remove` raises `ValueError` exactly when the element is absent; otherwise one occurrence is removed |
| Server.ConnectionMade | server.py:15-21 | the instance is appended, the keepalive loop is started when the list becomes one long, the peer is logged, and the invariant is kept |
| Server.ConnectionLost | server.py:23-25 | `ValueError` exactly when the instance is no longer listed; otherwise one entry is removed, the peer is logged, nothing else changes, and the invariant is kept |
| Server.DataReceived | server.py:35-45 | the stripped message is logged; it is dropped exactly when the draw is below 0.1, and is then also logged as ignored; otherwise nothing else is logged, and the message is scheduled exactly when extraction from the stripped message succeeds, with that number and the drawn delay, and raises the extraction's exception when it fails |
| Server.SendResponse | server.py:47-51 | one reply is written carrying the counter before the call, the request number and the list length at fire time; the request and reply are logged, and the counter then advances by one |
| Server.KeepaliveSends | server.py:30-33 | one keepalive per list entry, in list order, with consecutive ids |
| Server.KeepaliveTick | server.py:28-33 | one keepalive pass writes one message per list entry with ids counter+i, and advances the counter by the list length |
| Server.MadeThenLost | server.py:15-25 | a connection made and then lost empties the list again, having started the keepalive loop |
| Server.SecondLostRaises | server.py:24 | a second `connection_lost` raises `ValueError` |
| Server.DropNeverRaises | server.py:39-41 | a dropped message, even a malformed one, raises nothing and is only logged as received and ignored |
| Server.PingIsScheduled | server.py:43-45 | a client request that is not dropped schedules exactly its own request number |
| Server.NoBracketRaises | server.py:43 | a message without `[` that is not dropped raises `IndexError` |
| EventLoop.ReplyNumbers | server.py:47-51 | every reply written has its request number listed, and every listed number belongs to some reply written |
| EventLoop.Without | server.py:45 | firing removes exactly one pending timer |
| EventLoop.Step | server.py:15-51 | every event keeps the instance invariant, and the messages it writes carry consecutive ids from the counter, which advances by their number |
| EventLoop.RunIds | server.py:30-51 | over any run, the i-th message written carries the starting counter plus i, and the counter ends advanced by the number written |
| EventLoop.IdsStrictlyIncrease | server.py:12-51 | from a new instance the ids written are 0, 1, 2, … in order, so no id repeats and ids only grow |
| EventLoop.KeepalivesAnswerNothing | server.py:30-33 | a keepalive pass answers no request |
| EventLoop.RepliesMatchRequests | server.py:39-51 | over a run that raises nothing, the request numbers replied to plus those pending equal those pending at the start plus those of the accepted messages, as multisets |
| EventLoop.StepMatches | server.py:35-51 | every single event keeps that balance |
| EventLoop.ReceiveAccepts | server.py:39-45 | a message that raises nothing writes nothing; it adds one timer, for the number it carries, when accepted, and no timer otherwise |
| EventLoop.FireMatches | server.py:45-51 | a firing timer writes exactly one reply, carrying the counter, its own request number and the list length, and is removed from the pending timers, keeping the balance; firing a slot that holds no timer writes and changes nothing |
| EventLoop.DroppedNeverAnswered | server.py:39-41 | a request number that no accepted message carried and no timer held is never replied to |
| Client.Init | client2.py:10-14 | a new client has request number 0 and no task |
| Client.ConnectionMade | client2.py:16-18 | the sending task runs and the counter is untouched |
| Client.ConnectionLost | client2.py:20-22 | without a task nothing changes; otherwise the task is cancelled; either way it no longer runs |
| Client.SendRequest | client2.py:24-30 | only a running task sends; it sends and logs `[n] PING` for the current counter and advances the counter by one |
| Client.SendRequests | client2.py:24-30 | the i-th of k requests is `[n+i] PING` plus newline, and the counter ends at n+k |
| Client.ServerReadsRequests | client2.py:27-29 | the server reads back `n+i` from the i-th request line |
| Client.LostStopsSending | client2.py:20-22 | after the connection is lost no request is sent |
| Client.LogResponse | client2.py:42-50 | a line holding `keepalive` is logged as a keepalive without parsing; any other line without `[` raises `IndexError`; any other line is logged as a reply exactly when a number can be extracted from it, and then with that number, and otherwise raises the extraction's exception |
| Client.DataReceived | client2.py:32-34 | a line holding `keepalive` is logged as a keepalive and one without `[` raises `IndexError` (neither affected by stripping); any other line is logged with the number extracted from the stripped line, or raises that extraction's exception |
| Client.DataReceivedRaw | client2.py:32-34 | on a line without the separators 0x1c-0x1f, classifying the stripped line is the same as classifying the raw line |
| Client.KeepaliveClassified | client2.py:46-47 | every server keepalive is logged as a keepalive |
| Client.PongLogsResponseId | client2.py:49-50 | a reply `[c] PONG n (k)` is logged with `c`, and not with `n` when they differ |
| Client.MalformedRaises | client2.py:49 | a non-keepalive line without `[` raises `IndexError`; one whose stripped form has a bracket body that is not an integer raises `ValueError` |
| Exchange.ClientReadsServer | client2.py:42-50 | on each server line that reaches it, the client logs a keepalive as a keepalive and a reply with its response id |
| Exchange.ClientLogsPositions | client2.py:49-50 | when the i-th line written carries id i, the client logs that line, if it reaches the client and is a reply, with the number i |
| Exchange.ClientLogsIdsInOrder | client2.py:49-50 | over any run of a new server instance, the client logs the i-th line written, if it reaches the client and is a reply, with the number i |

## Left out

- The asyncio event loop, `create_task`, `call_later`, `sleep` and task cancellation timing. Event order is an input sequence, and a `Fire` event names the timer that fires.
- Sockets, `transport.write`, `create_server`, `create_connection` and both `main()` functions: the model records what would be written, in order.
- `random.random()`, `random.randint(100, 1000)` and `random.uniform(0.3, 3.0)`: the first two are inputs with their ranges as preconditions. The client's sleep and the float conversion of the delay (`/ 1000.0`) are not modelled.
- `logging`, `datetime.now()` and `strftime`: log lines keep only their non-time fields.
- ASCII encoding and decoding, and non-ASCII whitespace and digits: lines are already-decoded ASCII text.
- TCP framing: each `data_received` payload is one message, as the code assumes.
- asyncio's handling of an exception escaping `data_received` (the transport is closed): a run stops at the first such exception.
- A keepalive loop already running when `connection_made` is called again on the same instance: asyncio calls it once per instance, and the model only records that the loop was started.
- Writes after `connection_lost`: the transport is closed by then, so the replies that pending timers write and the keepalives of later passes never reach the peer. The model still records them in what is written, and the `Exchange` lemmas speak only of lines the client reads.
- PyStr.ParseInt: does not model CPython's limit of 4300 digits on `int()` of a decimal string (Python 3.11 and the security releases before it). A longer digit run raises `ValueError` in CPython, but the model returns its value.
- PyStr.ParseShowInt: likewise ignores that limit, which also makes `str(i)` raise `ValueError` for an integer of more than 4300 digits. The round trip is stated for every integer.
- Wire.ExtractNumberStrip: holds only for lines without the information separators 0x1c-0x1f. With one next to the number, stripping can change the outcome (`Wire.SeparatorChangesNumber`).
- Client.DataReceivedRaw: holds only for lines without 0x1c-0x1f, for the same reason.
- Server.RemoveFirst: states which count and length change, not which occurrence is removed. On this instance's list every entry is the instance itself, so they are indistinguishable.
