# Moxie proxy session, modelled in Dafny

Moxie is a MogileFS tracker proxy. It has two pools of trackers:
- `trackers_a`, the primary: a write cache and local store.
- `trackers_b`, the secondary: a read-only fall-through store.

Each accepted client connection runs one session (`MThread.run`):
1. It reads the client's first request line.
2. It connects to the first candidate of each pool.
3. It forwards every request line to the primary.
4. If the primary answers `ERR unknown_key` or `ERR none_match`, the identical request is re-sent to the secondary and the secondary's answer goes to the client. Otherwise the primary's answer goes to the client verbatim.
5. The session ends at the client's empty read.

This project models that session as pure functions over sequences:
- The client's request lines, where the empty string is the empty read of a closed connection.
- Each tracker's answer lines, consumed one per forwarded request. Past the end, a read is empty, and the tracker still takes requests.
- The set of addresses that accept a connection.

A session produces a `Trace` with three parts:
- Every line written, tagged with where it went: the primary, the secondary or the client.
- The diagnostic messages that pass the verbosity gate.
- How the session ended: the client closed, a pool was down, or the failover check raised.

Modules:
- `Wrappers`: `Option` and `Result`.
- `PyText`: Python 2 `str.split()` with no separator, with its round trip and token lemmas.
- `PyParse`: `str.split(sep)` and `int()` on a decimal string, with round trips.
- `Failover`: the failover rule on the primary's answer, including the two shapes of answer that make the source raise `IndexError`.
- `Requests`: `req_pass`.
- `Logging`: the two verbosity levels, the command-line switch and the `debug` gate.
- `Connector`: `get_tracker_socket`, with candidate parsing and the first-candidate-only behaviour.
- `Session`: `forward_req`, the forwarding loop, and the session with its connection failures. `ServeLoop` is the loop written imperatively, with read positions and an accumulated output.
- `SessionProps`: what a session guarantees. It is built on independent reference definitions:
  - `Rounds`: the lines of the first `n` rounds.
  - `Replies`: the answers the client should get.
  - `FiredRequests`: the requests the secondary should hear.
  - `Route`: the channel of every line.
  - `StopAt`: where the loop stops.

Each reference definition has lemmas connecting it to the loop.

A few points where the model follows the code rather than its apparent intent:
- The failover condition indexes `s[0]` and `s[1]` of the split answer with no length check. An answer with no token, including the empty read of a tracker that has closed, ends the session with `IndexError`. So does the lone token `ERR`. Both are modelled as the outcome `Crashed(NoStatusToken)` or `Crashed(NoReasonToken)`: nothing more is written and the client socket is not closed. A lone token other than `ERR` is passed through, because the `and` short-circuits. The source's `[:2]` slice is modelled by reading tokens 0 and 1 directly, since the slice only bounds what the two indexings can see.
- In `get_tracker_socket`, the loop returns from inside its first iteration whether the connection succeeds or fails, so later candidates are never tried. An empty pool yields failure.
- The client's first request is read before either tracker is contacted (line 65). A client that closes at once still causes the connection attempts, and their failure messages are logged.

## Model

| member | source | states |
|---|---|---|
| PyText.SplitTokens | moxie.py:78 | every piece `split()` returns is non-empty and free of whitespace |
| PyText.SplitJoinSpace | moxie.py:78 | splitting tokens joined by single spaces gives back exactly those tokens |
| PyText.SplitKeepsVisible | moxie.py:78 | the tokens, glued together, are exactly the non-whitespace characters of the line, in order |
| PyText.SplitOverSpace | moxie.py:78 | leading whitespace never changes the tokens |
| PyText.SplitBlank | moxie.py:78 | a whitespace-only line, including the empty read, has no tokens |
| PyText.WordIsMaximal | moxie.py:78 | `Word` is the longest whitespace-free prefix; it is the first token of a line that does not start with whitespace |
| PyParse.SplitOn | moxie.py:104 | `split(':')` yields at least one field, no field contains `:`, and joining the fields with `:` restores the text |
| PyParse.SplitOnJoin | moxie.py:104 | fields free of `:`, joined with `:`, split back into exactly those fields |
| PyParse.ParseInt | moxie.py:107 | `int()` succeeds only when the stripped text starts with a digit or a sign; a negative value needs a leading minus |
| PyParse.ParseNumeral | moxie.py:107 | every well-formed numeral parses to its signed value: whitespace around it, an optional sign, whitespace after the sign, then ASCII digits |
| PyParse.ParseIntIsNumeral | moxie.py:107 | conversely, any text `int()` accepts is such a well-formed numeral, and the result is its value |
| PyParse.ParseShowNat | moxie.py:107 | the decimal text of a natural number parses back to it |
| PyParse.ParseShowNegative | moxie.py:107 | a minus sign in front of the decimal text parses to the negated value |
| Connector.ParseCandidate | moxie.py:104-107 | a parsed candidate's host is the text before its first `:`, and contains no `:` |
| Connector.Connect | moxie.py:105-110 | one attempt succeeds iff the candidate parses, its port is in 0..65535 and the address accepts connections |
| Connector.GetTrackerSocket | moxie.py:102-111 | an empty pool fails; a success is a reachable, valid address parsed from the first candidate; a connectable first candidate succeeds |
| Connector.LaterCandidatesIgnored | moxie.py:103-110 | the outcome depends on the first candidate only |
| Connector.FirstCandidateDecides | moxie.py:102-111 | a well-formed first candidate connects exactly when its address is reachable, whatever follows it |
| Connector.CandidateRoundTrip | moxie.py:104-107 | `host:port` parses to that host and port |
| Connector.CandidateNumeral | moxie.py:104-107 | any port text `int()` accepts, such as `h:+ 6001`, gives that host and the numeral's value |
| Connector.CandidatePort | moxie.py:104-107 | the candidate's result is `int()` of the text between the first `:` and the next `:` or the end, paired with the host; a non-numeric port gives nothing, as the `ValueError` does, and fields after it are ignored |
| Connector.CandidateExtraFields | moxie.py:104-107 | fields after the port are ignored |
| Connector.CandidateWithoutPort | moxie.py:104-110 | a candidate without `:` never yields a connection |
| Failover.DecideSpec | moxie.py:78-81 | the session fails over iff there are at least two tokens, the first is `ERR` and the second is `unknown_key` or `none_match`; it raises iff the line has no token, or is the lone token `ERR` |
| Failover.DecideByTwoTokens | moxie.py:78-81 | whatever follows the second token, and whatever whitespace surrounds the first two, the decision depends on those two tokens only |
| Failover.DecideBlank | moxie.py:78-81 | a blank answer raises on the missing status token |
| Failover.DecideLoneToken | moxie.py:78-81 | a lone `ERR` raises on the missing reason token; any other lone status is passed through |
| Requests.ReqPass | moxie.py:89-92 | false exactly when the first six characters are `DELETE` or `RENAME`; shorter lines always pass |
| Logging.Debug | moxie.py:113-115 | a message is emitted, once and unchanged, iff its level reaches the threshold |
| Logging.Verbosity | moxie.py:131-149 | error-level messages pass at both settings; debug-level messages pass iff `-v` was given |
| Session.Line | moxie.py:100 | every read past the end of a stream is empty |
| Session.Forward | moxie.py:94-100 | the request reaches the tracker verbatim, the answer is the tracker's next unread line, and the debug message is gated by the threshold |
| SessionProps.ForwardReadsStream | moxie.py:94-100 | forwarding requests one after another reads the tracker's answers in stream order, skipping and repeating none; the tracker hears exactly those requests; the log holds one gated message per request |
| Session.ServeAt | moxie.py:76-87 | the loop ends with the client's close or a crash, and writes nothing iff the current request is the empty read |
| Session.Serve | moxie.py:76-87 | the session's loop ends with the client's close or a crash, and writes nothing iff the first read is empty |
| Session.RunSession | moxie.py:61-75 | a failed primary means Down(primary) and the secondary is never tried; a failed secondary means Down(secondary); either way nothing is written and exactly the error message is logged; otherwise the loop runs |
| Session.StartSession | moxie.py:61-75 | the pools are down exactly when their first candidate does not connect, in that order, and nothing is written then |
| Session.ServeLoop | moxie.py:76-87 | the imperative loop produces exactly the trace of the functional loop |
| SessionProps.ServeStep | moxie.py:77-85 | one round reaches the primary and writes one answer to the client: the primary's, unless it fires the rule, in which case the request also goes to the secondary and the client gets the secondary's answer |
| SessionProps.RoundLines | moxie.py:77-84 | one round writes the request to the primary, writes it to the secondary iff the answer fires the rule, and writes exactly one line to the client |
| SessionProps.CrashNow | moxie.py:77-81 | a malformed primary answer stops the session after the request that drew it, with the error it raised |
| SessionProps.ClosedAt | moxie.py:76-87 | the client's empty read ends the session without a line or a message |
| SessionProps.PrefixWire | moxie.py:76-85 | after `n` completed rounds, the wire is the first `n` reference rounds followed by the loop from request `n`, with the secondary advanced once per earlier firing |
| SessionProps.PrefixOutcome | moxie.py:76-85 | after `n` completed rounds, the session ends as the loop from request `n` does |
| SessionProps.ServeIsRounds | moxie.py:76-87 | a client that sends `n` requests and closes gets exactly the first `n` reference rounds and a clean close |
| SessionProps.ServeIsRoundsThenCrash | moxie.py:76-81 | a malformed answer to request `k` gives the first `k` rounds, then request `k` to the primary, then the crash |
| SessionProps.StopAtSpec | moxie.py:76-81 | every round before the stop completes, and the stop is the client's close or a malformed answer |
| SessionProps.ServeShape | moxie.py:76-87 | every session, for any input, is the rounds up to its stop, followed by either a clean close or the one request whose answer crashed the loop |
| SessionProps.ServeForwardsAll | moxie.py:76-85 | with `n` requests and then a close, the primary hears exactly those `n` lines, in order |
| SessionProps.ServeAnswersInOrder | moxie.py:76-85 | the client gets exactly one answer per request, in request order: the primary's answer, or the secondary's next answer when the primary's fired the rule |
| SessionProps.ServeFailsOverExactly | moxie.py:78-82 | the secondary hears exactly the requests whose primary answer fired the rule, in order, the request of the k-th firing in position k |
| SessionProps.ServeStopsAtCrash | moxie.py:76-83 | after a crash at request `k`, the primary has heard the first `k+1` requests and the client has the answers to the first `k` only |
| SessionProps.RepliesAt | moxie.py:83 | the reference answers list has one entry per request, entry `i` being the line chosen for request `i` |
| SessionProps.FiredRequestsAt | moxie.py:81-82 | the reference secondary stream has one entry per firing, in firing order |
| SessionProps.RoundsForwarded | moxie.py:77 | the reference rounds send the requests to the primary in order |
| SessionProps.RoundsReplies | moxie.py:83 | the reference rounds answer the client as the reference answers list says |
| SessionProps.RoundsFailOver | moxie.py:81-82 | the reference rounds send the secondary exactly the fired requests |
| SessionProps.RoundsRoute | moxie.py:77-83 | the channels of the reference rounds depend on the primary's answers only |
| SessionProps.ServeLockstep | moxie.py:76-85 | no pipelining: the secondary is asked only right after the primary was asked the same request, the client is answered only right after a tracker was asked, a new request goes out only after the previous answer, and the session starts with the first request to the primary |
| SessionProps.ServeLog | moxie.py:95 | at the debug threshold, each line sent to a tracker is logged once with its pool, in order; at the error threshold the loop logs nothing |
| SessionProps.SameEndStop | moxie.py:76-81 | clients whose reads are empty at the same positions, up to the first empty read, stop the loop at the same request |
| SessionProps.ServeIgnoresRequestText | moxie.py:76-85 | clients whose streams end at the same point get the same answers and the same routing, and end the same way: the request text never decides anything |
| SessionProps.DestructiveRequestsFailOver | moxie.py:76-85 | at any position of the session, a `DELETE` or `RENAME` that `req_pass` rejects is still re-sent to the read-only secondary when the primary's answer to it fires the rule; it is the secondary's line for that firing |
| SessionProps.OutageAlwaysReported | moxie.py:66-74 | a failed pool is logged at both verbosity settings and the client gets no line |

## Left out

- Sockets, `makefile`, `write`/`flush` and `readline` are left out because they are I/O. Streams are sequences of lines, and the lines a session writes are a list of events.
- Writing an empty answer to the client is recorded as an event carrying the empty line. On the wire, that write produces no bytes.
- `socket.connect` is left out because it is network I/O. Reachability is a set of addresses given as a parameter.
- Exceptions other than the modelled `IndexError`, `ValueError` and out-of-range port inside `get_tracker_socket`, such as a socket that cannot be created, are left out because they depend on the operating system.
- The thread dying on `IndexError` is modelled as the outcome `Crashed`. What the interpreter prints and which sockets stay open are left out, because they are runtime behaviour.
- `threading.Thread` and the `serve` accept loop are left out because they concern concurrency. Sessions share no state, so one session is modelled at a time.
- `main` and `getopt` argument parsing are left out because they are command-line plumbing. Only the effect of `-v`/`--verbose` on the threshold is modelled, as `Logging.Verbosity`.
- `print` to standard error is left out because it is I/O. The log is the list of messages that pass the gate.
- The concrete hostnames and local port of the global `config` are left out because they are deployment data. The pools are parameters.
- Session.Forward: a tracker whose stream has ended is modelled as half-closed. It still takes every later request and answers each with the empty read, so the session can go on to `ClientClosed`. In the source, once a tracker has fully closed, the next `forward_req` raises `socket.error` from `getpeername()` or `flush()` and the thread dies; that raise is not modelled. A tracker that stops answering without closing blocks `readline` forever, which a sequence of lines cannot express.
- Session.Forward: the debug message carries the pool's name instead of `getpeername()[0]`. The peer's address is a property of the live socket and is not modelled.
- PyParse.ParseInt: it models `int()` on base-10 byte strings only: surrounding whitespace, an optional sign, whitespace after the sign, and ASCII digits. `int()` also accepts a `long` value; that is immaterial here, because any value outside 0..65535 fails the connection anyway.
- Connector.Connect: a port outside 0..65535 fails like an unreachable address. The different exception types all end in the same `except` clause.
