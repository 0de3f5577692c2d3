/**
  One proxy session, from the accepted client connection to its end.  Sockets
  are replaced by sequences: the client's request lines (an empty line is the
  empty read of a closed connection), and for each tracker the lines it answers
  with, one per request forwarded to it.  The session's observable behaviour is
  a `Trace`: every line written, in order and tagged with where it went, what
  reached standard error, and how the session ended.
 */
module Session {
  import opened Failover
  import opened Logging
  import opened Connector

  /** `trackers_a` is the primary (write/cache) pool, `trackers_b` the
      secondary (fall-through read) pool. */
  datatype Pool = Primary | Secondary

  datatype Pools = Pools(primary: seq<string>, secondary: seq<string>)

  function Candidates(pools: Pools, pool: Pool): seq<string>
  {
    match pool
    case Primary => pools.primary
    case Secondary => pools.secondary
  }

  /** Where a line is written: to one of the session's tracker connections
      or back to the client. */
  datatype Channel = ToTracker(pool: Pool) | ToClient

  datatype Event = Event(channel: Channel, line: string)

  /** Messages `debug` is called with.  The forwarded-request message names
      the pool rather than the peer's address. */
  datatype LogLine =
    | TrackerDown(pool: Pool, candidates: seq<string>)
    | Forwarded(pool: Pool, req: string)

  datatype Outcome =
    | ClientClosed        // the client's empty read; the client socket is closed
    | Down(pool: Pool)    // that pool's connection failed at start-up
    | Crashed(why: Crash) // the failover check raised on a malformed response

  datatype Trace = Trace(wire: seq<Event>, log: seq<LogLine>, outcome: Outcome)

  /** The i-th line of a stream; past its end every read is empty, as
      `readline` returns "" at the end of the stream.  A tracker whose
      stream has ended is thus one that has stopped sending but still
      takes requests. */
  function Line(stream: seq<string>, i: nat): (line: string)
    ensures i >= |stream| ==> line == ""
  {
    if i < |stream| then stream[i] else ""
  }

  /** The lines written to one channel, in order. */
  function Lines(wire: seq<Event>, channel: Channel): seq<string>
  {
    if wire == [] then []
    else (if wire[0].channel == channel then [wire[0].line] else []) + Lines(wire[1..], channel)
  }

  /** One request sent to a tracker and its answer read back. */
  datatype Exchange = Exchange(sent: Event, log: seq<LogLine>, resp: string)

  /** `forward_req`: the request goes to the tracker verbatim, the debug
      message is gated by the threshold, and the answer is the next unread
      line of the tracker's stream, the one at position `pos`. */
  function Forward(pool: Pool, req: string, answers: seq<string>, pos: nat, threshold: int): (x: Exchange)
    ensures x.sent == Event(ToTracker(pool), req)
    ensures pos < |answers| ==> x.resp == answers[pos]
    ensures pos >= |answers| ==> x.resp == ""
    ensures x.log == Debug(LevelDebug, Forwarded(pool, req), threshold)
  {
    Exchange(Event(ToTracker(pool), req), Debug(LevelDebug, Forwarded(pool, req), threshold), Line(answers, pos))
  }

  /** Lines written and logged before the rest of a trace. */
  function Then(wire: seq<Event>, log: seq<LogLine>, t: Trace): Trace
  {
    Trace(wire + t.wire, log + t.log, t.outcome)
  }

  lemma ThenThen(w1: seq<Event>, l1: seq<LogLine>, w2: seq<Event>, l2: seq<LogLine>, t: Trace)
    ensures Then(w1, l1, Then(w2, l2, t)) == Then(w1 + w2, l1 + l2, t)
  {
    assert w1 + (w2 + t.wire) == (w1 + w2) + t.wire;
    assert l1 + (l2 + t.log) == (l1 + l2) + t.log;
  }

  /** The `while req:` loop with both tracker connections open, from the
      client's request `i` on.  Every earlier request drew exactly one line
      from the primary, so its next answer is line `i`; the secondary has
      answered `si` lines so far. */
  function ServeAt(reqs: seq<string>, primary: seq<string>, secondary: seq<string>, threshold: int,
                   i: nat, si: nat): (t: Trace)
    ensures t.outcome == ClientClosed || t.outcome.Crashed?
    ensures t.wire == [] <==> Line(reqs, i) == ""
    decreases |reqs| - i
  {
    if i >= |reqs| || reqs[i] == "" then Trace([], [], ClientClosed)
    else
      var req := reqs[i];
      var p := Forward(Primary, req, primary, i, threshold);
      match Decide(p.resp)
      case Failure(why) => Trace([p.sent], p.log, Crashed(why))
      case Success(fire) =>
        if fire then
          var s := Forward(Secondary, req, secondary, si, threshold);
          Then([p.sent, s.sent, Event(ToClient, s.resp)], p.log + s.log,
               ServeAt(reqs, primary, secondary, threshold, i + 1, si + 1))
        else
          Then([p.sent, Event(ToClient, p.resp)], p.log,
               ServeAt(reqs, primary, secondary, threshold, i + 1, si))
  }

  /** The loop from the session's first request. */
  function Serve(reqs: seq<string>, primary: seq<string>, secondary: seq<string>, threshold: int): (t: Trace)
    ensures t.outcome == ClientClosed || t.outcome.Crashed?
    ensures t.wire == [] <==> Line(reqs, 0) == ""
  {
    ServeAt(reqs, primary, secondary, threshold, 0, 0)
  }

  /** `MThread.run` given the two connection outcomes: a failed connection
      is logged at the error level and ends the session before anything is
      written to the client or to a tracker, and a failed primary means the
      secondary is never tried. */
  function RunSession(pools: Pools, primaryUp: bool, secondaryUp: bool,
                      reqs: seq<string>, primary: seq<string>, secondary: seq<string>,
                      threshold: int): (t: Trace)
    ensures t.outcome == Down(Primary) <==> !primaryUp
    ensures t.outcome == Down(Secondary) <==> primaryUp && !secondaryUp
    ensures t.outcome.Down? ==> t.wire == []
    ensures t.outcome.Down? ==>
              t.log == Debug(LevelError, TrackerDown(t.outcome.pool, Candidates(pools, t.outcome.pool)), threshold)
    ensures !t.outcome.Down? ==> t == Serve(reqs, primary, secondary, threshold)
  {
    if !primaryUp then
      Trace([], Debug(LevelError, TrackerDown(Primary, pools.primary), threshold), Down(Primary))
    else if !secondaryUp then
      Trace([], Debug(LevelError, TrackerDown(Secondary, pools.secondary), threshold), Down(Secondary))
    else
      Serve(reqs, primary, secondary, threshold)
  }

  /** A whole session: both pools are connected through `get_tracker_socket`
      against the addresses that accept connections, then the loop runs. */
  function StartSession(pools: Pools, reachable: set<Address>,
                        reqs: seq<string>, primary: seq<string>, secondary: seq<string>,
                        threshold: int): (t: Trace)
    ensures t.outcome == Down(Primary) <==> GetTrackerSocket(pools.primary, reachable).None?
    ensures t.outcome == Down(Secondary) <==>
              GetTrackerSocket(pools.primary, reachable).Some? && GetTrackerSocket(pools.secondary, reachable).None?
    ensures t.outcome.Down? ==> t.wire == []
  {
    RunSession(pools, GetTrackerSocket(pools.primary, reachable).Some?,
               GetTrackerSocket(pools.secondary, reachable).Some?,
               reqs, primary, secondary, threshold)
  }

  /** The loop as the source writes it, with mutable read positions and an
      accumulated output; it produces exactly the trace of `Serve`. */
  method ServeLoop(reqs: seq<string>, primary: seq<string>, secondary: seq<string>, threshold: int)
    returns (t: Trace)
    ensures t == Serve(reqs, primary, secondary, threshold)
  {
    var wire: seq<Event> := [];
    var log: seq<LogLine> := [];
    var i, si := 0, 0;
    var req := Line(reqs, 0);
    while req != ""
      invariant 0 <= i <= |reqs|
      invariant req == Line(reqs, i)
      invariant Then(wire, log, ServeAt(reqs, primary, secondary, threshold, i, si))
             == Serve(reqs, primary, secondary, threshold)
      decreases |reqs| - i
    {
      ghost var before := ServeAt(reqs, primary, secondary, threshold, i, si);
      var p := Forward(Primary, req, primary, i, threshold);
      var resp := p.resp;
      match Decide(resp) {
        case Failure(why) =>
          assert before == Trace([p.sent], p.log, Crashed(why));
          return Trace(wire + [p.sent], log + p.log, Crashed(why));
        case Success(fire) =>
          if fire {
            var s := Forward(Secondary, req, secondary, si, threshold);
            ghost var after := ServeAt(reqs, primary, secondary, threshold, i + 1, si + 1);
            assert before == Then([p.sent, s.sent, Event(ToClient, s.resp)], p.log + s.log, after);
            ThenThen(wire, log, [p.sent, s.sent, Event(ToClient, s.resp)], p.log + s.log, after);
            wire := wire + [p.sent, s.sent, Event(ToClient, s.resp)];
            log := log + (p.log + s.log);
            si := si + 1;
          } else {
            ghost var after := ServeAt(reqs, primary, secondary, threshold, i + 1, si);
            assert before == Then([p.sent, Event(ToClient, p.resp)], p.log, after);
            ThenThen(wire, log, [p.sent, Event(ToClient, p.resp)], p.log, after);
            wire := wire + [p.sent, Event(ToClient, resp)];
            log := log + p.log;
          }
      }
      i := i + 1;
      req := Line(reqs, i);
    }
    assert ServeAt(reqs, primary, secondary, threshold, i, si).wire == [];
    assert wire + [] == wire && log + [] == log;
    t := Trace(wire, log, ClientClosed);
  }
}
