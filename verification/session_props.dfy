/**
  What a proxy session guarantees about the lines it relays: order, which
  tracker hears which request, what the client gets back, when the session
  stops, and what it logs.
 */
module SessionProps {
  import opened Failover
  import opened Logging
  import opened Requests
  import opened Session

  /** How many of the primary's first `n` answers fire the failover rule:
      the number of requests the secondary has been sent before request `n`. */
  function FiredBefore(primary: seq<string>, n: nat): (k: nat)
    ensures k <= n
  {
    if n == 0 then 0 else FiredBefore(primary, n - 1) + (if Fires(Line(primary, n - 1)) then 1 else 0)
  }

  /** The line the client should get for request `i`: the primary's answer,
      or, when that answer fires the rule, the secondary's next answer. */
  function Chosen(primary: seq<string>, secondary: seq<string>, i: nat): string
  {
    if Fires(Line(primary, i)) then Line(secondary, FiredBefore(primary, i)) else Line(primary, i)
  }

  /** The debug message a line calls for: one per line sent to a tracker. */
  function Logged(e: Event): seq<LogLine>
  {
    match e.channel
    case ToTracker(pool) => [Forwarded(pool, e.line)]
    case ToClient => []
  }

  /** The debug messages a wire trace calls for, in order. */
  function ForwardLog(wire: seq<Event>): seq<LogLine>
  {
    if wire == [] then [] else Logged(wire[0]) + ForwardLog(wire[1..])
  }

  /** Where each line of a trace went, without its text. */
  function Channels(wire: seq<Event>): seq<Channel>
  {
    if wire == [] then [] else [wire[0].channel] + Channels(wire[1..])
  }

  /** No pipelining: the secondary is asked only right after the primary was
      asked the same request, the client is answered only right after a
      tracker was asked, and a new request goes to the primary only after the
      previous one was answered. */
  predicate Lockstep(wire: seq<Event>)
  {
    && (forall i :: 0 <= i < |wire| && wire[i].channel == ToTracker(Secondary) ==>
          0 < i && wire[i - 1] == Event(ToTracker(Primary), wire[i].line))
    && (forall i :: 0 <= i < |wire| && wire[i].channel == ToClient ==>
          0 < i && wire[i - 1].channel.ToTracker?)
    && (forall i :: 0 < i < |wire| && wire[i].channel == ToTracker(Primary) ==>
          wire[i - 1].channel == ToClient)
  }

  lemma {:induction false} LinesAppend(a: seq<Event>, b: seq<Event>, channel: Channel)
    ensures Lines(a + b, channel) == Lines(a, channel) + Lines(b, channel)
    decreases |a|
  {
    if a == [] {
      assert a + b == b;
    } else {
      assert (a + b)[1..] == a[1..] + b;
      LinesAppend(a[1..], b, channel);
    }
  }

  lemma {:induction false} ForwardLogAppend(a: seq<Event>, b: seq<Event>)
    ensures ForwardLog(a + b) == ForwardLog(a) + ForwardLog(b)
    decreases |a|
  {
    if a == [] {
      assert a + b == b;
    } else {
      assert (a + b)[1..] == a[1..] + b;
      ForwardLogAppend(a[1..], b);
    }
  }

  lemma {:induction false} ChannelsAppend(a: seq<Event>, b: seq<Event>)
    ensures Channels(a + b) == Channels(a) + Channels(b)
    decreases |a|
  {
    if a == [] {
      assert a + b == b;
    } else {
      assert (a + b)[1..] == a[1..] + b;
      ChannelsAppend(a[1..], b);
    }
  }

  lemma AppendAssoc<T>(a: seq<T>, b: seq<T>, c: seq<T>)
    ensures a + (b + c) == (a + b) + c
  {
  }

  lemma PrefixSnoc<T>(s: seq<T>, k: nat)
    requires k < |s|
    ensures s[..k] + [s[k]] == s[..k + 1]
  {
  }

  /** One round of the loop that the primary answers. */
  function PassHead(req: string, resp: string): seq<Event>
  {
    [Event(ToTracker(Primary), req), Event(ToClient, resp)]
  }

  /** One round of the loop that falls over to the secondary. */
  function FailHead(req: string, resp: string): seq<Event>
  {
    [Event(ToTracker(Primary), req), Event(ToTracker(Secondary), req), Event(ToClient, resp)]
  }

  /** The lines one round writes, given the primary's answer and the
      secondary's next unread line. */
  function Round(req: string, answer: string, fallback: string): seq<Event>
  {
    if Fires(answer) then FailHead(req, fallback) else PassHead(req, answer)
  }

  /** The secondary's read position after a round that started at `si`. */
  function SecondaryAfter(primary: seq<string>, i: nat, si: nat): nat
  {
    si + (if Fires(Line(primary, i)) then 1 else 0)
  }

  /** The line an event contributes to one channel's stream. */
  function Own(e: Event, channel: Channel): seq<string>
  {
    if e.channel == channel then [e.line] else []
  }

  lemma LinesCons(e: Event, rest: seq<Event>, channel: Channel)
    ensures Lines([e] + rest, channel) == Own(e, channel) + Lines(rest, channel)
  {
    assert ([e] + rest)[1..] == rest;
  }

  lemma ForwardLogCons(e: Event, rest: seq<Event>)
    ensures ForwardLog([e] + rest) == Logged(e) + ForwardLog(rest)
  {
    assert ([e] + rest)[1..] == rest;
  }

  lemma ChannelsCons(e: Event, rest: seq<Event>)
    ensures Channels([e] + rest) == [e.channel] + Channels(rest)
  {
    assert ([e] + rest)[1..] == rest;
  }

  lemma LinesPair(e0: Event, e1: Event, channel: Channel)
    ensures Lines([e0, e1], channel) == Own(e0, channel) + Own(e1, channel)
  {
    LinesCons(e1, [], channel);
    assert [e0, e1] == [e0] + [e1] && [e1] == [e1] + [];
    LinesCons(e0, [e1], channel);
  }

  lemma LinesTriple(e0: Event, e1: Event, e2: Event, channel: Channel)
    ensures Lines([e0, e1, e2], channel) == Own(e0, channel) + Own(e1, channel) + Own(e2, channel)
  {
    LinesPair(e1, e2, channel);
    assert [e0, e1, e2] == [e0] + [e1, e2];
    LinesCons(e0, [e1, e2], channel);
  }

  /** What one round writes to each channel. */
  lemma RoundLines(req: string, answer: string, fallback: string)
    ensures Lines(Round(req, answer, fallback), ToTracker(Primary)) == [req]
    ensures Lines(Round(req, answer, fallback), ToTracker(Secondary)) == if Fires(answer) then [req] else []
    ensures Lines(Round(req, answer, fallback), ToClient) == [if Fires(answer) then fallback else answer]
  {
    var p, s, c := Event(ToTracker(Primary), req), Event(ToTracker(Secondary), req), ToClient;
    if Fires(answer) {
      var e := Event(ToClient, fallback);
      LinesTriple(p, s, e, ToTracker(Primary));
      LinesTriple(p, s, e, ToTracker(Secondary));
      LinesTriple(p, s, e, ToClient);
    } else {
      var e := Event(ToClient, answer);
      LinesPair(p, e, ToTracker(Primary));
      LinesPair(p, e, ToTracker(Secondary));
      LinesPair(p, e, ToClient);
    }
  }

  /** One round of the loop followed by the rest of the session: the
      request reaches the primary, and the client gets the primary's answer
      verbatim unless it fires the rule, in which case the identical request
      goes to the secondary and the client gets the secondary's answer. */
  lemma ServeStep(reqs: seq<string>, primary: seq<string>, secondary: seq<string>, threshold: int, i: nat, si: nat)
    requires Line(reqs, i) != "" && Decide(Line(primary, i)).Success?
    ensures ServeAt(reqs, primary, secondary, threshold, i, si).wire
         == Round(reqs[i], Line(primary, i), Line(secondary, si))
            + ServeAt(reqs, primary, secondary, threshold, i + 1, SecondaryAfter(primary, i, si)).wire
    ensures ServeAt(reqs, primary, secondary, threshold, i, si).outcome
         == ServeAt(reqs, primary, secondary, threshold, i + 1, SecondaryAfter(primary, i, si)).outcome
  {
  }

  /** A malformed answer from the primary ends the session at once, after
      the request that drew it. */
  lemma CrashNow(reqs: seq<string>, primary: seq<string>, secondary: seq<string>, threshold: int, i: nat, si: nat)
    requires Line(reqs, i) != "" && Decide(Line(primary, i)).Failure?
    ensures ServeAt(reqs, primary, secondary, threshold, i, si).wire == [Event(ToTracker(Primary), reqs[i])]
    ensures ServeAt(reqs, primary, secondary, threshold, i, si).outcome == Crashed(Decide(Line(primary, i)).error)
  {
  }

  /** The client's empty read ends the loop without a line or a message. */
  lemma ClosedAt(reqs: seq<string>, primary: seq<string>, secondary: seq<string>, threshold: int, i: nat, si: nat)
    requires Line(reqs, i) == ""
    ensures ServeAt(reqs, primary, secondary, threshold, i, si) == Trace([], [], ClientClosed)
  {
  }

  /** The client's stream holds `n` requests and then the empty read. */
  predicate EndsAt(reqs: seq<string>, n: nat)
  {
    n <= |reqs| && Line(reqs, n) == "" && forall i :: 0 <= i < n ==> reqs[i] != ""
  }

  /** The primary's first `n` answers all get past the failover check. */
  predicate Parsable(primary: seq<string>, n: nat)
  {
    forall i :: 0 <= i < n ==> Decide(Line(primary, i)).Success?
  }

  /** The loop has run `n` full rounds: the client sent `n` requests and the
      primary answered each of them with a line that passed the check. */
  predicate Served(reqs: seq<string>, primary: seq<string>, n: nat)
  {
    n <= |reqs| && (forall i :: 0 <= i < n ==> reqs[i] != "") && Parsable(primary, n)
  }

  /** The round for request `i`, as a reference independent of the loop:
      the primary's answer is its line `i`, and the secondary's fallback is
      its line numbered by how many earlier answers fired the rule. */
  function RoundAt(reqs: seq<string>, primary: seq<string>, secondary: seq<string>, i: nat): seq<Event>
    requires i < |reqs|
  {
    Round(reqs[i], Line(primary, i), Line(secondary, FiredBefore(primary, i)))
  }

  /** The lines the first `n` rounds write. */
  function Rounds(reqs: seq<string>, primary: seq<string>, secondary: seq<string>, n: nat): seq<Event>
    requires n <= |reqs|
  {
    if n == 0 then [] else Rounds(reqs, primary, secondary, n - 1) + RoundAt(reqs, primary, secondary, n - 1)
  }

  lemma RoundsSnoc(reqs: seq<string>, primary: seq<string>, secondary: seq<string>, n: nat)
    requires 0 < n <= |reqs|
    ensures Rounds(reqs, primary, secondary, n)
         == Rounds(reqs, primary, secondary, n - 1) + RoundAt(reqs, primary, secondary, n - 1)
  {
  }

  /** After `n` full rounds the session has written the first `n` rounds,
      and the rest of it is the loop from request `n`, with the secondary
      having answered once per earlier firing. */
  lemma {:induction false} PrefixWire(reqs: seq<string>, n: nat,
                                      primary: seq<string>, secondary: seq<string>, threshold: int)
    requires Served(reqs, primary, n)
    ensures Serve(reqs, primary, secondary, threshold).wire
         == Rounds(reqs, primary, secondary, n)
            + ServeAt(reqs, primary, secondary, threshold, n, FiredBefore(primary, n)).wire
    decreases n
  {
    if n > 0 {
      var i := n - 1;
      var done := Rounds(reqs, primary, secondary, i);
      var round := RoundAt(reqs, primary, secondary, i);
      var rest := ServeAt(reqs, primary, secondary, threshold, i, FiredBefore(primary, i)).wire;
      var after := ServeAt(reqs, primary, secondary, threshold, n, FiredBefore(primary, n)).wire;
      assert Served(reqs, primary, i);
      PrefixWire(reqs, i, primary, secondary, threshold);
      ServeStep(reqs, primary, secondary, threshold, i, FiredBefore(primary, i));
      assert SecondaryAfter(primary, i, FiredBefore(primary, i)) == FiredBefore(primary, n);
      assert rest == round + after;
      RoundsSnoc(reqs, primary, secondary, n);
      Regroup(Serve(reqs, primary, secondary, threshold).wire, done, round, rest, after);
    }
  }

  lemma Regroup(whole: seq<Event>, done: seq<Event>, round: seq<Event>, rest: seq<Event>, after: seq<Event>)
    requires whole == done + rest && rest == round + after
    ensures whole == (done + round) + after
  {
  }

  /** After `n` full rounds the session ends as the loop from request `n` does. */
  lemma {:induction false} PrefixOutcome(reqs: seq<string>, n: nat,
                                         primary: seq<string>, secondary: seq<string>, threshold: int)
    requires Served(reqs, primary, n)
    ensures Serve(reqs, primary, secondary, threshold).outcome
         == ServeAt(reqs, primary, secondary, threshold, n, FiredBefore(primary, n)).outcome
    decreases n
  {
    if n > 0 {
      var i := n - 1;
      assert Served(reqs, primary, i);
      PrefixOutcome(reqs, i, primary, secondary, threshold);
      ServeStep(reqs, primary, secondary, threshold, i, FiredBefore(primary, i));
      assert SecondaryAfter(primary, i, FiredBefore(primary, i)) == FiredBefore(primary, n);
    }
  }

  /** A session that reads `n` requests and then the client's empty read
      writes exactly the first `n` rounds and ends normally. */
  lemma ServeIsRounds(reqs: seq<string>, n: nat,
                      primary: seq<string>, secondary: seq<string>, threshold: int)
    requires EndsAt(reqs, n) && Parsable(primary, n)
    ensures Serve(reqs, primary, secondary, threshold).wire == Rounds(reqs, primary, secondary, n)
    ensures Serve(reqs, primary, secondary, threshold).outcome == ClientClosed
  {
    PrefixWire(reqs, n, primary, secondary, threshold);
    PrefixOutcome(reqs, n, primary, secondary, threshold);
    var rest := ServeAt(reqs, primary, secondary, threshold, n, FiredBefore(primary, n));
    assert rest == Trace([], [], ClientClosed);
    assert Rounds(reqs, primary, secondary, n) + [] == Rounds(reqs, primary, secondary, n);
  }

  /** The client's stream holds at least `k + 1` requests, and the primary
      answers the first `k` of them with lines that pass the failover check
      and the next with one that does not. */
  predicate CrashesAt(reqs: seq<string>, primary: seq<string>, k: nat)
  {
    && k < |reqs| && (forall i :: 0 <= i <= k ==> reqs[i] != "")
    && Parsable(primary, k) && Decide(Line(primary, k)).Failure?
  }

  /** A malformed primary answer to request `k`: the first `k` rounds are
      written, then request `k` reaches the primary, and the session stops
      with the `IndexError` it raised. */
  lemma ServeIsRoundsThenCrash(reqs: seq<string>, k: nat,
                               primary: seq<string>, secondary: seq<string>, threshold: int)
    requires CrashesAt(reqs, primary, k)
    ensures Serve(reqs, primary, secondary, threshold).wire
         == Rounds(reqs, primary, secondary, k) + [Event(ToTracker(Primary), reqs[k])]
    ensures Serve(reqs, primary, secondary, threshold).outcome == Crashed(Decide(Line(primary, k)).error)
  {
    assert Served(reqs, primary, k);
    PrefixWire(reqs, k, primary, secondary, threshold);
    PrefixOutcome(reqs, k, primary, secondary, threshold);
    CrashNow(reqs, primary, secondary, threshold, k, FiredBefore(primary, k));
  }

  /** The answers the client should get for its first `n` requests. */
  function Replies(primary: seq<string>, secondary: seq<string>, n: nat): seq<string>
  {
    if n == 0 then [] else Replies(primary, secondary, n - 1) + [Chosen(primary, secondary, n - 1)]
  }

  /** The requests the secondary should hear among the first `n`: exactly
      those whose primary answer fires the rule, in order. */
  function FiredRequests(reqs: seq<string>, primary: seq<string>, n: nat): seq<string>
    requires n <= |reqs|
  {
    if n == 0 then []
    else FiredRequests(reqs, primary, n - 1) + (if Fires(Line(primary, n - 1)) then [reqs[n - 1]] else [])
  }

  lemma {:induction false} RepliesAt(primary: seq<string>, secondary: seq<string>, n: nat)
    ensures |Replies(primary, secondary, n)| == n
    ensures forall i :: 0 <= i < n ==> Replies(primary, secondary, n)[i] == Chosen(primary, secondary, i)
    decreases n
  {
    if n > 0 {
      RepliesAt(primary, secondary, n - 1);
    }
  }

  /** The k-th request the secondary hears is the one of the k-th firing. */
  lemma {:induction false} FiredRequestsAt(reqs: seq<string>, primary: seq<string>, n: nat)
    requires n <= |reqs|
    ensures |FiredRequests(reqs, primary, n)| == FiredBefore(primary, n)
    ensures forall i :: 0 <= i < n && Fires(Line(primary, i)) ==>
              FiredBefore(primary, i) < FiredBefore(primary, n)
              && FiredRequests(reqs, primary, n)[FiredBefore(primary, i)] == reqs[i]
    decreases n
  {
    if n > 0 {
      FiredRequestsAt(reqs, primary, n - 1);
      var before := FiredRequests(reqs, primary, n - 1);
      var after := FiredRequests(reqs, primary, n);
      forall i | 0 <= i < n && Fires(Line(primary, i))
        ensures FiredBefore(primary, i) < FiredBefore(primary, n) && after[FiredBefore(primary, i)] == reqs[i]
      {
        if i < n - 1 {
          assert after[FiredBefore(primary, i)] == before[FiredBefore(primary, i)];
        }
      }
    }
  }

  /** The primary hears the requests of the rounds, in order. */
  lemma {:induction false} RoundsForwarded(reqs: seq<string>, primary: seq<string>, secondary: seq<string>, n: nat)
    requires n <= |reqs|
    ensures Lines(Rounds(reqs, primary, secondary, n), ToTracker(Primary)) == reqs[..n]
    decreases n
  {
    if n > 0 {
      var i := n - 1;
      assert Rounds(reqs, primary, secondary, n) == Rounds(reqs, primary, secondary, i) + RoundAt(reqs, primary, secondary, i);
      RoundsForwarded(reqs, primary, secondary, i);
      RoundLines(reqs[i], Line(primary, i), Line(secondary, FiredBefore(primary, i)));
      LinesAppend(Rounds(reqs, primary, secondary, i), RoundAt(reqs, primary, secondary, i), ToTracker(Primary));
      PrefixSnoc(reqs, i);
    }
  }

  /** The client gets the answers `Replies` describes, in request order. */
  lemma {:induction false} RoundsReplies(reqs: seq<string>, primary: seq<string>, secondary: seq<string>, n: nat)
    requires n <= |reqs|
    ensures Lines(Rounds(reqs, primary, secondary, n), ToClient) == Replies(primary, secondary, n)
    decreases n
  {
    if n > 0 {
      var i := n - 1;
      assert Rounds(reqs, primary, secondary, n) == Rounds(reqs, primary, secondary, i) + RoundAt(reqs, primary, secondary, i);
      RoundsReplies(reqs, primary, secondary, i);
      RoundLines(reqs[i], Line(primary, i), Line(secondary, FiredBefore(primary, i)));
      LinesAppend(Rounds(reqs, primary, secondary, i), RoundAt(reqs, primary, secondary, i), ToClient);
      assert Replies(primary, secondary, n) == Replies(primary, secondary, i) + [Chosen(primary, secondary, i)];
    }
  }

  /** The secondary hears the requests `FiredRequests` selects, in order. */
  lemma {:induction false} RoundsFailOver(reqs: seq<string>, primary: seq<string>, secondary: seq<string>, n: nat)
    requires n <= |reqs|
    ensures Lines(Rounds(reqs, primary, secondary, n), ToTracker(Secondary)) == FiredRequests(reqs, primary, n)
    decreases n
  {
    if n > 0 {
      var i := n - 1;
      assert Rounds(reqs, primary, secondary, n) == Rounds(reqs, primary, secondary, i) + RoundAt(reqs, primary, secondary, i);
      RoundsFailOver(reqs, primary, secondary, i);
      RoundLines(reqs[i], Line(primary, i), Line(secondary, FiredBefore(primary, i)));
      LinesAppend(Rounds(reqs, primary, secondary, i), RoundAt(reqs, primary, secondary, i), ToTracker(Secondary));
      assert FiredRequests(reqs, primary, n)
          == FiredRequests(reqs, primary, i) + (if Fires(Line(primary, i)) then [reqs[i]] else []);
    }
  }

  /** A session that reads `n` requests and then the client's empty read
      ends normally, and the primary hears exactly those `n` lines, in order. */
  lemma ServeForwardsAll(reqs: seq<string>, n: nat,
                         primary: seq<string>, secondary: seq<string>, threshold: int)
    requires EndsAt(reqs, n) && Parsable(primary, n)
    ensures Serve(reqs, primary, secondary, threshold).outcome == ClientClosed
    ensures Lines(Serve(reqs, primary, secondary, threshold).wire, ToTracker(Primary)) == reqs[..n]
  {
    ServeIsRounds(reqs, n, primary, secondary, threshold);
    RoundsForwarded(reqs, primary, secondary, n);
  }

  /** The client gets exactly one answer per request, in request order: the
      primary's answer verbatim, or the secondary's next answer when the
      primary's fired the failover rule. */
  lemma ServeAnswersInOrder(reqs: seq<string>, n: nat,
                            primary: seq<string>, secondary: seq<string>, threshold: int)
    requires EndsAt(reqs, n) && Parsable(primary, n)
    ensures |Lines(Serve(reqs, primary, secondary, threshold).wire, ToClient)| == n
    ensures forall i :: 0 <= i < n ==>
              Lines(Serve(reqs, primary, secondary, threshold).wire, ToClient)[i] == Chosen(primary, secondary, i)
  {
    ServeIsRounds(reqs, n, primary, secondary, threshold);
    RoundsReplies(reqs, primary, secondary, n);
    RepliesAt(primary, secondary, n);
  }

  /** The secondary hears exactly the requests whose primary answer fired
      the rule: as many as there were firings, the request of the k-th
      firing in position k. */
  lemma ServeFailsOverExactly(reqs: seq<string>, n: nat,
                              primary: seq<string>, secondary: seq<string>, threshold: int)
    requires EndsAt(reqs, n) && Parsable(primary, n)
    ensures Lines(Serve(reqs, primary, secondary, threshold).wire, ToTracker(Secondary)) == FiredRequests(reqs, primary, n)
    ensures |Lines(Serve(reqs, primary, secondary, threshold).wire, ToTracker(Secondary))| == FiredBefore(primary, n)
    ensures forall i :: 0 <= i < n && Fires(Line(primary, i)) ==>
              FiredBefore(primary, i) < FiredBefore(primary, n)
              && Lines(Serve(reqs, primary, secondary, threshold).wire, ToTracker(Secondary))[FiredBefore(primary, i)]
                 == reqs[i]
  {
    ServeIsRounds(reqs, n, primary, secondary, threshold);
    RoundsFailOver(reqs, primary, secondary, n);
    FiredRequestsAt(reqs, primary, n);
  }

  /** A malformed primary answer ends the session: the request that drew
      it has reached the primary, the client has the answers to the earlier
      requests only, and the session stops with the `IndexError` it raised. */
  lemma ServeStopsAtCrash(reqs: seq<string>, k: nat,
                          primary: seq<string>, secondary: seq<string>, threshold: int)
    requires CrashesAt(reqs, primary, k)
    ensures Serve(reqs, primary, secondary, threshold).outcome == Crashed(Decide(Line(primary, k)).error)
    ensures Lines(Serve(reqs, primary, secondary, threshold).wire, ToTracker(Primary)) == reqs[..k + 1]
    ensures Lines(Serve(reqs, primary, secondary, threshold).wire, ToClient) == Replies(primary, secondary, k)
  {
    ServeIsRoundsThenCrash(reqs, k, primary, secondary, threshold);
    var done := Rounds(reqs, primary, secondary, k);
    var last := Event(ToTracker(Primary), reqs[k]);
    RoundsForwarded(reqs, primary, secondary, k);
    RoundsReplies(reqs, primary, secondary, k);
    LinesAppend(done, [last], ToTracker(Primary));
    LinesAppend(done, [last], ToClient);
    LinesCons(last, [], ToTracker(Primary));
    LinesCons(last, [], ToClient);
    assert [last] + [] == [last];
    PrefixSnoc(reqs, k);
  }

  /** What one round logs, and where its lines go. */
  lemma RoundShape(req: string, answer: string, fallback: string)
    ensures ForwardLog(Round(req, answer, fallback))
         == [Forwarded(Primary, req)] + (if Fires(answer) then [Forwarded(Secondary, req)] else [])
    ensures Channels(Round(req, answer, fallback))
         == [ToTracker(Primary)] + (if Fires(answer) then [ToTracker(Secondary)] else []) + [ToClient]
  {
    var p, s := Event(ToTracker(Primary), req), Event(ToTracker(Secondary), req);
    if Fires(answer) {
      var e := Event(ToClient, fallback);
      assert [p, s, e] == [p] + ([s] + ([e] + []));
      ForwardLogCons(e, []);
      ForwardLogCons(s, [e] + []);
      ForwardLogCons(p, [s] + ([e] + []));
      ChannelsCons(e, []);
      ChannelsCons(s, [e] + []);
      ChannelsCons(p, [s] + ([e] + []));
    } else {
      var e := Event(ToClient, answer);
      assert [p, e] == [p] + ([e] + []);
      ForwardLogCons(e, []);
      ForwardLogCons(p, [e] + []);
      ChannelsCons(e, []);
      ChannelsCons(p, [e] + []);
    }
  }

  lemma RoundLockstep(req: string, answer: string, fallback: string)
    ensures Lockstep(Round(req, answer, fallback))
    ensures Round(req, answer, fallback)[0] == Event(ToTracker(Primary), req)
    ensures Round(req, answer, fallback)[|Round(req, answer, fallback)| - 1].channel == ToClient
  {
  }

  lemma LockstepPrepend(head: seq<Event>, rest: seq<Event>)
    requires Lockstep(head) && |head| > 0 && head[|head| - 1].channel == ToClient
    requires Lockstep(rest) && (rest == [] || rest[0].channel == ToTracker(Primary))
    ensures Lockstep(head + rest)
  {
    var w := head + rest;
    forall i | |head| <= i < |w|
      ensures w[i] == rest[i - |head|]
    {
    }
  }

  /** The loop from request `i` starts by asking the primary that request. */
  lemma ServeAtFirst(reqs: seq<string>, primary: seq<string>, secondary: seq<string>,
                     threshold: int, i: nat, si: nat)
    ensures ServeAt(reqs, primary, secondary, threshold, i, si).wire != [] ==>
              ServeAt(reqs, primary, secondary, threshold, i, si).wire[0] == Event(ToTracker(Primary), reqs[i])
  {
    if Line(reqs, i) != "" && Decide(Line(primary, i)).Success? {
      ServeStep(reqs, primary, secondary, threshold, i, si);
      RoundLockstep(reqs[i], Line(primary, i), Line(secondary, si));
    }
  }

  lemma LockstepSingle(req: string)
    ensures Lockstep([Event(ToTracker(Primary), req)])
  {
  }

  /** The loop from any request on writes a trace in lockstep. */
  lemma {:induction false} ServeAtLockstep(reqs: seq<string>, primary: seq<string>, secondary: seq<string>,
                                           threshold: int, i: nat, si: nat)
    ensures Lockstep(ServeAt(reqs, primary, secondary, threshold, i, si).wire)
    decreases |reqs| - i
  {
    var wire := ServeAt(reqs, primary, secondary, threshold, i, si).wire;
    if Line(reqs, i) == "" {
      assert wire == [];
    } else if Decide(Line(primary, i)).Failure? {
      CrashNow(reqs, primary, secondary, threshold, i, si);
      LockstepSingle(reqs[i]);
    } else {
      var si' := SecondaryAfter(primary, i, si);
      var head := Round(reqs[i], Line(primary, i), Line(secondary, si));
      var rest := ServeAt(reqs, primary, secondary, threshold, i + 1, si').wire;
      ServeStep(reqs, primary, secondary, threshold, i, si);
      assert wire == head + rest;
      ServeAtLockstep(reqs, primary, secondary, threshold, i + 1, si');
      ServeAtFirst(reqs, primary, secondary, threshold, i + 1, si');
      assert rest != [] ==> rest[0].channel == ToTracker(Primary);
      RoundLockstep(reqs[i], Line(primary, i), Line(secondary, si));
      LockstepPrepend(head, rest);
    }
  }

  /** Every session's wire trace is in lockstep, and it starts by asking the
      primary the client's first request. */
  lemma ServeLockstep(reqs: seq<string>, primary: seq<string>, secondary: seq<string>, threshold: int)
    ensures Lockstep(Serve(reqs, primary, secondary, threshold).wire)
    ensures Serve(reqs, primary, secondary, threshold).wire != [] ==>
              Serve(reqs, primary, secondary, threshold).wire[0] == Event(ToTracker(Primary), reqs[0])
  {
    ServeAtLockstep(reqs, primary, secondary, threshold, 0, 0);
    ServeAtFirst(reqs, primary, secondary, threshold, 0, 0);
  }

  /** The messages of a round, as the threshold lets them through. */
  function Gated(threshold: int, msgs: seq<LogLine>): seq<LogLine>
  {
    if LevelDebug >= threshold then msgs else []
  }

  /** What one round adds to the log. */
  lemma RoundLog(reqs: seq<string>, primary: seq<string>, secondary: seq<string>, threshold: int, i: nat, si: nat)
    requires Line(reqs, i) != "" && Decide(Line(primary, i)).Success?
    ensures ServeAt(reqs, primary, secondary, threshold, i, si).log
         == Gated(threshold, ForwardLog(Round(reqs[i], Line(primary, i), Line(secondary, si))))
            + ServeAt(reqs, primary, secondary, threshold, i + 1, SecondaryAfter(primary, i, si)).log
  {
    var req := reqs[i];
    var rest := ServeAt(reqs, primary, secondary, threshold, i + 1, SecondaryAfter(primary, i, si)).log;
    RoundShape(req, Line(primary, i), Line(secondary, si));
    var dp := Debug(LevelDebug, Forwarded(Primary, req), threshold);
    var ds := Debug(LevelDebug, Forwarded(Secondary, req), threshold);
    if Fires(Line(primary, i)) {
      assert ServeAt(reqs, primary, secondary, threshold, i, si).log == dp + ds + rest;
      assert dp + ds == Gated(threshold, [Forwarded(Primary, req)] + [Forwarded(Secondary, req)]);
    } else {
      assert ServeAt(reqs, primary, secondary, threshold, i, si).log == dp + rest;
      assert dp == Gated(threshold, [Forwarded(Primary, req)] + []);
    }
  }

  lemma GatedAppend(threshold: int, a: seq<LogLine>, b: seq<LogLine>)
    ensures Gated(threshold, a + b) == Gated(threshold, a) + Gated(threshold, b)
  {
  }

  /** One round keeps the log in step with the wire. */
  lemma ServeAtLogStep(reqs: seq<string>, primary: seq<string>, secondary: seq<string>,
                       threshold: int, i: nat, si: nat)
    requires Line(reqs, i) != "" && Decide(Line(primary, i)).Success?
    requires var rest := ServeAt(reqs, primary, secondary, threshold, i + 1, SecondaryAfter(primary, i, si));
             rest.log == Gated(threshold, ForwardLog(rest.wire))
    ensures ServeAt(reqs, primary, secondary, threshold, i, si).log
         == Gated(threshold, ForwardLog(ServeAt(reqs, primary, secondary, threshold, i, si).wire))
  {
    var rest := ServeAt(reqs, primary, secondary, threshold, i + 1, SecondaryAfter(primary, i, si));
    var head := Round(reqs[i], Line(primary, i), Line(secondary, si));
    ServeStep(reqs, primary, secondary, threshold, i, si);
    RoundLog(reqs, primary, secondary, threshold, i, si);
    ForwardLogAppend(head, rest.wire);
    GatedAppend(threshold, ForwardLog(head), ForwardLog(rest.wire));
  }

  /** A crash logs the one request that reached the primary. */
  lemma CrashLog(reqs: seq<string>, primary: seq<string>, secondary: seq<string>, threshold: int, i: nat, si: nat)
    requires Line(reqs, i) != "" && Decide(Line(primary, i)).Failure?
    ensures ServeAt(reqs, primary, secondary, threshold, i, si).log
         == Gated(threshold, ForwardLog(ServeAt(reqs, primary, secondary, threshold, i, si).wire))
  {
    CrashNow(reqs, primary, secondary, threshold, i, si);
    ForwardLogCons(Event(ToTracker(Primary), reqs[i]), []);
    assert [Event(ToTracker(Primary), reqs[i])] + [] == [Event(ToTracker(Primary), reqs[i])];
  }

  lemma {:induction false} ServeAtLog(reqs: seq<string>, primary: seq<string>, secondary: seq<string>,
                                      threshold: int, i: nat, si: nat)
    ensures ServeAt(reqs, primary, secondary, threshold, i, si).log
         == Gated(threshold, ForwardLog(ServeAt(reqs, primary, secondary, threshold, i, si).wire))
    decreases |reqs| - i
  {
    if Line(reqs, i) == "" {
      ClosedAt(reqs, primary, secondary, threshold, i, si);
    } else if Decide(Line(primary, i)).Failure? {
      CrashLog(reqs, primary, secondary, threshold, i, si);
    } else {
      ServeAtLog(reqs, primary, secondary, threshold, i + 1, SecondaryAfter(primary, i, si));
      ServeAtLogStep(reqs, primary, secondary, threshold, i, si);
    }
  }

  /** At the debug threshold every line sent to a tracker is logged with
      its pool, in order; at the error threshold the loop logs nothing. */
  lemma ServeLog(reqs: seq<string>, primary: seq<string>, secondary: seq<string>, threshold: int)
    ensures Serve(reqs, primary, secondary, threshold).log
         == Gated(threshold, ForwardLog(Serve(reqs, primary, secondary, threshold).wire))
  {
    ServeAtLog(reqs, primary, secondary, threshold, 0, 0);
  }

  /** The request at which the loop stops when it has reached request `i`:
      the first one at or after `i` that is the client's empty read or that
      draws a malformed answer from the primary. */
  function StopAt(reqs: seq<string>, primary: seq<string>, i: nat): nat
    decreases |reqs| - i
  {
    if Line(reqs, i) == "" || Decide(Line(primary, i)).Failure? then i else StopAt(reqs, primary, i + 1)
  }

  /** Every round before the stop completes, and at the stop the client
      has closed or the primary's answer is malformed. */
  lemma {:induction false} StopAtSpec(reqs: seq<string>, primary: seq<string>, i: nat)
    requires Served(reqs, primary, i)
    ensures Served(reqs, primary, StopAt(reqs, primary, i))
    ensures Line(reqs, StopAt(reqs, primary, i)) == "" || Decide(Line(primary, StopAt(reqs, primary, i))).Failure?
    decreases |reqs| - i
  {
    if Line(reqs, i) != "" && Decide(Line(primary, i)).Success? {
      assert Served(reqs, primary, i + 1);
      StopAtSpec(reqs, primary, i + 1);
    }
  }

  /** Every session, whatever its input: the rounds up to the stop, then
      either the client's close or the one request whose answer crashed
      the loop. */
  lemma ServeShape(reqs: seq<string>, primary: seq<string>, secondary: seq<string>, threshold: int)
    ensures Served(reqs, primary, StopAt(reqs, primary, 0))
    ensures var n := StopAt(reqs, primary, 0);
            Line(reqs, n) == "" ==>
              Serve(reqs, primary, secondary, threshold).wire == Rounds(reqs, primary, secondary, n)
              && Serve(reqs, primary, secondary, threshold).outcome == ClientClosed
    ensures var n := StopAt(reqs, primary, 0);
            Line(reqs, n) != "" ==>
              Decide(Line(primary, n)).Failure?
              && Serve(reqs, primary, secondary, threshold).wire
                 == Rounds(reqs, primary, secondary, n) + [Event(ToTracker(Primary), reqs[n])]
              && Serve(reqs, primary, secondary, threshold).outcome == Crashed(Decide(Line(primary, n)).error)
  {
    var n := StopAt(reqs, primary, 0);
    StopAtSpec(reqs, primary, 0);
    if Line(reqs, n) == "" {
      ServeIsRounds(reqs, n, primary, secondary, threshold);
    } else {
      ServeIsRoundsThenCrash(reqs, n, primary, secondary, threshold);
    }
  }

  /** Two client streams that, from request `i` on, end at the same point:
      both reads are empty, or neither is and the same holds from `i + 1`.
      What follows the first empty read does not matter. */
  predicate SameEnd(a: seq<string>, b: seq<string>, i: nat)
    decreases |a| - i
  {
    && (Line(a, i) == "" <==> Line(b, i) == "")
    && (Line(a, i) != "" ==> SameEnd(a, b, i + 1))
  }

  /** Such clients stop the loop at the same request. */
  lemma {:induction false} SameEndStop(a: seq<string>, b: seq<string>, primary: seq<string>, i: nat)
    requires SameEnd(a, b, i)
    ensures StopAt(a, primary, i) == StopAt(b, primary, i)
    ensures Line(a, StopAt(a, primary, i)) == "" <==> Line(b, StopAt(b, primary, i)) == ""
    decreases |a| - i
  {
    assert Line(a, i) == "" <==> Line(b, i) == "";
    if Line(a, i) != "" && Decide(Line(primary, i)).Success? {
      SameEndStop(a, b, primary, i + 1);
    }
  }

  /** The route of the first `n` rounds: the primary, the secondary after
      each firing answer, and the client. */
  function Route(primary: seq<string>, n: nat): seq<Channel>
  {
    if n == 0 then []
    else Route(primary, n - 1) + ([ToTracker(Primary)] + (if Fires(Line(primary, n - 1)) then [ToTracker(Secondary)] else []) + [ToClient])
  }

  /** The rounds follow the route, whatever the requests say. */
  lemma {:induction false} RoundsRoute(reqs: seq<string>, primary: seq<string>, secondary: seq<string>, n: nat)
    requires n <= |reqs|
    ensures Channels(Rounds(reqs, primary, secondary, n)) == Route(primary, n)
    decreases n
  {
    if n > 0 {
      var i := n - 1;
      assert Rounds(reqs, primary, secondary, n) == Rounds(reqs, primary, secondary, i) + RoundAt(reqs, primary, secondary, i);
      RoundsRoute(reqs, primary, secondary, i);
      RoundShape(reqs[i], Line(primary, i), Line(secondary, FiredBefore(primary, i)));
      ChannelsAppend(Rounds(reqs, primary, secondary, i), RoundAt(reqs, primary, secondary, i));
      assert Route(primary, n) == Route(primary, i)
          + ([ToTracker(Primary)] + (if Fires(Line(primary, i)) then [ToTracker(Secondary)] else []) + [ToClient]);
    }
  }

  /** The client's lines and the route of a session's wire, read off its shape. */
  lemma ShapeReplies(reqs: seq<string>, primary: seq<string>, secondary: seq<string>, threshold: int)
    ensures var n := StopAt(reqs, primary, 0);
            Lines(Serve(reqs, primary, secondary, threshold).wire, ToClient) == Replies(primary, secondary, n)
    ensures var n := StopAt(reqs, primary, 0);
            Channels(Serve(reqs, primary, secondary, threshold).wire)
            == Route(primary, n) + (if Line(reqs, n) == "" then [] else [ToTracker(Primary)])
  {
    var n := StopAt(reqs, primary, 0);
    ServeShape(reqs, primary, secondary, threshold);
    var done := Rounds(reqs, primary, secondary, n);
    RoundsReplies(reqs, primary, secondary, n);
    RoundsRoute(reqs, primary, secondary, n);
    if Line(reqs, n) == "" {
      assert Route(primary, n) + [] == Route(primary, n);
    } else {
      var last := Event(ToTracker(Primary), reqs[n]);
      LinesAppend(done, [last], ToClient);
      LinesCons(last, [], ToClient);
      ChannelsAppend(done, [last]);
      ChannelsCons(last, []);
      assert [last] + [] == [last];
      assert Replies(primary, secondary, n) + [] == Replies(primary, secondary, n);
    }
  }

  /** The request text never influences routing: two clients whose streams
      end at the same point get the same answers, see their requests routed
      to the same trackers in the same order, and end the same way.  In
      particular `ReqPass` is never consulted. */
  lemma ServeIgnoresRequestText(a: seq<string>, b: seq<string>,
                                primary: seq<string>, secondary: seq<string>, threshold: int)
    requires SameEnd(a, b, 0)
    ensures Lines(Serve(a, primary, secondary, threshold).wire, ToClient)
         == Lines(Serve(b, primary, secondary, threshold).wire, ToClient)
    ensures Channels(Serve(a, primary, secondary, threshold).wire)
         == Channels(Serve(b, primary, secondary, threshold).wire)
    ensures Serve(a, primary, secondary, threshold).outcome == Serve(b, primary, secondary, threshold).outcome
  {
    SameEndStop(a, b, primary, 0);
    ShapeReplies(a, primary, secondary, threshold);
    ShapeReplies(b, primary, secondary, threshold);
    ServeShape(a, primary, secondary, threshold);
    ServeShape(b, primary, secondary, threshold);
  }

  /** A `DELETE` or `RENAME` that the primary does not know is retried
      against the read-only secondary like any other request, wherever it
      comes in the session: it is the secondary's line for that firing. */
  lemma DestructiveRequestsFailOver(reqs: seq<string>, n: nat, i: nat,
                                    primary: seq<string>, secondary: seq<string>, threshold: int)
    requires EndsAt(reqs, n) && Parsable(primary, n)
    requires i < n && !ReqPass(reqs[i]) && Fires(Line(primary, i))
    ensures FiredBefore(primary, i) < |Lines(Serve(reqs, primary, secondary, threshold).wire, ToTracker(Secondary))|
    ensures Lines(Serve(reqs, primary, secondary, threshold).wire, ToTracker(Secondary))[FiredBefore(primary, i)]
         == reqs[i]
  {
    ServeFailsOverExactly(reqs, n, primary, secondary, threshold);
  }

  /** A tracker outage at start-up is logged at both verbosity settings and
      leaves the client without a single line. */
  lemma OutageAlwaysReported(pools: Pools, secondaryUp: bool, verbose: bool,
                             reqs: seq<string>, primary: seq<string>, secondary: seq<string>)
    ensures RunSession(pools, false, secondaryUp, reqs, primary, secondary, Verbosity(verbose)).log
         == [TrackerDown(Primary, pools.primary)]
    ensures RunSession(pools, true, false, reqs, primary, secondary, Verbosity(verbose)).log
         == [TrackerDown(Secondary, pools.secondary)]
    ensures Lines(RunSession(pools, false, secondaryUp, reqs, primary, secondary, Verbosity(verbose)).wire, ToClient) == []
  {
  }

  /** `forward_req` called for each request in turn on one tracker, the
      first at read position `pos`. */
  function ForwardEach(pool: Pool, reqs: seq<string>, answers: seq<string>, pos: nat, threshold: int): (xs: seq<Exchange>)
    ensures |xs| == |reqs|
    decreases |reqs|
  {
    if reqs == [] then []
    else [Forward(pool, reqs[0], answers, pos, threshold)] + ForwardEach(pool, reqs[1..], answers, pos + 1, threshold)
  }

  function Responses(xs: seq<Exchange>): seq<string>
  {
    if xs == [] then [] else [xs[0].resp] + Responses(xs[1..])
  }

  function SentWire(xs: seq<Exchange>): seq<Event>
  {
    if xs == [] then [] else [xs[0].sent] + SentWire(xs[1..])
  }

  function SentLog(xs: seq<Exchange>): seq<LogLine>
  {
    if xs == [] then [] else xs[0].log + SentLog(xs[1..])
  }

  lemma {:induction false} ForwardResponses(pool: Pool, reqs: seq<string>, answers: seq<string>, pos: nat, threshold: int)
    requires pos + |reqs| <= |answers|
    ensures Responses(ForwardEach(pool, reqs, answers, pos, threshold)) == answers[pos..pos + |reqs|]
    decreases |reqs|
  {
    if reqs != [] {
      var xs := ForwardEach(pool, reqs, answers, pos, threshold);
      ForwardResponses(pool, reqs[1..], answers, pos + 1, threshold);
      assert xs[1..] == ForwardEach(pool, reqs[1..], answers, pos + 1, threshold);
      assert Responses(xs) == [answers[pos]] + answers[pos + 1..pos + |reqs|];
    }
  }

  lemma {:induction false} ForwardSent(pool: Pool, reqs: seq<string>, answers: seq<string>, pos: nat, threshold: int)
    ensures Lines(SentWire(ForwardEach(pool, reqs, answers, pos, threshold)), ToTracker(pool)) == reqs
    decreases |reqs|
  {
    if reqs != [] {
      var xs := ForwardEach(pool, reqs, answers, pos, threshold);
      var rest := ForwardEach(pool, reqs[1..], answers, pos + 1, threshold);
      ForwardSent(pool, reqs[1..], answers, pos + 1, threshold);
      assert xs[1..] == rest;
      assert SentWire(xs) == [Event(ToTracker(pool), reqs[0])] + SentWire(rest);
      assert [reqs[0]] + reqs[1..] == reqs;
    }
  }

  lemma {:induction false} ForwardLogged(pool: Pool, reqs: seq<string>, answers: seq<string>, pos: nat, threshold: int)
    ensures SentLog(ForwardEach(pool, reqs, answers, pos, threshold))
         == Gated(threshold, ForwardLog(SentWire(ForwardEach(pool, reqs, answers, pos, threshold))))
    decreases |reqs|
  {
    if reqs != [] {
      var xs := ForwardEach(pool, reqs, answers, pos, threshold);
      var rest := ForwardEach(pool, reqs[1..], answers, pos + 1, threshold);
      var e := Event(ToTracker(pool), reqs[0]);
      ForwardLogged(pool, reqs[1..], answers, pos + 1, threshold);
      assert xs[1..] == rest;
      assert SentWire(xs) == [e] + SentWire(rest);
      ForwardLogCons(e, SentWire(rest));
      GatedAppend(threshold, [Forwarded(pool, reqs[0])], ForwardLog(SentWire(rest)));
    }
  }

  /** Repeated forwarding reads the tracker's stream in order, skipping and
      repeating nothing; the tracker hears exactly the requests, and the log
      holds one gated message per request sent. */
  lemma ForwardReadsStream(pool: Pool, reqs: seq<string>, answers: seq<string>, pos: nat, threshold: int)
    requires pos + |reqs| <= |answers|
    ensures Responses(ForwardEach(pool, reqs, answers, pos, threshold)) == answers[pos..pos + |reqs|]
    ensures Lines(SentWire(ForwardEach(pool, reqs, answers, pos, threshold)), ToTracker(pool)) == reqs
    ensures SentLog(ForwardEach(pool, reqs, answers, pos, threshold))
         == Gated(threshold, ForwardLog(SentWire(ForwardEach(pool, reqs, answers, pos, threshold))))
  {
    ForwardResponses(pool, reqs, answers, pos, threshold);
    ForwardSent(pool, reqs, answers, pos, threshold);
    ForwardLogged(pool, reqs, answers, pos, threshold);
  }
}
