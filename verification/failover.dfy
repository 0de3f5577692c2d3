/**
  The failover rule of a proxy session: a primary tracker's response line is
  split on whitespace and its first two tokens decide whether the request is
  re-sent to the secondary trackers.  The source indexes the token list without
  checking its length, so two response shapes end the session with an
  `IndexError`; they are modelled as explicit `Crash` results.
 */
module Failover {
  import opened Wrappers
  import opened PyText

  /** Why the session thread dies while inspecting a response. */
  datatype Crash =
    | NoStatusToken   // the line has no token at all: `s[0]` fails
    | NoReasonToken   // the line is the lone token `ERR`: `s[1]` fails

  /** Reason codes for which the secondary trackers are asked instead. */
  const FailoverReasons: set<string> := {"unknown_key", "none_match"}

  /** `Success(true)` when the request must be re-sent to the secondary
      trackers, `Success(false)` when the primary's line goes to the client,
      `Failure` when the source raises before deciding. */
  function Decide(resp: string): (r: Result<bool, Crash>)
  {
    var s := Split(resp);
    if |s| == 0 then Failure(NoStatusToken)
    else if s[0] != "ERR" then Success(false)
    else if |s| == 1 then Failure(NoReasonToken)
    else Success(s[1] in FailoverReasons)
  }

  /** The decision in terms of the tokens: the session dies exactly when the
      line has no token or is the lone token `ERR`, and fails over exactly
      when the status is `ERR` and the reason is a failover reason. */
  lemma DecideSpec(resp: string)
    ensures Decide(resp) == Failure(NoStatusToken) <==> Split(resp) == []
    ensures Decide(resp) == Failure(NoReasonToken) <==> Split(resp) == ["ERR"]
    ensures Decide(resp) == Success(true) <==>
              |Split(resp)| >= 2 && Split(resp)[0] == "ERR" && Split(resp)[1] in FailoverReasons
  {
  }

  /** The response line makes the session consult the secondary trackers. */
  predicate Fires(resp: string) {
    Decide(resp) == Success(true)
  }

  /** Only the first two tokens matter: whatever follows the reason code,
      and however much whitespace surrounds and separates the two tokens,
      the decision is fixed by the status and the reason alone. */
  lemma {:induction false} DecideByTwoTokens(lead: string, status: string, sep: string, reason: string, tail: string)
    requires AllSpace(lead) && |sep| > 0 && AllSpace(sep)
    requires IsToken(status) && IsToken(reason)
    requires tail == [] || IsSpace(tail[0])
    ensures Decide(lead + status + sep + reason + tail)
         == Success(status == "ERR" && reason in FailoverReasons)
  {
    var line := lead + status + sep + reason + tail;
    assert line == lead + (status + (sep + (reason + tail)));
    SplitOverSpace(lead, status + (sep + (reason + tail)));
    SplitToken(status, sep + (reason + tail));
    SplitOverSpace(sep, reason + tail);
    SplitToken(reason, tail);
    var toks := Split(line);
    assert toks == [status, reason] + Split(tail);
    assert |toks| >= 2 && toks[0] == status && toks[1] == reason;
  }

  /** A blank line, including the empty read of a closed connection, has no
      status token: the source fails on `s[0]`. */
  lemma {:induction false} DecideBlank(resp: string)
    requires AllSpace(resp)
    ensures Decide(resp) == Failure(NoStatusToken)
  {
    SplitBlank(resp);
  }

  /** A line holding a single token: a lone `ERR` fails on `s[1]`; any other
      lone status short-circuits the `and` and is passed through. */
  lemma {:induction false} DecideLoneToken(lead: string, status: string, trail: string)
    requires AllSpace(lead) && AllSpace(trail) && IsToken(status)
    ensures Decide(lead + status + trail)
         == if status == "ERR" then Failure(NoReasonToken) else Success(false)
  {
    assert lead + status + trail == lead + (status + trail);
    SplitOverSpace(lead, status + trail);
    if trail == [] {
      assert status + trail == status;
      SplitSingle(status);
    } else {
      SplitToken(status, trail);
      SplitBlank(trail);
    }
  }
}
