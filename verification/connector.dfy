/**
  Opening a tracker connection from a pool of `"host:port"` candidates.  The
  network is a parameter: `reachable` is the set of addresses that accept a TCP
  connection when the session starts.
 */
module Connector {
  import opened Wrappers
  import opened PyText
  import opened PyParse

  datatype Address = Address(host: string, port: int)

  /** Ports a socket can connect to; any other value makes `connect` raise. */
  predicate ValidPort(port: int) {
    0 <= port < 65536
  }

  /** The host (text before the first `:`) and the port (`int` of the second
      `:`-field) of a candidate.  `None` where the source raises inside its
      `try`: no second field (`IndexError`) or a non-numeric one (`ValueError`). */
  function ParseCandidate(t: string): (r: Option<Address>)
    ensures r.Some? ==> ':' !in r.value.host
    ensures r.Some? ==> |r.value.host| < |t| && t[..|r.value.host|] == r.value.host
                        && t[|r.value.host|] == ':'
  {
    var parts := SplitOn(t, ':');
    if |parts| < 2 then
      assert JoinOn(parts, ':') == t;
      None
    else
      assert t == parts[0] + [':'] + JoinOn(parts[1..], ':');
      assert t[|parts[0]|] == ':';
      match ParseInt(parts[1])
      case None => None
      case Some(port) => Some(Address(parts[0], port))
  }

  /** One connection attempt: `Some` exactly when the candidate parses, its
      port is in range and the address accepts the connection. */
  function Connect(t: string, reachable: set<Address>): (r: Option<Address>)
    ensures r.Some? <==> ParseCandidate(t).Some? && ValidPort(ParseCandidate(t).value.port)
                         && ParseCandidate(t).value in reachable
    ensures r.Some? ==> r == ParseCandidate(t)
  {
    match ParseCandidate(t)
    case None => None
    case Some(a) => if ValidPort(a.port) && a in reachable then Some(a) else None
  }

  /** `get_tracker_socket`: the loop over the pool returns on its first
      iteration whatever the outcome, so only the first candidate is tried. */
  function GetTrackerSocket(candidates: seq<string>, reachable: set<Address>): (r: Option<Address>)
    ensures candidates == [] ==> r == None
    ensures r.Some? ==> r.value in reachable && ValidPort(r.value.port)
                        && ParseCandidate(candidates[0]) == Some(r.value)
    ensures candidates != [] && Connect(candidates[0], reachable).Some? ==> r.Some?
  {
    if candidates == [] then None else Connect(candidates[0], reachable)
  }

  /** A later candidate never rescues a pool whose first candidate fails,
      and never changes the address of one whose first candidate succeeds. */
  lemma LaterCandidatesIgnored(first: string, later: seq<string>, reachable: set<Address>)
    ensures GetTrackerSocket([first] + later, reachable) == GetTrackerSocket([first], reachable)
  {
  }

  /** A well-formed candidate parses to its host and port. */
  lemma {:induction false} CandidateRoundTrip(host: string, port: nat)
    requires ':' !in host
    ensures ParseCandidate(host + ":" + ShowNat(port)) == Some(Address(host, port))
  {
    var digits := ShowNat(port);
    assert ':' !in digits by { assert !IsDigit(':'); }
    var parts := [host, digits];
    assert JoinOn(parts, ':') == host + ":" + digits;
    SplitOnJoin(parts, ':');
    ParseShowNat(port);
  }

  /** Any port text `int()` accepts works in a candidate, including a sign
      followed by whitespace: `h:+ 6001` is host `h`, port 6001. */
  lemma CandidateNumeral(host: string, n: Numeral)
    requires ':' !in host && WellFormed(n)
    ensures ParseCandidate(host + ":" + Text(n)) == Some(Address(host, Value(n)))
  {
    var port := Text(n);
    assert ':' !in port by {
      assert !IsSpace(':') && !IsDigit(':');
      assert port == n.lead + n.sign + n.gap + n.digits + n.trail;
      forall i | 0 <= i < |port|
        ensures port[i] != ':'
      {
        var k := i;
        if k < |n.lead| { assert port[i] == n.lead[k]; }
        else if k < |n.lead| + |n.sign| { assert port[i] == n.sign[k - |n.lead|]; }
        else if k < |n.lead| + |n.sign| + |n.gap| { assert port[i] == n.gap[k - |n.lead| - |n.sign|]; }
        else if k < |n.lead| + |n.sign| + |n.gap| + |n.digits| {
          assert port[i] == n.digits[k - |n.lead| - |n.sign| - |n.gap|];
        } else { assert port[i] == n.trail[k - |n.lead| - |n.sign| - |n.gap| - |n.digits|]; }
      }
    }
    var parts := [host, port];
    assert JoinOn(parts, ':') == host + ":" + port;
    SplitOnJoin(parts, ':');
    ParseNumeral(n);
  }

  /** Fields after the port are ignored: `h:p:x` connects to `h` on port `p`. */
  lemma {:induction false} CandidateExtraFields(host: string, port: nat, extra: string)
    requires ':' !in host && ':' !in extra
    ensures ParseCandidate(host + ":" + ShowNat(port) + ":" + extra) == Some(Address(host, port))
  {
    var digits := ShowNat(port);
    assert ':' !in digits by { assert !IsDigit(':'); }
    var parts := [host, digits, extra];
    assert parts[1..] == [digits, extra];
    assert JoinOn([digits, extra], ':') == digits + ":" + extra;
    assert JoinOn(parts, ':') == host + ":" + digits + ":" + extra;
    SplitOnJoin(parts, ':');
    ParseShowNat(port);
  }

  /** The port is `int()` of the text between the first and the second `:`,
      or up to the end: whatever that gives, number or `ValueError`, is what
      the candidate gives, and anything after a second `:` is ignored. */
  lemma {:induction false} CandidatePort(host: string, p: string, rest: string)
    requires ':' !in host && ':' !in p && (rest == "" || rest[0] == ':')
    ensures ParseCandidate(host + ":" + p + rest)
         == if ParseInt(p).Some? then Some(Address(host, ParseInt(p).value)) else None
  {
    assert host + ":" + p + rest == host + [':'] + (p + rest);
    SplitOnField(host, p + rest, ':');
    if rest == "" {
      assert p + rest == p;
      SplitOnWhole(p, ':');
    } else {
      assert p + rest == p + [':'] + rest[1..];
      SplitOnField(p, rest[1..], ':');
    }
  }

  /** A candidate without `:` never yields a connection. */
  lemma {:induction false} CandidateWithoutPort(t: string, reachable: set<Address>)
    requires ':' !in t
    ensures Connect(t, reachable) == None
  {
    SplitOnWhole(t, ':');
  }

  /** A well-formed first candidate connects exactly when its address is reachable. */
  lemma {:induction false} FirstCandidateDecides(host: string, port: nat, later: seq<string>, reachable: set<Address>)
    requires ':' !in host && ValidPort(port)
    ensures GetTrackerSocket([host + ":" + ShowNat(port)] + later, reachable)
         == if Address(host, port) in reachable then Some(Address(host, port)) else None
  {
    CandidateRoundTrip(host, port);
  }
}
