/** The request throttle in front of the completion service: one piece of
    state, the time the last request finished, and a minimum gap of 20
    seconds before the next request is issued. Time is an integer clock; the
    service is an oracle that either replies after some latency or raises. */
module OpenAIClient {
  import opened Wrappers
  import opened Exceptions
  import Text

  const MinGap := 20

  /** The time the last successful request finished. */
  datatype Throttle = Throttle(last: int)

  /** The state before any request: `_last_request_time = 0`. */
  const Start := Throttle(0)

  /** What the service does with one request. */
  datatype Response = Replied(content: string, latency: nat) | Raised(error: Exception)

  /** One call: the clock reading when it is made and the service's response. */
  datatype Request = Request(now: int, response: Response)

  /** What one call produced: its result, when the request went out, and
      the throttle state afterwards. */
  datatype Outcome = Outcome(result: Result<string, Exception>, issuedAt: int, after: Throttle)

  /** How long the call sleeps before issuing its request: the shortfall of
      the elapsed time against the minimum gap, or nothing. */
  function Wait(t: Throttle, now: int): (w: int)
    ensures w >= 0
    ensures now + w >= t.last + MinGap
    ensures w == 0 || now + w == t.last + MinGap
  {
    var elapsed := now - t.last;
    if elapsed < MinGap then MinGap - elapsed else 0
  }

  /** `call_openai_api(prompt)`: wait, issue, and on a reply record the
      completion time and return the stripped content. A raised error
      propagates and leaves the state as it was. */
  function Call(t: Throttle, request: Request): (o: Outcome)
    ensures o.issuedAt >= request.now && o.issuedAt >= t.last + MinGap
    ensures o.issuedAt == request.now || o.issuedAt == t.last + MinGap
    ensures request.response.Raised? ==> o.after == t && o.result == Failure(request.response.error)
    ensures request.response.Replied? ==> o.after == Throttle(o.issuedAt + request.response.latency)
    ensures request.response.Replied? ==> o.result == Success(Text.Strip(request.response.content))
  {
    var issuedAt := request.now + Wait(t, request.now);
    match request.response
    case Replied(content, latency) =>
      Outcome(Success(Text.Strip(content)), issuedAt, Throttle(issuedAt + latency))
    case Raised(e) =>
      Outcome(Failure(e), issuedAt, t)
  }

  /** A sequence of calls, each starting from the state the previous one left. */
  function Run(t: Throttle, requests: seq<Request>): (r: seq<Outcome>)
    ensures |r| == |requests|
    ensures |r| > 0 ==> r[0] == Call(t, requests[0])
    decreases |requests|
  {
    if |requests| == 0 then []
    else
      var o := Call(t, requests[0]);
      [o] + Run(o.after, requests[1..])
  }

  /** Each call of a run starts from the state the previous call left. */
  lemma {:induction false} RunChains(t: Throttle, requests: seq<Request>, i: int)
    requires 0 <= i < |requests| - 1
    ensures Run(t, requests)[i + 1] == Call(Run(t, requests)[i].after, requests[i + 1])
    decreases i
  {
    var o := Call(t, requests[0]);
    var rest := Run(o.after, requests[1..]);
    assert Run(t, requests) == [o] + rest;
    if i > 0 {
      RunChains(o.after, requests[1..], i - 1);
    }
  }

  /** After a successful call the next request goes out at least the
      minimum gap later; after a failed one, the state is unchanged and the
      next request still keeps the gap to the last success. */
  lemma IssuesAreSpaced(t: Throttle, requests: seq<Request>, i: int)
    requires 0 <= i < |requests| - 1
    ensures Run(t, requests)[i + 1].issuedAt >= Run(t, requests)[i].after.last + MinGap
    ensures requests[i].response.Replied?
            ==> Run(t, requests)[i + 1].issuedAt >= Run(t, requests)[i].issuedAt + MinGap
  {
    var r := Run(t, requests);
    if i == 0 {
      assert r[0] == Call(t, requests[0]);
    } else {
      RunChains(t, requests, i - 1);
    }
    RunChains(t, requests, i);
  }

  /** Every request goes out at least the minimum gap after the state the
      run started from, so the first request after start-up waits until 20. */
  lemma {:induction false} IssuesFollowStart(t: Throttle, requests: seq<Request>, i: int)
    requires 0 <= i < |requests|
    ensures Run(t, requests)[i].issuedAt >= t.last + MinGap
    ensures Run(t, requests)[i].after.last >= t.last
    decreases i
  {
    var r := Run(t, requests);
    if i > 0 {
      IssuesFollowStart(t, requests, i - 1);
      RunChains(t, requests, i - 1);
    }
  }
}
