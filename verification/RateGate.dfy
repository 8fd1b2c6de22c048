/**
  The webhook client of providers/discord.rs: one send of at most three requests, the gate a response
  leaves for the next request, and the fan-out over several webhooks. Times are milliseconds.
*/
module RateGate {
  import opened Wrappers

  const MAX_ATTEMPTS := 3
  const BACKOFF_BASE_MS := 1000
  const BACKOFF_CAP_MS := 30000

  /** `remaining` is -1 while unknown. */
  datatype Bucket = Bucket(gate: Option<real>, remaining: int)

  /** `NoReply`: the request failed before a response arrived. Headers and body fields that do not parse are absent. */
  datatype Reply =
    | NoReply
    | Reply(status: int, remaining: Option<int>, resetAfter: Option<real>,
      retryAfter: Option<real>, bodyRetry: Option<real>)

  /** One request as the world answers it: how late it starts, how long the response and then its body take. */
  datatype Turn = Turn(lag: real, latency: real, bodyLatency: real, reply: Reply)

  predicate ValidTurn(t: Turn) {
    t.lag >= 0.0 && t.latency >= 0.0 && t.bodyLatency >= 0.0
  }

  predicate ValidScript(script: seq<Turn>) {
    1 <= |script| <= MAX_ATTEMPTS && forall i | 0 <= i < |script| :: ValidTurn(script[i])
  }

  /** A request made, and the gate in force once its response has been dealt with. */
  datatype Request = Request(start: real, received: real, reply: Reply, left: Option<real>)

  predicate Success(r: Reply) {
    r.Reply? && 200 <= r.status < 300
  }

  predicate RateLimited(r: Reply) {
    r.Reply? && r.status == 429
  }

  predicate ServerError(r: Reply) {
    r.Reply? && 500 <= r.status < 600
  }

  predicate Retryable(r: Reply) {
    RateLimited(r) || ServerError(r)
  }

  function AtLeastZero(x: real): real {
    if x < 0.0 then 0.0 else x
  }

  function PowerOfTwo(k: nat): nat {
    if k == 0 then 1 else 2 * PowerOfTwo(k - 1)
  }

  function Backoff(attempt: nat): real
    requires attempt >= 1
  {
    var ms := BACKOFF_BASE_MS * PowerOfTwo(attempt - 1);
    (if ms > BACKOFF_CAP_MS then BACKOFF_CAP_MS else ms) as real
  }

  /** How long a 429 asks to wait: its body says (in seconds), else its header, else a second. */
  function RetryWait(r: Reply): real
    requires r.Reply?
  {
    1000.0 * AtLeastZero(if r.bodyRetry.Some? then r.bodyRetry.value
      else if r.retryAfter.Some? then r.retryAfter.value else 1.0)
  }

  /** 2xx is accepted; 429 and 5xx are tried again; everything else, and no reply, ends the send. */
  lemma StatusesExactly(r: Reply)
    ensures Success(r) <==> r.Reply? && r.status / 100 == 2
    ensures Retryable(r) <==> r.Reply? && (r.status == 429 || r.status / 100 == 5)
    ensures RateLimited(r) <==> r.Reply? && r.status == 429
  {
  }

  /** The seconds of the body, else of the header, else one, as milliseconds; less than none counts as none. */
  lemma RetryWaitExactly(r: Reply)
    requires r.Reply?
    ensures var seconds := match (r.bodyRetry, r.retryAfter)
        case (Some(body), _) => body
        case (None, Some(header)) => header
        case (None, None) => 1.0;
      RetryWait(r) == if seconds >= 0.0 then seconds * 1000.0 else 0.0
  {
  }

  /** A second at first, twice as much each time, never more than 30 seconds. */
  lemma BackoffExactly(attempt: nat)
    requires attempt >= 1
    ensures Backoff(1) == 1000.0
    ensures Backoff(attempt + 1) == if 2.0 * Backoff(attempt) <= 30000.0 then 2.0 * Backoff(attempt) else 30000.0
  {
  }

  /** When the next request may start: the clock, or the gate if that is later. */
  function Opens(gate: Option<real>, now: real): real {
    if gate.Some? && gate.value > now then gate.value else now
  }

  /** The later of the two, and no later. */
  lemma OpensAtTheLater(gate: Option<real>, now: real)
    ensures Opens(gate, now) >= now && (gate.Some? ==> Opens(gate, now) >= gate.value)
    ensures Opens(gate, now) == now || gate == Some(Opens(gate, now))
  {
  }

  function AfterHeaders(b: Bucket, received: real, r: Reply): Bucket
    requires r.Reply?
  {
    if r.remaining.None? then b
    else
      var b' := b.(remaining := r.remaining.value);
      if r.remaining.value <= 0 && r.resetAfter.Some?
      then b'.(gate := Some(received + 1000.0 * AtLeastZero(r.resetAfter.value)))
      else b'
  }

  function AfterReply(b: Bucket, attempt: nat, t: Turn, received: real): Bucket
    requires attempt >= 1 && t.reply.Reply?
  {
    var b' := AfterHeaders(b, received, t.reply);
    if RateLimited(t.reply) then b'.(gate := Some(received + t.bodyLatency + RetryWait(t.reply)))
    else if ServerError(t.reply) then b'.(gate := Some(received + Backoff(attempt)))
    else b'
  }

  /** One attempt: the request, the bucket it leaves, and when its response has been dealt with. */
  datatype Attempt = Attempt(request: Request, bucket: Bucket, ends: real)

  function Try(b: Bucket, now: real, attempt: nat, t: Turn): Attempt
    requires attempt >= 1
  {
    var start := Opens(b.gate, now) + t.lag;
    var received := start + t.latency;
    var open := b.(gate := None);
    if t.reply.NoReply? then Attempt(Request(start, received, NoReply, None), open, received)
    else
      var b' := AfterReply(open, attempt, t, received);
      Attempt(Request(start, received, t.reply, b'.gate), b', received + t.bodyLatency)
  }

  lemma TryHolds(b: Bucket, now: real, attempt: nat, t: Turn)
    requires attempt >= 1 && ValidTurn(t)
    ensures var a := Try(b, now, attempt, t);
      && a.request.reply == t.reply && a.request.left == a.bucket.gate
      && now <= Opens(b.gate, now) <= a.request.start <= a.request.received <= a.ends
  {
  }

  datatype Outcome = Outcome(requests: seq<Request>, bucket: Bucket, ok: bool, ends: real)

  /** Which attempt it is when this much of the script is left. */
  function Attempts(script: seq<Turn>): (n: nat)
    requires |script| <= MAX_ATTEMPTS
    ensures n >= 1
  {
    MAX_ATTEMPTS - |script| + 1
  }

  /** What is left of a send; `script` holds the answers to the attempts still to be made. */
  function SendFrom(b: Bucket, now: real, script: seq<Turn>): Outcome
    requires ValidScript(script)
    decreases |script|
  {
    var a := Try(b, now, Attempts(script), script[0]);
    if Retryable(script[0].reply) && |script| > 1 then
      var rest := SendFrom(a.bucket, a.ends, script[1..]);
      Outcome([a.request] + rest.requests, rest.bucket, rest.ok, rest.ends)
    else Outcome([a.request], a.bucket, Success(script[0].reply), a.ends)
  }

  /**
    At most as many requests as attempts; all but the last were answered 429 or
    5xx; accepted exactly when the last was answered 2xx.
  */
  lemma {:induction false} SendShape(b: Bucket, now: real, script: seq<Turn>)
    requires ValidScript(script)
    ensures var o := SendFrom(b, now, script);
      var n := |o.requests|;
      && 1 <= n <= |script|
      && (forall i | 0 <= i < n :: o.requests[i].reply == script[i].reply)
      && (forall i | 0 <= i < n - 1 :: Retryable(o.requests[i].reply))
      && (o.ok <==> Success(o.requests[n - 1].reply))
      && (Retryable(o.requests[n - 1].reply) ==> n == |script|)
    decreases |script|
  {
    var a := Try(b, now, Attempts(script), script[0]);
    TryHolds(b, now, Attempts(script), script[0]);
    if Retryable(script[0].reply) && |script| > 1 {
      SendShape(a.bucket, a.ends, script[1..]);
    }
  }

  /** While every answer is 429 or 5xx a send makes three requests, and then gives up. */
  lemma GivesUpAfterThree(b: Bucket, now: real, script: seq<Turn>)
    requires |script| == 3 && forall i | 0 <= i < 3 :: ValidTurn(script[i]) && Retryable(script[i].reply)
    ensures ValidScript(script)
    ensures |SendFrom(b, now, script).requests| == 3 && !SendFrom(b, now, script).ok
  {
    SendShape(b, now, script);
  }

  ghost predicate AcceptedAt(script: seq<Turn>, n: nat) {
    n < |script| && Success(script[n].reply) && forall i | 0 <= i < n :: Retryable(script[i].reply)
  }

  /** A send is accepted exactly when some attempt is answered 2xx and every one before it 429 or 5xx. */
  lemma {:induction false} AcceptedExactly(b: Bucket, now: real, script: seq<Turn>)
    requires ValidScript(script)
    ensures SendFrom(b, now, script).ok <==> exists n :: AcceptedAt(script, n)
    decreases |script|
  {
    var a, rest := Try(b, now, Attempts(script), script[0]), script[1..];
    if Retryable(script[0].reply) && |script| > 1 {
      AcceptedExactly(a.bucket, a.ends, rest);
      if n: nat :| AcceptedAt(rest, n) {
        assert AcceptedAt(script, n + 1);
      }
      if n: nat :| AcceptedAt(script, n) {
        assert AcceptedAt(rest, n - 1);
      }
    } else if Success(script[0].reply) {
      assert AcceptedAt(script, 0);
    }
  }

  /**
    A send waits no longer than it is asked to: each request starts, but for its lag, when the gate and the clock allow.
  */
  lemma {:induction false} StartsWhenAllowed(b: Bucket, now: real, script: seq<Turn>, i: nat)
    requires ValidScript(script) && i < |SendFrom(b, now, script).requests|
    ensures i < |script|
    ensures var r := SendFrom(b, now, script).requests;
      r[i].start == script[i].lag
        + if i == 0 then Opens(b.gate, now) else Opens(r[i - 1].left, r[i - 1].received + script[i - 1].bodyLatency)
    decreases |script|
  {
    SendShape(b, now, script);
    var a := Try(b, now, Attempts(script), script[0]);
    if i > 0 {
      StartsWhenAllowed(a.bucket, a.ends, script[1..], i - 1);
    }
  }

  // ---- the gate over any sequence of sends ---------------------------------------------------------------

  /** Every gate left so far is over by `now`, or is the one still to be waited for. */
  ghost predicate GatesHeld(requests: seq<Request>, b: Bucket, now: real) {
    forall i | 0 <= i < |requests| && requests[i].left.Some? :: requests[i].left.value <= Opens(b.gate, now)
  }

  ghost predicate InOrder(requests: seq<Request>) {
    forall i, j | 0 <= i < j < |requests| && requests[i].left.Some? :: requests[i].left.value <= requests[j].start
  }

  lemma TryHoldsGates(before: seq<Request>, b: Bucket, now: real, attempt: nat, t: Turn)
    requires attempt >= 1 && ValidTurn(t) && InOrder(before) && GatesHeld(before, b, now)
    ensures var a := Try(b, now, attempt, t);
      InOrder(before + [a.request]) && GatesHeld(before + [a.request], a.bucket, a.ends)
  {
    TryHolds(b, now, attempt, t);
  }

  lemma {:induction false} SendHoldsGates(before: seq<Request>, b: Bucket, now: real, script: seq<Turn>)
    requires ValidScript(script) && InOrder(before) && GatesHeld(before, b, now)
    ensures var o := SendFrom(b, now, script);
      InOrder(before + o.requests) && GatesHeld(before + o.requests, o.bucket, o.ends)
    decreases |script|
  {
    var a := Try(b, now, Attempts(script), script[0]);
    TryHoldsGates(before, b, now, Attempts(script), script[0]);
    if Retryable(script[0].reply) && |script| > 1 {
      SendHoldsGates(before + [a.request], a.bucket, a.ends, script[1..]);
      assert before + [a.request] + SendFrom(a.bucket, a.ends, script[1..]).requests
        == before + SendFrom(b, now, script).requests;
    }
  }

  /** A send begun `idle` after the one before it ended. */
  datatype Call = Call(idle: real, script: seq<Turn>)

  ghost predicate ValidCalls(calls: seq<Call>) {
    forall i | 0 <= i < |calls| :: calls[i].idle >= 0.0 && ValidScript(calls[i].script)
  }

  /** Every request of the first `k` sends, the bucket they leave and when they end. */
  function Sends(b: Bucket, now: real, calls: seq<Call>, k: nat): Outcome
    requires k <= |calls| && forall i | 0 <= i < k :: ValidScript(calls[i].script)
    decreases k
  {
    if k == 0 then Outcome([], b, true, now)
    else
      var before := Sends(b, now, calls, k - 1);
      var o := SendFrom(before.bucket, before.ends + calls[k - 1].idle, calls[k - 1].script);
      Outcome(before.requests + o.requests, o.bucket, o.ok, o.ends)
  }

  lemma NextSendHoldsGates(before: Outcome, call: Call)
    requires call.idle >= 0.0 && ValidScript(call.script)
    requires InOrder(before.requests) && GatesHeld(before.requests, before.bucket, before.ends)
    ensures var o := SendFrom(before.bucket, before.ends + call.idle, call.script);
      InOrder(before.requests + o.requests) && GatesHeld(before.requests + o.requests, o.bucket, o.ends)
  {
    var later := before.ends + call.idle;
    assert GatesHeld(before.requests, before.bucket, later);
    SendHoldsGates(before.requests, before.bucket, later, call.script);
  }

  lemma {:induction false} SendsHoldGates(b: Bucket, now: real, calls: seq<Call>, k: nat)
    requires ValidCalls(calls) && k <= |calls|
    ensures var o := Sends(b, now, calls, k); InOrder(o.requests) && GatesHeld(o.requests, o.bucket, o.ends)
    decreases k
  {
    if k > 0 {
      SendsHoldGates(b, now, calls, k - 1);
      NextSendHoldsGates(Sends(b, now, calls, k - 1), calls[k - 1]);
    }
  }

  /**
    Over any sequence of sends and any responses, no request starts before a gate left by an earlier
    response.
  */
  lemma GateIsRespected(b: Bucket, now: real, calls: seq<Call>, k: nat, i: nat, j: nat)
    requires ValidCalls(calls) && k <= |calls| && i < j < |Sends(b, now, calls, k).requests|
    ensures var requests := Sends(b, now, calls, k).requests;
      requests[i].left.Some? ==> requests[i].left.value <= requests[j].start
  {
    SendsHoldGates(b, now, calls, k);
  }

  /** When the response to attempt number `attempt` lets the next request start. */
  function Asked(r: Request, attempt: nat, bodyLatency: real): Option<real>
    requires r.reply.Reply? && 1 <= attempt <= MAX_ATTEMPTS
  {
    if RateLimited(r.reply) then Some(r.received + bodyLatency + RetryWait(r.reply))
    else if ServerError(r.reply) then Some(r.received + [1000.0, 2000.0, 4000.0][attempt - 1])
    else if r.reply.remaining.Some? && r.reply.remaining.value <= 0 && r.reply.resetAfter.Some? then
      Some(r.received + 1000.0 * AtLeastZero(r.reply.resetAfter.value))
    else None
  }

  lemma TryLeavesAsked(b: Bucket, now: real, attempt: nat, t: Turn)
    requires 1 <= attempt <= MAX_ATTEMPTS && t.reply.Reply?
    ensures var r := Try(b, now, attempt, t).request; r.left == Asked(r, attempt, t.bodyLatency)
  {
    assert PowerOfTwo(0) == 1 && PowerOfTwo(1) == 2 && PowerOfTwo(2) == 4;
  }

  /**
    What a response asks for is what the next request waits: the time a 429 names, counted from when its
    body was read; one, two or four seconds after a 5xx; otherwise the reset of a bucket that is used up.
  */
  lemma {:induction false} LeftIsWhatWasAsked(b: Bucket, now: real, script: seq<Turn>, i: nat)
    requires ValidScript(script) && i < |SendFrom(b, now, script).requests|
    ensures var r := SendFrom(b, now, script).requests[i];
      && i < |script| && (r.reply.Reply? ==> r.left == Asked(r, Attempts(script) + i, script[i].bodyLatency))
    decreases |script|
  {
    var a := Try(b, now, Attempts(script), script[0]);
    if i > 0 {
      LeftIsWhatWasAsked(a.bucket, a.ends, script[1..], i - 1);
    } else if script[0].reply.Reply? {
      TryLeavesAsked(b, now, Attempts(script), script[0]);
    }
  }

  // ---- the client as the program runs it --------------------------------------------------------------------

  class DiscordWebhook {
    var gate: Option<real>
    var remaining: int
    ghost var requests: seq<Request>

    constructor ()
      ensures State() == Bucket(None, -1) && requests == []
    {
      gate, remaining, requests := None, -1, [];
    }

    ghost function State(): Bucket
      reads this
    {
      Bucket(gate, remaining)
    }

    /** Forget the gate and sleep until it, if it is still ahead. */
    method WaitForGate(now: real) returns (opens: real)
      modifies this`gate
      ensures opens == Opens(old(gate), now) && gate == None
    {
      var held := gate;
      gate := None;
      opens := if held.Some? && held.value > now then held.value else now;
    }

    method ReadHeaders(received: real, r: Reply)
      requires r.Reply?
      modifies this`gate, this`remaining
      ensures State() == AfterHeaders(old(State()), received, r)
    {
      if r.remaining.Some? {
        remaining := r.remaining.value;
        if r.remaining.value <= 0 && r.resetAfter.Some? {
          gate := Some(received + 1000.0 * AtLeastZero(r.resetAfter.value));
        }
      }
    }

    /** One attempt; what is left of it is whether to go on. */
    method Post(now: real, attempt: nat, t: Turn) returns (ends: real)
      requires attempt >= 1
      modifies this
      ensures var a := Try(old(State()), now, attempt, t);
        State() == a.bucket && requests == old(requests) + [a.request] && ends == a.ends
    {
      var opens := WaitForGate(now);
      var start := opens + t.lag;
      var received := start + t.latency;
      if t.reply.NoReply? {
        requests := requests + [Request(start, received, NoReply, None)];
        return received;
      }
      ReadHeaders(received, t.reply);
      ends := received + t.bodyLatency;
      if t.reply.status == 429 {
        gate := Some(ends + RetryWait(t.reply));
      } else if 500 <= t.reply.status < 600 {
        gate := Some(received + Backoff(attempt));
      }
      requests := requests + [Request(start, received, t.reply, gate)];
    }

    /** The webhook has sent what `o` says since its requests were `before`. */
    ghost predicate Sent(before: seq<Request>, o: Outcome)
      reads this
    {
      State() == o.bucket && requests == before + o.requests
    }

    /** Up to three attempts; `script` holds the answers to them. */
    method Send(begun: real, script: seq<Turn>) returns (ok: bool, now: real)
      requires ValidScript(script) && |script| == MAX_ATTEMPTS
      modifies this
      ensures var o := SendFrom(old(State()), begun, script);
        State() == o.bucket && requests == old(requests) + o.requests && ok == o.ok && now == o.ends
    {
      now := begun;
      ghost var o, before := SendFrom(State(), begun, script), requests;
      var attempt := 1;
      while true
        invariant 1 <= attempt <= MAX_ATTEMPTS
        invariant Going(o, before, requests, SendFrom(State(), now, script[attempt - 1..]))
        decreases MAX_ATTEMPTS - attempt
      {
        var t := script[attempt - 1];
        ghost var left := script[attempt - 1..];
        ghost var soFar, b, started := requests, State(), now;
        now := Post(now, attempt, t);
        if !Retryable(t.reply) || attempt == MAX_ATTEMPTS {
          GoesNoFurther(o, before, soFar, b, started, left);
          return Success(t.reply), now;
        }
        assert left[1..] == script[attempt..];
        GoesOn(o, before, soFar, b, started, left);
        attempt := attempt + 1;
      }
    }
  }

  /** With `done` the requests so far, what is still to come completes the send. */
  ghost predicate Going(o: Outcome, before: seq<Request>, done: seq<Request>, rest: Outcome) {
    done + rest.requests == before + o.requests && rest.bucket == o.bucket && rest.ok == o.ok && rest.ends == o.ends
  }

  lemma GoesNoFurther(o: Outcome, before: seq<Request>, done: seq<Request>, b: Bucket, now: real, script: seq<Turn>)
    requires ValidScript(script) && (!Retryable(script[0].reply) || |script| == 1)
    requires Going(o, before, done, SendFrom(b, now, script))
    ensures var a := Try(b, now, Attempts(script), script[0]);
      done + [a.request] == before + o.requests && a.bucket == o.bucket
        && a.ends == o.ends && o.ok == Success(script[0].reply)
  {
  }

  lemma GoesOn(o: Outcome, before: seq<Request>, done: seq<Request>, b: Bucket, now: real, script: seq<Turn>)
    requires ValidScript(script) && |script| > 1 && Retryable(script[0].reply)
    requires Going(o, before, done, SendFrom(b, now, script))
    ensures var a := Try(b, now, Attempts(script), script[0]);
      Going(o, before, done + [a.request], SendFrom(a.bucket, a.ends, script[1..]))
  {
    var a := Try(b, now, Attempts(script), script[0]);
    var rest := SendFrom(a.bucket, a.ends, script[1..]);
    assert done + [a.request] + rest.requests == done + ([a.request] + rest.requests);
  }

  /** One send to several webhooks, one after the other. */
  class FanOutNotifier {
    const webhooks: seq<DiscordWebhook>

    constructor (webhooks: seq<DiscordWebhook>)
      requires forall i, j | 0 <= i < j < |webhooks| :: webhooks[i] != webhooks[j]
      ensures this.webhooks == webhooks && Valid()
    {
      this.webhooks := webhooks;
    }

    ghost predicate Valid() {
      forall i, j | 0 <= i < j < |webhooks| :: webhooks[i] != webhooks[j]
    }

    /** What each webhook makes of its script. */
    ghost function Outcomes(begun: seq<real>, scripts: seq<seq<Turn>>): seq<Outcome>
      requires |begun| == |scripts| == |webhooks|
      requires forall i | 0 <= i < |scripts| :: ValidScript(scripts[i])
      reads webhooks
    {
      seq(|webhooks|, i requires 0 <= i < |webhooks| && |begun| == |scripts| == |webhooks| && ValidScript(scripts[i])
                        reads webhooks =>
        SendFrom(webhooks[i].State(), begun[i], scripts[i]))
    }

    /** One webhook of the fan-out; the others are left alone. */
    method SendTo(n: nat, begun: real, script: seq<Turn>, ghost o: Outcome) returns (ok: bool)
      requires Valid() && n < |webhooks| && ValidScript(script) && |script| == MAX_ATTEMPTS
      requires o == SendFrom(webhooks[n].State(), begun, script)
      modifies webhooks[n]
      ensures webhooks[n].Sent(old(webhooks[n].requests), o) && ok == o.ok
      ensures forall i | 0 <= i < |webhooks| && i != n :: unchanged(webhooks[i])
    {
      var now;
      ok, now := webhooks[n].Send(begun, script);
    }

    /** Every webhook is tried, whatever became of the others; accepted exactly when at least one accepts. */
    method Send(begun: seq<real>, scripts: seq<seq<Turn>>) returns (ok: bool)
      requires Valid() && |begun| == |scripts| == |webhooks|
      requires forall i | 0 <= i < |scripts| :: ValidScript(scripts[i]) && |scripts[i]| == MAX_ATTEMPTS
      modifies webhooks
      ensures forall i | 0 <= i < |webhooks| ::
        var o := SendFrom(old(webhooks[i].State()), begun[i], scripts[i]);
        webhooks[i].State() == o.bucket && webhooks[i].requests == old(webhooks[i].requests) + o.requests
      ensures ok <==> exists i | 0 <= i < |webhooks| :: SendFrom(old(webhooks[i].State()), begun[i], scripts[i]).ok
    {
      ghost var outcomes := Outcomes(begun, scripts);
      ok := false;
      for n := 0 to |webhooks|
        invariant forall i | 0 <= i < n :: webhooks[i].Sent(old(webhooks[i].requests), outcomes[i])
        invariant forall i | n <= i < |webhooks| :: unchanged(webhooks[i])
        invariant ok <==> exists i | 0 <= i < n :: outcomes[i].ok
      {
        var accepted := SendTo(n, begun[n], scripts[n], outcomes[n]);
        ok := ok || accepted;
      }
    }
  }
}
