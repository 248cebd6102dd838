/** The request loop and key rotation of internal/http/client.go, with doRequest as an oracle. */
module HttpClient {
  import opened Backoff
  import opened CircuitBreaker
  import opened Common

  datatype ErrorCode =
    | AuthUnauthorized | AuthInvalidKey | FlagNotFound | NetworkRetryLimit | NetworkError | NetworkTimeout | CircuitOpen

  /** What one exchange with the server yields. */
  datatype Reply = TransportError | Status(code: int)

  datatype Outcome = Response(status: int) | Failed(error: ErrorCode) | ContextDone

  /** The oracle of one request: the reply to each attempt, and whether the context ends the wait after it. */
  datatype Script = Script(reply: nat -> Reply, cancelled: nat -> bool, jitter: nat -> int)

  function HandleErrorResponse(status: int): ErrorCode {
    if status == 401 then AuthUnauthorized
    else if status == 403 then AuthInvalidKey
    else if status == 404 then FlagNotFound
    else if status == 429 then NetworkRetryLimit
    else NetworkError
  }

  predicate IsRetryable(error: ErrorCode) {
    error.NetworkError? || error.NetworkTimeout?
  }

  function DoRequest(reply: Reply): (o: Outcome)
    ensures o.Response? <==> reply.Status? && reply.code < 400
    ensures o.Failed? ==> (IsRetryable(o.error) <==> !(reply.Status? && reply.code in {401, 403, 404, 429}))
    ensures AuthFailure(o) <==> reply.Status? && reply.code in {401, 403}
    ensures !o.ContextDone? && o != Failed(CircuitOpen)
  {
    match reply
    case TransportError => Failed(NetworkError)
    case Status(code) => if code >= 400 then Failed(HandleErrorResponse(code)) else Response(code)
  }

  predicate Retries(reply: Reply) {
    DoRequest(reply).Failed? && IsRetryable(DoRequest(reply).error)
  }

  /** The number of the attempt that ends an admitted request, from the given attempt on. */
  function LastAttempt(s: Script, maxAttempts: nat, attempt: nat): (k: nat)
    requires attempt <= maxAttempts
    ensures attempt <= k <= maxAttempts
    ensures forall j :: attempt <= j < k ==> Retries(s.reply(j)) && !s.cancelled(j)
    ensures k == maxAttempts || !Retries(s.reply(k)) || s.cancelled(k)
    decreases maxAttempts - attempt
  {
    if attempt == maxAttempts || !Retries(s.reply(attempt)) || s.cancelled(attempt) then attempt
    else LastAttempt(s, maxAttempts, attempt + 1)
  }

  /** Attempts an admitted request makes. */
  function Sends(s: Script, maxAttempts: int): nat {
    if maxAttempts <= 0 then 0 else LastAttempt(s, maxAttempts, 1)
  }

  function AdmittedOutcome(s: Script, maxAttempts: int): Outcome {
    var n := Sends(s, maxAttempts);
    if n == 0 then Failed(NetworkRetryLimit)
    else if !Retries(s.reply(n)) then DoRequest(s.reply(n))
    else if n == maxAttempts then Failed(NetworkRetryLimit)
    else ContextDone
  }

  /** Every attempt before this one was retryable, and no wait after one was cancelled. */
  ghost predicate Reaches(s: Script, attempt: nat) {
    forall j :: 1 <= j < attempt ==> Retries(s.reply(j)) && !s.cancelled(j)
  }

  lemma {:induction false} ReachedLast(s: Script, maxAttempts: nat, attempt: nat, end: nat)
    requires 1 <= attempt <= end <= maxAttempts && Reaches(s, end)
    requires end == maxAttempts || !Retries(s.reply(end)) || s.cancelled(end)
    ensures LastAttempt(s, maxAttempts, attempt) == end
    decreases end - attempt
  {
    if attempt < end {
      ReachedLast(s, maxAttempts, attempt + 1, end);
    }
  }

  lemma AttemptEnds(s: Script, maxAttempts: int, attempt: nat)
    requires 1 <= attempt <= maxAttempts && Reaches(s, attempt)
    requires attempt == maxAttempts || !Retries(s.reply(attempt)) || s.cancelled(attempt)
    ensures Sends(s, maxAttempts) == attempt
    ensures AdmittedOutcome(s, maxAttempts) ==
      if !Retries(s.reply(attempt)) then DoRequest(s.reply(attempt))
      else if attempt == maxAttempts then Failed(NetworkRetryLimit) else ContextDone
  {
    ReachedLast(s, maxAttempts, 1, attempt);
  }

  /** The breaker after a request: one Allow and, unless refused or cancelled, one Record. */
  function RequestStep(c: Config, b: Breaker, s: Script, maxAttempts: int, start: int, end: int): (Breaker, Outcome) {
    var (admitting, admitted) := AllowStep(c, b, start);
    if !admitted then (admitting, Failed(CircuitOpen))
    else
      var outcome := AdmittedOutcome(s, maxAttempts);
      (RecordStep(c, admitting, outcome, end), outcome)
  }

  /** The Record call an outcome leads to: none when the context ended. */
  function RecordStep(c: Config, b: Breaker, outcome: Outcome, end: int): Breaker {
    match outcome
    case Response(_) => SuccessStep(c, b)
    case Failed(_) => FailureStep(c, b, end)
    case ContextDone => b
  }

  class HTTPClient {
    const retry: RetryConfig
    const secondaryAPIKey: string
    const circuitBreaker: CircuitBreaker
    var currentAPIKey: string
    var keyRotationTimestamp: Option<int>

    constructor (apiKey: string, secondaryAPIKey: string, retry: RetryConfig, breaker: CircuitBreaker)
      ensures currentAPIKey == apiKey && this.secondaryAPIKey == secondaryAPIKey && keyRotationTimestamp.None?
      ensures this.retry == retry && circuitBreaker == breaker
    {
      this.secondaryAPIKey, this.retry, circuitBreaker := secondaryAPIKey, retry, breaker;
      currentAPIKey, keyRotationTimestamp := apiKey, None;
    }

    /** One request with retries. Each admitted request makes exactly one Record call unless its context
        ends during a wait. */
    method Request(s: Script, start: int, end: int) returns (outcome: Outcome, sends: nat, waited: int)
      modifies circuitBreaker
      ensures (circuitBreaker.View(), outcome) ==
        RequestStep(circuitBreaker.config, old(circuitBreaker.View()), s, retry.maxAttempts, start, end)
      ensures var admitted := AllowStep(circuitBreaker.config, old(circuitBreaker.View()), start).1;
        && sends == (if admitted then Sends(s, retry.maxAttempts) else 0)
        && circuitBreaker.recorded ==
          old(circuitBreaker.recorded) + (if admitted && !outcome.ContextDone? then 1 else 0)
      ensures sends <= Max(retry.maxAttempts, 0)
      ensures waited == if sends == 0 then 0 else TotalWait(retry, s.jitter, sends - 1)
    {
      sends, waited := 0, 0;
      var admitted := circuitBreaker.Allow(start);
      if !admitted {
        return Failed(CircuitOpen), sends, waited;
      }
      outcome, sends, waited := AdmittedRequest(s, end);
    }

    /** The attempts of an admitted request. */
    method AdmittedRequest(s: Script, end: int) returns (outcome: Outcome, sends: nat, waited: int)
      modifies circuitBreaker
      ensures outcome == AdmittedOutcome(s, retry.maxAttempts) && sends == Sends(s, retry.maxAttempts)
      ensures circuitBreaker.View() == RecordStep(circuitBreaker.config, old(circuitBreaker.View()), outcome, end)
      ensures circuitBreaker.recorded == old(circuitBreaker.recorded) + if outcome.ContextDone? then 0 else 1
      ensures waited == if sends == 0 then 0 else TotalWait(retry, s.jitter, sends - 1)
    {
      sends, waited := 0, 0;
      var attempt := 1;
      while attempt <= retry.maxAttempts
        invariant 1 <= attempt && sends == attempt - 1
        invariant Reaches(s, attempt)
        invariant attempt > retry.maxAttempts ==> attempt == 1
        invariant waited == TotalWait(retry, s.jitter, attempt - 1)
        invariant circuitBreaker.View() == old(circuitBreaker.View())
        invariant circuitBreaker.recorded == old(circuitBreaker.recorded)
        decreases retry.maxAttempts - attempt
      {
        sends := sends + 1;
        var answer := DoRequest(s.reply(attempt));
        if answer.Response? {
          AttemptEnds(s, retry.maxAttempts, attempt);
          circuitBreaker.RecordSuccess();
          return answer, sends, waited;
        }
        if !IsRetryable(answer.error) {
          AttemptEnds(s, retry.maxAttempts, attempt);
          circuitBreaker.RecordFailure(end);
          return answer, sends, waited;
        }
        if attempt >= retry.maxAttempts {
          AttemptEnds(s, retry.maxAttempts, attempt);
          break;
        }
        if s.cancelled(attempt) {
          AttemptEnds(s, retry.maxAttempts, attempt);
          return ContextDone, sends, waited;
        }
        waited := waited + CalculateBackoff(attempt, retry, s.jitter(attempt));
        attempt := attempt + 1;
      }
      circuitBreaker.RecordFailure(end);
      outcome := Failed(NetworkRetryLimit);
    }

    method RotateToSecondaryKey(now: int) returns (rotated: bool)
      modifies this
      ensures rotated <==> secondaryAPIKey != "" && old(currentAPIKey) != secondaryAPIKey
      ensures currentAPIKey == if rotated then secondaryAPIKey else old(currentAPIKey)
      ensures keyRotationTimestamp == if rotated then Some(now) else old(keyRotationTimestamp)
    {
      if secondaryAPIKey == "" {
        return false;
      }
      if currentAPIKey == secondaryAPIKey {
        return false;
      }
      currentAPIKey := secondaryAPIKey;
      keyRotationTimestamp := Some(now);
      rotated := true;
    }

    /** Post: on an authentication error, rotate to the secondary key if possible and request once more. */
    method PostWithKeyRotation(first: Script, start: int, end: int, second: Script, restart: int, finish: int)
      returns (outcome: Outcome, sends: nat, rotated: bool)
      modifies this, circuitBreaker
      ensures (Client(circuitBreaker.View(), currentAPIKey), outcome, rotated) ==
        PostStep(circuitBreaker.config, Client(old(circuitBreaker.View()), old(currentAPIKey)), secondaryAPIKey,
                 Post(first, start, end, second, restart, finish), retry.maxAttempts)
      ensures keyRotationTimestamp == if rotated then Some(end) else old(keyRotationTimestamp)
      ensures sends <= 2 * Max(retry.maxAttempts, 0)
    {
      var waited: int;
      outcome, sends, waited := Request(first, start, end);
      rotated := false;
      if outcome.Failed? && (outcome.error.AuthUnauthorized? || outcome.error.AuthInvalidKey?) {
        if secondaryAPIKey != "" {
          rotated := RotateToSecondaryKey(end);
          if rotated {
            var more: nat;
            outcome, more, waited := Request(second, restart, finish);
            sends := sends + more;
          }
        }
      }
    }
  }

  // ----- Key rotation over the life of a client -----

  predicate AuthFailure(o: Outcome) {
    o.Failed? && (o.error.AuthUnauthorized? || o.error.AuthInvalidKey?)
  }

  predicate CanRotate(current: string, secondary: string) {
    secondary != "" && current != secondary
  }

  /** What a Post reads and changes: the breaker and the current key. */
  datatype Client = Client(breaker: Breaker, key: string)

  /** One Post: the oracle of its first request and of the second one it may make. */
  datatype Post = Post(first: Script, start: int, end: int, second: Script, restart: int, finish: int)

  function FirstOutcome(c: Config, client: Client, post: Post, maxAttempts: int): (Breaker, Outcome) {
    RequestStep(c, client.breaker, post.first, maxAttempts, post.start, post.end)
  }

  /** The client, the outcome, and whether the key was rotated. */
  function PostStep(c: Config, client: Client, secondary: string, post: Post, maxAttempts: int)
    : (Client, Outcome, bool)
  {
    var (b, o) := FirstOutcome(c, client, post, maxAttempts);
    if AuthFailure(o) && CanRotate(client.key, secondary) then
      var (b2, o2) := RequestStep(c, b, post.second, maxAttempts, post.restart, post.finish);
      (Client(b2, secondary), o2, true)
    else (Client(b, client.key), o, false)
  }

  /** The client after a series of Posts, and how many of them rotated the key. */
  function PostRun(c: Config, client: Client, secondary: string, posts: seq<Post>, maxAttempts: int): (Client, nat) {
    if posts == [] then (client, 0)
    else
      var (before, n) := PostRun(c, client, secondary, posts[..|posts| - 1], maxAttempts);
      var (after, _, rotated) := PostStep(c, before, secondary, posts[|posts| - 1], maxAttempts);
      (after, if rotated then n + 1 else n)
  }

  /** In the run, the first request of Post i fails to authenticate. */
  predicate FailsAuth(c: Config, client: Client, secondary: string, posts: seq<Post>, maxAttempts: int, i: int) {
    0 <= i < |posts| &&
    AuthFailure(FirstOutcome(c, PostRun(c, client, secondary, posts[..i], maxAttempts).0, posts[i], maxAttempts).1)
  }

  lemma FailsAuthPrefix(c: Config, client: Client, secondary: string, posts: seq<Post>, maxAttempts: int, i: nat)
    requires i < |posts| - 1
    ensures FailsAuth(c, client, secondary, posts, maxAttempts, i) <==>
      FailsAuth(c, client, secondary, posts[..|posts| - 1], maxAttempts, i)
  {
    assert posts[..|posts| - 1][..i] == posts[..i];
  }

  lemma PostRotates(c: Config, client: Client, secondary: string, post: Post, maxAttempts: int)
    ensures var (after, _, rotated) := PostStep(c, client, secondary, post, maxAttempts);
      && (rotated <==> AuthFailure(FirstOutcome(c, client, post, maxAttempts).1) && CanRotate(client.key, secondary))
      && after.key == if rotated then secondary else client.key
  {
  }

  ghost predicate SomeFailsAuth(c: Config, client: Client, secondary: string, posts: seq<Post>, maxAttempts: int) {
    exists i :: FailsAuth(c, client, secondary, posts, maxAttempts, i)
  }

  lemma SomeFailsAuthStep(c: Config, client: Client, secondary: string, posts: seq<Post>, maxAttempts: int)
    requires posts != []
    ensures SomeFailsAuth(c, client, secondary, posts, maxAttempts) <==>
      || SomeFailsAuth(c, client, secondary, posts[..|posts| - 1], maxAttempts)
      || FailsAuth(c, client, secondary, posts, maxAttempts, |posts| - 1)
  {
    var last := |posts| - 1;
    if i :| 0 <= i < last && FailsAuth(c, client, secondary, posts, maxAttempts, i) {
      FailsAuthPrefix(c, client, secondary, posts, maxAttempts, i);
    }
    if i :| FailsAuth(c, client, secondary, posts[..last], maxAttempts, i) {
      FailsAuthPrefix(c, client, secondary, posts, maxAttempts, i);
    }
  }

  /** A client rotates once, at the first authentication failure if it can at all, and never back. */
  lemma {:induction false} RotatesOnce(c: Config, client: Client, secondary: string, posts: seq<Post>, maxAttempts: int)
    ensures var (after, n) := PostRun(c, client, secondary, posts, maxAttempts);
      var rotates := CanRotate(client.key, secondary) && SomeFailsAuth(c, client, secondary, posts, maxAttempts);
      n == (if rotates then 1 else 0) && after.key == if rotates then secondary else client.key
  {
    if posts != [] {
      var last := |posts| - 1;
      RotatesOnce(c, client, secondary, posts[..last], maxAttempts);
      SomeFailsAuthStep(c, client, secondary, posts, maxAttempts);
      PostRotates(c, PostRun(c, client, secondary, posts[..last], maxAttempts).0, secondary, posts[last], maxAttempts);
    }
  }

  // ----- What a request does, by its replies and its context alone -----

  /** A reply worth another attempt. */
  predicate Temporary(r: Reply) {
    r.TransportError? || (r.code >= 400 && r.code != 401 && r.code != 403 && r.code != 404 && r.code != 429)
  }

  /** Attempt k is made: there are so many, every earlier reply was temporary and no wait was cancelled. */
  predicate Makes(s: Script, maxAttempts: int, k: nat) {
    1 <= k <= maxAttempts && forall j :: 1 <= j < k ==> Temporary(s.reply(j)) && !s.cancelled(j)
  }

  /** Attempt k is made and answered by a status below 400. */
  predicate SucceedsAt(s: Script, maxAttempts: int, k: nat) {
    Makes(s, maxAttempts, k) && s.reply(k).Status? && s.reply(k).code < 400
  }

  predicate InterruptedAt(s: Script, maxAttempts: int, k: nat) {
    Makes(s, maxAttempts, k) && k < maxAttempts && Temporary(s.reply(k)) && s.cancelled(k)
  }

  ghost predicate Succeeds(s: Script, maxAttempts: int) {
    exists k: nat :: SucceedsAt(s, maxAttempts, k)
  }

  ghost predicate Interrupted(s: Script, maxAttempts: int) {
    exists k: nat :: InterruptedAt(s, maxAttempts, k)
  }

  lemma TemporaryRetries(r: Reply)
    ensures Temporary(r) <==> Retries(r)
  {
  }

  /** What comes of a request whose last attempt is k. */
  lemma OutcomeAt(s: Script, maxAttempts: int, k: nat)
    requires Makes(s, maxAttempts, k) && (k == maxAttempts || !Temporary(s.reply(k)) || s.cancelled(k))
    ensures var o := AdmittedOutcome(s, maxAttempts);
      match s.reply(k)
      case TransportError => o == if k == maxAttempts then Failed(NetworkRetryLimit) else ContextDone
      case Status(code) =>
        if code < 400 then o == Response(code)
        else if code == 401 then o == Failed(AuthUnauthorized)
        else if code == 403 then o == Failed(AuthInvalidKey)
        else if code == 404 then o == Failed(FlagNotFound)
        else if code == 429 || k == maxAttempts then o == Failed(NetworkRetryLimit)
        else o == ContextDone
  {
    assert Reaches(s, k);
    AttemptEnds(s, maxAttempts, k);
  }

  lemma Ending(s: Script, maxAttempts: int)
    ensures AdmittedOutcome(s, maxAttempts).Response? <==> Succeeds(s, maxAttempts)
    ensures AdmittedOutcome(s, maxAttempts).ContextDone? <==> Interrupted(s, maxAttempts)
    ensures maxAttempts <= 0 ==> AdmittedOutcome(s, maxAttempts) == Failed(NetworkRetryLimit)
  {
    if maxAttempts >= 1 {
      var n := Sends(s, maxAttempts);
      assert Makes(s, maxAttempts, n);
      OutcomeAt(s, maxAttempts, n);
      assert AdmittedOutcome(s, maxAttempts).Response? ==> SucceedsAt(s, maxAttempts, n);
      assert AdmittedOutcome(s, maxAttempts).ContextDone? ==> InterruptedAt(s, maxAttempts, n);
    }
    if k: nat :| SucceedsAt(s, maxAttempts, k) {
      OutcomeAt(s, maxAttempts, k);
    }
    if k: nat :| InterruptedAt(s, maxAttempts, k) {
      OutcomeAt(s, maxAttempts, k);
    }
  }

  // ----- Requests made one after another -----

  datatype Req = Req(script: Script, start: int, end: int)

  /** Between requests no half-open slot is held. */
  predicate Quiet(c: Config, b: Breaker) {
    b.state.HalfOpen? ==> b.inProgress == 0 && b.allowed == c.halfOpenMaxAllowed
  }

  predicate StillOpen(c: Config, b: Breaker, now: int) {
    b.state.Open? && now - b.lastFailure < c.resetTimeout
  }

  /** A request starting now finds the breaker half-open, or switches it to that. */
  predicate Probes(c: Config, b: Breaker, now: int) {
    b.state.HalfOpen? || (b.state.Open? && now - b.lastFailure >= c.resetTimeout)
  }

  /** From a quiet breaker a request is refused exactly while the breaker is Open and its reset timeout
      has not passed. The slot it takes is given back unless it probes and a wait of it is cancelled. */
  lemma RequestKeepsQuiet(c: Config, b: Breaker, r: Req, maxAttempts: int)
    requires c.halfOpenMaxAllowed >= 1 && Quiet(c, b)
    ensures !AllowStep(c, b, r.start).1 <==> StillOpen(c, b, r.start)
    ensures Quiet(c, RequestStep(c, b, r.script, maxAttempts, r.start, r.end).0) <==>
      !(Probes(c, b, r.start) && Interrupted(r.script, maxAttempts))
  {
    Ending(r.script, maxAttempts);
  }

  function Sequence(c: Config, b: Breaker, reqs: seq<Req>, maxAttempts: int): Breaker {
    if reqs == [] then b
    else
      var last := reqs[|reqs| - 1];
      RequestStep(c, Sequence(c, b, reqs[..|reqs| - 1], maxAttempts), last.script, maxAttempts, last.start, last.end).0
  }

  lemma SequenceMore(c: Config, b: Breaker, reqs: seq<Req>, last: Req, maxAttempts: int)
    ensures Sequence(c, b, reqs + [last], maxAttempts) ==
      RequestStep(c, Sequence(c, b, reqs, maxAttempts), last.script, maxAttempts, last.start, last.end).0
  {
    assert (reqs + [last])[..|reqs|] == reqs;
  }

  lemma {:induction false} SequenceAppend(c: Config, b: Breaker, first: seq<Req>, more: seq<Req>, maxAttempts: int)
    ensures Sequence(c, b, first + more, maxAttempts) ==
      Sequence(c, Sequence(c, b, first, maxAttempts), more, maxAttempts)
  {
    if more == [] {
      assert first + more == first;
    } else {
      SequenceAppend(c, b, first, more[..|more| - 1], maxAttempts);
      assert (first + more)[..|first + more| - 1] == first + more[..|more| - 1];
    }
  }

  /** Without cancelled waits, requests one after another keep the breaker quiet, so each is refused
      only while the breaker is Open and less than the reset timeout after the last recorded failure. */
  lemma {:induction false} SequentialRequests(c: Config, reqs: seq<Req>, maxAttempts: int, next: Req)
    requires c.halfOpenMaxAllowed >= 1
    requires forall r :: r in reqs ==> !Interrupted(r.script, maxAttempts)
    ensures var b := Sequence(c, NEW_BREAKER, reqs, maxAttempts);
      Quiet(c, b) && (!AllowStep(c, b, next.start).1 <==> StillOpen(c, b, next.start))
  {
    if reqs != [] {
      var last := |reqs| - 1;
      SequentialRequests(c, reqs[..last], maxAttempts, reqs[last]);
      assert reqs[last] in reqs;
      RequestKeepsQuiet(c, Sequence(c, NEW_BREAKER, reqs[..last], maxAttempts), reqs[last], maxAttempts);
    }
  }

  // ----- What requests do to the breaker -----

  /** A request while the breaker is closed: a success clears the failures, an interrupted request changes
      nothing, and any other adds a failure, the one that reaches the threshold opening the breaker. */
  lemma ClosedRequest(c: Config, b: Breaker, r: Req, maxAttempts: int)
    requires b.state.Closed?
    ensures var after := RequestStep(c, b, r.script, maxAttempts, r.start, r.end).0;
      if Succeeds(r.script, maxAttempts) then after == b.(failures := 0)
      else if Interrupted(r.script, maxAttempts) then after == b
      else
        && after.lastFailure == r.end
        && if b.failures + 1 >= c.failureThreshold then after.state.Open?
           else after.state.Closed? && after.failures == b.failures + 1
  {
    Ending(r.script, maxAttempts);
  }

  /** A request that finds a free half-open slot: a success is counted and may close the breaker, an
      interrupted request keeps the slot, and any other opens the breaker. */
  lemma HalfOpenRequest(c: Config, b: Breaker, r: Req, maxAttempts: int)
    requires b.state.HalfOpen? && b.inProgress < b.allowed
    ensures var after := RequestStep(c, b, r.script, maxAttempts, r.start, r.end).0;
      if Succeeds(r.script, maxAttempts) then
        if b.successes + 1 >= c.successThreshold then after.state.Closed? && after.failures == 0
        else after == b.(successes := b.successes + 1)
      else if Interrupted(r.script, maxAttempts) then after == b.(inProgress := b.inProgress + 1)
      else after.state.Open? && after.lastFailure == r.end
  {
    Ending(r.script, maxAttempts);
  }

  /** A refused request is answered with CIRCUIT_OPEN, whatever the server would say; one that finds the
      breaker open and the reset timeout passed starts a half-open period of so many slots. */
  lemma OtherRequest(c: Config, b: Breaker, r: Req, maxAttempts: int)
    ensures var (after, o) := RequestStep(c, b, r.script, maxAttempts, r.start, r.end);
      && (StillOpen(c, b, r.start) || (b.state.HalfOpen? && b.inProgress >= b.allowed) ==>
            after == b && o == Failed(CircuitOpen))
      && (b.state.Open? && !StillOpen(c, b, r.start) ==>
            (after, o) == RequestStep(c, Breaker(HalfOpen, 0, 0, b.lastFailure, c.halfOpenMaxAllowed, 0),
                                      r.script, maxAttempts, r.start, r.end))
      && (o.ContextDone? ==> Interrupted(r.script, maxAttempts))
  {
    Ending(r.script, maxAttempts);
  }

  /** How many of the latest requests in a row did not end with a status below 400; interrupted ones do not
      matter. */
  ghost function LatestFailures(reqs: seq<Req>, maxAttempts: int): nat {
    if reqs == [] then 0
    else
      var last, earlier := reqs[|reqs| - 1].script, reqs[..|reqs| - 1];
      if Succeeds(last, maxAttempts) then 0
      else LatestFailures(earlier, maxAttempts) + if Interrupted(last, maxAttempts) then 0 else 1
  }

  /** After any requests one after another, a closed breaker has counted the latest failures in a row. */
  lemma {:induction false} ClosedCountsFailures(c: Config, reqs: seq<Req>, maxAttempts: int)
    ensures var b := Sequence(c, NEW_BREAKER, reqs, maxAttempts);
      b.state.Closed? ==> b.failures == LatestFailures(reqs, maxAttempts)
  {
    if reqs != [] {
      ClosedCountsFailures(c, reqs[..|reqs| - 1], maxAttempts);
      Ending(reqs[|reqs| - 1].script, maxAttempts);
    }
  }

  /** A client whose requests all succeed or are interrupted never has its breaker open. */
  lemma {:induction false} SuccessesStayClosed(c: Config, reqs: seq<Req>, maxAttempts: int)
    requires forall r :: r in reqs ==> Succeeds(r.script, maxAttempts) || Interrupted(r.script, maxAttempts)
    ensures Sequence(c, NEW_BREAKER, reqs, maxAttempts) == NEW_BREAKER
  {
    if reqs != [] {
      var last := |reqs| - 1;
      SuccessesStayClosed(c, reqs[..last], maxAttempts);
      assert reqs[last] in reqs;
      ClosedRequest(c, NEW_BREAKER, reqs[last], maxAttempts);
    }
  }

  /** A Post whose first request is answered by 401 or 403 succeeds if the second one, with the other key,
      does, as long as the first was not the failure that opens the breaker. */
  lemma PostRecovers(c: Config, client: Client, secondary: string, post: Post, maxAttempts: int, k: nat, m: nat)
    requires client.breaker.state.Closed? && client.breaker.failures + 1 < c.failureThreshold
    requires Makes(post.first, maxAttempts, k) && post.first.reply(k) in {Status(401), Status(403)}
    requires SucceedsAt(post.second, maxAttempts, m) && secondary != "" && client.key != secondary
    ensures var (after, o, rotated) := PostStep(c, client, secondary, post, maxAttempts);
      && o == Response(post.second.reply(m).code) && rotated && after.key == secondary
      && after.breaker.state.Closed? && after.breaker.failures == 0
  {
    OutcomeAt(post.first, maxAttempts, k);
    OutcomeAt(post.second, maxAttempts, m);
  }

  // ----- Leaked slots -----

  /** No slot is left, and none will be: half-open with every slot taken, or about to be half-open with
      no slot allowed. */
  predicate Dead(c: Config, b: Breaker) {
    (b.state.HalfOpen? && b.inProgress >= b.allowed) || (b.state.Open? && c.halfOpenMaxAllowed <= 0)
  }

  /** A dead breaker refuses every request of a client, however much time passes, and stays dead. */
  lemma {:induction false} DeadStaysDead(c: Config, b: Breaker, reqs: seq<Req>, maxAttempts: int, next: Req)
    requires Dead(c, b)
    ensures var after := Sequence(c, b, reqs, maxAttempts);
      && Dead(c, after) && !AllowStep(c, after, next.start).1
      && (b.state.HalfOpen? ==> after == b)
  {
    if reqs != [] {
      DeadStaysDead(c, b, reqs[..|reqs| - 1], maxAttempts, reqs[|reqs| - 1]);
    }
  }

  /** Some request after some others is admitted. */
  ghost predicate Admissible(c: Config, b: Breaker, maxAttempts: int) {
    exists reqs: seq<Req>, start: int :: AllowStep(c, Sequence(c, b, reqs, maxAttempts), start).1
  }

  /** With no request in flight, every later request is refused if and only if the breaker is dead. */
  lemma BlockedIffDead(c: Config, b: Breaker, maxAttempts: int)
    ensures !Admissible(c, b, maxAttempts) <==> Dead(c, b)
  {
    if Dead(c, b) {
      forall reqs: seq<Req>, start: int
        ensures !AllowStep(c, Sequence(c, b, reqs, maxAttempts), start).1
      {
        DeadStaysDead(c, b, reqs, maxAttempts, Failing(start));
      }
    } else {
      assert AllowStep(c, Sequence(c, b, [], maxAttempts), b.lastFailure + c.resetTimeout).1;
    }
  }

  /** The cancelled and the successful probes since the breaker became half-open, by the outcomes of the
      requests made one after another. */
  function ProbesSince(c: Config, reqs: seq<Req>, maxAttempts: int): (nat, nat) {
    if reqs == [] then (0, 0)
    else
      var earlier, last := reqs[..|reqs| - 1], reqs[|reqs| - 1];
      var before := Sequence(c, NEW_BREAKER, earlier, maxAttempts);
      var (cancelled, succeeded) := if before.state.HalfOpen? then ProbesSince(c, earlier, maxAttempts) else (0, 0);
      var outcome := RequestStep(c, before, last.script, maxAttempts, last.start, last.end).1;
      (cancelled + if outcome.ContextDone? then 1 else 0, succeeded + if outcome.Response? then 1 else 0)
  }

  /** In a half-open period the slots taken are those of the cancelled probes, and the successes counted
      are those of the successful ones. */
  lemma {:induction false} SlotsAreCancelledProbes(c: Config, reqs: seq<Req>, maxAttempts: int)
    ensures var b := Sequence(c, NEW_BREAKER, reqs, maxAttempts);
      var (cancelled, succeeded) := ProbesSince(c, reqs, maxAttempts);
      b.state.HalfOpen? ==>
        && b.inProgress == cancelled <= Max(c.halfOpenMaxAllowed, 0) && b.successes == succeeded
        && b.allowed == c.halfOpenMaxAllowed
  {
    if reqs != [] {
      SlotsAreCancelledProbes(c, reqs[..|reqs| - 1], maxAttempts);
    }
  }

  /** After any requests one after another, all later ones are refused for good if and only if as many
      probes of the half-open period were cancelled as there are slots. */
  lemma BlockedIffProbesCancelled(c: Config, reqs: seq<Req>, maxAttempts: int)
    requires c.halfOpenMaxAllowed >= 1
    ensures var b := Sequence(c, NEW_BREAKER, reqs, maxAttempts);
      !Admissible(c, b, maxAttempts) <==>
        b.state.HalfOpen? && ProbesSince(c, reqs, maxAttempts).0 == c.halfOpenMaxAllowed
  {
    SlotsAreCancelledProbes(c, reqs, maxAttempts);
    BlockedIffDead(c, Sequence(c, NEW_BREAKER, reqs, maxAttempts), maxAttempts);
  }

  /** Each cancelled probe takes a slot until the half-open period ends, as long as one is left. */
  lemma {:induction false} CancelledProbesLeak(c: Config, b: Breaker, reqs: seq<Req>, maxAttempts: int)
    requires c.halfOpenMaxAllowed >= 1 && Quiet(c, b)
    requires reqs != [] && Probes(c, b, reqs[0].start)
    requires forall r :: r in reqs ==> Interrupted(r.script, maxAttempts)
    ensures var after := Sequence(c, b, reqs, maxAttempts);
      && after.state.HalfOpen? && after.allowed == c.halfOpenMaxAllowed
      && after.inProgress == Min(|reqs|, c.halfOpenMaxAllowed)
  {
    var last := |reqs| - 1;
    assert reqs[last] in reqs;
    Ending(reqs[last].script, maxAttempts);
    if last > 0 {
      CancelledProbesLeak(c, b, reqs[..last], maxAttempts);
    } else {
      assert reqs[..0] == [];
    }
  }

  /** As many cancelled probes as there are slots block the client for good; fewer do not. */
  lemma CancelledProbesBlockForever(c: Config, b: Breaker, probes: seq<Req>, maxAttempts: int)
    requires c.halfOpenMaxAllowed >= 1 && Quiet(c, b)
    requires probes != [] && Probes(c, b, probes[0].start)
    requires forall r :: r in probes ==> Interrupted(r.script, maxAttempts)
    ensures Admissible(c, Sequence(c, b, probes, maxAttempts), maxAttempts) <==> |probes| < c.halfOpenMaxAllowed
  {
    CancelledProbesLeak(c, b, probes, maxAttempts);
    BlockedIffDead(c, Sequence(c, b, probes, maxAttempts), maxAttempts);
  }

  /** A request the server answers with 404, and one it never answers whose context ends in the first wait. */
  function Failing(at: int): Req {
    Req(Script(k => Status(404), k => false, k => 0), at, at)
  }

  function Probe(at: int): Req {
    Req(Script(k => TransportError, k => true, k => 0), at, at)
  }

  function Repeat(r: Req, n: nat): (reqs: seq<Req>)
    ensures |reqs| == n && forall x :: x in reqs ==> x == r
  {
    if n == 0 then [] else Repeat(r, n - 1) + [r]
  }

  lemma FailingStep(c: Config, b: Breaker, maxAttempts: int)
    requires b.state.Closed?
    ensures RequestStep(c, b, Failing(0).script, maxAttempts, 0, 0).0 == FailureStep(c, b, 0)
  {
    assert Sends(Failing(0).script, maxAttempts) == if maxAttempts <= 0 then 0 else 1;
  }

  function AfterFailures(c: Config, n: nat): Breaker {
    if n == Max(c.failureThreshold, 1) then Breaker(Open, 0, 0, 0, 0, 0) else Breaker(Closed, n, 0, 0, 0, 0)
  }

  lemma NextFailure(c: Config, n: nat)
    requires n < Max(c.failureThreshold, 1)
    ensures AfterFailures(c, n).state.Closed? && FailureStep(c, AfterFailures(c, n), 0) == AfterFailures(c, n + 1)
  {
  }

  lemma {:induction false} FailuresOpen(c: Config, n: nat, maxAttempts: int)
    requires n <= Max(c.failureThreshold, 1)
    ensures Sequence(c, NEW_BREAKER, Repeat(Failing(0), n), maxAttempts) == AfterFailures(c, n)
  {
    if n > 0 {
      FailuresOpen(c, n - 1, maxAttempts);
      NextFailure(c, n - 1);
      FailingStep(c, AfterFailures(c, n - 1), maxAttempts);
      SequenceMore(c, NEW_BREAKER, Repeat(Failing(0), n - 1), Failing(0), maxAttempts);
    }
  }

  /** The run that blocks a client: failures up to the threshold, then, when the timeout has passed, as
      many cancelled probes as there are slots. */
  function BlockingRun(c: Config): seq<Req> {
    Repeat(Failing(0), Max(c.failureThreshold, 1)) + Repeat(Probe(c.resetTimeout), Max(c.halfOpenMaxAllowed, 0))
  }

  lemma BlockingRunBlocks(c: Config, maxAttempts: int)
    requires maxAttempts >= 2
    ensures !Admissible(c, Sequence(c, NEW_BREAKER, BlockingRun(c), maxAttempts), maxAttempts)
  {
    var open := Repeat(Failing(0), Max(c.failureThreshold, 1));
    var probes := Repeat(Probe(c.resetTimeout), Max(c.halfOpenMaxAllowed, 0));
    FailuresOpen(c, Max(c.failureThreshold, 1), maxAttempts);
    SequenceAppend(c, NEW_BREAKER, open, probes, maxAttempts);
    var b := Sequence(c, NEW_BREAKER, open, maxAttempts);
    if c.halfOpenMaxAllowed >= 1 {
      assert probes[0] in probes;
      assert InterruptedAt(Probe(c.resetTimeout).script, maxAttempts, 1);
      CancelledProbesBlockForever(c, b, probes, maxAttempts);
    } else {
      assert probes == [];
      BlockedIffDead(c, b, maxAttempts);
    }
  }

  /** A new client can be blocked for good exactly when it retries at all or allows no probe. */
  lemma CanBeBlockedIff(c: Config, maxAttempts: int)
    ensures (exists reqs: seq<Req> :: !Admissible(c, Sequence(c, NEW_BREAKER, reqs, maxAttempts), maxAttempts)) <==>
      maxAttempts >= 2 || c.halfOpenMaxAllowed <= 0
  {
    if maxAttempts >= 2 {
      BlockingRunBlocks(c, maxAttempts);
    } else if c.halfOpenMaxAllowed <= 0 {
      var open := Repeat(Failing(0), Max(c.failureThreshold, 1));
      FailuresOpen(c, Max(c.failureThreshold, 1), maxAttempts);
      BlockedIffDead(c, Sequence(c, NEW_BREAKER, open, maxAttempts), maxAttempts);
    } else {
      forall reqs: seq<Req>
        ensures Admissible(c, Sequence(c, NEW_BREAKER, reqs, maxAttempts), maxAttempts)
      {
        assert forall r: Req, k :: r in reqs ==> !InterruptedAt(r.script, maxAttempts, k);
        SequentialRequests(c, reqs, maxAttempts, Failing(0));
        BlockedIffDead(c, Sequence(c, NEW_BREAKER, reqs, maxAttempts), maxAttempts);
      }
    }
  }

  /** With the default configuration: five failures, and one probe half a minute later whose context ends
      while it waits to retry. */
  lemma DefaultClientBlocked()
    ensures var c := Config(5, 2, 30_000_000_000, 1);
      && BlockingRun(c) == Repeat(Failing(0), 5) + [Probe(30_000_000_000)]
      && Sequence(c, NEW_BREAKER, BlockingRun(c), 3).state.HalfOpen?
      && !Admissible(c, Sequence(c, NEW_BREAKER, BlockingRun(c), 3), 3)
  {
    var c := Config(5, 2, 30_000_000_000, 1);
    var open, probes := Repeat(Failing(0), 5), Repeat(Probe(30_000_000_000), 1);
    assert probes == [Probe(30_000_000_000)];
    BlockingRunBlocks(c, 3);
    FailuresOpen(c, 5, 3);
    SequenceAppend(c, NEW_BREAKER, open, probes, 3);
    assert probes[0] in probes;
    assert InterruptedAt(Probe(30_000_000_000).script, 3, 1);
    CancelledProbesLeak(c, Sequence(c, NEW_BREAKER, open, 3), probes, 3);
  }
}
