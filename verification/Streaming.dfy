/** The reconnect machine of internal/core/streaming.go; each handler is one step. */
module Streaming {
  import opened Backoff
  import opened Common

  datatype State = Disconnected | Connecting | Connected | Reconnecting | Failed

  datatype Config = Config(reconnectInterval: int, maxReconnectAttempts: int)

  const MAX_DELAY := 30_000_000_000
  const MAX_INT64 := 0x7FFF_FFFF_FFFF_FFFF
  const MIN_INT64 := -0x8000_0000_0000_0000

  datatype ErrorCode =
    | TokenExpired | TokenInvalid | SubscriptionSuspended | ConnectionLimit | StreamingUnavailable | Unknown

  /** What a handler sets off besides changing its fields. */
  datatype Action = StartConnection | ScheduleReconnect(delay: int) | FallbackToPolling | ScheduleRetry

  datatype Stream = Stream(state: State, failures: int)

  const NEW_STREAM := Stream(Disconnected, 0)

  /** Converting a float64 to int64 gives some integer when the value is out of range. */
  function ToDuration(x: real, outOfRange: int): int {
    var n := Trunc(x);
    if MIN_INT64 <= n <= MAX_INT64 then n else outOfRange
  }

  function Uncapped(c: Config, failures: int): real {
    c.reconnectInterval as real * if failures >= 1 then Pow(2.0, failures - 1) else 0.5
  }

  function ReconnectDelay(c: Config, failures: int, outOfRange: int): int {
    var delay := ToDuration(Uncapped(c, failures), outOfRange);
    if delay > MAX_DELAY then MAX_DELAY else delay
  }

  function ConnectStep(s: Stream): (Stream, seq<Action>) {
    if s.state.Connected? || s.state.Connecting? then (s, []) else (s.(state := Connecting), [StartConnection])
  }

  function FailureStep(c: Config, s: Stream, outOfRange: int): (Stream, seq<Action>) {
    var failures := s.failures + 1;
    if failures >= c.maxReconnectAttempts then (Stream(Failed, failures), [FallbackToPolling, ScheduleRetry])
    else (Stream(Reconnecting, failures), [ScheduleReconnect(ReconnectDelay(c, failures, outOfRange))])
  }

  datatype Event =
    | Connect | Disconnect | RetryConnection | Open
    | ConnectionFailure(outOfRange: int) | StreamError(code: ErrorCode, outOfRange: int)

  function Step(c: Config, s: Stream, e: Event): (Stream, seq<Action>) {
    match e
    case Connect => ConnectStep(s)
    case Disconnect => (Stream(Disconnected, 0), [])
    case RetryConnection =>
      if s.state.Connected? || s.state.Connecting? then (s, []) else ConnectStep(s.(failures := 0))
    case Open => (Stream(Connected, 0), [])
    case ConnectionFailure(outOfRange) => FailureStep(c, s, outOfRange)
    case StreamError(code, outOfRange) =>
      match code {
        case TokenExpired => ConnectStep(Stream(Disconnected, 0))
        case TokenInvalid => ConnectStep(Stream(Disconnected, 0))
        case SubscriptionSuspended => (s.(state := Failed), [FallbackToPolling])
        case StreamingUnavailable => (s.(state := Failed), [FallbackToPolling])
        case ConnectionLimit => FailureStep(c, s, outOfRange)
        case Unknown => FailureStep(c, s, outOfRange)
      }
  }

  class StreamingManager {
    const config: Config
    var state: State
    var consecutiveFailures: int

    function View(): Stream
      reads this
    {
      Stream(state, consecutiveFailures)
    }

    constructor (config: Config)
      ensures this.config == config && View() == NEW_STREAM
    {
      this.config, state, consecutiveFailures := config, Disconnected, 0;
    }

    method Connect() returns (actions: seq<Action>)
      modifies this
      ensures (View(), actions) == Step(config, old(View()), Event.Connect)
    {
      if state == Connected || state == Connecting {
        return [];
      }
      state := Connecting;
      actions := [StartConnection];
    }

    method Disconnect()
      modifies this
      ensures (View(), []) == Step(config, old(View()), Event.Disconnect)
    {
      state, consecutiveFailures := Disconnected, 0;
    }

    method RetryConnection() returns (actions: seq<Action>)
      modifies this
      ensures (View(), actions) == Step(config, old(View()), Event.RetryConnection)
    {
      if state == Connected || state == Connecting {
        return [];
      }
      consecutiveFailures := 0;
      actions := Connect();
    }

    method HandleOpen()
      modifies this
      ensures (View(), []) == Step(config, old(View()), Open)
    {
      state, consecutiveFailures := Connected, 0;
    }

    method HandleConnectionFailure(outOfRange: int) returns (actions: seq<Action>)
      modifies this
      ensures (View(), actions) == Step(config, old(View()), ConnectionFailure(outOfRange))
    {
      consecutiveFailures := consecutiveFailures + 1;
      if consecutiveFailures >= config.maxReconnectAttempts {
        state := Failed;
        actions := [FallbackToPolling, ScheduleRetry];
      } else {
        state := Reconnecting;
        actions := [ScheduleReconnect(ReconnectDelay(config, consecutiveFailures, outOfRange))];
      }
    }

    method HandleStreamError(code: ErrorCode, outOfRange: int) returns (actions: seq<Action>)
      modifies this
      ensures (View(), actions) == Step(config, old(View()), StreamError(code, outOfRange))
    {
      match code {
        case TokenExpired =>
          Disconnect();
          actions := Connect();
        case TokenInvalid =>
          Disconnect();
          actions := Connect();
        case SubscriptionSuspended =>
          state := Failed;
          actions := [FallbackToPolling];
        case ConnectionLimit =>
          actions := HandleConnectionFailure(outOfRange);
        case StreamingUnavailable =>
          state := Failed;
          actions := [FallbackToPolling];
        case Unknown =>
          actions := HandleConnectionFailure(outOfRange);
      }
    }
  }

  // ----- Whole runs -----

  function After(c: Config, events: seq<Event>): Stream {
    if events == [] then NEW_STREAM else Step(c, After(c, events[..|events| - 1]), events[|events| - 1]).0
  }

  /** A handler that counts a failure. */
  predicate Fails(e: Event) {
    e.ConnectionFailure? || (e.StreamError? && (e.code.ConnectionLimit? || e.code.Unknown?))
  }

  /** A handler that forgets earlier failures, given the state it runs in. */
  predicate Forgets(s: State, e: Event) {
    || e.Open? || e.Disconnect?
    || (e.RetryConnection? && !s.Connected? && !s.Connecting?)
    || (e.StreamError? && (e.code.TokenExpired? || e.code.TokenInvalid?))
  }

  /** Failures since the last handler that forgets them. */
  function FailuresSince(c: Config, events: seq<Event>): nat {
    if events == [] then 0
    else
      var last := events[|events| - 1];
      if Forgets(After(c, events[..|events| - 1]).state, last) then 0
      else FailuresSince(c, events[..|events| - 1]) + if Fails(last) then 1 else 0
  }

  /** In every reachable state the counter is the number of failures since the last reset, a connected
      stream has none, and a reconnecting one has some but fewer than the limit. */
  lemma {:induction false} ReachableStates(c: Config, events: seq<Event>)
    ensures var s := After(c, events);
      && s.failures == FailuresSince(c, events)
      && (s.state.Connected? ==> s.failures == 0)
      && (s.state.Reconnecting? ==> 1 <= s.failures < c.maxReconnectAttempts)
  {
    if events != [] {
      ReachableStates(c, events[..|events| - 1]);
    }
  }

  // ----- What the handlers set off -----

  /** Connect or RetryConnection of a stream neither connected nor connecting, or an error of its token. */
  predicate Connects(s: State, e: Event) {
    || ((e.Connect? || e.RetryConnection?) && s != Connected && s != Connecting)
    || (e.StreamError? && (e.code == TokenExpired || e.code == TokenInvalid))
  }

  /** The server ended streaming for this client. */
  predicate Ends(e: Event) {
    e.StreamError? && (e.code == SubscriptionSuspended || e.code == StreamingUnavailable)
  }

  /** Each handler of a run, given the failures since the last reset. It starts a connection, once, exactly
      when it enters Connecting; it falls back to polling exactly when it enters or stays in Failed, which
      is when the server ended streaming or a failure reaches the limit, and then only a failure also
      schedules a retry; it schedules one reconnect exactly when a failure does not reach the limit. */
  lemma Actions(c: Config, events: seq<Event>, e: Event)
    ensures var before := After(c, events);
      var (after, actions) := Step(c, before, e);
      var atLimit := FailuresSince(c, events) + 1 >= c.maxReconnectAttempts;
      if Connects(before.state, e) then actions == [StartConnection] && after.state == Connecting
      else if Ends(e) then actions == [FallbackToPolling] && after.state == Failed
      else if Fails(e) && atLimit then actions == [FallbackToPolling, ScheduleRetry] && after.state == Failed
      else if Fails(e) then
        |actions| == 1 && actions[0].ScheduleReconnect? && after.state == Reconnecting
      else
        && actions == []
        && after.state == if e.Open? then Connected else if e.Disconnect? then Disconnected else before.state
    ensures var before := After(c, events);
      var (after, actions) := Step(c, before, e);
      && (StartConnection in actions <==> Connects(before.state, e))
      && (after.state == Connecting <==>
            Connects(before.state, e) || (before.state == Connecting && (e.Connect? || e.RetryConnection?)))
      && (FallbackToPolling in actions <==> after.state == Failed)
      && (before.state == Connected && after.state == Connecting ==> e.StreamError?)
  {
    ReachableStates(c, events);
  }

  /** A Connect starts a connection from every state but Connected and Connecting, so a stream that fell
      back or was disconnected can always be brought back. */
  lemma ConnectStarts(c: Config, events: seq<Event>)
    ensures var before := After(c, events).state;
      var (after, actions) := Step(c, After(c, events), Connect);
      (before == Disconnected || before == Reconnecting || before == Failed) ==>
        actions == [StartConnection] && after.state == Connecting && after.failures == FailuresSince(c, events)
  {
    ReachableStates(c, events);
  }

  lemma DurationOf(x: real, n: int, outOfRange: int)
    requires x == n as real && n >= 0
    ensures ToDuration(x, outOfRange) == if n <= MAX_INT64 then n else outOfRange
  {
    TruncInt(n);
  }

  lemma UncappedInt(c: Config, f: nat)
    requires f >= 1 && c.reconnectInterval >= 0
    ensures Uncapped(c, f) == (c.reconnectInterval * IntPow(2, f - 1)) as real
    ensures c.reconnectInterval * IntPow(2, f - 1) >= 0
  {
    PowInt(2, f - 1);
    PowPositive(2, f - 1);
    Product(c.reconnectInterval, IntPow(2, f - 1));
  }

  /** The delay after the f-th failure is the capped exponential, while the uncapped one fits an int64;
      beyond that it is whatever the conversion yields, capped. */
  lemma ReconnectDelayClosedForm(c: Config, f: nat, outOfRange: int)
    requires f >= 1 && c.reconnectInterval >= 0
    ensures var exponential := c.reconnectInterval * IntPow(2, f - 1);
      ReconnectDelay(c, f, outOfRange) == Min(if exponential <= MAX_INT64 then exponential else outOfRange, MAX_DELAY)
  {
    UncappedInt(c, f);
    DurationOf(Uncapped(c, f), c.reconnectInterval * IntPow(2, f - 1), outOfRange);
  }

  lemma Product(a: int, b: int)
    requires a >= 0 && b > 0
    ensures a as real * b as real == (a * b) as real && a * b >= 0
  {
  }

  /** The closed form holds exactly when the uncapped delay fits an int64, or the conversion of one that
      does not happens to yield at least the cap. */
  lemma ClosedFormIff(c: Config, f: nat, outOfRange: int)
    requires f >= 1 && c.reconnectInterval >= 0
    ensures var exponential := c.reconnectInterval * IntPow(2, f - 1);
      ReconnectDelay(c, f, outOfRange) == Min(exponential, MAX_DELAY) <==>
        exponential <= MAX_INT64 || outOfRange >= MAX_DELAY
  {
    ReconnectDelayClosedForm(c, f, outOfRange);
  }

  /** The default interval of three seconds leaves int64 at the 33rd failure in a row, if the limit on
      failures is set that high: where such a conversion gives the least int64, the delay is negative. */
  lemma OverflowExample(maxReconnectAttempts: int, events: seq<Event>)
    requires maxReconnectAttempts > 33
    requires |events| == 32 && forall e :: e in events ==> e == ConnectionFailure(MIN_INT64)
    ensures var c := Config(3_000_000_000, maxReconnectAttempts);
      && ReconnectDelay(c, 32, MIN_INT64) == MAX_DELAY
      && Step(c, After(c, events), ConnectionFailure(MIN_INT64)) ==
           (Stream(Reconnecting, 33), [ScheduleReconnect(MIN_INT64)])
  {
    var c := Config(3_000_000_000, maxReconnectAttempts);
    OnlyFailures(c, events);
    AllCounted(events);
    CountFailure(c, events, ConnectionFailure(MIN_INT64));
    FallbackAtLimit(c, events, ConnectionFailure(MIN_INT64));
    PowersOfTwo();
    ReconnectDelayClosedForm(c, 32, MIN_INT64);
  }

  lemma {:induction false} AllCounted(events: seq<Event>)
    requires forall e :: e in events ==> Fails(e)
    ensures Count(events) == |events|
  {
    if events != [] {
      assert events[|events| - 1] in events;
      AllCounted(events[..|events| - 1]);
    }
  }

  lemma PowersOfTwo()
    ensures IntPow(2, 31) == 0x8000_0000 && IntPow(2, 32) == 0x1_0000_0000
  {
    assert IntPow(2, 15) == 0x8000 && IntPow(2, 16) == 0x1_0000;
    PowSum(16, 15);
    PowSum(16, 16);
  }

  lemma {:induction false} PowSum(m: nat, n: nat)
    ensures IntPow(2, m + n) == IntPow(2, m) * IntPow(2, n)
  {
    if m > 0 {
      PowSum(m - 1, n);
    }
  }

  /** The first failure-driven fallback comes with exactly the maxReconnectAttempts-th failure since the
      last reset (with the first, if that limit is below 1); each earlier one schedules a reconnect. */
  lemma FallbackAtLimit(c: Config, events: seq<Event>, failure: Event)
    requires Fails(failure) && c.reconnectInterval >= 0
    ensures var f := FailuresSince(c, events + [failure]);
      f == FailuresSince(c, events) + 1 && Step(c, After(c, events), failure) == OnFailure(c, f, failure.outOfRange)
  {
    var s := After(c, events);
    assert s.failures == FailuresSince(c, events) by { ReachableStates(c, events); }
    CountFailure(c, events, failure);
    FailureOutcome(c, s, failure);
  }

  /** What the f-th failure since the last reset does. */
  function OnFailure(c: Config, f: nat, outOfRange: int): (Stream, seq<Action>)
    requires f >= 1
  {
    if f >= c.maxReconnectAttempts then (Stream(Failed, f), [FallbackToPolling, ScheduleRetry])
    else
      var exponential := c.reconnectInterval * IntPow(2, f - 1);
      var delay := Min(if exponential <= MAX_INT64 then exponential else outOfRange, MAX_DELAY);
      (Stream(Reconnecting, f), [ScheduleReconnect(delay)])
  }

  lemma FailureOutcome(c: Config, s: Stream, failure: Event)
    requires Fails(failure) && s.failures >= 0 && c.reconnectInterval >= 0
    ensures Step(c, s, failure) == OnFailure(c, s.failures + 1, failure.outOfRange)
  {
    ReconnectDelayClosedForm(c, s.failures + 1, failure.outOfRange);
  }

  lemma CountFailure(c: Config, events: seq<Event>, failure: Event)
    requires Fails(failure)
    ensures FailuresSince(c, events + [failure]) == FailuresSince(c, events) + 1
  {
    assert (events + [failure])[..|events|] == events;
  }

  lemma {:induction false} OnlyFailures(c: Config, events: seq<Event>)
    requires forall e :: e in events ==> Fails(e) || e.Connect?
    ensures FailuresSince(c, events) == Count(events)
  {
    if events != [] {
      assert events[|events| - 1] in events;
      OnlyFailures(c, events[..|events| - 1]);
    }
  }

  /** From a fresh start, with nothing but failures and reconnects, the fallback comes with failure
      number maxReconnectAttempts and not before. */
  lemma FirstFallback(c: Config, events: seq<Event>, failure: Event)
    requires Fails(failure) && c.reconnectInterval >= 0
    requires forall e :: e in events ==> Fails(e) || e.Connect?
    ensures FallbackToPolling in Step(c, After(c, events), failure).1 <==> Count(events) + 1 >= c.maxReconnectAttempts
  {
    OnlyFailures(c, events);
    FallbackAtLimit(c, events, failure);
  }

  function Count(events: seq<Event>): nat {
    if events == [] then 0 else Count(events[..|events| - 1]) + if Fails(events[|events| - 1]) then 1 else 0
  }
}
