/** The circuit breaker of internal/http/circuit_breaker.go. */
module CircuitBreaker {
  import opened Common

  datatype State = Closed | Open | HalfOpen

  datatype Config = Config(failureThreshold: int, successThreshold: int, resetTimeout: int, halfOpenMaxAllowed: int)

  /** The breaker's fields. `inProgress` can be negative: a request admitted while Closed may complete
      while HalfOpen. */
  datatype Breaker =
    Breaker(state: State, failures: int, successes: int, lastFailure: int, allowed: int, inProgress: int)

  const NEW_BREAKER := Breaker(Closed, 0, 0, 0, 0, 0)

  function TransitionTo(b: Breaker, state: State): Breaker {
    b.(state := state, failures := 0, successes := 0)
  }

  function AllowStep(c: Config, b: Breaker, now: int): (Breaker, bool) {
    if b.state.Closed? then (b, true)
    else if b.state.Open? && now - b.lastFailure < c.resetTimeout then (b, false)
    else
      var probing := TransitionTo(b, HalfOpen).(allowed := c.halfOpenMaxAllowed, inProgress := 0);
      var h := if b.state.Open? then probing else b;
      if h.inProgress < h.allowed then (h.(inProgress := h.inProgress + 1), true) else (h, false)
  }

  function SuccessStep(c: Config, b: Breaker): Breaker {
    match b.state
    case Open => b
    case Closed => b.(failures := 0)
    case HalfOpen =>
      var h := b.(successes := b.successes + 1, inProgress := b.inProgress - 1);
      if h.successes >= c.successThreshold then TransitionTo(h, Closed) else h
  }

  function FailureStep(c: Config, b: Breaker, now: int): Breaker {
    var f := b.(lastFailure := now);
    match b.state
    case Open => f
    case Closed =>
      var g := f.(failures := f.failures + 1);
      if g.failures >= c.failureThreshold then TransitionTo(g, Open) else g
    case HalfOpen => TransitionTo(f.(inProgress := f.inProgress - 1), Open)
  }

  function ResetStep(b: Breaker): Breaker {
    Breaker(Closed, 0, 0, b.lastFailure, 0, 0)
  }

  class CircuitBreaker {
    const config: Config
    var state: State
    var failures: int
    var successes: int
    var lastFailureTime: int
    var halfOpenAllowed: int
    var halfOpenInProgress: int
    /** How many Record calls have been made. */
    ghost var recorded: nat

    function View(): Breaker
      reads this
    {
      Breaker(state, failures, successes, lastFailureTime, halfOpenAllowed, halfOpenInProgress)
    }

    constructor (config: Config)
      ensures this.config == config && View() == NEW_BREAKER && recorded == 0
    {
      this.config := config;
      state, failures, successes, lastFailureTime, halfOpenAllowed, halfOpenInProgress := Closed, 0, 0, 0, 0, 0;
      recorded := 0;
    }

    method Allow(now: int) returns (admitted: bool)
      modifies this
      ensures (View(), admitted) == AllowStep(config, old(View()), now)
      ensures recorded == old(recorded)
    {
      if state.Closed? {
        return true;
      }
      if state.Open? {
        if now - lastFailureTime >= config.resetTimeout {
          Transition(HalfOpen);
          halfOpenAllowed := config.halfOpenMaxAllowed;
          halfOpenInProgress := 0;
        } else {
          return false;
        }
      }
      if halfOpenInProgress < halfOpenAllowed {
        halfOpenInProgress := halfOpenInProgress + 1;
        return true;
      }
      return false;
    }

    method RecordSuccess()
      modifies this
      ensures View() == SuccessStep(config, old(View())) && recorded == old(recorded) + 1
    {
      recorded := recorded + 1;
      match state {
        case HalfOpen =>
          successes := successes + 1;
          halfOpenInProgress := halfOpenInProgress - 1;
          if successes >= config.successThreshold {
            Transition(Closed);
          }
        case Closed =>
          failures := 0;
        case Open =>
      }
    }

    method RecordFailure(now: int)
      modifies this
      ensures View() == FailureStep(config, old(View()), now) && recorded == old(recorded) + 1
    {
      recorded := recorded + 1;
      lastFailureTime := now;
      match state {
        case Closed =>
          failures := failures + 1;
          if failures >= config.failureThreshold {
            Transition(Open);
          }
        case HalfOpen =>
          halfOpenInProgress := halfOpenInProgress - 1;
          Transition(Open);
        case Open =>
      }
    }

    method Reset()
      modifies this
      ensures View() == ResetStep(old(View())) && recorded == old(recorded)
    {
      state, failures, successes, halfOpenAllowed, halfOpenInProgress := Closed, 0, 0, 0, 0;
    }

    method Transition(newState: State)
      modifies this
      ensures View() == TransitionTo(old(View()), newState) && recorded == old(recorded)
    {
      state, failures, successes := newState, 0, 0;
    }
  }

  // ----- Whole runs: calls in any interleaving, completions not paired with admissions -----

  datatype Call = Allow(now: int) | Success | Failure(now: int) | Reset

  function CallStep(c: Config, b: Breaker, call: Call): Breaker {
    match call
    case Allow(now) => AllowStep(c, b, now).0
    case Success => SuccessStep(c, b)
    case Failure(now) => FailureStep(c, b, now)
    case Reset => ResetStep(b)
  }

  function After(c: Config, b: Breaker, calls: seq<Call>): Breaker {
    if calls == [] then b else CallStep(c, After(c, b, calls[..|calls| - 1]), calls[|calls| - 1])
  }

  predicate Admits(c: Config, b: Breaker, call: Call) {
    call.Allow? && AllowStep(c, b, call.now).1
  }

  /** How many of the latest completions were failures; Allow calls do not matter. */
  function TrailingFailures(calls: seq<Call>): nat {
    if calls == [] then 0
    else match calls[|calls| - 1]
      case Allow(_) => TrailingFailures(calls[..|calls| - 1])
      case Failure(_) => TrailingFailures(calls[..|calls| - 1]) + 1
      case _ => 0
  }

  /** The time of the latest recorded failure, in whatever state it was recorded. */
  function LastFailureTime(calls: seq<Call>): int {
    if calls == [] then 0
    else if calls[|calls| - 1].Failure? then calls[|calls| - 1].now
    else LastFailureTime(calls[..|calls| - 1])
  }

  lemma {:induction false} StateFollowsHistory(c: Config, calls: seq<Call>)
    ensures var b := After(c, NEW_BREAKER, calls);
      (b.state.Closed? ==> b.failures == TrailingFailures(calls)) && b.lastFailure == LastFailureTime(calls)
  {
    if calls != [] {
      StateFollowsHistory(c, calls[..|calls| - 1]);
    }
  }

  /** A closed breaker opens on a failure exactly when the latest failures in a row reach the threshold;
      an open one refuses exactly until the reset timeout after the latest failure has passed. */
  lemma OpensAndRefuses(c: Config, calls: seq<Call>, now: int)
    ensures var b := After(c, NEW_BREAKER, calls);
      && (b.state.Closed? ==>
            && AllowStep(c, b, now) == (b, true)
            && SuccessStep(c, b).state.Closed?
            && (FailureStep(c, b, now).state.Open? <==> TrailingFailures(calls) + 1 >= c.failureThreshold))
      && (b.state.Open? ==> (AllowStep(c, b, now).0.state.Open? <==> now - LastFailureTime(calls) < c.resetTimeout))
      && (b.state.Open? && c.halfOpenMaxAllowed >= 1 ==>
            (AllowStep(c, b, now).1 <==> now - LastFailureTime(calls) >= c.resetTimeout))
  {
    StateFollowsHistory(c, calls);
  }

  /** How many requests were admitted in the half-open period the run is in, counted from the switch to
      HalfOpen; 0 outside HalfOpen. Only states and answers are observed. */
  function AdmittedInPeriod(c: Config, b: Breaker, calls: seq<Call>): nat {
    if calls == [] then 0
    else
      var last := |calls| - 1;
      var before := After(c, b, calls[..last]);
      var earlier := if before.state.HalfOpen? then AdmittedInPeriod(c, b, calls[..last]) else 0;
      var now := if Admits(c, before, calls[last]) then 1 else 0;
      if After(c, b, calls).state.HalfOpen? then earlier + now else 0
  }

  /** While HalfOpen, admissions are conserved: each is in progress or was answered by a success, late
      completions included. */
  lemma {:induction false} AdmissionsConserved(c: Config, b: Breaker, calls: seq<Call>)
    requires !b.state.HalfOpen?
    ensures var r, admitted := After(c, b, calls), AdmittedInPeriod(c, b, calls);
      r.state.HalfOpen? ==>
        && admitted == r.inProgress + r.successes
        && r.allowed == c.halfOpenMaxAllowed && (admitted > 0 ==> r.inProgress <= r.allowed)
        && 0 <= r.successes <= Max(c.successThreshold - 1, 0)
  {
    if calls != [] {
      AdmissionsConserved(c, b, calls[..|calls| - 1]);
    }
  }

  function Bound(c: Config): nat {
    Max(c.halfOpenMaxAllowed + Max(c.successThreshold - 1, 0), 0)
  }

  /** In every interleaving, one half-open period admits at most this many requests. */
  lemma AdmissionBound(c: Config, b: Breaker, calls: seq<Call>)
    requires !b.state.HalfOpen?
    ensures AdmittedInPeriod(c, b, calls) <= Bound(c)
  {
    AdmissionsConserved(c, b, calls);
    if calls != [] && !After(c, b, calls).state.HalfOpen? {
      assert AdmittedInPeriod(c, b, calls) == 0;
    }
  }

  lemma Extend(c: Config, b: Breaker, calls: seq<Call>, call: Call)
    ensures After(c, b, calls + [call]) == CallStep(c, After(c, b, calls), call)
    ensures After(c, b, calls).state.HalfOpen? && After(c, b, calls + [call]).state.HalfOpen? ==>
      AdmittedInPeriod(c, b, calls + [call]) ==
        AdmittedInPeriod(c, b, calls) + if Admits(c, After(c, b, calls), call) then 1 else 0
  {
    assert (calls + [call])[..|calls|] == calls;
  }

  /** A half-open period in which every slot is taken: by requests, or, when no slot is allowed, by
      making up for completions of earlier requests. */
  ghost predicate Saturated(c: Config, b: Breaker, calls: seq<Call>, admitted: nat) {
    var r := After(c, b, calls);
    && r.state.HalfOpen? && r.allowed == c.halfOpenMaxAllowed == r.inProgress
    && AdmittedInPeriod(c, b, calls) == admitted && r.successes == admitted - c.halfOpenMaxAllowed
  }

  /** `open` requests admitted, or `-open` completions counted, so far in a new half-open period. */
  ghost predicate Filled(c: Config, b: Breaker, calls: seq<Call>, open: int) {
    var r := After(c, b, calls);
    && r.state.HalfOpen? && r.allowed == c.halfOpenMaxAllowed && r.inProgress == open
    && AdmittedInPeriod(c, b, calls) == Max(open, 0) && r.successes == Max(-open, 0)
  }

  lemma Fill(c: Config, b: Breaker, now: int) returns (calls: seq<Call>)
    requires b.state.Open? && now - b.lastFailure >= c.resetTimeout
    requires c.halfOpenMaxAllowed + Max(c.successThreshold - 1, 0) > 0
    ensures Filled(c, b, calls, c.halfOpenMaxAllowed)
  {
    calls := [Allow(now)];
    assert calls[..0] == [];
    var open := if c.halfOpenMaxAllowed > 0 then 1 else 0;
    while open != c.halfOpenMaxAllowed
      invariant Filled(c, b, calls, open)
      invariant c.halfOpenMaxAllowed > 0 ==> 1 <= open <= c.halfOpenMaxAllowed
      invariant c.halfOpenMaxAllowed <= 0 ==> c.halfOpenMaxAllowed <= open <= 0
      decreases if open < c.halfOpenMaxAllowed then c.halfOpenMaxAllowed - open else open - c.halfOpenMaxAllowed
    {
      var call := if c.halfOpenMaxAllowed > 0 then Allow(now) else Success;
      Extend(c, b, calls, call);
      calls, open := calls + [call], if c.halfOpenMaxAllowed > 0 then open + 1 else open - 1;
    }
  }

  /** The bound is reached, for every configuration and every breaker that is due for a half-open period. */
  lemma AdmissionBoundReached(c: Config, b: Breaker, now: int) returns (calls: seq<Call>)
    requires b.state.Open? && now - b.lastFailure >= c.resetTimeout
    ensures AdmittedInPeriod(c, b, calls) == Bound(c)
  {
    if Bound(c) == 0 {
      return [];
    }
    calls := Fill(c, b, now);
    var admitted := Max(c.halfOpenMaxAllowed, 0);
    while admitted < Bound(c)
      invariant Saturated(c, b, calls, admitted) && admitted <= Bound(c)
    {
      Extend(c, b, calls, Success);
      Extend(c, b, calls + [Success], Allow(now));
      calls, admitted := calls + [Success] + [Allow(now)], admitted + 1;
    }
  }

  // ----- The half-open period by its history -----

  /** Successes recorded since the breaker became half-open; 0 when it was not half-open before the last call. */
  function SuccessesInPeriod(c: Config, b: Breaker, calls: seq<Call>): nat {
    if calls == [] then 0
    else
      var last := |calls| - 1;
      if !After(c, b, calls[..last]).state.HalfOpen? then 0
      else SuccessesInPeriod(c, b, calls[..last]) + if calls[last].Success? then 1 else 0
  }

  /** Half-open, the successes counted are those of the period, and too few to close the breaker. */
  lemma {:induction false} SuccessesCounted(c: Config, b: Breaker, calls: seq<Call>)
    requires !b.state.HalfOpen?
    ensures var r := After(c, b, calls);
      r.state.HalfOpen? ==> r.successes == SuccessesInPeriod(c, b, calls) < Max(c.successThreshold, 1)
  {
    if calls != [] {
      SuccessesCounted(c, b, calls[..|calls| - 1]);
    }
  }

  /** What ends a half-open period, and how: the success that makes them successThreshold (the first, if
      that is below 1) and a Reset close the breaker without failures, a failure opens it, and nothing else
      does either. A half-open breaker admits while the admissions of the period exceed its successes by
      less than the slots. */
  lemma HalfOpenEnds(c: Config, b: Breaker, calls: seq<Call>, call: Call)
    requires !b.state.HalfOpen? && After(c, b, calls).state.HalfOpen?
    ensures var r, after := After(c, b, calls), After(c, b, calls + [call]);
      && (call.Success? ==>
            if SuccessesInPeriod(c, b, calls) + 1 >= Max(c.successThreshold, 1)
            then after.state.Closed? && after.failures == 0 && after.lastFailure == r.lastFailure
            else after.state.HalfOpen? && after.successes == r.successes + 1 && after.inProgress == r.inProgress - 1)
      && (call.Failure? ==> after.state.Open? && after.lastFailure == call.now)
      && (call.Reset? ==> after.state.Closed? && after.failures == 0)
      && (call.Allow? ==> after.state.HalfOpen?)
      && (call.Allow? ==>
            (Admits(c, r, call) <==>
               AdmittedInPeriod(c, b, calls) - SuccessesInPeriod(c, b, calls) < c.halfOpenMaxAllowed))
  {
    SuccessesCounted(c, b, calls);
    AdmissionsConserved(c, b, calls);
    assert (calls + [call])[..|calls|] == calls;
  }

  /** The breaker is closed after each of the calls. */
  predicate AlwaysClosed(c: Config, b: Breaker, calls: seq<Call>) {
    After(c, b, calls).state.Closed? && (calls != [] ==> AlwaysClosed(c, b, calls[..|calls| - 1]))
  }

  /** After none of the calls have the latest failures in a row reached the threshold. */
  predicate BelowThreshold(c: Config, calls: seq<Call>) {
    TrailingFailures(calls) < Max(c.failureThreshold, 1) && (calls != [] ==> BelowThreshold(c, calls[..|calls| - 1]))
  }

  /** A closed breaker without failures stays closed, admits every request and counts the latest failures
      in a row, exactly until these reach the threshold. */
  lemma {:induction false} ClosedUntilThreshold(c: Config, b: Breaker, calls: seq<Call>, now: int)
    requires b.state.Closed? && b.failures == 0
    ensures AlwaysClosed(c, b, calls) <==> BelowThreshold(c, calls)
    ensures AlwaysClosed(c, b, calls) ==>
      After(c, b, calls).failures == TrailingFailures(calls) && AllowStep(c, After(c, b, calls), now).1
  {
    if calls != [] {
      ClosedUntilThreshold(c, b, calls[..|calls| - 1], now);
    }
  }

  /** Outside a half-open period: while Open, only the time of a failure is noted and a Reset closes the
      breaker; a Reset never forgets the time of the last failure. */
  lemma OtherCalls(c: Config, b: Breaker, now: int)
    ensures b.state.Open? ==> SuccessStep(c, b) == b && FailureStep(c, b, now) == b.(lastFailure := now)
    ensures var r := ResetStep(b);
      && r.state.Closed? && r.failures == 0 && r.lastFailure == b.lastFailure && AllowStep(c, r, now) == (r, true)
  {
  }

  // ----- Requests in flight -----

  /** A breaker and the number of admitted requests that have not ended yet. */
  datatype Traffic = Traffic(breaker: Breaker, flying: nat)

  /** A request starts, or one in flight ends: with a success, a failure, or by its context alone. */
  datatype Move = Start(now: int) | Succeed | Fail(now: int) | Cancel

  predicate CanMove(t: Traffic, move: Move) {
    move.Start? || t.flying > 0
  }

  function MoveStep(c: Config, t: Traffic, move: Move): Traffic
    requires CanMove(t, move)
  {
    match move
    case Start(now) =>
      var (b, admitted) := AllowStep(c, t.breaker, now);
      Traffic(b, if admitted then t.flying + 1 else t.flying)
    case Succeed => Traffic(SuccessStep(c, t.breaker), t.flying - 1)
    case Fail(now) => Traffic(FailureStep(c, t.breaker, now), t.flying - 1)
    case Cancel => t.(flying := t.flying - 1)
  }

  predicate Moves(c: Config, from: Traffic, moves: seq<Move>, to: Traffic)
    decreases |moves|
  {
    if moves == [] then from == to
    else CanMove(from, moves[0]) && Moves(c, MoveStep(c, from, moves[0]), moves[1..], to)
  }

  /** Some way for things to go on leads to an admitted request. */
  ghost predicate AdmitsAgain(c: Config, t: Traffic) {
    exists moves, to, now :: Moves(c, t, moves, to) && AllowStep(c, to.breaker, now).1
  }

  /** Open for good: no slot is allowed, and what is in flight can neither close the breaker from
      half-open nor make up for the missing slots. */
  predicate StuckOpen(c: Config, flying: nat) {
    c.halfOpenMaxAllowed <= 0 && (flying > 0 ==> flying <= -c.halfOpenMaxAllowed && flying < c.successThreshold)
  }

  /** Half-open with every slot taken, and what is in flight can neither free one nor close the breaker nor
      open it for another half-open period. With a slot allowed that means that nothing is in flight. */
  predicate Stuck(c: Config, t: Traffic) {
    var b := t.breaker;
    match b.state
    case Closed => false
    case Open => StuckOpen(c, t.flying)
    case HalfOpen =>
      && b.inProgress >= b.allowed
      && (t.flying > 0 ==>
            && b.inProgress - t.flying >= b.allowed && b.successes + t.flying < c.successThreshold
            && StuckOpen(c, t.flying - 1))
  }

  lemma StuckStep(c: Config, t: Traffic, move: Move)
    requires Stuck(c, t) && CanMove(t, move)
    ensures Stuck(c, MoveStep(c, t, move))
  {
  }

  lemma {:induction false} StuckRefuses(c: Config, t: Traffic, moves: seq<Move>, to: Traffic, now: int)
    requires Stuck(c, t) && Moves(c, t, moves, to)
    ensures !AllowStep(c, to.breaker, now).1
    decreases |moves|
  {
    if moves != [] {
      StuckStep(c, t, moves[0]);
      StuckRefuses(c, MoveStep(c, t, moves[0]), moves[1..], to, now);
    }
  }

  /** How a breaker that is not stuck gets to admit a request. */
  lemma {:induction false} Unstick(c: Config, t: Traffic) returns (moves: seq<Move>, to: Traffic, now: int)
    requires !Stuck(c, t)
    ensures Moves(c, t, moves, to) && AllowStep(c, to.breaker, now).1
    decreases t.flying, t.breaker.state.Open?
  {
    now := t.breaker.lastFailure + c.resetTimeout;
    if AllowStep(c, t.breaker, now).1 {
      return [], t, now;
    }
    var move :=
      if t.breaker.state.Open? then Start(now) else if StuckOpen(c, t.flying - 1) then Succeed else Fail(0);
    moves, to, now := Unstick(c, MoveStep(c, t, move));
    moves := [move] + moves;
  }

  /** Whatever the requests in flight do and whoever starts others when, no request is ever admitted again
      if and only if the breaker is stuck. */
  lemma NeverAdmitsIff(c: Config, t: Traffic)
    ensures !AdmitsAgain(c, t) <==> Stuck(c, t)
    ensures c.halfOpenMaxAllowed >= 1 ==>
      (Stuck(c, t) <==> t.breaker.state.HalfOpen? && t.breaker.inProgress >= t.breaker.allowed && t.flying == 0)
  {
    if Stuck(c, t) {
      forall moves, to, now | Moves(c, t, moves, to)
        ensures !AllowStep(c, to.breaker, now).1
      {
        StuckRefuses(c, t, moves, to, now);
      }
    } else {
      var moves, to, now := Unstick(c, t);
    }
  }
}
