/** The delay between requests, for a client that makes one call after the other (src/HueCommandAPI.cpp). */
module RequestPacing {

  /** How one attempt ends: a response, "connection reset" or "timed out", or any other exception. */
  datatype Ending = Answered | Busy | Failed

  datatype Attempt = Attempt(ending: Ending, duration: nat)

  /** The surroundings: how much later than asked for each step happens, and how each attempt goes.  Arbitrary. */
  datatype Env = Env(slack: nat -> nat, attempts: nat -> Attempt)

  /** Time, steps taken so far, the shared timeout, and the times at which attempts started. */
  datatype State = State(time: int, steps: nat, timeout: int, starts: seq<int>)

  datatype Called = Called(state: State, returned: bool)

  function Pass(env: Env, s: State, atLeast: int): State {
    s.(time := (if atLeast > s.time then atLeast else s.time) + env.slack(s.steps), steps := s.steps + 1)
  }

  function NextAttempt(env: Env, s: State): Attempt {
    env.attempts(|s.starts|)
  }

  function Try(env: Env, s: State): State {
    s.(time := s.time + NextAttempt(env, s).duration, starts := s.starts + [s.time])
  }

  /** Reading the clock, taking the lock, and waiting for the timeout. */
  function Admitted(env: Env, s: State): State {
    var read := Pass(env, s, s.time);
    var locked := Pass(env, read, read.time);
    if locked.timeout > read.time then Pass(env, locked, locked.timeout) else locked
  }

  /** The bridge was too busy: wait, and try again once. */
  function Retry(env: Env, minDelay: nat, s: State): Called {
    var again := Pass(env, s, s.time + minDelay);
    var retried := Try(env, again);
    if NextAttempt(env, again).ending == Answered then
      var end := Pass(env, retried, retried.time);
      Called(end.(timeout := end.time + minDelay), true)
    else Called(retried, false)
  }

  /** RunWithTimeout */
  function Call(env: Env, minDelay: nat, s: State): Called {
    var now := Pass(env, s, s.time).time;
    var ready := Admitted(env, s);
    var tried := Try(env, ready);
    match NextAttempt(env, ready).ending
    case Answered => Called(tried.(timeout := now + minDelay), true)
    case Busy => Retry(env, minDelay, tried)
    case Failed => Called(tried, false)
  }

  /** The steady clock, and a thread that sleeps by it. */
  class Clock {
    const slack: nat -> nat
    var time: int
    var steps: nat

    constructor (slack: nat -> nat, time: int)
      ensures this.slack == slack && this.time == time && steps == 0
    {
      this.slack, this.time, steps := slack, time, 0;
    }

    method SleepUntil(t: int)
      modifies this
      ensures time == (if t > old(time) then t else old(time)) + slack(old(steps)) && steps == old(steps) + 1
    {
      time := (if t > time then t else time) + slack(steps);
      steps := steps + 1;
    }

    method Now() returns (t: int)
      modifies this
      ensures t == time == old(time) + slack(old(steps)) && steps == old(steps) + 1
    {
      time := time + slack(steps);
      steps := steps + 1;
      t := time;
    }
  }

  /** The HTTP handler. */
  class Handler {
    const attempts: nat -> Attempt
    var starts: seq<int>

    constructor (attempts: nat -> Attempt)
      ensures this.attempts == attempts && starts == []
    {
      this.attempts, starts := attempts, [];
    }

    method Run(clock: Clock) returns (ending: Ending)
      modifies this, clock`time
      ensures starts == old(starts) + [old(clock.time)]
      ensures ending == attempts(|old(starts)|).ending
      ensures clock.time == old(clock.time) + attempts(|old(starts)|).duration
    {
      var attempt := attempts(|starts|);
      starts := starts + [clock.time];
      clock.time := clock.time + attempt.duration;
      ending := attempt.ending;
    }
  }

  /** The timeout that all copies of an API object share. */
  class TimeoutData {
    const clock: Clock
    const handler: Handler
    var timeout: int

    constructor (clock: Clock, handler: Handler)
      ensures this.clock == clock && this.handler == handler && timeout == clock.time
    {
      this.clock, this.handler, timeout := clock, handler, clock.time;
    }

    ghost function View(): State
      reads this, clock, handler
    {
      State(clock.time, clock.steps, timeout, handler.starts)
    }

    ghost function Surroundings(): Env {
      Env(clock.slack, handler.attempts)
    }

    method RetryOnce(minDelay: nat) returns (returned: bool)
      modifies this, clock, handler
      ensures Called(View(), returned) == Retry(Surroundings(), minDelay, old(View()))
    {
      clock.SleepUntil(clock.time + minDelay);
      var ending := handler.Run(clock);
      returned := ending == Answered;
      if returned {
        var end := clock.Now();
        timeout := end + minDelay;
      }
    }

    /** Reads the clock, takes the lock, and waits for the timeout. */
    method Admit() returns (now: int)
      modifies clock
      ensures View() == Admitted(Surroundings(), old(View()))
      ensures now == Pass(Surroundings(), old(View()), old(View()).time).time
    {
      now := clock.Now();
      clock.SleepUntil(clock.time); // until the lock is free
      if timeout > now {
        clock.SleepUntil(timeout);
      }
    }

    method RunWithTimeout(minDelay: nat) returns (returned: bool)
      modifies this, clock, handler
      ensures Called(View(), returned) == Call(Surroundings(), minDelay, old(View()))
    {
      var now := Admit();
      ghost var ready := View();
      var ending := handler.Run(clock);
      assert View() == Try(Surroundings(), ready);
      match ending
      case Answered =>
        timeout := now + minDelay;
        returned := true;
      case Busy =>
        returned := RetryOnce(minDelay);
      case Failed =>
        returned := false;
    }
  }

  // --- Whole runs ---

  function Calls(env: Env, minDelay: nat, s: State, n: nat): State {
    if n == 0 then s else Call(env, minDelay, Calls(env, minDelay, s, n - 1)).state
  }

  predicate AllReturn(env: Env, minDelay: nat, s: State, n: nat) {
    n == 0 || (AllReturn(env, minDelay, s, n - 1) && Call(env, minDelay, Calls(env, minDelay, s, n - 1)).returned)
  }

  /** Every other attempt is spaced. */
  predicate SpacedByTwo(starts: seq<int>, minDelay: nat) {
    forall k | 0 <= k && k + 2 < |starts| :: starts[k + 2] >= starts[k] + minDelay
  }

  predicate InOrder(starts: seq<int>) {
    forall k | 0 <= k && k + 1 < |starts| :: starts[k + 1] >= starts[k]
  }

  /** What calls that return keep. */
  predicate Paced(s: State, minDelay: nat) {
    var n := |s.starts|;
    && SpacedByTwo(s.starts, minDelay) && InOrder(s.starts)
    && (n >= 1 ==> s.time >= s.starts[n - 1])
    && (n >= 2 ==> s.timeout >= s.starts[n - 2] + minDelay)
  }

  lemma AdmittedLate(env: Env, s: State)
    ensures var ready := Admitted(env, s);
            && ready.time >= Pass(env, s, s.time).time >= s.time && ready.time >= s.timeout
            && ready.starts == s.starts && ready.timeout == s.timeout
  {
  }

  lemma AttemptKeepsOrder(env: Env, minDelay: nat, s: State, late: State)
    requires Paced(s, minDelay) && late.starts == s.starts && late.time >= s.time && late.time >= s.timeout
    ensures var tried := Try(env, late);
            && SpacedByTwo(tried.starts, minDelay) && InOrder(tried.starts)
            && tried.time >= tried.starts[|s.starts|] == late.time
  {
  }

  lemma RetryKeepsPace(env: Env, minDelay: nat, s: State)
    requires s.starts != [] && SpacedByTwo(s.starts, minDelay) && InOrder(s.starts)
    requires s.time >= s.starts[|s.starts| - 1] && Retry(env, minDelay, s).returned
    ensures Paced(Retry(env, minDelay, s).state, minDelay)
  {
    var n := |s.starts|;
    var r := Retry(env, minDelay, s).state;
    assert r.starts[n] >= s.starts[n - 1] + minDelay;
    assert r.starts == s.starts + [r.starts[n]];
  }

  lemma CallKeepsPace(env: Env, minDelay: nat, s: State)
    requires Paced(s, minDelay) && Call(env, minDelay, s).returned
    ensures Paced(Call(env, minDelay, s).state, minDelay)
  {
    AdmittedLate(env, s);
    var ready := Admitted(env, s);
    AttemptKeepsOrder(env, minDelay, s, ready);
    if NextAttempt(env, ready).ending == Busy {
      RetryKeepsPace(env, minDelay, Try(env, ready));
    }
  }

  lemma {:induction false} RunKeepsPace(env: Env, minDelay: nat, s: State, n: nat)
    requires Paced(s, minDelay) && AllReturn(env, minDelay, s, n)
    ensures Paced(Calls(env, minDelay, s, n), minDelay)
  {
    if n > 0 {
      RunKeepsPace(env, minDelay, s, n - 1);
      CallKeepsPace(env, minDelay, Calls(env, minDelay, s, n - 1));
    }
  }

  lemma {:induction false} SpacingAddsUp(starts: seq<int>, minDelay: nat, n: nat)
    requires SpacedByTwo(starts, minDelay) && InOrder(starts) && 1 <= n <= |starts|
    ensures starts[n - 1] - starts[0] >= (n - 1) / 2 * minDelay
  {
    if n >= 3 {
      SpacingAddsUp(starts, minDelay, n - 2);
      assert starts[n - 3 + 2] >= starts[n - 3] + minDelay;
      assert (n - 1) / 2 == (n - 3) / 2 + 1;
      assert ((n - 3) / 2 + 1) * minDelay == (n - 3) / 2 * minDelay + minDelay;
    }
  }

  /** In every run of calls that return, retries included: attempts two apart are at least minDelay apart, and
      n attempts take at least floor((n - 1) / 2) * minDelay. */
  lemma RunsArePaced(env: Env, minDelay: nat, s: State, n: nat)
    requires s.starts == [] && AllReturn(env, minDelay, s, n)
    ensures var starts := Calls(env, minDelay, s, n).starts;
            && SpacedByTwo(starts, minDelay)
            && (starts != [] ==>
                  starts[|starts| - 1] - starts[0] >= (|starts| - 1) / 2 * minDelay)
  {
    RunKeepsPace(env, minDelay, s, n);
    var starts := Calls(env, minDelay, s, n).starts;
    if starts != [] {
      SpacingAddsUp(starts, minDelay, |starts|);
    }
  }

  /** A call makes at most two attempts, and a second only after the bridge was busy, minDelay later. */
  lemma AtMostTwoAttempts(env: Env, minDelay: nat, s: State)
    ensures var starts := Call(env, minDelay, s).state.starts;
            var n := |s.starts|;
            && starts[..n] == s.starts && (|starts| == n + 1 || |starts| == n + 2)
            && starts[n] >= s.timeout
            && (|starts| == n + 2 <==> env.attempts(n).ending == Busy)
            && (|starts| == n + 2 ==> starts[n + 1] >= starts[n] + minDelay)
  {
    AdmittedLate(env, s);
  }

  /** A call returns exactly when one of its attempts was answered, and throws otherwise. */
  lemma ReturnsWhenAnswered(env: Env, minDelay: nat, s: State)
    ensures var first, second := env.attempts(|s.starts|), env.attempts(|s.starts| + 1);
            Call(env, minDelay, s).returned <==>
            first.ending == Answered || (first.ending == Busy && second.ending == Answered)
  {
    AdmittedLate(env, s);
  }

  /** The retry starts the delay after the end of the busy attempt, or as much later as the system wakes up late. */
  lemma RetryComesAfterTheDelay(env: Env, minDelay: nat, s: State)
    requires env.attempts(|s.starts|).ending == Busy
    ensures var starts, n := Call(env, minDelay, s).state.starts, |s.starts|;
            |starts| == n + 2
            && starts[n + 1] == starts[n] + env.attempts(n).duration + minDelay + env.slack(Admitted(env, s).steps)
  {
    AdmittedLate(env, s);
  }

  // --- The documented spacing ---

  /** How long a call waits between its reading of the clock and its first attempt. */
  function Wait(env: Env, s: State): (w: nat)
  {
    Admitted(env, s).time - Pass(env, s, s.time).time
  }

  /** The time from the last attempt of a call to the first attempt of the call after it. */
  function Gap(env: Env, minDelay: nat, s: State): int {
    var one := Call(env, minDelay, s).state;
    Admitted(env, one).time - one.starts[|one.starts| - 1]
  }

  lemma GapIsBetweenAttempts(env: Env, minDelay: nat, s: State)
    ensures var one := Call(env, minDelay, s).state;
            var two := Call(env, minDelay, one).state;
            var m := |one.starts|;
            m < |two.starts| && two.starts[..m] == one.starts
            && Gap(env, minDelay, s) == two.starts[m] - two.starts[m - 1]
  {
    AtMostTwoAttempts(env, minDelay, Call(env, minDelay, s).state);
  }

  /** What a call guarantees for the next one: the delay counts from the reading of the clock, not from the attempt,
      and only calls that return move the timeout. */
  function LeastGap(env: Env, minDelay: nat, s: State): int {
    var first, second := env.attempts(|s.starts|), env.attempts(|s.starts| + 1);
    match first.ending
    case Answered => if minDelay - Wait(env, s) > first.duration then minDelay - Wait(env, s) else first.duration
    case Failed => first.duration
    case Busy =>
      if second.ending == Answered then second.duration + ReadAfterRetry(env, s) + minDelay else second.duration
  }

  /** How late the clock is read after a retry. */
  function ReadAfterRetry(env: Env, s: State): nat {
    env.slack(Admitted(env, s).steps + 1)
  }

  /** Nothing in the next call happens later than asked for. */
  predicate PromptlyFollowed(env: Env, minDelay: nat, s: State) {
    var steps := Call(env, minDelay, s).state.steps;
    env.slack(steps) == env.slack(steps + 1) == env.slack(steps + 2) == 0
  }

  /** For all delays of the system: the gap is at least the guaranteed one, and exactly that if the next call is
      prompt. */
  lemma GapIsAtLeast(env: Env, minDelay: nat, s: State)
    ensures Gap(env, minDelay, s) >= LeastGap(env, minDelay, s)
    ensures PromptlyFollowed(env, minDelay, s) ==> Gap(env, minDelay, s) == LeastGap(env, minDelay, s)
  {
    var one := Call(env, minDelay, s).state;
    AdmittedLate(env, s);
    AdmittedLate(env, one);
    if PromptlyFollowed(env, minDelay, s) {
      AdmittedPromptly(env, one);
    }
    AfterCall(env, minDelay, s);
  }

  lemma AdmittedPromptly(env: Env, s: State)
    requires env.slack(s.steps) == env.slack(s.steps + 1) == env.slack(s.steps + 2) == 0
    ensures Admitted(env, s).time == if s.timeout > s.time then s.timeout else s.time
  {
  }

  /** Time and timeout after a call, from the start of its last attempt. */
  lemma AfterCall(env: Env, minDelay: nat, s: State)
    ensures var one := Call(env, minDelay, s).state;
            var last := one.starts[|one.starts| - 1];
            var first, second := env.attempts(|s.starts|), env.attempts(|s.starts| + 1);
            match first.ending
            case Answered => one.time == last + first.duration && one.timeout == last - Wait(env, s) + minDelay
            case Failed => one.time == last + first.duration && one.timeout == s.timeout <= last
            case Busy =>
              if second.ending == Answered then
                one.time == last + second.duration + ReadAfterRetry(env, s) && one.timeout == one.time + minDelay
              else one.time == last + second.duration && one.timeout == s.timeout <= last
  {
    AdmittedLate(env, s);
  }

  /** When the documented spacing is guaranteed: an answered call did not wait or its request took the delay; a call
      that threw took that long in its last attempt; a retry was answered. */
  predicate FullySpaced(env: Env, minDelay: nat, s: State) {
    var first, second := env.attempts(|s.starts|), env.attempts(|s.starts| + 1);
    match first.ending
    case Answered => Wait(env, s) == 0 || first.duration >= minDelay
    case Failed => first.duration >= minDelay
    case Busy => second.ending == Answered || second.duration >= minDelay
  }

  /** The next call's first attempt comes the full delay after this call's last one if the condition above holds;
      and only if it does, unless the system delays the next call. */
  lemma FullSpacingIff(env: Env, minDelay: nat, s: State)
    ensures FullySpaced(env, minDelay, s) ==> Gap(env, minDelay, s) >= minDelay
    ensures PromptlyFollowed(env, minDelay, s) ==>
              (Gap(env, minDelay, s) >= minDelay <==> FullySpaced(env, minDelay, s))
  {
    GapIsAtLeast(env, minDelay, s);
  }

  /** On a system without delays a call does not wait exactly when the timeout has passed before it. */
  lemma WaitsForTheTimeout(env: Env, s: State)
    requires env.slack(s.steps) == env.slack(s.steps + 1) == 0
    ensures Wait(env, s) == 0 <==> s.timeout <= s.time
  {
  }

  /** A prompt system on which every attempt fails at once. */
  const FAILING: Env := Env(_ => 0, _ => Attempt(Failed, 0))

  /** Calls that throw are not spaced at all, not even by two: they all start together. */
  lemma {:induction false} ThrowingCallsAreNotSpaced(minDelay: nat, s: State, n: nat)
    ensures var at := if s.timeout > s.time then s.timeout else s.time;
            && Calls(FAILING, minDelay, s, n).starts == s.starts + seq(n, _ => at)
            && Calls(FAILING, minDelay, s, n).timeout == s.timeout
            && Calls(FAILING, minDelay, s, n).time == if n == 0 then s.time else at
  {
    if n > 0 {
      ThrowingCallsAreNotSpaced(minDelay, s, n - 1);
      FailingCall(minDelay, Calls(FAILING, minDelay, s, n - 1));
    }
  }

  lemma FailingCall(minDelay: nat, s: State)
    ensures var c := Call(FAILING, minDelay, s);
            var at := if s.timeout > s.time then s.timeout else s.time;
            !c.returned && c.state.time == at && c.state.timeout == s.timeout && c.state.starts == s.starts + [at]
  {
  }

  /** A prompt system and instant answers. */
  const INSTANT: Env := Env(_ => 0, _ => Attempt(Answered, 0))

  lemma InstantCall(minDelay: nat, s: State)
    ensures var c := Call(INSTANT, minDelay, s);
            var at := if s.timeout > s.time then s.timeout else s.time;
            && c.returned && c.state.time == at && c.state.timeout == s.time + minDelay
            && c.state.starts == s.starts + [at]
  {
  }

  /** Three calls in a row, after a pause: the second and the third start together. */
  lemma BackToBackCalls(minDelay: nat, s: State)
    requires s.timeout <= s.time
    ensures var one := Call(INSTANT, minDelay, s);
            var two := Call(INSTANT, minDelay, one.state);
            var three := Call(INSTANT, minDelay, two.state);
            && one.returned && two.returned && three.returned
            && three.state.starts == s.starts + [s.time, s.time + minDelay, s.time + minDelay]
  {
    var one := Call(INSTANT, minDelay, s).state;
    var two := Call(INSTANT, minDelay, one).state;
    InstantCall(minDelay, s);
    InstantCall(minDelay, one);
    InstantCall(minDelay, two);
  }
}
