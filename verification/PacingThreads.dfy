/** The delay between requests when several threads share one API object: every interleaving of their steps
    (src/HueCommandAPI.cpp). */
module PacingThreads {
  import opened Wrappers
  import opened RequestPacing

  type Thread = nat

  /** Where a thread is in RunWithTimeout. `call` numbers the call, `now` is its reading of the clock, `found` the
      timeout it found when it got the lock, `attempt` is 1 or 2. */
  datatype Place =
    | Idle
    | Waiting(call: nat, now: int)
    | Locked(call: nat, now: int, found: int)
    | Requesting(call: nat, now: int, found: int, attempt: nat)
    | BackingOff(call: nat, now: int, found: int, until: int)

  /** An attempt that started: by whom, in which call, the call's reading of the clock, the timeout that it found,
      and when. */
  datatype Start = Start(thread: Thread, call: nat, attempt: nat, now: int, found: int, at: int)

  datatype Finish = Finish(ending: Ending, time: int)

  /** `ends[k]` is how and when the attempt `log[k]` ended. */
  datatype Sys = Sys(time: int, timeout: int, holder: Option<Thread>, places: map<Thread, Place>, calls: nat,
                     log: seq<Start>, ends: seq<Finish>)

  function At(s: Sys, t: Thread): Place {
    if t in s.places then s.places[t] else Idle
  }

  function Initial(time: int): Sys {
    Sys(time, time, None, map[], 0, [], [])
  }

  datatype Action =
    | Advance(dt: nat)
    | ReadClock(t: Thread)
    | Acquire(t: Thread)
    | Begin(t: Thread)
    | End(t: Thread, ending: Ending)
    | Again(t: Thread)

  predicate Can(s: Sys, a: Action) {
    match a
    case Advance(_) => true
    case ReadClock(t) => At(s, t).Idle?
    case Acquire(t) => At(s, t).Waiting? && s.holder == None
    case Begin(t) => At(s, t).Locked? && (At(s, t).found <= At(s, t).now || s.time >= At(s, t).found)
    case End(t, _) => At(s, t).Requesting?
    case Again(t) => At(s, t).BackingOff? && s.time >= At(s, t).until
  }

  function Move(s: Sys, t: Thread, p: Place): Sys {
    s.(places := s.places[t := p])
  }

  function Release(s: Sys, t: Thread): Sys {
    Move(s, t, Idle).(holder := None)
  }

  function Do(minDelay: nat, s: Sys, a: Action): Sys
    requires Can(s, a)
  {
    match a
    case Advance(dt) => s.(time := s.time + dt)
    case ReadClock(t) => Move(s, t, Waiting(s.calls, s.time)).(calls := s.calls + 1)
    case Acquire(t) =>
      var p := At(s, t);
      Move(s, t, Locked(p.call, p.now, s.timeout)).(holder := Some(t))
    case Begin(t) =>
      var p := At(s, t);
      Move(s, t, Requesting(p.call, p.now, p.found, 1)).(log := s.log + [Start(t, p.call, 1, p.now, p.found, s.time)])
    case Again(t) =>
      var p := At(s, t);
      Move(s, t, Requesting(p.call, p.now, p.found, 2)).(log := s.log + [Start(t, p.call, 2, p.now, p.found, s.time)])
    case End(t, ending) =>
      var p, ended := At(s, t), s.(ends := s.ends + [Finish(ending, s.time)]);
      if ending == Answered then
        Release(ended, t).(timeout := (if p.attempt == 1 then p.now else s.time) + minDelay)
      else if ending == Busy && p.attempt == 1 then
        Move(ended, t, BackingOff(p.call, p.now, p.found, s.time + minDelay))
      else Release(ended, t)
  }

  function Last(b: seq<Sys>): Sys
    requires b != []
  {
    b[|b| - 1]
  }

  ghost predicate Next(minDelay: nat, s: Sys, s': Sys) {
    exists a :: Can(s, a) && s' == Do(minDelay, s, a)
  }

  ghost predicate Behaviour(minDelay: nat, b: seq<Sys>) {
    && b != [] && (exists time :: b[0] == Initial(time))
    && forall i | 0 <= i < |b| - 1 :: Next(minDelay, b[i], b[i + 1])
  }

  // --- What every interleaving keeps ---

  predicate HoldsLock(p: Place) {
    p.Locked? || p.Requesting? || p.BackingOff?
  }

  /** How many attempts of its call a thread has made. */
  function Made(p: Place): nat {
    match p
    case Requesting(_, _, _, attempt) => attempt
    case BackingOff(_, _, _, _) => 1
    case _ => 0
  }

  function AttemptsOf(log: seq<Start>, call: nat): nat {
    if log == [] then 0
    else AttemptsOf(log[..|log| - 1], call) + if log[|log| - 1].call == call then 1 else 0
  }

  ghost predicate LockInv(s: Sys) {
    forall t: Thread :: HoldsLock(At(s, t)) <==> s.holder == Some(t)
  }

  ghost predicate TimeInv(s: Sys) {
    && (forall t: Thread :: !At(s, t).Idle? ==> At(s, t).now <= s.time)
    && (forall k | 0 <= k < |s.log| :: s.log[k].found <= s.log[k].at <= s.time)
    && (forall t: Thread :: At(s, t).Requesting? || At(s, t).BackingOff? ==> At(s, t).found <= s.time)
  }

  ghost predicate IdsInv(s: Sys) {
    && (forall t: Thread :: !At(s, t).Idle? ==> At(s, t).call < s.calls)
    && (forall t: Thread, u: Thread :: t != u && !At(s, t).Idle? && !At(s, u).Idle? ==> At(s, t).call != At(s, u).call)
    && (forall t: Thread :: At(s, t).Requesting? ==> 1 <= At(s, t).attempt <= 2)
  }

  ghost predicate CountInv(s: Sys) {
    && (forall t: Thread :: !At(s, t).Idle? ==> AttemptsOf(s.log, At(s, t).call) == Made(At(s, t)))
    && (forall c: nat :: AttemptsOf(s.log, c) <= 2 && (c >= s.calls ==> AttemptsOf(s.log, c) == 0))
  }

  predicate AllOver(s: Sys) {
    |s.ends| == |s.log|
  }

  /** The last attempt ended, and its call will try again. */
  predicate WillRetry(s: Sys) {
    AllOver(s) && s.log != [] && s.log[|s.log| - 1].attempt == 1 && s.ends[|s.ends| - 1].ending == Busy
  }

  /** Attempts take turns: only the last one can be running, and it is the lock holder's, who also knows the timeout. */
  ghost predicate TurnInv(minDelay: nat, s: Sys) {
    && |s.ends| <= |s.log| <= |s.ends| + 1
    && (s.holder == None ==> AllOver(s) && !WillRetry(s))
    && (forall t: Thread :: HoldsLock(At(s, t)) ==> At(s, t).found == s.timeout)
    && (forall t: Thread :: At(s, t).Locked? ==> AllOver(s) && !WillRetry(s))
    && (forall t: Thread :: At(s, t).Requesting? ==> !AllOver(s) && IsLast(s, t))
    && (forall t: Thread :: At(s, t).BackingOff? ==>
          WillRetry(s) && IsLast(s, t) && At(s, t).until == s.ends[|s.ends| - 1].time + minDelay)
  }

  /** The last attempt is one of the thread's current call. */
  predicate IsLast(s: Sys, t: Thread)
    requires At(s, t).Requesting? || At(s, t).BackingOff?
  {
    var p := At(s, t);
    && s.log != []
    && var e := s.log[|s.log| - 1];
       e.thread == t && e.call == p.call && e.now == p.now && e.found == p.found
       && e.attempt == if p.Requesting? then p.attempt else 1
  }

  /** The timeout that a finished attempt leaves behind. */
  function TimeoutAfter(minDelay: nat, e: Start, end: Finish): int {
    if end.ending != Answered then e.found else (if e.attempt == 1 then e.now else end.time) + minDelay
  }

  predicate TimeoutInv(minDelay: nat, s: Sys) {
    AllOver(s) && s.log != [] ==> s.timeout == TimeoutAfter(minDelay, s.log[|s.log| - 1], s.ends[|s.ends| - 1])
  }

  predicate OrderInv(s: Sys) {
    && (forall k | 0 <= k < |s.log| ::
          1 <= s.log[k].attempt <= 2 && s.log[k].now <= s.log[k].at && s.log[k].found <= s.log[k].at <= s.time)
    && (forall k | 0 <= k < |s.ends| && k < |s.log| :: s.log[k].at <= s.ends[k].time <= s.time)
  }

  /** What one attempt guarantees for the start of the next: a retry comes from the same call, a delay after the busy
      one; the first attempt of a call comes after the timeout left behind. */
  predicate Follows(minDelay: nat, e: Start, end: Finish, f: Start) {
    if e.attempt == 1 && end.ending == Busy then
      f.attempt == 2 && f.call == e.call && f.thread == e.thread && f.at >= end.time + minDelay
    else f.attempt == 1 && f.at >= end.time && f.at >= TimeoutAfter(minDelay, e, end)
  }

  predicate SpacingInv(minDelay: nat, s: Sys) {
    forall k | 0 <= k < |s.log| - 1 && k < |s.ends| :: Follows(minDelay, s.log[k], s.ends[k], s.log[k + 1])
  }

  lemma TurnStep(minDelay: nat, s: Sys, a: Action)
    requires LockInv(s) && IdsInv(s) && TurnInv(minDelay, s) && Can(s, a)
    ensures TurnInv(minDelay, Do(minDelay, s, a))
  {
    var s' := Do(minDelay, s, a);
    if !a.Advance? {
      assert HoldsLock(At(s, a.t)) <==> s.holder == Some(a.t);
      assert At(s, a.t).Requesting? ==> 1 <= At(s, a.t).attempt <= 2;
      assert At(s, a.t).Requesting? ==> IsLast(s, a.t);
      assert At(s, a.t).BackingOff? ==> IsLast(s, a.t);
    }
    forall t: Thread
      ensures HoldsLock(At(s', t)) ==> At(s', t).found == s'.timeout
      ensures At(s', t).Locked? ==> AllOver(s') && !WillRetry(s')
      ensures At(s', t).Requesting? ==> !AllOver(s') && IsLast(s', t)
      ensures At(s', t).BackingOff? ==>
                WillRetry(s') && IsLast(s', t) && At(s', t).until == s'.ends[|s'.ends| - 1].time + minDelay
    {
      assert HoldsLock(At(s, t)) <==> s.holder == Some(t);
      assert At(s, t).Requesting? ==> IsLast(s, t);
      assert At(s, t).BackingOff? ==> IsLast(s, t);
    }
  }

  lemma TimeoutStep(minDelay: nat, s: Sys, a: Action)
    requires IdsInv(s) && TurnInv(minDelay, s) && TimeoutInv(minDelay, s) && Can(s, a)
    ensures TimeoutInv(minDelay, Do(minDelay, s, a))
  {
    if a.End? {
      assert IsLast(s, a.t) && At(s, a.t).found == s.timeout;
    }
  }

  lemma OrderStep(minDelay: nat, s: Sys, a: Action)
    requires TimeInv(s) && TurnInv(minDelay, s) && OrderInv(s) && Can(s, a)
    ensures OrderInv(Do(minDelay, s, a))
  {
    if !a.Advance? {
      assert !At(s, a.t).Idle? ==> At(s, a.t).now <= s.time;
    }
  }

  lemma SpacingStep(minDelay: nat, s: Sys, a: Action)
    requires TimeInv(s) && TurnInv(minDelay, s) && TimeoutInv(minDelay, s) && OrderInv(s) && SpacingInv(minDelay, s)
    requires Can(s, a)
    ensures SpacingInv(minDelay, Do(minDelay, s, a))
  {
    if a.Begin? || a.Again? {
      assert At(s, a.t).found == s.timeout && At(s, a.t).now <= s.time;
    }
  }

  lemma LockStep(minDelay: nat, s: Sys, a: Action)
    requires LockInv(s) && Can(s, a)
    ensures LockInv(Do(minDelay, s, a))
  {
    var s' := Do(minDelay, s, a);
    forall t: Thread
      ensures HoldsLock(At(s', t)) <==> s'.holder == Some(t)
    {
      assert HoldsLock(At(s, t)) <==> s.holder == Some(t);
    }
  }

  lemma TimeStep(minDelay: nat, s: Sys, a: Action)
    requires TimeInv(s) && Can(s, a)
    ensures TimeInv(Do(minDelay, s, a))
  {
    var s' := Do(minDelay, s, a);
    forall t: Thread
      ensures !At(s', t).Idle? ==> At(s', t).now <= s'.time
      ensures At(s', t).Requesting? || At(s', t).BackingOff? ==> At(s', t).found <= s'.time
    {
      assert !At(s, t).Idle? ==> At(s, t).now <= s.time;
    }
  }

  lemma CountAppend(log: seq<Start>, e: Start, call: nat)
    ensures AttemptsOf(log + [e], call) == AttemptsOf(log, call) + if e.call == call then 1 else 0
  {
    assert (log + [e])[..|log|] == log;
  }

  lemma IdsStep(minDelay: nat, s: Sys, a: Action)
    requires IdsInv(s) && Can(s, a)
    ensures IdsInv(Do(minDelay, s, a))
  {
    var s' := Do(minDelay, s, a);
    forall t: Thread
      ensures !At(s', t).Idle? ==> At(s', t).call < s'.calls
      ensures At(s', t).Requesting? ==> 1 <= At(s', t).attempt <= 2
    {
      assert !At(s, t).Idle? ==> At(s, t).call < s.calls;
      assert At(s, t).Requesting? ==> 1 <= At(s, t).attempt <= 2;
    }
    forall t: Thread, u: Thread | t != u && !At(s', t).Idle? && !At(s', u).Idle?
      ensures At(s', t).call != At(s', u).call
    {
      assert !At(s, t).Idle? ==> At(s, t).call < s.calls;
      assert !At(s, u).Idle? ==> At(s, u).call < s.calls;
      assert !At(s, t).Idle? && !At(s, u).Idle? ==> At(s, t).call != At(s, u).call;
    }
  }

  lemma LogStep(minDelay: nat, s: Sys, a: Action, c: nat)
    requires Can(s, a)
    ensures AttemptsOf(Do(minDelay, s, a).log, c)
         == AttemptsOf(s.log, c) + if (a.Begin? || a.Again?) && At(s, a.t).call == c then 1 else 0
  {
    if a.Begin? || a.Again? {
      CountAppend(s.log, Do(minDelay, s, a).log[|s.log|], c);
    }
  }

  lemma CountStep(minDelay: nat, s: Sys, a: Action)
    requires IdsInv(s) && CountInv(s) && Can(s, a)
    ensures CountInv(Do(minDelay, s, a))
  {
    var s' := Do(minDelay, s, a);
    forall t: Thread | !At(s', t).Idle?
      ensures AttemptsOf(s'.log, At(s', t).call) == Made(At(s', t))
    {
      LogStep(minDelay, s, a, At(s', t).call);
      assert !At(s, t).Idle? ==> AttemptsOf(s.log, At(s, t).call) == Made(At(s, t));
    }
    forall c: nat
      ensures AttemptsOf(s'.log, c) <= 2 && (c >= s'.calls ==> AttemptsOf(s'.log, c) == 0)
    {
      LogStep(minDelay, s, a, c);
      assert AttemptsOf(s.log, c) <= 2 && (c >= s.calls ==> AttemptsOf(s.log, c) == 0);
    }
  }

  lemma {:induction false} BehavioursKeepInvariants(minDelay: nat, b: seq<Sys>, k: nat)
    requires Behaviour(minDelay, b) && k < |b|
    ensures LockInv(b[k]) && TimeInv(b[k]) && IdsInv(b[k]) && CountInv(b[k])
    ensures TurnInv(minDelay, b[k]) && TimeoutInv(minDelay, b[k]) && OrderInv(b[k]) && SpacingInv(minDelay, b[k])
  {
    if k > 0 {
      BehavioursKeepInvariants(minDelay, b, k - 1);
      assert Next(minDelay, b[k - 1], b[k - 1 + 1]);
      var a :| Can(b[k - 1], a) && b[k] == Do(minDelay, b[k - 1], a);
      LockStep(minDelay, b[k - 1], a);
      TimeStep(minDelay, b[k - 1], a);
      IdsStep(minDelay, b[k - 1], a);
      CountStep(minDelay, b[k - 1], a);
      TurnStep(minDelay, b[k - 1], a);
      TimeoutStep(minDelay, b[k - 1], a);
      OrderStep(minDelay, b[k - 1], a);
      SpacingStep(minDelay, b[k - 1], a);
    }
  }

  /** In every interleaving: requests exclude each other, no attempt starts before the timeout that its call found
      when it got the lock, and no call makes more than two attempts. */
  lemma RequestsAreExclusive(minDelay: nat, b: seq<Sys>, k: nat)
    requires Behaviour(minDelay, b) && k < |b|
    ensures forall t: Thread, u: Thread :: At(b[k], t).Requesting? && At(b[k], u).Requesting? ==> t == u
    ensures forall i | 0 <= i < |b[k].log| :: b[k].log[i].at >= b[k].log[i].found
    ensures forall c: nat :: AttemptsOf(b[k].log, c) <= 2
  {
    BehavioursKeepInvariants(minDelay, b, k);
    forall t: Thread, u: Thread | At(b[k], t).Requesting? && At(b[k], u).Requesting?
      ensures t == u
    {
      assert HoldsLock(At(b[k], t)) && HoldsLock(At(b[k], u));
    }
  }

  // --- Spacing between threads ---

  /** When the full delay after an attempt is guaranteed, whoever comes next: it was answered, and started at its own
      call's reading of the clock, or took the delay, or was a retry; it threw, after the delay; or its call retries. */
  predicate FullySpaced(minDelay: nat, e: Start, end: Finish) {
    match end.ending
    case Answered => e.attempt == 2 || e.at == e.now || end.time >= e.at + minDelay
    case Busy => e.attempt == 1 || end.time >= e.at + minDelay
    case Failed => end.time >= e.at + minDelay
  }

  /** In every interleaving: what neighbouring attempts guarantee, and the full delay to all previous attempts under
      the condition above on the last of them. */
  lemma AttemptsAreSpaced(minDelay: nat, b: seq<Sys>, n: nat, k: nat)
    requires Behaviour(minDelay, b) && n < |b| && k + 1 < |b[n].log|
    ensures k < |b[n].ends|
    ensures Follows(minDelay, b[n].log[k], b[n].ends[k], b[n].log[k + 1])
    ensures FullySpaced(minDelay, b[n].log[k], b[n].ends[k]) ==>
              forall j | 0 <= j <= k :: b[n].log[k + 1].at >= b[n].log[j].at + minDelay
  {
    BehavioursKeepInvariants(minDelay, b, n);
    forall j | 0 <= j <= k
      ensures b[n].log[j].at <= b[n].log[k].at
    {
      StartsInOrder(minDelay, b[n], j, k);
    }
  }

  lemma {:induction false} StartsInOrder(minDelay: nat, s: Sys, j: nat, k: nat)
    requires TurnInv(minDelay, s) && OrderInv(s) && SpacingInv(minDelay, s) && j <= k < |s.log|
    ensures s.log[j].at <= s.log[k].at
  {
    if j < k {
      StartsInOrder(minDelay, s, j, k - 1);
      assert Follows(minDelay, s.log[k - 1], s.ends[k - 1], s.log[k - 1 + 1]);
    }
  }

  predicate Extends(s: Sys, s': Sys) {
    s.log <= s'.log && s.ends <= s'.ends
  }

  lemma {:induction false} LogGrows(minDelay: nat, b: seq<Sys>, i: nat, j: nat)
    requires Behaviour(minDelay, b) && i <= j < |b|
    ensures Extends(b[i], b[j])
  {
    if i < j {
      LogGrows(minDelay, b, i, j - 1);
      assert Next(minDelay, b[j - 1], b[j - 1 + 1]);
    }
  }

  ghost predicate Continues(minDelay: nat, b: seq<Sys>, b': seq<Sys>) {
    b' != [] && b <= b' && Behaviour(minDelay, b')
  }

  lemma Append(minDelay: nat, b: seq<Sys>, a: Action) returns (b': seq<Sys>)
    requires Behaviour(minDelay, b) && Can(Last(b), a)
    ensures Continues(minDelay, b, b') && |b'| == |b| + 1 && b'[|b|] == Do(minDelay, Last(b), a)
  {
    b' := b + [Do(minDelay, Last(b), a)];
    forall i | 0 <= i < |b'| - 1
      ensures Next(minDelay, b'[i], b'[i + 1])
    {
      if i < |b| - 1 {
        assert Next(minDelay, b[i], b[i + 1]);
      }
    }
  }

  /** Any idle thread can make the next request at the later of the present and the timeout. */
  lemma NextRequest(minDelay: nat, b: seq<Sys>, u: Thread) returns (b': seq<Sys>)
    requires Behaviour(minDelay, b) && Last(b).holder == None && At(Last(b), u).Idle?
    ensures Continues(minDelay, b, b')
    ensures var s, s' := Last(b), Last(b');
            && |s'.log| == |s.log| + 1 && s.log <= s'.log
            && s'.log[|s.log|].thread == u && s'.log[|s.log|].now == s.time
            && s'.log[|s.log|].at == if s.timeout > s.time then s.timeout else s.time
  {
    var s := Last(b);
    var b1 := Append(minDelay, b, ReadClock(u));
    var b2 := Append(minDelay, b1, Acquire(u));
    var ready := Last(b2);
    assert At(ready, u) == Locked(s.calls, s.time, s.timeout) && ready.log == s.log;
    if s.timeout > s.time {
      var b3 := Append(minDelay, b2, Advance(s.timeout - s.time));
      b' := Append(minDelay, b3, Begin(u));
    } else {
      b' := Append(minDelay, b2, Begin(u));
    }
  }

  lemma {:induction false} Above(threads: set<Thread>) returns (u: Thread)
    ensures forall t | t in threads :: t < u
  {
    if threads == {} {
      u := 0;
    } else {
      var t :| t in threads;
      var above := Above(threads - {t});
      u := if t < above then above else t + 1;
      forall other | other in threads
        ensures other < u
      {
        assert other == t || other in threads - {t};
      }
    }
  }

  /** In every continuation, the next attempt comes the full delay after the last one of `b`. */
  ghost predicate NextIsSpaced(minDelay: nat, b: seq<Sys>)
    requires b != [] && Last(b).log != []
  {
    var log := Last(b).log;
    forall b': seq<Sys> | b' != [] && Continues(minDelay, b, b') && |Last(b').log| > |log| ::
      Last(b').log[|log|].at >= log[|log| - 1].at + minDelay
  }

  /** The exact condition, in every interleaving: when an attempt has just ended and its call has let go of the lock,
      the next attempt, of whatever thread, is sure to come the full delay after it exactly under the condition
      above. */
  lemma FullSpacingIff(minDelay: nat, b: seq<Sys>)
    requires Behaviour(minDelay, b)
    requires var s := Last(b);
             s.holder == None && s.log != [] && |s.ends| == |s.log| && s.ends[|s.ends| - 1].time == s.time
    ensures var s := Last(b);
            NextIsSpaced(minDelay, b) <==> FullySpaced(minDelay, s.log[|s.log| - 1], s.ends[|s.ends| - 1])
  {
    var s := Last(b);
    var last := |s.log| - 1;
    BehavioursKeepInvariants(minDelay, b, |b| - 1);
    if FullySpaced(minDelay, s.log[last], s.ends[last]) {
      forall b': seq<Sys> | b' != [] && Continues(minDelay, b, b') && |Last(b').log| > |s.log|
        ensures Last(b').log[|s.log|].at >= s.log[last].at + minDelay
      {
        LogGrows(minDelay, b', |b| - 1, |b'| - 1);
        AttemptsAreSpaced(minDelay, b', |b'| - 1, last);
      }
    } else {
      var u := Above(s.places.Keys);
      var b' := NextRequest(minDelay, b, u);
      assert !(Last(b').log[|s.log|].at >= s.log[last].at + minDelay);
    }
  }

  // --- No spacing at all ---

  ghost predicate Reachable(minDelay: nat, s: Sys) {
    exists b :: Behaviour(minDelay, b) && Last(b) == s
  }

  lemma Extend(minDelay: nat, s: Sys, a: Action)
    requires Reachable(minDelay, s) && Can(s, a)
    ensures Reachable(minDelay, Do(minDelay, s, a))
  {
    var b :| Behaviour(minDelay, b) && Last(b) == s;
    var b' := Append(minDelay, b, a);
  }

  /** Threads from..to have read the clock at time zero and wait for the lock, which is free. */
  predicate Queue(s: Sys, from: nat, to: nat) {
    s.holder == None && forall t: nat | from <= t < to :: At(s, t).Waiting? && At(s, t).now == 0
  }

  /** A step moves no thread but its own. */
  lemma OthersStay(minDelay: nat, s: Sys, a: Action)
    requires Can(s, a)
    ensures forall u: Thread :: a.Advance? || u != a.t ==> At(Do(minDelay, s, a), u) == At(s, u)
  {
  }

  lemma {:induction false} EveryoneReadsTheClock(minDelay: nat, n: nat) returns (s: Sys)
    ensures Reachable(minDelay, s) && Queue(s, 0, n) && s.time == 0 && s.timeout == 0 && s.log == []
    ensures forall t: Thread | t >= n :: At(s, t).Idle?
  {
    if n == 0 {
      s := Initial(0);
      assert Behaviour(minDelay, [s]);
      assert [s][|[s]| - 1] == s;
    } else {
      var s0 := EveryoneReadsTheClock(minDelay, n - 1);
      Extend(minDelay, s0, ReadClock(n - 1));
      OthersStay(minDelay, s0, ReadClock(n - 1));
      s := Do(minDelay, s0, ReadClock(n - 1));
    }
  }

  /** One thread of the queue makes an instant request. */
  lemma Turn(minDelay: nat, s: Sys, t: Thread, n: nat) returns (s': Sys)
    requires t < n && Reachable(minDelay, s) && Queue(s, t, n) && s.timeout <= s.time
    ensures Reachable(minDelay, s') && Queue(s', t + 1, n) && s'.time == s.time && s'.timeout == minDelay
    ensures |s'.log| == |s.log| + 1 && s.log <= s'.log
    ensures s'.log[|s.log|].at == s.time && s'.log[|s.log|].thread == t
  {
    Extend(minDelay, s, Acquire(t));
    OthersStay(minDelay, s, Acquire(t));
    var s1 := Do(minDelay, s, Acquire(t));
    Extend(minDelay, s1, Begin(t));
    OthersStay(minDelay, s1, Begin(t));
    var s2 := Do(minDelay, s1, Begin(t));
    Extend(minDelay, s2, End(t, Answered));
    OthersStay(minDelay, s2, End(t, Answered));
    s' := Do(minDelay, s2, End(t, Answered));
  }

  lemma {:induction false} Burst(minDelay: nat, n: nat, k: nat) returns (s: Sys)
    requires 1 <= k <= n
    ensures Reachable(minDelay, s) && Queue(s, k, n) && s.time == minDelay && s.timeout == minDelay
    ensures |s.log| == k && s.log[0].at == 0 && forall i | 1 <= i < k :: s.log[i].at == minDelay
    ensures forall i | 0 <= i < k :: s.log[i].thread == i
  {
    if k == 1 {
      var s0 := EveryoneReadsTheClock(minDelay, n);
      var s1 := Turn(minDelay, s0, 0, n);
      Extend(minDelay, s1, Advance(minDelay));
      OthersStay(minDelay, s1, Advance(minDelay));
      s := Do(minDelay, s1, Advance(minDelay));
    } else {
      var s0 := Burst(minDelay, n, k - 1);
      s := Turn(minDelay, s0, k - 1, n);
    }
  }

  /** Without the condition above there is no spacing at all between threads, neither the documented one nor the one
      that a single thread keeps: of n requests of n different threads, all but the first can start at the same
      moment. */
  lemma ThreadsAreNotSpaced(minDelay: nat, n: nat)
    requires n >= 1
    ensures exists s :: Reachable(minDelay, s) && |s.log| == n
                        && s.log[0].at == 0 && (forall i | 1 <= i < n :: s.log[i].at == minDelay)
                        && forall i | 0 <= i < n :: s.log[i].thread == i
  {
    var s := Burst(minDelay, n, n);
  }
}
