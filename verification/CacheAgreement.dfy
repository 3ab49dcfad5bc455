/** Cached state and light stay together over whole runs of commits. */
module CacheAgreement {
  import opened Wrappers
  import opened LightState
  import opened HueBridge
  import opened StateTransactions
  import opened TransactionLaws
  import opened Lights

  /** The bridge never acknowledges what the light did not do. */
  ghost predicate Truthful(env: Env) {
    env.path != "" && forall n: nat, r: State {:trigger env.answers(n, r)} ::
      OutcomeOf(env.path, r, env.answers(n, r)) == Done(true) ==> env.answers(n, r).applied
  }

  /** The bridge moreover does nothing that it does not acknowledge. */
  ghost predicate AllOrNothing(env: Env) {
    env.path != "" && forall n: nat, r: State {:trigger env.answers(n, r)} ::
      OutcomeOf(env.path, r, env.answers(n, r)) == Done(true) <==> env.answers(n, r).applied
  }

  /** Requests whose effect is the value they carry. */
  predicate Plain(request: State) {
    Typed(request) && request.Keys !! INCREMENTS + {ColorMode}
  }

  /** Cached state and light agree, except perhaps on which kind of colour is shown. */
  predicate Agree(cache: State, device: State) {
    && Typed(cache) && Typed(device) && ColorMode in cache && ColorMode in device
    && device == cache[ColorMode := device[ColorMode]]
  }

  lemma PlainIsStored(request: State)
    requires Plain(request)
    ensures request - {TransitionTime} == map k | k in request && k in STORED :: request[k]
    ensures ColorMode !in request - {TransitionTime}
  {
  }

  lemma ExecutedAgrees(cache: State, device: State, request: State)
    requires Agree(cache, device) && Plain(request)
    ensures Agree(Written(cache, request), Execute(device, request))
  {
    PlainIsStored(request);
    var stored := request - {TransitionTime};
    var c, d := cache + stored, Execute(device, request);
    assert device + stored == c[ColorMode := device[ColorMode]];
    assert d == c[ColorMode := d[ColorMode]];
    assert Typed(Cached(cache, request, Done(true)));
  }

  lemma TransitionAloneDoesNothing(device: State, request: State)
    requires !Sends(request)
    ensures Execute(device, request) == device && Written(device, request) == device
  {
  }

  lemma DeliveredIsExecuted(env: Env, device: State, sent: seq<Sent>, request: State)
    requires Truthful(env) && Deliver(env.answers, env.path, device, sent, request).outcome == Done(true)
    ensures Deliver(env.answers, env.path, device, sent, request).device == Execute(device, request)
  {
    if !Sends(request) {
      TransitionAloneDoesNothing(device, request);
    }
  }

  lemma PreparedIsPlain(cache: State, request: State)
    requires Typed(cache) && Plain(request)
    ensures Plain(Prepared(Some(cache), request, true))
  {
    var r := InferOn(cache, request);
    assert r.Keys <= request.Keys + {On};
  }

  /** What a successful commit does to cached state and light, and that it keeps them together. */
  lemma TransactSucceeds(env: Env, w: World, request: State)
    requires Truthful(env) && Agree(w.cache, w.device) && Plain(request)
    requires Transact(env, w, request).outcome == Done(true)
    ensures var after, cache := Transact(env, w, request).world, Fetched(env, w);
            var r := Prepared(Some(cache), request, true);
            && Plain(r)
            && after.cache == Written(cache, r) && after.device == Execute(w.device, r)
            && Agree(cache, w.device) && Agree(after.cache, after.device)
            && after.lookups == w.lookups + 1
  {
    var cache := Fetched(env, w);
    var r := Prepared(Some(cache), request, true);
    PreparedIsPlain(cache, request);
    DeliveredIsExecuted(env, w.device, w.sent, r);
    ExecutedAgrees(cache, w.device, r);
  }

  // --- Runs ---

  /** Runs over on, bri, effect, transition and the colour keys of one mode. */
  predicate WithinMode(mode: Mode, request: State) {
    Typed(request) && forall k | k in request :: Repeatable(mode, k)
  }

  predicate AllTyped(requests: seq<State>) {
    forall i | 0 <= i < |requests| :: Typed(requests[i])
  }

  predicate AllWithinMode(mode: Mode, requests: seq<State>) {
    AllTyped(requests) && forall i | 0 <= i < |requests| :: WithinMode(mode, requests[i])
  }

  ghost function Run(env: Env, w: World, requests: seq<State>): World
    requires env.path != "" && TypedWorld(w) && AllTyped(requests)
    decreases |requests|
  {
    if requests == [] then w
    else Run(env, Transact(env, w, requests[0]).world, requests[1..])
  }

  /** The xy coordinates a caller last asked for and was told were set. */
  ghost function LastWanted(env: Env, w: World, requests: seq<State>, wanted: Value): Value
    requires env.path != "" && TypedWorld(w) && AllTyped(requests)
    decreases |requests|
  {
    if requests == [] then wanted
    else
      var s := Transact(env, w, requests[0]);
      LastWanted(env, s.world, requests[1..], NowWanted(s.outcome, requests[0], wanted))
  }

  function NowWanted(outcome: Outcome, request: State, wanted: Value): Value {
    if outcome == Done(true) && Xy in request then request[Xy] else wanted
  }

  predicate HoldsXy(device: State, wanted: Value) {
    Xy in device ==> Close(device[Xy], wanted)
  }

  predicate Synced(w: World) {
    Typed(w.cache) && w.cache == w.device && ColorMode in w.cache
  }

  lemma PreparedStaysInMode(cache: State, request: State, mode: Mode)
    requires Typed(cache) && WithinMode(mode, request)
    ensures WithinMode(mode, Prepared(Some(cache), request, true))
  {
  }

  lemma SameModeExecution(device: State, request: State, mode: Mode)
    requires Typed(device) && ColorMode in device && CachedMode(device) == mode && WithinMode(mode, request)
    ensures Execute(device, request) == Written(device, request)
  {
    assert Plain(request);
    PlainIsStored(request);
    var stored := device + (request - {TransitionTime});
    if HasColour(request) {
      var k := if Xy in request then Xy else if Ct in request then Ct else if Hue in request then Hue else Sat;
      assert k in request && KeyMode(k) == Dominant(request);
      assert TypeFits(ColorMode, device[ColorMode]);
      assert stored == stored[ColorMode := ModeName(mode)];
    }
  }

  /** One commit, successful or not, keeps a light and its cached state equal. */
  lemma StepStaysSynced(env: Env, w: World, request: State)
    requires AllOrNothing(env) && Synced(w) && WithinMode(CachedMode(w.cache), request)
    ensures var s := Transact(env, w, request);
            && Synced(s.world) && CachedMode(s.world.cache) == CachedMode(w.cache)
            && s.world.cache == if s.outcome == Done(true)
                                then Written(w.cache, Prepared(Some(w.cache), request, true)) else w.cache
  {
    var r := Prepared(Some(w.cache), request, true);
    PreparedStaysInMode(w.cache, request, CachedMode(w.cache));
    DeliveryStaysSynced(env, w.cache, w.sent, r);
  }

  lemma WrittenKeepsMode(cache: State, request: State, mode: Mode)
    requires Typed(cache) && ColorMode in cache && WithinMode(mode, request)
    ensures var after := Written(cache, request);
            Typed(after) && ColorMode in after && after[ColorMode] == cache[ColorMode]
  {
    assert Typed(Cached(cache, request, Done(true)));
    assert ColorMode !in request;
  }

  lemma DeliveryStaysSynced(env: Env, device: State, sent: seq<Sent>, request: State)
    requires AllOrNothing(env) && Typed(device) && ColorMode in device && WithinMode(CachedMode(device), request)
    ensures var x := Deliver(env.answers, env.path, device, sent, request);
            && x.device == (if x.outcome == Done(true) then Written(device, request) else device)
            && Typed(x.device) && ColorMode in x.device && x.device[ColorMode] == device[ColorMode]
  {
    SameModeExecution(device, request, CachedMode(device));
    WrittenKeepsMode(device, request, CachedMode(device));
    if Sends(request) {
      var a := env.answers(|sent|, request);
      assert OutcomeOf(env.path, request, a) == Done(true) <==> a.applied;
    } else {
      TransitionAloneDoesNothing(device, request);
    }
  }

  lemma WrittenHoldsXy(cache: State, request: State)
    requires Typed(cache) && Typed(request)
    ensures var after := Written(cache, Prepared(Some(cache), request, true));
            if Xy in request then Xy in after && Close(after[Xy], request[Xy])
            else (Xy in after <==> Xy in cache) && (Xy in cache ==> after[Xy] == cache[Xy])
  {
    if Xy in request {
      assert TypeFits(Xy, request[Xy]);
      if Redundant(cache, Xy, request[Xy]) {
        assert Xy !in Prepared(Some(cache), request, true);
      }
    }
  }

  /** One commit of any plain request, successful or not, keeps light and cached state equal but for the mode; and
      after success the light holds the requested xy, up to the tolerance, whatever mode it shows. A commit that asks
      for none, or fails, leaves the held xy alone. */
  lemma StepHoldsXy(env: Env, w: World, request: State)
    requires AllOrNothing(env) && Agree(w.cache, w.device) && Plain(request)
    ensures var s := Transact(env, w, request);
            && Agree(s.world.cache, s.world.device)
            && if s.outcome == Done(true) && Xy in request
               then Xy in s.world.device && Close(s.world.device[Xy], request[Xy])
               else (Xy in s.world.device <==> Xy in w.device)
                    && (Xy in w.device ==> s.world.device[Xy] == w.device[Xy])
  {
    var s := Transact(env, w, request);
    AllOrNothingIsTruthful(env);
    if s.outcome == Done(true) {
      TransactSucceeds(env, w, request);
      AgreedXyIsHeld(Fetched(env, w), w.device, s.world.cache, s.world.device, request);
    } else {
      FailureChangesNothing(env, w, request);
    }
  }

  lemma AllOrNothingIsTruthful(env: Env)
    requires AllOrNothing(env)
    ensures Truthful(env)
  {
    forall n: nat, r: State | OutcomeOf(env.path, r, env.answers(n, r)) == Done(true)
      ensures env.answers(n, r).applied
    {
    }
  }

  lemma AgreedXyIsHeld(cache: State, device: State, after: State, afterDevice: State, request: State)
    requires Agree(cache, device) && Agree(after, afterDevice) && Typed(request)
    requires after == Written(cache, Prepared(Some(cache), request, true))
    ensures if Xy in request then Xy in afterDevice && Close(afterDevice[Xy], request[Xy])
            else (Xy in afterDevice <==> Xy in device) && (Xy in device ==> afterDevice[Xy] == device[Xy])
  {
    WrittenHoldsXy(cache, request);
  }

  lemma FailureChangesNothing(env: Env, w: World, request: State)
    requires AllOrNothing(env) && Agree(w.cache, w.device) && Typed(request)
    requires Transact(env, w, request).outcome != Done(true)
    ensures var s := Transact(env, w, request);
            s.world.device == w.device && Agree(s.world.cache, s.world.device)
  {
    SelfAgrees(w.device);
    var r := Prepared(Some(Fetched(env, w)), request, true);
    if Read(env, w).outcome != Thrown && Sends(r) {
      var a := env.answers(|w.sent|, r);
      assert OutcomeOf(env.path, r, a) == Done(true) <==> a.applied;
    }
  }

  lemma SelfAgrees(device: State)
    requires Typed(device) && ColorMode in device
    ensures Agree(device, device)
  {
    assert device == device[ColorMode := device[ColorMode]];
  }

  lemma SyncedAgrees(w: World)
    requires Synced(w)
    ensures Agree(w.cache, w.device)
  {
    SelfAgrees(w.device);
  }

  lemma StepKeepsWanted(env: Env, w: World, request: State, wanted: Value)
    requires AllOrNothing(env) && Agree(w.cache, w.device) && Plain(request) && HoldsXy(w.device, wanted)
    ensures var s := Transact(env, w, request);
            Agree(s.world.cache, s.world.device)
            && HoldsXy(s.world.device, NowWanted(s.outcome, request, wanted))
  {
    StepHoldsXy(env, w, request);
  }

  predicate AllPlain(requests: seq<State>) {
    AllTyped(requests) && forall i | 0 <= i < |requests| :: Plain(requests[i])
  }

  /** Over any run of commits, in any colour modes, whatever succeeds, fails or is refreshed: cached state and light
      are equal on all keys but the mode, and the xy the light holds is within the tolerance of the last xy that was
      set, however many requests were trimmed in between: errors do not add up. */
  lemma {:induction false} RunsAgree(env: Env, w: World, requests: seq<State>, wanted: Value)
    requires AllOrNothing(env) && Agree(w.cache, w.device) && AllPlain(requests)
    requires HoldsXy(w.device, wanted)
    ensures Agree(Run(env, w, requests).cache, Run(env, w, requests).device)
    ensures HoldsXy(Run(env, w, requests).device, LastWanted(env, w, requests, wanted))
    decreases |requests|
  {
    if requests == [] {
    } else {
      var s := Transact(env, w, requests[0]);
      StepKeepsWanted(env, w, requests[0], wanted);
      RunsAgree(env, s.world, requests[1..], NowWanted(s.outcome, requests[0], wanted));
    }
  }

  /** Over any run of commits that stay in the colour mode cached at the start, whatever succeeds, fails or is
      refreshed, cached state and light are equal, mode included; and the xy bound holds as above. */
  lemma {:induction false} RunsStaySynced(env: Env, w: World, requests: seq<State>, wanted: Value)
    requires AllOrNothing(env) && Synced(w)
    requires AllWithinMode(CachedMode(w.cache), requests)
    requires HoldsXy(w.device, wanted)
    ensures Synced(Run(env, w, requests))
    ensures CachedMode(Run(env, w, requests).device) == CachedMode(w.device)
    ensures HoldsXy(Run(env, w, requests).device, LastWanted(env, w, requests, wanted))
    decreases |requests|
  {
    if requests == [] {
    } else {
      var s := Transact(env, w, requests[0]);
      StepStaysSynced(env, w, requests[0]);
      SyncedAgrees(w);
      StepKeepsWanted(env, w, requests[0], wanted);
      RunsStaySynced(env, s.world, requests[1..], NowWanted(s.outcome, requests[0], wanted));
    }
  }
}
