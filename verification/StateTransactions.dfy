/** Transactions on the state of a light or group (src/StateTransaction.cpp). */
module StateTransactions {
  import opened Wrappers
  import opened Colors
  import opened Numbers
  import opened LightState
  import opened PutReply
  import opened HueBridge

  // --- The request that commit sends ---

  function OnOr(s: State, default: bool): bool
    requires Typed(s)
  {
    if On in s then s[On].flag else default
  }

  function BriOr(s: State, default: int): int
    requires Typed(s)
  {
    if Bri in s then s[Bri].n else default
  }

  /** The request changes what the light looks like when it is on. */
  predicate ChangesLight(request: State) {
    Bri in request || Effect in request || Hue in request || Sat in request || Xy in request || Ct in request
  }

  function InferOn(cache: State, request: State): (r: State)
    requires Typed(cache) && Typed(request)
    ensures Typed(r)
  {
    if On in request then request
    else if !OnOr(cache, false) && BriOr(request, 254) != 0 && ChangesLight(request) then request[On := Flag(true)]
    else if BriOr(request, 254) == 0 && OnOr(cache, true) then request[On := Flag(false)]
    else request
  }

  function CachedMode(cache: State): Mode
    requires Typed(cache)
  {
    if ColorMode in cache then cache[ColorMode].mode else OtherMode("")
  }

  /** The cached state already has this value, and shows it. */
  predicate Redundant(cache: State, k: Key, v: Value)
    requires Typed(cache)
  {
    if IsColour(k) then
      k in cache && CachedMode(cache) == KeyMode(k) && (if v.Pair? then Close(cache[k], v) else cache[k] == v)
    else
      (k == On || k == Bri || k == Effect) && k in cache && cache[k] == v
  }

  function Trim(cache: State, request: State): State
    requires Typed(cache)
  {
    map k | k in request && !Redundant(cache, k, request[k]) :: request[k]
  }

  /** The request as it stands when commit decides whether to send it. A group has no cached state. */
  function Prepared(cache: Option<State>, request: State, trim: bool): (r: State)
    requires (cache.Some? ==> Typed(cache.value)) && Typed(request)
    ensures Typed(r)
  {
    match cache
    case None => InferOn(map[], request)
    case Some(c) => if trim then Trim(c, InferOn(c, request)) else InferOn(c, request)
  }

  /** An empty request, or one with only a transition time, is not sent. */
  predicate Sends(request: State) {
    request.Keys != {} && request.Keys != {TransitionTime}
  }

  // --- The values that requests may have ---

  /** The range of the values that a key can be set to. It is the documented one, except that hue and temperature
      increments of 65535 in either direction, which the documentation allows, are not in it. */
  predicate AllowedValue(k: Key, v: Value) {
    TypeFits(k, v) &&
    match k
    case On => true
    case Bri | Sat => 0 <= v.n <= 254
    case Hue | TransitionTime => 0 <= v.n <= 65535
    case Ct => 153 <= v.n <= 500
    case Xy => 0.0 <= v.x <= 1.0 && 0.0 <= v.y <= 1.0
    case Effect => v.text == "colorloop" || v.text == "none"
    case Alert => v.text == "select" || v.text == "lselect" || v.text == "none"
    case BriInc | SatInc => -254 <= v.n <= 254
    case HueInc | CtInc => -65534 <= v.n <= 65534
    case XyInc => -0.5 <= v.x <= 0.5 && -0.5 <= v.y <= 0.5
    case ColorMode => false
  }

  predicate Allowed(request: State) {
    forall k | k in request :: AllowedValue(k, request[k])
  }

  /** Inferring and trimming keep a request within the allowed ranges. */
  lemma PreparedIsAllowed(cache: Option<State>, request: State, trim: bool)
    requires (cache.Some? ==> Typed(cache.value)) && Typed(request) && Allowed(request)
    ensures Allowed(Prepared(cache, request, trim))
  {
    var known: State := if cache.Some? then cache.value else map[];
    assert Allowed(InferOn(known, request)) by { assert AllowedValue(On, Flag(true)) && AllowedValue(On, Flag(false)); }
  }

  // --- What a commit does ---

  datatype Outcome = Done(success: bool) | Thrown

  ghost function OutcomeOf(path: string, request: State, a: Answer): Outcome
    requires path != ""
  {
    match a
    case Throws(_) => Thrown
    case Replies(_, reply) =>
      match ReplyVerdict(path, Wire(request), reply)
      case Accepted => Done(true)
      case Refused => Done(false)
      case TypeError => Thrown
  }

  function Written(cache: State, request: State): State {
    cache + (request - {TransitionTime})
  }

  /** Effects of sending a prepared request: on the light, on the record of requests, and on the caller. */
  datatype Exchange = Exchange(device: State, sent: seq<Sent>, outcome: Outcome)

  ghost function Deliver(answers: Answers, path: string, device: State, sent: seq<Sent>, request: State): Exchange
    requires path != ""
  {
    if !Sends(request) then Exchange(device, sent, Done(true))
    else
      var a := answers(|sent|, request);
      Exchange(if a.applied then Execute(device, request) else device, sent + [Sent(request, device)],
               OutcomeOf(path, request, a))
  }

  /** The cached state after a commit of the prepared request. */
  function Cached(cache: State, request: State, outcome: Outcome): (after: State)
    ensures Typed(cache) && Typed(request) ==> Typed(after)
  {
    if outcome == Done(true) then Written(cache, request) else cache
  }

  /** The part of a cached JSON document that a transaction points to. */
  class StateCell {
    var json: State

    constructor (json: State)
      ensures this.json == json
    {
      this.json := json;
    }
  }

  class StateTransaction {
    const path: string
    const state: StateCell?
    var request: State

    constructor (path: string, currentState: StateCell?)
      ensures this.path == path && state == currentState && request == map[] && Allowed(request)
    {
      this.path, state, request := path, currentState, map[];
    }

    ghost function Snapshot(): Option<State>
      reads this, state
    {
      if state == null then None else Some(state.json)
    }

    ghost predicate Valid()
      reads this, state
    {
      path != "" && Typed(request) && (state != null ==> Typed(state.json))
    }

    method TrimRequest()
      requires Valid()
      modifies this`request
      ensures request == if state == null then old(request) else Trim(state.json, old(request))
    {
      if state == null {
        return;
      }
      var pending := request.Keys;
      while pending != {}
        invariant pending <= old(request).Keys
        invariant request == map k | k in old(request)
                                     && (k in pending || !Redundant(state.json, k, old(request)[k])) :: old(request)[k]
      {
        var k :| k in pending;
        pending := pending - {k};
        if IsColour(k) {
          if k in state.json && CachedMode(state.json) == KeyMode(k) {
            var cached, wanted := state.json[k], request[k];
            if (!wanted.Pair? && cached == wanted)
               || (cached.Pair? && wanted.Pair? && FloatEquals(cached.x, wanted.x) && FloatEquals(cached.y, wanted.y)) {
              request := request - {k};
            }
          }
        } else if k == On || k == Bri || k == Effect {
          if k in state.json && state.json[k] == request[k] {
            request := request - {k};
          }
        }
      }
    }

    method ApplyToState()
      requires state != null
      modifies state
      ensures state.json == Written(old(state.json), request)
    {
      var pending := request.Keys;
      while pending != {}
        invariant pending <= request.Keys
        invariant state.json == Written(old(state.json), request - pending)
      {
        var k :| k in pending;
        pending := pending - {k};
        if k != TransitionTime {
          state.json := state.json[k := request[k]];
        }
      }
    }

    /** First part of commit: decides whether the request also switches the light. */
    method InferOnOff()
      requires Valid()
      modifies this`request
      ensures request == InferOn(if state != null then state.json else map[], old(request))
    {
      var stateJson: State := if state != null then state.json else map[];
      if On !in request {
        if !OnOr(stateJson, false) && BriOr(request, 254) != 0 && ChangesLight(request) {
          request := request[On := Flag(true)];
        } else if BriOr(request, 254) == 0 && OnOr(stateJson, true) {
          request := request[On := Flag(false)];
        }
      }
    }

    /** Last part of commit: the PUT request and the check of its reply. */
    method Send(bridge: Bridge) returns (outcome: Outcome)
      requires path != "" && Sends(request)
      modifies bridge
      ensures Exchange(bridge.device, bridge.sent, outcome)
           == Deliver(bridge.answers, path, old(bridge.device), old(bridge.sent), request)
    {
      var a := bridge.Put(request);
      if a.Throws? {
        return Thrown;
      }
      var verdict := ValidatePutReply(path, Wire(request), a.reply);
      match verdict
      case Accepted => outcome := Done(true);
      case Refused => outcome := Done(false);
      case TypeError => outcome := Thrown;
    }

    method Commit(trimRequest: bool, bridge: Bridge) returns (outcome: Outcome)
      requires Valid()
      modifies this`request, state, bridge
      ensures request == Prepared(old(Snapshot()), old(request), trimRequest)
      ensures Exchange(bridge.device, bridge.sent, outcome)
           == Deliver(bridge.answers, path, old(bridge.device), old(bridge.sent), request)
      ensures state != null ==> state.json == Cached(old(state.json), request, outcome)
      ensures old(Allowed(request)) ==> Allowed(request)
    {
      ghost var cache, asked := Snapshot(), request;
      InferOnOff();
      if trimRequest {
        TrimRequest();
      }
      assert Allowed(asked) ==> Allowed(request) by {
        if Allowed(asked) { PreparedIsAllowed(cache, asked, trimRequest); }
      }
      // An empty request, or one with only a transition time, makes no sense
      if !Sends(request) {
        return Done(true);
      }
      outcome := Send(bridge);
      if outcome == Done(true) && state != null {
        ApplyToState();
      }
    }

    // --- Setters: what they request, and that it stays within the allowed ranges ---

    method SetOn(on: bool)
      modifies this`request
      ensures request == old(request)[On := Flag(on)]
      ensures old(Allowed(request)) ==> Allowed(request)
    {
      request := request[On := Flag(on)];
    }

    method SetBrightness(brightness: Byte)
      modifies this`request
      ensures request == old(request)[Bri := Number(Clamp(0, brightness, 254))]
      ensures old(Allowed(request)) ==> Allowed(request)
    {
      var clamped := if 254 < brightness then 254 else brightness;
      request := request[Bri := Number(clamped)];
    }

    method SetColorSaturation(saturation: Byte)
      modifies this`request
      ensures request == old(request)[Sat := Number(Clamp(0, saturation, 254))]
      ensures old(Allowed(request)) ==> Allowed(request)
    {
      var clamped := if 254 < saturation then 254 else saturation;
      request := request[Sat := Number(clamped)];
    }

    method SetColorHue(hue: Word)
      modifies this`request
      ensures request == old(request)[Hue := Number(hue)]
      ensures old(Allowed(request)) ==> Allowed(request)
    {
      request := request[Hue := Number(hue)];
    }

    method SetColorHueSaturation(hueSat: HueSaturation)
      modifies this`request
      ensures request == old(request) + HueSaturationRequest(hueSat)
      ensures old(Allowed(request)) ==> Allowed(request)
    {
      request := request[Hue := Number(Clamp(0, hueSat.hue, 65535))];
      request := request[Sat := Number(Clamp(0, hueSat.saturation, 254))];
    }

    method SetColorXY(xy: XY)
      modifies this`request
      ensures request == old(request)[Xy := ClampedPair(xy)]
      ensures old(Allowed(request)) ==> Allowed(request)
    {
      var clampedX, clampedY := ClampReal(0.0, xy.x, 1.0), ClampReal(0.0, xy.y, 1.0);
      request := request[Xy := Pair(clampedX, clampedY)];
    }

    method SetColorXYBrightness(xy: XYBrightness)
      modifies this`request
      ensures request == old(request) + XYBrightnessRequest(xy)
      ensures old(Allowed(request)) ==> Allowed(request)
    {
      request := request[Bri := Number(Clamp(0, Round(xy.brightness * 254.0), 254))];
      SetColorXY(xy.xy);
    }

    method SetColorTemperature(mired: nat)
      modifies this`request
      ensures request == old(request)[Ct := Number(Clamp(153, mired, 500))]
      ensures old(Allowed(request)) ==> Allowed(request)
    {
      request := request[Ct := Number(Clamp(153, mired, 500))];
    }

    method SetColorLoop(on: bool)
      modifies this`request
      ensures request == old(request)[Effect := Text(if on then "colorloop" else "none")]
      ensures old(Allowed(request)) ==> Allowed(request)
    {
      request := request[Effect := Text(if on then "colorloop" else "none")];
    }

    method SetTransition(transition: Word)
      modifies this`request
      ensures request == if transition != 4 then old(request)[TransitionTime := Number(transition)] else old(request)
      ensures old(Allowed(request)) ==> Allowed(request)
    {
      if transition != 4 {
        request := request[TransitionTime := Number(transition)];
      }
    }

    method SetAlert()
      modifies this`request
      ensures request == old(request)[Alert := Text("select")]
      ensures old(Allowed(request)) ==> Allowed(request)
    {
      request := request[Alert := Text("select")];
    }

    method LongAlert()
      modifies this`request
      ensures request == old(request)[Alert := Text("lselect")]
      ensures old(Allowed(request)) ==> Allowed(request)
    {
      request := request[Alert := Text("lselect")];
    }

    method StopAlert()
      modifies this`request
      ensures request == old(request)[Alert := Text("none")]
      ensures old(Allowed(request)) ==> Allowed(request)
    {
      request := request[Alert := Text("none")];
    }

    method IncrementBrightness(increment: int)
      modifies this`request
      ensures request == old(request)[BriInc := Number(Clamp(-254, increment, 254))]
      ensures old(Allowed(request)) ==> Allowed(request)
    {
      request := request[BriInc := Number(Clamp(-254, increment, 254))];
    }

    method IncrementSaturation(increment: int)
      modifies this`request
      ensures request == old(request)[SatInc := Number(Clamp(-254, increment, 254))]
      ensures old(Allowed(request)) ==> Allowed(request)
    {
      request := request[SatInc := Number(Clamp(-254, increment, 254))];
    }

    method IncrementHue(increment: int)
      modifies this`request
      ensures request == old(request)[HueInc := Number(Clamp(-65534, increment, 65534))]
      ensures request[HueInc] == Number(increment) <==> -65534 <= increment <= 65534
      ensures old(Allowed(request)) ==> Allowed(request)
    {
      request := request[HueInc := Number(Clamp(-65534, increment, 65534))];
    }

    method IncrementColorTemperature(increment: int)
      modifies this`request
      ensures request == old(request)[CtInc := Number(Clamp(-65534, increment, 65534))]
      ensures request[CtInc] == Number(increment) <==> -65534 <= increment <= 65534
      ensures old(Allowed(request)) ==> Allowed(request)
    {
      request := request[CtInc := Number(Clamp(-65534, increment, 65534))];
    }

    method IncrementColorXY(xInc: real, yInc: real)
      modifies this`request
      ensures request == old(request)[XyInc := Pair(ClampReal(-0.5, xInc, 0.5), ClampReal(-0.5, yInc, 0.5))]
      ensures old(Allowed(request)) ==> Allowed(request)
    {
      request := request[XyInc := Pair(ClampReal(-0.5, xInc, 0.5), ClampReal(-0.5, yInc, 0.5))];
    }
  }

  function ClampedPair(xy: XY): Value {
    Pair(ClampReal(0.0, xy.x, 1.0), ClampReal(0.0, xy.y, 1.0))
  }

  function HueSaturationRequest(hueSat: HueSaturation): (r: State)
    ensures Typed(r)
  {
    map[Hue := Number(Clamp(0, hueSat.hue, 65535)), Sat := Number(Clamp(0, hueSat.saturation, 254))]
  }

  function XYBrightnessRequest(xy: XYBrightness): (r: State)
    ensures Typed(r)
  {
    map[Bri := Number(Clamp(0, Round(xy.brightness * 254.0), 254)), Xy := ClampedPair(xy.xy)]
  }

  function CtRequest(mired: nat): (r: State)
    ensures Typed(r)
  {
    map[Ct := Number(Clamp(153, mired, 500))]
  }
}
