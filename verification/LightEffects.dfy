/** What a light looks like after the functions that set it, in numbers of the API. */
module LightEffects {
  import opened Wrappers
  import opened Numbers
  import opened Colors
  import opened LightState
  import opened HueBridge
  import opened StateTransactions
  import opened TransactionLaws
  import opened Lights
  import opened CacheAgreement
  import opened AlertStrategies
  import opened AlertRestoration
  import opened CommitJudgement

  // --- What the light looks like ---

  /** n is x, or the limit that x exceeds. */
  predicate Limited(n: int, x: int, low: int, high: int) {
    if x < low then n == low else if x > high then n == high else n == x
  }

  /** c is within 0.0001 of x, or of the limit that x exceeds. */
  predicate NearLimited(c: real, x: real) {
    && (x < 0.0 ==> c <= 0.0001)
    && (x > 1.0 ==> c >= 0.9999)
    && (0.0 <= x <= 1.0 ==> -0.0001 <= c - x <= 0.0001)
  }

  predicate LooksHueSaturation(s: State, hueSat: HueSaturation) {
    && ColorMode in s && s[ColorMode] == ModeName(HsMode)
    && Hue in s && s[Hue].Number? && Limited(s[Hue].n, hueSat.hue, 0, 65535)
    && Sat in s && s[Sat].Number? && Limited(s[Sat].n, hueSat.saturation, 0, 254)
    && On in s && s[On] == Flag(true)
  }

  predicate LooksXY(s: State, xy: XYBrightness) {
    && ColorMode in s && s[ColorMode] == ModeName(XyMode)
    && Xy in s && s[Xy].Pair? && NearLimited(s[Xy].x, xy.xy.x) && NearLimited(s[Xy].y, xy.xy.y)
    && Bri in s && s[Bri].Number? && IsBrightness(s[Bri].n, xy.brightness)
    && On in s && s[On] == Flag(s[Bri].n != 0)
  }

  /** The nearest of 255 steps from 0 to 254. */
  predicate IsBrightness(n: int, brightness: real) {
    && (brightness < 0.0 ==> n == 0)
    && (brightness > 1.0 ==> n == 254)
    && (0.0 <= brightness <= 1.0 ==> -0.5 <= n as real - 254.0 * brightness <= 0.5)
  }

  predicate LooksTemperature(s: State, mired: nat) {
    && ColorMode in s && s[ColorMode] == ModeName(CtMode)
    && Ct in s && s[Ct].Number? && Limited(s[Ct].n, mired, 153, 500)
    && On in s && s[On] == Flag(true)
  }

  // --- Requests for a colour ---

  /** The light shows what the request asks for, xy within the tolerance, and is on unless its brightness is zero. */
  predicate ShowsChange(d: State, change: State, mode: Mode)
    requires Typed(change)
  {
    && ColorMode in d && d[ColorMode] == ModeName(mode)
    && (forall k | k in change :: k in d && Indistinguishable(k, d[k], change[k]))
    && On in d && d[On] == Flag(BriOr(change, 254) != 0)
  }

  lemma FullChange(d: State, change: State, mode: Mode, t: Word) returns (full: State)
    requires Readable(d) && Shows(change, mode)
    ensures full == InferOn(d, change + TransitionRequest(t)) && Typed(full)
    ensures full.Keys <= change.Keys + {On, TransitionTime}
    ensures forall k | k in change :: k in full && full[k] == change[k]
  {
    full := InferOn(d, change + TransitionRequest(t));
  }

  lemma FullChangeIsPlain(full: State, change: State, mode: Mode)
    requires Shows(change, mode) && Typed(full) && full.Keys <= change.Keys + {On, TransitionTime}
    ensures Plain(full) && OneMode(full)
  {
  }

  lemma FullChangeSwitches(d: State, change: State, mode: Mode, t: Word)
    requires Readable(d) && Shows(change, mode)
    ensures var after := Execute(d, InferOn(d, change + TransitionRequest(t)));
            On in after && after[On] == Flag(BriOr(change, 254) != 0)
  {
    var request := change + TransitionRequest(t);
    assert TypeFits(On, d[On]) && ChangesLight(request) && On !in request;
    assert BriOr(request, 254) == BriOr(change, 254);
    ExecutedAt(d, InferOn(d, request), On);
  }

  lemma FullChangeIsShown(d: State, change: State, mode: Mode, t: Word)
    requires Readable(d) && Shows(change, mode)
    ensures ShowsChange(Execute(d, InferOn(d, change + TransitionRequest(t))), change, mode)
  {
    var full := FullChange(d, change, mode, t);
    var k := if Xy in change then Xy else if Ct in change then Ct else if Hue in change then Hue else Sat;
    assert k in change && KeyMode(k) == mode;
    ModeIsDominant(full, change, mode);
    FullChangeSwitches(d, change, mode, t);
    forall k | k in change
      ensures k in Execute(d, full) && Execute(d, full)[k] == change[k]
    {
      ExecutedAt(d, full, k);
    }
  }

  /** Also when the request is trimmed against what the light shows. */
  lemma TrimmedChangeIsShown(d: State, change: State, mode: Mode, t: Word)
    requires Readable(d) && Shows(change, mode)
    ensures ShowsChange(Execute(d, Prepared(Some(d), change + TransitionRequest(t), true)), change, mode)
  {
    var full := FullChange(d, change, mode, t);
    FullChangeIsPlain(full, change, mode);
    FullChangeIsShown(d, change, mode, t);
    OneModeIsSafe(d, full);
    TrimPreservesEffect(d, full);
    var shown, wanted := Execute(d, Trim(d, full)), Execute(d, full);
    assert Alike(shown, wanted);
    assert Indistinguishable(ColorMode, shown[ColorMode], wanted[ColorMode]);
    assert Indistinguishable(On, shown[On], wanted[On]);
    forall k | k in change
      ensures k in shown && Indistinguishable(k, shown[k], change[k])
    {
      assert Indistinguishable(k, shown[k], wanted[k]);
    }
  }

  lemma HueSaturationIsShown(d: State, hueSat: HueSaturation)
    requires ShowsChange(d, HueSaturationRequest(hueSat), HsMode)
    ensures LooksHueSaturation(d, hueSat)
  {
    var change := HueSaturationRequest(hueSat);
    assert Hue in change && Sat in change;
  }

  lemma XYIsShown(d: State, xy: XYBrightness)
    requires ShowsChange(d, XYBrightnessRequest(xy), XyMode)
    ensures LooksXY(d, xy)
  {
    var change := XYBrightnessRequest(xy);
    assert Xy in change && Bri in change;
  }

  lemma TemperatureIsShown(d: State, mired: nat)
    requires ShowsChange(d, CtRequest(mired), CtMode)
    ensures LooksTemperature(d, mired)
  {
    assert Ct in CtRequest(mired);
  }

  // --- The functions that set a light ---

  lemma ColourIsPlain(change: State, mode: Mode, t: Word)
    requires Shows(change, mode)
    ensures Plain(change + TransitionRequest(t))
  {
  }

  /** A successful commit of a request for a colour, started with an up-to-date cached state: the light shows it. */
  lemma ChangeIsShown(env: Env, w: World, change: State, mode: Mode, t: Word)
    requires Truthful(env) && Synced(w) && Readable(w.cache) && Shows(change, mode)
    requires Transact(env, w, change + TransitionRequest(t)).outcome == Done(true)
    ensures ShowsChange(Transact(env, w, change + TransitionRequest(t)).world.device, change, mode)
  {
    ColourIsPlain(change, mode, t);
    SyncedAgrees(w);
    TransactSucceeds(env, w, change + TransitionRequest(t));
    TrimmedChangeIsShown(w.device, change, mode, t);
  }

  /** The world is up to date, and the commit of the request with this transition succeeds. */
  ghost predicate Sets(env: Env, w: World, change: State, t: Word)
    requires Typed(change)
  {
    Truthful(env) && Synced(w) && Readable(w.cache)
    && Transact(env, w, change + TransitionRequest(t)).outcome == Done(true)
  }

  lemma HueSaturationIsSet(env: Env, w: World, hueSat: HueSaturation, t: Word)
    requires Sets(env, w, HueSaturationRequest(hueSat), t)
    ensures var s := Transact(env, w, HueSaturationRequest(hueSat) + TransitionRequest(t));
            LooksHueSaturation(s.world.device, hueSat)
  {
    ChangeIsShown(env, w, HueSaturationRequest(hueSat), HsMode, t);
    HueSaturationIsShown(Transact(env, w, HueSaturationRequest(hueSat) + TransitionRequest(t)).world.device, hueSat);
  }

  lemma XYIsSet(env: Env, w: World, xy: XYBrightness, t: Word)
    requires Sets(env, w, XYBrightnessRequest(xy), t)
    ensures LooksXY(Transact(env, w, XYBrightnessRequest(xy) + TransitionRequest(t)).world.device, xy)
  {
    ChangeIsShown(env, w, XYBrightnessRequest(xy), XyMode, t);
    XYIsShown(Transact(env, w, XYBrightnessRequest(xy) + TransitionRequest(t)).world.device, xy);
  }

  lemma TemperatureIsSet(env: Env, w: World, mired: nat, t: Word)
    requires Sets(env, w, CtRequest(mired), t)
    ensures LooksTemperature(Transact(env, w, CtRequest(mired) + TransitionRequest(t)).world.device, mired)
  {
    ChangeIsShown(env, w, CtRequest(mired), CtMode, t);
    TemperatureIsShown(Transact(env, w, CtRequest(mired) + TransitionRequest(t)).world.device, mired);
  }

  lemma HueIsSet(env: Env, w: World, hue: Word, t: Word)
    requires Sets(env, w, HueRequest(hue), t)
    ensures var d := Transact(env, w, HueRequest(hue) + TransitionRequest(t)).world.device;
            ColorMode in d && d[ColorMode] == ModeName(HsMode) && Hue in d && d[Hue] == Number(hue)
            && On in d && d[On] == Flag(true)
  {
    ChangeIsShown(env, w, HueRequest(hue), HsMode, t);
    assert Hue in HueRequest(hue);
  }

  lemma SaturationIsSet(env: Env, w: World, saturation: Byte, t: Word)
    requires Sets(env, w, SaturationRequest(saturation), t)
    ensures var d := Transact(env, w, SaturationRequest(saturation) + TransitionRequest(t)).world.device;
            ColorMode in d && d[ColorMode] == ModeName(HsMode)
            && Sat in d && d[Sat] == Number(if saturation == 255 then 254 else saturation)
            && On in d && d[On] == Flag(true)
  {
    ChangeIsShown(env, w, SaturationRequest(saturation), HsMode, t);
    assert Sat in SaturationRequest(saturation);
  }

  /** Values other than colours: after success the light holds them. */
  lemma LoopIsSet(env: Env, w: World, on: bool)
    requires Truthful(env) && Agree(w.cache, w.device) && Transact(env, w, LoopRequest(on)).outcome == Done(true)
    ensures var d := Transact(env, w, LoopRequest(on)).world.device;
            Effect in d && d[Effect] == Text(if on then "colorloop" else "none")
  {
    LoopIsPlain(on);
    TransactSucceeds(env, w, LoopRequest(on));
    var after := Transact(env, w, LoopRequest(on)).world;
    EffectIsHeld(Fetched(env, w), LoopRequest(on), after.cache, after.device);
  }

  lemma LoopIsPlain(on: bool)
    ensures Plain(LoopRequest(on)) && Effect in LoopRequest(on)
  {
  }

  lemma EffectIsHeld(cache: State, request: State, after: State, device: State)
    requires Typed(cache) && Typed(request) && Effect in request && Agree(after, device)
    requires after == Written(cache, Prepared(Some(cache), request, true))
    ensures Effect in device && device[Effect] == request[Effect]
  {
    HeldInCache(cache, request, Effect);
  }

  lemma HeldInCache(cache: State, request: State, k: Key)
    requires Typed(cache) && Typed(request) && k in request && (k == Effect || k == Bri)
    ensures var after := Written(cache, Prepared(Some(cache), request, true)); k in after && after[k] == request[k]
  {
    var r := Prepared(Some(cache), request, true);
    if k !in r {
      assert Redundant(cache, k, InferOn(cache, request)[k]);
    }
  }

  /** The transition goes out with the request, unless it is the default of 4. */
  lemma TransitionIsSent(env: Env, w: World, change: State, t: Word)
    requires env.path != "" && TypedWorld(w) && Typed(change) && TransitionTime !in change
    ensures var sent := Transact(env, w, change + TransitionRequest(t)).world.sent;
            sent == w.sent
            || (|sent| == |w.sent| + 1 && sent[..|w.sent|] == w.sent
                && var r := sent[|w.sent|].request;
                   if t == 4 then TransitionTime !in r
                   else TransitionTime in r && r[TransitionTime] == Number(t))
  {
    var request, cache := change + TransitionRequest(t), Fetched(env, w);
    assert TransitionTime in InferOn(cache, request) <==> t != 4;
    assert t != 4 ==> InferOn(cache, request)[TransitionTime] == Number(t);
  }
}
