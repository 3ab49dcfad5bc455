/** The six alert functions: exactly when they put the light back, and what happens otherwise. */
module AlertGuarantees {
  import opened Wrappers
  import opened Colors
  import opened LightState
  import opened PutReply
  import opened HueBridge
  import opened StateTransactions
  import opened Lights
  import opened CacheAgreement
  import opened AlertStrategies
  import opened AlertRestoration

  /** A light with in-range values, a bridge whose acknowledgements are true, and a cached state that is up to date
      when the alert has read it: it was so before, or that read fetches it anew. */
  ghost predicate Ready(env: Env, w: World) {
    Truthful(env) && ReadableWorld(w) && InRange(w.device) && Synced(Read(env, w).world)
  }

  lemma HueSaturationShows(hueSat: HueSaturation)
    ensures Shows(HueSaturationRequest(hueSat), HsMode) && Bri !in HueSaturationRequest(hueSat)
  {
  }

  lemma XYShows(xy: XYBrightness)
    ensures Shows(XYBrightnessRequest(xy), XyMode)
  {
  }

  lemma CtShows(mired: nat)
    ensures Shows(CtRequest(mired), CtMode) && Bri !in CtRequest(mired)
  {
  }

  lemma ReadKeepsReady(env: Env, w: World)
    requires Ready(env, w)
    ensures Ready(env, Read(env, w).world) && Synced(Read(env, w).world) && Read(env, w).world.cache == w.device
    ensures Read(env, w).world.device == w.device && Read(env, w).world.lookups == w.lookups + 1
  {
  }

  /** With `mode` the mode of the alert colour, and `first` the read that the colour-setting commit makes: */
  ghost predicate RestoredExactlyWhen(env: Env, w: World, s: Step, mode: Mode, first: nat)
    requires Readable(w.device)
  {
    Restored(w.device, s.world.device) <==>
    (CachedMode(w.device) == mode || Reloads(env, first + 1) || Reloads(env, first + 2))
  }

  lemma SimpleHueSaturationRestores(env: Env, w: World, hueSat: HueSaturation)
    requires Ready(env, w) && SimpleHueSaturation(env, w, hueSat).outcome == Done(true)
    ensures RestoredExactlyWhen(env, w, SimpleHueSaturation(env, w, hueSat), HsMode, w.lookups + 1)
  {
    ReadKeepsReady(env, w);
    var r, change := Read(env, w).world, HueSaturationRequest(hueSat);
    HueSaturationShows(hueSat);
    if CachedMode(w.device) == HsMode {
      HsIsCaptured(w.device, change, false);
      ProtocolRestoresIff(env, r, change, HsMode, SavedHs(w.device, false));
    } else {
      XyIsCaptured(w.device, change);
      ProtocolRestoresIff(env, r, change, HsMode, SavedXy(w.device));
    }
  }

  lemma SimpleXYRestores(env: Env, w: World, xy: XYBrightness)
    requires Ready(env, w) && SimpleXY(env, w, xy).outcome == Done(true)
    ensures RestoredExactlyWhen(env, w, SimpleXY(env, w, xy), XyMode, w.lookups + 1)
  {
    ReadKeepsReady(env, w);
    var r, change := Read(env, w).world, XYBrightnessRequest(xy);
    XYShows(xy);
    if CachedMode(w.device) == HsMode {
      HsIsCaptured(w.device, change, true);
      ProtocolRestoresIff(env, r, change, XyMode, SavedHs(w.device, true));
    } else {
      XyIsCaptured(w.device, change);
      ProtocolRestoresIff(env, r, change, XyMode, SavedXy(w.device));
    }
  }

  /** A light with colour temperature only always comes back. */
  lemma SimpleTemperatureRestores(env: Env, w: World, mired: nat)
    requires Ready(env, w) && SimpleTemperature(env, w, mired).outcome == Done(true)
    ensures Restored(w.device, SimpleTemperature(env, w, mired).world.device)
  {
    ReadKeepsReady(env, w);
    CtShows(mired);
    CtIsCaptured(w.device, CtRequest(mired), false);
    ProtocolRestoresIff(env, Read(env, w).world, CtRequest(mired), CtMode, SavedCt(w.device, false));
  }

  lemma ExtendedHueSaturationRestores(env: Env, w: World, hueSat: HueSaturation)
    requires Ready(env, w) && ExtendedHueSaturation(env, w, hueSat).outcome == Done(true)
    ensures RestoredExactlyWhen(env, w, ExtendedHueSaturation(env, w, hueSat), HsMode,
                                w.lookups + if CachedMode(w.device) == CtMode then 1 else 2)
  {
    ReadKeepsReady(env, w);
    var r, change := Read(env, w).world, HueSaturationRequest(hueSat);
    HueSaturationShows(hueSat);
    if CachedMode(w.device) == CtMode {
      CtIsCaptured(w.device, change, false);
      ProtocolRestoresIff(env, r, change, HsMode, SavedCt(w.device, false));
    } else {
      SimpleHueSaturationRestores(env, r, hueSat);
    }
  }

  lemma ExtendedXYRestores(env: Env, w: World, xy: XYBrightness)
    requires Ready(env, w) && ExtendedXY(env, w, xy).outcome == Done(true)
    ensures RestoredExactlyWhen(env, w, ExtendedXY(env, w, xy), XyMode,
                                w.lookups + if CachedMode(w.device) == CtMode then 1 else 2)
  {
    ReadKeepsReady(env, w);
    var r, change := Read(env, w).world, XYBrightnessRequest(xy);
    XYShows(xy);
    if CachedMode(w.device) == CtMode {
      CtIsCaptured(w.device, change, true);
      ProtocolRestoresIff(env, r, change, XyMode, SavedCt(w.device, true));
    } else {
      SimpleXYRestores(env, r, xy);
    }
  }

  lemma ExtendedTemperatureRestores(env: Env, w: World, mired: nat)
    requires Ready(env, w) && ExtendedTemperature(env, w, mired).outcome == Done(true)
    ensures RestoredExactlyWhen(env, w, ExtendedTemperature(env, w, mired), CtMode, w.lookups + 1)
  {
    ReadKeepsReady(env, w);
    var r, change := Read(env, w).world, CtRequest(mired);
    CtShows(mired);
    match CachedMode(w.device)
    case CtMode =>
      SimpleTemperatureRestores(env, r, mired);
    case HsMode =>
      HsIsCaptured(w.device, change, false);
      ProtocolRestoresIff(env, r, change, CtMode, SavedHs(w.device, false));
    case XyMode =>
      XyIsCaptured(w.device, change);
      ProtocolRestoresIff(env, r, change, CtMode, SavedXy(w.device));
    case OtherMode(_) =>
  }

  // --- The failing runs happen, on a bridge that does everything right ---

  const KEYS: seq<Key> := [Alert, Bri, BriInc, ColorMode, Ct, CtInc, Effect, Hue, HueInc, On, Sat, SatInc,
                           TransitionTime, Xy, XyInc]

  /** One success entry for each key, in the order of the keys. */
  function Echo(path: string, request: State, keys: seq<Key>): Reply
    requires path != ""
  {
    if keys == [] then []
    else (if keys[0] in request then [Success([(WithSlash(path) + Name(keys[0]), request[keys[0]])])] else [])
         + Echo(path, request, keys[1..])
  }

  lemma {:induction false} EchoEntries(path: string, request: State, keys: seq<Key>)
    requires path != ""
    ensures forall e | e in Echo(path, request, keys) ::
              exists k :: k in request && e == Success([(WithSlash(path) + Name(k), request[k])])
    ensures (exists k :: k in keys && k in request) ==> Echo(path, request, keys) != []
  {
    if keys != [] {
      EchoEntries(path, request, keys[1..]);
      assert keys == [keys[0]] + keys[1..];
    }
  }

  lemma EveryKeyIsListed(k: Key)
    ensures k in KEYS
  {
    match k
    case Alert => assert KEYS[0] == k;
    case Bri => assert KEYS[1] == k;
    case BriInc => assert KEYS[2] == k;
    case ColorMode => assert KEYS[3] == k;
    case Ct => assert KEYS[4] == k;
    case CtInc => assert KEYS[5] == k;
    case Effect => assert KEYS[6] == k;
    case Hue => assert KEYS[7] == k;
    case HueInc => assert KEYS[8] == k;
    case On => assert KEYS[9] == k;
    case Sat => assert KEYS[10] == k;
    case SatInc => assert KEYS[11] == k;
    case TransitionTime => assert KEYS[12] == k;
    case Xy => assert KEYS[13] == k;
    case XyInc => assert KEYS[14] == k;
  }

  /** The echo of a nonempty request is accepted. */
  lemma EchoSucceeds(path: string, request: State)
    requires path != "" && Typed(request) && request.Keys != {}
    ensures OutcomeOf(path, request, Replies(true, Echo(path, request, KEYS))) == Done(true)
  {
    var k :| k in request;
    EveryKeyIsListed(k);
    EchoEntries(path, request, KEYS);
    var reply, wire := Echo(path, request, KEYS), Wire(request);
    if "xy" in wire {
      var xy :| xy in request && Name(xy) == "xy";
      NamesAreDistinct(xy, Xy);
      assert TypeFits(Xy, request[Xy]);
      assert wire[Name(Xy)] == request[Xy];
    }
    forall e | e in reply
      ensures e.Success? && |e.fields| == 1 && WithSlash(path) <= e.fields[0].0
      ensures var key := e.fields[0].0[|WithSlash(path)|..]; key in wire && e.fields[0].1 == wire[key]
    {
      var j :| j in request && e == Success([(WithSlash(path) + Name(j), request[j])]);
      assert e.fields[0].0[|WithSlash(path)|..] == Name(j);
    }
    EchoIsAccepted(path, wire, reply);
  }

  /** A bridge that carries out and echoes every request it can understand, and closes the connection on others. */
  function EchoingBridge(path: string): Answers
    requires path != ""
  {
    (n: nat, r: State) => if Typed(r) && r.Keys != {} then Replies(true, Echo(path, r, KEYS)) else Throws(false)
  }

  /** It does nothing that it does not acknowledge, whenever the cached state is fetched anew. */
  lemma EchoingIsAllOrNothing(path: string, refreshes: nat -> Refresh)
    requires path != ""
    ensures AllOrNothing(Env(path, EchoingBridge(path), refreshes))
  {
    forall n: nat, r: State
      ensures OutcomeOf(path, r, EchoingBridge(path)(n, r)) == Done(true) <==> EchoingBridge(path)(n, r).applied
    {
      if Typed(r) && r.Keys != {} {
        EchoSucceeds(path, r);
      }
    }
  }

  /** A cached state that is not fetched anew, as with a refresh duration longer than the alert. */
  function Undisturbed(path: string): Env
    requires path != ""
  {
    Env(path, EchoingBridge(path), n => Keep)
  }

  lemma EchoedCommitSucceeds(path: string, w: World, request: State)
    requires path != "" && TypedWorld(w) && Typed(request)
    ensures Transact(Undisturbed(path), w, request).outcome == Done(true)
  {
    var r := Prepared(Some(w.cache), request, true);
    if Sends(r) {
      EchoSucceeds(path, r);
    }
  }

  lemma EchoedProtocolSucceeds(path: string, w: World, change: State, restore: State)
    requires path != "" && TypedWorld(w) && Typed(change) && Typed(restore)
    ensures Protocol(Undisturbed(path), w, change, restore).outcome == Done(true)
  {
    var env := Undisturbed(path);
    EchoedCommitSucceeds(path, w, change + TransitionRequest(1));
    EchoedCommitSucceeds(path, AfterChange(env, w, change), BLINK);
    EchoedCommitSucceeds(path, AfterBlink(env, w, change), restore);
  }

  lemma UndisturbedIsTruthful(path: string)
    requires path != ""
    ensures Truthful(Undisturbed(path))
  {
    EchoingIsAllOrNothing(path, Undisturbed(path).refreshes);
    AllOrNothingIsTruthful(Undisturbed(path));
  }

  lemma UndisturbedNeverReloads(path: string, lookup: nat)
    requires path != ""
    ensures !Reloads(Undisturbed(path), lookup)
  {
  }

  /** An alert in another mode than the light's, on a bridge that does everything right and with no refresh during
      the alert, reports success and leaves the light in the alert colour. */
  lemma EchoedProtocolStrands(path: string, w: World, change: State, mode: Mode, restore: State)
    requires path != "" && Synced(w) && Readable(w.cache) && KnownMode(mode) && Shows(change, mode)
    requires Captures(w.cache, change, restore) && mode != CachedMode(w.cache)
    ensures LeftInAlertColour(Protocol(Undisturbed(path), w, change, restore), change, mode)
  {
    EchoedProtocolSucceeds(path, w, change, restore);
    UndisturbedIsTruthful(path);
    UndisturbedNeverReloads(path, w.lookups + 1);
    UndisturbedNeverReloads(path, w.lookups + 2);
    ProtocolStrands(Undisturbed(path), w, change, mode, restore);
  }

  /** The six lemmas below: this happens to every alert function, with every alert colour of another mode. */
  lemma XYAlertStrandsHsLight(path: string, w: World, xy: XYBrightness)
    requires path != "" && Synced(w) && Readable(w.cache) && InRange(w.cache) && CachedMode(w.cache) == HsMode
    ensures LeftInAlertColour(SimpleXY(Undisturbed(path), w, xy), XYBrightnessRequest(xy), XyMode)
  {
    XYShows(xy);
    HsIsCaptured(w.cache, XYBrightnessRequest(xy), true);
    EchoedProtocolStrands(path, Read(Undisturbed(path), w).world, XYBrightnessRequest(xy), XyMode,
                          SavedHs(w.cache, true));
  }

  lemma TemperatureAlertStrandsHsLight(path: string, w: World, mired: nat)
    requires path != "" && Synced(w) && Readable(w.cache) && InRange(w.cache) && CachedMode(w.cache) == HsMode
    ensures LeftInAlertColour(ExtendedTemperature(Undisturbed(path), w, mired), CtRequest(mired), CtMode)
  {
    CtShows(mired);
    HsIsCaptured(w.cache, CtRequest(mired), false);
    EchoedProtocolStrands(path, Read(Undisturbed(path), w).world, CtRequest(mired), CtMode, SavedHs(w.cache, false));
  }

  lemma HueSaturationAlertStrandsXYLight(path: string, w: World, hueSat: HueSaturation)
    requires path != "" && Synced(w) && Readable(w.cache) && InRange(w.cache) && CachedMode(w.cache) == XyMode
    ensures LeftInAlertColour(SimpleHueSaturation(Undisturbed(path), w, hueSat), HueSaturationRequest(hueSat), HsMode)
  {
    HueSaturationShows(hueSat);
    XyIsCaptured(w.cache, HueSaturationRequest(hueSat));
    EchoedProtocolStrands(path, Read(Undisturbed(path), w).world, HueSaturationRequest(hueSat), HsMode,
                          SavedXy(w.cache));
  }

  lemma TemperatureAlertStrandsXYLight(path: string, w: World, mired: nat)
    requires path != "" && Synced(w) && Readable(w.cache) && InRange(w.cache) && CachedMode(w.cache) == XyMode
    ensures LeftInAlertColour(ExtendedTemperature(Undisturbed(path), w, mired), CtRequest(mired), CtMode)
  {
    CtShows(mired);
    XyIsCaptured(w.cache, CtRequest(mired));
    EchoedProtocolStrands(path, Read(Undisturbed(path), w).world, CtRequest(mired), CtMode, SavedXy(w.cache));
  }

  lemma HueSaturationAlertStrandsCtLight(path: string, w: World, hueSat: HueSaturation)
    requires path != "" && Synced(w) && Readable(w.cache) && InRange(w.cache) && CachedMode(w.cache) == CtMode
    ensures LeftInAlertColour(ExtendedHueSaturation(Undisturbed(path), w, hueSat), HueSaturationRequest(hueSat), HsMode)
  {
    HueSaturationShows(hueSat);
    CtIsCaptured(w.cache, HueSaturationRequest(hueSat), false);
    EchoedProtocolStrands(path, Read(Undisturbed(path), w).world, HueSaturationRequest(hueSat), HsMode,
                          SavedCt(w.cache, false));
  }

  lemma XYAlertStrandsCtLight(path: string, w: World, xy: XYBrightness)
    requires path != "" && Synced(w) && Readable(w.cache) && InRange(w.cache) && CachedMode(w.cache) == CtMode
    ensures LeftInAlertColour(ExtendedXY(Undisturbed(path), w, xy), XYBrightnessRequest(xy), XyMode)
  {
    XYShows(xy);
    CtIsCaptured(w.cache, XYBrightnessRequest(xy), true);
    EchoedProtocolStrands(path, Read(Undisturbed(path), w).world, XYBrightnessRequest(xy), XyMode,
                          SavedCt(w.cache, true));
  }
}
