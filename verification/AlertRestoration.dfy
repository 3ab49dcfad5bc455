/** When an alert that reports success has put the light back as it was. */
module AlertRestoration {
  import opened Wrappers
  import opened Numbers
  import opened LightState
  import opened HueBridge
  import opened StateTransactions
  import opened TransactionLaws
  import opened Lights
  import opened CacheAgreement
  import opened AlertStrategies

  /** The light shows what it showed before: same mode, on flag and brightness, and same colour up to the tolerance. */
  predicate Restored(before: State, after: State)
    requires Readable(before)
  {
    && ColorMode in after && after[ColorMode] == before[ColorMode]
    && On in after && after[On] == before[On]
    && Bri in after && after[Bri] == before[Bri]
    && forall k | IsColour(k) && KeyMode(k) == before[ColorMode].mode && k in before ::
         k in after && Indistinguishable(k, after[k], before[k])
  }

  /** Values that the setters and the fixed-width getters pass on unchanged. */
  predicate InRange(s: State)
    requires Typed(s)
  {
    && (Bri in s ==> 0 <= s[Bri].n <= 254)
    && (Hue in s ==> 0 <= s[Hue].n <= 65535)
    && (Sat in s ==> 0 <= s[Sat].n <= 254)
    && (Ct in s ==> 153 <= s[Ct].n <= 500)
    && (Xy in s ==> 0.0 <= s[Xy].x <= 1.0 && 0.0 <= s[Xy].y <= 1.0)
  }

  predicate KnownMode(mode: Mode) {
    mode == HsMode || mode == XyMode || mode == CtMode
  }

  /** A request that shows a colour of the given mode, perhaps with a brightness. */
  predicate Shows(change: State, mode: Mode) {
    && Typed(change) && HasColour(change) && TransitionTime !in change
    && forall k | k in change :: k == Bri || (IsColour(k) && KeyMode(k) == mode)
  }

  /** A request that asks for everything the alert may have changed, as it is in `saved`. */
  predicate Captures(saved: State, change: State, restore: State)
    requires Readable(saved)
  {
    && Typed(restore) && HasColour(restore) && On in restore
    && (Bri in change ==> Bri in restore)
    && (forall k | k in restore ::
          k in {On, Bri, TransitionTime} || (IsColour(k) && KeyMode(k) == saved[ColorMode].mode))
    && (forall k | k in restore && k != TransitionTime :: k in saved && restore[k] == saved[k])
    && (forall k | IsColour(k) && KeyMode(k) == saved[ColorMode].mode && k in saved :: k in restore)
  }

  // --- Saved values survive the setters ---

  lemma BrightnessRoundTrip(n: int)
    requires 0 <= n <= 254
    ensures Clamp(0, Round(n as real / 254.0 * 254.0), 254) == n
  {
    assert n as real / 254.0 * 254.0 == n as real;
  }

  function ColourKeys(mode: Mode): set<Key> {
    match mode
    case HsMode => {Hue, Sat}
    case XyMode => {Xy}
    case CtMode => {Ct}
    case OtherMode(_) => {}
  }

  lemma PickedIsCaptured(s: State, change: State, withBrightness: bool, r: State)
    requires Readable(s) && KnownMode(CachedMode(s)) && Typed(r) && (Bri in change ==> withBrightness)
    requires r.Keys == ColourKeys(CachedMode(s)) + (if withBrightness then {Bri} else {}) + {On, TransitionTime}
    requires forall k | k in ColourKeys(CachedMode(s)) :: r[k] == s[k]
    requires r[On] == s[On] && (withBrightness ==> r[Bri] == s[Bri])
    ensures Captures(s, change, r)
  {
    assert forall k :: k in ColourKeys(CachedMode(s)) <==> IsColour(k) && KeyMode(k) == CachedMode(s);
    var k := if CachedMode(s) == HsMode then Hue else if CachedMode(s) == XyMode then Xy else Ct;
    assert k in ColourKeys(CachedMode(s));
  }

  lemma HsIsCaptured(s: State, change: State, withBrightness: bool)
    requires Readable(s) && InRange(s) && CachedMode(s) == HsMode && (Bri in change ==> withBrightness)
    ensures Captures(s, change, SavedHs(s, withBrightness))
  {
    var r := SavedHs(s, withBrightness);
    assert TypeFits(Hue, s[Hue]) && TypeFits(Sat, s[Sat]) && TypeFits(On, s[On]) && TypeFits(Bri, s[Bri]);
    PickedIsCaptured(s, change, withBrightness, r);
  }

  lemma XyIsCaptured(s: State, change: State)
    requires Readable(s) && InRange(s) && CachedMode(s) == XyMode
    ensures Captures(s, change, SavedXy(s))
  {
    var r := SavedXy(s);
    assert TypeFits(Xy, s[Xy]) && TypeFits(On, s[On]) && TypeFits(Bri, s[Bri]);
    BrightnessRoundTrip(s[Bri].n);
    PickedIsCaptured(s, change, true, r);
  }

  lemma CtIsCaptured(s: State, change: State, withBrightness: bool)
    requires Readable(s) && InRange(s) && CachedMode(s) == CtMode && (Bri in change ==> withBrightness)
    ensures Captures(s, change, SavedCt(s, withBrightness))
  {
    var r := SavedCt(s, withBrightness);
    assert TypeFits(Ct, s[Ct]) && TypeFits(On, s[On]) && TypeFits(Bri, s[Bri]);
    PickedIsCaptured(s, change, withBrightness, r);
  }

  // --- The steps of the protocol ---

  predicate Reloads(env: Env, lookup: nat) {
    env.refreshes(lookup) == Reload
  }

  /** Before the alert colour is set: cached state and light are the same.  Afterwards: */
  predicate ShowsAlert(saved: State, change: State, mode: Mode, w: World)
    requires Readable(saved)
  {
    && Agree(w.cache, w.device)
    && w.device[ColorMode] == ModeName(mode)
    && (w.cache[ColorMode] == saved[ColorMode] || w.cache == w.device)
    && (forall k | k in saved :: k in w.device)
    && (Bri !in change ==> w.device[Bri] == saved[Bri])
    && (mode != saved[ColorMode].mode ==>
          SavedColoursIn(saved, w.device) && ColoursOf(change, w.device))
  }

  /** The light has the colours that the request asks for. */
  predicate ColoursOf(change: State, device: State) {
    forall k | k in change && IsColour(k) :: k in device && device[k] == change[k]
  }

  predicate SavedColoursIn(saved: State, s: State)
    requires Readable(saved)
  {
    forall k | IsColour(k) && KeyMode(k) == saved[ColorMode].mode && k in saved :: k in s && s[k] == saved[k]
  }

  /** The keys of a request that switches the light or shows a colour of the given mode. */
  predicate OnlyShows(r: State, change: State, mode: Mode) {
    forall k | k in r :: k in {On, TransitionTime} || (k == Bri && Bri in change) || (IsColour(k) && KeyMode(k) == mode)
  }

  lemma ModeIsDominant(r: State, change: State, mode: Mode)
    requires OnlyShows(r, change, mode) && HasColour(r)
    ensures Dominant(r) == mode
  {
    var k := if Xy in r then Xy else if Ct in r then Ct else if Hue in r then Hue else Sat;
    assert k in r && KeyMode(k) == mode;
  }

  /** Nothing of a mode other than the cached one is trimmed away. */
  lemma OtherModeSurvives(cache: State, change: State, mode: Mode)
    requires Typed(cache) && KnownMode(mode) && Shows(change, mode)
    ensures var r := Prepared(Some(cache), change + TransitionRequest(1), true);
            OnlyShows(r, change, mode) && (mode != CachedMode(cache) ==> HasColour(r))
  {
    var request := change + TransitionRequest(1);
    var inferred := InferOn(cache, request);
    assert inferred.Keys <= change.Keys + {On, TransitionTime};
    var k := if Xy in change then Xy else if Ct in change then Ct else if Hue in change then Hue else Sat;
    assert k in change && KeyMode(k) == mode;
    assert mode != CachedMode(cache) ==> k in inferred && !Redundant(cache, k, inferred[k]);
  }

  lemma AlertColoursSurvive(cache: State, change: State, mode: Mode)
    requires Typed(cache) && Shows(change, mode) && mode != CachedMode(cache)
    ensures ColoursOf(change, Prepared(Some(cache), change + TransitionRequest(1), true))
  {
    var request := change + TransitionRequest(1);
    var r := Prepared(Some(cache), request, true);
    forall k | k in change && IsColour(k)
      ensures k in r && r[k] == change[k]
    {
      assert KeyMode(k) == mode && InferOn(cache, request)[k] == change[k];
    }
  }

  lemma ColoursAreShown(device: State, change: State, r: State)
    requires ColoursOf(change, r)
    ensures ColoursOf(change, Execute(device, r))
  {
    forall k | k in change && IsColour(k)
      ensures k in Execute(device, r) && Execute(device, r)[k] == change[k]
    {
      ExecutedAt(device, r, k);
    }
  }

  lemma ModeIsShown(saved: State, change: State, mode: Mode, r: State)
    requires Readable(saved) && Plain(r) && OnlyShows(r, change, mode)
    requires mode != CachedMode(saved) ==> HasColour(r)
    ensures ColorMode in Execute(saved, r) && Execute(saved, r)[ColorMode] == ModeName(mode)
    ensures ColorMode in Written(saved, r) && Written(saved, r)[ColorMode] == saved[ColorMode]
  {
    assert TypeFits(ColorMode, saved[ColorMode]);
    if HasColour(r) {
      ModeIsDominant(r, change, mode);
    }
  }

  /** What the alert colour does not overwrite. */
  lemma ValuesAreKept(saved: State, change: State, mode: Mode, r: State)
    requires Readable(saved) && OnlyShows(r, change, mode)
    ensures forall k | k in saved :: k in Execute(saved, r)
    ensures Bri !in change ==> Execute(saved, r)[Bri] == saved[Bri]
    ensures mode != CachedMode(saved) ==> SavedColoursIn(saved, Execute(saved, r))
  {
    forall k | k in saved && k != ColorMode
      ensures k in Execute(saved, r) && (k !in r ==> Execute(saved, r)[k] == saved[k])
    {
      ExecutedAt(saved, r, k);
    }
  }

  lemma ChangeIsPlain(change: State, mode: Mode)
    requires Shows(change, mode)
    ensures Plain(change + TransitionRequest(1))
  {
  }

  /** Setting the alert colour shows its mode; the cached mode stays behind. */
  lemma AlertColourIsShown(env: Env, w: World, change: State, mode: Mode)
    requires Truthful(env) && Synced(w) && Readable(w.cache) && KnownMode(mode) && Shows(change, mode)
    requires Transact(env, w, change + TransitionRequest(1)).outcome == Done(true)
    ensures ShowsAlert(w.cache, change, mode, Transact(env, w, change + TransitionRequest(1)).world)
    ensures Transact(env, w, change + TransitionRequest(1)).world.cache[ColorMode] == w.cache[ColorMode]
  {
    var request := change + TransitionRequest(1);
    ChangeIsPlain(change, mode);
    SyncedAgrees(w);
    TransactSucceeds(env, w, request);
    OtherModeSurvives(w.cache, change, mode);
    ModeIsShown(w.cache, change, mode, Prepared(Some(w.cache), request, true));
    ValuesAreKept(w.cache, change, mode, Prepared(Some(w.cache), request, true));
    if mode != CachedMode(w.cache) {
      AlertColoursSurvive(w.cache, change, mode);
      ColoursAreShown(w.device, change, Prepared(Some(w.cache), request, true));
    }
  }

  const BLINK: State := map[Alert := Text("select")]

  lemma BlinkOnlyAlerts(cache: State, device: State)
    requires Typed(cache)
    ensures Plain(BLINK) && Prepared(Some(cache), BLINK, true) == BLINK
    ensures Written(cache, BLINK) == cache[Alert := Text("select")]
    ensures Execute(device, BLINK) == device[Alert := Text("select")]
  {
    assert InferOn(cache, BLINK) == BLINK;
    assert Trim(cache, BLINK) == BLINK;
    assert BLINK - {TransitionTime} == BLINK;
    assert (map k | k in BLINK && k in STORED :: BLINK[k]) == BLINK;
  }

  /** The blinking itself changes nothing but "alert". */
  lemma BlinkKeepsColour(env: Env, saved: State, change: State, mode: Mode, w: World)
    requires Truthful(env) && Readable(saved) && ShowsAlert(saved, change, mode, w)
    requires Transact(env, w, BLINK).outcome == Done(true)
    ensures var after := Transact(env, w, BLINK).world;
            && ShowsAlert(saved, change, mode, after)
            && after.cache[ColorMode] == Fetched(env, w)[ColorMode]
  {
    BlinkOnlyAlerts(Fetched(env, w), w.device);
    TransactSucceeds(env, w, BLINK);
    AlertIsNoColour(saved, change, mode, w, Fetched(env, w), Transact(env, w, BLINK).world);
  }

  lemma AlertIsNoColour(saved: State, change: State, mode: Mode, w: World, fetched: State, after: World)
    requires Readable(saved) && ShowsAlert(saved, change, mode, w) && (fetched == w.cache || fetched == w.device)
    requires after.device == w.device[Alert := Text("select")] && after.cache == fetched[Alert := Text("select")]
    requires Agree(after.cache, after.device)
    ensures ShowsAlert(saved, change, mode, after) && after.cache[ColorMode] == fetched[ColorMode]
  {
  }

  /** The full restoring request, carried out, shows the saved colour. */
  lemma FullRestore(saved: State, change: State, restore: State, device: State)
    requires Readable(saved) && Captures(saved, change, restore) && Typed(device) && Bri in device
    requires Bri !in change ==> device[Bri] == saved[Bri]
    ensures Restored(saved, Execute(device, restore)) && SavedColoursIn(saved, Execute(device, restore))
  {
    assert TypeFits(ColorMode, saved[ColorMode]);
    var k := if Xy in restore then Xy else if Ct in restore then Ct else if Hue in restore then Hue else Sat;
    assert k in restore && KeyMode(k) == saved[ColorMode].mode;
    assert Dominant(restore) == saved[ColorMode].mode;
  }

  lemma AlikeIsRestored(saved: State, full: State, trimmed: State)
    requires Readable(saved) && Restored(saved, full) && SavedColoursIn(saved, full) && Alike(trimmed, full)
    ensures Restored(saved, trimmed)
  {
  }

  lemma CapturedIsPlain(saved: State, change: State, restore: State)
    requires Readable(saved) && Captures(saved, change, restore)
    ensures Plain(restore) && OneMode(restore)
  {
  }

  /** Restoring against a cached state that shows what the light shows. */
  lemma TrimmedRestore(saved: State, change: State, restore: State, d: State)
    requires Readable(saved) && Captures(saved, change, restore)
    requires Typed(d) && ColorMode in d && Bri in d && (Bri !in change ==> d[Bri] == saved[Bri])
    ensures Restored(saved, Execute(d, Prepared(Some(d), restore, true)))
  {
    CapturedIsPlain(saved, change, restore);
    FullRestore(saved, change, restore, d);
    OneModeIsSafe(d, restore);
    TrimPreservesEffect(d, restore);
    AlikeIsRestored(saved, Execute(d, restore), Execute(d, Trim(d, restore)));
  }

  /** Restoring against a cached state that shows the saved mode and holds the saved colours: all of them go. */
  lemma TrimmedAway(saved: State, change: State, restore: State, c: State)
    requires Readable(saved) && Captures(saved, change, restore) && Typed(c)
    requires ColorMode in c && c[ColorMode] == saved[ColorMode] && SavedColoursIn(saved, c)
    ensures !HasColour(Prepared(Some(c), restore, true))
  {
    forall k | k in restore && IsColour(k)
      ensures Redundant(c, k, restore[k])
    {
      assert TypeFits(k, restore[k]);
    }
  }

  /** The restore commit sees the mode the light is in: it puts the light back. */
  lemma RestoresWhenModeIsSeen(env: Env, saved: State, change: State, mode: Mode, w: World, restore: State)
    requires Truthful(env) && Readable(saved) && Captures(saved, change, restore)
    requires ShowsAlert(saved, change, mode, w) && Fetched(env, w)[ColorMode] == w.device[ColorMode]
    requires Transact(env, w, restore).outcome == Done(true)
    ensures Restored(saved, Transact(env, w, restore).world.device)
  {
    CapturedIsPlain(saved, change, restore);
    TransactSucceeds(env, w, restore);
    SameModeIsSame(Fetched(env, w), w.device);
    TrimmedRestore(saved, change, restore, w.device);
  }

  lemma SameModeIsSame(cache: State, device: State)
    requires Agree(cache, device) && cache[ColorMode] == device[ColorMode]
    ensures cache == device
  {
  }

  /** The light is in the mode of the alert, in the alert's colour. */
  predicate LeftInAlertColour(s: Step, change: State, mode: Mode) {
    s.outcome == Done(true) && ColorMode in s.world.device
    && s.world.device[ColorMode] == ModeName(mode) && ColoursOf(change, s.world.device)
  }

  /** The restore commit takes the light to be still in the saved mode: it drops the colour, and the light stays
      as the alert left it. */
  lemma StrandsWhenModeIsStale(env: Env, saved: State, change: State, mode: Mode, w: World, restore: State)
    requires Truthful(env) && Readable(saved) && Captures(saved, change, restore)
    requires ShowsAlert(saved, change, mode, w)
    requires mode != saved[ColorMode].mode && Fetched(env, w)[ColorMode] == saved[ColorMode]
    requires Transact(env, w, restore).outcome == Done(true)
    ensures LeftInAlertColour(Transact(env, w, restore), change, mode)
  {
    CapturedIsPlain(saved, change, restore);
    TransactSucceeds(env, w, restore);
    assert SavedColoursIn(saved, Fetched(env, w));
    TrimmedAway(saved, change, restore, Fetched(env, w));
  }

  ghost function AfterChange(env: Env, w: World, change: State): World
    requires env.path != "" && TypedWorld(w) && Typed(change)
  {
    Transact(env, w, change + TransitionRequest(1)).world
  }

  ghost function AfterBlink(env: Env, w: World, change: State): World
    requires env.path != "" && TypedWorld(w) && Typed(change)
  {
    Transact(env, AfterChange(env, w, change), BLINK).world
  }

  /** A successful protocol consists of three successful commits, each with one read of the cached state. */
  lemma ThreeSteps(env: Env, w: World, change: State, restore: State)
    requires env.path != "" && TypedWorld(w) && Typed(change) && Typed(restore)
    requires Protocol(env, w, change, restore).outcome == Done(true)
    ensures Transact(env, w, change + TransitionRequest(1)).outcome == Done(true)
    ensures Transact(env, AfterChange(env, w, change), BLINK).outcome == Done(true)
    ensures Protocol(env, w, change, restore) == Transact(env, AfterBlink(env, w, change), restore)
    ensures AfterChange(env, w, change).lookups == w.lookups + 1
    ensures AfterBlink(env, w, change).lookups == w.lookups + 2
  {
  }

  /** What the restore commit of a successful protocol finds. */
  lemma SeenByRestore(env: Env, w: World, change: State, mode: Mode, restore: State) returns (w2: World, reloaded: bool)
    requires Truthful(env) && Synced(w) && Readable(w.cache) && KnownMode(mode) && Shows(change, mode)
    requires Typed(restore) && Protocol(env, w, change, restore).outcome == Done(true)
    ensures reloaded <==> Reloads(env, w.lookups + 1) || Reloads(env, w.lookups + 2)
    ensures ShowsAlert(w.cache, change, mode, w2)
    ensures Fetched(env, w2)[ColorMode] == if reloaded then w2.device[ColorMode] else w.cache[ColorMode]
    ensures Protocol(env, w, change, restore) == Transact(env, w2, restore)
  {
    w2, reloaded := AfterBlink(env, w, change), Reloads(env, w.lookups + 1) || Reloads(env, w.lookups + 2);
    ThreeSteps(env, w, change, restore);
    AlertColourIsShown(env, w, change, mode);
    BlinkKeepsColour(env, w.cache, change, mode, AfterChange(env, w, change));
  }

  lemma RestorePhase(env: Env, saved: State, change: State, mode: Mode, w: World, restore: State, reloaded: bool,
                     s: Step)
    requires Truthful(env) && Readable(saved) && Captures(saved, change, restore)
    requires ShowsAlert(saved, change, mode, w) && s == Transact(env, w, restore) && s.outcome == Done(true)
    requires Fetched(env, w)[ColorMode] == if reloaded then w.device[ColorMode] else saved[ColorMode]
    ensures mode == CachedMode(saved) || reloaded ==> Restored(saved, s.world.device)
    ensures mode != CachedMode(saved) && !reloaded ==>
              LeftInAlertColour(s, change, mode) && !Restored(saved, s.world.device)
  {
    assert saved[ColorMode] == ModeName(CachedMode(saved)) by { assert TypeFits(ColorMode, saved[ColorMode]); }
    if mode == CachedMode(saved) || reloaded {
      RestoresWhenModeIsSeen(env, saved, change, mode, w, restore);
    } else {
      StrandsWhenModeIsStale(env, saved, change, mode, w, restore);
    }
  }

  /** An alert in another mode than the light's, without a refresh on the way, leaves the light as the alert set it. */
  lemma ProtocolStrands(env: Env, w: World, change: State, mode: Mode, restore: State)
    requires Truthful(env) && Synced(w) && Readable(w.cache) && KnownMode(mode) && Shows(change, mode)
    requires Captures(w.cache, change, restore)
    requires Protocol(env, w, change, restore).outcome == Done(true)
    requires mode != CachedMode(w.cache) && !Reloads(env, w.lookups + 1) && !Reloads(env, w.lookups + 2)
    ensures LeftInAlertColour(Protocol(env, w, change, restore), change, mode)
  {
    var w2, reloaded := SeenByRestore(env, w, change, mode, restore);
    RestorePhase(env, w.cache, change, mode, w2, restore, reloaded, Protocol(env, w, change, restore));
  }

  /** An alert that reports success, started with an up-to-date cached state, puts the light back exactly when the
      alert colour is of the mode the light was in, or the cached state is fetched anew between setting the alert
      colour and restoring. */
  lemma ProtocolRestoresIff(env: Env, w: World, change: State, mode: Mode, restore: State)
    requires Truthful(env) && Synced(w) && Readable(w.cache) && KnownMode(mode) && Shows(change, mode)
    requires Captures(w.cache, change, restore)
    requires Protocol(env, w, change, restore).outcome == Done(true)
    ensures Restored(w.device, Protocol(env, w, change, restore).world.device)
       <==> mode == CachedMode(w.cache) || Reloads(env, w.lookups + 1) || Reloads(env, w.lookups + 2)
  {
    var w2, reloaded := SeenByRestore(env, w, change, mode, restore);
    RestorePhase(env, w.cache, change, mode, w2, restore, reloaded, Protocol(env, w, change, restore));
  }
}
