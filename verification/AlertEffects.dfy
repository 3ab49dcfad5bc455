/** What the light does during an alert, and what the caller is told: in numbers of the API, for the six alert
    functions. */
module AlertEffects {
  import opened Wrappers
  import opened Numbers
  import opened Colors
  import opened LightState
  import opened PutReply
  import opened HueBridge
  import opened StateTransactions
  import opened TransactionLaws
  import opened Lights
  import opened CacheAgreement
  import opened AlertStrategies
  import opened AlertRestoration
  import opened AlertGuarantees
  import opened CommitJudgement
  import opened LightEffects

  // --- The protocol ---

  /** A request to blink, or one with a transition of 100 milliseconds. */
  predicate BlinksOrIsQuick(request: State) {
    Alert in request || (TransitionTime in request && request[TransitionTime] == Number(1))
  }

  /** All requests that were added to the record. */
  predicate QuickSince(before: seq<Sent>, after: seq<Sent>) {
    before <= after && forall i | |before| <= i < |after| :: BlinksOrIsQuick(after[i].request)
  }

  /** The light blinked at a moment when it looked like this: among the requests sent, there is one to blink, and the
      others make quick transitions. */
  ghost predicate BlinkedLooking(before: World, after: World, looks: State -> bool) {
    QuickSince(before.sent, after.sent)
    && exists i :: |before.sent| <= i < |after.sent|
                   && Alert in after.sent[i].request && after.sent[i].request[Alert] == Text("select")
                   && looks(after.sent[i].before)
  }

  lemma RecordGrows(env: Env, w: World, request: State)
    requires env.path != "" && TypedWorld(w) && Typed(request)
    ensures w.sent <= Transact(env, w, request).world.sent
  {
  }

  /** The blinking request is sent, whatever the cached state. */
  lemma BlinkIsSent(env: Env, w: World)
    requires env.path != "" && TypedWorld(w) && env.refreshes(w.lookups) != Fails
    ensures Transact(env, w, BLINK).world.sent == w.sent + [Sent(BLINK, w.device)]
  {
    BlinkOnlyAlerts(Fetched(env, w), w.device);
    assert Alert in BLINK.Keys && Sends(BLINK);
  }

  lemma ChangeThenBlink(env: Env, w: World, change: State, mode: Mode)
    requires Truthful(env) && Synced(w) && Readable(w.cache) && KnownMode(mode) && Shows(change, mode)
    requires Transact(env, w, change + TransitionRequest(1)).outcome == Done(true)
    ensures ShowsChange(AfterChange(env, w, change).device, change, mode)
  {
    ChangeIsPlain(change, mode);
    SyncedAgrees(w);
    TransactSucceeds(env, w, change + TransitionRequest(1));
    TrimmedChangeIsShown(w.device, change, mode, 1);
  }

  /** A successful protocol: the light blinks while it shows the alert colour. */
  lemma ProtocolBlinks(env: Env, w: World, change: State, mode: Mode, restore: State, looks: State -> bool)
    requires Truthful(env) && Synced(w) && Readable(w.cache) && KnownMode(mode) && Shows(change, mode)
    requires IsQuick(restore) && Protocol(env, w, change, restore).outcome == Done(true)
    requires forall d: State :: ShowsChange(d, change, mode) ==> looks(d)
    ensures BlinkedLooking(w, Protocol(env, w, change, restore).world, looks)
  {
    ThreeSteps(env, w, change, restore);
    ChangeThenBlink(env, w, change, mode);
    ProtocolRecord(env, w, change, restore);
    ProtocolIsQuick(env, w, change, restore);
  }

  predicate IsQuick(request: State) {
    Typed(request) && TransitionTime in request && request[TransitionTime] == Number(1)
  }

  /** All requests of a commit are of the kind that it asks for. */
  lemma QuickIsSent(env: Env, w: World, request: State)
    requires env.path != "" && TypedWorld(w) && Typed(request) && BlinksOrIsQuick(request)
    ensures QuickSince(w.sent, Transact(env, w, request).world.sent)
  {
    var r := Prepared(Some(Fetched(env, w)), request, true);
    QuickIsPrepared(Fetched(env, w), request);
  }

  lemma QuickIsPrepared(cache: State, request: State)
    requires Typed(cache) && Typed(request) && BlinksOrIsQuick(request)
    ensures BlinksOrIsQuick(Prepared(Some(cache), request, true))
  {
    var full := InferOn(cache, request);
    assert Alert in request ==> Alert in full && !Redundant(cache, Alert, full[Alert]);
    assert TransitionTime in request ==> !Redundant(cache, TransitionTime, full[TransitionTime]);
  }

  lemma ProtocolIsQuick(env: Env, w: World, change: State, restore: State)
    requires env.path != "" && TypedWorld(w) && Typed(change) && TransitionTime !in change && IsQuick(restore)
    requires Protocol(env, w, change, restore).outcome == Done(true)
    ensures QuickSince(w.sent, Protocol(env, w, change, restore).world.sent)
  {
    var w1, w2 := AfterChange(env, w, change), AfterBlink(env, w, change);
    QuickRequests(change, restore);
    ThreeSteps(env, w, change, restore);
    QuickIsSent(env, w, change + TransitionRequest(1));
    QuickIsSent(env, w1, BLINK);
    QuickIsSent(env, w2, restore);
    QuickThroughout(w.sent, w1.sent, w2.sent, Transact(env, w2, restore).world.sent);
  }

  lemma QuickRequests(change: State, restore: State)
    requires IsQuick(restore)
    ensures BlinksOrIsQuick(change + TransitionRequest(1)) && BlinksOrIsQuick(BLINK) && BlinksOrIsQuick(restore)
  {
  }

  lemma QuickThroughout(a: seq<Sent>, b: seq<Sent>, c: seq<Sent>, d: seq<Sent>)
    requires QuickSince(a, b) && QuickSince(b, c) && QuickSince(c, d)
    ensures QuickSince(a, d)
  {
    forall i | |a| <= i < |d|
      ensures BlinksOrIsQuick(d[i].request)
    {
      if i < |b| {
        assert d[i] == b[i];
      } else if i < |c| {
        assert d[i] == c[i];
      }
    }
  }

  lemma ProtocolRecord(env: Env, w: World, change: State, restore: State)
    requires env.path != "" && TypedWorld(w) && Typed(change) && Typed(restore)
    requires Protocol(env, w, change, restore).outcome == Done(true)
    ensures var w1, sent := AfterChange(env, w, change), Protocol(env, w, change, restore).world.sent;
            w.sent <= sent && |w.sent| <= |w1.sent| < |sent| && sent[|w1.sent|] == Sent(BLINK, w1.device)
  {
    var w1, w2 := AfterChange(env, w, change), AfterBlink(env, w, change);
    ThreeSteps(env, w, change, restore);
    RecordGrows(env, w, change + TransitionRequest(1));
    BlinkIsSent(env, w1);
    RecordGrows(env, w2, restore);
    RecordHasBlink(w.sent, w1.sent, w1.device, w2.sent, Protocol(env, w, change, restore).world.sent);
  }

  lemma RecordHasBlink(sent0: seq<Sent>, sent1: seq<Sent>, d: State, sent2: seq<Sent>, sent3: seq<Sent>)
    requires sent0 <= sent1 && sent2 == sent1 + [Sent(BLINK, d)] && sent2 <= sent3
    ensures sent0 <= sent3 && |sent0| <= |sent1| < |sent3| && sent3[|sent1|] == Sent(BLINK, d)
  {
    assert sent2[|sent1|] == Sent(BLINK, d);
  }

  // --- The six functions: the light blinks in the alert colour ---

  lemma SimpleHueSaturationBlinks(env: Env, w: World, hueSat: HueSaturation)
    requires Ready(env, w) && SimpleHueSaturation(env, w, hueSat).outcome == Done(true)
    ensures BlinkedLooking(w, SimpleHueSaturation(env, w, hueSat).world, d => LooksHueSaturation(d, hueSat))
  {
    ReadKeepsReady(env, w);
    var r, c, change := Read(env, w).world, w.device, HueSaturationRequest(hueSat);
    HueSaturationShows(hueSat);
    forall d: State | ShowsChange(d, change, HsMode)
      ensures LooksHueSaturation(d, hueSat)
    {
      HueSaturationIsShown(d, hueSat);
    }
    if CachedMode(c) == HsMode {
      ProtocolBlinks(env, r, change, HsMode, SavedHs(c, false), d => LooksHueSaturation(d, hueSat));
    } else if CachedMode(c) == XyMode {
      ProtocolBlinks(env, r, change, HsMode, SavedXy(c), d => LooksHueSaturation(d, hueSat));
    }
  }

  lemma SimpleXYBlinks(env: Env, w: World, xy: XYBrightness)
    requires Ready(env, w) && SimpleXY(env, w, xy).outcome == Done(true)
    ensures BlinkedLooking(w, SimpleXY(env, w, xy).world, d => LooksXY(d, xy))
  {
    ReadKeepsReady(env, w);
    var r, c, change := Read(env, w).world, w.device, XYBrightnessRequest(xy);
    XYShows(xy);
    forall d: State | ShowsChange(d, change, XyMode)
      ensures LooksXY(d, xy)
    {
      XYIsShown(d, xy);
    }
    if CachedMode(c) == HsMode {
      ProtocolBlinks(env, r, change, XyMode, SavedHs(c, true), d => LooksXY(d, xy));
    } else if CachedMode(c) == XyMode {
      ProtocolBlinks(env, r, change, XyMode, SavedXy(c), d => LooksXY(d, xy));
    }
  }

  lemma SimpleTemperatureBlinks(env: Env, w: World, mired: nat)
    requires Ready(env, w) && SimpleTemperature(env, w, mired).outcome == Done(true)
    ensures BlinkedLooking(w, SimpleTemperature(env, w, mired).world, d => LooksTemperature(d, mired))
  {
    ReadKeepsReady(env, w);
    var r, c, change := Read(env, w).world, w.device, CtRequest(mired);
    CtShows(mired);
    forall d: State | ShowsChange(d, change, CtMode)
      ensures LooksTemperature(d, mired)
    {
      TemperatureIsShown(d, mired);
    }
    if CachedMode(c) == CtMode {
      ProtocolBlinks(env, r, change, CtMode, SavedCt(c, false), d => LooksTemperature(d, mired));
    }
  }

  lemma ExtendedHueSaturationBlinks(env: Env, w: World, hueSat: HueSaturation)
    requires Ready(env, w) && ExtendedHueSaturation(env, w, hueSat).outcome == Done(true)
    ensures BlinkedLooking(w, ExtendedHueSaturation(env, w, hueSat).world, d => LooksHueSaturation(d, hueSat))
  {
    ReadKeepsReady(env, w);
    var r, c, change := Read(env, w).world, w.device, HueSaturationRequest(hueSat);
    HueSaturationShows(hueSat);
    forall d: State | ShowsChange(d, change, HsMode)
      ensures LooksHueSaturation(d, hueSat)
    {
      HueSaturationIsShown(d, hueSat);
    }
    if CachedMode(c) == CtMode {
      ProtocolBlinks(env, r, change, HsMode, SavedCt(c, false), d => LooksHueSaturation(d, hueSat));
    } else {
      SimpleHueSaturationBlinks(env, r, hueSat);
    }
  }

  lemma ExtendedXYBlinks(env: Env, w: World, xy: XYBrightness)
    requires Ready(env, w) && ExtendedXY(env, w, xy).outcome == Done(true)
    ensures BlinkedLooking(w, ExtendedXY(env, w, xy).world, d => LooksXY(d, xy))
  {
    ReadKeepsReady(env, w);
    var r, c, change := Read(env, w).world, w.device, XYBrightnessRequest(xy);
    XYShows(xy);
    forall d: State | ShowsChange(d, change, XyMode)
      ensures LooksXY(d, xy)
    {
      XYIsShown(d, xy);
    }
    if CachedMode(c) == CtMode {
      ProtocolBlinks(env, r, change, XyMode, SavedCt(c, true), d => LooksXY(d, xy));
    } else {
      SimpleXYBlinks(env, r, xy);
    }
  }

  lemma ExtendedTemperatureBlinks(env: Env, w: World, mired: nat)
    requires Ready(env, w) && ExtendedTemperature(env, w, mired).outcome == Done(true)
    ensures BlinkedLooking(w, ExtendedTemperature(env, w, mired).world, d => LooksTemperature(d, mired))
  {
    ReadKeepsReady(env, w);
    var r, c, change := Read(env, w).world, w.device, CtRequest(mired);
    CtShows(mired);
    forall d: State | ShowsChange(d, change, CtMode)
      ensures LooksTemperature(d, mired)
    {
      TemperatureIsShown(d, mired);
    }
    if CachedMode(c) == HsMode {
      ProtocolBlinks(env, r, change, CtMode, SavedHs(c, false), d => LooksTemperature(d, mired));
    } else if CachedMode(c) == XyMode {
      ProtocolBlinks(env, r, change, CtMode, SavedXy(c), d => LooksTemperature(d, mired));
    } else {
      SimpleTemperatureBlinks(env, r, mired);
    }
  }

  // --- With every request carried out and echoed, they report success in the modes they know ---

  /** Nothing is done in a mode that the function does not know. */
  ghost predicate Declines(w: World, s: Step) {
    s.outcome == Done(false) && s.world.sent == w.sent && s.world.device == w.device && s.world.cache == w.cache
  }

  lemma SimpleHueSaturationSucceeds(path: string, w: World, hueSat: HueSaturation)
    requires path != "" && ReadableWorld(w)
    ensures var s := SimpleHueSaturation(Undisturbed(path), w, hueSat);
            if CachedMode(w.cache) in {HsMode, XyMode} then s.outcome == Done(true) else Declines(w, s)
  {
    var r, c := Read(Undisturbed(path), w).world, w.cache;
    if CachedMode(c) == HsMode {
      EchoedProtocolSucceeds(path, r, HueSaturationRequest(hueSat), SavedHs(c, false));
    } else if CachedMode(c) == XyMode {
      EchoedProtocolSucceeds(path, r, HueSaturationRequest(hueSat), SavedXy(c));
    }
  }

  lemma SimpleXYSucceeds(path: string, w: World, xy: XYBrightness)
    requires path != "" && ReadableWorld(w)
    ensures var s := SimpleXY(Undisturbed(path), w, xy);
            if CachedMode(w.cache) in {HsMode, XyMode} then s.outcome == Done(true) else Declines(w, s)
  {
    var r, c := Read(Undisturbed(path), w).world, w.cache;
    if CachedMode(c) == HsMode {
      EchoedProtocolSucceeds(path, r, XYBrightnessRequest(xy), SavedHs(c, true));
    } else if CachedMode(c) == XyMode {
      EchoedProtocolSucceeds(path, r, XYBrightnessRequest(xy), SavedXy(c));
    }
  }

  lemma SimpleTemperatureSucceeds(path: string, w: World, mired: nat)
    requires path != "" && ReadableWorld(w)
    ensures var s := SimpleTemperature(Undisturbed(path), w, mired);
            if CachedMode(w.cache) in {CtMode} then s.outcome == Done(true) else Declines(w, s)
  {
    var r, c := Read(Undisturbed(path), w).world, w.cache;
    if CachedMode(c) == CtMode {
      EchoedProtocolSucceeds(path, r, CtRequest(mired), SavedCt(c, false));
    }
  }

  lemma ExtendedHueSaturationSucceeds(path: string, w: World, hueSat: HueSaturation)
    requires path != "" && ReadableWorld(w)
    ensures var s := ExtendedHueSaturation(Undisturbed(path), w, hueSat);
            if CachedMode(w.cache) in {HsMode, XyMode, CtMode} then s.outcome == Done(true) else Declines(w, s)
  {
    var r, c := Read(Undisturbed(path), w).world, w.cache;
    if CachedMode(c) == CtMode {
      EchoedProtocolSucceeds(path, r, HueSaturationRequest(hueSat), SavedCt(c, false));
    } else {
      SimpleHueSaturationSucceeds(path, r, hueSat);
    }
  }

  lemma ExtendedXYSucceeds(path: string, w: World, xy: XYBrightness)
    requires path != "" && ReadableWorld(w)
    ensures var s := ExtendedXY(Undisturbed(path), w, xy);
            if CachedMode(w.cache) in {HsMode, XyMode, CtMode} then s.outcome == Done(true) else Declines(w, s)
  {
    var r, c := Read(Undisturbed(path), w).world, w.cache;
    if CachedMode(c) == CtMode {
      EchoedProtocolSucceeds(path, r, XYBrightnessRequest(xy), SavedCt(c, true));
    } else {
      SimpleXYSucceeds(path, r, xy);
    }
  }

  lemma ExtendedTemperatureSucceeds(path: string, w: World, mired: nat)
    requires path != "" && ReadableWorld(w)
    ensures var s := ExtendedTemperature(Undisturbed(path), w, mired);
            if CachedMode(w.cache) in {HsMode, XyMode, CtMode} then s.outcome == Done(true) else Declines(w, s)
  {
    var r, c := Read(Undisturbed(path), w).world, w.cache;
    if CachedMode(c) == HsMode {
      EchoedProtocolSucceeds(path, r, CtRequest(mired), SavedHs(c, false));
    } else if CachedMode(c) == XyMode {
      EchoedProtocolSucceeds(path, r, CtRequest(mired), SavedXy(c));
    } else {
      SimpleTemperatureSucceeds(path, r, mired);
    }
  }

  // --- Without success, the last thing that happened explains the outcome ---

  ghost predicate OneKeyAnswers(env: Env) {
    env.path != "" && forall n: nat, r: State :: OneKeyAnswer(env.answers(n, r))
  }

  /** The last request was answered in a way that tells its caller this. */
  ghost predicate LastTells(env: Env, sent: seq<Sent>, outcome: Outcome)
    requires OneKeyAnswers(env)
  {
    sent != [] && Tells(env.path, sent[|sent| - 1].request, env.answers(|sent| - 1, sent[|sent| - 1].request), outcome)
  }

  /** False means that the reply to the last request was refused; an exception, that its PUT or the last reading of
      the cached state threw, or that its reply could not be indexed. */
  ghost predicate Explained(env: Env, s: Step)
    requires OneKeyAnswers(env)
  {
    match s.outcome
    case Done(true) => true
    case Done(false) => LastTells(env, s.world.sent, s.outcome)
    case Thrown =>
      (s.world.lookups > 0 && env.refreshes(s.world.lookups - 1) == Fails) || LastTells(env, s.world.sent, s.outcome)
  }

  lemma CommitIsExplained(env: Env, w: World, request: State)
    requires OneKeyAnswers(env) && TypedWorld(w) && Typed(request)
    ensures Explained(env, Transact(env, w, request))
  {
    CommitIsJudged(env, w, request);
    var s, r := Transact(env, w, request), Prepared(Some(Fetched(env, w)), request, true);
    if env.refreshes(w.lookups) != Fails && Sends(r) {
      ToldIsExplained(env, w.sent, r, w.device, s);
    }
  }

  lemma ToldIsExplained(env: Env, sent: seq<Sent>, request: State, before: State, s: Step)
    requires OneKeyAnswers(env) && s.world.sent == sent + [Sent(request, before)]
    requires Tells(env.path, request, env.answers(|sent|, request), s.outcome)
    ensures Explained(env, s)
  {
    var last := s.world.sent[|s.world.sent| - 1];
    assert last == Sent(request, before) && |s.world.sent| - 1 == |sent|;
    assert LastTells(env, s.world.sent, s.outcome);
  }

  lemma ProtocolIsExplained(env: Env, w: World, change: State, restore: State)
    requires OneKeyAnswers(env) && TypedWorld(w) && Typed(change) && Typed(restore)
    ensures Explained(env, Protocol(env, w, change, restore))
  {
    CommitIsExplained(env, w, change + TransitionRequest(1));
    CommitIsExplained(env, AfterChange(env, w, change), BLINK);
    CommitIsExplained(env, AfterBlink(env, w, change), restore);
  }

  /** The mode that the function last read is not one it knows, and it did nothing. */
  ghost predicate Unknown(w: World, s: Step, known: set<Mode>)
    requires Typed(s.world.cache)
  {
    CachedMode(s.world.cache) !in known && s.outcome == Done(false)
    && s.world.sent == w.sent && s.world.device == w.device
  }

  ghost predicate Accounted(env: Env, w: World, s: Step, known: set<Mode>)
    requires OneKeyAnswers(env)
  {
    Typed(s.world.cache) && (Explained(env, s) || Unknown(w, s, known))
  }

  lemma ProtocolIsAccounted(env: Env, before: World, w: World, change: State, restore: State, known: set<Mode>)
    requires OneKeyAnswers(env) && TypedWorld(w) && Typed(change) && Typed(restore)
    ensures Accounted(env, before, Protocol(env, w, change, restore), known)
  {
    ProtocolIsExplained(env, w, change, restore);
    assert TypedWorld(AfterChange(env, w, change)) && TypedWorld(AfterBlink(env, w, change));
  }

  lemma ReadIsAccounted(env: Env, w: World, known: set<Mode>)
    requires OneKeyAnswers(env) && TypedWorld(w)
    ensures Read(env, w).outcome == Thrown ==> Accounted(env, w, Read(env, w), known)
  {
  }

  lemma SimpleHueSaturationIsExplained(env: Env, w: World, hueSat: HueSaturation)
    requires OneKeyAnswers(env) && ReadableWorld(w)
    ensures Accounted(env, w, SimpleHueSaturation(env, w, hueSat), {HsMode, XyMode})
  {
    ReadIsAccounted(env, w, {HsMode, XyMode});
    var r := Read(env, w).world;
    var c := r.cache;
    if CachedMode(c) == HsMode {
      ProtocolIsAccounted(env, w, r, HueSaturationRequest(hueSat), SavedHs(c, false), {HsMode, XyMode});
    } else if CachedMode(c) == XyMode {
      ProtocolIsAccounted(env, w, r, HueSaturationRequest(hueSat), SavedXy(c), {HsMode, XyMode});
    }
  }

  lemma SimpleXYIsExplained(env: Env, w: World, xy: XYBrightness)
    requires OneKeyAnswers(env) && ReadableWorld(w)
    ensures Accounted(env, w, SimpleXY(env, w, xy), {HsMode, XyMode})
  {
    ReadIsAccounted(env, w, {HsMode, XyMode});
    var r := Read(env, w).world;
    var c := r.cache;
    if CachedMode(c) == HsMode {
      ProtocolIsAccounted(env, w, r, XYBrightnessRequest(xy), SavedHs(c, true), {HsMode, XyMode});
    } else if CachedMode(c) == XyMode {
      ProtocolIsAccounted(env, w, r, XYBrightnessRequest(xy), SavedXy(c), {HsMode, XyMode});
    }
  }

  lemma SimpleTemperatureIsExplained(env: Env, w: World, mired: nat)
    requires OneKeyAnswers(env) && ReadableWorld(w)
    ensures Accounted(env, w, SimpleTemperature(env, w, mired), {CtMode})
  {
    ReadIsAccounted(env, w, {CtMode});
    var r := Read(env, w).world;
    var c := r.cache;
    if CachedMode(c) == CtMode {
      ProtocolIsAccounted(env, w, r, CtRequest(mired), SavedCt(c, false), {CtMode});
    }
  }

  lemma ExtendedHueSaturationIsExplained(env: Env, w: World, hueSat: HueSaturation)
    requires OneKeyAnswers(env) && ReadableWorld(w)
    ensures Accounted(env, w, ExtendedHueSaturation(env, w, hueSat), {HsMode, XyMode})
  {
    ReadIsAccounted(env, w, {HsMode, XyMode});
    var r := Read(env, w).world;
    var c := r.cache;
    if CachedMode(c) == CtMode {
      ProtocolIsAccounted(env, w, r, HueSaturationRequest(hueSat), SavedCt(c, false), {HsMode, XyMode});
    } else {
      SimpleHueSaturationIsExplained(env, r, hueSat);
    }
  }

  lemma ExtendedXYIsExplained(env: Env, w: World, xy: XYBrightness)
    requires OneKeyAnswers(env) && ReadableWorld(w)
    ensures Accounted(env, w, ExtendedXY(env, w, xy), {HsMode, XyMode})
  {
    ReadIsAccounted(env, w, {HsMode, XyMode});
    var r := Read(env, w).world;
    var c := r.cache;
    if CachedMode(c) == CtMode {
      ProtocolIsAccounted(env, w, r, XYBrightnessRequest(xy), SavedCt(c, true), {HsMode, XyMode});
    } else {
      SimpleXYIsExplained(env, r, xy);
    }
  }

  lemma ExtendedTemperatureIsExplained(env: Env, w: World, mired: nat)
    requires OneKeyAnswers(env) && ReadableWorld(w)
    ensures Accounted(env, w, ExtendedTemperature(env, w, mired), {CtMode})
  {
    ReadIsAccounted(env, w, {CtMode});
    var r := Read(env, w).world;
    var c := r.cache;
    if CachedMode(c) == HsMode {
      ProtocolIsAccounted(env, w, r, CtRequest(mired), SavedHs(c, false), {CtMode});
    } else if CachedMode(c) == XyMode {
      ProtocolIsAccounted(env, w, r, CtRequest(mired), SavedXy(c), {CtMode});
    } else {
      SimpleTemperatureIsExplained(env, r, mired);
    }
  }
}
