/** The alert functions of the colour strategies: show another colour, blink, and go back
    (src/SimpleColorHueStrategy.cpp, src/ExtendedColorHueStrategy.cpp, src/SimpleColorTemperatureStrategy.cpp,
    src/ExtendedColorTemperatureStrategy.cpp). */
module AlertStrategies {
  import opened Wrappers
  import opened Colors
  import opened Numbers
  import opened LightState
  import opened StateTransactions
  import opened Lights

  /** The cached state has every value that an alert function reads from it. */
  predicate Readable(s: State) {
    && Typed(s) && On in s && ColorMode in s && Bri in s
    && match s[ColorMode].mode
       case HsMode => Hue in s && Sat in s
       case XyMode => Xy in s
       case CtMode => Ct in s
       case OtherMode(_) => true
  }

  predicate ReadableWorld(w: World) {
    Readable(w.cache) && Readable(w.device)
  }

  // --- Reading and restoring colours ---

  function ReadHueSaturation(s: State): HueSaturation
    requires Typed(s) && Hue in s && Sat in s
  {
    HueSaturation(s[Hue].n, s[Sat].n)
  }

  function ReadXY(s: State): XYBrightness
    requires Typed(s) && Xy in s && Bri in s
  {
    XYBrightness(XY(s[Xy].x, s[Xy].y), s[Bri].n as real / 254.0)
  }

  function ReadBrightness(s: State): Byte
    requires Typed(s) && Bri in s
  {
    s[Bri].n % 0x100
  }

  function ReadCt(s: State): Word
    requires Typed(s) && Ct in s
  {
    s[Ct].n % 0x1_0000
  }

  function OnAndTransition(on: bool): (r: State)
    ensures Typed(r)
  {
    map[On := Flag(on), TransitionTime := Number(1)]
  }

  function BrightnessRequest(bri: Option<Byte>): (r: State)
    ensures Typed(r)
  {
    if bri.Some? then map[Bri := Number(Clamp(0, bri.value, 254))] else map[]
  }

  /** The restoring transaction, for each kind of saved colour. */
  function RestoreHs(hueSat: HueSaturation, bri: Option<Byte>, on: bool): (r: State)
    ensures Typed(r)
  {
    HueSaturationRequest(hueSat) + BrightnessRequest(bri) + OnAndTransition(on)
  }

  function RestoreXy(xy: XYBrightness, on: bool): (r: State)
    ensures Typed(r)
  {
    XYBrightnessRequest(xy) + OnAndTransition(on)
  }

  function RestoreCt(mired: Word, bri: Option<Byte>, on: bool): (r: State)
    ensures Typed(r)
  {
    CtRequest(mired) + BrightnessRequest(bri) + OnAndTransition(on)
  }

  function SavedHs(s: State, withBrightness: bool): (r: State)
    requires Readable(s) && CachedMode(s) == HsMode
    ensures Typed(r)
  {
    RestoreHs(ReadHueSaturation(s), if withBrightness then Some(ReadBrightness(s)) else None, s[On].flag)
  }

  function SavedXy(s: State): (r: State)
    requires Readable(s) && CachedMode(s) == XyMode
    ensures Typed(r)
  {
    RestoreXy(ReadXY(s), s[On].flag)
  }

  function SavedCt(s: State, withBrightness: bool): (r: State)
    requires Readable(s) && CachedMode(s) == CtMode
    ensures Typed(r)
  {
    RestoreCt(ReadCt(s), if withBrightness then Some(ReadBrightness(s)) else None, s[On].flag)
  }

  // --- The protocol ---

  /** Set the alert colour, blink, restore; the first step that fails ends it. */
  ghost function Protocol(env: Env, w: World, change: State, restore: State): Step
    requires env.path != "" && TypedWorld(w) && Typed(change) && Typed(restore)
  {
    var s1 := Transact(env, w, change + TransitionRequest(1));
    if s1.outcome != Done(true) then s1
    else
      var s2 := Transact(env, s1.world, map[Alert := Text("select")]);
      if s2.outcome != Done(true) then s2 else Transact(env, s2.world, restore)
  }

  ghost function SimpleHueSaturation(env: Env, w: World, hueSat: HueSaturation): Step
    requires env.path != "" && ReadableWorld(w)
  {
    var r := Read(env, w);
    var c := r.world.cache;
    if r.outcome == Thrown then r
    else match CachedMode(c)
      case HsMode => Protocol(env, r.world, HueSaturationRequest(hueSat), SavedHs(c, false))
      case XyMode => Protocol(env, r.world, HueSaturationRequest(hueSat), SavedXy(c))
      case _ => Step(r.world, Done(false))
  }

  ghost function SimpleXY(env: Env, w: World, xy: XYBrightness): Step
    requires env.path != "" && ReadableWorld(w)
  {
    var r := Read(env, w);
    var c := r.world.cache;
    if r.outcome == Thrown then r
    else match CachedMode(c)
      case HsMode => Protocol(env, r.world, XYBrightnessRequest(xy), SavedHs(c, true))
      case XyMode => Protocol(env, r.world, XYBrightnessRequest(xy), SavedXy(c))
      case _ => Step(r.world, Done(false))
  }

  ghost function SimpleTemperature(env: Env, w: World, mired: nat): Step
    requires env.path != "" && ReadableWorld(w)
  {
    var r := Read(env, w);
    var c := r.world.cache;
    if r.outcome == Thrown then r
    else match CachedMode(c)
      case CtMode => Protocol(env, r.world, CtRequest(mired), SavedCt(c, false))
      case _ => Step(r.world, Done(false))
  }

  /** The extended strategies look at the colour mode first, and read the state again when they pass on. */
  ghost function ExtendedHueSaturation(env: Env, w: World, hueSat: HueSaturation): Step
    requires env.path != "" && ReadableWorld(w)
  {
    var r := Read(env, w);
    var c := r.world.cache;
    if r.outcome == Thrown then r
    else match CachedMode(c)
      case CtMode => Protocol(env, r.world, HueSaturationRequest(hueSat), SavedCt(c, false))
      case _ => SimpleHueSaturation(env, r.world, hueSat)
  }

  ghost function ExtendedXY(env: Env, w: World, xy: XYBrightness): Step
    requires env.path != "" && ReadableWorld(w)
  {
    var r := Read(env, w);
    var c := r.world.cache;
    if r.outcome == Thrown then r
    else match CachedMode(c)
      case CtMode => Protocol(env, r.world, XYBrightnessRequest(xy), SavedCt(c, true))
      case _ => SimpleXY(env, r.world, xy)
  }

  ghost function ExtendedTemperature(env: Env, w: World, mired: nat): Step
    requires env.path != "" && ReadableWorld(w)
  {
    var r := Read(env, w);
    var c := r.world.cache;
    if r.outcome == Thrown then r
    else match CachedMode(c)
      case CtMode => SimpleTemperature(env, r.world, mired)
      case HsMode => Protocol(env, r.world, CtRequest(mired), SavedHs(c, false))
      case XyMode => Protocol(env, r.world, CtRequest(mired), SavedXy(c))
      case _ => Step(r.world, Done(false))
  }

  // --- The functions themselves ---

  /** setOn(on).setTransition(1), which ends every restoring transaction. */
  method FinishRestore(t: StateTransaction, ghost colours: State, on: bool)
    requires t.request == colours && Typed(colours)
    modifies t`request
    ensures t.request == colours + OnAndTransition(on) && Typed(t.request)
  {
    t.SetOn(on);
    t.SetTransition(1);
    assert t.request == colours + OnAndTransition(on);
  }

  method RestoreHueSaturation(light: Light, hueSat: HueSaturation, bri: Option<Byte>, on: bool)
    returns (outcome: Outcome)
    requires light.Valid()
    modifies light`lookups, light.cell, light.bridge
    ensures Step(light.View(), outcome)
         == Transact(light.Surroundings(), old(light.View()), RestoreHs(hueSat, bri, on))
  {
    var t := light.Transaction();
    if t == null { return Thrown; }
    t.SetColorHueSaturation(hueSat);
    if bri.Some? {
      t.SetBrightness(bri.value);
    }
    FinishRestore(t, HueSaturationRequest(hueSat) + BrightnessRequest(bri), on);
    outcome := t.Commit(true, light.bridge);
  }

  method RestoreXYBrightness(light: Light, xy: XYBrightness, on: bool) returns (outcome: Outcome)
    requires light.Valid()
    modifies light`lookups, light.cell, light.bridge
    ensures Step(light.View(), outcome)
         == Transact(light.Surroundings(), old(light.View()), RestoreXy(xy, on))
  {
    var t := light.Transaction();
    if t == null { return Thrown; }
    t.SetColorXYBrightness(xy);
    FinishRestore(t, XYBrightnessRequest(xy), on);
    outcome := t.Commit(true, light.bridge);
  }

  method RestoreTemperature(light: Light, mired: Word, bri: Option<Byte>, on: bool) returns (outcome: Outcome)
    requires light.Valid()
    modifies light`lookups, light.cell, light.bridge
    ensures Step(light.View(), outcome)
         == Transact(light.Surroundings(), old(light.View()), RestoreCt(mired, bri, on))
  {
    var t := light.Transaction();
    if t == null { return Thrown; }
    t.SetColorTemperature(mired);
    if bri.Some? {
      t.SetBrightness(bri.value);
    }
    FinishRestore(t, CtRequest(mired) + BrightnessRequest(bri), on);
    outcome := t.Commit(true, light.bridge);
  }

  method AlertHueSaturationSimple(hueSat: HueSaturation, light: Light) returns (outcome: Outcome)
    requires light.Valid() && ReadableWorld(light.View())
    modifies light`lookups, light.cell, light.bridge
    ensures Step(light.View(), outcome) == SimpleHueSaturation(light.Surroundings(), old(light.View()), hueSat)
  {
    outcome := light.GetValue();
    if outcome == Thrown { return; }
    var state := light.cell.json;
    var cType, on := state[ColorMode].mode, state[On].flag;
    if cType == HsMode {
      var oldHueSat := ReadHueSaturation(state);
      outcome := light.SetColorHueSaturation(hueSat, 1);
      if outcome != Done(true) { return; }
      outcome := light.SendAlert();
      if outcome != Done(true) { return; }
      outcome := RestoreHueSaturation(light, oldHueSat, None, on);
    } else if cType == XyMode {
      var oldXY := ReadXY(state);
      outcome := light.SetColorHueSaturation(hueSat, 1);
      if outcome != Done(true) { return; }
      outcome := light.SendAlert();
      if outcome != Done(true) { return; }
      outcome := RestoreXYBrightness(light, oldXY, on);
    } else {
      outcome := Done(false);
    }
  }

  method AlertXYSimple(xy: XYBrightness, light: Light) returns (outcome: Outcome)
    requires light.Valid() && ReadableWorld(light.View())
    modifies light`lookups, light.cell, light.bridge
    ensures Step(light.View(), outcome) == SimpleXY(light.Surroundings(), old(light.View()), xy)
  {
    outcome := light.GetValue();
    if outcome == Thrown { return; }
    var state := light.cell.json;
    var cType, on := state[ColorMode].mode, state[On].flag;
    if cType == HsMode {
      var oldHueSat := ReadHueSaturation(state);
      var oldBrightness := ReadBrightness(state);
      outcome := light.SetColorXY(xy, 1);
      if outcome != Done(true) { return; }
      outcome := light.SendAlert();
      if outcome != Done(true) { return; }
      outcome := RestoreHueSaturation(light, oldHueSat, Some(oldBrightness), on);
    } else if cType == XyMode {
      var oldXY := ReadXY(state);
      outcome := light.SetColorXY(xy, 1);
      if outcome != Done(true) { return; }
      outcome := light.SendAlert();
      if outcome != Done(true) { return; }
      outcome := RestoreXYBrightness(light, oldXY, on);
    } else {
      outcome := Done(false);
    }
  }

  method AlertTemperatureSimple(mired: nat, light: Light) returns (outcome: Outcome)
    requires light.Valid() && ReadableWorld(light.View())
    modifies light`lookups, light.cell, light.bridge
    ensures Step(light.View(), outcome) == SimpleTemperature(light.Surroundings(), old(light.View()), mired)
  {
    ghost var env := light.Surroundings();
    outcome := light.GetValue();
    ghost var r := light.View();
    if outcome == Thrown { return; }
    var state := light.cell.json;
    var cType, on := state[ColorMode].mode, state[On].flag;
    if cType == CtMode {
      var oldCT := ReadCt(state);
      outcome := light.SetColorTemperature(mired, 1);
      assert Step(light.View(), outcome) == Transact(env, r, CtRequest(mired) + TransitionRequest(1));
      if outcome != Done(true) { return; }
      outcome := light.SendAlert();
      if outcome != Done(true) { return; }
      outcome := RestoreTemperature(light, oldCT, None, on);
    } else {
      outcome := Done(false);
    }
  }

  method AlertHueSaturationExtended(hueSat: HueSaturation, light: Light) returns (outcome: Outcome)
    requires light.Valid() && ReadableWorld(light.View())
    modifies light`lookups, light.cell, light.bridge
    ensures Step(light.View(), outcome) == ExtendedHueSaturation(light.Surroundings(), old(light.View()), hueSat)
  {
    outcome := light.GetValue();
    if outcome == Thrown { return; }
    var state := light.cell.json;
    var cType, on := state[ColorMode].mode, state[On].flag;
    if cType == CtMode {
      var oldCT := ReadCt(state);
      outcome := light.SetColorHueSaturation(hueSat, 1);
      if outcome != Done(true) { return; }
      outcome := light.SendAlert();
      if outcome != Done(true) { return; }
      outcome := RestoreTemperature(light, oldCT, None, on);
    } else {
      outcome := AlertHueSaturationSimple(hueSat, light);
    }
  }

  method AlertXYExtended(xy: XYBrightness, light: Light) returns (outcome: Outcome)
    requires light.Valid() && ReadableWorld(light.View())
    modifies light`lookups, light.cell, light.bridge
    ensures Step(light.View(), outcome) == ExtendedXY(light.Surroundings(), old(light.View()), xy)
  {
    outcome := light.GetValue();
    if outcome == Thrown { return; }
    var state := light.cell.json;
    var cType, on := state[ColorMode].mode, state[On].flag;
    if cType == CtMode {
      var oldCT := ReadCt(state);
      var oldBrightness := ReadBrightness(state);
      outcome := light.SetColorXY(xy, 1);
      if outcome != Done(true) { return; }
      outcome := light.SendAlert();
      if outcome != Done(true) { return; }
      outcome := RestoreTemperature(light, oldCT, Some(oldBrightness), on);
    } else {
      outcome := AlertXYSimple(xy, light);
    }
  }

  method AlertTemperatureExtended(mired: nat, light: Light) returns (outcome: Outcome)
    requires light.Valid() && ReadableWorld(light.View())
    modifies light`lookups, light.cell, light.bridge
    ensures Step(light.View(), outcome) == ExtendedTemperature(light.Surroundings(), old(light.View()), mired)
  {
    outcome := light.GetValue();
    if outcome == Thrown { return; }
    var state := light.cell.json;
    var cType, on := state[ColorMode].mode, state[On].flag;
    if cType == CtMode {
      outcome := AlertTemperatureSimple(mired, light);
    } else if cType == HsMode {
      var oldHueSat := ReadHueSaturation(state);
      outcome := light.SetColorTemperature(mired, 1);
      if outcome != Done(true) { return; }
      outcome := light.SendAlert();
      if outcome != Done(true) { return; }
      outcome := RestoreHueSaturation(light, oldHueSat, None, on);
    } else if cType == XyMode {
      var oldXY := ReadXY(state);
      outcome := light.SetColorTemperature(mired, 1);
      if outcome != Done(true) { return; }
      outcome := light.SendAlert();
      if outcome != Done(true) { return; }
      outcome := RestoreXYBrightness(light, oldXY, on);
    } else {
      outcome := Done(false);
    }
  }
}
