/** One light: its cached state, the bridge it is reached through, and the commits made on it (src/Light.cpp). */
module Lights {
  import opened Wrappers
  import opened Colors
  import opened Numbers
  import opened LightState
  import opened HueBridge
  import opened StateTransactions

  /** What a non-const read of the cached state does: keep it, fetch it anew, or fail to. */
  datatype Refresh = Keep | Reload | Fails

  /** The surroundings of a run. Both functions are arbitrary. */
  datatype Env = Env(path: string, answers: Answers, refreshes: nat -> Refresh)

  datatype World = World(cache: State, device: State, sent: seq<Sent>, lookups: nat)

  datatype Step = Step(world: World, outcome: Outcome)

  predicate TypedWorld(w: World) {
    Typed(w.cache) && Typed(w.device)
  }

  /** The cached state that the next read sees. */
  function Fetched(env: Env, w: World): State {
    if env.refreshes(w.lookups) == Reload then w.device else w.cache
  }

  function Read(env: Env, w: World): Step {
    Step(w.(cache := Fetched(env, w), lookups := w.lookups + 1),
         if env.refreshes(w.lookups) == Fails then Thrown else Done(true))
  }

  /** light.transaction() followed by setters for `request` and commit(). */
  ghost function Transact(env: Env, w: World, request: State): (s: Step)
    requires env.path != "" && TypedWorld(w) && Typed(request)
    ensures TypedWorld(s.world)
  {
    var r := Read(env, w);
    if r.outcome == Thrown then r
    else
      var prepared := Prepared(Some(r.world.cache), request, true);
      var x := Deliver(env.answers, env.path, w.device, w.sent, prepared);
      Step(World(Cached(r.world.cache, prepared, x.outcome), x.device, x.sent, r.world.lookups), x.outcome)
  }

  function TransitionRequest(transition: Word): (r: State)
    ensures Typed(r)
  {
    if transition != 4 then map[TransitionTime := Number(transition)] else map[]
  }

  function HueRequest(hue: Word): (r: State)
    ensures Typed(r)
  {
    map[Hue := Number(hue)]
  }

  function SaturationRequest(saturation: Byte): (r: State)
    ensures Typed(r)
  {
    map[Sat := Number(Clamp(0, saturation, 254))]
  }

  function LoopRequest(on: bool): (r: State)
    ensures Typed(r)
  {
    map[Effect := Text(if on then "colorloop" else "none")]
  }

  class Light {
    const path: string
    const bridge: Bridge
    const cell: StateCell
    const refreshes: nat -> Refresh
    var lookups: nat

    constructor (path: string, bridge: Bridge, cell: StateCell, refreshes: nat -> Refresh)
      ensures this.path == path && this.bridge == bridge && this.cell == cell && this.refreshes == refreshes
      ensures lookups == 0
    {
      this.path, this.bridge, this.cell, this.refreshes, lookups := path, bridge, cell, refreshes, 0;
    }

    ghost function View(): World
      reads this, cell, bridge
    {
      World(cell.json, bridge.device, bridge.sent, lookups)
    }

    ghost function Surroundings(): Env {
      Env(path, bridge.answers, refreshes)
    }

    ghost predicate Valid()
      reads this, cell, bridge
    {
      path != "" && TypedWorld(View())
    }

    /** state.getValue(), non-const. */
    method GetValue() returns (outcome: Outcome)
      modifies this`lookups, cell
      ensures Step(View(), outcome) == Read(Surroundings(), old(View()))
    {
      var decision := refreshes(lookups);
      lookups := lookups + 1;
      if decision == Reload {
        cell.json := bridge.device;
      }
      outcome := if decision == Fails then Thrown else Done(true);
    }

    /** light.transaction(); null when reading the state throws. */
    method Transaction() returns (t: StateTransaction?)
      requires Valid()
      modifies this`lookups, cell
      ensures View() == Read(Surroundings(), old(View())).world
      ensures t == null <==> Read(Surroundings(), old(View())).outcome == Thrown
      ensures t != null ==> fresh(t) && t.path == path && t.state == cell && t.request == map[]
    {
      var outcome := GetValue();
      t := null;
      if outcome != Thrown {
        t := new StateTransaction(path, cell);
      }
    }

    method SendAlert() returns (outcome: Outcome)
      requires Valid()
      modifies this`lookups, cell, bridge
      ensures Step(View(), outcome) == Transact(Surroundings(), old(View()), map[Alert := Text("select")])
      ensures Valid()
    {
      var t := Transaction();
      if t == null { return Thrown; }
      t.SetAlert();
      outcome := t.Commit(true, bridge);
    }

    method SetColorHue(hue: Word, transition: Byte) returns (outcome: Outcome)
      requires Valid()
      modifies this`lookups, cell, bridge
      ensures Step(View(), outcome)
           == Transact(Surroundings(), old(View()), HueRequest(hue) + TransitionRequest(transition))
      ensures Valid()
    {
      var t := Transaction();
      if t == null { return Thrown; }
      t.SetColorHue(hue);
      t.SetTransition(transition);
      assert t.request == HueRequest(hue) + TransitionRequest(transition);
      outcome := t.Commit(true, bridge);
    }

    method SetColorSaturation(saturation: Byte, transition: Byte) returns (outcome: Outcome)
      requires Valid()
      modifies this`lookups, cell, bridge
      ensures Step(View(), outcome)
           == Transact(Surroundings(), old(View()), SaturationRequest(saturation) + TransitionRequest(transition))
      ensures Valid()
    {
      var t := Transaction();
      if t == null { return Thrown; }
      t.SetColorSaturation(saturation);
      t.SetTransition(transition);
      assert t.request == SaturationRequest(saturation) + TransitionRequest(transition);
      outcome := t.Commit(true, bridge);
    }

    method SetColorLoop(on: bool) returns (outcome: Outcome)
      requires Valid()
      modifies this`lookups, cell, bridge
      ensures Step(View(), outcome) == Transact(Surroundings(), old(View()), LoopRequest(on))
      ensures Valid()
    {
      var t := Transaction();
      if t == null { return Thrown; }
      t.SetColorLoop(on);
      outcome := t.Commit(true, bridge);
    }

    method SetColorHueSaturation(hueSat: HueSaturation, transition: Byte) returns (outcome: Outcome)
      requires Valid()
      modifies this`lookups, cell, bridge
      ensures Step(View(), outcome)
           == Transact(Surroundings(), old(View()), HueSaturationRequest(hueSat) + TransitionRequest(transition))
      ensures Valid()
    {
      var t := Transaction();
      if t == null { return Thrown; }
      t.SetColorHueSaturation(hueSat);
      t.SetTransition(transition);
      assert t.request == HueSaturationRequest(hueSat) + TransitionRequest(transition);
      outcome := t.Commit(true, bridge);
    }

    method SetColorXY(xy: XYBrightness, transition: Byte) returns (outcome: Outcome)
      requires Valid()
      modifies this`lookups, cell, bridge
      ensures Step(View(), outcome)
           == Transact(Surroundings(), old(View()), XYBrightnessRequest(xy) + TransitionRequest(transition))
      ensures Valid()
    {
      var t := Transaction();
      if t == null { return Thrown; }
      t.SetColorXYBrightness(xy);
      t.SetTransition(transition);
      assert t.request == XYBrightnessRequest(xy) + TransitionRequest(transition);
      outcome := t.Commit(true, bridge);
    }

    method SetColorTemperature(mired: nat, transition: Byte) returns (outcome: Outcome)
      requires Valid()
      modifies this`lookups, cell, bridge
      ensures Step(View(), outcome)
           == Transact(Surroundings(), old(View()), CtRequest(mired) + TransitionRequest(transition))
      ensures Valid()
    {
      var t := Transaction();
      if t == null { return Thrown; }
      t.SetColorTemperature(mired);
      t.SetTransition(transition);
      assert t.request == CtRequest(mired) + TransitionRequest(transition);
      outcome := t.Commit(true, bridge);
    }
  }
}
