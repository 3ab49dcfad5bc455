/** The JSON object that describes one light ("state" in the bridge's answers, and the body of a PUT request).
    Keys are enumerated; `Name` gives the spelling the bridge sees. */
module LightState {

  datatype Key =
    | Alert | Bri | BriInc | ColorMode | Ct | CtInc | Effect | Hue | HueInc
    | On | Sat | SatInc | TransitionTime | Xy | XyInc

  /** The value of "colormode": which of the colour keys the light is showing. */
  datatype Mode = HsMode | XyMode | CtMode | OtherMode(name: string)

  datatype Value =
    | Flag(flag: bool)
    | Number(n: int)
    | Text(text: string)
    | ModeName(mode: Mode)
    | Pair(x: real, y: real)

  type State = map<Key, Value>

  /** Values have the JSON type that the bridge's API gives to their key. */
  predicate TypeFits(k: Key, v: Value) {
    match k
    case On => v.Flag?
    case Bri | Hue | Sat | Ct | BriInc | HueInc | SatInc | CtInc | TransitionTime => v.Number?
    case Xy | XyInc => v.Pair?
    case Alert | Effect => v.Text?
    case ColorMode => v.ModeName?
  }

  predicate Typed(s: State) {
    forall k | k in s :: TypeFits(k, s[k])
  }

  function Name(k: Key): string {
    match k
    case Alert => "alert"
    case Bri => "bri"
    case BriInc => "bri_inc"
    case ColorMode => "colormode"
    case Ct => "ct"
    case CtInc => "ct_inc"
    case Effect => "effect"
    case Hue => "hue"
    case HueInc => "hue_inc"
    case On => "on"
    case Sat => "sat"
    case SatInc => "sat_inc"
    case TransitionTime => "transitiontime"
    case Xy => "xy"
    case XyInc => "xy_inc"
  }

  /** Distinguishes all fifteen names by their length and two of their characters. */
  function Fingerprint(name: string): (int, char, char)
    requires |name| >= 2
  {
    (|name|, name[0], name[1])
  }

  lemma NamesAreDistinct(a: Key, b: Key)
    requires Name(a) == Name(b)
    ensures a == b
  {
    assert Fingerprint(Name(a)) == Fingerprint(Name(b));
  }

  /** The request as the HTTP layer sends it. */
  function Wire(request: State): (wire: map<string, Value>)
    ensures forall k :: k in request ==> Name(k) in wire && wire[Name(k)] == request[k]
    ensures forall name :: name in wire ==> exists k :: k in request && Name(k) == name
  {
    assert forall a, b | Name(a) == Name(b) :: a == b by {
      forall a, b | Name(a) == Name(b) ensures a == b { NamesAreDistinct(a, b); }
    }
    map k | k in request :: Name(k) := request[k]
  }

  /** Two floats the API cannot tell apart: coordinates come back rounded to four decimals. */
  const TOLERANCE: real := 0.0001

  function Distance(a: real, b: real): real {
    if a < b then b - a else a - b
  }

  predicate FloatEquals(a: real, b: real) {
    Distance(a, b) <= TOLERANCE
  }

  predicate Close(a: Value, b: Value) {
    a.Pair? && b.Pair? && FloatEquals(a.x, b.x) && FloatEquals(a.y, b.y)
  }

  /** Same value, or xy coordinates within the tolerance. */
  predicate Indistinguishable(k: Key, a: Value, b: Value) {
    a == b || (k == Xy && Close(a, b))
  }
}
