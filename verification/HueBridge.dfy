/** The other end of a PUT request: an arbitrary bridge, and the light behind it. */
module HueBridge {
  import opened LightState
  import opened PutReply

  const STORED: set<Key> := {Alert, Bri, Ct, Effect, Hue, On, Sat, Xy}
  const INCREMENTS: set<Key> := {BriInc, CtInc, HueInc, SatInc, XyInc}

  predicate IsColour(k: Key) {
    k == Sat || k == Hue || k == Xy || k == Ct
  }

  function KeyMode(k: Key): Mode
    requires IsColour(k)
  {
    if k == Xy then XyMode else if k == Ct then CtMode else HsMode
  }

  predicate HasColour(request: State) {
    Xy in request || Ct in request || Hue in request || Sat in request
  }

  /** The mode a light shows after a request with colour keys: xy before ct before hue and saturation. */
  function Dominant(request: State): Mode
    requires HasColour(request)
  {
    if Xy in request then XyMode else if Ct in request then CtMode else HsMode
  }

  /** A light carries out a request: it stores the values and shows the requested kind of colour.
      Increments and the transition time leave no value behind. */
  function Execute(device: State, request: State): (after: State)
    ensures Typed(device) && Typed(request) ==> Typed(after)
  {
    var stored := device + (map k | k in request && k in STORED :: request[k]);
    if HasColour(request) then stored[ColorMode := ModeName(Dominant(request))] else stored
  }

  /** What one PUT can come to: whether the light changed, and the reply or an exception. */
  datatype Answer = Throws(applied: bool) | Replies(applied: bool, reply: Reply)

  /** Answers to the n-th request: any function, so any behaviour of bridge and network. */
  type Answers = (nat, State) -> Answer

  /** A request, and the state of the light when it was sent. */
  datatype Sent = Sent(request: State, before: State)

  class Bridge {
    const answers: Answers
    var device: State
    var sent: seq<Sent>

    constructor (answers: Answers, device: State)
      ensures this.answers == answers && this.device == device && sent == []
    {
      this.answers, this.device, sent := answers, device, [];
    }

    method Put(request: State) returns (a: Answer)
      modifies this
      ensures a == answers(|old(sent)|, request)
      ensures sent == old(sent) + [Sent(request, old(device))]
      ensures device == if a.applied then Execute(old(device), request) else old(device)
    {
      a := answers(|sent|, request);
      sent := sent + [Sent(request, device)];
      if a.applied {
        device := Execute(device, request);
      }
    }
  }
}
