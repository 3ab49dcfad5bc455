/** What the caller of a commit is told, in terms of what the bridge replied. */
module CommitJudgement {
  import opened Wrappers
  import opened LightState
  import opened PutReply
  import opened HueBridge
  import opened StateTransactions
  import opened Lights

  // --- Keys and values on the wire ---

  /** The API's spelling of the keys, in a request as it is sent. */
  lemma WireNames(request: State)
    ensures "on" in Wire(request) <==> On in request
    ensures "bri" in Wire(request) <==> Bri in request
    ensures "hue" in Wire(request) <==> Hue in request
    ensures "sat" in Wire(request) <==> Sat in request
    ensures "xy" in Wire(request) <==> Xy in request
    ensures "ct" in Wire(request) <==> Ct in request
    ensures "alert" in Wire(request) <==> Alert in request
    ensures "effect" in Wire(request) <==> Effect in request
  {
    WireHas(request, On, "on");
    WireHas(request, Bri, "bri");
    WireHas(request, Hue, "hue");
    WireHas(request, Sat, "sat");
    WireHas(request, Xy, "xy");
    WireHas(request, Ct, "ct");
    WireHas(request, Alert, "alert");
    WireHas(request, Effect, "effect");
  }

  lemma WireNamesOfChanges(request: State)
    ensures "transitiontime" in Wire(request) <==> TransitionTime in request
    ensures "bri_inc" in Wire(request) <==> BriInc in request
    ensures "sat_inc" in Wire(request) <==> SatInc in request
    ensures "hue_inc" in Wire(request) <==> HueInc in request
    ensures "ct_inc" in Wire(request) <==> CtInc in request
    ensures "xy_inc" in Wire(request) <==> XyInc in request
  {
    WireHas(request, TransitionTime, "transitiontime");
    WireHas(request, BriInc, "bri_inc");
    WireHas(request, SatInc, "sat_inc");
    WireHas(request, HueInc, "hue_inc");
    WireHas(request, CtInc, "ct_inc");
    WireHas(request, XyInc, "xy_inc");
  }

  lemma WireHas(request: State, k: Key, name: string)
    requires Name(k) == name
    ensures name in Wire(request) <==> k in request
  {
    if name in Wire(request) {
      var j :| j in request && Name(j) == name;
      NamesAreDistinct(j, k);
    }
  }

  // --- One entry of a reply ---

  predicate SameCoordinates(a: Value, b: Value) {
    a.Pair? && b.Pair? && -0.0001 <= a.x - b.x <= 0.0001 && -0.0001 <= a.y - b.y <= 0.0001
  }

  /** The entry has one key, the path followed by the name of a requested one, and the requested value; coordinates
      may be off by 0.0001, other values may read "Updated.". */
  ghost predicate EntryConfirms(prefix: string, request: State, e: Entry)
    requires e.Success? ==> |e.fields| == 1
  {
    e.Success? && exists k ::
      k in request && e.fields[0].0 == prefix + Name(k)
      && if k == Xy then SameCoordinates(request[k], e.fields[0].1)
         else e.fields[0].1 == request[k] || e.fields[0].1 == Text("Updated.")
  }

  /** The entry reports requested coordinates, and something that is no pair. */
  predicate Unindexable(prefix: string, request: State, e: Entry)
    requires e.Success? ==> |e.fields| == 1
  {
    e.Success? && Xy in request && e.fields[0].0 == prefix + "xy" && !e.fields[0].1.Pair?
  }

  lemma EntryIsJudged(prefix: string, request: State, e: Entry)
    requires Typed(request) && (e.Success? ==> |e.fields| == 1)
    ensures EntryVerdict(prefix, Wire(request), e) == Accepted <==> EntryConfirms(prefix, request, e)
    ensures EntryVerdict(prefix, Wire(request), e) == TypeError <==> Unindexable(prefix, request, e)
  {
    if e.Success? {
      var field := e.fields[0];
      assert e == Success([field]);
      OneFieldVerdict(prefix, Wire(request), field);
      if prefix <= field.0 && field.0[|prefix|..] in Wire(request) {
        var k :| k in request && Name(k) == field.0[|prefix|..];
        assert field.0 == prefix + Name(k);
        FieldIsJudged(prefix, request, field, k);
      } else {
        NothingConfirmed(prefix, request, field);
      }
    }
  }

  lemma OneFieldVerdict(prefix: string, request: WireRequest, field: (string, Value))
    ensures EntryVerdict(prefix, request, Success([field])) == FieldVerdict(prefix, request, field)
  {
    assert [field][0] == field;
  }

  lemma FieldIsJudged(prefix: string, request: State, field: (string, Value), k: Key)
    requires Typed(request) && k in request && field.0 == prefix + Name(k)
    ensures FieldVerdict(prefix, Wire(request), field) == Accepted <==> EntryConfirms(prefix, request, Success([field]))
    ensures FieldVerdict(prefix, Wire(request), field) == TypeError <==> Unindexable(prefix, request, Success([field]))
  {
    assert field.0[|prefix|..] == Name(k);
    assert TypeFits(k, request[k]);
    if Name(k) == "xy" {
      NamesAreDistinct(k, Xy);
    }
    forall j | j in request && field.0 == prefix + Name(j)
      ensures j == k
    {
      assert (prefix + Name(j))[|prefix|..] == Name(j);
      NamesAreDistinct(j, k);
    }
    if Xy in request && field.0 == prefix + "xy" {
      assert field.0[|prefix|..] == "xy";
    }
  }

  lemma NothingConfirmed(prefix: string, request: State, field: (string, Value))
    requires !(prefix <= field.0 && field.0[|prefix|..] in Wire(request))
    ensures !EntryConfirms(prefix, request, Success([field])) && !Unindexable(prefix, request, Success([field]))
  {
    forall k | k in request
      ensures field.0 != prefix + Name(k)
    {
      var named := prefix + Name(k);
      assert prefix <= named && named[|prefix|..] == Name(k) && Name(k) in Wire(request);
    }
    assert Name(Xy) == "xy";
  }

  // --- A reply ---

  /** The first entry that does not confirm cannot be indexed. */
  ghost predicate Breaks(prefix: string, request: State, reply: Reply)
    requires OneKeyEach(reply)
  {
    exists i :: 0 <= i < |reply| && Unindexable(prefix, request, reply[i])
                && forall j | 0 <= j < i :: EntryConfirms(prefix, request, reply[j])
  }

  ghost predicate Confirmed(prefix: string, request: State, reply: Reply)
    requires OneKeyEach(reply)
  {
    forall i | 0 <= i < |reply| :: EntryConfirms(prefix, request, reply[i])
  }

  lemma AcceptedIffConfirmed(prefix: string, request: State, reply: Reply)
    requires Typed(request) && OneKeyEach(reply)
    ensures FirstProblem(prefix, Wire(request), reply) == Accepted <==> Confirmed(prefix, request, reply)
  {
    AllEntriesAccepted(prefix, Wire(request), reply);
    forall i | 0 <= i < |reply|
      ensures EntryVerdict(prefix, Wire(request), reply[i]) == Accepted <==> EntryConfirms(prefix, request, reply[i])
    {
      assert reply[i] in reply;
      EntryIsJudged(prefix, request, reply[i]);
    }
  }

  lemma {:induction false} ThrowsIffItBreaks(prefix: string, request: State, reply: Reply)
    requires Typed(request) && OneKeyEach(reply)
    ensures FirstProblem(prefix, Wire(request), reply) == TypeError <==> Breaks(prefix, request, reply)
  {
    if reply != [] {
      EntryIsJudged(prefix, request, reply[0]);
      ThrowsIffItBreaks(prefix, request, reply[1..]);
      BreaksLater(prefix, request, reply);
    }
  }

  lemma BreaksLater(prefix: string, request: State, reply: Reply)
    requires Typed(request) && OneKeyEach(reply) && reply != []
    ensures Breaks(prefix, request, reply)
       <==> Unindexable(prefix, request, reply[0])
            || (EntryConfirms(prefix, request, reply[0]) && Breaks(prefix, request, reply[1..]))
  {
    ConfirmsOrBreaks(prefix, request, reply[0]);
    if EntryConfirms(prefix, request, reply[0]) && Breaks(prefix, request, reply[1..]) {
      BreaksAfter(prefix, request, reply);
    }
    if Breaks(prefix, request, reply) {
      var i :| 0 <= i < |reply| && Unindexable(prefix, request, reply[i])
               && forall j | 0 <= j < i :: EntryConfirms(prefix, request, reply[j]);
      if i > 0 {
        var rest := reply[1..];
        assert Unindexable(prefix, request, rest[i - 1]);
        assert forall j | 0 <= j < i - 1 :: rest[j] == reply[j + 1];
      }
    }
  }

  lemma BreaksAfter(prefix: string, request: State, reply: Reply)
    requires OneKeyEach(reply) && reply != []
    requires EntryConfirms(prefix, request, reply[0]) && Breaks(prefix, request, reply[1..])
    ensures Breaks(prefix, request, reply)
  {
    var rest := reply[1..];
    var i :| 0 <= i < |rest| && Unindexable(prefix, request, rest[i])
             && forall j | 0 <= j < i :: EntryConfirms(prefix, request, rest[j]);
    assert Unindexable(prefix, request, reply[i + 1]);
    forall j | 0 <= j < i + 1
      ensures EntryConfirms(prefix, request, reply[j])
    {
      if j > 0 {
        assert reply[j] == rest[j - 1];
      }
    }
  }

  lemma ConfirmsOrBreaks(prefix: string, request: State, e: Entry)
    requires Typed(request) && (e.Success? ==> |e.fields| == 1)
    ensures !(EntryConfirms(prefix, request, e) && Unindexable(prefix, request, e))
  {
    EntryIsJudged(prefix, request, e);
  }

  // --- A commit ---

  /** The path, ending in one slash. */
  function Prefix(path: string): string
    requires path != ""
  {
    if path[|path| - 1] == '/' then path else path + ['/']
  }

  ghost predicate OneKeyAnswer(a: Answer) {
    a.Replies? ==> OneKeyEach(a.reply)
  }

  /** What the caller is told, by the answer to the PUT request. */
  ghost predicate Tells(path: string, request: State, a: Answer, outcome: Outcome)
    requires path != "" && OneKeyAnswer(a)
  {
    match a
    case Throws(_) => outcome == Thrown
    case Replies(_, reply) =>
      && (outcome == Done(true) <==> reply != [] && Confirmed(Prefix(path), request, reply))
      && (outcome == Thrown <==> Breaks(Prefix(path), request, reply))
  }

  /** Sending a request: one record, the light does what the bridge lets it do, and the caller is told true exactly
      when the reply is nonempty and all its entries confirm, an exception exactly when PUT throws or a coordinate
      cannot be indexed, and false otherwise. */
  lemma SendIsJudged(answers: Answers, path: string, device: State, sent: seq<Sent>, request: State)
    requires path != "" && Typed(request) && OneKeyAnswer(answers(|sent|, request))
    requires request.Keys != {} && request.Keys != {TransitionTime}
    ensures var x, a := Deliver(answers, path, device, sent, request), answers(|sent|, request);
            && Tells(path, request, a, x.outcome)
            && x.sent == sent + [Sent(request, device)]
            && x.device == if a.applied then Execute(device, request) else device
  {
    var a := answers(|sent|, request);
    if a.Replies? {
      assert WithSlash(path) == Prefix(path);
      AcceptedIffConfirmed(Prefix(path), request, a.reply);
      ThrowsIffItBreaks(Prefix(path), request, a.reply);
    }
  }

  /** A commit of a light's transaction, from the reading of the cached state on. */
  lemma CommitIsJudged(env: Env, w: World, request: State)
    requires env.path != "" && TypedWorld(w) && Typed(request)
    requires forall n: nat, r: State :: OneKeyAnswer(env.answers(n, r))
    ensures var s := Transact(env, w, request);
            var cache := if env.refreshes(w.lookups) == Reload then w.device else w.cache;
            var r := Prepared(Some(cache), request, true);
            && s.world.lookups == w.lookups + 1
            && if env.refreshes(w.lookups) == Fails then
                 s.outcome == Thrown && s.world.cache == w.cache && s.world.device == w.device && s.world.sent == w.sent
               else
                 && (if r.Keys == {} || r.Keys == {TransitionTime} then
                       s.outcome == Done(true) && s.world.sent == w.sent && s.world.device == w.device
                     else
                       Tells(env.path, r, env.answers(|w.sent|, r), s.outcome)
                       && s.world.sent == w.sent + [Sent(r, w.device)])
                 && (s.outcome != Done(true) ==> s.world.cache == cache)
                 && (s.outcome == Done(true) ==> HasWritten(cache, r, s.world.cache))
  {
    if env.refreshes(w.lookups) != Fails {
      var cache := Fetched(env, w);
      var r := Prepared(Some(cache), request, true);
      if Sends(r) {
        SendIsJudged(env.answers, env.path, w.device, w.sent, r);
      }
      WrittenIsWritten(cache, r);
    }
  }

  /** The cached state has all sent values except the transition time, and is otherwise unchanged. */
  predicate HasWritten(cache: State, r: State, after: State) {
    && (forall k | k in r && k != TransitionTime :: k in after && after[k] == r[k])
    && (forall k | k !in r || k == TransitionTime ::
          (k in after <==> k in cache) && (k in cache ==> after[k] == cache[k]))
  }

  lemma WrittenIsWritten(cache: State, r: State)
    ensures HasWritten(cache, r, Written(cache, r))
  {
  }

  // --- What is sent ---

  /** The request that a transaction makes when it is not trimmed: "on" is added when the light is off or its state
      unknown, and the request changes how it looks, with a brightness that is not zero; "off" when the brightness is
      zero and the light is not known to be off.  Everything else is as requested. */
  lemma OnIsAddedExactlyWhen(cache: State, request: State)
    requires Typed(cache) && Typed(request)
    ensures var r := Prepared(Some(cache), request, false);
            var lit, dark := On in cache && cache[On] == Flag(true), On in cache && cache[On] == Flag(false);
            var zero := Bri in request && request[Bri] == Number(0);
            && (forall k | k != On :: (k in r <==> k in request) && (k in request ==> r[k] == request[k]))
            && if On in request then On in r && r[On] == request[On]
               else if !lit && !zero && !(request.Keys !! {Bri, Effect, Hue, Sat, Xy, Ct}) then
                 On in r && r[On] == Flag(true)
               else if !dark && zero then On in r && r[On] == Flag(false)
               else On !in r
  {
    if On in cache { assert TypeFits(On, cache[On]); }
    if Bri in request { assert TypeFits(Bri, request[Bri]); }
    assert ChangesLight(request) <==> !(request.Keys !! {Bri, Effect, Hue, Sat, Xy, Ct});
  }

  /** A group has no cached state: trimming changes nothing, and all that a light in an unknown state gets is sent. */
  lemma GroupRequestsAreNotTrimmed(request: State, trim: bool)
    requires Typed(request)
    ensures Prepared(None, request, trim) == Prepared(Some(map[]), request, false)
  {
  }
}
