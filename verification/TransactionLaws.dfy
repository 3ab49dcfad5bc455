/** What transactions promise: trimming keeps the meaning of a request, and the cached state stays right. */
module TransactionLaws {
  import opened Wrappers
  import opened LightState
  import opened HueBridge
  import opened StateTransactions

  /** Equal states, up to the tolerance on xy. */
  predicate Alike(a: State, b: State) {
    a.Keys == b.Keys && forall k | k in a :: Indistinguishable(k, a[k], b[k])
  }

  // --- Trimming ---

  /** The erase loop is a filter: what it keeps, it keeps unchanged; what it drops, the cache already shows. */
  lemma TrimDropsOnlyWhatIsShown(cache: State, request: State, k: Key)
    requires Typed(cache) && Typed(request) && k in request
    ensures k in Trim(cache, request) ==> Trim(cache, request)[k] == request[k]
    ensures k !in Trim(cache, request) ==>
              && k in {On, Bri, Effect, Hue, Sat, Xy, Ct}
              && k in cache && Indistinguishable(k, cache[k], request[k])
              && (IsColour(k) ==> CachedMode(cache) == KeyMode(k))
    ensures k in INCREMENTS + {Alert, TransitionTime} ==> k in Trim(cache, request)
    ensures Trim(cache, Trim(cache, request)) == Trim(cache, request)
  {
    if k !in Trim(cache, request) {
      assert Redundant(cache, k, request[k]);
      assert TypeFits(k, request[k]);
    }
  }

  /** Writing the trimmed request into the cached state gives what writing the full one would have given. */
  lemma TrimPreservesWrite(cache: State, request: State)
    requires Typed(cache) && Typed(request)
    ensures Alike(Written(cache, Trim(cache, request)), Written(cache, request))
  {
    var trimmed, full := Written(cache, Trim(cache, request)), Written(cache, request);
    forall k
      ensures k in trimmed <==> k in full
      ensures k in trimmed ==> Indistinguishable(k, trimmed[k], full[k])
    {
      if k in request {
        TrimDropsOnlyWhatIsShown(cache, request, k);
      }
    }
  }

  /** The request asks for the mode the light is already in, with colours it already has, and at the same time for
      a colour of a mode that gives way to it. */
  predicate UncoversOtherMode(cache: State, request: State)
    requires Typed(cache)
  {
    && HasColour(request) && Dominant(request) == CachedMode(cache)
    && (forall k | k in request && IsColour(k) && KeyMode(k) == CachedMode(cache) :: Redundant(cache, k, request[k]))
    && (exists k :: k in request && IsColour(k) && KeyMode(k) != CachedMode(cache))
  }

  predicate OneMode(request: State) {
    forall j, k | j in request && k in request && IsColour(j) && IsColour(k) :: KeyMode(j) == KeyMode(k)
  }

  lemma TrimmedColours(cache: State, request: State)
    requires Typed(cache)
    requires !UncoversOtherMode(cache, request) && HasColour(request)
    ensures HasColour(Trim(cache, request)) ==> Dominant(Trim(cache, request)) == Dominant(request)
    ensures !HasColour(Trim(cache, request)) ==> CachedMode(cache) == Dominant(request) && ColorMode in cache
  {
    var t := Trim(cache, request);
    forall k | k in request && k !in t && IsColour(k)
      ensures CachedMode(cache) == KeyMode(k) && ColorMode in cache
    {
      assert Redundant(cache, k, request[k]);
    }
    assert forall k | k in t :: k in request;
  }

  /** What a light holds under a key after a request. */
  lemma ExecutedAt(device: State, request: State, k: Key)
    requires k != ColorMode
    ensures k in Execute(device, request) <==> k in device || (k in request && k in STORED)
    ensures k in Execute(device, request) ==>
              Execute(device, request)[k] == if k in request && k in STORED then request[k] else device[k]
  {
  }

  lemma StoredAlike(cache: State, request: State, k: Key)
    requires Typed(cache) && Typed(request) && k != ColorMode
    ensures k in Execute(cache, Trim(cache, request)) <==> k in Execute(cache, request)
    ensures k in Execute(cache, request) ==>
              Indistinguishable(k, Execute(cache, Trim(cache, request))[k], Execute(cache, request)[k])
  {
    ExecutedAt(cache, Trim(cache, request), k);
    ExecutedAt(cache, request, k);
    if k in request {
      TrimDropsOnlyWhatIsShown(cache, request, k);
    }
  }

  /** On a light that agrees with the cached state, the trimmed request does what the full one does, exactly when
      trimming does not uncover a second colour mode. */
  lemma TrimPreservesEffect(cache: State, request: State)
    requires Typed(cache) && Typed(request) && ColorMode in cache && ColorMode !in request
    ensures Alike(Execute(cache, Trim(cache, request)), Execute(cache, request)) <==> !UncoversOtherMode(cache, request)
  {
    var trimmed, full := Execute(cache, Trim(cache, request)), Execute(cache, request);
    forall k | k != ColorMode
      ensures k in trimmed <==> k in full
      ensures k in full ==> Indistinguishable(k, trimmed[k], full[k])
    {
      StoredAlike(cache, request, k);
    }
    assert ColorMode in trimmed && ColorMode in full;
    if UncoversOtherMode(cache, request) {
      var other :| other in request && IsColour(other) && KeyMode(other) != CachedMode(cache);
      assert other in Trim(cache, request);
      assert HasColour(Trim(cache, request));
      var shown := if Xy in Trim(cache, request) then Xy else if Ct in Trim(cache, request) then Ct
                   else if Hue in Trim(cache, request) then Hue else Sat;
      assert shown in request && !Redundant(cache, shown, request[shown]);
      assert trimmed[ColorMode] != full[ColorMode];
    } else if HasColour(request) {
      TrimmedColours(cache, request);
      assert trimmed[ColorMode] == full[ColorMode];
    }
  }

  /** Requests for one kind of colour are always safe to trim. */
  lemma OneModeIsSafe(cache: State, request: State)
    requires Typed(cache) && OneMode(request)
    ensures !UncoversOtherMode(cache, request)
  {
    if HasColour(request) {
      var first := if Xy in request then Xy else if Ct in request then Ct else if Hue in request then Hue else Sat;
      assert first in request && KeyMode(first) == Dominant(request);
    }
  }

  // --- Commit ---

  /** The state a commit leaves in the cache. */
  ghost function CommitCache(answers: Answers, path: string, device: State, sent: seq<Sent>,
                             cache: State, request: State, trim: bool): State
    requires path != "" && Typed(cache) && Typed(request)
  {
    var r := Prepared(Some(cache), request, trim);
    Cached(cache, r, Deliver(answers, path, device, sent, r).outcome)
  }

  ghost function CommitOutcome(answers: Answers, path: string, device: State, sent: seq<Sent>,
                               cache: State, request: State, trim: bool): Outcome
    requires path != "" && Typed(cache) && Typed(request)
  {
    Deliver(answers, path, device, sent, Prepared(Some(cache), request, trim)).outcome
  }

  /** On/off inference: what the cached "on" flag says after a successful commit. */
  lemma OnIsInferred(answers: Answers, path: string, device: State, sent: seq<Sent>,
                     cache: State, request: State, trim: bool)
    requires path != "" && Typed(cache) && Typed(request)
    requires CommitOutcome(answers, path, device, sent, cache, request, trim) == Done(true)
    ensures var after := CommitCache(answers, path, device, sent, cache, request, trim);
            if On in request then On in after && after[On] == request[On]
            else if Bri in request || Effect in request || Hue in request || Sat in request || Xy in request
                    || Ct in request then
              On in after && after[On] == Flag(BriOr(request, 254) != 0)
            else (On in after <==> On in cache) && (On in cache ==> after[On] == cache[On])
  {
    var inferred := InferOn(cache, request);
    assert On in inferred ==> TypeFits(On, inferred[On]);
    assert On in cache ==> TypeFits(On, cache[On]);
  }

  /** Keys for which a repeated request has nothing left to do, in the given colour mode. */
  predicate Repeatable(mode: Mode, k: Key) {
    k in {On, Bri, Effect, TransitionTime} || (IsColour(k) && KeyMode(k) == mode)
  }

  /** What was just written is redundant the next time. */
  lemma WrittenIsRedundant(cache: State, request: State, trim: bool, k: Key)
    requires Typed(cache) && Typed(request)
    requires k in request && k != TransitionTime && Repeatable(CachedMode(cache), k)
    requires ColorMode !in request
    ensures var after := Written(cache, Prepared(Some(cache), request, trim));
            Typed(after) && CachedMode(after) == CachedMode(cache) && Redundant(after, k, request[k])
  {
    var r := Prepared(Some(cache), request, trim);
    assert TypeFits(k, request[k]);
    if k !in r {
      assert Redundant(cache, k, request[k]);
    }
  }

  /** Repeating a successful commit sends nothing. */
  lemma RepeatSendsNothing(answers: Answers, path: string, device: State, sent: seq<Sent>,
                           cache: State, request: State, trim: bool)
    requires path != "" && Typed(cache) && Typed(request)
    requires forall k | k in request :: Repeatable(CachedMode(cache), k)
    requires CommitOutcome(answers, path, device, sent, cache, request, trim) == Done(true)
    ensures var after := CommitCache(answers, path, device, sent, cache, request, trim);
            Typed(after) && !Sends(Prepared(Some(after), request, true))
  {
    OnIsInferred(answers, path, device, sent, cache, request, trim);
    SuccessIsWritten(answers, path, device, sent, cache, request, trim);
    var after := Written(cache, Prepared(Some(cache), request, trim));
    AllWrittenIsRedundant(cache, request, trim);
    NothingToSend(after, request);
  }

  lemma SuccessIsWritten(answers: Answers, path: string, device: State, sent: seq<Sent>,
                         cache: State, request: State, trim: bool)
    requires path != "" && Typed(cache) && Typed(request)
    requires CommitOutcome(answers, path, device, sent, cache, request, trim) == Done(true)
    ensures CommitCache(answers, path, device, sent, cache, request, trim)
         == Written(cache, Prepared(Some(cache), request, trim))
  {
  }

  lemma AllWrittenIsRedundant(cache: State, request: State, trim: bool)
    requires Typed(cache) && Typed(request)
    requires forall k | k in request :: Repeatable(CachedMode(cache), k)
    ensures var after := Written(cache, Prepared(Some(cache), request, trim));
            Typed(after) && forall k | k in request && k != TransitionTime :: Redundant(after, k, request[k])
  {
    var after := Written(cache, Prepared(Some(cache), request, trim));
    assert Typed(Cached(cache, Prepared(Some(cache), request, trim), Done(true)));
    forall k | k in request && k != TransitionTime
      ensures Redundant(after, k, request[k])
    {
      WrittenIsRedundant(cache, request, trim, k);
    }
  }

  lemma NothingToSend(after: State, request: State)
    requires Typed(after) && Typed(request)
    requires On !in request && ChangesLight(request) ==>
               On in after && after[On] == Flag(BriOr(request, 254) != 0)
    requires forall k | k in request && k != TransitionTime :: Redundant(after, k, request[k])
    ensures !Sends(Prepared(Some(after), request, true))
  {
    NothingToInfer(after, request);
    assert Trim(after, request).Keys <= {TransitionTime};
  }

  /** Once the cached flag says what the request implies, nothing is inferred any more. */
  lemma NothingToInfer(after: State, request: State)
    requires Typed(after) && Typed(request)
    requires On !in request && ChangesLight(request) ==>
               On in after && after[On] == Flag(BriOr(request, 254) != 0)
    ensures InferOn(after, request) == request
  {
  }

  /** A commit that fails, by returning false or by an exception, leaves the cached state alone. */
  lemma FailureIsAtomic(answers: Answers, path: string, device: State, sent: seq<Sent>,
                        cache: State, request: State, trim: bool)
    requires path != "" && Typed(cache) && Typed(request)
    requires CommitOutcome(answers, path, device, sent, cache, request, trim) != Done(true)
    ensures CommitCache(answers, path, device, sent, cache, request, trim) == cache
  {
  }
}
