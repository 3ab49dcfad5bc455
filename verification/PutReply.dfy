/** Validation of the bridge's answer to a PUT request (src/Utils.cpp). */
module PutReply {
  import opened LightState

  type WireRequest = map<string, Value>

  /** One element of the reply. `fields` are the members of its "success" object, in iteration order. */
  datatype Entry = NoSuccess | Success(fields: seq<(string, Value)>)

  type Reply = seq<Entry>

  /** TypeError: a coordinate pair was expected, and indexing the JSON value throws. */
  datatype Verdict = Accepted | Refused | TypeError

  function WithSlash(path: string): string
    requires path != ""
  {
    if path[|path| - 1] != '/' then path + "/" else path
  }

  function Judge(b: bool): Verdict {
    if b then Accepted else Refused
  }

  /** What the inner loop body decides about one reported key. */
  function FieldVerdict(prefix: string, request: WireRequest, field: (string, Value)): Verdict {
    if !(prefix <= field.0) then Refused
    else
      var key := field.0[|prefix|..];
      if key !in request then Refused
      else if key == "xy" then
        if request[key].Pair? && field.1.Pair? then Judge(Close(request[key], field.1)) else TypeError
      else Judge(request[key] == field.1 || field.1 == Text("Updated."))
  }

  /** The verdict on a success object: the last key decides, unless one of them throws. */
  ghost function EntryVerdict(prefix: string, request: WireRequest, e: Entry): Verdict {
    match e
    case NoSuccess => Refused
    case Success(fields) =>
      if exists i :: 0 <= i < |fields| && FieldVerdict(prefix, request, fields[i]) == TypeError then TypeError
      else if fields == [] then Accepted
      else FieldVerdict(prefix, request, fields[|fields| - 1])
  }

  /** The verdict on the whole reply: the first entry that is not accepted decides. */
  ghost function ReplyVerdict(path: string, request: WireRequest, reply: Reply): Verdict
    requires path != ""
  {
    if reply == [] then Refused else FirstProblem(WithSlash(path), request, reply)
  }

  ghost function FirstProblem(prefix: string, request: WireRequest, reply: Reply): Verdict {
    if reply == [] then Accepted
    else
      var v := EntryVerdict(prefix, request, reply[0]);
      if v == Accepted then FirstProblem(prefix, request, reply[1..]) else v
  }

  method ValidatePutReply(path: string, request: WireRequest, reply: Reply) returns (verdict: Verdict)
    requires path != ""
    ensures verdict == ReplyVerdict(path, request, reply)
  {
    var pathAppend := path;
    if pathAppend[|pathAppend| - 1] != '/' {
      pathAppend := pathAppend + "/";
    }
    var success := false;
    for i := 0 to |reply|
      invariant i == 0 ==> !success
      invariant i > 0 ==> success
      invariant FirstProblem(pathAppend, request, reply) == FirstProblem(pathAppend, request, reply[i..])
    {
      success := reply[i].Success?;
      if success {
        var fields := reply[i].fields;
        for j := 0 to |fields|
          invariant j == 0 ==> success
          invariant forall k :: 0 <= k < j ==> FieldVerdict(pathAppend, request, fields[k]) != TypeError
          invariant j > 0 ==> success == (FieldVerdict(pathAppend, request, fields[j - 1]) == Accepted)
        {
          var (successPath, reported) := fields[j];
          if pathAppend <= successPath {
            var valueKey := successPath[|pathAppend|..];
            success := valueKey in request;
            if success {
              if valueKey == "xy" {
                if !request[valueKey].Pair? || !reported.Pair? {
                  return TypeError;
                }
                success := FloatEquals(request[valueKey].x, reported.x) && FloatEquals(request[valueKey].y, reported.y);
              } else {
                success := request[valueKey] == reported || (reported.Text? && reported.text == "Updated.");
              }
            }
          } else {
            success := false;
          }
        }
      }
      assert reply[i..][1..] == reply[i + 1..];
      if !success {
        return Refused;
      }
    }
    verdict := Judge(success);
  }

  lemma {:induction false} AllEntriesAccepted(prefix: string, request: WireRequest, reply: Reply)
    ensures FirstProblem(prefix, request, reply) == Accepted
       <==> forall i :: 0 <= i < |reply| ==> EntryVerdict(prefix, request, reply[i]) == Accepted
  {
    if reply == [] {
    } else {
      AllEntriesAccepted(prefix, request, reply[1..]);
      assert reply == reply[..1] + reply[1..];
      assert forall i :: 1 <= i < |reply| ==> reply[i] == reply[1..][i - 1];
      if FirstProblem(prefix, request, reply) == Accepted {
        assert EntryVerdict(prefix, request, reply[0]) == Accepted;
      }
    }
  }

  /** What the reply must say about a request for the API's one-key-per-entry format. */
  ghost predicate Confirms(prefix: string, request: WireRequest, field: (string, Value)) {
    exists key :: key in request && field.0 == prefix + key
               && (field.1 == request[key] || (key != "xy" && field.1 == Text("Updated."))
                   || (key == "xy" && Close(request[key], field.1)))
  }

  predicate OneKeyEach(reply: Reply) {
    forall e | e in reply :: e.Success? ==> |e.fields| == 1
  }

  predicate PairUnderXy(request: WireRequest) {
    "xy" in request ==> request["xy"].Pair?
  }

  lemma FieldAccepted(prefix: string, request: WireRequest, field: (string, Value))
    requires PairUnderXy(request)
    ensures FieldVerdict(prefix, request, field) == Accepted <==> Confirms(prefix, request, field)
  {
    if prefix <= field.0 {
      var key := field.0[|prefix|..];
      assert field.0 == prefix + key;
      assert forall other :: field.0 == prefix + other ==> other == field.0[|prefix|..];
    }
  }

  /** Replies whose success objects have one key each: accepted exactly when every entry confirms a requested key. */
  lemma AcceptedIffEveryEntryConfirms(path: string, request: WireRequest, reply: Reply)
    requires path != "" && PairUnderXy(request) && OneKeyEach(reply)
    ensures ReplyVerdict(path, request, reply) == Accepted
       <==> reply != [] && forall i :: 0 <= i < |reply| ==>
              reply[i].Success? && Confirms(WithSlash(path), request, reply[i].fields[0])
  {
    var prefix := WithSlash(path);
    AllEntriesAccepted(prefix, request, reply);
    forall i | 0 <= i < |reply|
      ensures EntryVerdict(prefix, request, reply[i]) == Accepted
         <==> reply[i].Success? && Confirms(prefix, request, reply[i].fields[0])
    {
      assert reply[i] in reply;
      if reply[i].Success? {
        FieldAccepted(prefix, request, reply[i].fields[0]);
      }
    }
  }

  /** The echo of a request: one success entry per requested key, in any order. */
  predicate IsEcho(path: string, request: WireRequest, reply: Reply)
    requires path != ""
  {
    && reply != []
    && forall e | e in reply ::
         e.Success? && |e.fields| == 1
         && WithSlash(path) <= e.fields[0].0
         && var key := e.fields[0].0[|WithSlash(path)|..];
            key in request && e.fields[0].1 == request[key]
  }

  lemma EchoIsAccepted(path: string, request: WireRequest, reply: Reply)
    requires path != "" && PairUnderXy(request) && IsEcho(path, request, reply)
    ensures ReplyVerdict(path, request, reply) == Accepted
  {
    var prefix := WithSlash(path);
    forall i | 0 <= i < |reply|
      ensures reply[i].Success? && Confirms(prefix, request, reply[i].fields[0])
    {
      assert reply[i] in reply;
      var field := reply[i].fields[0];
      var key := field.0[|prefix|..];
      assert field.0 == prefix + key;
    }
    AcceptedIffEveryEntryConfirms(path, request, reply);
  }

  // --- Several keys in one success object ---

  /** The order in which the source's JSON objects keep their keys. */
  predicate Before(a: string, b: string) {
    b != "" && (a == "" || a[0] < b[0] || (a[0] == b[0] && Before(a[1..], b[1..])))
  }

  predicate InKeyOrder(fields: seq<(string, Value)>) {
    forall i, j | 0 <= i < j < |fields| :: Before(fields[i].0, fields[j].0)
  }

  lemma {:induction false} BeforeIsAsymmetric(a: string, b: string)
    ensures !(Before(a, b) && Before(b, a))
  {
    if a != "" && b != "" {
      BeforeIsAsymmetric(a[1..], b[1..]);
    }
  }

  /** The key that comes last in the order decides alone, whatever is reported for the others. */
  lemma OnlyTheGreatestKeyCounts(path: string, request: WireRequest, fields: seq<(string, Value)>, k: nat)
    requires path != "" && InKeyOrder(fields) && k < |fields|
    requires forall i | 0 <= i < |fields| && i != k :: Before(fields[i].0, fields[k].0)
    requires forall i | 0 <= i < |fields| :: FieldVerdict(WithSlash(path), request, fields[i]) != TypeError
    ensures ReplyVerdict(path, request, [Success(fields)]) == FieldVerdict(WithSlash(path), request, fields[k])
  {
    var last := |fields| - 1;
    if k < last {
      BeforeIsAsymmetric(fields[k].0, fields[last].0);
      assert false;
    }
    var prefix, reply := WithSlash(path), [Success(fields)];
    assert EntryVerdict(prefix, request, reply[0]) == FieldVerdict(prefix, request, fields[k]);
    assert reply[1..] == [] && FirstProblem(prefix, request, reply[1..]) == Accepted;
  }

  /** So a wrong value goes unnoticed exactly when its key is not the greatest. */
  lemma OnlyTheLastKeyCounts(path: string, request: WireRequest, wrong: (string, Value), right: (string, Value))
    requires path != ""
    requires FieldVerdict(WithSlash(path), request, wrong) == Refused
    requires FieldVerdict(WithSlash(path), request, right) == Accepted
    ensures Before(wrong.0, right.0) ==> ReplyVerdict(path, request, [Success([wrong, right])]) == Accepted
    ensures Before(right.0, wrong.0) ==> ReplyVerdict(path, request, [Success([right, wrong])]) == Refused
  {
    if Before(wrong.0, right.0) {
      OnlyTheGreatestKeyCounts(path, request, [wrong, right], 1);
    }
    if Before(right.0, wrong.0) {
      OnlyTheGreatestKeyCounts(path, request, [right, wrong], 1);
    }
  }

  /** An entry that reports requested coordinates, and something that is no pair, under any of its keys makes the
      validation throw. */
  lemma AnyUnindexableKeyThrows(path: string, request: WireRequest, fields: seq<(string, Value)>, k: nat)
    requires path != "" && k < |fields| && "xy" in request
    requires fields[k].0 == WithSlash(path) + "xy" && !fields[k].1.Pair?
    ensures ReplyVerdict(path, request, [Success(fields)]) == TypeError
  {
    var prefix := WithSlash(path);
    assert fields[k].0[|prefix|..] == "xy";
    assert FieldVerdict(prefix, request, fields[k]) == TypeError;
    assert EntryVerdict(prefix, request, [Success(fields)][0]) == TypeError;
  }

  /** A success object without keys is accepted, and an empty reply is not. */
  lemma EmptyRepliesAndObjects(path: string, request: WireRequest)
    requires path != ""
    ensures ReplyVerdict(path, request, [Success([])]) == Accepted
    ensures ReplyVerdict(path, request, []) == Refused && ReplyVerdict(path, request, [NoSuccess]) == Refused
  {
    var reply := [Success([])];
    assert EntryVerdict(WithSlash(path), request, reply[0]) == Accepted;
    assert reply[1..] == [] && FirstProblem(WithSlash(path), request, reply[1..]) == Accepted;
    assert EntryVerdict(WithSlash(path), request, [NoSuccess][0]) == Refused;
  }

  /** A path without trailing slash is as good as with one. */
  lemma SlashMakesNoDifference(path: string, request: WireRequest, reply: Reply)
    requires path != "" && path[|path| - 1] != '/'
    ensures ReplyVerdict(path, request, reply) == ReplyVerdict(path + "/", request, reply)
  {
    assert (path + "/")[|path|] == '/';
  }
}
