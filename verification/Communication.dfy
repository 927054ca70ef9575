/** The calls a user makes: onboarding, exchanging, updating, and the renew, rotate and retry layer. */
module Communication {
  import opened Codes
  import opened LinkedList
  import opened HttpRequest
  import opened Packing
  import opened Store
  import opened Conservation
  import opened Contents
  import opened Sweep
  import opened Fill
  import opened Exchange
  import opened SecurityHandler
  import Credentials

  // ---------- two exchanges after one another ----------

  lemma {:induction false} AcceptedIdsJoin(log: seq<Attempt>, more: seq<Attempt>)
    ensures AcceptedIds(log + more) == AcceptedIds(log) + AcceptedIds(more)
  {
    if more == [] {
      assert log + more == log;
    } else {
      var init, a := more[..|more| - 1], more[|more| - 1];
      var ids := if a.Accepted() then PickIds(a.picks) else [];
      AcceptedIdsJoin(log, init);
      assert more == init + [a];
      Assoc(log, init, [a]);
      AcceptedSnoc(log + init, a);
      AcceptedSnoc(init, a);
      Assoc(AcceptedIds(log), AcceptedIds(init), ids);
    }
  }

  lemma IdSetJoin(s: seq<nat>, t: seq<nat>)
    ensures IdSet(s + t) == IdSet(s) + IdSet(t)
  {
    assert forall i :: 0 <= i < |s| ==> (s + t)[i] == s[i];
    assert forall i :: 0 <= i < |t| ==> (s + t)[|s| + i] == t[i];
  }

  /** Nothing is accepted twice in two exchanges, whatever state the items were in at the start. */
  lemma AtMostOnce(before: seq<Item>, mid: seq<Item>, now: seq<Item>, low: seq<Item>, lowMid: seq<Item>,
                   lowNow: seq<Item>, log: seq<Attempt>, more: seq<Attempt>)
    requires Accounted(before, mid, low, lowMid, log) && Accounted(mid, now, lowMid, lowNow, more)
    ensures NoRepeats(AcceptedIds(log + more))
    ensures forall x :: x in AcceptedIds(log + more) ==> x in Ids(before) && x !in Ids(now)
  {
    AcceptedIdsJoin(log, more);
    WithoutMembers(Ids(before), Gone(before, log));
    WithoutMembers(Ids(mid), Gone(mid, more));
    assert forall x :: x in AcceptedIds(log) ==> x in IdSet(AcceptedIds(log));
    assert forall x :: x in AcceptedIds(more) ==> x in IdSet(AcceptedIds(more));
    NoRepeatsJoin(AcceptedIds(log), AcceptedIds(more));
  }

  /** Where the second exchange takes over: nothing was sent and nothing has changed, or nothing is in flight. */
  ghost predicate Handover(before: seq<Item>, mid: seq<Item>, low: seq<Item>, lowMid: seq<Item>, log: seq<Attempt>) {
    if log == [] then mid == before && lowMid == low else NoneInFlight(mid) && NoneInFlight(lowMid)
  }

  lemma GoneJoin(items: seq<Item>, mid: seq<Item>, log: seq<Attempt>, more: seq<Attempt>)
    requires if log == [] then mid == items else NoneInFlight(mid)
    ensures Gone(items, log + more) == Gone(items, log) + Gone(mid, more)
  {
    AcceptedIdsJoin(log, more);
    IdSetJoin(AcceptedIds(log), AcceptedIds(more));
    if log == [] {
      assert log + more == more;
    } else {
      NoStale(mid);
    }
  }

  /** The two exchanges keep the books like one. */
  lemma AccountsJoin(before: seq<Item>, mid: seq<Item>, now: seq<Item>, low: seq<Item>, lowMid: seq<Item>,
                     lowNow: seq<Item>, log: seq<Attempt>, more: seq<Attempt>)
    requires Accounted(before, mid, low, lowMid, log) && Accounted(mid, now, lowMid, lowNow, more)
    requires Handover(before, mid, low, lowMid, log)
    ensures Accounted(before, now, low, lowNow, log + more)
  {
    AtMostOnce(before, mid, now, low, lowMid, lowNow, log, more);
    AcceptedIdsJoin(log, more);
    GoneJoin(before, mid, log, more);
    GoneJoin(low, lowMid, log, more);
    WithoutTwice(Ids(before), Gone(before, log), Gone(mid, more));
    WithoutTwice(Ids(low), Gone(low, log), Gone(lowMid, more));
    if FirstAccepted(log + more) {
      forall x | x in AcceptedIds(log + more) ensures x !in StaleIds(before) {
        if log == [] {
          assert log + more == more;
        } else {
          WithoutMembers(Ids(before), Gone(before, log));
        }
      }
    }
  }

  // ---------- one exchange call ----------

  /** Codes with which an exchange call ends before it looks at the store's items. */
  predicate IsRefusal(code: Code) {
    code == NotInitialized || code == NotOnboarded || code == NoAccessTokenExists || code == StoreIsEmpty
  }

  /** An exchange call was refused and changed nothing, or it ran. */
  ghost predicate Tried(json: Json, before: seq<Item>, low: seq<Item>, now: seq<Item>, lowNow: seq<Item>,
                        log: seq<Attempt>, max: nat, code: Code, evaluated: bool)
  {
    || (IsRefusal(code) && !evaluated && log == [] && now == before && lowNow == low)
    || Ended(json, before, low, now, lowNow, log, max, code, evaluated)
  }

  /** The books of a run: where every item went, what was sent of it, and that the requests hold it. */
  ghost predicate Books(json: Json, before: seq<Item>, low: seq<Item>, now: seq<Item>, lowNow: seq<Item>,
                        log: seq<Attempt>, max: nat)
  {
    && Accounted(before, now, low, lowNow, log)
    && Documented(json, before, low, now, lowNow, log)
    && AllFaithful(log, max)
  }

  lemma NotTried(json: Json, now: seq<Item>, lowNow: seq<Item>, max: nat)
    ensures forall code :: IsRefusal(code) ==> Tried(json, now, lowNow, now, lowNow, [], max, code, false)
  {
  }

  lemma BooksOfOne(json: Json, before: seq<Item>, low: seq<Item>, now: seq<Item>, lowNow: seq<Item>,
                   log: seq<Attempt>, max: nat, code: Code, evaluated: bool)
    requires NoneSent(before) && NoneSent(low)
    requires Tried(json, before, low, now, lowNow, log, max, code, evaluated)
    ensures Books(json, before, low, now, lowNow, log, max)
    ensures NoneSent(now) && NoneSent(lowNow)
  {
    hide Accounted, Documented;
    AccountStart(before, low);
    DocumentedStart(json, before, low);
  }

  /** An exchange after which the run goes on was refused, or had its answer evaluated. */
  lemma RefusedHandsOver(json: Json, before: seq<Item>, mid: seq<Item>, low: seq<Item>, lowMid: seq<Item>,
                         log: seq<Attempt>, max: nat, code: Code, evaluated: bool)
    requires Tried(json, before, low, mid, lowMid, log, max, code, evaluated)
    requires code == Unauthorized || code == NoAccessTokenExists
    ensures Handover(before, mid, low, lowMid, log)
  {
    hide Accounted, Documented, AllFaithful;
  }

  lemma FaithfulJoin(log: seq<Attempt>, more: seq<Attempt>, max: nat)
    requires AllFaithful(log, max) && AllFaithful(more, max)
    ensures AllFaithful(log + more, max)
  {
    hide Recorded;
  }

  /** The last request was answered, with status 401. */
  ghost predicate RefusedCredentials(log: seq<Attempt>) {
    log != [] && log[|log| - 1].code == Ok && log[|log| - 1].response == Some(401)
  }

  lemma EndedCode(json: Json, before: seq<Item>, low: seq<Item>, now: seq<Item>, lowNow: seq<Item>,
                  log: seq<Attempt>, max: nat, code: Code, evaluated: bool)
    requires Ended(json, before, low, now, lowNow, log, max, code, evaluated)
    ensures !IsRefusal(code)
  {
    hide Accounted, Documented, Faithful;
    if evaluated {
      assert Recorded(log[|log| - 1], max);
    }
  }

  /** An exchange ends with the refusal of its credentials exactly if that is what the last answer said. */
  lemma TriedCode(json: Json, before: seq<Item>, low: seq<Item>, now: seq<Item>, lowNow: seq<Item>,
                  log: seq<Attempt>, max: nat, code: Code, evaluated: bool)
    requires Tried(json, before, low, now, lowNow, log, max, code, evaluated)
    ensures code == Unauthorized <==> RefusedCredentials(log)
    ensures code == NoAccessTokenExists ==> IsRefusal(code) && log == []
  {
    hide Accounted, Documented, Faithful;
    if log != [] {
      assert Tried(json, before, low, now, lowNow, log, max, code, evaluated);
      assert !IsRefusal(code) || Recorded(log[|log| - 1], max);
    }
  }

  /**
   The retry keeps the books. It only happens after the server refused the credentials, and then everything that
   was in flight has been rolled back, or after a missing token, and then nothing has happened yet.
   */
  lemma BooksOfRetry(json: Json, before: seq<Item>, mid: seq<Item>, now: seq<Item>, low: seq<Item>, lowMid: seq<Item>,
                     lowNow: seq<Item>, log: seq<Attempt>, more: seq<Attempt>, max: nat,
                     first: Code, evaluated: bool, second: Code, evaluatedToo: bool)
    requires NoneSent(before) && NoneSent(low)
    requires Tried(json, before, low, mid, lowMid, log, max, first, evaluated)
    requires first == Unauthorized || first == NoAccessTokenExists
    requires Tried(json, mid, lowMid, now, lowNow, more, max, second, evaluatedToo)
    ensures Books(json, before, low, now, lowNow, log + more, max) && NoneSent(now) && NoneSent(lowNow)
  {
    hide Accounted, Documented, Tried, AllFaithful, NoneSent;
    BooksOfOne(json, before, low, mid, lowMid, log, max, first, evaluated);
    BooksOfOne(json, mid, lowMid, now, lowNow, more, max, second, evaluatedToo);
    RefusedHandsOver(json, before, mid, low, lowMid, log, max, first, evaluated);
    AccountsJoin(before, mid, now, low, lowMid, lowNow, log, more);
    DocumentedJoin(json, before, low, mid, lowMid, now, lowNow, log, more);
    FaithfulJoin(log, more, max);
  }

  /** Requests are filled from the high priority list only: the other list loses its stale items at most. */
  lemma LowListStays(before: seq<Item>, low: seq<Item>, log: seq<Attempt>)
    requires TwoLists(before, low)
    requires forall x :: x in AcceptedIds(log) ==> x in Ids(before)
    ensures Without(Ids(low), Gone(low, log)) == Without(Ids(low), if FirstAccepted(log) then StaleIds(low) else {})
  {
    var got := IdSet(AcceptedIds(log));
    forall x | x in Ids(low) ensures x !in got {
      var j :| 0 <= j < |low| && low[j].id == x;
      assert forall i :: 0 <= i < |before| ==> Ids(before)[i] == before[i].id != x;
      assert x !in Ids(before);
    }
    WithoutNothing(Ids(low), got);
    WithoutTwice(Ids(low), got, if FirstAccepted(log) then StaleIds(low) else {});
  }

  /**
   If the store is empty in the end, every item was accepted, exactly once, if and only if nothing was in flight
   at the start or the first request was not accepted.
   */
  lemma EmptyMeansDelivered(json: Json, before: seq<Item>, low: seq<Item>, log: seq<Attempt>, max: nat)
    requires TwoLists(before, low) && Books(json, before, low, [], [], log, max)
    ensures NoRepeats(AcceptedIds(log))
    ensures forall x :: x in AcceptedIds(log) ==> x in Ids(before)
    ensures (forall x :: x in Ids(before) + Ids(low) ==> x in AcceptedIds(log))
            <==> !FirstAccepted(log) || StaleIds(before) + StaleIds(low) == {}
    ensures !FirstAccepted(log) || StaleIds(low) == {} ==> low == []
  {
    ExactlyOnce(before, [], low, [], log);
    assert forall x: nat :: x !in Ids([]) + Ids([]);
    if !FirstAccepted(log) || StaleIds(low) == {} {
      LowListStays(before, low, log);
      WithoutNothing(Ids(low), {});
      assert |low| == |Ids(low)|;
    }
  }

  // ---------- the retry protocol ----------

  datatype Operation = ExchangeStore | RenewToken | RotateKey

  /** An operation and the code it ended with. */
  datatype Action = Action(operation: Operation, code: Code)

  /** Renewing the credentials: a token, or, if the server finds the key at fault, a new key. */
  predicate IsRenewal(actions: seq<Action>, code: Code) {
    && |actions| > 0 && actions[|actions| - 1].code == code && actions[0].operation == RenewToken
    && if actions[0].code == BadRequest then |actions| == 2 && actions[1].operation == RotateKey else |actions| == 1
  }

  /** The operations `Process` performs, as a function of the codes they end with, and the code it returns. */
  predicate IsProcessTrace(actions: seq<Action>, code: Code) {
    && |actions| > 0 && actions[|actions| - 1].code == code
    && actions[0].operation == ExchangeStore
    && if actions[0].code != Unauthorized && actions[0].code != NoAccessTokenExists then |actions| == 1
       else if actions[|actions| - 1].operation == ExchangeStore then
         |actions| > 2 && IsRenewal(actions[1..|actions| - 1], Ok)
       else
         code != Ok && IsRenewal(actions[1..], code)
  }

  lemma SingleTrace(code: Code)
    requires code != Unauthorized && code != NoAccessTokenExists
    ensures IsProcessTrace([Action(ExchangeStore, code)], code)
  {
  }

  lemma RenewedTrace(first: Code, renewal: seq<Action>, code: Code, last: Code)
    requires (first == Unauthorized || first == NoAccessTokenExists) && IsRenewal(renewal, code)
    ensures code != Ok ==> IsProcessTrace([Action(ExchangeStore, first)] + renewal, code)
    ensures code == Ok ==>
              IsProcessTrace([Action(ExchangeStore, first)] + renewal + [Action(ExchangeStore, last)], last)
  {
    var some := [Action(ExchangeStore, first)] + renewal;
    var more := some + [Action(ExchangeStore, last)];
    assert some[1..] == renewal && more[1..|more| - 1] == renewal;
  }

  function Count(actions: seq<Action>, operation: Operation): nat {
    if actions == [] then 0 else (if actions[0].operation == operation then 1 else 0) + Count(actions[1..], operation)
  }

  /** Which operations follow which outcomes: the retry protocol, step by step. */
  lemma ProcessSteps(actions: seq<Action>, code: Code)
    requires IsProcessTrace(actions, code)
    ensures 1 <= |actions| <= 4 && actions[0].operation == ExchangeStore && code == actions[|actions| - 1].code
    ensures |actions| > 1 <==> actions[0].code == Unauthorized || actions[0].code == NoAccessTokenExists
    ensures |actions| > 1 ==> actions[1].operation == RenewToken
    ensures |actions| > 1 && actions[1].code == Ok ==> |actions| == 3 && actions[2].operation == ExchangeStore
    ensures |actions| > 1 && actions[1].code == BadRequest ==>
              && |actions| > 2 && actions[2].operation == RotateKey
              && (|actions| == 4 <==> actions[2].code == Ok)
              && (|actions| == 4 ==> actions[3].operation == ExchangeStore)
    ensures |actions| > 1 && actions[1].code != Ok && actions[1].code != BadRequest ==> |actions| == 2
  {
    if |actions| > 1 {
      var last := actions[|actions| - 1].operation;
      var renewal := if last == ExchangeStore then actions[1..|actions| - 1] else actions[1..];
      assert renewal[0] == actions[1];
      assert |renewal| == 2 ==> renewal[1] == actions[2];
    }
  }

  /** At most two exchanges and one rotation; a success is always the success of an exchange. */
  lemma ProcessIsBounded(actions: seq<Action>, code: Code)
    requires IsProcessTrace(actions, code)
    ensures 1 <= Count(actions, ExchangeStore) <= 2 && Count(actions, RenewToken) <= 1 && Count(actions, RotateKey) <= 1
    ensures Count(actions, ExchangeStore) == 2 ==>
              actions[0].code == Unauthorized || actions[0].code == NoAccessTokenExists
    ensures Count(actions, RotateKey) == 1 ==> |actions| > 1 && actions[1] == Action(RenewToken, BadRequest)
    ensures code == Ok ==> actions[|actions| - 1].operation == ExchangeStore
  {
    assert [actions[|actions| - 1]][1..] == [];
    if |actions| == 1 {
      assert actions == [actions[0]];
    } else if |actions| == 2 {
      assert actions[1..] == [actions[1]];
    } else if |actions| == 3 {
      assert actions[1..][1..] == [actions[2]];
    } else {
      assert actions[1..][1..] == [actions[2], actions[3]] && [actions[2], actions[3]][1..] == [actions[3]];
    }
  }

  /** A request to the server that is not an exchange: it ends with some code. */
  method Ask() returns (code: Code)
    ensures !IsRefusal(code)
  {
    code := *;
    if IsRefusal(code) {
      code := Fail;
    }
  }

  /**
   The server's answer to a token request, if there is one, and whether a token was found in it. Before and after
   that the library fails with codes of its own, which are not codes of a status.
   */
  method AskForToken() returns (code: Code, answer: Option<nat>)
    ensures !IsRefusal(code) && (code == Ok ==> answer == Some(200))
    ensures code == BadRequest <==> answer == Some(400)
    ensures code == Unauthorized <==> answer == Some(401)
  {
    answer := None;
    code := *;
    if code != Ok {
      if !IsLocalFailure(code) && code != Sha256CalculationFail && code != NetworkFailure {
        code := Fail;
      }
      return;
    }
    var status: nat := *;
    answer := Some(status);
    code := EvaluateStatus(status);
    StatusIsExact(status);
    if code == Ok {
      var found: bool := *;
      code := if found then Ok else Fail;
    }
  }

  /** What the server answers to a registration request, and what the storage says to the result. */
  method Respond() returns (transport: Code, status: nat, reply: Reply, saveCode: Code)
    ensures Sensible(reply) && (transport == Ok || IsFailure(transport)) && (saveCode == Ok || IsFailure(saveCode))
  {
    transport, status, reply, saveCode := *, *, *, *;
    if transport == SecurityUpToDate {
      transport := Fail;
    }
    if saveCode == SecurityUpToDate {
      saveCode := Fail;
    }
    if !Sensible(reply) {
      reply := Reply(Fail, Fail, Failure(Fail), Failure(Fail), Failure(Fail), Failure(Fail));
    }
  }

  /** One registration has made `now` of the credentials, and ended with `code`. */
  ghost predicate Renewed(profile: Credentials.Profile, own: Credentials.Registration, now: Credentials.Registration,
                          code: Code)
  {
    exists newKeys, answer, saveCode :: Registered(profile, own, newKeys, answer, saveCode, now, code)
  }

  lemma RenewedBy(profile: Credentials.Profile, own: Credentials.Registration, newKeys: Credentials.KeyPair,
                  answer: Credentials.Answer, saveCode: Code, now: Credentials.Registration, code: Code)
    requires Registered(profile, own, newKeys, answer, saveCode, now, code)
    ensures Renewed(profile, own, now, code)
  {
  }

  ghost predicate AtMostRenewed(profile: Credentials.Profile, own: Credentials.Registration,
                                now: Credentials.Registration)
  {
    now == own || exists code :: Renewed(profile, own, now, code)
  }

  lemma RotatesSecond(actions: seq<Action>, code: Code)
    requires IsRenewal(actions, code)
    ensures |actions| <= 2 && (|actions| == 2 <==> |actions| > 1 && actions[1].operation == RotateKey)
  {
  }

  lemma SecondOfRest(first: Action, rest: seq<Action>)
    ensures |[first] + rest| == 1 + |rest|
    ensures |rest| > 1 ==> ([first] + rest)[2] == rest[1]
  {
  }

  lemma NotRenewed(profile: Credentials.Profile, own: Credentials.Registration)
    ensures AtMostRenewed(profile, own, own)
  {
  }

  /** The handle a user works with. An agent without a registration token is not onboarded. */
  class Communication {
    var initialized: bool
    var accessToken: Option<bytes>
    const profile: Credentials.Profile
    const handler: Handler
    const max: nat

    ghost var trace: seq<Action>    // the operations performed through this handle
    ghost var tokenRequests: nat    // how often a token was asked for

    constructor (max: nat, profile: Credentials.Profile, handler: Handler)
      requires MIN_HTTP_PAYLOAD_SIZE <= max
      ensures initialized && accessToken == None && trace == []
      ensures this.profile == profile && this.handler == handler && this.max == max
    {
      initialized, accessToken := true, None;
      this.profile, this.handler, this.max := profile, handler, max;
      trace, tokenRequests := [], 0;
    }

    /** Fetches a new access token. The old one is given up in any case. */
    method FetchToken() returns (code: Code, ghost answer: Option<nat>)
      modifies this`accessToken, this`tokenRequests
      ensures !IsRefusal(code) && (code == Ok <==> accessToken.Some?) && tokenRequests == old(tokenRequests) + 1
      ensures (code == BadRequest <==> answer == Some(400)) && (code == Ok ==> answer == Some(200))
    {
      tokenRequests := tokenRequests + 1;
      var response;
      code, response := AskForToken();
      answer := response;
      accessToken := None;
      if code == Ok {
        var token: bytes := *;
        accessToken := Some(token);
      }
    }

    method GetAccessToken() returns (code: Code, ghost answer: Option<nat>)
      modifies this`accessToken, this`tokenRequests, this`trace
      ensures trace == old(trace) + [Action(RenewToken, code)]
      ensures !initialized || handler.token == None ==>
                && accessToken == old(accessToken) && tokenRequests == old(tokenRequests)
                && code == if initialized then NotOnboarded else NotInitialized
      ensures (code == BadRequest <==> answer == Some(400)) && (code == Ok ==> answer == Some(200))
      ensures initialized && handler.token.Some? ==>
                !IsRefusal(code) && (code == Ok <==> accessToken.Some?) && tokenRequests == old(tokenRequests) + 1
    {
      answer := None;
      if !initialized {
        code := NotInitialized;
      } else if handler.token == None {
        code := NotOnboarded;
      } else {
        code, answer := FetchToken();
      }
      trace := trace + [Action(RenewToken, code)];
    }

    /** Onboards or rotates, depending on whether there is a registration token. */
    method Register() returns (code: Code)
      modifies handler
      ensures Renewed(profile, old(handler.View()), handler.View(), code)
      ensures code == Ok ==> handler.token.Some?
    {
      ghost var own := handler.View();
      var transport, status, reply, saved := Respond();
      var keys: Credentials.KeyPair := *;
      ghost var answer := AnswerTo(profile, handler.token.Some?, transport, status, reply);
      SensibleAnswer(profile, handler.token.Some?, transport, status, reply);
      var handedOver;
      code, handedOver := handler.Register(profile, keys, transport, status, reply, saved);
      RenewedBy(profile, own, keys, answer, saved, handler.View(), code);
    }

    /** Onboards an agent inside the critical section, whose entrance answers with `entry`. */
    method Onboard() returns (code: Code, ghost entry: Code)
      modifies handler, this`accessToken, this`tokenRequests
      ensures entry != Ok || !initialized ==>
                && code == (if entry != Ok then entry else NotInitialized)
                && handler.View() == old(handler.View()) && accessToken == old(accessToken)
                && tokenRequests == old(tokenRequests)
      ensures entry == Ok && initialized && old(handler.token).Some? ==>
                && code == AlreadyOnboarded && handler.View() == old(handler.View())
                && tokenRequests == old(tokenRequests) + 1
      ensures entry == Ok && initialized && old(handler.token) == None ==>
                && Renewed(profile, old(handler.View()), handler.View(), code)
                && (code == Ok ==> handler.token.Some?)
                && (code != Ok && code != AlreadyOnboarded ==> accessToken == old(accessToken))
    {
      code := Ask();
      entry := code;
      if code != Ok {
        return;
      }
      code := NotInitialized;
      if initialized {
        if handler.token == None {
          code := Register();
        } else {
          code := AlreadyOnboarded;
        }
        if code == Ok || code == AlreadyOnboarded {
          var _, _ := FetchToken();
        }
      }
    }

    /** Rotates the key inside the critical section; the result of fetching a token afterwards is ignored. */
    method Rotate() returns (code: Code, ghost entry: Code)
      modifies handler, this`accessToken, this`tokenRequests, this`trace
      ensures trace == old(trace) + [Action(RotateKey, code)]
      ensures entry != Ok || !initialized || old(handler.token) == None ==>
                && code == (if entry != Ok then entry else if !initialized then NotInitialized else NotOnboarded)
                && handler.View() == old(handler.View()) && accessToken == old(accessToken)
      ensures entry == Ok && initialized && old(handler.token).Some? ==>
                Renewed(profile, old(handler.View()), handler.View(), code)
      ensures code == Ok ==> initialized && handler.token.Some?
      ensures tokenRequests == old(tokenRequests) + if code == Ok then 1 else 0
      ensures code != Ok ==> accessToken == old(accessToken)
    {
      code := Ask();
      entry := code;
      if code == Ok {
        if !initialized {
          code := NotInitialized;
        } else if handler.token == None {
          code := NotOnboarded;
        } else {
          code := Register();
          if code == Ok {
            var _, _ := FetchToken();
          }
        }
      }
      trace := trace + [Action(RotateKey, code)];
    }

    /** Takes over the saved registration inside the critical section; a new token is fetched if that succeeded. */
    method UpdateSecurityInformation(source: Option<Result<Credentials.Registration>>, allocation: Code)
      returns (code: Code, ghost entry: Code)
      requires allocation == Ok || IsLocalFailure(allocation)
      modifies handler, this`accessToken, this`tokenRequests
      ensures entry != Ok || !initialized || old(handler.token) == None ==>
                && code == (if entry != Ok then entry else if !initialized then NotInitialized else NotOnboarded)
                && handler.View() == old(handler.View())
      ensures entry == Ok && initialized && old(handler.token).Some? && source.Some? && source.value.Success? ==>
                var before := Credentials.Agent(true, old(handler.View()), Credentials.Comparing(source.value.value));
                var after := Credentials.Compared(profile, before, source.value.value, allocation);
                after.place == Credentials.Leaving(Credentials.Update, code) && handler.View() == after.own
      ensures entry == Ok && initialized && old(handler.token).Some? && !(source.Some? && source.value.Success?) ==>
                && handler.View() == old(handler.View())
                && code == if source == None then Fail else source.value.error
      ensures tokenRequests == old(tokenRequests) + if code == Ok then 1 else 0
      ensures code != Ok ==> accessToken == old(accessToken)
    {
      code := Ask();
      entry := code;
      if code != Ok {
        return;
      }
      code := NotInitialized;
      if initialized {
        if handler.token.Some? {
          code := handler.UpdateSecurityInformation(profile, source, allocation);
        } else {
          code := NotOnboarded;
        }
      }
      if code == Ok {
        var _, _ := FetchToken();
      }
    }

    /** Exchanges the store's items if there is a registration and an access token. */
    method ExchangeItems(json: Json, random: Random, store: Store, server: Server, ghost f: Frame)
      returns (code: Code, ghost evaluated: bool, ghost log: seq<Attempt>)
      requires MIN_HTTP_PAYLOAD_SIZE <= max && InOrder(store, f)
      modifies store.high, f.highNodes, store.low, f.lowNodes, f.highItems, f.lowItems, server`log, this`trace
      ensures store.Valid() && ValidItems(Views(store.high.Contents())) && Within(store, f)
      ensures server.log == old(server.log) + log
      ensures trace == old(trace) + [Action(ExchangeStore, code)]
      ensures Tried(json, old(Views(store.high.Contents())), old(Views(store.low.Contents())),
                    Views(store.high.Contents()), Views(store.low.Contents()), log, max, code, evaluated)
      ensures code == Ok ==> |store.high.Contents()| + |store.low.Contents()| == 0
      ensures code == NotInitialized <==> !initialized
      ensures code == NotOnboarded <==> initialized && handler.token == None
      ensures code == NoAccessTokenExists <==> initialized && handler.token.Some? && accessToken == None
      ensures code == StoreIsEmpty
              <==> initialized && handler.token.Some? && accessToken.Some?
                   && old(|store.high.Contents()| + |store.low.Contents()|) == 0
      ensures code == Unauthorized <==> RefusedCredentials(log)
    {
      hide Tried, ValidItems, NoneSent, Within, Apart, RefusedCredentials, Linked, Distinct, NodeAt;
      ghost var before, low := Views(store.high.Contents()), Views(store.low.Contents());
      evaluated, log := false, [];
      NotTried(json, Views(store.high.Contents()), Views(store.low.Contents()), max);
      if !initialized {
        code := NotInitialized;
      } else if handler.token == None {
        code := NotOnboarded;
      } else if accessToken == None {
        code := NoAccessTokenExists;
      } else {
        code, evaluated, log := ExchangeFramed(json, random, store, server, max, f);
      }
      TriedCode(json, before, low, Views(store.high.Contents()), Views(store.low.Contents()), log, max, code,
                evaluated);
      trace := trace + [Action(ExchangeStore, code)];
    }

    /** The first exchange of a run. */
    method ExchangeFirst(json: Json, random: Random, store: Store, server: Server, ghost f: Frame)
      returns (code: Code, ghost evaluated: bool, ghost log: seq<Attempt>)
      requires MIN_HTTP_PAYLOAD_SIZE <= max && InOrder(store, f)
      modifies store.high, f.highNodes, store.low, f.lowNodes, f.highItems, f.lowItems, server`log, this`trace
      ensures InOrder(store, f)
      ensures server.log == old(server.log) + log && trace == old(trace) + [Action(ExchangeStore, code)]
      ensures code == NoAccessTokenExists <==> initialized && handler.token.Some? && accessToken == None
      ensures code == Unauthorized <==> RefusedCredentials(log)
      ensures Tried(json, old(Views(store.high.Contents())), old(Views(store.low.Contents())),
                    Views(store.high.Contents()), Views(store.low.Contents()), log, max, code, evaluated)
      ensures Books(json, old(Views(store.high.Contents())), old(Views(store.low.Contents())),
                    Views(store.high.Contents()), Views(store.low.Contents()), log, max)
      ensures code == Ok ==> |store.high.Contents()| + |store.low.Contents()| == 0
      ensures NoneSent(old(Views(store.high.Contents()))) && NoneSent(old(Views(store.low.Contents())))
    {
      hide Books, Tried, ValidItems, NoneSent, AllIn;
      ghost var before, low := Views(store.high.Contents()), Views(store.low.Contents());
      code, evaluated, log := ExchangeItems(json, random, store, server, f);
      BooksOfOne(json, before, low, Views(store.high.Contents()), Views(store.low.Contents()), log, max,
                 code, evaluated);
    }

    /** The second exchange of a run that began with `before` and `low`, after a first one ended with `first`. */
    method ExchangeAgain(json: Json, random: Random, store: Store, server: Server, ghost f: Frame,
                         ghost before: seq<Item>, ghost low: seq<Item>, ghost log: seq<Attempt>,
                         ghost first: Code, ghost evaluated: bool)
      returns (code: Code, ghost more: seq<Attempt>)
      requires MIN_HTTP_PAYLOAD_SIZE <= max && InOrder(store, f)
      requires NoneSent(before) && NoneSent(low) && (first == Unauthorized || first == NoAccessTokenExists)
      requires Tried(json, before, low, Views(store.high.Contents()), Views(store.low.Contents()), log, max,
                     first, evaluated)
      modifies store.high, f.highNodes, store.low, f.lowNodes, f.highItems, f.lowItems, server`log, this`trace
      ensures InOrder(store, f)
      ensures server.log == old(server.log) + more && trace == old(trace) + [Action(ExchangeStore, code)]
      ensures Books(json, before, low, Views(store.high.Contents()), Views(store.low.Contents()), log + more, max)
      ensures code == Ok ==> |store.high.Contents()| + |store.low.Contents()| == 0
    {
      hide Books, Tried, ValidItems, NoneSent, AllIn;
      ghost var mid, lowMid := Views(store.high.Contents()), Views(store.low.Contents());
      ghost var evaluatedToo;
      code, evaluatedToo, more := ExchangeItems(json, random, store, server, f);
      BooksOfRetry(json, before, mid, Views(store.high.Contents()), low, lowMid, Views(store.low.Contents()),
                   log, more, max, first, evaluated, code, evaluatedToo);
    }

    /** Renews the token; if the server finds the key at fault, rotates it. */
    method Renew() returns (code: Code, ghost actions: seq<Action>, ghost answer: Option<nat>)
      modifies handler, this`accessToken, this`tokenRequests, this`trace
      ensures trace == old(trace) + actions && IsRenewal(actions, code)
      ensures |actions| > 1 <==> answer == Some(400)
      ensures answer != Some(400) ==> handler.View() == old(handler.View())
      ensures AtMostRenewed(profile, old(handler.View()), handler.View())
    {
      code, answer := GetAccessToken();
      actions := [Action(RenewToken, code)];
      if code == BadRequest {
        ghost var entry;
        code, entry := Rotate();
        actions := actions + [Action(RotateKey, code)];
      }
    }

    /** The rest of a run whose first exchange found the credentials refused or missing. */
    method Retry(json: Json, random: Random, store: Store, server: Server, ghost f: Frame,
                 ghost before: seq<Item>, ghost low: seq<Item>, ghost log: seq<Attempt>,
                 ghost first: Code, ghost evaluated: bool)
      returns (code: Code, ghost more: seq<Attempt>, ghost actions: seq<Action>, ghost answer: Option<nat>)
      requires MIN_HTTP_PAYLOAD_SIZE <= max && InOrder(store, f)
      requires NoneSent(before) && NoneSent(low) && (first == Unauthorized || first == NoAccessTokenExists)
      requires Tried(json, before, low, Views(store.high.Contents()), Views(store.low.Contents()), log, max,
                     first, evaluated)
      requires Books(json, before, low, Views(store.high.Contents()), Views(store.low.Contents()), log, max)
      modifies store.high, f.highNodes, store.low, f.lowNodes, f.highItems, f.lowItems, server`log
      modifies handler, this`accessToken, this`tokenRequests, this`trace
      ensures InOrder(store, f)
      ensures server.log == old(server.log) + more && trace == old(trace) + actions
      ensures IsProcessTrace([Action(ExchangeStore, first)] + actions, code)
      ensures |actions| > 0 && (|actions| > 1 && actions[1].operation == RotateKey <==> answer == Some(400))
      ensures answer != Some(400) ==> handler.View() == old(handler.View())
      ensures AtMostRenewed(profile, old(handler.View()), handler.View())
      ensures Books(json, before, low, Views(store.high.Contents()), Views(store.low.Contents()), log + more, max)
      ensures code == Ok ==> |store.high.Contents()| + |store.low.Contents()| == 0
    {
      hide Books, Tried, ValidItems, NoneSent, AllIn, IsRenewal, IsProcessTrace, AtMostRenewed, Renewed;
      hide InOrder;
      ghost var mid, lowMid, past := Views(store.high.Contents()), Views(store.low.Contents()), trace;
      ghost var renewal;
      code, renewal, answer := Renew();
      RotatesSecond(renewal, code);
      assert Views(store.high.Contents()) == mid && Views(store.low.Contents()) == lowMid;
      actions, more := renewal, [];
      RenewedTrace(first, renewal, code, code);
      if code == Ok {
        code, more := ExchangeAgain(json, random, store, server, f, before, low, log, first, evaluated);
        Assoc(past, renewal, [Action(ExchangeStore, code)]);
        Assoc([Action(ExchangeStore, first)], renewal, [Action(ExchangeStore, code)]);
        RenewedTrace(first, renewal, Ok, code);
        actions := renewal + [Action(ExchangeStore, code)];
      } else {
        assert log + more == log;
      }
    }

    /** A whole run, with what belongs to its first exchange and to the rest of it apart. */
    method ProcessApart(json: Json, random: Random, store: Store, server: Server, ghost f: Frame)
      returns (code: Code, ghost first: seq<Attempt>, ghost more: seq<Attempt>, ghost rest: seq<Action>,
               ghost ended: Code, ghost answer: Option<nat>)
      requires MIN_HTTP_PAYLOAD_SIZE <= max && InOrder(store, f)
      modifies store.high, f.highNodes, store.low, f.lowNodes, f.highItems, f.lowItems, server`log
      modifies handler, this`accessToken, this`tokenRequests, this`trace
      ensures InOrder(store, f)
      ensures server.log == old(server.log) + (first + more)
      ensures rest != []
              <==> (initialized && old(handler.token).Some? && old(accessToken) == None) || RefusedCredentials(first)
      ensures |rest| > 1 && rest[1].operation == RotateKey <==> answer == Some(400)
      ensures answer != Some(400) ==> handler.View() == old(handler.View())
      ensures trace == old(trace) + ([Action(ExchangeStore, ended)] + rest)
      ensures IsProcessTrace([Action(ExchangeStore, ended)] + rest, code)
      ensures AtMostRenewed(profile, old(handler.View()), handler.View())
      ensures Books(json, old(Views(store.high.Contents())), old(Views(store.low.Contents())),
                    Views(store.high.Contents()), Views(store.low.Contents()), first + more, max)
      ensures code == Ok ==> |store.high.Contents()| + |store.low.Contents()| == 0
    {
      hide Books, Tried, ValidItems, NoneSent, AllIn, IsRenewal, IsProcessTrace, AtMostRenewed, Renewed;
      hide InOrder, RefusedCredentials;
      ghost var before, low, past, sent := Views(store.high.Contents()), Views(store.low.Contents()), trace, server.log;
      ghost var evaluated;
      NotRenewed(profile, handler.View());
      code, evaluated, first := ExchangeFirst(json, random, store, server, f);
      ended, more, rest, answer := code, [], [], None;
      assert first + [] == first && [Action(ExchangeStore, code)] + [] == [Action(ExchangeStore, code)];
      if code == Unauthorized || code == NoAccessTokenExists {
        code, more, rest, answer := Retry(json, random, store, server, f, before, low, first, code, evaluated);
        Assoc(past, [Action(ExchangeStore, ended)], rest);
        Assoc(sent, first, more);
      } else {
        SingleTrace(code);
      }
    }

    /**
     Exchanges the items; if the credentials are refused or missing, renews the token - or, if the server finds
     the key at fault, rotates it - and exchanges once more. `log` is what the server got to see of this call.
     */
    method Process(json: Json, random: Random, store: Store, server: Server, ghost f: Frame)
      returns (code: Code, ghost log: seq<Attempt>, ghost actions: seq<Action>, ghost first: seq<Attempt>,
               ghost answer: Option<nat>)
      requires MIN_HTTP_PAYLOAD_SIZE <= max && InOrder(store, f)
      modifies store.high, f.highNodes, store.low, f.lowNodes, f.highItems, f.lowItems, server`log
      modifies handler, this`accessToken, this`tokenRequests, this`trace
      ensures InOrder(store, f)
      ensures server.log == old(server.log) + log && first <= log
      ensures |actions| > 1
              <==> (initialized && old(handler.token).Some? && old(accessToken) == None) || RefusedCredentials(first)
      ensures |actions| > 2 && actions[2].operation == RotateKey <==> answer == Some(400)
      ensures answer != Some(400) ==> handler.View() == old(handler.View())
      ensures trace == old(trace) + actions && IsProcessTrace(actions, code)
      ensures AtMostRenewed(profile, old(handler.View()), handler.View())
      ensures Books(json, old(Views(store.high.Contents())), old(Views(store.low.Contents())),
                    Views(store.high.Contents()), Views(store.low.Contents()), log, max)
      ensures code == Ok ==> |store.high.Contents()| + |store.low.Contents()| == 0
    {
      ghost var more, rest, ended;
      hide Books, InOrder, IsProcessTrace, AtMostRenewed, RefusedCredentials, IsRefusal;
      code, first, more, rest, ended, answer := ProcessApart(json, random, store, server, f);
      log, actions := first + more, [Action(ExchangeStore, ended)] + rest;
      SecondOfRest(Action(ExchangeStore, ended), rest);
    }
  }

  /** A store inside a frame, ready for an exchange. */
  ghost predicate InOrder(store: Store, f: Frame)
    reads store, store.high, store.low, store.high.spine, store.low.spine, store.high.Contents(), store.low.Contents()
  {
    && store.Valid() && ValidItems(Views(store.high.Contents())) && Within(store, f)
    && NoneSent(Views(store.high.Contents())) && NoneSent(Views(store.low.Contents()))
  }

  /** `Exchange`, seen from a frame around the store. */
  method ExchangeFramed(json: Json, random: Random, store: Store, server: Server, max: nat, ghost f: Frame)
    returns (code: Code, ghost evaluated: bool, ghost log: seq<Attempt>)
    requires MIN_HTTP_PAYLOAD_SIZE <= max && InOrder(store, f)
    modifies store.high, f.highNodes, store.low, f.lowNodes, f.highItems, f.lowItems, server`log
    ensures store.Valid() && ValidItems(Views(store.high.Contents())) && Within(store, f)
    ensures server.log == old(server.log) + log
    ensures Tried(json, old(Views(store.high.Contents())), old(Views(store.low.Contents())),
                  Views(store.high.Contents()), Views(store.low.Contents()), log, max, code, evaluated)
    ensures code == Ok ==> |store.high.Contents()| + |store.low.Contents()| == 0
    ensures IsRefusal(code) <==> old(|store.high.Contents()| + |store.low.Contents()|) == 0
    ensures IsRefusal(code) ==> code == StoreIsEmpty
  {
    hide Ended, ValidItems, NoneSent;
    ghost var before, low := Views(store.high.Contents()), Views(store.low.Contents());
    code, evaluated, log := Exchange.Exchange(json, random, store, server, max);
    if |before| + |low| > 0 {
      EndedCode(json, before, low, Views(store.high.Contents()), Views(store.low.Contents()), log, max, code,
                evaluated);
    }
  }

  // ---------- the retry layer among other agents ----------

  /** The steps take the agent from outside the critical section to outside, with `now` as its credentials. */
  ghost predicate LeadsTo(w: Credentials.World, steps: seq<Credentials.Step>, i: nat, now: Credentials.Registration) {
    var t := Credentials.Run(w, steps);
    i < |t.agents| && t.lock == None && t.agents[i].place == Credentials.Idle && t.agents[i].own == now
  }

  /** A state the protocol can be in while nobody is inside; a registration that was saved is the newest one. */
  ghost predicate Safe(w: Credentials.World) {
    Credentials.Exclusive(w) && Credentials.Consistent(w) && (w.lastSaveOk ==> w.saved == w.newest)
  }

  lemma LeadsToSafety(w: Credentials.World, steps: seq<Credentials.Step>, i: nat, now: Credentials.Registration)
    requires Safe(w) && LeadsTo(w, steps, i, now)
    ensures Safe(Credentials.Run(w, steps))
  {
    hide Credentials.Run;
    Credentials.RunKeeps(w, steps);
  }

  /**
   Whatever a run does to the credentials is a run of the protocol the agents share: the critical section stays
   exclusive, and a saved registration the newest one.
   */
  lemma RenewalIsRun(w: Credentials.World, i: nat, now: Credentials.Registration)
    requires i < |w.agents| && w.lock == None && w.agents[i].initialized && w.agents[i].place == Credentials.Idle
    requires AtMostRenewed(w.profile, w.agents[i].own, now)
    ensures exists steps :: LeadsTo(w, steps, i, now) && (Safe(w) ==> Safe(Credentials.Run(w, steps)))
  {
    hide Safe, Registered, CallSteps;
    var steps := [];
    if now != w.agents[i].own {
      var code :| Renewed(w.profile, w.agents[i].own, now, code);
      var newKeys, answer, saveCode :|
        Registered(w.profile, w.agents[i].own, newKeys, answer, saveCode, now, code);
      steps := CallSteps(i, w.agents[i], w.profile, newKeys, answer, saveCode, None);
      CallIsRun(w, i, newKeys, answer, saveCode, None, now, code);
    }
    assert LeadsTo(w, steps, i, now);
    if Safe(w) {
      LeadsToSafety(w, steps, i, now);
    }
  }
}
