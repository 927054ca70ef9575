/** The agent's own copy of its credentials, changed in place by registration and update. */
module SecurityHandler {
  import opened Codes
  import opened Credentials
  import opened Exchange

  /**
   The body of a registration response: whether it parses, whether all names are there, and what reading each
   string gives.
   */
  datatype Reply = Reply(parsed: Code, found: Code, clientId: Result<string>, secret: Result<string>,
                         token: Result<string>, uri: Result<string>)

  predicate IsFailure(code: Code) {
    code != Ok && code != SecurityUpToDate
  }

  /** Calls that fail return codes of failures. */
  predicate Sensible(reply: Reply) {
    && (reply.parsed == Ok || IsFailure(reply.parsed)) && (reply.found == Ok || IsFailure(reply.found))
    && (reply.clientId.Failure? ==> IsFailure(reply.clientId.error))
    && (reply.secret.Failure? ==> IsFailure(reply.secret.error))
    && (reply.token.Failure? ==> IsFailure(reply.token.error))
    && (reply.uri.Failure? ==> IsFailure(reply.uri.error))
  }

  /** What a response amounts to in the terms of the protocol. The RSA profile does not look at a secret. */
  function AnswerOf(profile: Profile, reply: Reply): Answer {
    if reply.parsed != Ok then Rejected(reply.parsed)
    else if reply.found != Ok then Rejected(reply.found)
    else if reply.clientId.Failure? then Broken(reply.clientId.error)
    else if profile == SharedSecret && reply.secret.Failure? then Broken(reply.secret.error)
    else if reply.token.Failure? then Broken(reply.token.error)
    else if reply.uri.Failure? then Broken(reply.uri.error)
    else
      Accepted(reply.clientId.value, if reply.secret.Success? then reply.secret.value else "", reply.token.value,
               reply.uri.value)
  }

  function CodeOf(answer: Answer): Code {
    if answer.Accepted? then Ok else answer.code
  }

  /** An agent's credentials after an answer. */
  function Answered(profile: Profile, own: Registration, answer: Answer): Registration {
    match answer
    case Rejected(_) => own
    case Broken(_) => Wipe(profile, own)
    case Accepted(_, _, _, _) => Process(profile, own, answer)
  }

  /** The code with which a registration request was received, given whether the agent was onboarded already. */
  function RegistrationVerdict(onboarded: bool, transport: Code, status: nat): Code {
    var server := EvaluateStatus(status);
    if transport != Ok then transport
    else if onboarded then server
    else if server == Created then Ok
    else if server == Ok then UnexpectedResultCode
    else server
  }

  /** Onboarding is confirmed by 201 only, a rotation by 200 only. */
  lemma VerdictIsExact(onboarded: bool, transport: Code, status: nat)
    ensures RegistrationVerdict(onboarded, transport, status) == Ok
            <==> transport == Ok && status == if onboarded then 200 else 201
  {
  }

  /** The whole answer to a registration request, from sending it to reading the body. */
  function AnswerTo(profile: Profile, onboarded: bool, transport: Code, status: nat, reply: Reply): Answer {
    var verdict := RegistrationVerdict(onboarded, transport, status);
    if verdict != Ok then Rejected(verdict) else AnswerOf(profile, reply)
  }

  lemma SensibleAnswer(profile: Profile, onboarded: bool, transport: Code, status: nat, reply: Reply)
    requires Sensible(reply) && transport != SecurityUpToDate
    ensures
      var answer := AnswerTo(profile, onboarded, transport, status, reply);
      !answer.Accepted? ==> IsFailure(answer.code)
  {
  }

  /** The agent's credentials when the answer arrives: a rotation with RSA has its new key pair already. */
  function Requesting(profile: Profile, own: Registration, newKeys: KeyPair): Registration {
    if own.token.Some? && profile == Rsa then own.(keys := Some(newKeys)) else own
  }

  /** Failures of answers and of saving have codes of failures. */
  predicate Plausible(answer: Answer, saveCode: Code) {
    (saveCode == Ok || IsFailure(saveCode)) && (!answer.Accepted? ==> IsFailure(answer.code))
  }

  /** What a registration makes of an agent's credentials, and the code it ends with. */
  ghost predicate Registered(profile: Profile, own: Registration, newKeys: KeyPair, answer: Answer, saveCode: Code,
                             now: Registration, code: Code)
  {
    && Plausible(answer, saveCode)
    && now == Answered(profile, Requesting(profile, own, newKeys), answer)
    && code == if answer.Accepted? then saveCode else answer.code
  }

  /** Composing the request, where that is a step of its own. */
  function ReadyingSteps(i: nat, place: Place, newKeys: KeyPair): seq<Step> {
    if place == Composing then [Compose(i, newKeys)] else []
  }

  /** The steps of the protocol that a registration takes behind its checks. */
  function RegistrationSteps(i: nat, place: Place, newKeys: KeyPair, answer: Answer, saveCode: Code,
                             left: Option<Registration>): seq<Step> {
    ReadyingSteps(i, place, newKeys)
    + [Send(i, answer)]
    + (if answer.Accepted? then [Save(i, saveCode, left)] else [])
  }

  // ---------- the same, field by field ----------

  /** The strings of a reply that its profile reads. */
  predicate Understood(profile: Profile, reply: Reply) {
    && reply.clientId.Success? && reply.token.Success? && reply.uri.Success?
    && (profile == SharedSecret ==> reply.secret.Success?)
  }

  /** What processing a reply does to each of the credentials. */
  ghost predicate Installed(profile: Profile, own: Registration, reply: Reply, now: Registration, code: Code) {
    && now.keys == own.keys && (profile == Rsa ==> now.secret == own.secret)
    && if reply.parsed != Ok || reply.found != Ok then
         now == own && code == if reply.parsed != Ok then reply.parsed else reply.found
       else if Understood(profile, reply) then
         && code == Ok
         && now.clientId == Some(reply.clientId.value) && now.token == Some(reply.token.value)
         && now.uri == Some(reply.uri.value)
         && (profile == SharedSecret ==> now.secret == Some(reply.secret.value))
       else
         && now.clientId == None && now.token == None && now.uri == None
         && (profile == SharedSecret ==> now.secret == None)
         && code == if reply.clientId.Failure? then reply.clientId.error
                    else if profile == SharedSecret && reply.secret.Failure? then reply.secret.error
                    else if reply.token.Failure? then reply.token.error
                    else reply.uri.error
  }

  lemma AnswersAreExact(profile: Profile, own: Registration, reply: Reply)
    ensures Installed(profile, own, reply, Answered(profile, own, AnswerOf(profile, reply)),
                      CodeOf(AnswerOf(profile, reply)))
  {
  }

  /** What a registration does: rotation keys are in place whatever happens; only 201 or 200 leads to the reply. */
  ghost predicate IsRegistration(profile: Profile, own: Registration, newKeys: KeyPair, transport: Code, status: nat,
                                 reply: Reply, saveCode: Code, now: Registration, code: Code, saved: bool)
  {
    var ready := if own.token.Some? && profile == Rsa then own.(keys := Some(newKeys)) else own;
    if transport == Ok && status == (if own.token.Some? then 200 else 201) then
      && exists c :: Installed(profile, ready, reply, now, c) && code == (if c == Ok then saveCode else c)
                     && (saved <==> c == Ok)
    else
      && now == ready && !saved
      && (transport != Ok ==> code == transport)
      && (transport == Ok && own.token == None && status == 200 ==> code == UnexpectedResultCode)
      && (transport == Ok && status != 200 ==> code == EvaluateStatus(status))
  }

  lemma RegistrationIsExact(profile: Profile, own: Registration, newKeys: KeyPair, transport: Code, status: nat,
                            reply: Reply, saveCode: Code)
    requires Sensible(reply)
    ensures
      var answer := AnswerTo(profile, own.token.Some?, transport, status, reply);
      var ready := Requesting(profile, own, newKeys);
      IsRegistration(profile, own, newKeys, transport, status, reply, saveCode, Answered(profile, ready, answer),
                     if answer.Accepted? then saveCode else answer.code, answer.Accepted?)
  {
    var ready := Requesting(profile, own, newKeys);
    VerdictIsExact(own.token.Some?, transport, status);
    AnswersAreExact(profile, ready, reply);
    if transport == Ok && status == (if own.token.Some? then 200 else 201) {
      var reading := AnswerOf(profile, reply);
      SensibleReading(profile, reply);
      hide AnswerOf, Answered, Process, Wipe;
      assert Installed(profile, ready, reply, Answered(profile, ready, reading), CodeOf(reading));
      hide Installed;
    } else {
      hide AnswerOf, Installed, Process, Wipe;
    }
  }

  lemma SensibleReading(profile: Profile, reply: Reply)
    requires Sensible(reply)
    ensures CodeOf(AnswerOf(profile, reply)) == Ok <==> AnswerOf(profile, reply).Accepted?
  {
  }

  class Handler {
    var clientId: Option<string>
    var secret: Option<string>
    var token: Option<string>
    var uri: Option<string>
    var keys: Option<KeyPair>

    ghost function View(): Registration
      reads this
    {
      Registration(clientId, secret, token, uri, keys)
    }

    constructor ()
      ensures View() == Registration(None, None, None, None, None)
    {
      clientId, secret, token, uri, keys := None, None, None, None, None;
    }

    method Destroy(profile: Profile)
      modifies this
      ensures View() == Wipe(profile, old(View()))
    {
      clientId := None;
      if profile == SharedSecret {
        secret := None;
      }
      token := None;
      uri := None;
    }

    /** Replaces the credentials one by one; the first value that cannot be read destroys them all. */
    method ProcessResponse(profile: Profile, reply: Reply) returns (code: Code)
      modifies this
      ensures View() == Answered(profile, old(View()), AnswerOf(profile, reply))
      ensures code == CodeOf(AnswerOf(profile, reply))
      ensures Installed(profile, old(View()), reply, View(), code)
    {
      AnswersAreExact(profile, View(), reply);
      if reply.parsed != Ok {
        return reply.parsed;
      }
      if reply.found != Ok {
        return reply.found;
      }
      Destroy(profile);
      code := Ok;
      if reply.clientId.Success? {
        clientId := Some(reply.clientId.value);
      } else {
        code := reply.clientId.error;
      }
      var ok := reply.clientId.Success?;
      if ok && profile == SharedSecret {
        if reply.secret.Success? {
          secret := Some(reply.secret.value);
        } else {
          ok, code := false, reply.secret.error;
        }
      }
      if ok {
        if reply.token.Success? {
          token := Some(reply.token.value);
        } else {
          ok, code := false, reply.token.error;
        }
      }
      if ok {
        if reply.uri.Success? {
          uri := Some(reply.uri.value);
        } else {
          ok, code := false, reply.uri.error;
        }
      }
      if !ok {
        Destroy(profile);
      }
    }

    /**
     Onboards, or rotates the key if there is a registration token. A rotation with RSA installs its new key pair
     before anything is sent. `saved` says whether the new registration was handed to the storage.
     */
    method Register(profile: Profile, newKeys: KeyPair, transport: Code, status: nat, reply: Reply, saveCode: Code)
      returns (code: Code, saved: bool)
      requires Sensible(reply)
      modifies this
      ensures IsRegistration(profile, old(View()), newKeys, transport, status, reply, saveCode, View(), code, saved)
      ensures
        var onboarded := old(View()).token.Some?;
        var own := Requesting(profile, old(View()), newKeys);
        var answer := AnswerTo(profile, onboarded, transport, status, reply);
        && View() == Answered(profile, own, answer)
        && saved == answer.Accepted?
        && code == if answer.Accepted? then saveCode else answer.code
    {
      RegistrationIsExact(profile, View(), newKeys, transport, status, reply, saveCode);
      var onboarded := token.Some?;
      if onboarded && profile == Rsa {
        keys := Some(newKeys);
      }
      saved := false;
      code := transport;
      if code != Ok {
        return;
      }
      var server := EvaluateStatus(status);
      if !onboarded {
        code := if server == Created then Ok else if server == Ok then UnexpectedResultCode else server;
      } else {
        code := server;
      }
      if code == Ok {
        code := ProcessResponse(profile, reply);
        if code == Ok {
          saved, code := true, saveCode;
        }
      }
    }

    /** Takes over token and secrets of the saved registration if they differ from its own. */
    method UpdateSecurityInformation(profile: Profile, source: Option<Result<Registration>>, allocation: Code)
      returns (code: Code)
      requires allocation == Ok || IsLocalFailure(allocation)
      modifies this
      ensures source == None ==> code == Fail && View() == old(View())
      ensures source.Some? && source.value.Failure? ==> code == source.value.error && View() == old(View())
      ensures source.Some? && source.value.Success? ==>
                var loaded := source.value.value;
                var a := Compared(profile, Agent(true, old(View()), Comparing(loaded)), loaded, allocation);
                && a.place == Leaving(Update, code) && View() == a.own
                && IsUpdate(profile, old(View()), loaded, allocation, View(), code)
    {
      if source == None {
        return Fail;
      }
      if source.value.Failure? {
        return source.value.error;
      }
      var loaded := source.value.value;
      if clientId != loaded.clientId {
        return Fail;
      }
      var same: bool;
      if profile == SharedSecret {
        same := secret == loaded.secret;
        if same {
          same := token == loaded.token;
        }
      } else {
        same := (if keys.Some? then Some(keys.value.privateKey) else None)
                == (if loaded.keys.Some? then Some(loaded.keys.value.privateKey) else None);
      }
      if same {
        return SecurityUpToDate;
      }
      if allocation != Ok {
        return allocation;
      }
      token, secret, keys := loaded.token, loaded.secret, loaded.keys;
      return Ok;
    }
  }

  lemma RunSnoc(w: World, steps: seq<Step>, s: Step)
    ensures Run(w, steps + [s]) == Apply(Run(w, steps), s)
  {
    hide Apply;
    assert (steps + [s])[..|steps|] == steps;
  }

  lemma RunParts(w: World, start: seq<Step>, s: Step, last: Step, more: bool)
    ensures Run(w, start + [s] + (if more then [last] else []))
            == if more then Apply(Apply(Run(w, start), s), last) else Apply(Run(w, start), s)
  {
    hide Run, Apply;
    RunSnoc(w, start, s);
    RunSnoc(w, start + [s], last);
    assert start + [s] + [] == start + [s];
  }

  lemma SendStep(w: World, i: nat, operation: Operation, answer: Answer)
    requires i < |w.agents| && w.agents[i].place == Sending(operation)
    ensures
      var t := Apply(w, Send(i, answer));
      && |t.agents| == |w.agents| && t.profile == w.profile
      && t.agents[i].own == Answered(w.profile, w.agents[i].own, answer)
      && t.agents[i].place == if answer.Accepted? then Saving(operation) else Leaving(operation, Failed(answer.code))
  {
  }

  lemma SaveStep(w: World, i: nat, operation: Operation, code: Code, left: Option<Registration>)
    requires i < |w.agents| && w.agents[i].place == Saving(operation)
    ensures
      var t := Apply(w, Save(i, code, left));
      && |t.agents| == |w.agents| && t.agents[i].own == w.agents[i].own
      && t.agents[i].place == Leaving(operation, if code == Ok then Ok else Failed(code))
  {
  }

  /** Sending and saving, from the place where the request is complete. */
  lemma SentSteps(w: World, i: nat, operation: Operation, answer: Answer, saveCode: Code, left: Option<Registration>)
    requires i < |w.agents| && w.agents[i].place == Sending(operation)
    requires Plausible(answer, saveCode)
    ensures
      var sent := Apply(w, Send(i, answer));
      var t := if answer.Accepted? then Apply(sent, Save(i, saveCode, left)) else sent;
      && i < |t.agents| && t.agents[i].own == Answered(w.profile, w.agents[i].own, answer)
      && t.agents[i].place == Leaving(operation, if answer.Accepted? then saveCode else answer.code)
  {
    hide Apply;
    SendStep(w, i, operation, answer);
    if answer.Accepted? {
      SaveStep(Apply(w, Send(i, answer)), i, operation, saveCode, left);
    }
  }

  /** `Handler.Register` and the protocol's steps agree on the agent's credentials and on the code. */
  lemma RegisterIsSteps(w: World, i: nat, newKeys: KeyPair, transport: Code, status: nat, reply: Reply,
                        saveCode: Code, left: Option<Registration>)
    requires i < |w.agents| && w.agents[i].initialized
    requires
      var operation := if w.agents[i].own.token.Some? then Rotate else Onboard;
      w.agents[i].place == Checked(w.profile, w.agents[i], operation)
    requires (saveCode == Ok || IsFailure(saveCode)) && Sensible(reply) && transport != SecurityUpToDate
    ensures
      var onboarded := w.agents[i].own.token.Some?;
      var answer := AnswerTo(w.profile, onboarded, transport, status, reply);
      var own := Requesting(w.profile, w.agents[i].own, newKeys);
      var t := Run(w, RegistrationSteps(i, w.agents[i].place, newKeys, answer, saveCode, left));
      && i < |t.agents| && t.agents[i].own == Answered(w.profile, own, answer)
      && t.agents[i].place == Leaving(if onboarded then Rotate else Onboard,
                                      if answer.Accepted? then saveCode else answer.code)
  {
    hide Run, Apply, Answered, Checked, AnswerTo;
    var a := w.agents[i];
    SensibleAnswer(w.profile, a.own.token.Some?, transport, status, reply);
    AnsweredSteps(w, i, newKeys, AnswerTo(w.profile, a.own.token.Some?, transport, status, reply), saveCode, left);
  }

  lemma AnsweredSteps(w: World, i: nat, newKeys: KeyPair, answer: Answer, saveCode: Code, left: Option<Registration>)
    requires i < |w.agents| && w.agents[i].initialized && Plausible(answer, saveCode)
    requires
      var operation := if w.agents[i].own.token.Some? then Rotate else Onboard;
      w.agents[i].place == Checked(w.profile, w.agents[i], operation)
    ensures
      var own := Requesting(w.profile, w.agents[i].own, newKeys);
      var t := Run(w, RegistrationSteps(i, w.agents[i].place, newKeys, answer, saveCode, left));
      && i < |t.agents| && t.agents[i].own == Answered(w.profile, own, answer)
      && t.agents[i].place == Leaving(if w.agents[i].own.token.Some? then Rotate else Onboard,
                                      if answer.Accepted? then saveCode else answer.code)
  {
    hide Run, Apply, Answered, Checked, Requesting, Plausible, ReadyingSteps;
    var a := w.agents[i];
    var operation := if a.own.token.Some? then Rotate else Onboard;
    ReadySteps(w, i, newKeys);
    FromReady(w, ReadyingSteps(i, a.place, newKeys), i, operation, answer, saveCode, left);
  }

  lemma FromReady(w: World, start: seq<Step>, i: nat, operation: Operation, answer: Answer, saveCode: Code,
                  left: Option<Registration>)
    requires i < |Run(w, start).agents| && Run(w, start).agents[i].place == Sending(operation)
    requires Plausible(answer, saveCode)
    ensures
      var t := Run(w, start + [Send(i, answer)] + (if answer.Accepted? then [Save(i, saveCode, left)] else []));
      && i < |t.agents| && t.agents[i].own == Answered(Run(w, start).profile, Run(w, start).agents[i].own, answer)
      && t.agents[i].place == Leaving(operation, if answer.Accepted? then saveCode else answer.code)
  {
    hide Run, Apply, Answered;
    RunParts(w, start, Send(i, answer), Save(i, saveCode, left), answer.Accepted?);
    SentSteps(Run(w, start), i, operation, answer, saveCode, left);
  }

  lemma ReadySteps(w: World, i: nat, newKeys: KeyPair)
    requires i < |w.agents| && w.agents[i].initialized
    requires
      var operation := if w.agents[i].own.token.Some? then Rotate else Onboard;
      w.agents[i].place == Checked(w.profile, w.agents[i], operation)
    ensures
      var a := w.agents[i];
      var ready := Run(w, ReadyingSteps(i, a.place, newKeys));
      && |ready.agents| == |w.agents| && ready.profile == w.profile
      && ready.agents[i].place == Sending(if a.own.token.Some? then Rotate else Onboard)
      && ready.agents[i].own == Requesting(w.profile, a.own, newKeys)
  {
    RunSnoc(w, [], Compose(i, newKeys));
    assert [] + [Compose(i, newKeys)] == [Compose(i, newKeys)];
  }

  // ---------- whole calls ----------

  lemma {:induction false} RunJoin(w: World, steps: seq<Step>, more: seq<Step>)
    ensures Run(w, steps + more) == Run(Run(w, steps), more)
    decreases |more|
  {
    if more == [] {
      assert steps + more == steps;
    } else {
      hide Apply;
      var init, s := more[..|more| - 1], more[|more| - 1];
      assert more == init + [s] && steps + more == (steps + init) + [s];
      RunJoin(w, steps, init);
      RunSnoc(w, steps + init, s);
      RunSnoc(Run(w, steps), init, s);
    }
  }

  /** A whole registration call of one agent: entering, checking, registering and leaving. */
  function CallSteps(i: nat, a: Agent, profile: Profile, newKeys: KeyPair, answer: Answer, saveCode: Code,
                     left: Option<Registration>): seq<Step> {
    var operation := if a.own.token.Some? then Rotate else Onboard;
    [] + [Enter(i, operation, Ok), Check(i)]
    + RegistrationSteps(i, Checked(profile, a, operation), newKeys, answer, saveCode, left)
    + [Leave(i)]
  }

  lemma LeaveStep(w: World, i: nat)
    requires i < |w.agents| && w.agents[i].place.Leaving?
    ensures
      var t := Apply(w, Leave(i));
      |t.agents| == |w.agents| && t.lock == None && t.agents[i].place == Idle && t.agents[i].own == w.agents[i].own
  {
  }

  lemma CheckedAnywhere(profile: Profile, a: Agent, place: Place, operation: Operation)
    ensures Checked(profile, a.(place := place), operation) == Checked(profile, a, operation)
  {
  }

  /** In whatever world the agent finds the lock free, a registration call is a run of the protocol. */
  lemma CallIsRun(w: World, i: nat, newKeys: KeyPair, answer: Answer, saveCode: Code, left: Option<Registration>,
                  now: Registration, code: Code)
    requires i < |w.agents| && w.lock == None && w.agents[i].initialized && w.agents[i].place == Idle
    requires Registered(w.profile, w.agents[i].own, newKeys, answer, saveCode, now, code)
    ensures
      var t := Run(w, CallSteps(i, w.agents[i], w.profile, newKeys, answer, saveCode, left));
      i < |t.agents| && t.lock == None && t.agents[i].place == Idle && t.agents[i].own == now
  {
    hide Run, Apply, Answered, Requesting, RegistrationSteps, CallSteps, Plausible;
    var inside := CallUnfold(w, i, newKeys, answer, saveCode, left);
    LeavingSteps(inside, i, newKeys, answer, saveCode, left);
  }

  lemma CallUnfold(w: World, i: nat, newKeys: KeyPair, answer: Answer, saveCode: Code, left: Option<Registration>)
    returns (inside: World)
    requires i < |w.agents| && w.lock == None && w.agents[i].initialized && w.agents[i].place == Idle
    ensures
      var operation := if w.agents[i].own.token.Some? then Rotate else Onboard;
      && inside.profile == w.profile && |inside.agents| == |w.agents| && inside.agents[i].own == w.agents[i].own
      && inside.agents[i].initialized && inside.agents[i].place == Checked(w.profile, inside.agents[i], operation)
      && Run(w, CallSteps(i, w.agents[i], w.profile, newKeys, answer, saveCode, left))
         == Apply(Run(inside, RegistrationSteps(i, inside.agents[i].place, newKeys, answer, saveCode, left)), Leave(i))
  {
    hide Run, Apply, Checked, RegistrationSteps;
    var a := w.agents[i];
    var operation := if a.own.token.Some? then Rotate else Onboard;
    var place := Checked(w.profile, a, operation);
    inside := EnteredSteps(w, i, operation);
    CheckedAnywhere(w.profile, a, place, operation);
    AroundSteps(w, [] + [Enter(i, operation, Ok), Check(i)],
                RegistrationSteps(i, place, newKeys, answer, saveCode, left), Leave(i));
  }

  lemma LeavingSteps(w: World, i: nat, newKeys: KeyPair, answer: Answer, saveCode: Code, left: Option<Registration>)
    requires i < |w.agents| && w.agents[i].initialized && Plausible(answer, saveCode)
    requires
      var operation := if w.agents[i].own.token.Some? then Rotate else Onboard;
      w.agents[i].place == Checked(w.profile, w.agents[i], operation)
    ensures
      var own := Requesting(w.profile, w.agents[i].own, newKeys);
      var steps := RegistrationSteps(i, w.agents[i].place, newKeys, answer, saveCode, left);
      var t := Apply(Run(w, steps), Leave(i));
      && i < |t.agents| && t.lock == None && t.agents[i].place == Idle
      && t.agents[i].own == Answered(w.profile, own, answer)
  {
    hide Run, Apply, Answered, Checked, Requesting, RegistrationSteps;
    AnsweredSteps(w, i, newKeys, answer, saveCode, left);
    LeaveStep(Run(w, RegistrationSteps(i, w.agents[i].place, newKeys, answer, saveCode, left)), i);
  }

  lemma EnteredSteps(w: World, i: nat, operation: Operation) returns (inside: World)
    requires i < |w.agents| && w.lock == None && w.agents[i].place == Idle
    ensures inside == Run(w, [] + [Enter(i, operation, Ok), Check(i)]) && inside.profile == w.profile
    ensures |inside.agents| == |w.agents|
    ensures inside.agents[i] == w.agents[i].(place := Checked(w.profile, w.agents[i], operation))
  {
    hide Apply, Checked;
    RunTwo(w, [], Enter(i, operation, Ok), Check(i));
    EnterAndCheck(w, i, operation);
    inside := Run(w, [] + [Enter(i, operation, Ok), Check(i)]);
  }

  lemma AroundSteps(w: World, start: seq<Step>, middle: seq<Step>, last: Step)
    ensures Run(w, start + middle + [last]) == Apply(Run(Run(w, start), middle), last)
  {
    hide Run, Apply;
    RunJoin(w, start, middle);
    RunSnoc(w, start + middle, last);
  }
}
