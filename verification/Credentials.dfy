/**
 Several agents share one saved registration. Each onboards, rotates its key or updates its credentials inside
 a critical section; their steps interleave in every possible way.
 */
module Credentials {
  import opened Codes

  datatype Profile = SharedSecret | Rsa

  datatype KeyPair = KeyPair(publicKey: string, privateKey: string)

  /** A missing registration token means that an agent is not onboarded. */
  datatype Registration = Registration(clientId: Option<string>, secret: Option<string>, token: Option<string>,
                                       uri: Option<string>, keys: Option<KeyPair>)

  datatype Operation = Onboard | Rotate | Update

  /** Where an agent is in its operation; every place but Idle is inside the critical section. */
  datatype Place =
    | Idle
    | Checking(operation: Operation)
    | Composing
    | Sending(operation: Operation)
    | Saving(operation: Operation)
    | Loading
    | Comparing(loaded: Registration)
    | Leaving(operation: Operation, code: Code)

  datatype Agent = Agent(initialized: bool, own: Registration, place: Place)

  /**
   `newest` is what the last processed registration response made of an agent's credentials. `issued` maps a
   private key to the token the server gave out with it, `used` collects all private keys seen so far, and
   `orderly` records whether every generated key was new and every failed save left the old file, none, or the
   new one up to its last line.
   */
  datatype World = World(profile: Profile, agents: seq<Agent>, lock: Option<nat>,
                         saved: Option<Registration>, newest: Option<Registration>, lastSaveOk: bool,
                         issued: map<string, string>, used: set<string>, orderly: bool)

  /** The server's answer to a registration request, as the agent experiences it. */
  datatype Answer =
    | Rejected(code: Code)  // not sent, refused, or not understood before anything was replaced
    | Broken(code: Code)    // understood only in part, after the old values were destroyed
    | Accepted(clientId: string, secret: string, token: string, uri: string)

  datatype Step =
    | Enter(agent: nat, operation: Operation, code: Code)
    | Check(agent: nat)
    | Compose(agent: nat, keys: KeyPair)
    | Send(agent: nat, answer: Answer)
    | Save(agent: nat, code: Code, left: Option<Registration>)
    | Load(agent: nat, code: Code)
    | Compare(agent: nat, code: Code)
    | Leave(agent: nat)

  /** The part of an agent's credentials its security profile stores. */
  function Stored(profile: Profile, r: Registration): Registration {
    if profile == SharedSecret then r.(keys := None) else r.(secret := None)
  }

  function Failed(code: Code): Code {
    if code == Ok || code == SecurityUpToDate then Fail else code
  }

  /** An agent's credentials after an accepted answer. */
  function Process(profile: Profile, own: Registration, answer: Answer): Registration
    requires answer.Accepted?
  {
    var r := own.(clientId := Some(answer.clientId), token := Some(answer.token), uri := Some(answer.uri));
    if profile == SharedSecret then r.(secret := Some(answer.secret)) else r
  }

  /** An agent's credentials after an answer that broke off while the values were being replaced. */
  function Wipe(profile: Profile, own: Registration): Registration {
    var r := own.(clientId := None, token := None, uri := None);
    if profile == SharedSecret then r.(secret := None) else r
  }

  function PrivateKey(r: Registration): Option<string> {
    if r.keys.Some? then Some(r.keys.value.privateKey) else None
  }

  /** The comparison that decides whether an update has anything to do. */
  predicate SameSecrets(profile: Profile, own: Registration, loaded: Registration) {
    if profile == SharedSecret then own.secret == loaded.secret && own.token == loaded.token
    else PrivateKey(own) == PrivateKey(loaded)
  }

  /** Nothing is missing, so that loading can succeed. */
  predicate Complete(profile: Profile, r: Registration) {
    && r.clientId.Some? && r.token.Some? && r.uri.Some?
    && if profile == SharedSecret then r.secret.Some? else r.keys.Some?
  }

  /** An update replaces token and secrets only: client id and URI stay. */
  function Replace(own: Registration, loaded: Registration): Registration {
    own.(token := loaded.token, secret := loaded.secret, keys := loaded.keys)
  }

  // ---------- steps ----------

  function Checked(profile: Profile, a: Agent, operation: Operation): Place {
    if !a.initialized then Leaving(operation, NotInitialized)
    else if operation == Onboard then
      if a.own.token.Some? then Leaving(operation, AlreadyOnboarded) else Sending(operation)
    else if a.own.token == None then Leaving(operation, NotOnboarded)
    else if operation == Update then Loading
    else if profile == Rsa then Composing
    else Sending(operation)
  }

  function Put(w: World, i: nat, a: Agent): World
    requires i < |w.agents|
  {
    w.(agents := w.agents[i := a])
  }

  predicate LeftInOrder(w: World, own: Registration, left: Option<Registration>) {
    || left == None || left == w.saved
    || (left.Some? && left.value.(uri := None) == Stored(w.profile, own).(uri := None))
  }

  function AfterSend(w: World, i: nat, operation: Operation, answer: Answer): World
    requires i < |w.agents|
  {
    var a := w.agents[i];
    match answer
    case Rejected(code) => Put(w, i, a.(place := Leaving(operation, Failed(code))))
    case Broken(code) => Put(w, i, a.(own := Wipe(w.profile, a.own), place := Leaving(operation, Failed(code))))
    case Accepted(_, _, token, _) =>
      var own := Process(w.profile, a.own, answer);
      Put(w, i, a.(own := own, place := Saving(operation)))
      .(newest := Some(Stored(w.profile, own)),
        issued := if own.keys.Some? then w.issued[own.keys.value.privateKey := token] else w.issued)
  }

  function AfterSave(w: World, i: nat, operation: Operation, code: Code, left: Option<Registration>): World
    requires i < |w.agents|
  {
    var a := w.agents[i];
    if code == Ok then
      Put(w, i, a.(place := Leaving(operation, Ok))).(saved := Some(Stored(w.profile, a.own)), lastSaveOk := true)
    else
      Put(w, i, a.(place := Leaving(operation, Failed(code))))
      .(saved := left, lastSaveOk := false, orderly := w.orderly && LeftInOrder(w, a.own, left))
  }

  function AfterLoad(w: World, i: nat, code: Code): World
    requires i < |w.agents|
  {
    var a := w.agents[i];
    if code == Ok && w.saved.Some? && Complete(w.profile, w.saved.value) then
      Put(w, i, a.(place := Comparing(w.saved.value)))
    else Put(w, i, a.(place := Leaving(Update, Failed(code))))
  }

  function Compared(profile: Profile, a: Agent, loaded: Registration, code: Code): Agent {
    if a.own.clientId != loaded.clientId then a.(place := Leaving(Update, Fail))
    else if SameSecrets(profile, a.own, loaded) then a.(place := Leaving(Update, SecurityUpToDate))
    else if code != Ok then a.(place := Leaving(Update, Failed(code)))
    else a.(own := Replace(a.own, loaded), place := Leaving(Update, Ok))
  }

  function AfterCompose(w: World, i: nat, keys: KeyPair): World
    requires i < |w.agents|
  {
    var a := w.agents[i];
    Put(w, i, a.(own := a.own.(keys := Some(keys)), place := Sending(Rotate)))
    .(used := w.used + {keys.privateKey}, orderly := w.orderly && keys.privateKey !in w.used)
  }

  /** The state after a step; a step that is not possible at its agent's place changes nothing. */
  function Apply(w: World, s: Step): World {
    if s.agent >= |w.agents| then w
    else
      var i, a := s.agent, w.agents[s.agent];
      match (s, a.place)
      case (Enter(_, operation, code), Idle) =>
        if code == Ok && w.lock == None then Put(w, i, a.(place := Checking(operation))).(lock := Some(i)) else w
      case (Check(_), Checking(operation)) => Put(w, i, a.(place := Checked(w.profile, a, operation)))
      case (Compose(_, keys), Composing) => AfterCompose(w, i, keys)
      case (Send(_, answer), Sending(operation)) => AfterSend(w, i, operation, answer)
      case (Save(_, code, left), Saving(operation)) => AfterSave(w, i, operation, code, left)
      case (Load(_, code), Loading) => AfterLoad(w, i, code)
      case (Compare(_, code), Comparing(loaded)) => Put(w, i, Compared(w.profile, a, loaded, code))
      case (Leave(_), Leaving(_, _)) => Put(w, i, a.(place := Idle)).(lock := None)
      case _ => w
  }

  function Run(w: World, steps: seq<Step>): World {
    if steps == [] then w else Apply(Run(w, steps[..|steps| - 1]), steps[|steps| - 1])
  }

  // ---------- the steps, field by field ----------

  lemma EnterIsExact(w: World, i: nat, operation: Operation, code: Code)
    requires i < |w.agents| && w.agents[i].place == Idle
    ensures
      var t := Apply(w, Enter(i, operation, code));
      if code == Ok && w.lock == None then
        t.lock == Some(i) && |t.agents| == |w.agents| && t.agents[i].place == Checking(operation)
      else t == w
  {
  }

  /** Which checks stop an operation, and where it goes on otherwise. */
  lemma CheckIsExact(w: World, i: nat, operation: Operation)
    requires i < |w.agents| && w.agents[i].place == Checking(operation)
    ensures
      var t, a := Apply(w, Check(i)), w.agents[i];
      |t.agents| == |w.agents| && t.agents[i].own == a.own
      && var place := t.agents[i].place;
      && (place == Leaving(operation, NotInitialized) <==> !a.initialized)
      && (place == Leaving(operation, AlreadyOnboarded)
          <==> a.initialized && operation == Onboard && a.own.token.Some?)
      && (place == Leaving(operation, NotOnboarded)
          <==> a.initialized && operation != Onboard && a.own.token == None)
      && (a.initialized && a.own.token == None && operation == Onboard ==> place == Sending(Onboard))
      && (a.initialized && a.own.token.Some? && operation == Update ==> place == Loading)
      && (a.initialized && a.own.token.Some? && operation == Rotate ==>
            place == if w.profile == Rsa then Composing else Sending(Rotate))
  {
  }

  lemma ComposeIsExact(w: World, i: nat, keys: KeyPair)
    requires i < |w.agents| && w.agents[i].place == Composing
    ensures
      var t := Apply(w, Compose(i, keys));
      && |t.agents| == |w.agents| && t.agents[i].place == Sending(Rotate)
      && t.agents[i].own == w.agents[i].own.(keys := Some(keys))
      && t.newest == w.newest && t.saved == w.saved
  {
  }

  /** An accepted answer puts each of its values into the field of its name, of the agent and of the newest one. */
  lemma SendIsExact(w: World, i: nat, operation: Operation, answer: Answer)
    requires i < |w.agents| && w.agents[i].place == Sending(operation)
    ensures
      var t, own := Apply(w, Send(i, answer)), w.agents[i].own;
      |t.agents| == |w.agents| && t.saved == w.saved
      && var now := t.agents[i].own;
      && now.keys == own.keys && (w.profile == Rsa ==> now.secret == own.secret)
      && (answer.Accepted? ==>
            && t.agents[i].place == Saving(operation)
            && now.clientId == Some(answer.clientId) && now.token == Some(answer.token) && now.uri == Some(answer.uri)
            && (w.profile == SharedSecret ==> now.secret == Some(answer.secret))
            && t.newest.Some?
            && t.newest.value.clientId == Some(answer.clientId) && t.newest.value.token == Some(answer.token)
            && t.newest.value.uri == Some(answer.uri)
            && (w.profile == SharedSecret ==>
                  t.newest.value.secret == Some(answer.secret) && t.newest.value.keys == None)
            && (w.profile == Rsa ==> t.newest.value.secret == None && t.newest.value.keys == own.keys))
      && (answer.Broken? ==>
            && t.agents[i].place == Leaving(operation, Failed(answer.code)) && t.newest == w.newest
            && now.clientId == None && now.token == None && now.uri == None
            && (w.profile == SharedSecret ==> now.secret == None))
      && (answer.Rejected? ==>
            t.agents[i].place == Leaving(operation, Failed(answer.code)) && t.newest == w.newest && now == own)
  {
  }

  /** A save that succeeds stores the fields of the agent's profile, one that fails what it leaves behind. */
  lemma SaveIsExact(w: World, i: nat, operation: Operation, code: Code, left: Option<Registration>)
    requires i < |w.agents| && w.agents[i].place == Saving(operation)
    ensures
      var t, own := Apply(w, Save(i, code, left)), w.agents[i].own;
      && |t.agents| == |w.agents| && t.agents[i].own == own && t.newest == w.newest
      && (code == Ok ==>
            && t.agents[i].place == Leaving(operation, Ok) && t.lastSaveOk && t.saved.Some?
            && t.saved.value.clientId == own.clientId && t.saved.value.token == own.token
            && t.saved.value.uri == own.uri
            && (w.profile == SharedSecret ==> t.saved.value.secret == own.secret && t.saved.value.keys == None)
            && (w.profile == Rsa ==> t.saved.value.secret == None && t.saved.value.keys == own.keys))
      && (code != Ok ==>
            && t.agents[i].place.Leaving? && t.agents[i].place.code != Ok && !t.lastSaveOk && t.saved == left)
  {
  }

  /** Loading gives what is saved if all strings of the profile are there. */
  lemma LoadIsExact(w: World, i: nat, code: Code)
    requires i < |w.agents| && w.agents[i].place == Loading
    ensures
      var t := Apply(w, Load(i, code));
      |t.agents| == |w.agents| && t.agents[i].own == w.agents[i].own && t.saved == w.saved
      && var usable := code == Ok && w.saved.Some? && w.saved.value.clientId.Some? && w.saved.value.token.Some?
                       && w.saved.value.uri.Some?
                       && (w.profile == SharedSecret ==> w.saved.value.secret.Some?)
                       && (w.profile == Rsa ==> w.saved.value.keys.Some?);
      && (usable ==> t.agents[i].place == Comparing(w.saved.value))
      && (!usable ==> t.agents[i].place.Leaving? && t.agents[i].place.code != Ok)
  {
  }

  /** What an update does to each of the credentials, and when. */
  ghost predicate IsUpdate(profile: Profile, own: Registration, loaded: Registration, allocation: Code,
                           now: Registration, code: Code)
  {
    var same := if profile == SharedSecret then own.secret == loaded.secret && own.token == loaded.token
                else if own.keys.Some? && loaded.keys.Some? then
                  own.keys.value.privateKey == loaded.keys.value.privateKey
                else own.keys == loaded.keys;
    && now.clientId == own.clientId && now.uri == own.uri
    && (own.clientId != loaded.clientId ==> code == Fail && now == own)
    && (own.clientId == loaded.clientId && same ==> code == SecurityUpToDate && now == own)
    && (own.clientId == loaded.clientId && !same ==>
          if allocation == Ok then
            code == Ok && now.token == loaded.token && now.secret == loaded.secret && now.keys == loaded.keys
          else code == allocation && now == own)
  }

  lemma CompareIsExact(w: World, i: nat, loaded: Registration, code: Code)
    requires i < |w.agents| && w.agents[i].place == Comparing(loaded) && code != SecurityUpToDate
    ensures
      var t := Apply(w, Compare(i, code));
      && |t.agents| == |w.agents| && t.agents[i].place.Leaving? && t.agents[i].place.operation == Update
      && IsUpdate(w.profile, w.agents[i].own, loaded, code, t.agents[i].own, t.agents[i].place.code)
  {
  }

  lemma LeaveIsExact(w: World, i: nat)
    requires i < |w.agents| && w.agents[i].place.Leaving?
    ensures
      var t := Apply(w, Leave(i));
      && t == w.(lock := None, agents := t.agents) && |t.agents| == |w.agents|
      && t.agents[i] == w.agents[i].(place := Idle)
  {
  }

  // ---------- what every run keeps ----------

  /** Only the holder of the lock is inside the critical section. */
  ghost predicate Exclusive(w: World) {
    && (w.lock.Some? ==> w.lock.value < |w.agents| && !w.agents[w.lock.value].place.Idle?)
    && forall i :: 0 <= i < |w.agents| ==> w.agents[i].place.Idle? || w.lock == Some(i)
  }

  /** The agent has the secret and the token of the saved registration. */
  predicate Holds(profile: Profile, own: Registration, saved: Registration) {
    && own.clientId == saved.clientId && SameSecrets(profile, own, saved)
  }

  predicate UpdateSucceeded(p: Place) {
    p.Leaving? && p.operation == Update && (p.code == Ok || p.code == SecurityUpToDate)
  }

  /** What is known of an agent at its place. */
  ghost predicate Sound(w: World, a: Agent) {
    && (a.place.Comparing? ==> w.saved == Some(a.place.loaded) && Complete(w.profile, a.place.loaded))
    && (a.place.Saving? ==> w.newest == Some(Stored(w.profile, a.own)))
    && (UpdateSucceeded(a.place) ==> w.saved.Some? && Holds(w.profile, a.own, w.saved.value))
  }

  ghost predicate Consistent(w: World) {
    && (forall i :: 0 <= i < |w.agents| ==> Sound(w, w.agents[i]))
    && (w.lastSaveOk && (forall i :: 0 <= i < |w.agents| ==> !w.agents[i].place.Saving?) ==> w.saved == w.newest)
  }

  lemma StepExclusive(w: World, s: Step)
    requires Exclusive(w)
    ensures Exclusive(Apply(w, s))
  {
    hide Process, Wipe, Stored, LeftInOrder, Replace, SameSecrets, Complete;
  }

  /** A step that changes anything belongs to an agent that is alone in the critical section. */
  lemma StepIsAlone(w: World, s: Step)
    requires Exclusive(w) && Apply(w, s) != w
    ensures s.agent < |w.agents|
    ensures forall j :: 0 <= j < |w.agents| && j != s.agent ==>
              Apply(w, s).agents[j] == w.agents[j] && w.agents[j].place.Idle?
  {
  }

  lemma CompareHolds(profile: Profile, a: Agent, loaded: Registration, code: Code)
    ensures
      var b := Compared(profile, a, loaded, code);
      b.place.Leaving? && (UpdateSucceeded(b.place) ==> Holds(profile, b.own, loaded))
  {
  }

  lemma SendSound(w: World, i: nat, operation: Operation, answer: Answer)
    requires i < |w.agents|
    ensures Sound(AfterSend(w, i, operation, answer), AfterSend(w, i, operation, answer).agents[i])
  {
  }

  lemma StepSound(w: World, s: Step)
    requires s.agent < |w.agents| && Sound(w, w.agents[s.agent])
    ensures Sound(Apply(w, s), Apply(w, s).agents[s.agent])
  {
    var i, a := s.agent, w.agents[s.agent];
    if s.Compare? && a.place.Comparing? {
      CompareHolds(w.profile, a, a.place.loaded, s.code);
      hide Compared, Holds;
    } else if s.Send? && a.place.Sending? {
      SendSound(w, i, a.place.operation, s.answer);
    } else {
      hide AfterSend, Compared;
    }
  }

  lemma StepSaved(w: World, s: Step)
    requires s.agent < |w.agents| && Sound(w, w.agents[s.agent])
    requires w.lastSaveOk && !w.agents[s.agent].place.Saving? ==> w.saved == w.newest
    ensures
      var t := Apply(w, s);
      t.lastSaveOk && !t.agents[s.agent].place.Saving? ==> t.saved == t.newest
  {
  }

  lemma StepConsistent(w: World, s: Step)
    requires Exclusive(w) && Consistent(w)
    ensures Consistent(Apply(w, s))
  {
    var t := Apply(w, s);
    if t != w {
      hide Apply, Sound;
      StepIsAlone(w, s);
      StepSound(w, s);
      StepSaved(w, s);
      forall j | 0 <= j < |t.agents| ensures Sound(t, t.agents[j]) {
        if j != s.agent {
          IdleIsSound(t, t.agents[j]);
        }
      }
    }
  }

  lemma IdleIsSound(w: World, a: Agent)
    requires a.place.Idle?
    ensures Sound(w, a)
  {
  }

  lemma {:induction false} RunKeeps(w: World, steps: seq<Step>)
    requires Exclusive(w) && Consistent(w)
    ensures Exclusive(Run(w, steps)) && Consistent(Run(w, steps))
  {
    if steps != [] {
      hide Apply;
      var before := steps[..|steps| - 1];
      RunKeeps(w, before);
      StepExclusive(Run(w, before), steps[|steps| - 1]);
      StepConsistent(Run(w, before), steps[|steps| - 1]);
    }
  }

  /** Everybody outside, and what is saved is the newest registration. */
  ghost predicate AtRest(w: World) {
    && w.lock == None && w.lastSaveOk && w.saved == w.newest
    && forall i :: 0 <= i < |w.agents| ==> w.agents[i].place == Idle
  }

  /** Whenever the lock is free and the last save succeeded, the newest registration is the saved one. */
  lemma SavedIsNewest(w: World, steps: seq<Step>)
    requires AtRest(w)
    ensures
      var t := Run(w, steps);
      t.lock == None && t.lastSaveOk ==> t.saved == t.newest
  {
    RunKeeps(w, steps);
  }

  /** An agent whose update succeeds holds the saved secrets at that moment, whatever the others did before. */
  lemma UpdateHoldsSaved(w: World, steps: seq<Step>, i: nat)
    requires AtRest(w) && i < |w.agents|
    ensures
      var t := Run(w, steps);
      |t.agents| == |w.agents|
      && (UpdateSucceeded(t.agents[i].place) ==>
            && t.saved.Some? && Holds(t.profile, t.agents[i].own, t.saved.value)
            && (t.lastSaveOk ==> t.saved == t.newest))
  {
    RunKeeps(w, steps);
    RunKeepsAgents(w, steps);
    var t := Run(w, steps);
    if UpdateSucceeded(t.agents[i].place) {
      assert Sound(t, t.agents[i]);
      assert forall j :: 0 <= j < |t.agents| && j != i ==> t.agents[j].place.Idle?;
    }
  }

  lemma {:induction false} RunKeepsAgents(w: World, steps: seq<Step>)
    ensures |Run(w, steps).agents| == |w.agents| && Run(w, steps).profile == w.profile
  {
    if steps != [] {
      RunKeepsAgents(w, steps[..|steps| - 1]);
      StepKeepsAgents(Run(w, steps[..|steps| - 1]), steps[|steps| - 1]);
    }
  }

  lemma StepKeepsAgents(w: World, s: Step)
    ensures |Apply(w, s).agents| == |w.agents| && Apply(w, s).profile == w.profile
  {
  }

  // ---------- private keys and the tokens that belong to them ----------

  /** An agent's key has been seen; if a token was issued for it, that is the agent's token. */
  ghost predicate AgentBound(issued: map<string, string>, used: set<string>, a: Agent) {
    && a.own.keys.Some? && a.own.keys.value.privateKey in used
    && (a.own.keys.value.privateKey in issued ==> a.own.token == Some(issued[a.own.keys.value.privateKey]))
    && (a.place.Sending? ==> a.own.keys.value.privateKey !in issued)
    && (a.place.Saving? ==> a.own.keys.value.privateKey in issued)
  }

  ghost predicate SavedBound(issued: map<string, string>, saved: Option<Registration>) {
    saved.Some? && saved.value.keys.Some? ==>
      && saved.value.keys.value.privateKey in issued
      && saved.value.token == Some(issued[saved.value.keys.value.privateKey])
  }

  /** A key that two agents share has been issued. */
  ghost predicate SharedKeysIssued(issued: map<string, string>, agents: seq<Agent>) {
    forall i, j :: 0 <= i < |agents| && 0 <= j < |agents| && i != j
                   && PrivateKey(agents[i].own).Some? && PrivateKey(agents[i].own) == PrivateKey(agents[j].own) ==>
      PrivateKey(agents[i].own).value in issued
  }

  ghost predicate Bound(w: World) {
    && (forall i :: 0 <= i < |w.agents| ==> AgentBound(w.issued, w.used, w.agents[i]))
    && SavedBound(w.issued, w.saved)
    && SharedKeysIssued(w.issued, w.agents)
    && w.issued.Keys <= w.used
  }

  /** Replacing one agent keeps the bindings if the new agent fits and does not take an unissued key from another. */
  lemma PutBound(issued: map<string, string>, used: set<string>, agents: seq<Agent>, i: nat, a: Agent,
                 after: seq<Agent>)
    requires i < |agents| && SharedKeysIssued(issued, agents) && after == agents[i := a]
    requires forall j :: 0 <= j < |agents| && j != i ==> AgentBound(issued, used, agents[j])
    requires AgentBound(issued, used, a)
    requires a.own.keys == agents[i].own.keys || a.own.keys.value.privateKey in issued
             || forall j :: 0 <= j < |agents| && j != i ==> PrivateKey(agents[j].own) != PrivateKey(a.own)
    ensures forall j :: 0 <= j < |agents| ==> AgentBound(issued, used, after[j])
    ensures SharedKeysIssued(issued, after)
  {
  }

  lemma ComposeBound(w: World, i: nat, keys: KeyPair)
    requires i < |w.agents| && Bound(w) && keys.privateKey !in w.used
    ensures Bound(AfterCompose(w, i, keys))
  {
    var t := AfterCompose(w, i, keys);
    forall j | 0 <= j < |w.agents| && j != i
      ensures AgentBound(t.issued, t.used, w.agents[j]) && PrivateKey(w.agents[j].own) != Some(keys.privateKey)
    {
      assert AgentBound(w.issued, w.used, w.agents[j]);
    }
    PutBound(t.issued, t.used, w.agents, i, t.agents[i], t.agents);
  }

  /** Issuing a token for a key nobody else has and that was never issued disturbs no other binding. */
  lemma IssueBound(w: World, i: nat, issued: map<string, string>, token: string)
    requires i < |w.agents| && Bound(w) && w.agents[i].place.Sending?
    requires issued == w.issued[w.agents[i].own.keys.value.privateKey := token]
    ensures forall j :: 0 <= j < |w.agents| && j != i ==> AgentBound(issued, w.used, w.agents[j])
    ensures SavedBound(issued, w.saved) && SharedKeysIssued(issued, w.agents) && issued.Keys <= w.used
  {
    var k := w.agents[i].own.keys.value.privateKey;
    assert AgentBound(w.issued, w.used, w.agents[i]);
    forall j | 0 <= j < |w.agents| && j != i ensures AgentBound(issued, w.used, w.agents[j]) {
      assert AgentBound(w.issued, w.used, w.agents[j]);
      assert PrivateKey(w.agents[i].own) != PrivateKey(w.agents[j].own);
    }
  }

  lemma SendBound(w: World, i: nat, operation: Operation, answer: Answer)
    requires w.profile == Rsa && i < |w.agents| && Bound(w) && w.agents[i].place.Sending?
    ensures Bound(AfterSend(w, i, operation, answer))
  {
    var t := AfterSend(w, i, operation, answer);
    assert AgentBound(w.issued, w.used, w.agents[i]);
    if answer.Accepted? {
      IssueBound(w, i, t.issued, answer.token);
    }
    PutBound(t.issued, t.used, w.agents, i, t.agents[i], t.agents);
  }

  lemma SaveBound(w: World, i: nat, operation: Operation, code: Code, left: Option<Registration>)
    requires w.profile == Rsa && i < |w.agents| && Bound(w) && w.agents[i].place.Saving?
    requires AfterSave(w, i, operation, code, left).orderly && w.orderly
    ensures Bound(AfterSave(w, i, operation, code, left))
  {
    var t := AfterSave(w, i, operation, code, left);
    assert AgentBound(w.issued, w.used, w.agents[i]);
    PutBound(t.issued, t.used, w.agents, i, t.agents[i], t.agents);
    if code != Ok && left.Some? && left != w.saved {
      assert left.value.keys == left.value.(uri := None).keys && left.value.token == left.value.(uri := None).token;
      assert left.value.keys == w.agents[i].own.keys && left.value.token == w.agents[i].own.token;
    }
  }

  lemma CompareBound(w: World, i: nat, code: Code)
    requires w.profile == Rsa && i < |w.agents| && Bound(w) && Sound(w, w.agents[i]) && w.agents[i].place.Comparing?
    ensures Bound(Put(w, i, Compared(w.profile, w.agents[i], w.agents[i].place.loaded, code)))
  {
    var b := Compared(w.profile, w.agents[i], w.agents[i].place.loaded, code);
    assert AgentBound(w.issued, w.used, w.agents[i]);
    assert AgentBound(w.issued, w.used, b);
    PutBound(w.issued, w.used, w.agents, i, b, w.agents[i := b]);
  }

  /** The remaining steps only move an agent to another place. */
  lemma MoveBound(w: World, i: nat, b: Agent)
    requires i < |w.agents| && Bound(w) && b.own == w.agents[i].own && !b.place.Saving?
    requires b.place.Sending? ==> b.own.token == None
    ensures Bound(Put(w, i, b))
  {
    assert AgentBound(w.issued, w.used, w.agents[i]);
    PutBound(w.issued, w.used, w.agents, i, b, w.agents[i := b]);
  }

  lemma StepBound(w: World, s: Step)
    requires w.profile == Rsa && Consistent(w) && Bound(w) && Apply(w, s).orderly
    ensures Bound(Apply(w, s)) && w.orderly
  {
    hide Compared, AgentBound, SavedBound, SharedKeysIssued;
    if s.agent < |w.agents| {
      var i, a := s.agent, w.agents[s.agent];
      assert Sound(w, a);
      match (s, a.place)
      case (Enter(_, operation, code), Idle) => MoveBound(w, i, a.(place := Checking(operation)));
      case (Check(_), Checking(operation)) => MoveBound(w, i, a.(place := Checked(w.profile, a, operation)));
      case (Compose(_, keys), Composing) => ComposeBound(w, i, keys);
      case (Send(_, answer), Sending(operation)) => SendBound(w, i, operation, answer);
      case (Save(_, code, left), Saving(operation)) => SaveBound(w, i, operation, code, left);
      case (Load(_, code), Loading) => MoveBound(w, i, AfterLoad(w, i, code).agents[i]);
      case (Compare(_, code), Comparing(loaded)) => CompareBound(w, i, code);
      case (Leave(_), Leaving(_, _)) => MoveBound(w, i, a.(place := Idle));
      case _ =>
    }
  }

  lemma {:induction false} RunBound(w: World, steps: seq<Step>)
    requires w.profile == Rsa && Exclusive(w) && Consistent(w) && Bound(w) && Run(w, steps).orderly
    ensures Bound(Run(w, steps))
  {
    if steps != [] {
      hide Apply;
      var before, s := steps[..|steps| - 1], steps[|steps| - 1];
      RunKeeps(w, before);
      RunKeepsAgents(w, before);
      OrderlyBefore(Run(w, before), s);
      RunBound(w, before);
      StepBound(Run(w, before), s);
    }
  }

  lemma OrderlyBefore(w: World, s: Step)
    requires Apply(w, s).orderly
    ensures w.orderly
  {
  }

  /**
   With RSA an update compares private keys only. As long as every generated key was new, the token that
   belongs to the saved key is in the agent's hands all the same.
   */
  lemma RsaUpdateHoldsToken(w: World, steps: seq<Step>, i: nat)
    requires AtRest(w) && w.profile == Rsa && Bound(w) && i < |w.agents|
    ensures
      var t := Run(w, steps);
      |t.agents| == |w.agents|
      && (t.orderly && UpdateSucceeded(t.agents[i].place) ==>
            t.saved.Some? && t.agents[i].own.token == t.saved.value.token && t.agents[i].own.token.Some?)
  {
    RunKeeps(w, steps);
    RunKeepsAgents(w, steps);
    var t := Run(w, steps);
    if t.orderly && UpdateSucceeded(t.agents[i].place) {
      RunBound(w, steps);
      assert Sound(t, t.agents[i]) && AgentBound(t.issued, t.used, t.agents[i]);
    }
  }

  lemma RunTwo(w: World, steps: seq<Step>, s: Step, t: Step)
    ensures Run(w, steps + [s, t]) == Apply(Apply(Run(w, steps), s), t)
  {
    hide Apply;
    assert (steps + [s, t])[..|steps| + 1] == steps + [s] && (steps + [s])[..|steps|] == steps;
  }

  // ---------- undisturbed operations ----------

  lemma EnterAndCheck(w: World, i: nat, operation: Operation)
    requires i < |w.agents| && w.lock == None && w.agents[i].place == Idle
    ensures
      var a := w.agents[i];
      Apply(Apply(w, Enter(i, operation, Ok)), Check(i))
      == Put(w, i, a.(place := Checked(w.profile, a, operation))).(lock := Some(i))
  {
    var a := w.agents[i];
    var inside := Put(w, i, a.(place := Checking(operation))).(lock := Some(i));
    assert Apply(w, Enter(i, operation, Ok)) == inside;
    assert Checked(w.profile, inside.agents[i], operation) == Checked(w.profile, a, operation);
    assert inside.agents[i := a.(place := Checked(w.profile, a, operation))]
           == w.agents[i := a.(place := Checked(w.profile, a, operation))];
  }

  lemma ComparedAnywhere(profile: Profile, a: Agent, place: Place, loaded: Registration, code: Code)
    ensures Compared(profile, a.(place := place), loaded, code) == Compared(profile, a, loaded, code)
  {
  }

  lemma LoadAndCompare(w: World, i: nat)
    requires i < |w.agents| && w.agents[i].place == Loading && w.saved.Some? && Complete(w.profile, w.saved.value)
    ensures Apply(Apply(w, Load(i, Ok)), Compare(i, Ok))
            == Put(w, i, Compared(w.profile, w.agents[i], w.saved.value, Ok))
  {
    var a, saved := w.agents[i], w.saved.value;
    var loaded := Put(w, i, a.(place := Comparing(saved)));
    assert Apply(w, Load(i, Ok)) == loaded;
    assert Compared(w.profile, loaded.agents[i], saved, Ok) == Compared(w.profile, a, saved, Ok);
    assert loaded.agents[i := Compared(w.profile, a, saved, Ok)] == w.agents[i := Compared(w.profile, a, saved, Ok)];
  }

  function UpdateSteps(i: nat): seq<Step> {
    [] + [Enter(i, Update, Ok), Check(i)] + [Load(i, Ok), Compare(i, Ok)]
  }

  /** An update nobody disturbs compares with what is saved and changes nothing but this agent. */
  lemma UndisturbedUpdate(w: World, i: nat)
    requires i < |w.agents| && w.lock == None && w.agents[i].place == Idle
    requires w.agents[i].initialized && w.agents[i].own.token.Some?
    requires w.saved.Some? && Complete(w.profile, w.saved.value)
    ensures
      Run(w, UpdateSteps(i)) == Put(w, i, Compared(w.profile, w.agents[i], w.saved.value, Ok)).(lock := Some(i))
  {
    hide Apply, Compared, Complete;
    RunTwo(w, [], Enter(i, Update, Ok), Check(i));
    RunTwo(w, [] + [Enter(i, Update, Ok), Check(i)], Load(i, Ok), Compare(i, Ok));
    EnterAndCheck(w, i, Update);
    var a := w.agents[i];
    var inside := Put(w, i, a.(place := Loading)).(lock := Some(i));
    LoadAndCompare(inside, i);
    ComparedAnywhere(w.profile, a, Loading, w.saved.value, Ok);
    assert inside.agents[i := Compared(w.profile, a, w.saved.value, Ok)]
           == w.agents[i := Compared(w.profile, a, w.saved.value, Ok)];
  }

  /**
   In any reachable state an onboarded agent outside the critical section catches up with the newest registration
   by one update exactly if its client id is still the current one; its URI stays the old one. Under another
   client id the update fails and the agent keeps what it had.
   */
  lemma CatchUp(w: World, i: nat)
    requires Exclusive(w) && Consistent(w) && w.lock == None && w.lastSaveOk && i < |w.agents|
    requires w.agents[i].initialized && w.agents[i].own.token.Some?
    requires w.saved.Some? && Complete(w.profile, w.saved.value)
    ensures
      var t := Run(w, UpdateSteps(i));
      |t.agents| == |w.agents|
      && var own, now := w.agents[i].own, t.agents[i];
      && w.newest == w.saved && t.newest == w.newest
      && (UpdateSucceeded(now.place) <==> own.clientId == w.newest.value.clientId)
      && (UpdateSucceeded(now.place) ==> Holds(w.profile, now.own, w.newest.value) && now.own.uri == own.uri)
      && (!UpdateSucceeded(now.place) ==> now.place == Leaving(Update, Fail) && now.own == own)
  {
    UndisturbedUpdate(w, i);
    CompareHolds(w.profile, w.agents[i], w.saved.value, Ok);
  }

  function RotationSteps(i: nat, keys: KeyPair, answer: Answer): seq<Step> {
    [] + [Enter(i, Rotate, Ok), Check(i)] + [Compose(i, keys), Send(i, answer)] + [Save(i, Ok, None), Leave(i)]
  }

  /** What an agent has after an accepted RSA rotation. */
  function Rotated(own: Registration, keys: KeyPair, answer: Answer): Registration
    requires answer.Accepted?
  {
    Process(Rsa, own.(keys := Some(keys)), answer)
  }

  lemma ComposeAndSend(w: World, i: nat, keys: KeyPair, answer: Answer)
    requires w.profile == Rsa && i < |w.agents| && w.agents[i].place == Composing && answer.Accepted?
    ensures
      var own := Rotated(w.agents[i].own, keys, answer);
      Apply(Apply(w, Compose(i, keys)), Send(i, answer))
      == Put(w, i, w.agents[i].(own := own, place := Saving(Rotate)))
         .(used := w.used + {keys.privateKey}, orderly := w.orderly && keys.privateKey !in w.used,
           newest := Some(Stored(Rsa, own)), issued := w.issued[keys.privateKey := answer.token])
  {
    var a := w.agents[i];
    var own := Rotated(a.own, keys, answer);
    var composed := AfterCompose(w, i, keys);
    assert Apply(w, Compose(i, keys)) == composed;
    assert Process(w.profile, composed.agents[i].own, answer) == own;
    assert composed.agents[i := a.(own := own, place := Saving(Rotate))]
           == w.agents[i := a.(own := own, place := Saving(Rotate))];
  }

  lemma SaveAndLeave(w: World, i: nat)
    requires i < |w.agents| && w.agents[i].place.Saving?
    ensures
      Apply(Apply(w, Save(i, Ok, None)), Leave(i))
      == Put(w, i, w.agents[i].(place := Idle))
         .(saved := Some(Stored(w.profile, w.agents[i].own)), lastSaveOk := true, lock := None)
  {
    var a := w.agents[i];
    var saved := AfterSave(w, i, a.place.operation, Ok, None);
    assert Apply(w, Save(i, Ok, None)) == saved;
    assert saved.agents[i := a.(place := Idle)] == w.agents[i := a.(place := Idle)];
  }

  /** An RSA rotation nobody disturbs. */
  lemma UndisturbedRotation(w: World, i: nat, keys: KeyPair, answer: Answer)
    requires w.profile == Rsa && w.lock == None && i < |w.agents| && answer.Accepted?
    requires w.agents[i].place == Idle && w.agents[i].initialized && w.agents[i].own.token.Some?
    ensures
      var own := Rotated(w.agents[i].own, keys, answer);
      var t := Run(w, RotationSteps(i, keys, answer));
      && t.agents == w.agents[i := w.agents[i].(own := own)] && t.lock == None
      && t.saved == Some(Stored(Rsa, own)) && t.newest == t.saved && t.lastSaveOk
      && t.issued == w.issued[keys.privateKey := answer.token]
  {
    hide Apply, Process, Stored;
    var a := w.agents[i];
    var own := Rotated(a.own, keys, answer);
    RunTwo(w, [], Enter(i, Rotate, Ok), Check(i));
    RunTwo(w, [] + [Enter(i, Rotate, Ok), Check(i)], Compose(i, keys), Send(i, answer));
    RunTwo(w, [] + [Enter(i, Rotate, Ok), Check(i)] + [Compose(i, keys), Send(i, answer)], Save(i, Ok, None), Leave(i));
    EnterAndCheck(w, i, Rotate);
    var inside := Put(w, i, a.(place := Composing)).(lock := Some(i));
    ComposeAndSend(inside, i, keys, answer);
    var sent := Apply(Apply(inside, Compose(i, keys)), Send(i, answer));
    SaveAndLeave(sent, i);
    assert sent.agents[i] == a.(own := own, place := Saving(Rotate));
    assert sent.agents[i := a.(own := own)] == w.agents[i := a.(own := own)];
  }

  /**
   After an undisturbed RSA rotation another agent that had the old key notices that it is outdated exactly if
   the new private key differs from the old one; with a repeated key it believes to be up to date, whatever the
   new token is. So its update, which succeeds either way, leaves it with the saved token if and only if the key
   is new or the server repeated the token along with the key.
   */
  lemma RotationIsNoticed(w: World, i: nat, j: nat, keys: KeyPair, answer: Answer)
    requires w.profile == Rsa && w.lock == None && i < |w.agents| && j < |w.agents| && i != j
    requires w.agents[i].place == Idle && w.agents[i].initialized && w.agents[i].own.token.Some?
    requires w.agents[j].own.keys.Some? && answer.Accepted? && w.agents[j].own.clientId == Some(answer.clientId)
    ensures
      var t := Run(w, RotationSteps(i, keys, answer));
      && |t.agents| == |w.agents| && t.agents[j] == w.agents[j]
      && t.saved.Some? && t.saved.value.token == Some(answer.token)
      && (Compared(Rsa, t.agents[j], t.saved.value, Ok).place == Leaving(Update, SecurityUpToDate)
          <==> keys.privateKey == w.agents[j].own.keys.value.privateKey)
      && UpdateSucceeded(Compared(Rsa, t.agents[j], t.saved.value, Ok).place)
      && (Compared(Rsa, t.agents[j], t.saved.value, Ok).own.token == t.saved.value.token
          <==> keys.privateKey != w.agents[j].own.keys.value.privateKey || w.agents[j].own.token == Some(answer.token))
  {
    UndisturbedRotation(w, i, keys, answer);
    hide Run, Apply;
  }
}
