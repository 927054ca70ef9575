/** The registration file as the place where the agents of the protocol keep their shared registration. */
module Persistence {
  import opened Codes
  import opened Credentials
  import opened Storage

  function Text(b: bytes): (s: string)
    ensures |s| == |b| && forall i :: 0 <= i < |b| ==> s[i] as int == b[i] as int
  {
    seq(|b|, i requires 0 <= i < |b| => b[i] as char)
  }

  function OfSecrets(r: Secrets): Registration {
    Registration(Some(Text(r.clientId)), Some(Text(r.secret)), Some(Text(r.token)), Some(Text(r.uri)), None)
  }

  function OfKeys(r: Keys): Registration {
    Registration(Some(Text(r.clientId)), None, Some(Text(r.token)), Some(Text(r.uri)),
                 Some(KeyPair(Text(r.publicKey), Text(r.privateKey))))
  }

  /** The registration an agent gets when it loads the file. */
  function Held(profile: Profile, content: bytes): Option<Registration> {
    if profile == SharedSecret then
      var r := ReadSecrets(content);
      if r.Done? then Some(OfSecrets(r.info)) else None
    else
      var r := ReadKeys(content);
      if r.Done? then Some(OfKeys(r.info)) else None
  }

  /** What is read from the file under either profile, credential by credential; no file without one loads. */
  lemma HeldIsExact(content: bytes)
    ensures
      match ReadSecrets(content)
      case Done(r) =>
        && Held(SharedSecret, content).Some?
        && var own := Held(SharedSecret, content).value;
           && own.clientId == Some(Text(r.clientId)) && own.secret == Some(Text(r.secret))
           && own.token == Some(Text(r.token)) && own.uri == Some(Text(r.uri)) && own.keys == None
      case NotLoaded => Held(SharedSecret, content) == None
      case Stuck => Held(SharedSecret, content) == None
    ensures
      match ReadKeys(content)
      case Done(r) =>
        && Held(Rsa, content).Some?
        && var own := Held(Rsa, content).value;
           && own.clientId == Some(Text(r.clientId)) && own.secret == None
           && own.token == Some(Text(r.token)) && own.uri == Some(Text(r.uri))
           && own.keys.Some? && own.keys.value.publicKey == Text(r.publicKey)
           && own.keys.value.privateKey == Text(r.privateKey)
      case NotLoaded => Held(Rsa, content) == None
      case Stuck => Held(Rsa, content) == None
  {
    hide ReadSecrets, ReadKeys;
  }

  lemma TextJoin(a: bytes, b: bytes)
    ensures Text(a + b) == Text(a) + Text(b)
  {
  }

  lemma TextLine(a: bytes, b: bytes)
    ensures Text(a + [10] + b) == Text(a) + "\n" + Text(b)
  {
    TextJoin(a + [10], b);
    TextJoin(a, [10]);
    assert Text([10]) == "\n";
  }

  lemma LastLine(a: bytes)
    ensures Text(a + [10]) == Text(a) + "\n"
  {
    TextJoin(a, [10]);
    assert Text([10]) == "\n";
  }

  lemma SecretsTextIs(r: Secrets)
    requires SecretsFit(r)
    ensures Text(SecretsText(r))
            == Text(r.clientId) + "\n"
               + (Text(r.secret) + "\n" + (Text(r.token) + "\n" + (Text(r.uri) + "\n")))
  {
    TextsAreLiteral(r, Keys([], [], [], [], []));
    StorableIsSeen(r.clientId, SHARED_SECRET_BUFFER_SIZE);
    StorableIsSeen(r.secret, SHARED_SECRET_BUFFER_SIZE);
    StorableIsSeen(r.token, SHARED_SECRET_BUFFER_SIZE);
    StorableIsSeen(r.uri, SHARED_SECRET_BUFFER_SIZE);
    hide Text, Seen, SecretsText, KeysText, Storable;
    TextLine(r.clientId, r.secret + [10] + (r.token + [10] + (r.uri + [10])));
    TextLine(r.secret, r.token + [10] + (r.uri + [10]));
    TextLine(r.token, r.uri + [10]);
    LastLine(r.uri);
  }

  lemma KeysAreSeen(r: Keys)
    requires KeysFit(r)
    ensures Seen(r.clientId) == r.clientId && Seen(r.token) == r.token && Seen(r.uri) == r.uri
    ensures Seen(r.publicKey) == r.publicKey && Seen(r.privateKey) == r.privateKey
  {
    hide Seen, Storable, IsPem, IsLine;
    MarkersAreLines();
    StorableIsSeen(r.clientId, RSA_BUFFER_SIZE);
    StorableIsSeen(r.token, RSA_BUFFER_SIZE);
    StorableIsSeen(r.uri, RSA_BUFFER_SIZE);
    PemIsSeen(r.publicKey, PUBLIC_BEGIN, PUBLIC_END);
    PemIsSeen(r.privateKey, PRIVATE_BEGIN, PRIVATE_END);
  }

  lemma KeysTextIs(r: Keys)
    requires KeysFit(r)
    ensures Text(KeysText(r))
            == Text(r.clientId) + "\n"
               + (Text(r.publicKey) + (Text(r.privateKey) + (Text(r.token) + "\n" + (Text(r.uri) + "\n"))))
  {
    hide Text, Seen, SecretsText, KeysText, KeysFit;
    TextsAreLiteral(Secrets([], [], [], []), r);
    KeysAreSeen(r);
    TextLine(r.clientId, r.publicKey + (r.privateKey + (r.token + [10] + (r.uri + [10]))));
    TextJoin(r.publicKey, r.privateKey + (r.token + [10] + (r.uri + [10])));
    TextJoin(r.privateKey, r.token + [10] + (r.uri + [10]));
    TextLine(r.token, r.uri + [10]);
    LastLine(r.uri);
  }

  /** The file an agent's credentials are saved as, part by part. */
  lemma SavedIsExact(profile: Profile, own: Registration, text: bytes)
    requires SavedAs(profile, own, text)
    ensures own.clientId.Some? && own.token.Some? && own.uri.Some?
    ensures
      var end := own.token.value + "\n" + (own.uri.value + "\n");
      if profile == SharedSecret then
        own.secret.Some? && Text(text) == own.clientId.value + "\n" + (own.secret.value + "\n" + end)
      else
        && own.keys.Some?
        && Text(text) == own.clientId.value + "\n" + (own.keys.value.publicKey + (own.keys.value.privateKey + end))
  {
    hide Text, SecretsText, KeysText, SecretsFit, KeysFit;
    if profile == SharedSecret {
      var r :| SecretsFit(r) && text == SecretsText(r) && Stored(SharedSecret, own) == OfSecrets(r);
      SecretsTextIs(r);
    } else {
      var r :| KeysFit(r) && text == KeysText(r) && Stored(Rsa, own) == OfKeys(r);
      KeysTextIs(r);
    }
  }

  predicate SecretsFit(r: Secrets) {
    && Storable(r.clientId, SHARED_SECRET_BUFFER_SIZE) && Storable(r.secret, SHARED_SECRET_BUFFER_SIZE)
    && Storable(r.token, SHARED_SECRET_BUFFER_SIZE) && Storable(r.uri, SHARED_SECRET_BUFFER_SIZE)
  }

  ghost predicate KeysFit(r: Keys) {
    && Storable(r.clientId, RSA_BUFFER_SIZE) && Storable(r.token, RSA_BUFFER_SIZE) && Storable(r.uri, RSA_BUFFER_SIZE)
    && IsPem(r.publicKey, PUBLIC_BEGIN, PUBLIC_END) && IsPem(r.privateKey, PRIVATE_BEGIN, PRIVATE_END)
    && |r.publicKey| <= 2998 && |r.privateKey| <= 2999
  }

  /** The text an agent's credentials are saved as, if they fit the file. */
  ghost predicate SavedAs(profile: Profile, own: Registration, text: bytes) {
    if profile == SharedSecret then
      exists r :: SecretsFit(r) && text == SecretsText(r) && Stored(SharedSecret, own) == OfSecrets(r)
    else
      exists r :: KeysFit(r) && text == KeysText(r) && Stored(Rsa, own) == OfKeys(r)
  }

  lemma SavedSecretsLoad(r: Secrets)
    requires SecretsFit(r)
    ensures ReadSecrets(SecretsText(r)) == Done(r)
  {
    hide ReadSecrets, SecretsText, Storable;
    AllStorable([r.clientId, r.secret, r.token, r.uri], SHARED_SECRET_BUFFER_SIZE);
    SecretsRoundTrip(r);
  }

  lemma SavedKeysLoad(r: Keys)
    requires KeysFit(r)
    ensures ReadKeys(KeysText(r)) == Done(r)
  {
    hide ReadKeys, KeysText, Storable, IsPem;
    AllStorable([r.token, r.uri], RSA_BUFFER_SIZE);
    KeysRoundTrip(r);
  }

  /** A save that succeeded puts the agent's registration on file: the step of the protocol. */
  lemma SaveIsStep(w: World, i: nat, operation: Operation, text: bytes)
    requires i < |w.agents| && SavedAs(w.profile, w.agents[i].own, text)
    ensures AfterSave(w, i, operation, Ok, None).saved == Held(w.profile, text)
  {
    hide ReadKeys, KeysText, ReadSecrets, SecretsText, Storable, IsPem;
    if w.profile == SharedSecret {
      var r :| SecretsFit(r) && text == SecretsText(r) && Stored(SharedSecret, w.agents[i].own) == OfSecrets(r);
      SavedSecretsLoad(r);
    } else {
      var r :| KeysFit(r) && text == KeysText(r) && Stored(Rsa, w.agents[i].own) == OfKeys(r);
      SavedKeysLoad(r);
    }
  }

  lemma {:induction false} AllStorable(fields: seq<bytes>, size: nat)
    requires forall i :: 0 <= i < |fields| ==> Storable(fields[i], size)
    ensures ComesBack(fields, size)
  {
    if fields != [] {
      AllStorable(fields[1..], size);
    }
  }

  /** A save that broke off, wherever, leaves the file in order; that is what keeps tokens bound to keys. */
  lemma FailedSaveIsOrderly(w: World, i: nat, operation: Operation, code: Code, text: bytes, was: bytes, left: bytes)
    requires i < |w.agents| && w.saved == Held(w.profile, was) && code != Ok
    requires SavedAs(w.profile, w.agents[i].own, text) && LeftBehind(text, was, left)
    ensures LeftInOrder(w, w.agents[i].own, Held(w.profile, left))
    ensures
      var t := AfterSave(w, i, operation, code, Held(w.profile, left));
      t.saved == Held(w.profile, left) && t.orderly == w.orderly
  {
    hide ReadKeys, KeysText, ReadSecrets, SecretsText, Storable, IsPem;
    if left != was {
      if w.profile == SharedSecret {
        var r :| SecretsFit(r) && text == SecretsText(r) && Stored(SharedSecret, w.agents[i].own) == OfSecrets(r);
        FailedSaveKeepsSecrets(r, left);
      } else {
        var r :| KeysFit(r) && text == KeysText(r) && Stored(Rsa, w.agents[i].own) == OfKeys(r);
        FailedSaveKeepsKeys(r, left);
      }
    }
  }
}
