/** Login, the settings update, and the request gate, over one stored settings document. Each handler
    is one atomic step. */
module Auth {
  import opened Collections
  import opened Settings
  import Session

  const SESSION_TTL: int := 7 * 24 * 3600 * Session.SECOND

  /** Outcomes of the calls a handler makes: may the store be read and written, does the password
      verify, and the fresh values the generators return (`None`: they failed). */
  datatype LoginEnv = LoginEnv(now: int, readable: bool, writable: bool, verified: bool, generated: Option<string>)

  datatype LoginReply = Session(token: string) | NotEnabled | Unauthorized | LoginError

  /** A settings update; `None` stands for a missing list. */
  datatype Update = Update(
    enabled: bool, username: Bytes, password: string, notifications: Option<seq<Channel>>, disabledResolvers: Option<seq<string>>)

  datatype UpdateEnv = UpdateEnv(readable: bool, writable: bool, hashed: Option<string>, newIDs: seq<string>)

  datatype UpdateReply = Updated(doc: Document) | Rejected | UpdateError

  /** Tokens and hashes are never empty; there is a fresh ID for every channel. */
  predicate SoundLogin(env: LoginEnv) {
    (env.generated.Some? ==> env.generated.value != "") && Session.IsInt64(Session.Expiry(env.now, SESSION_TTL))
  }

  predicate SoundUpdate(req: Update, env: UpdateEnv) {
    && (env.hashed.Some? ==> env.hashed.value != "")
    && |env.newIDs| == (if req.notifications.Some? then |req.notifications.value| else 0)
    && forall id | id in env.newIDs :: id != ""
  }

  /** Enabled authentication always has a username and a password. */
  predicate Guarded(doc: Document) {
    doc.auth.enabled ==> doc.auth.username != "" && doc.auth.passwordHash != ""
  }

  /** The channels with the missing IDs filled in: all have one, and nothing else changes. */
  function WithIDs(channels: seq<Channel>, newIDs: seq<string>): (r: seq<Channel>)
    requires |newIDs| == |channels|
    ensures |r| == |channels|
    ensures (forall id | id in newIDs :: id != "") ==> forall c | c in r :: c.id != ""
    ensures forall i | 0 <= i < |r| :: r[i].enabled == channels[i].enabled && (channels[i].id != "" ==> r[i] == channels[i])
  {
    assert forall i | 0 <= i < |newIDs| :: newIDs[i] in newIDs;
    seq(|channels|, i requires 0 <= i < |channels| =>
      if channels[i].id == "" then channels[i].(id := newIDs[i]) else channels[i])
  }

  /** The channels are the requested ones, in order, but for the IDs of those that had none. */
  predicate TakesChannels(channels: seq<Channel>, requested: seq<Channel>) {
    && |channels| == |requested|
    && forall i | 0 <= i < |channels| ::
         && channels[i].id != "" && channels[i].enabled == requested[i].enabled
         && (requested[i].id != "" ==> channels[i].id == requested[i].id)
  }

  /** Gives every channel without an ID a fresh one. */
  method FillIDs(given: seq<Channel>, newIDs: seq<string>) returns (channels: seq<Channel>)
    requires |newIDs| == |given|
    ensures channels == WithIDs(given, newIDs)
  {
    channels := given;
    for i := 0 to |channels|
      invariant |channels| == |given|
      invariant forall k | 0 <= k < i :: channels[k] == WithIDs(given, newIDs)[k]
      invariant forall k | i <= k < |given| :: channels[k] == given[k]
    {
      if channels[i].id == "" {
        channels := channels[i := channels[i].(id := newIDs[i])];
      }
    }
  }

  // --- What the handlers do to the document --------------------------------------------------

  datatype Step = LoginStep(username: string, env: LoginEnv) | UpdateStep(req: Update, update: UpdateEnv)

  predicate Sound(step: Step) {
    match step
    case LoginStep(_, env) => SoundLogin(env)
    case UpdateStep(req, env) => SoundUpdate(req, env)
  }

  /** The login succeeds up to the point where a signing secret is needed. */
  predicate Admitted(doc: Document, username: string, env: LoginEnv) {
    env.readable && doc.auth.enabled && username == doc.auth.username && env.verified
  }

  predicate Accepted(doc: Document, req: Update, env: UpdateEnv) {
    && env.readable && env.writable
    && (req.password != "" ==> env.hashed.Some?)
    && (req.enabled ==> req.username != "" && (req.password != "" || doc.auth.passwordHash != ""))
  }

  /** The document after a step. */
  function After(doc: Document, step: Step): Document
    requires Sound(step)
  {
    match step
    case LoginStep(username, env) =>
      if Admitted(doc, username, env) && doc.sessionSecret == "" && env.generated.Some? && env.writable
      then doc.(sessionSecret := env.generated.value)
      else doc
    case UpdateStep(req, env) =>
      if Accepted(doc, req, env) then
        Document(
          Auth(req.enabled, req.username, if req.password != "" then env.hashed.value else doc.auth.passwordHash),
          if req.notifications.Some? then WithIDs(req.notifications.value, env.newIDs) else [],
          if req.disabledResolvers.Some? then req.disabledResolvers.value else [],
          doc.sessionSecret)
      else doc
  }

  // --- The handlers --------------------------------------------------------------------------

  class Api {
    /** The stored document; reading it yields a copy. */
    var doc: Document
    const mac: (string, string) -> string

    constructor (doc: Document, mac: (string, string) -> string)
      ensures this.doc == doc && this.mac == mac
    {
      this.doc, this.mac := doc, mac;
    }

    method Login(username: string, env: LoginEnv) returns (reply: LoginReply)
      requires SoundLogin(env)
      modifies this
      ensures doc == After(old(doc), LoginStep(username, env))
      ensures reply.Session? <==> Admitted(old(doc), username, env) && doc.sessionSecret != ""
      ensures reply.Session? ==>
                reply.token == Session.Sign(mac, doc.sessionSecret, doc.auth.username, SESSION_TTL, env.now)
      ensures reply.NotEnabled? <==> env.readable && !old(doc).auth.enabled
      ensures reply.LoginError? <==> !env.readable || (Admitted(old(doc), username, env) && doc.sessionSecret == "")
      ensures reply.Session? <==>
                && env.readable && old(doc).auth.enabled && username == old(doc).auth.username && env.verified
                && (old(doc).sessionSecret != "" || (env.generated.Some? && env.writable))
      ensures reply.Unauthorized? <==> env.readable && old(doc).auth.enabled && !(username == old(doc).auth.username && env.verified)
      ensures doc.auth == old(doc).auth && doc.notifications == old(doc).notifications
              && doc.disabledResolvers == old(doc).disabledResolvers
      ensures doc.sessionSecret == if reply.Session? && old(doc).sessionSecret == "" then env.generated.value else old(doc).sessionSecret
    {
      if !env.readable {
        return LoginError;
      }
      var s := doc;
      if !s.auth.enabled {
        return NotEnabled;
      }
      if username != s.auth.username || !env.verified {
        return Unauthorized;
      }
      if s.sessionSecret == "" {
        if env.generated == None {
          return LoginError;
        }
        s := s.(sessionSecret := env.generated.value);
        if !env.writable {
          return LoginError;
        }
        doc := s;
      }
      reply := LoginReply.Session(Session.Sign(mac, s.sessionSecret, s.auth.username, SESSION_TTL, env.now));
    }

    method UpdateSettings(req: Update, env: UpdateEnv) returns (reply: UpdateReply)
      requires SoundUpdate(req, env)
      modifies this
      ensures doc == After(old(doc), UpdateStep(req, env))
      ensures reply.Updated? <==> Accepted(old(doc), req, env)
      ensures reply.Updated? ==> reply.doc == doc && forall c | c in doc.notifications :: c.id != ""
      ensures !reply.Updated? ==> doc == old(doc)
      ensures reply.Rejected? ==> req.enabled && (req.username == "" || (req.password == "" && old(doc).auth.passwordHash == ""))
      ensures reply.UpdateError? ==> !env.readable || !env.writable || (req.password != "" && env.hashed == None)
      ensures reply.Updated? ==>
                && (req.enabled ==> req.username != "" && (req.password != "" || old(doc).auth.passwordHash != ""))
                && doc.auth.enabled == req.enabled && doc.auth.username == req.username
                && (req.password != "" ==> Some(doc.auth.passwordHash) == env.hashed)
                && (req.password == "" ==> doc.auth.passwordHash == old(doc).auth.passwordHash)
                && doc.sessionSecret == old(doc).sessionSecret
      ensures reply.Updated? ==> doc.disabledResolvers == if req.disabledResolvers == None then [] else req.disabledResolvers.value
      ensures reply.Updated? ==> TakesChannels(doc.notifications, if req.notifications == None then [] else req.notifications.value)
    {
      if !env.readable {
        return UpdateError;
      }
      var current := doc;
      current := current.(auth := current.auth.(enabled := req.enabled, username := req.username));
      if req.password != "" {
        if env.hashed == None {
          return UpdateError;
        }
        current := current.(auth := current.auth.(passwordHash := env.hashed.value));
      }
      if current.auth.enabled && (current.auth.username == "" || current.auth.passwordHash == "") {
        return Rejected;
      }
      var channels := FillIDs(if req.notifications.Some? then req.notifications.value else [], env.newIDs);
      current := current.(notifications := channels);
      current := current.(disabledResolvers := if req.disabledResolvers.Some? then req.disabledResolvers.value else []);
      if !env.writable {
        return UpdateError;
      }
      doc := current;
      reply := Updated(current);
    }

    /** The gate in front of every protected request: pass or deny. */
    method RequireAuth(readable: bool, cookie: Option<string>, now: int) returns (pass: bool)
      ensures pass == Passes(mac, if readable then Some(doc) else None, cookie, now)
      ensures !readable ==> !pass
      ensures readable && !doc.auth.enabled ==> pass
      ensures readable && doc.auth.enabled ==>
                (pass <==> cookie.Some? && exists enc, digits ::
                             Session.Carries(mac, doc.sessionSecret, cookie.value, now, doc.auth.username, enc, digits))
    {
      if cookie.Some? { Session.ParsesIff(mac, doc.sessionSecret, cookie.value, now, doc.auth.username); }
      hide Session.Parse, Session.Carries;
      if !readable {
        return false;
      }
      if !doc.auth.enabled {
        return true;
      }
      if cookie == None {
        return false;
      }
      var name := Session.Parse(mac, doc.sessionSecret, cookie.value, now);
      return name.Some? && name.value == doc.auth.username;
    }
  }

  /** The gate lets a request through when authentication is off, or the cookie carries the username. */
  predicate Passes(mac: (string, string) -> string, doc: Option<Document>, cookie: Option<string>, now: int) {
    && doc.Some?
    && (doc.value.auth.enabled ==>
          cookie.Some? && Session.Parse(mac, doc.value.sessionSecret, cookie.value, now) == Some(doc.value.auth.username))
  }

  // --- Whole runs ----------------------------------------------------------------------------

  ghost predicate IsRun(docs: seq<Document>, steps: seq<Step>) {
    && |docs| == |steps| + 1
    && forall k | 0 <= k < |steps| :: Sound(steps[k]) && docs[k + 1] == After(docs[k], steps[k])
  }

  /** From a fresh installation, or from any guarded document, every document of a run is guarded. */
  lemma {:induction false} AlwaysGuarded(docs: seq<Document>, steps: seq<Step>, k: nat)
    requires IsRun(docs, steps) && k < |docs|
    requires docs[0] == DEFAULT || Guarded(docs[0])
    ensures Guarded(docs[k])
  {
    if k > 0 { AlwaysGuarded(docs, steps, k - 1); }
  }

  /** Once set, the signing secret never changes. */
  lemma {:induction false} SecretIsStable(docs: seq<Document>, steps: seq<Step>, j: nat, k: nat)
    requires IsRun(docs, steps) && j <= k < |docs| && docs[j].sessionSecret != ""
    ensures docs[k].sessionSecret == docs[j].sessionSecret
  {
    if j < k { SecretIsStable(docs, steps, j, k - 1); }
  }

  /** What the login of step `j` replies. */
  predicate Issues(mac: (string, string) -> string, docs: seq<Document>, steps: seq<Step>, j: nat, token: string) {
    && j < |steps| && j + 1 < |docs| && steps[j].LoginStep?
    && Admitted(docs[j], steps[j].username, steps[j].env)
    && docs[j + 1].sessionSecret != ""
    && token == Session.Sign(mac, docs[j + 1].sessionSecret, docs[j + 1].auth.username, SESSION_TTL, steps[j].env.now)
  }

  /** A token issued by any login is accepted after any further logins and settings changes, exactly
      until its expiry second, as long as the stored username is the one it was issued for, and if
      that username has no '|'. A username with a '|' can log in but is never let through. */
  lemma IssuedTokenPasses(
    mac: (string, string) -> string, docs: seq<Document>, steps: seq<Step>, j: nat, token: string, k: nat, now: int)
    requires IsRun(docs, steps) && Issues(mac, docs, steps, j, token) && j < k < |docs|
    requires docs[k].auth.enabled && docs[k].auth.username == docs[j].auth.username
    ensures Passes(mac, Some(docs[k]), Some(token), now) <==>
            && '|' !in docs[k].auth.username
            && Session.Unix(now) < Session.Expiry(steps[j].env.now, SESSION_TTL)
    ensures '|' !in docs[k].auth.username && now <= steps[j].env.now + (7 * 24 * 3600 - 1) * 1_000_000_000 ==>
              Passes(mac, Some(docs[k]), Some(token), now)
    ensures now >= steps[j].env.now + 7 * 24 * 3600 * 1_000_000_000 ==> !Passes(mac, Some(docs[k]), Some(token), now)
  {
    Session.LifetimeIsTTL(steps[j].env.now, SESSION_TTL, now);
    SecretIsStable(docs, steps, j + 1, k);
    assert Sound(steps[j]) && docs[j + 1] == After(docs[j], steps[j]);
    Session.RoundTrip(mac, docs[k].sessionSecret, docs[k].auth.username, SESSION_TTL, steps[j].env.now, now);
    hide Session.Sign, Session.Parse;
  }

  /** A session is only ever issued to somebody who gave the stored username and a password that the
      stored hash verifies, while authentication was on; and its token carries the secret's hash. */
  lemma SessionsNeedCredentials(mac: (string, string) -> string, docs: seq<Document>, steps: seq<Step>, j: nat, token: string)
    requires IsRun(docs, steps) && Issues(mac, docs, steps, j, token)
    ensures docs[j].auth.enabled && steps[j].username == docs[j].auth.username && steps[j].env.verified
    ensures exists enc :: '.' !in enc && token == enc + "." + mac(docs[j + 1].sessionSecret, enc)
  {
    assert Sound(steps[j]) && docs[j + 1] == After(docs[j], steps[j]);
    var enc := Session.Encode(Session.Payload(docs[j + 1].auth.username, Session.Expiry(steps[j].env.now, SESSION_TTL)));
    Session.EncodeAlphabet(Session.Payload(docs[j + 1].auth.username, Session.Expiry(steps[j].env.now, SESSION_TTL)));
    hide Session.Encode;
  }

  /** Renaming the user ends the sessions of the old name. */
  lemma RenamingEndsSessions(
    mac: (string, string) -> string, docs: seq<Document>, steps: seq<Step>, j: nat, token: string, k: nat, now: int)
    requires IsRun(docs, steps) && Issues(mac, docs, steps, j, token) && j < k < |docs|
    requires docs[k].auth.enabled && docs[k].auth.username != docs[j].auth.username
    ensures !Passes(mac, Some(docs[k]), Some(token), now)
  {
    SecretIsStable(docs, steps, j + 1, k);
    assert Sound(steps[j]) && docs[j + 1] == After(docs[j], steps[j]);
    Session.RoundTrip(mac, docs[k].sessionSecret, docs[j].auth.username, SESSION_TTL, steps[j].env.now, now);
    hide Session.Sign, Session.Parse;
  }
}
