/** The `protect` middleware: the bearer token is the second space-separated
    piece of the `Authorization` header, the token verifier is an abstract
    partial function from tokens to user identifiers, and the user lookup is
    a table of stored users from which the password is dropped. */
module AuthGate {
  import opened Wrappers
  import opened Strings
  import opened Documents
  import opened UserSchema
  import opened ItemQueries

  const NoTokenMessage := "Not authorized, no token"
  const TokenFailedMessage := "Not authorized, token failed"

  /** The three outcomes of the gate. `Authenticated` carries what
      `req.user` becomes, which is `null` when no user has the decoded
      identifier. */
  datatype Decision = NoToken | TokenFailed | Authenticated(user: Option<PublicUser>)

  /** `jwt.verify(token, secret)` for a given secret: the identifier a
      token decodes to, or `None` when the signature is bad or the token has
      expired. */
  type Verifier = string -> Option<ObjectId>

  /** The header passes the prefix test. */
  predicate BearerHeader(header: Option<string>) {
    Truthy(header) && StartsWith(header.value, "Bearer")
  }

  /** `header.split(' ')[1]`, `undefined` when there is no second piece. */
  function TokenOf(header: string): (t: Option<string>)
    ensures t.Some? <==> ' ' in header
  {
    SplitPiecesIff(header, ' ');
    var pieces := Split(header, ' ');
    if |pieces| >= 2 then Some(pieces[1]) else None
  }

  /** `jwt.verify`: a missing or empty token is refused before the
      signature is looked at. */
  function Verify(verify: Verifier, token: Option<string>): (id: Option<ObjectId>)
    ensures id.Some? ==> Truthy(token) && verify(token.value) == id
    ensures !Truthy(token) ==> id.None?
  {
    if Truthy(token) then verify(token.value) else None
  }

  /** `User.findById(id).select('-password')`. */
  function Lookup(users: map<ObjectId, UserRecord>, id: ObjectId): (u: Option<PublicUser>)
    ensures u.Some? <==> id in users
    ensures u.Some? ==> u.value == WithoutPassword(users[id]) && u.value.name == users[id].name
  {
    if id in users then Some(WithoutPassword(users[id])) else None
  }

  /** What the gate decides for a request. */
  function Decide(header: Option<string>, verify: Verifier, users: map<ObjectId, UserRecord>): (d: Decision)
    ensures d == NoToken <==> !BearerHeader(header)
    ensures d.Authenticated? <==>
      BearerHeader(header) && Truthy(TokenOf(header.value)) && verify(TokenOf(header.value).value).Some?
    ensures d.Authenticated? ==> d.user == Lookup(users, verify(TokenOf(header.value).value).value)
  {
    if !BearerHeader(header) then NoToken
    else
      var id := Verify(verify, TokenOf(header.value));
      if id.None? then TokenFailed else Authenticated(Lookup(users, id.value))
  }

  /** A header without the prefix, or no header, gets no further. */
  lemma WithoutBearerNoToken(header: Option<string>, verify: Verifier, users: map<ObjectId, UserRecord>)
    requires header.None? || !StartsWith(header.value, "Bearer")
    ensures Decide(header, verify, users) == NoToken
  {
  }

  /** `"Bearer " + t`, for a token without spaces that verifies, lets the
      request through with the user stored under the decoded identifier. */
  lemma BearerTokenAuthenticates(t: string, verify: Verifier, users: map<ObjectId, UserRecord>)
    requires ' ' !in t && verify(t).Some?
    requires t != ""
    ensures Decide(Some("Bearer " + t), verify, users) == Authenticated(Lookup(users, verify(t).value))
  {
    var h := "Bearer " + t;
    assert h == "Bearer" + [' '] + t;
    SplitAfter("Bearer", ' ', t);
    SplitNoSep(t, ' ');
    assert h[..6] == "Bearer";
  }

  /** Whatever follows the token after a further space is ignored. */
  lemma LaterPiecesIgnored(t: string, rest: string, verify: Verifier, users: map<ObjectId, UserRecord>)
    requires ' ' !in t
    ensures Decide(Some("Bearer " + t + " " + rest), verify, users) == Decide(Some("Bearer " + t), verify, users)
  {
    var h := "Bearer " + t + " " + rest;
    assert h == "Bearer" + [' '] + (t + [' '] + rest);
    SplitAfter("Bearer", ' ', t + [' '] + rest);
    SplitAfter(t, ' ', rest);
    assert h[..6] == "Bearer";
    var g := "Bearer " + t;
    assert g == "Bearer" + [' '] + t;
    SplitAfter("Bearer", ' ', t);
    SplitNoSep(t, ' ');
    assert g[..6] == "Bearer";
  }

  /** `"Bearer"` alone, `"BearerX"` and any other header with the prefix and
      no space have no second piece: the token is `undefined` and fails. */
  lemma PrefixWithoutSpaceFails(header: string, verify: Verifier, users: map<ObjectId, UserRecord>)
    requires StartsWith(header, "Bearer") && ' ' !in header
    ensures Decide(Some(header), verify, users) == TokenFailed
  {
  }

  lemma BareBearerFails(verify: Verifier, users: map<ObjectId, UserRecord>)
    ensures Decide(Some("Bearer"), verify, users) == TokenFailed
    ensures Decide(Some("BearerX"), verify, users) == TokenFailed
  {
    PrefixWithoutSpaceFails("Bearer", verify, users);
    assert "BearerX"[..6] == "Bearer";
    PrefixWithoutSpaceFails("BearerX", verify, users);
  }

  /** `"Bearer "` followed by a second space gives the empty token, which
      fails whatever the verifier would say. */
  lemma EmptyTokenFails(rest: string, verify: Verifier, users: map<ObjectId, UserRecord>)
    ensures Decide(Some("Bearer  " + rest), verify, users) == TokenFailed
  {
    var h := "Bearer  " + rest;
    assert h == "Bearer" + [' '] + ("" + [' '] + rest);
    SplitAfter("Bearer", ' ', "" + [' '] + rest);
    SplitAfter("", ' ', rest);
    assert h[..6] == "Bearer";
  }

  /** A verified token whose identifier has no user still passes, with
      `req.user` set to `null`. */
  lemma MissingUserStillPasses(header: Option<string>, verify: Verifier, users: map<ObjectId, UserRecord>)
    requires BearerHeader(header)
    requires Verify(verify, TokenOf(header.value)).Some?
    requires Verify(verify, TokenOf(header.value)).value !in users
    ensures Decide(header, verify, users) == Authenticated(None)
  {
  }

  /** One request and its response as the middleware sees them: the
      `req.user` field, how often `next` was called, and the responses
      written. */
  class Exchange {
    var user: Option<PublicUser>
    var nextCalls: nat
    var responses: seq<Reply>

    constructor ()
      ensures user.None? && nextCalls == 0 && responses == []
    {
      user := None;
      nextCalls := 0;
      responses := [];
    }

    /** `protect(req, res, next)`. */
    method Protect(header: Option<string>, verify: Verifier, users: map<ObjectId, UserRecord>)
      modifies this
      ensures var d := Decide(header, verify, users);
        match d
        case NoToken =>
          && responses == old(responses) + [Reply(401, Message(NoTokenMessage))]
          && nextCalls == old(nextCalls) && user == old(user)
        case TokenFailed =>
          && responses == old(responses) + [Reply(401, Message(TokenFailedMessage))]
          && nextCalls == old(nextCalls) && user == old(user)
        case Authenticated(u) =>
          && responses == old(responses) && nextCalls == old(nextCalls) + 1 && user == u
      ensures (nextCalls - old(nextCalls)) + (|responses| - |old(responses)|) == 1
      ensures |responses| >= |old(responses)| && nextCalls >= old(nextCalls)
    {
      var token: Option<string> := None;
      if Truthy(header) && StartsWith(header.value, "Bearer") {
        token := TokenOf(header.value);
        var decoded := Verify(verify, token);
        if decoded.None? {
          responses := responses + [Reply(401, Message(TokenFailedMessage))];
          return;
        }
        user := Lookup(users, decoded.value);
        nextCalls := nextCalls + 1;
      }
      if !Truthy(token) {
        responses := responses + [Reply(401, Message(NoTokenMessage))];
        return;
      }
    }
  }
}
