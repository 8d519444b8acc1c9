/**
  The access-token gate `verifyJWT`: strip the first "Bearer " from the
  Authorization header, verify the token, and admit the user its `id` names.
  The token verifier is a parameter (None when it throws); `findById` is a
  lookup in the user collection.
*/
module JwtAuth {
  import opened Common
  import opened Strings
  import opened UserModel
  import opened AuthService

  const BEARER_PREFIX := "Bearer "

  /** The JSON body of a refusal: `{ success: false, message }`. */
  datatype Reply = Reply(success: bool, message: string)

  /** Either a 401 response is sent and `next` is not called, or `req.user` is set and `next()` is called once. */
  datatype Verdict = Refuse(status: int, reply: Reply) | Admit(user: User)

  const TOKEN_REQUIRED := Refuse(401, Reply(false, "Access token is required"))
  const INVALID_TOKEN := Refuse(401, Reply(false, "Invalid token"))

  /** `req.header("Authorization")?.replace("Bearer ", "")`: only the first occurrence is removed, wherever it is. */
  function AccessToken(header: Option<string>): (t: Option<string>)
    ensures header.None? <==> t.None?
    ensures header.Some? && !Contains(header.value, BEARER_PREFIX) ==> t == header
    ensures header.Some? && Contains(header.value, BEARER_PREFIX) ==>
              |t.value| == |header.value| - |BEARER_PREFIX|
  {
    match header
    case None => None
    case Some(h) => Some(ReplaceFirst(h, BEARER_PREFIX, ""))
  }

  /** A header of the form "Bearer <token>" yields exactly the token. */
  lemma AccessTokenOfBearer(token: string)
    ensures AccessToken(Some(BEARER_PREFIX + token)) == Some(token)
  {
    var h := BEARER_PREFIX + token;
    assert StartsWith(h, BEARER_PREFIX) by {
      assert h[..|BEARER_PREFIX|] == BEARER_PREFIX;
    }
    assert IndexOf(h, BEARER_PREFIX) == Some(0);
    ContainsAt(h, BEARER_PREFIX, 0);
    assert ReplaceFirst(h, BEARER_PREFIX, "") == h[..0] + "" + h[|BEARER_PREFIX|..];
    assert h[..0] + "" + h[|BEARER_PREFIX|..] == token;
  }

  /** `verifyJWT` applied to one request against the collection `db`. */
  function VerifyJwt(header: Option<string>, verify: string -> Option<TokenClaims>, db: Db): (v: Verdict)
    ensures v.Refuse? ==> v.status == 401 && !v.reply.success
    ensures v.Admit? ==> exists i :: 0 <= i < |db.users| && db.users[i] == v.user
  {
    var token := AccessToken(header);
    if !Truthy(token) then TOKEN_REQUIRED
    else
      match verify(token.value)
      case None => INVALID_TOKEN
      case Some(claims) =>
        match FindOne(db.users, IdIs(claims.id))
        case None => INVALID_TOKEN
        case Some(i) => Admit(db.users[i])
  }

  /** The gate admits exactly a request whose token verifies and names a stored user, and then it is that user. */
  lemma AdmitIff(header: Option<string>, verify: string -> Option<TokenClaims>, db: Db)
    ensures var v := VerifyJwt(header, verify, db);
            var token := AccessToken(header);
            v.Admit? <==>
              && Truthy(token)
              && verify(token.value).Some?
              && exists j :: 0 <= j < |db.users| && db.users[j].id == verify(token.value).value.id
    ensures var v := VerifyJwt(header, verify, db);
            v.Admit? ==> v.user.id == verify(AccessToken(header).value).value.id
  {
    var token := AccessToken(header);
    if Truthy(token) && verify(token.value).Some? {
      var id := verify(token.value).value.id;
      if exists j :: 0 <= j < |db.users| && db.users[j].id == id {
        var j :| 0 <= j < |db.users| && db.users[j].id == id;
        assert Matches(db.users[j], IdIs(id));
      }
    }
  }

  /** Which refusal is sent: "Access token is required" exactly when the token is missing or empty, "Invalid token" otherwise. */
  lemma RefusalMessages(header: Option<string>, verify: string -> Option<TokenClaims>, db: Db)
    ensures VerifyJwt(header, verify, db) == TOKEN_REQUIRED <==> !Truthy(AccessToken(header))
    ensures VerifyJwt(header, verify, db).Refuse? && Truthy(AccessToken(header)) ==>
              VerifyJwt(header, verify, db) == INVALID_TOKEN
  {
  }

  /** A bare "Bearer " header leaves an empty token and is refused as missing. */
  lemma BareSchemeRefused(verify: string -> Option<TokenClaims>, db: Db)
    ensures VerifyJwt(Some(BEARER_PREFIX), verify, db) == TOKEN_REQUIRED
  {
    AccessTokenOfBearer("");
    assert BEARER_PREFIX + "" == BEARER_PREFIX;
  }

  /** A token issued for a stored user of a valid collection admits that very user. */
  lemma IssuedTokenAdmits(db: Db, i: int, token: string, verify: string -> Option<TokenClaims>)
    requires Valid(db) && 0 <= i < |db.users|
    requires token != ""
    requires verify(token) == Some(Respond(db.users[i]).claims)
    ensures VerifyJwt(Some(BEARER_PREFIX + token), verify, db) == Admit(db.users[i])
  {
    AccessTokenOfBearer(token);
    var id := db.users[i].id;
    forall j | 0 <= j < i ensures !Matches(db.users[j], IdIs(id)) {
      if db.users[j].id == id {
        IdsUnique(db, i, j);
      }
    }
    assert IsFirstMatch(db.users, IdIs(id), i);
    FindOneIsFirstMatch(db.users, IdIs(id), i);
  }

  /** After a successful Google sign-in, a token carrying the returned claims admits the signed-in user. */
  lemma GoogleSignInTokenAdmits(db: Db, p: GooglePayload, token: string, verify: string -> Option<TokenClaims>)
    requires Valid(db)
    requires GoogleOAuthFlow(db, p).result.Ok?
    requires token != ""
    requires verify(token) == Some(GoogleOAuthFlow(db, p).result.value.claims)
    ensures var o := GoogleOAuthFlow(db, p);
            VerifyJwt(Some(BEARER_PREFIX + token), verify, o.db) == Admit(o.result.value.user)
  {
    var o := GoogleOAuthFlow(db, p);
    GoogleResultIsFirstMatch(db, p);
    var i :| IsFirstMatch(o.db.users, GoogleFilter(p), i) && o.db.users[i] == o.result.value.user;
    IssuedTokenAdmits(o.db, i, token, verify);
  }
}
