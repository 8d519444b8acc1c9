/**
  AuthService: email verification and the Google / Apple sign-in flows, each a
  find-or-create (or find-and-link) over the User collection. The verified token
  payloads are inputs; token signing is reduced to the claims that are signed.
*/
module AuthService {
  import opened Common
  import opened Strings
  import opened UserModel
  import EmailVerification

  /** The claims both tokens are signed over (`JWTPayload`). */
  datatype TokenClaims = TokenClaims(id: UserId, email: string)

  /** `AuthResponse`: the tokens (as their claims) and the stored user. */
  datatype AuthResponse = AuthResponse(claims: TokenClaims, user: User)

  /** What a flow throws: an ApiError, or an error raised by the storage layer. */
  datatype Fault = Api(apiError: ApiError) | Storage(dbError: DbError)

  /** The collection after a flow, and what the flow returned or threw. */
  datatype Outcome = Outcome(db: Db, result: Result<AuthResponse, Fault>)

  /** `GoogleTokenPayload`, as returned by the token verifier. */
  datatype GooglePayload = GooglePayload(
    sub: string, email: string, emailVerified: bool,
    givenName: string, familyName: string, picture: Option<string>)

  /** `AppleTokenPayload`; `email_verified` is already a boolean here. */
  datatype ApplePayload = ApplePayload(sub: string, email: Option<string>, emailVerified: Option<bool>)

  const INVALID_CODE := ApiError(400, "Invalid or expired verification code")
  const RELAY_DOMAIN := "@privaterelay.appleid.com"

  /** Tokens are issued for the stored user's id and email. */
  function Respond(u: User): (r: AuthResponse)
    ensures r.user == u && r.claims.id == u.id && r.claims.email == u.email
  {
    AuthResponse(TokenClaims(u.id, u.email), u)
  }

  function FromWrite(db: Db, w: Result<Saved, DbError>): (o: Outcome)
    ensures w.Err? ==> o == Outcome(db, Err(Storage(w.error)))
    ensures w.Ok? ==> o == Outcome(w.value.db, Ok(Respond(w.value.user)))
  {
    match w
    case Ok(s) => Outcome(s.db, Ok(Respond(s.user)))
    case Err(e) => Outcome(db, Err(Storage(e)))
  }

  /** Inserting a document whose email no user has, and with no username, always succeeds. */
  lemma InsertNewEmail(db: Db, doc: User)
    requires Valid(db) && doc.username.None? && NormEmail(doc.email) != ""
    requires forall j :: 0 <= j < |db.users| ==> db.users[j].email != NormEmail(doc.email)
    ensures Insert(db, doc).Ok?
  {
  }

  /** Rewriting a stored user without touching email, name or username always succeeds, and stores exactly that user. */
  lemma UpdateSameKeys(db: Db, i: nat, u: User)
    requires Valid(db) && i < |db.users|
    requires u.id == db.users[i].id && u.email == db.users[i].email
    requires u.name == db.users[i].name && u.username == db.users[i].username
    ensures UpdateAt(db, i, u) == Ok(Saved(Db(db.users[i := u], db.nextId), u))
  {
    var old_ := db.users[i];
    assert Normalized(u) == u by {
      assert Normalized(old_) == old_;
    }
    forall j | 0 <= j < |db.users| && j != i ensures !Clash(db.users[j], u) {
      if j < i { assert !Clash(db.users[j], old_); } else { assert !Clash(old_, db.users[j]); }
    }
  }

  // ---------------------------------------------------------------- verifyEmail

  /** The user `verifyEmail` creates for an unknown email. */
  function VerifiedNewUser(email: string): User {
    Fresh(0, email).(isEmailVerified := true)
  }

  /**
    `verifyEmail(email, code)`, given whether `verifyCode` accepted the code:
    reject, or find the user by email and mark it verified, or create it.
  */
  function VerifyEmailFlow(db: Db, codeValid: bool, email: string): (o: Outcome)
    ensures !codeValid ==> o == Outcome(db, Err(Api(INVALID_CODE)))
    ensures o.result.Err? ==> o.db == db
    ensures Valid(db) ==> Valid(o.db)
    ensures Valid(db) && codeValid && FindOne(db.users, EmailIs(email)).None? && NormEmail(email) != "" ==>
      && o.result.Ok?
      && o.db.users == db.users + [o.result.value.user]
      && o.result.value.user == User(db.nextId, NormEmail(email), None, None, None, true, false, None, None)
    ensures Valid(db) && codeValid && FindOne(db.users, EmailIs(email)).Some? ==>
      var i := FindOne(db.users, EmailIs(email)).value;
      && o.result.Ok?
      && o.db == Db(db.users[i := db.users[i].(isEmailVerified := true)], db.nextId)
      && o.result.value.user == db.users[i].(isEmailVerified := true)
  {
    if !codeValid then Outcome(db, Err(Api(INVALID_CODE)))
    else
      match FindOne(db.users, EmailIs(email))
      case None =>
        assert Valid(db) && NormEmail(email) != "" ==> Insert(db, VerifiedNewUser(email)).Ok? by {
          if Valid(db) && NormEmail(email) != "" { InsertNewEmail(db, VerifiedNewUser(email)); }
        }
        FromWrite(db, Insert(db, VerifiedNewUser(email)))
      case Some(i) =>
        var u := db.users[i];
        assert Valid(db) ==> UpdateAt(db, i, u.(isEmailVerified := true)).Ok? by {
          if Valid(db) { UpdateSameKeys(db, i, u.(isEmailVerified := true)); }
        }
        FromWrite(db, UpdateAt(db, i, u.(isEmailVerified := true)))
  }

  // ---------------------------------------------------------------- googleOAuth

  /** `$or: [{ email }, { "providers.google.id": sub }]`. */
  function GoogleFilter(p: GooglePayload): Filter {
    Or(EmailIs(p.email), GoogleIdIs(p.sub))
  }

  function GoogleLink(p: GooglePayload): ProviderLink {
    ProviderLink(p.sub, Some(p.email))
  }

  /** The user `googleOAuth` creates: unverified profile, Google linked, verification as the payload says. */
  function GoogleNewUser(p: GooglePayload): User {
    Fresh(0, p.email).(isEmailVerified := p.emailVerified, google := Some(GoogleLink(p)))
  }

  /** The `$set` of the link branch: Google overwritten, verification only ever raised. */
  function GoogleLinked(u: User, p: GooglePayload): (v: User)
    ensures v.isEmailVerified == (u.isEmailVerified || p.emailVerified)
    ensures v.google == Some(ProviderLink(p.sub, Some(p.email)))
    ensures v.(google := u.google, isEmailVerified := u.isEmailVerified) == u
  {
    u.(google := Some(GoogleLink(p)), isEmailVerified := if p.emailVerified then true else u.isEmailVerified)
  }

  /** With no user found by the payload's email or Google id, the new user can always be stored. */
  lemma GoogleCreateSucceeds(db: Db, p: GooglePayload)
    requires Valid(db) && FindOne(db.users, GoogleFilter(p)).None? && NormEmail(p.email) != ""
    ensures Insert(db, GoogleNewUser(p)).Ok?
  {
    NotFoundByEmail(db.users, p.email, GoogleIdIs(p.sub));
    InsertNewEmail(db, GoogleNewUser(p));
  }

  /** `googleOAuth(idToken)`, given the verified payload. */
  function GoogleOAuthFlow(db: Db, p: GooglePayload): (o: Outcome)
    ensures o.result.Err? ==> o.db == db
    ensures Valid(db) ==> Valid(o.db)
    ensures Valid(db) && FindOne(db.users, GoogleFilter(p)).None? && NormEmail(p.email) != "" ==>
      && o.result.Ok?
      && o.db.users == db.users + [o.result.value.user]
      && o.result.value.user == User(db.nextId, NormEmail(p.email), None, None, None, p.emailVerified, false,
                                     Some(ProviderLink(p.sub, Some(p.email))), None)
    ensures Valid(db) && FindOne(db.users, GoogleFilter(p)).Some? ==>
      var i := FindOne(db.users, GoogleFilter(p)).value;
      && o.result.Ok?
      && o.db == Db(db.users[i := GoogleLinked(db.users[i], p)], db.nextId)
      && o.result.value.user == GoogleLinked(db.users[i], p)
  {
    match FindOne(db.users, GoogleFilter(p))
    case None =>
      assert Valid(db) && NormEmail(p.email) != "" ==> Insert(db, GoogleNewUser(p)).Ok? by {
        if Valid(db) && NormEmail(p.email) != "" { GoogleCreateSucceeds(db, p); }
      }
      FromWrite(db, Insert(db, GoogleNewUser(p)))
    case Some(i) =>
      assert Valid(db) ==> UpdateAt(db, i, GoogleLinked(db.users[i], p)).Ok? by {
        if Valid(db) { UpdateSameKeys(db, i, GoogleLinked(db.users[i], p)); }
      }
      FromWrite(db, UpdateAt(db, i, GoogleLinked(db.users[i], p)))
  }

  /** After a successful Google sign-in the user it returned is the first one the same payload's filter finds. */
  lemma GoogleResultIsFirstMatch(db: Db, p: GooglePayload)
    requires Valid(db)
    requires GoogleOAuthFlow(db, p).result.Ok?
    ensures var o := GoogleOAuthFlow(db, p);
      exists i :: IsFirstMatch(o.db.users, GoogleFilter(p), i) && o.db.users[i] == o.result.value.user
  {
    var o := GoogleOAuthFlow(db, p);
    var u := o.result.value.user;
    assert Matches(u, GoogleIdIs(p.sub));
    match FindOne(db.users, GoogleFilter(p))
    case None =>
      AppendedIsFirstMatch(db.users, GoogleFilter(p), u);
    case Some(i) =>
      ReplacedIsFirstMatch(db.users, GoogleFilter(p), i, u);
  }


  /**
    Signing in with Google twice with the same payload: the second call takes the
    link branch, returns the same user, and leaves the collection as the first call left it.
  */
  lemma GoogleOAuthIdempotent(db: Db, p: GooglePayload)
    requires Valid(db)
    requires GoogleOAuthFlow(db, p).result.Ok?
    ensures var first := GoogleOAuthFlow(db, p);
            var second := GoogleOAuthFlow(first.db, p);
            && second.result.Ok?
            && second.result.value.user == first.result.value.user
            && second.db == first.db
  {
    var first := GoogleOAuthFlow(db, p);
    GoogleResultIsFirstMatch(db, p);
    var i :| IsFirstMatch(first.db.users, GoogleFilter(p), i) && first.db.users[i] == first.result.value.user;
    GoogleResultLinked(db, p);
    GoogleRelinkUnchanged(first.db, p, i);
  }

  /** Signing in again as a user who is already linked and verified as the payload says leaves everything as it is. */
  lemma GoogleRelinkUnchanged(db: Db, p: GooglePayload, i: nat)
    requires Valid(db) && IsFirstMatch(db.users, GoogleFilter(p), i)
    requires db.users[i].google == Some(GoogleLink(p)) && (p.emailVerified ==> db.users[i].isEmailVerified)
    ensures var o := GoogleOAuthFlow(db, p);
            o.result.Ok? && o.result.value.user == db.users[i] && o.db == db
  {
    FindOneIsFirstMatch(db.users, GoogleFilter(p), i);
    GoogleLinkedFixed(db.users[i], p);
    assert db.users[i := db.users[i]] == db.users;
  }

  /** The user a successful Google sign-in returns is linked to the payload, and verified when the payload is. */
  lemma GoogleResultLinked(db: Db, p: GooglePayload)
    requires Valid(db)
    requires GoogleOAuthFlow(db, p).result.Ok?
    ensures var u := GoogleOAuthFlow(db, p).result.value.user;
            u.google == Some(GoogleLink(p)) && (p.emailVerified ==> u.isEmailVerified)
  {
  }

  /** Linking an already linked user changes nothing. */
  lemma GoogleLinkedFixed(u: User, p: GooglePayload)
    requires u.google == Some(GoogleLink(p)) && (p.emailVerified ==> u.isEmailVerified)
    ensures GoogleLinked(u, p) == u
  {
  }

  // ---------------------------------------------------------------- appleOAuth

  /** `{ email: payload.email }`: with no email in the payload the clause finds nobody. */
  function AppleFilter(p: ApplePayload): Filter {
    Or(if p.email.Some? then EmailIs(p.email.value) else MatchesNothing, AppleIdIs(p.sub))
  }

  /** `payload.email || \`${payload.sub}@privaterelay.appleid.com\``. */
  function AppleNewEmail(p: ApplePayload): (e: string)
    ensures Truthy(p.email) ==> e == p.email.value
    ensures !Truthy(p.email) ==> e == p.sub + "@privaterelay.appleid.com"
  {
    if Truthy(p.email) then p.email.value else p.sub + RELAY_DOMAIN
  }

  /** The user `appleOAuth` creates; the provider email is `payload.email || ""`. */
  function AppleNewUser(p: ApplePayload): User {
    Fresh(0, AppleNewEmail(p)).(
      isEmailVerified := p.emailVerified.GetOr(false),
      apple := Some(ProviderLink(p.sub, Some(if Truthy(p.email) then p.email.value else ""))))
  }

  /** The `$set` of the link branch: Apple overwritten with the raw payload email, verification only raised. */
  function AppleLinked(u: User, p: ApplePayload): (v: User)
    ensures v.isEmailVerified == (u.isEmailVerified || p.emailVerified == Some(true))
    ensures v.apple == Some(ProviderLink(p.sub, p.email))
    ensures v.(apple := u.apple, isEmailVerified := u.isEmailVerified) == u
  {
    u.(apple := Some(ProviderLink(p.sub, p.email)),
       isEmailVerified := if p.emailVerified == Some(true) then true else u.isEmailVerified)
  }

  /** With no user found by the payload's (non-empty) email or Apple id, the new user can always be stored. */
  lemma AppleCreateSucceeds(db: Db, p: ApplePayload)
    requires Valid(db) && FindOne(db.users, AppleFilter(p)).None?
    requires Truthy(p.email) && NormEmail(p.email.value) != ""
    ensures Insert(db, AppleNewUser(p)).Ok?
  {
    NotFoundByEmail(db.users, p.email.value, AppleIdIs(p.sub));
    InsertNewEmail(db, AppleNewUser(p));
  }

  /** `appleOAuth(idToken, userInfo)`, given the verified payload; `userInfo` is never used. */
  function AppleOAuthFlow(db: Db, p: ApplePayload): (o: Outcome)
    ensures o.result.Err? ==> o.db == db
    ensures Valid(db) ==> Valid(o.db)
    ensures FindOne(db.users, AppleFilter(p)).None? && o.result.Ok? ==>
      && o.db.users == db.users + [o.result.value.user]
      && o.result.value.user == User(db.nextId, NormEmail(AppleNewEmail(p)), None, None, None,
                                     p.emailVerified.GetOr(false), false, None,
                                     Some(ProviderLink(p.sub, Some(if Truthy(p.email) then p.email.value else ""))))
    ensures Valid(db) && FindOne(db.users, AppleFilter(p)).None? && Truthy(p.email) && NormEmail(p.email.value) != "" ==>
      o.result.Ok?
    ensures Valid(db) && FindOne(db.users, AppleFilter(p)).Some? ==>
      var i := FindOne(db.users, AppleFilter(p)).value;
      && o.result.Ok?
      && o.db == Db(db.users[i := AppleLinked(db.users[i], p)], db.nextId)
      && o.result.value.user == AppleLinked(db.users[i], p)
  {
    match FindOne(db.users, AppleFilter(p))
    case None =>
      assert Valid(db) && Truthy(p.email) && NormEmail(p.email.value) != "" ==> Insert(db, AppleNewUser(p)).Ok? by {
        if Valid(db) && Truthy(p.email) && NormEmail(p.email.value) != "" { AppleCreateSucceeds(db, p); }
      }
      FromWrite(db, Insert(db, AppleNewUser(p)))
    case Some(i) =>
      assert Valid(db) ==> UpdateAt(db, i, AppleLinked(db.users[i], p)).Ok? by {
        if Valid(db) { UpdateSameKeys(db, i, AppleLinked(db.users[i], p)); }
      }
      FromWrite(db, UpdateAt(db, i, AppleLinked(db.users[i], p)))
  }

  /** After a successful Apple sign-in the user it returned is the first one the same payload's filter finds. */
  lemma AppleResultIsFirstMatch(db: Db, p: ApplePayload)
    requires Valid(db)
    requires AppleOAuthFlow(db, p).result.Ok?
    ensures var o := AppleOAuthFlow(db, p);
      exists i :: IsFirstMatch(o.db.users, AppleFilter(p), i) && o.db.users[i] == o.result.value.user
  {
    var o := AppleOAuthFlow(db, p);
    var u := o.result.value.user;
    assert Matches(u, AppleIdIs(p.sub));
    match FindOne(db.users, AppleFilter(p))
    case None =>
      AppendedIsFirstMatch(db.users, AppleFilter(p), u);
    case Some(i) =>
      ReplacedIsFirstMatch(db.users, AppleFilter(p), i, u);
  }


  /**
    Signing in with Apple twice with the same payload creates no second user: the
    second call takes the link branch on the same user. (The stored provider email
    of a user created without an email goes from "" to unset on that second call.)
  */
  lemma AppleOAuthRepeatLinksSameUser(db: Db, p: ApplePayload)
    requires Valid(db)
    requires AppleOAuthFlow(db, p).result.Ok?
    ensures var first := AppleOAuthFlow(db, p);
            var second := AppleOAuthFlow(first.db, p);
            && second.result.Ok?
            && second.result.value.user.id == first.result.value.user.id
            && |second.db.users| == |first.db.users|
            && second.db.users[..] == first.db.users[..]
               [FindOne(first.db.users, AppleFilter(p)).value := second.result.value.user]
  {
    var first := AppleOAuthFlow(db, p);
    AppleResultIsFirstMatch(db, p);
    var i :| IsFirstMatch(first.db.users, AppleFilter(p), i) && first.db.users[i] == first.result.value.user;
    FindOneIsFirstMatch(first.db.users, AppleFilter(p), i);
  }

  // ---------------------------------------------------------------- the service, on the live collections

  /** `sendVerificationEmail(email)`: generate a code from the random choice `r` and store it; the mail itself is not modelled. */
  method SendVerificationEmail(codes: EmailVerification.VerificationStore, email: string, r: nat, now: int)
    returns (code: string)
    requires r < EmailVerification.CODE_RANGE && codes.Valid()
    modifies codes
    ensures codes.Valid()
    ensures code == EmailVerification.CodeFromChoice(r) && |code| == 6
    ensures codes.records == EmailVerification.Stored(old(codes.records), email, code, now)
  {
    code := EmailVerification.CodeFromChoice(r);
    codes.StoreVerificationCode(email, code, now);
  }

  /** `verifyEmail(email, code)` at time `now`: consume the code, then find or create the user. */
  method VerifyEmail(codes: EmailVerification.VerificationStore, users: UserCollection, email: string, code: string, now: int)
    returns (r: Result<AuthResponse, Fault>)
    requires codes.Valid() && users.Inv()
    modifies codes, users
    ensures codes.Valid() && users.Inv()
    ensures codes.records == EmailVerification.Consumed(old(codes.records), email, code, now)
    ensures var o := VerifyEmailFlow(old(users.db), EmailVerification.Accepts(old(codes.records), email, code, now), email);
            users.db == o.db && r == o.result
  {
    var isValid := codes.VerifyCode(email, code, now);
    if !isValid {
      return Err(Api(INVALID_CODE));
    }
    var found := FindOne(users.db.users, EmailIs(email));
    match found {
      case None =>
        var saved := users.Save(VerifiedNewUser(email));
        r := if saved.Ok? then Ok(Respond(saved.value)) else Err(Storage(saved.error));
      case Some(i) =>
        var user := users.db.users[i];
        var saved := users.Update(i, user.(isEmailVerified := true));
        r := if saved.Ok? then Ok(Respond(saved.value)) else Err(Storage(saved.error));
    }
  }

  /** `googleOAuth(idToken)`, given the payload the verifier returned for it. */
  method GoogleOAuth(users: UserCollection, payload: GooglePayload) returns (r: Result<AuthResponse, Fault>)
    requires users.Inv()
    modifies users
    ensures users.Inv()
    ensures users.db == GoogleOAuthFlow(old(users.db), payload).db
    ensures r == GoogleOAuthFlow(old(users.db), payload).result
  {
    var found := FindOne(users.db.users, GoogleFilter(payload));
    match found {
      case None =>
        var saved := users.Save(GoogleNewUser(payload));
        r := if saved.Ok? then Ok(Respond(saved.value)) else Err(Storage(saved.error));
      case Some(i) =>
        var saved := users.Update(i, GoogleLinked(users.db.users[i], payload));
        r := if saved.Ok? then Ok(Respond(saved.value)) else Err(Storage(saved.error));
    }
  }

  /** `appleOAuth(idToken, userInfo)`, given the payload the verifier returned; `userInfo` is accepted and ignored. */
  method AppleOAuth(users: UserCollection, payload: ApplePayload, userInfo: Option<(string, string)>)
    returns (r: Result<AuthResponse, Fault>)
    requires users.Inv()
    modifies users
    ensures users.Inv()
    ensures users.db == AppleOAuthFlow(old(users.db), payload).db
    ensures r == AppleOAuthFlow(old(users.db), payload).result
  {
    var found := FindOne(users.db.users, AppleFilter(payload));
    match found {
      case None =>
        var saved := users.Save(AppleNewUser(payload));
        r := if saved.Ok? then Ok(Respond(saved.value)) else Err(Storage(saved.error));
      case Some(i) =>
        var saved := users.Update(i, AppleLinked(users.db.users[i], payload));
        r := if saved.Ok? then Ok(Respond(saved.value)) else Err(Storage(saved.error));
    }
  }
}
