/**
  The Firebase authentication gate `firebaseAuth(allowUserType)`: extract the
  bearer token, verify it, look the account up, and either admit a known
  account, admit an unknown one on a registration path, or fail with 401.
  The token verifier and the account lookup are parameters.
*/
module FirebaseAuth {
  import opened Common
  import opened Strings
  import opened Constants

  const EXPIRED_CODE := "auth/id-token-expired"
  const SESSION_EXPIRED := ApiError(401, "Session is expired")
  const FAILED_TO_AUTHENTICATE := ApiError(401, "Failed to authenticate")

  /** The errors the gate raises inside its `try`; none of them reaches the caller as such. */
  const PLEASE_AUTHENTICATE := ApiError(400, "Please Authenticate!")
  const NO_ACCOUNT := ApiError(404, "User doesn't exist. Please create account")
  const WRONG_ROLE := ApiError(403, "Sorry, but you can't access this")
  const BLOCKED := ApiError(403, "User is blocked")
  const DELETED := ApiError(410, "User doesn't exist anymore")

  /** The decoded ID token; only `uid` is consulted. */
  datatype IdToken = IdToken(uid: string)

  /** An account as the lookup returns it: its discriminator `__t` and the client flags. */
  datatype Account = Account(kind: Option<string>, isBlocked: bool, isDeleted: bool)

  /** What the verifier or the lookup reports when it throws: the error's `code`, if it has one. */
  type ErrorCode = Option<string>

  /** What is thrown inside the `try`: a verifier/lookup error, or one of the gate's own ApiErrors (which carry no code). */
  datatype Thrown = SdkError(code: ErrorCode) | GateError(error: ApiError)

  /** What the gate leaves on the request. */
  datatype Req = Req(user: Option<Account>, newUser: Option<IdToken>, routeType: Option<string>)

  const UNTOUCHED := Req(None, None, None)

  /** How `next` is called: once, either plainly or with an error. */
  datatype Next = Proceed | Fail(error: ApiError)

  datatype Decision = Decision(req: Req, next: Next)

  /** `allowUserType` defaults to "All" when the factory is called without it. */
  function AllowUserType(arg: Option<string>): (allow: string)
    ensures arg.None? ==> allow == USER_TYPE_ALL
    ensures arg.Some? ==> allow == arg.value
  {
    arg.GetOr(USER_TYPE_ALL)
  }

  /** `req.header("Authorization")?.split(" ")[1]`: the second space-separated field, if there is one. */
  function BearerToken(header: Option<string>): (t: Option<string>)
    ensures t.Some? ==> header.Some? && forall i :: 0 <= i < |t.value| ==> t.value[i] != ' '
  {
    match header
    case None => None
    case Some(h) =>
      var fields := Split(h, ' ');
      SplitFieldsFree(h, ' ');
      if |fields| >= 2 then Some(fields[1]) else None
  }

  /** Whatever the scheme word, the token after the first space is taken (the scheme is not checked). */
  lemma BearerTokenOfSchemeAndToken(scheme: string, token: string)
    requires forall i :: 0 <= i < |scheme| ==> scheme[i] != ' '
    requires forall i :: 0 <= i < |token| ==> token[i] != ' '
    ensures BearerToken(Some(scheme + " " + token)) == Some(token)
  {
    SplitAtFirstSeparator(scheme, token, ' ');
    SplitWithoutSeparator(token, ' ');
  }

  /** A header without a space yields no token. */
  lemma NoSpaceNoToken(h: string)
    requires forall i :: 0 <= i < |h| ==> h[i] != ' '
    ensures BearerToken(Some(h)).None?
  {
    SplitWithoutSeparator(h, ' ');
  }

  /** The paths on which an unknown account may pass: exactly "/register", or any containing "secret-register". */
  predicate RegistrationPath(path: string) {
    path == "/register" || Contains(path, "secret-register")
  }

  /** The role gate: the account's `__t` is one of the comma-separated allowed types, or every type is allowed. */
  predicate RoleAllowed(allow: string, kind: Option<string>) {
    (kind.Some? && kind.value in Split(allow, ',')) || allow == USER_TYPE_ALL
  }

  /** The body of the `try`: the request it prepares, or what it throws. */
  function TryBlock(allow: string, header: Option<string>, verify: string -> Result<IdToken, ErrorCode>,
                    lookup: string -> Result<Option<Account>, ErrorCode>, path: string): (r: Result<Req, Thrown>)
    ensures r.Ok? ==> (r.value.user.Some? <==> r.value.newUser.None?)
  {
    var token := BearerToken(header);
    if !Truthy(token) then Err(GateError(PLEASE_AUTHENTICATE))
    else
      match verify(token.value)
      case Err(code) => Err(SdkError(code))
      case Ok(payload) =>
        match lookup(payload.uid)
        case Err(code) => Err(SdkError(code))
        case Ok(None) =>
          if RegistrationPath(path) then Ok(Req(None, Some(payload), Some(allow)))
          else Err(GateError(NO_ACCOUNT))
        case Ok(Some(account)) =>
          if !RoleAllowed(allow, account.kind) then Err(GateError(WRONG_ROLE))
          else if account.kind == Some(USER_TYPE_CLIENT) && account.isBlocked then Err(GateError(BLOCKED))
          else if account.kind == Some(USER_TYPE_CLIENT) && account.isDeleted then Err(GateError(DELETED))
          else Ok(Req(Some(account), None, None))
  }

  /** The `code` of a thrown error; the gate's own ApiErrors have none. */
  function CodeOf(t: Thrown): ErrorCode {
    match t
    case SdkError(code) => code
    case GateError(_) => None
  }

  /** The catch: every failure becomes a 401, "Session is expired" only for an expired-token code. */
  function Caught(t: Thrown): (e: ApiError)
    ensures e.statusCode == 401
    ensures e.message == "Session is expired" <==> CodeOf(t) == Some("auth/id-token-expired")
  {
    if CodeOf(t) == Some(EXPIRED_CODE) then SESSION_EXPIRED else FAILED_TO_AUTHENTICATE
  }

  /** `firebaseAuth(allowUserType)` applied to one request. */
  function Gate(allowArg: Option<string>, header: Option<string>, verify: string -> Result<IdToken, ErrorCode>,
                lookup: string -> Result<Option<Account>, ErrorCode>, path: string): (d: Decision)
    ensures d.next.Proceed? ==> (d.req.user.Some? <==> d.req.newUser.None?)
    ensures d.next.Fail? ==> d.req == UNTOUCHED && d.next.error.statusCode == 401
  {
    match TryBlock(AllowUserType(allowArg), header, verify, lookup, path)
    case Ok(req) => Decision(req, Proceed)
    case Err(t) => Decision(UNTOUCHED, Fail(Caught(t)))
  }

  /** Exactly when the gate lets a request through, stated on the inputs. */
  lemma GatePassesIff(allowArg: Option<string>, header: Option<string>, verify: string -> Result<IdToken, ErrorCode>,
                      lookup: string -> Result<Option<Account>, ErrorCode>, path: string)
    ensures var d := Gate(allowArg, header, verify, lookup, path);
            var allow := AllowUserType(allowArg);
            var token := BearerToken(header);
            d.next.Proceed? <==>
              && Truthy(token)
              && verify(token.value).Ok?
              && lookup(verify(token.value).value.uid).Ok?
              && match lookup(verify(token.value).value.uid).value {
                   case None => RegistrationPath(path)
                   case Some(a) =>
                     && RoleAllowed(allow, a.kind)
                     && (a.kind == Some(USER_TYPE_CLIENT) ==> !a.isBlocked && !a.isDeleted)
                 }
  {
  }

  /** An unknown account that passes is left as `newUser`, tagged with the allowed type, on a registration path. */
  lemma NewUserOnlyOnRegistration(allowArg: Option<string>, header: Option<string>, verify: string -> Result<IdToken, ErrorCode>,
                                  lookup: string -> Result<Option<Account>, ErrorCode>, path: string)
    requires Gate(allowArg, header, verify, lookup, path).next.Proceed?
    requires Gate(allowArg, header, verify, lookup, path).req.newUser.Some?
    ensures var d := Gate(allowArg, header, verify, lookup, path);
            var token := BearerToken(header).value;
            && RegistrationPath(path)
            && verify(token).Ok? && d.req.newUser == Some(verify(token).value)
            && lookup(verify(token).value.uid) == Ok(None)
            && d.req.routeType == Some(AllowUserType(allowArg))
            && d.req.user.None?
  {
  }

  /** "Session is expired" is reported exactly when the verifier or the lookup threw the expired-token code. */
  lemma SessionExpiredIff(allowArg: Option<string>, header: Option<string>, verify: string -> Result<IdToken, ErrorCode>,
                          lookup: string -> Result<Option<Account>, ErrorCode>, path: string)
    ensures var d := Gate(allowArg, header, verify, lookup, path);
            var token := BearerToken(header);
            d.next == Fail(SESSION_EXPIRED) <==>
              && Truthy(token)
              && (|| verify(token.value) == Err(Some(EXPIRED_CODE))
                  || (verify(token.value).Ok? && lookup(verify(token.value).value.uid) == Err(Some(EXPIRED_CODE))))
  {
  }

  /** A client account that is both blocked and deleted is refused as blocked: that check comes first. */
  lemma BlockedCheckedFirst(allow: string, header: Option<string>, verify: string -> Result<IdToken, ErrorCode>,
                            lookup: string -> Result<Option<Account>, ErrorCode>, path: string)
    requires Truthy(BearerToken(header)) && verify(BearerToken(header).value).Ok?
    requires lookup(verify(BearerToken(header).value).value.uid) == Ok(Some(Account(Some(USER_TYPE_CLIENT), true, true)))
    requires RoleAllowed(allow, Some(USER_TYPE_CLIENT))
    ensures TryBlock(allow, header, verify, lookup, path) == Err(GateError(BLOCKED))
  {
  }

  /** Blocked and deleted flags matter only on client accounts: an admin with both set passes an admin route. */
  lemma FlagsIgnoredForAdmins(header: Option<string>, verify: string -> Result<IdToken, ErrorCode>,
                              lookup: string -> Result<Option<Account>, ErrorCode>, path: string)
    requires Truthy(BearerToken(header)) && verify(BearerToken(header).value).Ok?
    requires lookup(verify(BearerToken(header).value).value.uid) == Ok(Some(Account(Some(USER_TYPE_ADMIN), true, true)))
    ensures Gate(Some(USER_TYPE_ADMIN), header, verify, lookup, path)
            == Decision(Req(Some(Account(Some(USER_TYPE_ADMIN), true, true)), None, None), Proceed)
  {
    assert Split(USER_TYPE_ADMIN, ',') == [USER_TYPE_ADMIN] by {
      SplitWithoutSeparator(USER_TYPE_ADMIN, ',');
    }
  }

  /** The list "Admin,Client" splits into its two types. */
  lemma AdminClientFields()
    ensures Split("Admin,Client", ',') == [USER_TYPE_ADMIN, USER_TYPE_CLIENT]
  {
    AdminClientText();
    AdminClientSeparatorFree();
    SplitTwoFields(USER_TYPE_ADMIN, USER_TYPE_CLIENT, ',');
  }

  lemma AdminClientSeparatorFree()
    ensures forall i :: 0 <= i < |USER_TYPE_ADMIN| ==> USER_TYPE_ADMIN[i] != ','
    ensures forall i :: 0 <= i < |USER_TYPE_CLIENT| ==> USER_TYPE_CLIENT[i] != ','
  {
  }

  lemma AdminClientText()
    ensures USER_TYPE_ADMIN + [','] + USER_TYPE_CLIENT == "Admin,Client"
  {
  }

  /** A comma-separated list admits each listed type and no other: "Admin,Client" admits both, "Client" no admin. */
  lemma ListedTypesAdmitted()
    ensures RoleAllowed("Admin,Client", Some(USER_TYPE_CLIENT))
    ensures RoleAllowed("Admin,Client", Some(USER_TYPE_ADMIN))
    ensures !RoleAllowed(USER_TYPE_CLIENT, Some(USER_TYPE_ADMIN))
    ensures !RoleAllowed("Admin,Client", None)
  {
    AdminClientFields();
    ClientListRefusesAdmin();
    AdminClientNotAll();
  }

  lemma ClientListRefusesAdmin()
    ensures !RoleAllowed(USER_TYPE_CLIENT, Some(USER_TYPE_ADMIN))
  {
    SplitWithoutSeparator(USER_TYPE_CLIENT, ',');
    assert USER_TYPE_ADMIN != USER_TYPE_CLIENT;
    assert USER_TYPE_CLIENT != USER_TYPE_ALL;
  }

  lemma AdminClientNotAll()
    ensures "Admin,Client" != USER_TYPE_ALL
  {
    assert |"Admin,Client"| != |USER_TYPE_ALL|;
  }

  // The three routes of the registration router and the types they allow.

  /** `POST /register` with `firebaseAuth(Client)`: a new account with a valid token proceeds to registration as a Client. */
  lemma RegisterRouteAdmitsNewAccount(token: string, verify: string -> Result<IdToken, ErrorCode>,
                                      lookup: string -> Result<Option<Account>, ErrorCode>)
    requires token != "" && forall i :: 0 <= i < |token| ==> token[i] != ' '
    requires verify(token).Ok? && lookup(verify(token).value.uid) == Ok(None)
    ensures Gate(Some(USER_TYPE_CLIENT), Some("Bearer " + token), verify, lookup, "/register")
            == Decision(Req(None, Some(verify(token).value), Some(USER_TYPE_CLIENT)), Proceed)
  {
    BearerTokenOfSchemeAndToken("Bearer", token);
    assert "Bearer" + " " + token == "Bearer " + token;
  }

  /** `POST /admin-secret-register` with `firebaseAuth(Admin)`: the path contains "secret-register", so a new account proceeds as an Admin. */
  lemma AdminSecretRegisterAdmitsNewAccount(token: string, verify: string -> Result<IdToken, ErrorCode>,
                                            lookup: string -> Result<Option<Account>, ErrorCode>)
    requires token != "" && forall i :: 0 <= i < |token| ==> token[i] != ' '
    requires verify(token).Ok? && lookup(verify(token).value.uid) == Ok(None)
    ensures Gate(Some(USER_TYPE_ADMIN), Some("Bearer " + token), verify, lookup, "/admin-secret-register")
            == Decision(Req(None, Some(verify(token).value), Some(USER_TYPE_ADMIN)), Proceed)
  {
    BearerTokenOfSchemeAndToken("Bearer", token);
    assert "Bearer" + " " + token == "Bearer " + token;
    assert OccursAt("/admin-secret-register", "secret-register", 7);
    ContainsAt("/admin-secret-register", "secret-register", 7);
  }

  /** `POST /login` with `firebaseAuth(All)`: an unknown account is refused with 401 "Failed to authenticate". */
  lemma LoginRefusesUnknownAccount(token: string, verify: string -> Result<IdToken, ErrorCode>,
                                   lookup: string -> Result<Option<Account>, ErrorCode>)
    requires token != "" && forall i :: 0 <= i < |token| ==> token[i] != ' '
    requires verify(token).Ok? && lookup(verify(token).value.uid) == Ok(None)
    ensures Gate(Some(USER_TYPE_ALL), Some("Bearer " + token), verify, lookup, "/login")
            == Decision(UNTOUCHED, Fail(FAILED_TO_AUTHENTICATE))
  {
    BearerTokenOfSchemeAndToken("Bearer", token);
    assert "Bearer" + " " + token == "Bearer " + token;
    assert !Contains("/login", "secret-register");
  }
}
