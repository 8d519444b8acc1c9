# A verified model of the starter-template backend

This project models the core of an Express and Mongoose backend template in Dafny and proves what its parts promise. The core covers:

- **Sign-in and registration.** The Firebase gate `firebaseAuth` admits known accounts by role and flags and lets new accounts through only on registration paths. The access-token gate `verifyJWT` admits the user a token names.
- **Authentication service.** It covers e-mail verification with six-digit codes that expire after ten minutes, Google and Apple sign-in, and linking a provider to an existing user.
- **Profile service.** `completeProfile`, `editProfile`, the completeness check and the username lookup.
- **User collection.** The user schema with its setters (`lowercase`, `trim`) and unique indexes, and the verification-code collection with its TTL index.
- **Request pipeline.** The Joi validators and the `validate` middleware, the error handler, the success envelope, the two morgan loggers and the upload rules.
- **Operations code.** The database connection string and the health report.
- **Scaffolding scripts.** `generate-api` and `remove-api`, which write the files of a new API, register its classes in the `index.ts` barrels, and delete those files again.

## How the model is built

- **Pure logic** (validators, gates, name derivations, the barrel rewrite) is written as functions, with lemmas relating them.
- **Changing state** is written imperatively:
  - the verification store and the user collection are classes whose methods update a `map` or a `seq`;
  - the profile update keeps the loop the source has, with its invariants;
  - the scripts work on a `Workspace` class holding the file system as a map.
- **Each method** is proved against a specification function, and what the source promises is proved about that function.
- **Outside services are parameters:** the Firebase, Google and Apple token verifiers, the JWT verifier, the image host, the clock, random choices and the user's answer to the prompt.
- **Failures** a service can throw are modelled as `Result` values.

Modules, one per file: `Common`, `Strings`, `Constants`, `EmailVerification`, `UserModel`, `AuthService`, `UserService`, `FirebaseAuth`, `JwtAuth`, `ErrorHandler`, `Responses`, `RequestLogging`, `Upload`, `Validation`, `Health`, `Scaffold`, `ApiScripts`.

## Model

| member | source | states |
|---|---|---|
| Constants.Keys | src/config/constants.ts:30-31 | `Object.keys` of a type table: one key per entry, in declaration order |
| Constants.ExtensionOf | src/config/constants.ts:11-28 | a MIME type has an extension exactly when it is a key of the table, and the extension is the one its entry gives |
| Constants.FileTypes | src/config/constants.ts:11-32 | `fileTypes` holds thirteen pairwise distinct MIME types, the five image types first and in declaration order, and it lists a type exactly when it is a key of the image or the document table |
| Constants.JpegSpellingsAgree | src/config/constants.ts:12-14 | "image/jpeg" and "image/jpg" both map to "jpg" |
| EmailVerification.Stored | src/microservices/email.microservice.ts:26-33 | the upsert puts a record for the email expiring ten minutes after `now`, leaves every other email's record alone and keeps one record per email |
| EmailVerification.Consumed | src/microservices/email.microservice.ts:35-45 | the record is deleted exactly when the code is accepted; nothing else changes and one record per email is kept |
| EmailVerification.StoreThenVerify | src/microservices/email.microservice.ts:26-45 | a code just stored verifies exactly when it is the code given and `now` is before the ten-minute expiry |
| EmailVerification.SingleUse | src/microservices/email.microservice.ts:40-43 | after one successful verification no code verifies again for that email, at any later time |
| EmailVerification.StoreIsolated | src/microservices/email.microservice.ts:28-32 | storing a code for one email never changes whether another email's code verifies |
| EmailVerification.Swept | src/models/email.model.ts:13 | the TTL index removes exactly the records whose expiry has been reached and keeps the others unchanged |
| EmailVerification.SweepAgreesWithVerify | src/models/email.model.ts:13 | the TTL sweep never changes what `verifyCode` accepts at that moment, since both use `expiresAt > now` |
| EmailVerification.CodeFromChoice | src/microservices/email.microservice.ts:47-49 | the generated code is six decimal digits whose value is 100000 plus the random choice |
| EmailVerification.GeneratedCodeFitsValidator | src/microservices/email.microservice.ts:47-49 | a generated code has exactly six characters and no leading zero |
| EmailVerification.VerificationStore.constructor | src/models/email.model.ts:10-20 | the collection starts empty and well keyed |
| EmailVerification.VerificationStore.StoreVerificationCode | src/microservices/email.microservice.ts:26-33 | the collection becomes `Stored` of the old one, with expiry `now` + 600000 ms, and stays well keyed |
| EmailVerification.VerificationStore.VerifyCode | src/microservices/email.microservice.ts:35-45 | returns true exactly when the record exists, its code matches and it has not expired; a missing record gives false; the collection becomes `Consumed` of the old one |
| UserModel.NormEmail | src/models/user.model.ts:27-33 | the `lowercase` then `trim` setters leave a lower-case email no longer than the input |
| UserModel.NormEmailIdempotent | src/models/user.model.ts:27-33 | running the email setters on a stored email changes nothing |
| UserModel.TrimOpt | src/models/user.model.ts:34-43 | the `trim` setter of `name` and `username` keeps an unset field unset and trims a set one |
| UserModel.Normalized | src/models/user.model.ts:25-70 | a stored document has its email normalised, its name and username trimmed, and every other field as given |
| UserModel.NormalizedIsFixed | src/models/user.model.ts:25-70 | applying the setters twice is the same as applying them once |
| UserModel.Fresh | src/models/user.model.ts:48-55 | a user created from an email alone is unverified, incomplete, without name, username, avatar or linked provider |
| UserModel.Hits | src/models/user.model.ts:75 | the match flags of a query line up one to one with the users in natural order |
| UserModel.FindFrom | src/models/user.model.ts:75 | the scan returns the first hit at or after the start position, and none only when no later user matches |
| UserModel.FindOne | src/models/user.model.ts:75 | `findOne` finds a user exactly when some stored user matches, and the one found is the first match in natural order |
| UserModel.FindOneIsFirstMatch | src/models/user.model.ts:75 | the first match is unique, so any index that is the first match is what `findOne` returns |
| UserModel.NotFoundByEmail | src/models/user.model.ts:27-33 | when a query on the email finds nobody, no stored user has the email the given one would be stored as |
| UserModel.AppendedIsFirstMatch | src/models/user.model.ts:75 | a matching user added where nobody matched becomes the first match |
| UserModel.ReplacedIsFirstMatch | src/models/user.model.ts:75 | replacing the first match by another matching user keeps it the first match |
| UserModel.IdsUnique | src/models/user.model.ts:25-70 | in a valid collection two positions with the same `_id` are the same position |
| UserModel.NormalizedWellFormed | src/models/user.model.ts:27-43 | a document with a non-empty normalised email, once its setters ran, satisfies the schema |
| UserModel.AppendKeepsValid | src/models/user.model.ts:27-73 | adding a well-formed user with a fresh id that clashes with nobody keeps ids distinct and emails and usernames unique |
| UserModel.ReplaceKeepsValid | src/models/user.model.ts:27-73 | replacing a user by a well-formed one with the same id that clashes with no other user keeps the collection valid |
| UserModel.ClashSymmetric | src/models/user.model.ts:30-41 | two users clash on the unique indexes in either order or in neither |
| UserModel.Check | src/models/user.model.ts:27-73 | a write passes the storage checks exactly when the email is non-empty and no other user shares its email or its (set) username |
| UserModel.Insert | src/models/user.model.ts:25-75 | `save` of a new document stores it normalised, with the next id, at the end; it fails exactly when the storage checks fail; a valid collection stays valid |
| UserModel.UpdateAt | src/models/user.model.ts:25-75 | an update stores the normalised document in place, keeping the id; it fails exactly when the checks against the other users fail; a valid collection stays valid |
| UserModel.UpdateKeepingEmail | src/models/user.model.ts:27-31 | on a valid collection, an update that keeps the stored email can be refused only by the username index, never by the required or unique email |
| UserModel.UpdateWithSelf | src/models/user.model.ts:25-75 | writing a stored user back unchanged succeeds and changes nothing |
| UserModel.UserCollection.constructor | src/models/user.model.ts:75 | the collection starts empty and valid |
| UserModel.UserCollection.Save | src/models/user.model.ts:25-75 | the collection becomes what `Insert` gives on success and is unchanged on failure, and stays valid |
| UserModel.UserCollection.Update | src/models/user.model.ts:25-75 | the collection becomes what `UpdateAt` gives on success and is unchanged on failure, and stays valid |
| AuthService.Respond | src/services/auth.service.ts:35-43 | both tokens are issued for the stored user's id and email, and the user is returned with them |
| AuthService.FromWrite | src/services/auth.service.ts:29-43 | a failed write leaves the collection and throws the storage error; a successful one answers for the stored user |
| AuthService.InsertNewEmail | src/services/auth.service.ts:21-29 | a document whose email no stored user has, and which has no username, is always stored |
| AuthService.UpdateSameKeys | src/services/auth.service.ts:30-33 | rewriting a stored user without touching email, name or username always succeeds and stores exactly that user |
| AuthService.VerifyEmailFlow | src/services/auth.service.ts:13-44 | a refused code throws 400 "Invalid or expired verification code" and changes nothing; an unknown email gets a new verified, incomplete user at the end; a known one is marked verified in place; the collection stays valid |
| AuthService.GoogleLinked | src/services/auth.service.ts:70-82 | the link branch overwrites `providers.google` with the payload's id and email, raises `isEmailVerified` only when the payload is verified, and changes nothing else |
| AuthService.GoogleCreateSucceeds | src/services/auth.service.ts:53-67 | when the filter finds nobody, the new Google user can always be stored |
| AuthService.GoogleOAuthFlow | src/services/auth.service.ts:46-98 | nobody found: a new user with the payload's email, verification and Google link is appended; someone found: the first match is linked in place; the collection stays valid |
| AuthService.GoogleResultIsFirstMatch | src/services/auth.service.ts:49-51 | the user a Google sign-in returns is afterwards the first user the same filter finds |
| AuthService.GoogleOAuthIdempotent | src/services/auth.service.ts:46-98 | signing in twice with the same Google payload returns the same user and leaves the collection as the first call left it |
| AuthService.GoogleRelinkUnchanged | src/services/auth.service.ts:68-82 | linking again a user already linked and verified as the payload says returns that user and changes nothing |
| AuthService.GoogleResultLinked | src/services/auth.service.ts:60-78 | the user returned is linked to the payload's Google id and email, and verified when the payload is |
| AuthService.GoogleLinkedFixed | src/services/auth.service.ts:73-79 | the `$set` of the link branch changes nothing on a user that is already linked and verified as the payload says |
| AuthService.AppleNewEmail | src/services/auth.service.ts:113 | the new user's email is the payload's email when it is non-empty, and `sub` followed by "@privaterelay.appleid.com" otherwise |
| AuthService.AppleLinked | src/services/auth.service.ts:126-138 | the link branch overwrites `providers.apple` with the payload's id and raw email, raises `isEmailVerified` only when the payload says true, and changes nothing else |
| AuthService.AppleCreateSucceeds | src/services/auth.service.ts:110-123 | when the filter finds nobody and the payload has a non-empty email, the new Apple user can always be stored |
| AuthService.AppleOAuthFlow | src/services/auth.service.ts:100-154 | nobody found: a new user with the relay fallback email, `email_verified \|\| false` and the Apple link is appended; someone found: the first match is linked in place; the collection stays valid |
| AuthService.AppleResultIsFirstMatch | src/services/auth.service.ts:106-108 | the user an Apple sign-in returns is afterwards the first user the same filter finds |
| AuthService.AppleOAuthRepeatLinksSameUser | src/services/auth.service.ts:100-154 | signing in twice with the same Apple payload creates no second user: the second call updates the same user in place |
| AuthService.SendVerificationEmail | src/services/auth.service.ts:7-11 | a six-digit code is generated and stored for the email with its ten-minute expiry |
| AuthService.VerifyEmail | src/services/auth.service.ts:13-44 | the code is consumed as `verifyCode` does, and the collection and the result are those of `VerifyEmailFlow` for whether the code was accepted |
| AuthService.GoogleOAuth | src/services/auth.service.ts:46-98 | the collection and the result are those of `GoogleOAuthFlow`, and the collection stays valid |
| AuthService.AppleOAuth | src/services/auth.service.ts:100-154 | the collection and the result are those of `AppleOAuthFlow`; the `userInfo` argument is ignored |
| UserService.Lookup | src/services/user.service.ts:21-34 | `profileData[key]` is undefined when no entry has that key |
| UserService.LookupDistinct | src/services/user.service.ts:45 | with distinct keys, looking up an entry's key gives that entry's value (the same code appears again at line 118) |
| UserService.UpdatesOfContents | src/services/user.service.ts:43-50 | the dictionary the loop builds holds string values exactly under the keys of entries with a defined value other than "avatarLocalFile", each under its own value |
| UserService.BuildUpdates | src/services/user.service.ts:43-50 | the `for` loop over `Object.entries(profileData)` yields exactly the dictionary `UpdatesOf` describes |
| UserService.UpdatesOfStep | src/services/user.service.ts:45-49 | each iteration adds the entry's value under its key when the value is defined and the key is not skipped, and changes nothing otherwise |
| UserService.UpdatesAreDefinedFields | src/services/user.service.ts:43-50 | a key is in the dictionary exactly when it is not "avatarLocalFile" and the profile data defines it, with that value; so `avatarLocalPath` is copied through (the same code appears again at lines 116-123) |
| UserService.ProfileUpdates | src/services/user.service.ts:52-55 | the dictionary sent always sets `isProfileComplete` to true, holds the uploaded avatar when there is one, and otherwise agrees with the loop's dictionary (the same code appears again at lines 125-128) |
| UserService.WithoutProviders | src/services/user.service.ts:64 | the returned user carries no provider links and is otherwise the stored user (the same code appears again at line 137) |
| UserService.Destroyed | src/services/user.service.ts:57-59 | the old avatar is destroyed exactly when the user has one with a non-empty id, and it is that id (the same code appears again at lines 130-132) |
| UserService.ProfileWrite | src/services/user.service.ts:32-143 | after the checks: the local file is uploaded exactly when `avatarLocalPath` is non-empty, the old avatar is destroyed, a failed update changes nothing and throws the storage error, and the collection stays valid |
| UserService.ProfileUpdate | src/services/user.service.ts:81-144 | an unknown id throws 404 "User not found" and a username held by another user throws 400 "Username already taken", both before any upload, deletion or write; otherwise the write happens; the collection stays valid |
| UserService.UsernameTakenMeans | src/services/user.service.ts:94-103 | the username check refuses exactly when the requested username is non-empty and another user, by id, already holds it trimmed |
| UserService.KeepingOwnUsernameAllowed | src/services/user.service.ts:94-103 | asking for the username one already holds is never refused |
| UserService.UsernameHeldOnce | src/models/user.model.ts:38-73 | in a valid collection a username is held by at most one user |
| UserService.AppliedProfile | src/services/user.service.ts:116-137 | for profile data with the keys of `CompleteProfileData`/`EditProfileData`, the update sets `isProfileComplete`, replaces the avatar only when one was uploaded, sets name and username exactly when given, and keeps id, email, verification and providers |
| UserService.ProfileWriteStores | src/services/user.service.ts:116-143 | a successful write stores in place the same user (same id, email, verification and providers) with trimmed new name and username when given, the uploaded avatar when there is one, and `isProfileComplete` true, and returns it without providers |
| UserService.ProfileWriteSucceeds | src/services/user.service.ts:135-141 | the write cannot fail when the data sets no username held by someone else |
| UserService.ProfileWriteFailsOnlyOnUsername | src/services/user.service.ts:135-137 | on a valid collection a failed profile write is always the username index's duplicate key: the data never names the email, so the `required` check on it never fires |
| UserService.ProfileUpdateSucceeds | src/services/user.service.ts:85-141 | once both checks pass, the update cannot fail when the data sets no empty username |
| UserService.OthersDoNotClash | src/models/user.model.ts:27-73 | a user rewritten with its own email and a username kept or free clashes with no other user |
| UserService.CheckProfileComplete | src/services/user.service.ts:156-160 | throws 400 "incomplete profile" exactly when the profile is not complete |
| UserService.CheckIfUsernameExists | src/services/user.service.ts:162-172 | true exactly when some user holds that username, trimmed as the setter stores it |
| UserService.FreeUsernameNotTaken | src/services/user.service.ts:94-103 | a username the existence check reports as free passes the profile operations' username check (the same code appears again at lines 162-172) |
| UserService.EditProfile | src/services/user.service.ts:81-144 | the collection, the effects on the image host and the result are those of `ProfileUpdate`, and the collection stays valid |
| UserService.WriteProfile | src/services/user.service.ts:105-143 | once the checks passed, the collection, the effects and the result are those of `ProfileWrite` |
| UserService.CompleteProfile | src/services/user.service.ts:8-79 | the same update as `editProfile`; on success the tokens are issued for the id and the email the user had before the update |
| FirebaseAuth.AllowUserType | src/middlewares/firebase.middleware.ts:27 | `allowUserType` is "All" when the factory gets no argument, and the argument otherwise |
| FirebaseAuth.BearerToken | src/middlewares/firebase.middleware.ts:30 | the token, when there is one, comes from a present header and holds no space |
| FirebaseAuth.BearerTokenOfSchemeAndToken | src/middlewares/firebase.middleware.ts:30 | for "scheme token" the token is taken whatever the scheme word, so the "Bearer" scheme of section 2.1 of RFC 6750 is not checked |
| FirebaseAuth.NoSpaceNoToken | src/middlewares/firebase.middleware.ts:30-34 | a header without a space yields no token |
| FirebaseAuth.TryBlock | src/middlewares/firebase.middleware.ts:29-69 | when the `try` completes, exactly one of `req.user` and `req.newUser` is set |
| FirebaseAuth.Caught | src/middlewares/firebase.middleware.ts:70-77 | every failure becomes a 401, with "Session is expired" exactly for the code "auth/id-token-expired" |
| FirebaseAuth.Gate | src/middlewares/firebase.middleware.ts:26-78 | on success exactly one of `req.user` and `req.newUser` is set; on failure the request is untouched and `next` gets a 401, whatever was raised inside the `try` |
| FirebaseAuth.GatePassesIff | src/middlewares/firebase.middleware.ts:29-69 | the gate lets a request through exactly when there is a token, both calls succeed, and the account is unknown on a registration path, or is known, of an allowed type and, if a client, neither blocked nor deleted |
| FirebaseAuth.NewUserOnlyOnRegistration | src/middlewares/firebase.middleware.ts:39-43 | an unknown account passes only on "/register" or a path containing "secret-register", with `newUser` the payload, `routeType` the allowed type and no `user` |
| FirebaseAuth.SessionExpiredIff | src/middlewares/firebase.middleware.ts:36-37 | "Session is expired" is reported exactly when the verifier, or the lookup after it, threw the expired-token code (the same code appears again at lines 70-73) |
| FirebaseAuth.BlockedCheckedFirst | src/middlewares/firebase.middleware.ts:54-63 | a client that is both blocked and deleted is refused as blocked |
| FirebaseAuth.FlagsIgnoredForAdmins | src/middlewares/firebase.middleware.ts:54-66 | an admin with both flags set passes an admin route and is set as `req.user` |
| FirebaseAuth.AdminClientFields | src/middlewares/firebase.middleware.ts:50 | the list "Admin,Client" splits at its comma into the two user types |
| FirebaseAuth.ListedTypesAdmitted | src/middlewares/firebase.middleware.ts:50 | the list "Admin,Client" admits both types and refuses an account without a type; the list "Client" refuses an admin |
| FirebaseAuth.ClientListRefusesAdmin | src/middlewares/firebase.middleware.ts:50 | a route for clients only refuses an admin |
| FirebaseAuth.RegisterRouteAdmitsNewAccount | src/routes/auth.routes.ts:10-16 | `POST /register` with `firebaseAuth(Client)` lets a new account with a valid token through as a Client registration |
| FirebaseAuth.AdminSecretRegisterAdmitsNewAccount | src/routes/auth.routes.ts:18-23 | `POST /admin-secret-register` with `firebaseAuth(Admin)` lets a new account through as an Admin registration |
| FirebaseAuth.LoginRefusesUnknownAccount | src/routes/auth.routes.ts:25 | `POST /login` with `firebaseAuth(All)` refuses an unknown account with 401 "Failed to authenticate" |
| JwtAuth.AccessToken | src/middlewares/auth.middleware.ts:11 | no header gives no token; a header without "Bearer " is the token as it stands; otherwise the token is the header with one "Bearer " removed |
| JwtAuth.AccessTokenOfBearer | src/middlewares/auth.middleware.ts:11 | the header "Bearer <token>" yields exactly the token |
| JwtAuth.VerifyJwt | src/middlewares/auth.middleware.ts:9-37 | every refusal is a 401 with `success: false`; an admitted user is one stored in the collection |
| JwtAuth.AdmitIff | src/middlewares/auth.middleware.ts:13-31 | a request is admitted exactly when its token is non-empty, verifies, and names the id of a stored user, and then `req.user` is that user |
| JwtAuth.RefusalMessages | src/middlewares/auth.middleware.ts:13-36 | "Access token is required" exactly when the token is missing or empty; every other refusal is "Invalid token" |
| JwtAuth.BareSchemeRefused | src/middlewares/auth.middleware.ts:11-18 | a header that is only "Bearer " is refused as a missing token |
| JwtAuth.IssuedTokenAdmits | src/middlewares/auth.middleware.ts:20-31 | in a collection with unique ids, a token carrying a stored user's claims admits that very user |
| JwtAuth.GoogleSignInTokenAdmits | src/middlewares/auth.middleware.ts:20-31 | after a successful Google sign-in, a token carrying the returned claims admits the signed-in user |
| ErrorHandler.Normalize | src/middlewares/error.middleware.ts:12-24 | an ApiError passes unchanged; a Mongoose error becomes a 400 and any other error a 500, keeping its stack and its message, or "Error: Something went wrong" when the message is empty or missing |
| ErrorHandler.HandleError | src/middlewares/error.middleware.ts:26-39 | the status sent equals the body's `statusCode`; `success` is false; `stack` is present exactly when `NODE_ENV` is "development"; uploaded files are removed exactly when the request has `file` or `files` |
| ErrorHandler.NormalizeIdempotent | src/middlewares/error.middleware.ts:14-24 | re-throwing the ApiError the handler built gives the same response |
| ErrorHandler.FaultStatus | src/middlewares/error.middleware.ts:14-15 | a service's ApiError reaches the client with its own code and message; a failed schema validation reaches it as 400 and a unique-index violation as 500 |
| Responses.NewApiResponse | src/utils/responseHandler.ts:9-14 | the envelope keeps the status code and data, is a success exactly below 400, and has the message "Success" exactly when none is given |
| Responses.SendResponse | src/utils/responseHandler.ts:17-19 | the HTTP status set equals the envelope's `statusCode`, and the body is the envelope of the arguments |
| Responses.EnvelopesAgree | src/utils/responseHandler.ts:13 | the success flag of `ApiResponse` and of the error handler's body agree on every error whose code is at least 400, and disagree on an ApiError thrown with a lower code |
| RequestLogging.IpFormat | src/middlewares/morgan.middleware.ts:9 | the address token ":remote-addr - " exactly when `NODE_ENV` is "production", and nothing otherwise |
| RequestLogging.FormatsShape | src/middlewares/morgan.middleware.ts:11-12 | both formats start with the address token exactly in production; the error format is the success format followed by " - message: :message" |
| RequestLogging.MessageToken | src/middlewares/morgan.middleware.ts:7 | the `:message` token is `res.locals.errorMessage` when that is a non-empty string, and "" otherwise |
| RequestLogging.WrittenBy | src/middlewares/morgan.middleware.ts:22-30 | the success logger writes a response exactly when its status is below 400, the error logger exactly when it is 400 or above |
| RequestLogging.ExactlyOneLogger | src/middlewares/morgan.middleware.ts:23-28 | every response is written by exactly one of the two loggers |
| RequestLogging.SuccessEnvelopeLoggedAsSuccess | src/middlewares/morgan.middleware.ts:23-28 | a response sent by `sendResponse` is logged by the success logger exactly when its envelope says `success` |
| Upload.FileFilter | src/middlewares/multer.middleware.ts:8-15 | a file is accepted exactly when its MIME type is in `fileTypes`, and refused otherwise with 400 "Invalid file or data" |
| Upload.AcceptedHaveExtensions | src/middlewares/multer.middleware.ts:9 | the accepted MIME types are exactly those with an extension in the image table or the document table |
| Upload.FilterExamples | src/middlewares/multer.middleware.ts:9-13 | both JPEG spellings and PDF are accepted; "image/gif" and "image" are refused |
| Upload.Destination | src/middlewares/multer.middleware.ts:18-21 | files go to "/tmp" when `NODE_ENV` is "vercel" and to "./temp" otherwise |
| Upload.StoredName | src/middlewares/multer.middleware.ts:22-24 | the stored name is the original name, a dash and the UUID |
| Upload.OriginalNameRoundTrip | src/middlewares/multer.middleware.ts:23 | a UUID has a fixed length, so the original name can always be recovered from the stored name, whatever characters either holds |
| Validation.RuleError | src/validators/user.validator.ts:6-15 | a string rule passes exactly when the string has the minimum, maximum or exact length, counted like JavaScript's `.length` in UTF-16 code units, matches `/^[a-zA-Z0-9_]+$/`, or is an email; otherwise Joi's message for that rule, or the custom pattern message |
| Validation.FirstRuleError | src/validators/user.validator.ts:7-11 | a string passes its rules exactly when every rule passes; otherwise the message is that of one of the rules, the first failing one in declaration order |
| Validation.StringError | src/validators/user.validator.ts:6-11 | `Joi.string()` with rules admits exactly a non-empty string that passes every rule |
| Validation.Get | src/validators/user.validator.ts:5-17 | the value under a key is absent exactly when no field has that key, and otherwise is the value of a field with that key |
| Validation.KeysOf | src/validators/user.validator.ts:5-17 | the declared keys of an object schema are exactly the keys of its children |
| Validation.UnknownKeyError | src/validators/user.validator.ts:5-17 | an object has no unknown-key error exactly when every field it holds is declared |
| Validation.ChildrenError | src/validators/auth.validator.ts:23-33 | the declared keys from some position on have no error exactly when each of them checks out |
| Validation.ObjectOk | src/validators/auth.validator.ts:23-33 | a present object is valid exactly when every declared key checks out and every field it holds is declared |
| Validation.ObjectOk1 | src/validators/auth.validator.ts:11-15 | the same for an object schema with one key |
| Validation.ObjectOk2 | src/validators/auth.validator.ts:4-9 | the same for an object schema with two keys |
| Validation.ObjectOk3 | src/validators/user.validator.ts:4-17 | the same for an object schema with three keys |
| Validation.FewRules | src/validators/auth.validator.ts:17-21 | a string with no rules is valid exactly when it is non-empty, and with one rule exactly when it is also admitted by that rule |
| Validation.UsernameRules | src/validators/user.validator.ts:7-11 | the username rules admit exactly a string of 3 to 30 letters, digits and underscores |
| Validation.NameRules | src/validators/user.validator.ts:6 | the name rules admit exactly a string of 2 to 50 UTF-16 code units |
| Validation.CheckUsernameIff | src/validators/user.validator.ts:33-45 | `checkUsername` accepts `{username}` exactly when the username has 3 to 30 word characters |
| Validation.EditProfileNameIff | src/validators/user.validator.ts:19-32 | `editProfile` accepts a lone name exactly when it has 2 to 50 UTF-16 code units |
| Validation.EditProfileAcceptsEmpty | src/validators/user.validator.ts:19-32 | `editProfile` accepts the empty body, since every key is optional |
| Validation.AvatarAcceptsAnything | src/validators/user.validator.ts:16 | `avatar` accepts any value at all (the same code appears again at line 30) |
| Validation.CompleteProfileRequiresBoth | src/validators/user.validator.ts:6-11 | a body `completeProfile` accepts has both a name and a username |
| Validation.CompleteProfileIsStricter | src/validators/user.validator.ts:4-32 | every body `completeProfile` accepts is also accepted by `editProfile` |
| Validation.CompleteProfileIff | src/validators/user.validator.ts:4-18 | `completeProfile` accepts a name, a username and any avatar exactly when both the name rule and the username rule hold |
| Validation.AdmittedUsernameStoredAsIs | src/validators/user.validator.ts:10 | a username the validator admits has no surrounding spaces, so trimming it on save changes nothing |
| Validation.AstralNameAdmitted | src/validators/user.validator.ts:21 | a name of a single character beyond the Basic Multilingual Plane is admitted: it is two code units long, which meets `min(2)` |
| Validation.AdmittedNameCanBeStoredShorter | src/validators/user.validator.ts:21 | the name "  a" is admitted although it is stored, trimmed, with one character: the length is checked before the trim |
| Validation.MissingUsernameMessage | src/validators/user.validator.ts:35-36 | a missing username is reported as `"username" is required` |
| Validation.PatternMessage | src/validators/user.validator.ts:39-43 | a username of allowed length containing a space gets the custom pattern message |
| Validation.ShortUsernameRule | src/validators/user.validator.ts:37 | the minimum-length rule refuses "ab" with Joi's minimum-length message |
| Validation.ShortUsernameMessage | src/validators/user.validator.ts:36-39 | a two-character username fails on the first rule, the minimum length, before the pattern |
| Validation.EmailVerificationIff | src/validators/auth.validator.ts:4-9 | `emailVerification` accepts an email and a code exactly when the email is a non-empty valid email and the code is exactly six UTF-16 code units long |
| Validation.GeneratedCodeAccepted | src/validators/auth.validator.ts:7 | every code the verification service generates passes the code rule |
| Validation.SendVerificationOnlyEmail | src/validators/auth.validator.ts:11-15 | `sendVerification` accepts a lone email exactly when it is valid, and refuses any body that adds a code |
| Validation.SingleTokenBodies | src/validators/auth.validator.ts:17-39 | `googleOAuth` and `refreshTokens` accept their one token exactly when it is a non-empty string, and refuse a missing or non-string token |
| Validation.AppleNameObjectOk | src/validators/auth.validator.ts:27-30 | the `name` object is valid with both names exactly when both are non-empty |
| Validation.AppleNameOk | src/validators/auth.validator.ts:26-31 | `user.name` checks out exactly when both names are non-empty |
| Validation.AppleUserOk | src/validators/auth.validator.ts:26-31 | the `user` object holding a full name checks out exactly when both names are non-empty |
| Validation.AppleOAuthTokenOnly | src/validators/auth.validator.ts:23-33 | `appleOAuth` with only a token is valid exactly when the token is non-empty |
| Validation.AppleUserIgnoresToken | src/validators/auth.validator.ts:23-33 | whether the `user` field checks out does not depend on the token beside it |
| Validation.AppleOAuthWithName | src/validators/auth.validator.ts:23-33 | `appleOAuth` with a token and a full name is valid exactly when all three strings are non-empty |
| Validation.UndeclaredKeyRefused | src/validators/auth.validator.ts:23-33 | a body holding any key the schema does not declare is refused |
| Validation.Validate | src/middlewares/validation.middleware.ts:5-15 | `next()` is called exactly when the body is valid; otherwise an ApiError with status 500 is thrown, carrying Joi's first message |
| Validation.OnlyBodyValidated | src/middlewares/validation.middleware.ts:7 | only `req.body` is validated; params and query never change the outcome |
| Validation.InvalidUsernameIs500 | src/middlewares/validation.middleware.ts:9-11 | an invalid username in the body is refused with status 500 and the pattern message unchanged |
| Health.ConnectionString | src/config/db.ts:9-13 | the connection string is the uri, a slash and the database name, with "-test" appended exactly when `NODE_ENV` is "test" |
| Health.ConnectionStringNamesDatabase | src/config/db.ts:10-12 | the database name, with its "-test" suffix under test, is exactly what follows the uri and the slash |
| Health.StateName | src/config/db.ts:27-36 | readyStates 1, 2 and 3 read as connected, connecting and disconnecting; 0 and every unknown state read as disconnected |
| Health.CheckDatabaseHealth | src/config/db.ts:21-53 | the database is healthy exactly when the ping returned with readyState 1; a returned ping reports its state, its time and the connection's name, host and port; a thrown one reports state "error", "0ms" and the message, or "Unknown error" for a non-Error |
| Health.HealthyMeansConnected | src/config/db.ts:39-40 | the database is healthy exactly when its state is "connected" |
| Health.UptimeClock | src/utils/healthCheck.ts:59 | the uptime's hours, minutes and seconds have minutes and seconds below 60 and add up to the uptime |
| Health.UptimeClockUnique | src/utils/healthCheck.ts:59 | that split is the only one with minutes and seconds below 60 |
| Health.PerformHealthCheck | src/utils/healthCheck.ts:39-80 | a healthy database gives "healthy", "Backend is running smoothly" and 200; anything else gives "degraded", "Backend is experiencing issues" and 503, never "unhealthy"; the database result is reported as it is; `detailed` is present exactly when requested |
| Health.OkIffConnected | src/utils/healthCheck.ts:47-49 | the report answers 200 exactly when the ping returned with readyState 1, and 503 exactly when the status is "degraded" |
| Strings.Trim | src/models/user.model.ts:32 | the `trim` setter removes exactly the whitespace at both ends: what is left is a substring with no whitespace at either end, surrounded only by whitespace |
| Strings.TrimIdempotent | src/models/user.model.ts:32-42 | trimming a trimmed value changes nothing |
| Strings.ToLower | src/models/user.model.ts:31 | lower-casing keeps the length and maps each character on its own |
| Strings.ToLowerIsLowerCase | src/models/user.model.ts:31 | a lower-cased string has no upper-case letter |
| Strings.ToLowerOfLowerCase | src/models/user.model.ts:31 | lower-casing a string without upper-case letters changes nothing |
| Strings.IndexOf | src/middlewares/auth.middleware.ts:11 | the index found is where the pattern occurs, with no occurrence before it; none is found exactly when the pattern does not occur |
| Strings.ReplaceFirst | src/middlewares/auth.middleware.ts:11 | a string replace without the pattern leaves the text alone, and otherwise replaces the first occurrence only |
| Strings.SplitFieldsFree | src/middlewares/firebase.middleware.ts:30 | no field of a split holds the separator (the same code appears again at line 50) |
| Strings.JoinSplit | src/middlewares/firebase.middleware.ts:30 | joining the fields of a split with the separator gives back the string (the same code appears again at line 50) |
| Strings.SplitWithoutSeparator | src/middlewares/firebase.middleware.ts:30-34 | a string without the separator splits into itself alone |
| Strings.SplitAtFirstSeparator | src/middlewares/firebase.middleware.ts:30 | when the first part has no separator, it is the first field and the rest are the fields of what follows the separator |
| Strings.SplitTwoFields | src/middlewares/firebase.middleware.ts:50 | two separator-free texts joined by the separator split back into the two |
| Strings.SplitConcat | src/middlewares/firebase.middleware.ts:50 | splitting at a separator splits the two sides independently |
| Strings.Utf16Length | src/validators/user.validator.ts:6 | the JavaScript `.length` Joi's length rules compare: at least the number of characters and at most twice it |
| Strings.Utf16LengthInBmp | src/validators/user.validator.ts:6 | for text inside the Basic Multilingual Plane the JavaScript length is the number of characters |
| Strings.NatToString | src/utils/healthCheck.ts:57 | a number prints as decimal digits without a leading zero |
| Strings.DigitsValueOfNatToString | src/microservices/email.microservice.ts:48 | reading the printed digits back gives the number |
| Strings.NatToStringLength | src/microservices/email.microservice.ts:48 | a number between 10^(k-1) and 10^k prints with exactly k digits |
| Scaffold.PascalCase | src/scripts/generate-api.ts:14 | the class name keeps the route name's length |
| Scaffold.CamelCase | src/scripts/generate-api.ts:15 | the camel-case name keeps the route name's length |
| Scaffold.KebabCase | src/scripts/generate-api.ts:16 | the file stem keeps the route name's length |
| Scaffold.CamelIsKebab | src/scripts/generate-api.ts:15-16 | the "camelCase" name is the whole route name lower-cased, identical to the file stem |
| Scaffold.PascalLowersToKebab | src/scripts/generate-api.ts:14-16 | the class name and the file stem differ only in letter case: the first character upper-cased, the rest equal to the stem |
| Scaffold.CaseConversionsIdempotent | src/scripts/generate-api.ts:14-16 | deriving the class name or the stem again from a derived one changes nothing |
| Scaffold.SkipSpaces | src/scripts/generate-api.ts:234 | `\s*` stops at the first character that is not whitespace |
| Scaffold.NextClose | src/scripts/generate-api.ts:234 | `[^}]*}` ends at the first '}' |
| Scaffold.BlockAt | src/scripts/generate-api.ts:234 | a match starting at an index begins with "export", has its captured list inside, and ends at a '}' with no '}' in the list |
| Scaffold.FirstBlock | src/scripts/generate-api.ts:234-237 | the block found is a match with no match starting before it, and no block is found exactly when no index starts a match: the leftmost match the regex finds (the same code appears again at lines 269-272) |
| Scaffold.WithImport | src/scripts/generate-api.ts:226-231 | afterwards the content contains the import line; it is unchanged when it already contained the line anywhere, and otherwise gets the line and a newline in front (the same code appears again at lines 261-266) |
| Scaffold.AppendedBlock | src/scripts/generate-api.ts:243-246 | content without an export block gets one appended, which becomes the first block and lists the new names (the same code appears again at lines 278-281) |
| Scaffold.ReplacedBlock | src/scripts/generate-api.ts:237-242 | after the rewrite the first block still starts where the old one did, and its list contains the new names |
| Scaffold.RewrittenList | src/scripts/generate-api.ts:239 | when the old list is not blank, the new first list is the trimmed old list, the separator, the new names and a space (the same code appears again at line 274) |
| Scaffold.ImportSurvivesRewrite | src/scripts/generate-api.ts:229-242 | the import line put in front is not touched by the rewrite of the export block |
| Scaffold.InjectRegisters | src/scripts/generate-api.ts:218-251 | after an update the content contains the import line and its first export list mentions the class name, whatever it held before |
| Scaffold.InjectIdempotent | src/scripts/generate-api.ts:229-238 | a second update with the same class changes nothing (the same code appears again at lines 264-273) |
| Scaffold.UpdateIndexFileRegisters | src/scripts/generate-api.ts:218-251 | `updateIndexFile` leaves the import line present and the class in the first export list, and a rerun changes nothing |
| Scaffold.ModelNamesList | src/scripts/generate-api.ts:261-274 | "C, IC" is a usable export list that mentions the class |
| Scaffold.UpdateModelIndexFileRegisters | src/scripts/generate-api.ts:253-286 | the corrected `updateModelIndexFile` leaves the import line present and the class in the first export list, and a rerun changes nothing |
| Scaffold.ModelListAsWritten | src/scripts/generate-api.ts:274 | as written, the old list's last name and the new class share one comma-separated field, so two names are added as one field |
| Scaffold.ModelListCorrected | src/scripts/generate-api.ts:274 | with the comma, the new list's fields are the old ones followed by one field for the class and one for its interface |
| Scaffold.ExampleImported | src/scripts/generate-api.ts:261-266 | registering "Post" in a barrel exporting "User, IUser" puts `import { Post, IPost } from "./post.model";` and a newline in front |
| Scaffold.ModelIndexAsWrittenExample | src/scripts/generate-api.ts:272-277 | as written, that barrel's list becomes "User, IUser Post, IPost", with no comma between "IUser" and "Post" |
| Scaffold.ModelIndexExample | src/scripts/generate-api.ts:272-277 | with the comma, the list becomes "User, IUser, Post, IPost" |
| ApiScripts.FirstNonFlag | src/scripts/remove-api.ts:7 | the search stops at the first argument not starting with "--", having passed only flags, or at the end when every argument is a flag |
| ApiScripts.RemoverRouteIsFirstNonFlag | src/scripts/remove-api.ts:7-12 | `remove-api` has a route name exactly when some argument is not a flag and the first such argument is not empty, and the name is never a flag |
| ApiScripts.RoutesAgree | src/scripts/generate-api.ts:5-11 | when the first argument is not a flag, both scripts read the same route name |
| ApiScripts.FlagFirstDisagrees | src/scripts/generate-api.ts:6 | with "--yes post", `generate-api` takes "--yes" as the route name while `remove-api` takes "post" |
| ApiScripts.ConfirmedAnswers | src/scripts/remove-api.ts:36 | the answers that confirm are exactly "y" and "yes" in any mix of letter case |
| ApiScripts.ScriptsShareTargets | src/scripts/remove-api.ts:17-25 | for a route name given first, `remove-api` targets the same seven files as `generate-api`, in the same order |
| ApiScripts.SamePaths | src/scripts/generate-api.ts:289-297 | for the same stem the two scripts build the same seven paths |
| ApiScripts.DirInitialsDiffer | src/scripts/generate-api.ts:20-28 | no two target directories begin with the same two letters |
| ApiScripts.PathsDiffer | src/scripts/generate-api.ts:289-297 | two paths under the same base differ when their directories differ or their file names differ in length |
| ApiScripts.TargetPathsDistinct | src/scripts/generate-api.ts:289-297 | the seven target paths are pairwise distinct, none of them is a barrel, and the barrels are pairwise distinct |
| ApiScripts.StepFor | src/scripts/generate-api.ts:311-343 | each write goes to the path of its slot |
| ApiScripts.StepsFollowSlots | src/scripts/generate-api.ts:311-343 | the script's writes are the writes of its slots, in the script's order |
| ApiScripts.SlotRanks | src/scripts/generate-api.ts:311-343 | no slot is written twice |
| ApiScripts.SlotListed | src/scripts/generate-api.ts:311-343 | every target file but the types file, and every one of the five barrels, is written |
| ApiScripts.SlotWritten | src/scripts/generate-api.ts:311-343 | every written slot is one of those |
| ApiScripts.SlotPathsDistinct | src/scripts/generate-api.ts:289-343 | different slots are different files |
| ApiScripts.GenerationSlotOutcome | src/scripts/generate-api.ts:311-343 | each written file ends up as its write's effect on what was there before the script ran |
| ApiScripts.GenerationElsewhere | src/scripts/generate-api.ts:311-343 | every file the script does not write is unchanged |
| ApiScripts.GenerationWritesTemplate | src/scripts/generate-api.ts:312-338 | each target file but the types file holds its rendered template afterwards |
| ApiScripts.GenerationSkipsTypes | src/scripts/generate-api.ts:290-343 | the types file is checked by the guard but never written, so it is as it was |
| ApiScripts.CasedNames | src/scripts/generate-api.ts:14-16 | a usable route name gives a usable class name and a brace-free stem |
| ApiScripts.BarrelUpdateRegisters | src/scripts/generate-api.ts:313-343 | whatever a barrel held before, its update imports the class from the new module and lists it in the first export block |
| ApiScripts.GenerationRegisters | src/scripts/generate-api.ts:313-343 | after `generate-api`, each of the five barrels imports the new class from the new file and lists it in its first export block |
| ApiScripts.ExistingAmong | src/scripts/generate-api.ts:300 | the guard lists exactly the targets whose file exists |
| ApiScripts.GuardPasses | src/scripts/generate-api.ts:300-308 | the guard lets the script through exactly when none of the seven target files exists |
| ApiScripts.RemovedExactly | src/scripts/remove-api.ts:37-44 | deleting the paths removes exactly those files and leaves every other file as it was |
| ApiScripts.RemovalLogDistinct | src/scripts/remove-api.ts:37-44 | for distinct paths, the report has one line per path: "Deleted" when the file existed, "Skipped" otherwise |
| ApiScripts.RemovalReport | src/scripts/remove-api.ts:37-44 | `remove-api` reports exactly one line for each of the seven target files, in order |
| ApiScripts.GenerateThenRemoveRestores | src/scripts/remove-api.ts:37-44 | `remove-api` after a successful `generate-api` for the same route restores every file but the five barrels |
| ApiScripts.GenerateThenRemoveReport | src/scripts/remove-api.ts:37-44 | that report deletes the six generated files and skips the types file |
| ApiScripts.BarrelNotTarget | src/scripts/remove-api.ts:17-25 | no barrel is among the files `remove-api` deletes |
| ApiScripts.RemoveKeepsRegistrations | src/scripts/remove-api.ts:17-44 | after `remove-api`, the barrels still import and export the classes of the deleted files |
| ApiScripts.Workspace.constructor | src/scripts/generate-api.ts:1-2 | the workspace starts with the given files |
| ApiScripts.Workspace.WriteFile | src/scripts/generate-api.ts:312 | `writeFileSync` sets that one path's content and changes nothing else |
| ApiScripts.Workspace.UpdateIndexFileAt | src/scripts/generate-api.ts:218-251 | the barrel becomes the update of its old content, or of "" when it did not exist; no other file changes |
| ApiScripts.Workspace.UpdateModelIndexFileAt | src/scripts/generate-api.ts:253-286 | the same for the model barrel, with the corrected separator |
| ApiScripts.Workspace.Perform | src/scripts/generate-api.ts:311-343 | one write of the script: the files become `Apply` of the old files and that write |
| ApiScripts.Workspace.Generate | src/scripts/generate-api.ts:5-343 | a missing route name or an existing target file changes nothing and is reported; otherwise the files become the script's writes applied in order to the old files |
| ApiScripts.Workspace.DeleteEach | src/scripts/remove-api.ts:37-44 | deletes exactly the paths that exist and reports each path in turn |
| ApiScripts.Workspace.Remove | src/scripts/remove-api.ts:5-51 | no route name or an unconfirmed answer changes nothing; a confirmed answer deletes whichever target files exist and returns the report |

## Left out

- Sending e-mail (`EmailService.sendVerificationEmail`, src/microservices/email.microservice.ts:5-24) is I/O. The model stores the code and leaves the message out.
- Token verification and signing are parameters: Firebase ID tokens, Google and Apple ID tokens, and JWT access tokens. The model does not check signatures, expiry or claims, and does not model the JWT format.
- Cloudinary upload and deletion are parameters that return an outcome. The model records which uploads and deletions happen; network failures become errors of those parameters.
- UserService.ProfileUpdate, UserService.ProfileWrite, UserService.EditProfile, UserService.CompleteProfile: the profile data is restricted to the keys of its declared types `CompleteProfileData` and `EditProfileData` (src/types/user.types.ts:6-20), plus the skipped `avatarLocalFile`. The types are not checked at run time, and no route in the repository calls these two operations. Other keys are not modelled. Mongoose would cast them onto the schema, e.g. `isEmailVerified: "true"` or a dotted `providers.google.id`.
- `UserService.getUserProfile` (src/services/user.service.ts:146-154) is not modelled.
- Some 500 "Internal server error" branches are left out: the ones after `findOneAndUpdate` and `findByIdAndUpdate`. Those calls target a user that was just found, in a model without concurrency, so the branches cannot be reached.
- The Google sign-in's `avatar: payload.picture` on a new user is not stored. It assigns a string to the nested `avatar` object, and its effect depends on Mongoose casting.
- UserModel.FindOne: a `findOne` without a sort returns documents in MongoDB's natural order, which the server does not specify. The model scans in insertion order, and an updated document keeps its place. The choice only matters when two users match, as the Google and Apple `$or` lookups can (`AuthService.GoogleResultIsFirstMatch`, `AuthService.AppleResultIsFirstMatch`).
- Timestamps (`createdAt`, `updatedAt`) and `__v` of stored documents are left out.
- Concurrency is left out: two requests interleaving between a `findOne` and a write. So is the timing of MongoDB's TTL sweeper; the sweep is a function of the current time.
- Console output, `process.exit`, directory creation and the readline prompt are I/O. The prompt's answer is a parameter.
- The contents of the seven templates are a parameter, because their text only depends on the names.
- `path.join` is modelled as joining segments with '/'. This holds for segments without separators, `.` or `..`.
- Case conversion (`toLowerCase`, `toUpperCase`) covers ASCII letters only.
- The scripts' `try`/`catch` around the writes is left out; writes are modelled as always succeeding.
- ApiScripts.Workspace.Generate: the model barrel is updated with the corrected separator (see Findings), not as written.
- ApiScripts.Workspace.UpdateModelIndexFileAt: uses the corrected separator, not the bare space of the source.
- Scaffold.UpdateModelIndexFileRegisters: states registration for the corrected updater. The as-written updater is covered by `Scaffold.ModelListAsWritten` and `Scaffold.ModelIndexAsWrittenExample`.
- Joi's `.email()` grammar is the parameter `isEmail`.
- Joi's `details` and every option besides the first error (`abortEarly`) are left out.
- Validation.Validate: takes the object schema of a validator's `body` key. How a route hands the validator files' `{ body }` and `{ params }` wrappers to `validate` is not part of this model, and neither is the `register` schema those routes name.
- ErrorHandler.Normalize: the `errors` array of the ApiError it builds is not modelled. The console message and the file clean-up are reduced to a flag.
- `getMemoryUsage`, `getSystemInfo`, the process id, the Node version and `detailed`'s CPU figures are environment readings, so they are not modelled. The report carries `detailed` as an opaque value.
- `connectDB`'s connection attempt and its exit on failure are I/O. Only the connection string is modelled.
- Upload.StoredName: the result of `uuidv4()` is a parameter; the storage engine writing the file to disk is I/O and not modelled.
- `ApiError` itself (src/utils/ApiError.ts) is not part of this model; it is taken to carry a status code and a message.

## Findings

| source | as written | input that shows it | evidently intended | confidence | as-written member | corrected member |
|---|---|---|---|---|---|---|
| src/scripts/generate-api.ts:274 | `updateModelIndexFile` joins the trimmed old export list and the new names with a bare space | a barrel holding `export { User, IUser }`, then `generate-api Post` | a comma between the old list and the new names, as `updateIndexFile` does at line 239: `export { User, IUser, Post, IPost }` | not executed | Scaffold.ModelIndexAsWrittenExample | Scaffold.ModelIndexExample |
