/**
  The request validators and the `validate` middleware. A validator is a Joi
  object schema; `validate(schema)` checks `req.body` against it and throws
  an ApiError with status 500 carrying Joi's first error message. Joi's checks
  are modelled in the order Joi applies them with `abortEarly`: for a key,
  presence, then the string type, then emptiness, then the rules in the order
  they were declared; for an object, its declared keys in order, then the
  first key it does not declare. Joi's `.email()` grammar is the parameter
  `isEmail`.
*/
module Validation {
  import opened Common
  import opened Strings
  import EmailVerification

  /** A parsed JSON value; an object's fields are in body order with distinct keys. */
  datatype Json =
    | JStr(s: string)
    | JNum(n: int)
    | JBool(b: bool)
    | JNull
    | JArr(items: seq<Json>)
    | JObj(fields: seq<(string, Json)>)

  /** The string rules the validators use. `WordPattern` is `/^[a-zA-Z0-9_]+$/`. */
  datatype StrRule = Min(n: nat) | Max(n: nat) | Length(n: nat) | WordPattern | Email

  /** A key of an object schema: a string, anything, or a nested object. */
  datatype Spec =
    | Text(key: string, required: bool, rules: seq<StrRule>)
    | Anything(key: string)
    | Nested(key: string, required: bool, children: seq<Spec>)

  /** The custom message every username rule gives for `string.pattern.base`. */
  const PATTERN_MESSAGE := "Username can only contain letters, numbers, and underscores"

  predicate IsWordChar(c: char) {
    ('a' <= c <= 'z') || ('A' <= c <= 'Z') || ('0' <= c <= '9') || c == '_'
  }

  /** `/^[a-zA-Z0-9_]+$/.test(s)`. */
  predicate IsWord(s: string) {
    |s| > 0 && forall i :: 0 <= i < |s| ==> IsWordChar(s[i])
  }

  /** How Joi names a value in a message: its path in double quotes, "value" for the body itself. */
  function Quote(path: string): string {
    "\"" + (if path == "" then "value" else path) + "\""
  }

  function ChildLabel(parent: string, key: string): string {
    if parent == "" then key else parent + "." + key
  }

  function RuleError(path: string, rule: StrRule, s: string, isEmail: string -> bool): (e: Option<string>)
    ensures e.None? <==> match rule {
      case Min(n) => Utf16Length(s) >= n
      case Max(n) => Utf16Length(s) <= n
      case Length(n) => Utf16Length(s) == n
      case WordPattern => IsWord(s)
      case Email => isEmail(s)
    }
  {
    match rule
    case Min(n) =>
      if Utf16Length(s) < n then Some(Quote(path) + " length must be at least " + NatToString(n) + " characters long") else None
    case Max(n) =>
      if Utf16Length(s) > n then Some(Quote(path) + " length must be less than or equal to " + NatToString(n) + " characters long") else None
    case Length(n) =>
      if Utf16Length(s) != n then Some(Quote(path) + " length must be " + NatToString(n) + " characters long") else None
    case WordPattern =>
      if !IsWord(s) then Some(PATTERN_MESSAGE) else None
    case Email =>
      if !isEmail(s) then Some(Quote(path) + " must be a valid email") else None
  }

  /** The message of the first rule that fails, in declaration order. */
  function FirstRuleError(path: string, rules: seq<StrRule>, s: string, isEmail: string -> bool): (e: Option<string>)
    ensures e.None? <==> forall i :: 0 <= i < |rules| ==> RuleError(path, rules[i], s, isEmail).None?
    ensures e.Some? ==> exists i :: 0 <= i < |rules| && e == RuleError(path, rules[i], s, isEmail)
  {
    if |rules| == 0 then None
    else
      match RuleError(path, rules[0], s, isEmail)
      case Some(m) => Some(m)
      case None =>
        var rest := FirstRuleError(path, rules[1..], s, isEmail);
        assert forall i :: 1 <= i < |rules| ==> rules[i] == rules[1..][i - 1];
        rest
  }

  /** `Joi.string()` with its rules, applied to a present value. */
  function StringError(path: string, v: Json, rules: seq<StrRule>, isEmail: string -> bool): (e: Option<string>)
    ensures e.None? <==> v.JStr? && v.s != "" && forall i :: 0 <= i < |rules| ==> RuleError(path, rules[i], v.s, isEmail).None?
  {
    if !v.JStr? then Some(Quote(path) + " must be a string")
    else if v.s == "" then Some(Quote(path) + " is not allowed to be empty")
    else FirstRuleError(path, rules, v.s, isEmail)
  }

  /** The value under `key`, if the object has one. */
  function Get(fields: seq<(string, Json)>, key: string): (v: Option<Json>)
    ensures v.None? <==> forall i :: 0 <= i < |fields| ==> fields[i].0 != key
    ensures v.Some? ==> exists i :: 0 <= i < |fields| && fields[i] == (key, v.value)
  {
    if |fields| == 0 then None
    else if fields[0].0 == key then Some(fields[0].1)
    else
      var rest := Get(fields[1..], key);
      assert forall i :: 1 <= i < |fields| ==> fields[i] == fields[1..][i - 1];
      rest
  }

  /** The keys a list of specs declares. */
  function KeysOf(specs: seq<Spec>): (keys: set<string>)
    ensures forall i :: 0 <= i < |specs| ==> specs[i].key in keys
    ensures forall k :: k in keys ==> exists i :: 0 <= i < |specs| && specs[i].key == k
  {
    set i | 0 <= i < |specs| :: specs[i].key
  }

  /** The first field, in body order, that the schema does not declare: `"<path>" is not allowed`. */
  function UnknownKeyError(path: string, fields: seq<(string, Json)>, keys: set<string>): (e: Option<string>)
    ensures e.None? <==> forall i :: 0 <= i < |fields| ==> fields[i].0 in keys
  {
    if |fields| == 0 then None
    else if fields[0].0 !in keys then Some(Quote(ChildLabel(path, fields[0].0)) + " is not allowed")
    else
      var rest := UnknownKeyError(path, fields[1..], keys);
      assert forall i :: 1 <= i < |fields| ==> fields[i] == fields[1..][i - 1];
      rest
  }

  /** Joi's first error for the value `v` (None when the key is absent) checked against `spec`, labelled `path`. */
  function SpecError(path: string, v: Option<Json>, spec: Spec, isEmail: string -> bool): Option<string>
    decreases spec, 1
  {
    match v
    case None =>
      if (spec.Text? || spec.Nested?) && spec.required then Some(Quote(path) + " is required") else None
    case Some(j) =>
      match spec
      case Text(_, _, rules) => StringError(path, j, rules, isEmail)
      case Anything(_) => None
      case Nested(_, _, children) =>
        if !j.JObj? then Some(Quote(path) + " must be of type object")
        else
          match ChildrenError(path, j.fields, spec, 0, isEmail)
          case Some(m) => Some(m)
          case None => UnknownKeyError(path, j.fields, KeysOf(children))
  }

  /** The first error among the declared keys from the `i`-th on, in declaration order. */
  function ChildrenError(path: string, fields: seq<(string, Json)>, spec: Spec, i: nat, isEmail: string -> bool): (e: Option<string>)
    requires spec.Nested? && i <= |spec.children|
    ensures e.None? <==> forall j :: i <= j < |spec.children| ==>
              SpecError(ChildLabel(path, spec.children[j].key), Get(fields, spec.children[j].key), spec.children[j], isEmail).None?
    decreases spec, 0, |spec.children| - i
  {
    if i == |spec.children| then None
    else
      var child := spec.children[i];
      match SpecError(ChildLabel(path, child.key), Get(fields, child.key), child, isEmail)
      case Some(m) => Some(m)
      case None => ChildrenError(path, fields, spec, i + 1, isEmail)
  }

  /** Joi's first error for a request body, or None when it is valid. */
  function BodyError(schema: Spec, body: Json, isEmail: string -> bool): Option<string> {
    SpecError("", Some(body), schema, isEmail)
  }

  predicate Accepts(schema: Spec, body: Json, isEmail: string -> bool) {
    BodyError(schema, body, isEmail).None?
  }

  /** The declared key `c` checks out among the `fields` of the object at `path`. */
  predicate FieldOk(path: string, fields: seq<(string, Json)>, c: Spec, isEmail: string -> bool) {
    SpecError(ChildLabel(path, c.key), Get(fields, c.key), c, isEmail).None?
  }

  /** Every field of the object is one of `keys`. */
  predicate Declared(fields: seq<(string, Json)>, keys: set<string>) {
    forall i :: 0 <= i < |fields| ==> fields[i].0 in keys
  }

  /** A present object is valid exactly when every declared key checks out and every field is declared. */
  lemma ObjectOk(path: string, key: string, required: bool, children: seq<Spec>, fields: seq<(string, Json)>, isEmail: string -> bool)
    ensures SpecError(path, Some(JObj(fields)), Nested(key, required, children), isEmail).None? <==>
              && (forall j :: 0 <= j < |children| ==> FieldOk(path, fields, children[j], isEmail))
              && Declared(fields, KeysOf(children))
  {
    var c := ChildrenError(path, fields, Nested(key, required, children), 0, isEmail);
  }

  lemma ObjectOk1(path: string, key: string, required: bool, a: Spec, fields: seq<(string, Json)>, isEmail: string -> bool)
    ensures SpecError(path, Some(JObj(fields)), Nested(key, required, [a]), isEmail).None? <==>
              FieldOk(path, fields, a, isEmail) && Declared(fields, {a.key})
  {
    ObjectOk(path, key, required, [a], fields, isEmail);
    assert KeysOf([a]) == {a.key};
  }

  lemma ObjectOk2(path: string, key: string, required: bool, a: Spec, b: Spec, fields: seq<(string, Json)>, isEmail: string -> bool)
    ensures SpecError(path, Some(JObj(fields)), Nested(key, required, [a, b]), isEmail).None? <==>
              FieldOk(path, fields, a, isEmail) && FieldOk(path, fields, b, isEmail) && Declared(fields, {a.key, b.key})
  {
    ObjectOk(path, key, required, [a, b], fields, isEmail);
    KeysOfTwo(a, b);
    ChildrenOkTwo(path, fields, a, b, isEmail);
  }

  lemma KeysOfTwo(a: Spec, b: Spec)
    ensures KeysOf([a, b]) == {a.key, b.key}
  {
    var cs := [a, b];
    forall k | k in KeysOf(cs) ensures k == a.key || k == b.key {
      var i :| 0 <= i < 2 && cs[i].key == k;
    }
    assert cs[0] == a && cs[1] == b;
  }

  lemma ChildrenOkTwo(path: string, fields: seq<(string, Json)>, a: Spec, b: Spec, isEmail: string -> bool)
    ensures (forall j :: 0 <= j < 2 ==> FieldOk(path, fields, [a, b][j], isEmail)) <==>
              FieldOk(path, fields, a, isEmail) && FieldOk(path, fields, b, isEmail)
  {
    var cs := [a, b];
    assert cs[0] == a && cs[1] == b;
  }

  lemma ObjectOk3(path: string, key: string, required: bool, a: Spec, b: Spec, c: Spec, fields: seq<(string, Json)>, isEmail: string -> bool)
    ensures SpecError(path, Some(JObj(fields)), Nested(key, required, [a, b, c]), isEmail).None? <==>
              && FieldOk(path, fields, a, isEmail) && FieldOk(path, fields, b, isEmail) && FieldOk(path, fields, c, isEmail)
              && Declared(fields, {a.key, b.key, c.key})
  {
    ObjectOk(path, key, required, [a, b, c], fields, isEmail);
    KeysOfThree(a, b, c);
    ChildrenOkThree(path, fields, a, b, c, isEmail);
  }

  lemma KeysOfThree(a: Spec, b: Spec, c: Spec)
    ensures KeysOf([a, b, c]) == {a.key, b.key, c.key}
  {
    var cs := [a, b, c];
    forall k | k in KeysOf(cs) ensures k == a.key || k == b.key || k == c.key {
      var i :| 0 <= i < 3 && cs[i].key == k;
    }
    assert cs[0] == a && cs[1] == b && cs[2] == c;
  }

  lemma ChildrenOkThree(path: string, fields: seq<(string, Json)>, a: Spec, b: Spec, c: Spec, isEmail: string -> bool)
    ensures (forall j :: 0 <= j < 3 ==> FieldOk(path, fields, [a, b, c][j], isEmail)) <==>
              FieldOk(path, fields, a, isEmail) && FieldOk(path, fields, b, isEmail) && FieldOk(path, fields, c, isEmail)
  {
    var cs := [a, b, c];
    assert cs[0] == a && cs[1] == b && cs[2] == c;
  }

  /** A string with no rules, or with one, is valid when non-empty and the rule holds. */
  lemma FewRules(path: string, s: string, rule: StrRule, isEmail: string -> bool)
    ensures StringError(path, JStr(s), [], isEmail).None? <==> s != ""
    ensures StringError(path, JStr(s), [rule], isEmail).None? <==> s != "" && RuleError(path, rule, s, isEmail).None?
  {
    if s != "" && RuleError(path, rule, s, isEmail).None? {
      forall i | 0 <= i < 1 ensures RuleError(path, [rule][i], s, isEmail).None? {
      }
    }
  }

  // The validators.

  const NAME_RULES := [Min(2), Max(50)]
  const USERNAME_RULES := [Min(3), Max(30), WordPattern]

  const NAME_REQUIRED := Text("name", true, NAME_RULES)
  const NAME_OPTIONAL := Text("name", false, NAME_RULES)
  const USERNAME_REQUIRED := Text("username", true, USERNAME_RULES)
  const USERNAME_OPTIONAL := Text("username", false, USERNAME_RULES)
  const AVATAR := Anything("avatar")

  const COMPLETE_PROFILE := Nested("", false, [NAME_REQUIRED, USERNAME_REQUIRED, AVATAR])
  const EDIT_PROFILE := Nested("", false, [NAME_OPTIONAL, USERNAME_OPTIONAL, AVATAR])
  const CHECK_USERNAME := Nested("", false, [USERNAME_REQUIRED])

  const EMAIL := Text("email", true, [Email])
  const CODE := Text("code", true, [Length(6)])
  const EMAIL_VERIFICATION := Nested("", false, [EMAIL, CODE])
  const SEND_VERIFICATION := Nested("", false, [EMAIL])
  const GOOGLE_OAUTH := Nested("", false, [Text("idToken", true, [])])
  const APPLE_NAME := Nested("name", false, [Text("firstName", false, []), Text("lastName", false, [])])
  const APPLE_USER := Nested("user", false, [APPLE_NAME])
  const APPLE_OAUTH := Nested("", false, [Text("idToken", true, []), APPLE_USER])
  const REFRESH_TOKENS := Nested("", false, [Text("refreshToken", true, [])])

  /** What the username rule admits: 3 to 30 characters, each a letter, digit or underscore. */
  predicate UsernameOk(s: string) {
    3 <= |s| <= 30 && IsWord(s)
  }

  /** What the name rule admits: 2 to 50 UTF-16 code units of any kind. */
  predicate NameOk(s: string) {
    2 <= Utf16Length(s) <= 50
  }

  /** Word characters are ASCII, so a word lies in the Basic Multilingual Plane. */
  lemma WordInBmp(s: string)
    requires IsWord(s)
    ensures InBmp(s)
  {
  }

  lemma UsernameRules(path: string, s: string, isEmail: string -> bool)
    ensures StringError(path, JStr(s), USERNAME_RULES, isEmail).None? <==> UsernameOk(s)
  {
    var r := USERNAME_RULES;
    assert r[0] == Min(3) && r[1] == Max(30) && r[2] == WordPattern;
    if UsernameOk(s) {
      WordInBmp(s);
      Utf16LengthInBmp(s);
      forall i | 0 <= i < |r| ensures RuleError(path, r[i], s, isEmail).None? {
      }
    } else if s != "" {
      if IsWord(s) {
        WordInBmp(s);
        Utf16LengthInBmp(s);
      }
      if Utf16Length(s) < 3 {
        assert RuleError(path, r[0], s, isEmail).Some?;
      } else if Utf16Length(s) > 30 {
        assert RuleError(path, r[1], s, isEmail).Some?;
      } else {
        assert RuleError(path, r[2], s, isEmail).Some?;
      }
    }
  }

  lemma NameRules(path: string, s: string, isEmail: string -> bool)
    ensures StringError(path, JStr(s), NAME_RULES, isEmail).None? <==> NameOk(s)
  {
    var r := NAME_RULES;
    assert r[0] == Min(2) && r[1] == Max(50);
    if NameOk(s) {
      forall i | 0 <= i < |r| ensures RuleError(path, r[i], s, isEmail).None? {
      }
    } else if s != "" {
      if Utf16Length(s) < 2 {
        assert RuleError(path, r[0], s, isEmail).Some?;
      } else {
        assert RuleError(path, r[1], s, isEmail).Some?;
      }
    }
  }

  /** `checkUsername`: a username is accepted exactly when it has 3 to 30 word characters. */
  lemma CheckUsernameIff(s: string, isEmail: string -> bool)
    ensures Accepts(CHECK_USERNAME, JObj([("username", JStr(s))]), isEmail) <==> UsernameOk(s)
  {
    var fields := [("username", JStr(s))];
    ObjectOk1("", "", false, USERNAME_REQUIRED, fields, isEmail);
    assert Get(fields, "username") == Some(JStr(s));
    UsernameRules("username", s, isEmail);
  }

  /** `editProfile`: a lone name is accepted exactly when it has 2 to 50 characters. */
  lemma EditProfileNameIff(s: string, isEmail: string -> bool)
    ensures Accepts(EDIT_PROFILE, JObj([("name", JStr(s))]), isEmail) <==> NameOk(s)
  {
    var fields := [("name", JStr(s))];
    ObjectOk3("", "", false, NAME_OPTIONAL, USERNAME_OPTIONAL, AVATAR, fields, isEmail);
    assert "name" != "username" && "name" != "avatar";
    assert Get(fields, "name") == Some(JStr(s));
    assert Get(fields, "username").None? && Get(fields, "avatar").None?;
    NameRules("name", s, isEmail);
  }

  /** `editProfile` accepts an empty body: every key is optional. */
  lemma EditProfileAcceptsEmpty(isEmail: string -> bool)
    ensures Accepts(EDIT_PROFILE, JObj([]), isEmail)
  {
    ObjectOk3("", "", false, NAME_OPTIONAL, USERNAME_OPTIONAL, AVATAR, [], isEmail);
  }

  /** `avatar` accepts any value at all. */
  lemma AvatarAcceptsAnything(v: Json, isEmail: string -> bool)
    ensures Accepts(EDIT_PROFILE, JObj([("avatar", v)]), isEmail)
  {
    var fields := [("avatar", v)];
    ObjectOk3("", "", false, NAME_OPTIONAL, USERNAME_OPTIONAL, AVATAR, fields, isEmail);
    assert "avatar" != "name" && "avatar" != "username";
    assert Get(fields, "name").None? && Get(fields, "username").None?;
  }

  /** `completeProfile` requires both a name and a username. */
  lemma CompleteProfileRequiresBoth(fields: seq<(string, Json)>, isEmail: string -> bool)
    requires Accepts(COMPLETE_PROFILE, JObj(fields), isEmail)
    ensures Get(fields, "name").Some? && Get(fields, "username").Some?
  {
    ObjectOk3("", "", false, NAME_REQUIRED, USERNAME_REQUIRED, AVATAR, fields, isEmail);
  }

  /** `completeProfile` differs from `editProfile` only by making name and username required. */
  lemma CompleteProfileIsStricter(body: Json, isEmail: string -> bool)
    requires Accepts(COMPLETE_PROFILE, body, isEmail)
    ensures Accepts(EDIT_PROFILE, body, isEmail)
  {
    var fields := body.fields;
    ObjectOk3("", "", false, NAME_REQUIRED, USERNAME_REQUIRED, AVATAR, fields, isEmail);
    ObjectOk3("", "", false, NAME_OPTIONAL, USERNAME_OPTIONAL, AVATAR, fields, isEmail);
    assert FieldOk("", fields, NAME_OPTIONAL, isEmail) by {
      assert FieldOk("", fields, NAME_REQUIRED, isEmail);
    }
    assert FieldOk("", fields, USERNAME_OPTIONAL, isEmail) by {
      assert FieldOk("", fields, USERNAME_REQUIRED, isEmail);
    }
  }

  /** `completeProfile` with a name, a username and any avatar: valid exactly when both rules hold. */
  lemma CompleteProfileIff(name: string, username: string, avatar: Json, isEmail: string -> bool)
    ensures Accepts(COMPLETE_PROFILE, JObj([("name", JStr(name)), ("username", JStr(username)), ("avatar", avatar)]), isEmail)
            <==> NameOk(name) && UsernameOk(username)
  {
    var fields := [("name", JStr(name)), ("username", JStr(username)), ("avatar", avatar)];
    ObjectOk3("", "", false, NAME_REQUIRED, USERNAME_REQUIRED, AVATAR, fields, isEmail);
    ProfileFields(name, username, avatar);
    NameRules("name", name, isEmail);
    UsernameRules("username", username, isEmail);
  }

  /** The three fields of a `completeProfile` body, each found under its own key. */
  lemma ProfileFields(name: string, username: string, avatar: Json)
    ensures var fields := [("name", JStr(name)), ("username", JStr(username)), ("avatar", avatar)];
            && Get(fields, "name") == Some(JStr(name))
            && Get(fields, "username") == Some(JStr(username))
            && Declared(fields, {"name", "username", "avatar"})
  {
    assert "name" != "username" && "name" != "avatar" && "username" != "avatar";
  }

  /** A username the validator admits has no surrounding spaces, so the `trim` setter stores it unchanged. */
  lemma AdmittedUsernameStoredAsIs(s: string)
    requires UsernameOk(s)
    ensures Trim(s) == s
  {
    assert !IsSpace(s[0]) && !IsSpace(s[|s| - 1]);
  }

  /** A name the validator admits can still be stored shorter than two characters, since the length is checked before `trim`. */
  lemma AdmittedNameCanBeStoredShorter(isEmail: string -> bool)
    ensures Accepts(EDIT_PROFILE, JObj([("name", JStr("  a"))]), isEmail)
    ensures |Trim("  a")| == 1
  {
    EditProfileNameIff("  a", isEmail);
    assert LeadingSpaces("  a") == 2;
  }

  /** One character beyond the Basic Multilingual Plane is two code units long, so it passes the name's `min(2)`. */
  lemma AstralNameAdmitted(isEmail: string -> bool)
    ensures |"\U{1F600}"| == 1
    ensures Accepts(EDIT_PROFILE, JObj([("name", JStr("\U{1F600}"))]), isEmail)
  {
    var name := "\U{1F600}";
    assert name == ['\U{1F600}'];
    Utf16LengthAstral('\U{1F600}');
    EditProfileNameIff(name, isEmail);
  }

  /** A missing username is reported as required. */
  lemma MissingUsernameMessage(isEmail: string -> bool)
    ensures BodyError(CHECK_USERNAME, JObj([]), isEmail) == Some("\"username\" is required")
  {
    assert ChildLabel("", "username") == "username";
    assert Quote("username") + " is required" == "\"username\" is required";
    assert SpecError("username", Get([], "username"), USERNAME_REQUIRED, isEmail) == Some("\"username\" is required");
    assert ChildrenError("", [], CHECK_USERNAME, 0, isEmail) == Some("\"username\" is required");
  }

  /** A username of allowed length with a space gets the custom pattern message. */
  lemma PatternMessage(isEmail: string -> bool)
    ensures BodyError(CHECK_USERNAME, JObj([("username", JStr("a b"))]), isEmail) == Some(PATTERN_MESSAGE)
  {
    var bad := [("username", JStr("a b"))];
    assert ChildLabel("", "username") == "username";
    assert !IsWord("a b") by { assert !IsWordChar("a b"[1]); }
    assert USERNAME_RULES[1..][1..] == [WordPattern];
    assert FirstRuleError("username", [WordPattern], "a b", isEmail) == Some(PATTERN_MESSAGE);
    assert FirstRuleError("username", USERNAME_RULES[1..], "a b", isEmail) == Some(PATTERN_MESSAGE);
    assert StringError("username", JStr("a b"), USERNAME_RULES, isEmail) == Some(PATTERN_MESSAGE);
    assert Get(bad, "username") == Some(JStr("a b"));
    assert ChildrenError("", bad, CHECK_USERNAME, 0, isEmail) == Some(PATTERN_MESSAGE);
  }

  const SHORT_USERNAME_MESSAGE := "\"username\"" + " length must be at least " + "3" + " characters long"

  lemma ShortUsernameRule(isEmail: string -> bool)
    ensures RuleError("username", Min(3), "ab", isEmail) == Some(SHORT_USERNAME_MESSAGE)
  {
    assert NatToString(3) == "3";
    assert Quote("username") == "\"username\"";
  }

  /** A two-character username fails the first rule, the minimum length. */
  lemma ShortUsernameMessage(isEmail: string -> bool)
    ensures BodyError(CHECK_USERNAME, JObj([("username", JStr("ab"))]), isEmail) == Some(SHORT_USERNAME_MESSAGE)
  {
    var short := [("username", JStr("ab"))];
    ShortUsernameRule(isEmail);
    assert ChildLabel("", "username") == "username";
    assert StringError("username", JStr("ab"), USERNAME_RULES, isEmail) == Some(SHORT_USERNAME_MESSAGE);
    assert Get(short, "username") == Some(JStr("ab"));
    assert ChildrenError("", short, CHECK_USERNAME, 0, isEmail) == Some(SHORT_USERNAME_MESSAGE);
  }

  /** `emailVerification`: a non-empty email that is an email, and a code of exactly six characters. */
  lemma EmailVerificationIff(email: string, code: string, isEmail: string -> bool)
    ensures Accepts(EMAIL_VERIFICATION, JObj([("email", JStr(email)), ("code", JStr(code))]), isEmail)
            <==> email != "" && isEmail(email) && Utf16Length(code) == 6
  {
    var fields := [("email", JStr(email)), ("code", JStr(code))];
    ObjectOk2("", "", false, EMAIL, CODE, fields, isEmail);
    assert "email" != "code";
    assert Get(fields, "email") == Some(JStr(email));
    assert Get(fields, "code") == Some(JStr(code));
    assert Declared(fields, {"email", "code"});
    FewRules("email", email, Email, isEmail);
    FewRules("code", code, Length(6), isEmail);
  }

  /** Every code the service generates passes the verification request's code rule. */
  lemma GeneratedCodeAccepted(email: string, r: nat, isEmail: string -> bool)
    requires r < EmailVerification.CODE_RANGE
    requires email != "" && isEmail(email)
    ensures Accepts(EMAIL_VERIFICATION, JObj([("email", JStr(email)), ("code", JStr(EmailVerification.CodeFromChoice(r)))]), isEmail)
  {
    var code := EmailVerification.CodeFromChoice(r);
    EmailVerificationIff(email, code, isEmail);
    assert InBmp(code);
    Utf16LengthInBmp(code);
  }

  /** `sendVerification` takes only an email: adding a code is refused. */
  lemma SendVerificationOnlyEmail(email: string, code: string, isEmail: string -> bool)
    ensures Accepts(SEND_VERIFICATION, JObj([("email", JStr(email))]), isEmail) <==> email != "" && isEmail(email)
    ensures !Accepts(SEND_VERIFICATION, JObj([("email", JStr(email)), ("code", JStr(code))]), isEmail)
  {
    var one := [("email", JStr(email))];
    ObjectOk1("", "", false, EMAIL, one, isEmail);
    assert Get(one, "email") == Some(JStr(email));
    FewRules("email", email, Email, isEmail);
    var two := [("email", JStr(email)), ("code", JStr(code))];
    ObjectOk1("", "", false, EMAIL, two, isEmail);
    assert "code" != "email";
    assert two[1].0 !in {EMAIL.key};
  }

  /** `googleOAuth` and `refreshTokens`: one required non-empty string each. */
  lemma SingleTokenBodies(t: string, isEmail: string -> bool)
    ensures Accepts(GOOGLE_OAUTH, JObj([("idToken", JStr(t))]), isEmail) <==> t != ""
    ensures Accepts(REFRESH_TOKENS, JObj([("refreshToken", JStr(t))]), isEmail) <==> t != ""
    ensures !Accepts(GOOGLE_OAUTH, JObj([]), isEmail)
    ensures !Accepts(GOOGLE_OAUTH, JObj([("idToken", JNum(0))]), isEmail)
  {
    var id := Text("idToken", true, []);
    var refresh := Text("refreshToken", true, []);
    ObjectOk1("", "", false, id, [("idToken", JStr(t))], isEmail);
    ObjectOk1("", "", false, refresh, [("refreshToken", JStr(t))], isEmail);
    ObjectOk1("", "", false, id, [], isEmail);
    ObjectOk1("", "", false, id, [("idToken", JNum(0))], isEmail);
    assert Get([("idToken", JStr(t))], "idToken") == Some(JStr(t));
    assert Get([("refreshToken", JStr(t))], "refreshToken") == Some(JStr(t));
    assert Get([("idToken", JNum(0))], "idToken") == Some(JNum(0));
    FewRules("idToken", t, Email, isEmail);
    FewRules("refreshToken", t, Email, isEmail);
  }

  /** The `name` object itself: valid exactly when both names are non-empty strings. */
  lemma AppleNameObjectOk(first: string, last: string, isEmail: string -> bool)
    ensures SpecError("user.name", Some(JObj([("firstName", JStr(first)), ("lastName", JStr(last))])), APPLE_NAME, isEmail).None?
            <==> first != "" && last != ""
  {
    var nameFields := [("firstName", JStr(first)), ("lastName", JStr(last))];
    assert "firstName" != "lastName";
    ObjectOk2("user.name", "name", false, Text("firstName", false, []), Text("lastName", false, []), nameFields, isEmail);
    assert Get(nameFields, "firstName") == Some(JStr(first));
    assert Get(nameFields, "lastName") == Some(JStr(last));
    assert Declared(nameFields, {"firstName", "lastName"});
    FewRules("user.name.firstName", first, Email, isEmail);
    FewRules("user.name.lastName", last, Email, isEmail);
  }

  /** The `user.name` object of the Apple body: valid exactly when both names are non-empty strings. */
  lemma AppleNameOk(first: string, last: string, isEmail: string -> bool)
    ensures var nameFields := [("firstName", JStr(first)), ("lastName", JStr(last))];
            FieldOk("user", [("name", JObj(nameFields))], APPLE_NAME, isEmail) <==> first != "" && last != ""
  {
    var nameFields := [("firstName", JStr(first)), ("lastName", JStr(last))];
    var userFields := [("name", JObj(nameFields))];
    AppleNameObjectOk(first, last, isEmail);
    assert ChildLabel("user", "name") == "user.name";
    assert Get(userFields, "name") == Some(JObj(nameFields));
  }

  /** The `user` object of the Apple body holding a full name. */
  lemma AppleUserOk(first: string, last: string, isEmail: string -> bool)
    ensures var userFields := [("name", JObj([("firstName", JStr(first)), ("lastName", JStr(last))]))];
            var fields := [("idToken", JStr("")), ("user", JObj(userFields))];
            FieldOk("", fields, APPLE_USER, isEmail) <==> first != "" && last != ""
  {
    var userFields := [("name", JObj([("firstName", JStr(first)), ("lastName", JStr(last))]))];
    var fields := [("idToken", JStr("")), ("user", JObj(userFields))];
    AppleNameOk(first, last, isEmail);
    ObjectOk1("user", "user", false, APPLE_NAME, userFields, isEmail);
    assert Declared(userFields, {"name"});
    assert "idToken" != "user";
    assert Get(fields, "user") == Some(JObj(userFields));
  }

  /** `appleOAuth` with only a token: valid exactly when the token is non-empty. */
  lemma AppleOAuthTokenOnly(t: string, isEmail: string -> bool)
    ensures Accepts(APPLE_OAUTH, JObj([("idToken", JStr(t))]), isEmail) <==> t != ""
  {
    var id := Text("idToken", true, []);
    FewRules("idToken", t, Email, isEmail);
    assert "idToken" != "user";
    var one := [("idToken", JStr(t))];
    ObjectOk2("", "", false, id, APPLE_USER, one, isEmail);
    assert Get(one, "idToken") == Some(JStr(t));
    assert Get(one, "user").None?;
  }

  /** The `user` field of the Apple body is judged the same whatever the token beside it. */
  lemma AppleUserIgnoresToken(t: string, userFields: seq<(string, Json)>, isEmail: string -> bool)
    ensures FieldOk("", [("idToken", JStr(t)), ("user", JObj(userFields))], APPLE_USER, isEmail)
        == FieldOk("", [("idToken", JStr("")), ("user", JObj(userFields))], APPLE_USER, isEmail)
  {
    assert Get([("idToken", JStr(t)), ("user", JObj(userFields))], "user") == Some(JObj(userFields));
    assert Get([("idToken", JStr("")), ("user", JObj(userFields))], "user") == Some(JObj(userFields));
  }

  /** `appleOAuth` with a token and `user.name.{firstName, lastName}`: valid exactly when all three are non-empty. */
  lemma AppleOAuthWithName(t: string, first: string, last: string, isEmail: string -> bool)
    ensures Accepts(APPLE_OAUTH, JObj([("idToken", JStr(t)),
              ("user", JObj([("name", JObj([("firstName", JStr(first)), ("lastName", JStr(last))]))]))]), isEmail)
            <==> t != "" && first != "" && last != ""
  {
    var id := Text("idToken", true, []);
    FewRules("idToken", t, Email, isEmail);
    assert "idToken" != "user";
    var userFields := [("name", JObj([("firstName", JStr(first)), ("lastName", JStr(last))]))];
    var fields := [("idToken", JStr(t)), ("user", JObj(userFields))];
    AppleUserOk(first, last, isEmail);
    AppleUserIgnoresToken(t, userFields, isEmail);
    ObjectOk2("", "", false, id, APPLE_USER, fields, isEmail);
    assert Get(fields, "idToken") == Some(JStr(t));
    assert Declared(fields, {"idToken", "user"});
  }

  /** Any body field the schema does not declare makes the body invalid. */
  lemma UndeclaredKeyRefused(children: seq<Spec>, fields: seq<(string, Json)>, i: int, isEmail: string -> bool)
    requires 0 <= i < |fields|
    requires forall j :: 0 <= j < |children| ==> children[j].key != fields[i].0
    ensures !Accepts(Nested("", false, children), JObj(fields), isEmail)
  {
    ObjectOk("", "", false, children, fields, isEmail);
    assert fields[i].0 !in KeysOf(children);
  }

  // The middleware.

  /** The parts of a request a validator could look at. */
  datatype Request = Request(body: Json, params: Json, query: Json)

  /** `validate(schema)` on one request: None when `next()` is called, otherwise the ApiError it throws. */
  function Validate(schema: Spec, req: Request, isEmail: string -> bool): (r: Option<ApiError>)
    ensures r.None? <==> Accepts(schema, req.body, isEmail)
    ensures r.Some? ==> r.value.statusCode == INTERNAL_SERVER_ERROR
    ensures r.Some? ==> Some(r.value.message) == BodyError(schema, req.body, isEmail)
  {
    match BodyError(schema, req.body, isEmail)
    case Some(message) => Some(ApiError(INTERNAL_SERVER_ERROR, message))
    case None => None
  }

  /** Only the body is validated: params and query never change the outcome. */
  lemma OnlyBodyValidated(schema: Spec, req: Request, params: Json, query: Json, isEmail: string -> bool)
    ensures Validate(schema, req.(params := params, query := query), isEmail) == Validate(schema, req, isEmail)
  {
  }

  /** An invalid username in the body is refused with status 500 and the pattern message unchanged. */
  lemma InvalidUsernameIs500(params: Json, query: Json, isEmail: string -> bool)
    ensures Validate(CHECK_USERNAME, Request(JObj([("username", JStr("a b"))]), params, query), isEmail)
            == Some(ApiError(500, PATTERN_MESSAGE))
  {
    PatternMessage(isEmail);
  }
}
