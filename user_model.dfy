/**
  The User collection: the record shape, the schema's setters and defaults,
  the unique indexes on `email` and (sparse) `username`, `findOne` in natural
  order, and `save` / `findByIdAndUpdate` with the storage layer's checks.
*/
module UserModel {
  import opened Common
  import opened Strings

  /** `_id`: the collection hands out a fresh one on every insert. */
  type UserId = nat

  datatype Avatar = Avatar(id: string, url: string)

  /** `providers.google` / `providers.apple`; `email` may be left unset by an update. */
  datatype ProviderLink = ProviderLink(id: string, email: Option<string>)

  datatype User = User(
    id: UserId,
    email: string,
    name: Option<string>,
    username: Option<string>,
    avatar: Option<Avatar>,
    isEmailVerified: bool,
    isProfileComplete: bool,
    google: Option<ProviderLink>,
    apple: Option<ProviderLink>)

  /** The `email` setters, in schema order: `lowercase`, then `trim`. */
  function NormEmail(e: string): (r: string)
    ensures IsLowerCase(r)
    ensures |r| <= |e|
  {
    ToLowerIsLowerCase(e);
    TrimOfLowerCase(ToLower(e));
    Trim(ToLower(e))
  }

  /** Applying the email setters to a stored email changes nothing. */
  lemma NormEmailIdempotent(e: string)
    ensures NormEmail(NormEmail(e)) == NormEmail(e)
  {
    var n := NormEmail(e);
    ToLowerOfLowerCase(n);
    TrimIdempotent(ToLower(e));
  }

  /** The `trim` setter of `name` and `username`, lifted to optional values. */
  function TrimOpt(s: Option<string>): (r: Option<string>)
    ensures r.Some? <==> s.Some?
    ensures r.Some? ==> r.value == Trim(s.value)
  {
    match s
    case None => None
    case Some(v) => Some(Trim(v))
  }

  /** What `new User(doc)` or an update stores: the schema's setters applied. */
  function Normalized(u: User): (r: User)
    ensures r.email == NormEmail(u.email)
    ensures r.name == TrimOpt(u.name) && r.username == TrimOpt(u.username)
    ensures r.(email := u.email, name := u.name, username := u.username) == u
  {
    u.(email := NormEmail(u.email), name := TrimOpt(u.name), username := TrimOpt(u.username))
  }

  /** A user as created with only an email: the schema defaults, nothing linked. */
  function Fresh(id: UserId, email: string): (u: User)
    ensures !u.isEmailVerified && !u.isProfileComplete
    ensures u.name.None? && u.username.None? && u.avatar.None?
    ensures u.google.None? && u.apple.None?
  {
    User(id, email, None, None, None, false, false, None, None)
  }

  /** A stored user satisfies the schema: required email, setters already applied. */
  predicate WellFormed(u: User) {
    && u.email != ""
    && NormEmail(u.email) == u.email
    && TrimOpt(u.name) == u.name
    && TrimOpt(u.username) == u.username
  }

  lemma NormalizedIsFixed(u: User)
    ensures Normalized(Normalized(u)) == Normalized(u)
  {
    NormEmailIdempotent(u.email);
    if u.name.Some? { TrimIdempotent(u.name.value); }
    if u.username.Some? { TrimIdempotent(u.username.value); }
  }

  /** Two users clash on the unique indexes: the same email, or the same username when both have one. */
  predicate Clash(u: User, v: User) {
    u.email == v.email || (u.username.Some? && u.username == v.username)
  }

  /** The collection in natural (insertion) order, with the id allocator. */
  datatype Db = Db(users: seq<User>, nextId: nat)

  /** The collection's invariants: schema-conformant records, distinct ids, unique email, sparse-unique username. */
  predicate Valid(db: Db) {
    && (forall i :: 0 <= i < |db.users| ==> db.users[i].id < db.nextId && WellFormed(db.users[i]))
    && (forall i, j :: 0 <= i < j < |db.users| ==> db.users[i].id != db.users[j].id && !Clash(db.users[i], db.users[j]))
  }

  /** A `findOne` filter over the fields the services query. */
  datatype Filter =
    | EmailIs(email: string)
    | GoogleIdIs(sub: string)
    | AppleIdIs(sub: string)
    | IdIs(id: UserId)
    | IdIsNot(id: UserId)
    | UsernameIs(username: string)
    | MatchesNothing
    | Or(left: Filter, right: Filter)
    | And(left: Filter, right: Filter)

  /** Whether a stored user satisfies a filter; filter values go through the same setters as stored values. */
  predicate Matches(u: User, f: Filter) {
    match f
    case EmailIs(e) => u.email == NormEmail(e)
    case GoogleIdIs(s) => u.google.Some? && u.google.value.id == s
    case AppleIdIs(s) => u.apple.Some? && u.apple.value.id == s
    case IdIs(id) => u.id == id
    case IdIsNot(id) => u.id != id
    case UsernameIs(n) => u.username == Some(Trim(n))
    case MatchesNothing => false
    case Or(l, r) => Matches(u, l) || Matches(u, r)
    case And(l, r) => Matches(u, l) && Matches(u, r)
  }

  /** `i` is the first user in natural order that satisfies `f`. */
  predicate IsFirstMatch(users: seq<User>, f: Filter, i: int) {
    0 <= i < |users| && Matches(users[i], f) && forall j :: 0 <= j < i ==> !Matches(users[j], f)
  }

  /** Which users satisfy `f`, in natural order. */
  function Hits(users: seq<User>, f: Filter): (h: seq<bool>)
    ensures |h| == |users| && forall j :: 0 <= j < |users| ==> h[j] == Matches(users[j], f)
  {
    seq(|users|, j requires 0 <= j < |users| => Matches(users[j], f))
  }

  /** The scan of `findOne`: the first hit from position `k` on. */
  function FindFrom(hits: seq<bool>, k: nat): (r: Option<nat>)
    requires k <= |hits|
    ensures r.Some? ==> k <= r.value < |hits| && hits[r.value] && forall j :: k <= j < r.value ==> !hits[j]
    ensures r.None? ==> forall j :: k <= j < |hits| ==> !hits[j]
    decreases |hits| - k
  {
    if k == |hits| then None
    else if hits[k] then Some(k)
    else FindFrom(hits, k + 1)
  }

  /** `findOne(filter)`: the index of the first matching user in natural order, if any. */
  function FindOne(users: seq<User>, f: Filter): (r: Option<nat>)
    ensures r.Some? <==> exists j :: 0 <= j < |users| && Matches(users[j], f)
    ensures r.Some? ==> IsFirstMatch(users, f, r.value)
  {
    FindFrom(Hits(users, f), 0)
  }

  /** The first match is unique, so any index with the first-match property is what `findOne` returns. */
  lemma FindOneIsFirstMatch(users: seq<User>, f: Filter, i: int)
    requires IsFirstMatch(users, f, i)
    ensures FindOne(users, f) == Some(i)
  {
    var r := FindOne(users, f);
    assert Matches(users[i], f);
  }

  /** When `findOne` finds nobody for `$or: [{ email: e }, ...]`, no stored user has the email `e` would be stored as. */
  lemma NotFoundByEmail(users: seq<User>, e: string, f: Filter)
    requires FindOne(users, Or(EmailIs(e), f)).None?
    ensures forall j :: 0 <= j < |users| ==> users[j].email != NormEmail(e)
  {
    forall j | 0 <= j < |users| ensures users[j].email != NormEmail(e) {
      assert !Matches(users[j], Or(EmailIs(e), f));
      assert !Matches(users[j], EmailIs(e));
    }
  }

  /** A matching user appended where `findOne` found nobody is then the first match. */
  lemma AppendedIsFirstMatch(users: seq<User>, f: Filter, u: User)
    requires FindOne(users, f).None? && Matches(u, f)
    ensures IsFirstMatch(users + [u], f, |users|)
  {
    var us := users + [u];
    forall j | 0 <= j < |users| ensures !Matches(us[j], f) {
      assert us[j] == users[j];
    }
  }

  /** Replacing the first match by another matching user keeps it the first match. */
  lemma ReplacedIsFirstMatch(users: seq<User>, f: Filter, i: int, u: User)
    requires IsFirstMatch(users, f, i) && Matches(u, f)
    ensures IsFirstMatch(users[i := u], f, i)
  {
    var us := users[i := u];
    forall j | 0 <= j < i ensures !Matches(us[j], f) {
      assert us[j] == users[j];
    }
  }

  /** In a valid collection at most one user has a given id. */
  lemma IdsUnique(db: Db, i: int, j: int)
    requires Valid(db)
    requires 0 <= i < |db.users| && 0 <= j < |db.users|
    requires db.users[i].id == db.users[j].id
    ensures i == j
  {
  }

  /** A stored document satisfies the schema once its setters have run and its email is non-empty. */
  lemma NormalizedWellFormed(doc: User, id: UserId)
    requires NormEmail(doc.email) != ""
    ensures WellFormed(Normalized(doc).(id := id))
  {
    NormalizedIsFixed(doc);
  }

  /** Appending a well-formed user that clashes with nobody keeps the collection valid. */
  lemma AppendKeepsValid(db: Db, u: User)
    requires Valid(db) && WellFormed(u) && u.id == db.nextId
    requires forall j :: 0 <= j < |db.users| ==> !Clash(db.users[j], u)
    ensures Valid(Db(db.users + [u], db.nextId + 1))
  {
    var us := db.users + [u];
    forall k | 0 <= k < |us| ensures us[k].id < db.nextId + 1 && WellFormed(us[k]) {
      if k < |db.users| {
        assert us[k] == db.users[k];
      }
    }
    forall a, b | 0 <= a < b < |us| ensures us[a].id != us[b].id && !Clash(us[a], us[b]) {
      assert us[a] == db.users[a];
      if b == |db.users| {
        assert us[b] == u;
      } else {
        assert us[b] == db.users[b];
      }
    }
  }

  /** Replacing a user by a well-formed one with the same id that clashes with nobody else keeps the collection valid. */
  lemma ReplaceKeepsValid(db: Db, i: nat, u: User)
    requires Valid(db) && i < |db.users| && WellFormed(u) && u.id == db.users[i].id
    requires forall j :: 0 <= j < |db.users| && j != i ==> !Clash(db.users[j], u)
    ensures Valid(Db(db.users[i := u], db.nextId))
  {
    var us := db.users[i := u];
    forall k | 0 <= k < |us| ensures us[k].id < db.nextId && WellFormed(us[k]) {
      if k != i {
        assert us[k] == db.users[k];
      }
    }
    forall a, b | 0 <= a < b < |us| ensures us[a].id != us[b].id && !Clash(us[a], us[b]) {
      if a == i {
        ClashSymmetric(db.users[b], u);
      } else if b == i {
        assert !Clash(db.users[a], u);
      } else {
        assert us[a] == db.users[a] && us[b] == db.users[b];
      }
    }
  }

  lemma ClashSymmetric(u: User, v: User)
    ensures Clash(u, v) <==> Clash(v, u)
  {
  }

  /** Errors the storage layer raises on a write. */
  datatype DbError =
    | ValidationError(path: string)   // a required field is empty: a mongoose.Error
    | DuplicateKey(index: string)     // a unique index would be violated: a MongoServerError

  /** A successful write: the new collection and the stored document. */
  datatype Saved = Saved(db: Db, user: User)

  /** The storage-layer checks on a document about to be stored at position `skip` (or appended, with skip = |users|). */
  function Check(users: seq<User>, skip: nat, u: User): (r: Option<DbError>)
    ensures r.None? <==> u.email != "" && forall j :: 0 <= j < |users| && j != skip ==> !Clash(users[j], u)
  {
    if u.email == "" then Some(ValidationError("email"))
    else if exists j :: 0 <= j < |users| && j != skip && users[j].email == u.email then Some(DuplicateKey("email_1"))
    else if exists j :: 0 <= j < |users| && j != skip && u.username.Some? && users[j].username == u.username then Some(DuplicateKey("username_1"))
    else None
  }

  /** `new User(doc).save()`: the setters run, the id is fresh, the unique indexes are checked. */
  function Insert(db: Db, doc: User): (r: Result<Saved, DbError>)
    ensures r.Ok? ==> r.value.user == Normalized(doc).(id := db.nextId)
                      && r.value.db == Db(db.users + [r.value.user], db.nextId + 1)
    ensures r.Err? <==> Check(db.users, |db.users|, Normalized(doc)).Some?
    ensures Valid(db) && r.Ok? ==> Valid(r.value.db)
  {
    var u := Normalized(doc).(id := db.nextId);
    match Check(db.users, |db.users|, u)
    case Some(e) => Err(e)
    case None =>
      var db' := Db(db.users + [u], db.nextId + 1);
      assert Valid(db) ==> Valid(db') by {
        if Valid(db) {
          NormalizedWellFormed(doc, db.nextId);
          AppendKeepsValid(db, u);
        }
      }
      Ok(Saved(db', u))
  }

  /**
    `save` of the user at position `i`, or `findByIdAndUpdate` / `findOneAndUpdate`
    of it: setters run, the unique indexes are checked. The `required` check
    on the email belongs to `save`; the update operations never change a stored
    email, so on them it never fires (`UpdateKeepingEmail`).
  */
  function UpdateAt(db: Db, i: nat, updated: User): (r: Result<Saved, DbError>)
    requires i < |db.users|
    ensures r.Ok? ==> r.value.user == Normalized(updated).(id := db.users[i].id)
                      && r.value.db == Db(db.users[i := r.value.user], db.nextId)
    ensures r.Err? <==> Check(db.users, i, Normalized(updated)).Some?
    ensures Valid(db) && r.Ok? ==> Valid(r.value.db)
  {
    var u := Normalized(updated).(id := db.users[i].id);
    match Check(db.users, i, u)
    case Some(e) => Err(e)
    case None =>
      var db' := Db(db.users[i := u], db.nextId);
      assert Valid(db) ==> Valid(db') by {
        if Valid(db) {
          NormalizedWellFormed(updated, u.id);
          ReplaceKeepsValid(db, i, u);
        }
      }
      Ok(Saved(db', u))
  }

  /** An update that keeps a stored user's email can only be refused by the username index. */
  lemma UpdateKeepingEmail(db: Db, i: nat, updated: User)
    requires Valid(db) && i < |db.users|
    requires NormEmail(updated.email) == db.users[i].email
    requires UpdateAt(db, i, updated).Err?
    ensures UpdateAt(db, i, updated).error == DuplicateKey("username_1")
  {
    var u := Normalized(updated).(id := db.users[i].id);
    EmailHeldOnce(db, i);
    assert !exists j :: 0 <= j < |db.users| && j != i && db.users[j].email == u.email;
    assert Check(db.users, i, u).Some?;
    assert Check(db.users, i, u) == Some(DuplicateKey("username_1"));
  }

  /** In a valid collection no other user has a stored user's email, which is never empty. */
  lemma EmailHeldOnce(db: Db, i: nat)
    requires Valid(db) && i < |db.users|
    ensures db.users[i].email != ""
    ensures forall j :: 0 <= j < |db.users| && j != i ==> db.users[j].email != db.users[i].email
  {
    assert WellFormed(db.users[i]);
    forall j | 0 <= j < |db.users| && j != i ensures db.users[j].email != db.users[i].email {
      if j < i { assert !Clash(db.users[j], db.users[i]); } else { assert !Clash(db.users[i], db.users[j]); }
    }
  }

  /** Rewriting a stored user with itself succeeds and changes nothing. */
  lemma UpdateWithSelf(db: Db, i: nat)
    requires Valid(db) && i < |db.users|
    ensures UpdateAt(db, i, db.users[i]) == Ok(Saved(db, db.users[i]))
  {
    var u := db.users[i];
    assert Normalized(u) == u;
    assert db.users[i := u] == db.users;
    forall j | 0 <= j < |db.users| && j != i ensures !Clash(db.users[j], u) {
      if j < i { assert !Clash(db.users[j], db.users[i]); } else { assert !Clash(db.users[i], db.users[j]); }
    }
  }

  /** The User collection, updated in place by the services. */
  class UserCollection {
    var db: Db

    ghost predicate Inv()
      reads this
    {
      Valid(db)
    }

    constructor ()
      ensures Inv() && db == Db([], 0)
    {
      db := Db([], 0);
    }

    /** `new User(doc).save()`. */
    method Save(doc: User) returns (r: Result<User, DbError>)
      requires Inv()
      modifies this
      ensures Inv()
      ensures r.Ok? ==> Insert(old(db), doc).Ok? && db == Insert(old(db), doc).value.db
                        && r.value == Insert(old(db), doc).value.user
      ensures r.Err? ==> Insert(old(db), doc) == Err(r.error) && db == old(db)
    {
      match Insert(db, doc)
      case Err(e) => r := Err(e);
      case Ok(saved) =>
        db := saved.db;
        r := Ok(saved.user);
    }

    /** `findByIdAndUpdate(id, ...)` of the user found at position `i`. */
    method Update(i: nat, updated: User) returns (r: Result<User, DbError>)
      requires Inv() && i < |db.users|
      modifies this
      ensures Inv()
      ensures r.Ok? ==> UpdateAt(old(db), i, updated).Ok? && db == UpdateAt(old(db), i, updated).value.db
                        && r.value == UpdateAt(old(db), i, updated).value.user
      ensures r.Err? ==> UpdateAt(old(db), i, updated) == Err(r.error) && db == old(db)
    {
      match UpdateAt(db, i, updated)
      case Err(e) => r := Err(e);
      case Ok(saved) =>
        db := saved.db;
        r := Ok(saved.user);
    }
  }
}
