/**
  UserService: `completeProfile` and `editProfile` (look the user up, refuse a
  username another user holds, upload the new avatar, build the update
  dictionary in a loop, delete the old avatar, update the user in place), and
  the two checks `checkProfileComplete` and `checkIfUsernameExists`.
  The upload's result is an input; the uploads and deletions are reported as effects.
*/
module UserService {
  import opened Common
  import opened Strings
  import opened UserModel
  import opened AuthService

  /** The key the update loop skips; no field of the profile data is spelled this way. */
  const SKIPPED_KEY := "avatarLocalFile"

  const USER_NOT_FOUND := ApiError(404, "User not found")
  const USERNAME_TAKEN := ApiError(400, "Username already taken")
  const INCOMPLETE_PROFILE := ApiError(400, "incomplete profile")

  /** One `[key, value]` pair of `Object.entries(profileData)`; `None` is `undefined`. */
  datatype Entry = Entry(key: string, value: Option<string>)

  /**
    The keys profile data may carry: the fields of `CompleteProfileData` and
    `EditProfileData`, and the `avatarLocalFile` key the loop skips.
  */
  const PROFILE_KEYS: set<string> := {"name", "username", "avatarLocalPath", "favoriteChurch", "bio", SKIPPED_KEY}

  /** Profile data as the two operations' parameter types describe it. */
  predicate ProfileData(entries: seq<Entry>) {
    forall i :: 0 <= i < |entries| ==> entries[i].key in PROFILE_KEYS
  }

  /** The keys of an object are distinct. */
  predicate DistinctKeys(entries: seq<Entry>) {
    forall i, j :: 0 <= i < j < |entries| ==> entries[i].key != entries[j].key
  }

  /** `profileData[key]`: the value under that key, `undefined` when the key is absent. */
  function Lookup(entries: seq<Entry>, key: string): (v: Option<string>)
    ensures (forall i :: 0 <= i < |entries| ==> entries[i].key != key) ==> v.None?
  {
    if |entries| == 0 then None
    else if entries[0].key == key then entries[0].value
    else Lookup(entries[1..], key)
  }

  /** With distinct keys, looking up an entry's key gives that entry's value. */
  lemma {:induction false} LookupDistinct(entries: seq<Entry>, i: int)
    requires DistinctKeys(entries) && 0 <= i < |entries|
    ensures Lookup(entries, entries[i].key) == entries[i].value
    decreases i
  {
    if i > 0 {
      assert entries[0].key != entries[i].key;
      var tail := entries[1..];
      assert tail[i - 1] == entries[i];
      assert DistinctKeys(tail) by {
        forall a, b | 0 <= a < b < |tail| ensures tail[a].key != tail[b].key {
          assert tail[a] == entries[a + 1] && tail[b] == entries[b + 1];
        }
      }
      LookupDistinct(tail, i - 1);
    }
  }

  /** A value of the update dictionary: a string from the profile data, the uploaded avatar, or a flag. */
  datatype UpdateValue = Str(s: string) | AvatarVal(avatar: Avatar) | Flag(flag: bool)

  type Updates = map<string, UpdateValue>

  /** The entries the loop copies: a defined value under any key but the skipped one. */
  predicate Copied(e: Entry) {
    e.key != SKIPPED_KEY && e.value.Some?
  }

  /** The update dictionary the loop has built after the given entries. */
  function UpdatesOf(entries: seq<Entry>): Updates {
    if |entries| == 0 then map[]
    else
      var n := |entries| - 1;
      var rest := UpdatesOf(entries[..n]);
      var e := entries[n];
      if Copied(e) then rest[e.key := Str(e.value.value)] else rest
  }

  /** The dictionary holds string values, exactly under the keys of copied entries; with distinct keys, each entry's own value. */
  lemma {:induction false} UpdatesOfContents(entries: seq<Entry>)
    ensures forall k :: k in UpdatesOf(entries) ==> UpdatesOf(entries)[k].Str?
    ensures forall k :: k in UpdatesOf(entries) <==>
              exists i :: 0 <= i < |entries| && entries[i].key == k && Copied(entries[i])
    ensures DistinctKeys(entries) ==>
              forall i :: 0 <= i < |entries| && Copied(entries[i]) ==>
                UpdatesOf(entries)[entries[i].key] == Str(entries[i].value.value)
  {
    if |entries| > 0 {
      var n := |entries| - 1;
      var prefix := entries[..n];
      var e := entries[n];
      var m := UpdatesOf(entries);
      var rest := UpdatesOf(prefix);
      UpdatesOfContents(prefix);
      assert forall i :: 0 <= i < n ==> prefix[i] == entries[i];
      forall k ensures k in m <==> exists i :: 0 <= i < |entries| && entries[i].key == k && Copied(entries[i]) {
        if k in m && !(Copied(e) && k == e.key) {
          var i :| 0 <= i < n && prefix[i].key == k && Copied(prefix[i]);
          assert entries[i].key == k && Copied(entries[i]);
        }
      }
      if DistinctKeys(entries) {
        assert DistinctKeys(prefix);
        forall i | 0 <= i < |entries| && Copied(entries[i]) ensures m[entries[i].key] == Str(entries[i].value.value) {
          if i < n {
            assert entries[i].key != e.key;
          }
        }
      }
    }
  }

  /**
    The loop of both profile operations: copy every defined value of the profile
    data into a fresh dictionary, skipping the key `avatarLocalFile`.
  */
  method BuildUpdates(entries: seq<Entry>) returns (updates: Updates)
    ensures updates == UpdatesOf(entries)
  {
    updates := map[];
    var i := 0;
    while i < |entries|
      invariant 0 <= i <= |entries|
      invariant updates == UpdatesOf(entries[..i])
    {
      var entry := entries[i];
      UpdatesOfStep(entries, i);
      if entry.key != SKIPPED_KEY && entry.value != None {
        updates := updates[entry.key := Str(entry.value.value)];
      }
      i := i + 1;
    }
    assert entries[..|entries|] == entries;
  }

  /** One more entry: the dictionary gains that entry's value when it is copied. */
  lemma UpdatesOfStep(entries: seq<Entry>, i: nat)
    requires i < |entries|
    ensures UpdatesOf(entries[..i + 1])
            == if Copied(entries[i]) then UpdatesOf(entries[..i])[entries[i].key := Str(entries[i].value.value)]
               else UpdatesOf(entries[..i])
  {
    assert entries[..i + 1][..i] == entries[..i];
  }

  /**
    With distinct keys the dictionary holds exactly the defined values of the
    profile data, under their own keys, minus `avatarLocalFile`; in particular
    `avatarLocalPath` is copied through whenever it is defined.
  */
  lemma UpdatesAreDefinedFields(entries: seq<Entry>, k: string)
    requires DistinctKeys(entries)
    ensures k in UpdatesOf(entries) <==> k != SKIPPED_KEY && Lookup(entries, k).Some?
    ensures k in UpdatesOf(entries) ==> UpdatesOf(entries)[k] == Str(Lookup(entries, k).value)
  {
    var m := UpdatesOf(entries);
    UpdatesOfContents(entries);
    if k in m {
      var i :| 0 <= i < |entries| && entries[i].key == k && Copied(entries[i]);
      LookupDistinct(entries, i);
    } else if k != SKIPPED_KEY && Lookup(entries, k).Some? {
      var i :| 0 <= i < |entries| && entries[i].key == k;
      LookupDistinct(entries, i);
      assert Copied(entries[i]);
    }
  }

  /** The dictionary as sent to the database: the avatar when one was uploaded, and always `isProfileComplete: true`. */
  function ProfileUpdates(entries: seq<Entry>, avatar: Option<Avatar>): (m: Updates)
    ensures "isProfileComplete" in m && m["isProfileComplete"] == Flag(true)
    ensures avatar.Some? ==> "avatar" in m && m["avatar"] == AvatarVal(avatar.value)
    ensures avatar.None? && "avatar" in m ==> m["avatar"].Str?
    ensures forall k :: k != "avatar" && k != "isProfileComplete" ==>
      (k in m <==> k in UpdatesOf(entries)) && (k in m ==> m[k] == UpdatesOf(entries)[k])
  {
    var base := UpdatesOf(entries);
    UpdatesOfContents(entries);
    assert "avatar" in base ==> base["avatar"].Str?;
    assert |"avatar"| != |"isProfileComplete"|;
    var withAvatar := if avatar.Some? then base["avatar" := AvatarVal(avatar.value)] else base;
    withAvatar["isProfileComplete" := Flag(true)]
  }

  /**
    `findByIdAndUpdate(id, updates)` for a dictionary built from profile data:
    `name` and `username` are string paths of the schema, `avatar` and
    `isProfileComplete` are the values the operations add. The other keys
    profile data carries (`avatarLocalPath`, `favoriteChurch`, `bio`) are no
    schema paths, and the schema's strict mode drops them.
  */
  function ApplyUpdates(u: User, m: Updates): User {
    u.(name := if "name" in m && m["name"].Str? then Some(m["name"].s) else u.name,
       username := if "username" in m && m["username"].Str? then Some(m["username"].s) else u.username,
       avatar := if "avatar" in m && m["avatar"].AvatarVal? then Some(m["avatar"].avatar) else u.avatar,
       isProfileComplete := if "isProfileComplete" in m && m["isProfileComplete"].Flag?
                            then m["isProfileComplete"].flag else u.isProfileComplete)
  }

  /** `.select("-providers ...")`: the returned user without its provider links. */
  function WithoutProviders(u: User): (v: User)
    ensures v.google.None? && v.apple.None?
    ensures v.(google := u.google, apple := u.apple) == u
  {
    u.(google := None, apple := None)
  }

  /** Calls made to the image host: the local file uploaded, if any, and the public id destroyed, if any. */
  datatype Effects = Effects(uploadedFrom: Option<string>, destroyed: Option<string>)

  const NO_EFFECTS := Effects(None, None)

  datatype ProfileOutcome = ProfileOutcome(db: Db, effects: Effects, result: Result<User, Fault>)

  /** `findOne({ username, _id: { $ne: userId } })`. */
  function UsernameHolder(username: string, userId: UserId): Filter {
    And(UsernameIs(username), IdIsNot(userId))
  }

  /** Whether the username check refuses the request. */
  predicate UsernameTaken(db: Db, userId: UserId, entries: seq<Entry>) {
    var requested := Lookup(entries, "username");
    Truthy(requested) && FindOne(db.users, UsernameHolder(requested.value, userId)).Some?
  }

  /** `deleteFromCloudinary(user.avatar.id)` destroys something only for a non-empty id. */
  function Destroyed(u: User): (d: Option<string>)
    ensures d.Some? <==> u.avatar.Some? && u.avatar.value.id != ""
    ensures d.Some? ==> d.value == u.avatar.value.id
  {
    if u.avatar.Some? && u.avatar.value.id != "" then Some(u.avatar.value.id) else None
  }

  /**
    The part of the profile operations after the checks, for the user at
    position `i`: upload when a local file is named, build the dictionary,
    delete the old avatar, update the user.
  */
  function ProfileWrite(db: Db, i: nat, entries: seq<Entry>, upload: Option<Avatar>): (o: ProfileOutcome)
    requires i < |db.users| && ProfileData(entries)
    ensures o.result.Err? ==> o.db == db && o.result.error.Storage?
    ensures Valid(db) ==> Valid(o.db)
    ensures var path := Lookup(entries, "avatarLocalPath");
      && o.effects.uploadedFrom == (if Truthy(path) then path else None)
      && o.effects.destroyed == Destroyed(db.users[i])
  {
    var path := Lookup(entries, "avatarLocalPath");
    var avatar := if Truthy(path) then upload else None;
    var user := db.users[i];
    var effects := Effects(if Truthy(path) then path else None, Destroyed(user));
    match UpdateAt(db, i, ApplyUpdates(user, ProfileUpdates(entries, avatar)))
    case Err(e) => ProfileOutcome(db, effects, Err(Storage(e)))
    case Ok(saved) => ProfileOutcome(saved.db, effects, Ok(WithoutProviders(saved.user)))
  }

  /**
    The common body of `completeProfile` and `editProfile` for user `userId`,
    where `upload` is what the image host returns for the local file.
  */
  function ProfileUpdate(db: Db, userId: UserId, entries: seq<Entry>, upload: Option<Avatar>): (o: ProfileOutcome)
    requires ProfileData(entries)
    ensures o.result.Err? ==> o.db == db
    ensures Valid(db) ==> Valid(o.db)
    ensures FindOne(db.users, IdIs(userId)).None? ==> o == ProfileOutcome(db, NO_EFFECTS, Err(Api(USER_NOT_FOUND)))
    ensures FindOne(db.users, IdIs(userId)).Some? && UsernameTaken(db, userId, entries) ==>
      o == ProfileOutcome(db, NO_EFFECTS, Err(Api(USERNAME_TAKEN)))
    ensures FindOne(db.users, IdIs(userId)).Some? && !UsernameTaken(db, userId, entries) ==>
      o == ProfileWrite(db, FindOne(db.users, IdIs(userId)).value, entries, upload)
  {
    match FindOne(db.users, IdIs(userId))
    case None => ProfileOutcome(db, NO_EFFECTS, Err(Api(USER_NOT_FOUND)))
    case Some(i) =>
      if UsernameTaken(db, userId, entries) then ProfileOutcome(db, NO_EFFECTS, Err(Api(USERNAME_TAKEN)))
      else ProfileWrite(db, i, entries, upload)
  }

  /** The username check refuses exactly when another user already holds the requested (trimmed) username. */
  lemma UsernameTakenMeans(db: Db, userId: UserId, entries: seq<Entry>)
    ensures UsernameTaken(db, userId, entries) <==>
      var requested := Lookup(entries, "username");
      && Truthy(requested)
      && exists j :: 0 <= j < |db.users| && db.users[j].username == Some(Trim(requested.value)) && db.users[j].id != userId
  {
    var requested := Lookup(entries, "username");
    if Truthy(requested) {
      var f := UsernameHolder(requested.value, userId);
      if FindOne(db.users, f).Some? {
        var j := FindOne(db.users, f).value;
        assert Matches(db.users[j], f);
        assert Matches(db.users[j], UsernameIs(requested.value)) && Matches(db.users[j], IdIsNot(userId));
      } else {
        forall j | 0 <= j < |db.users| ensures !(db.users[j].username == Some(Trim(requested.value)) && db.users[j].id != userId) {
          assert !Matches(db.users[j], f);
          assert !(Matches(db.users[j], UsernameIs(requested.value)) && Matches(db.users[j], IdIsNot(userId)));
        }
      }
    }
  }

  /** Asking for the username one already holds is never refused. */
  lemma KeepingOwnUsernameAllowed(db: Db, i: int, entries: seq<Entry>)
    requires Valid(db) && 0 <= i < |db.users|
    requires Truthy(Lookup(entries, "username"))
    requires db.users[i].username == Some(Trim(Lookup(entries, "username").value))
    ensures !UsernameTaken(db, db.users[i].id, entries)
  {
    var n := Trim(Lookup(entries, "username").value);
    forall j | 0 <= j < |db.users| ensures !(db.users[j].username == Some(n) && db.users[j].id != db.users[i].id) {
      if db.users[j].username == Some(n) {
        UsernameHeldOnce(db, i, j);
      }
    }
    UsernameTakenMeans(db, db.users[i].id, entries);
  }

  /** In a valid collection a username is held by one user at most. */
  lemma UsernameHeldOnce(db: Db, i: int, j: int)
    requires Valid(db) && 0 <= i < |db.users| && 0 <= j < |db.users|
    requires db.users[i].username.Some? && db.users[j].username == db.users[i].username
    ensures j == i
  {
    if j < i {
      assert Clash(db.users[j], db.users[i]);
    } else if j > i {
      assert Clash(db.users[i], db.users[j]);
    }
  }

  /** What the update dictionary does to a user, field by field, before the setters run. */
  lemma AppliedProfile(u: User, entries: seq<Entry>, avatar: Option<Avatar>)
    requires DistinctKeys(entries) && ProfileData(entries)
    ensures var s := ApplyUpdates(u, ProfileUpdates(entries, avatar));
      && s.isProfileComplete
      && s.id == u.id && s.email == u.email && s.isEmailVerified == u.isEmailVerified
      && s.google == u.google && s.apple == u.apple
      && s.avatar == (if avatar.Some? then avatar else u.avatar)
      && s.name == (if Lookup(entries, "name").Some? then Lookup(entries, "name") else u.name)
      && s.username == (if Lookup(entries, "username").Some? then Lookup(entries, "username") else u.username)
  {
    assert "name" != "avatar" && "name" != "isProfileComplete" && "name" != SKIPPED_KEY;
    assert "username" != "avatar" && "username" != "isProfileComplete" && "username" != SKIPPED_KEY;
    UpdatesAreDefinedFields(entries, "name");
    UpdatesAreDefinedFields(entries, "username");
  }

  /**
    What a successful profile update stores at position `i`: the same user (same
    id, email verification and providers) with the new name and username when
    given, the uploaded avatar when there is one, and `isProfileComplete` true;
    the response is that user without its providers.
  */
  lemma ProfileWriteStores(db: Db, i: nat, entries: seq<Entry>, upload: Option<Avatar>)
    requires Valid(db) && DistinctKeys(entries) && ProfileData(entries) && i < |db.users|
    requires ProfileWrite(db, i, entries, upload).result.Ok?
    ensures var o := ProfileWrite(db, i, entries, upload);
            var old_ := db.users[i];
            var path := Lookup(entries, "avatarLocalPath");
            var s := o.db.users[i];
            && o.db == Db(db.users[i := s], db.nextId)
            && o.result.value == WithoutProviders(s)
            && s.id == old_.id && s.email == old_.email
            && s.isProfileComplete
            && s.isEmailVerified == old_.isEmailVerified
            && s.google == old_.google && s.apple == old_.apple
            && s.avatar == (if Truthy(path) && upload.Some? then upload else old_.avatar)
            && s.name == (if Lookup(entries, "name").Some? then Some(Trim(Lookup(entries, "name").value)) else old_.name)
            && s.username == (if Lookup(entries, "username").Some? then Some(Trim(Lookup(entries, "username").value)) else old_.username)
  {
    var path := Lookup(entries, "avatarLocalPath");
    var avatar := if Truthy(path) then upload else None;
    var old_ := db.users[i];
    AppliedProfile(old_, entries, avatar);
    assert WellFormed(old_);
  }

  /**
    The update after the checks cannot fail when the data sets either no
    username or a non-empty one that no other user holds.
  */
  lemma ProfileWriteSucceeds(db: Db, i: nat, entries: seq<Entry>, upload: Option<Avatar>)
    requires Valid(db) && DistinctKeys(entries) && ProfileData(entries) && i < |db.users|
    requires Lookup(entries, "username").None? ||
      (Truthy(Lookup(entries, "username")) &&
       forall j :: 0 <= j < |db.users| ==>
         !(db.users[j].username == Some(Trim(Lookup(entries, "username").value)) && db.users[j].id != db.users[i].id))
    ensures ProfileWrite(db, i, entries, upload).result.Ok?
  {
    var path := Lookup(entries, "avatarLocalPath");
    var avatar := if Truthy(path) then upload else None;
    var old_ := db.users[i];
    var applied := ApplyUpdates(old_, ProfileUpdates(entries, avatar));
    AppliedProfile(old_, entries, avatar);
    assert WellFormed(old_);
    var u := Normalized(applied).(id := old_.id);
    OthersDoNotClash(db, i, u);
    assert UpdateAt(db, i, applied).Ok?;
  }

  /**
    Profile data never names the email, so on a valid collection the only
    write the storage layer can refuse is one that breaks the username index.
  */
  lemma ProfileWriteFailsOnlyOnUsername(db: Db, i: nat, entries: seq<Entry>, upload: Option<Avatar>)
    requires Valid(db) && DistinctKeys(entries) && ProfileData(entries) && i < |db.users|
    requires ProfileWrite(db, i, entries, upload).result.Err?
    ensures ProfileWrite(db, i, entries, upload).result.error == Storage(DuplicateKey("username_1"))
  {
    var path := Lookup(entries, "avatarLocalPath");
    var avatar := if Truthy(path) then upload else None;
    var old_ := db.users[i];
    var applied := ApplyUpdates(old_, ProfileUpdates(entries, avatar));
    AppliedProfile(old_, entries, avatar);
    assert WellFormed(old_);
    UpdateKeepingEmail(db, i, applied);
  }

  /**
    Once the username check has passed, the update itself cannot fail when the
    data sets no empty username: a username the check let through is held by
    nobody else.
  */
  lemma ProfileUpdateSucceeds(db: Db, userId: UserId, entries: seq<Entry>, upload: Option<Avatar>)
    requires Valid(db) && DistinctKeys(entries) && ProfileData(entries)
    requires FindOne(db.users, IdIs(userId)).Some? && !UsernameTaken(db, userId, entries)
    requires Lookup(entries, "username").None? || Truthy(Lookup(entries, "username"))
    ensures ProfileUpdate(db, userId, entries, upload).result.Ok?
  {
    var i := FindOne(db.users, IdIs(userId)).value;
    assert Matches(db.users[i], IdIs(userId));
    UsernameTakenMeans(db, userId, entries);
    assert Lookup(entries, "username").None? ||
      forall j :: 0 <= j < |db.users| ==>
        !(db.users[j].username == Some(Trim(Lookup(entries, "username").value)) && db.users[j].id != db.users[i].id);
    ProfileWriteSucceeds(db, i, entries, upload);
  }

  /**
    A user rewritten at position `i` clashes with nobody else when it keeps its
    email and its username is either kept or held by nobody with another id.
  */
  lemma OthersDoNotClash(db: Db, i: int, u: User)
    requires Valid(db) && 0 <= i < |db.users|
    requires u.email == db.users[i].email
    requires u.username == db.users[i].username ||
             forall j :: 0 <= j < |db.users| ==> !(db.users[j].username == u.username && db.users[j].id != db.users[i].id)
    ensures forall j :: 0 <= j < |db.users| && j != i ==> !Clash(db.users[j], u)
  {
    forall j | 0 <= j < |db.users| && j != i ensures !Clash(db.users[j], u) {
      if j < i { assert !Clash(db.users[j], db.users[i]); } else { assert !Clash(db.users[i], db.users[j]); }
    }
  }

  /** `checkProfileComplete(user)`: refuse, with 400 "incomplete profile", exactly the users whose profile is not complete. */
  function CheckProfileComplete(u: User): (r: Option<ApiError>)
    ensures r.Some? <==> !u.isProfileComplete
    ensures r.Some? ==> r.value == ApiError(400, "incomplete profile")
  {
    if !u.isProfileComplete then Some(INCOMPLETE_PROFILE) else None
  }

  /** `checkIfUsernameExists(username)`: whether some user holds that (trimmed) username. */
  function CheckIfUsernameExists(db: Db, username: string): (exists_: bool)
    ensures exists_ <==> exists j :: 0 <= j < |db.users| && db.users[j].username == Some(Trim(username))
  {
    var found := FindOne(db.users, UsernameIs(username));
    assert found.Some? ==> Matches(db.users[found.value], UsernameIs(username));
    found.Some?
  }

  /** A username the existence check reports as free passes the profile operations' username check. */
  lemma FreeUsernameNotTaken(db: Db, userId: UserId, entries: seq<Entry>)
    requires Truthy(Lookup(entries, "username"))
    requires !CheckIfUsernameExists(db, Lookup(entries, "username").value)
    ensures !UsernameTaken(db, userId, entries)
  {
    UsernameTakenMeans(db, userId, entries);
  }

  /**
    `editProfile(userId, profileData)` on the live collection, with the update
    built by the loop; `completeProfile` runs the same body.
  */
  method EditProfile(users: UserCollection, userId: UserId, entries: seq<Entry>, upload: Option<Avatar>)
    returns (r: Result<User, Fault>, effects: Effects)
    requires users.Inv() && ProfileData(entries)
    modifies users
    ensures users.Inv()
    ensures var o := ProfileUpdate(old(users.db), userId, entries, upload);
            users.db == o.db && effects == o.effects && r == o.result
  {
    ghost var db := users.db;
    var found := FindOne(users.db.users, IdIs(userId));
    if found.None? {
      return Err(Api(USER_NOT_FOUND)), NO_EFFECTS;
    }
    var i := found.value;
    var requested := Lookup(entries, "username");
    if requested.Some? && requested.value != "" {
      var holder := FindOne(users.db.users, UsernameHolder(requested.value, userId));
      if holder.Some? {
        assert UsernameTaken(db, userId, entries);
        return Err(Api(USERNAME_TAKEN)), NO_EFFECTS;
      }
    }
    assert !UsernameTaken(db, userId, entries);
    r, effects := WriteProfile(users, i, entries, upload);
  }

  /** The rest of `editProfile` once the checks passed, for the user at position `i`. */
  method WriteProfile(users: UserCollection, i: nat, entries: seq<Entry>, upload: Option<Avatar>)
    returns (r: Result<User, Fault>, effects: Effects)
    requires users.Inv() && i < |users.db.users| && ProfileData(entries)
    modifies users
    ensures users.Inv()
    ensures var o := ProfileWrite(old(users.db), i, entries, upload);
            users.db == o.db && effects == o.effects && r == o.result
  {
    var path := Lookup(entries, "avatarLocalPath");
    var avatar: Option<Avatar> := None;
    var uploadedFrom: Option<string> := None;
    if path.Some? && path.value != "" {
      uploadedFrom := path;
      avatar := upload;
    }
    var updates := BuildUpdates(entries);
    if avatar.Some? {
      updates := updates["avatar" := AvatarVal(avatar.value)];
    }
    updates := updates["isProfileComplete" := Flag(true)];
    var user := users.db.users[i];
    effects := Effects(uploadedFrom, Destroyed(user));
    var saved := users.Update(i, ApplyUpdates(user, updates));
    r := if saved.Ok? then Ok(WithoutProviders(saved.value)) else Err(Storage(saved.error));
  }

  /** `completeProfile(userId, profileData)`: the update, with tokens issued for the user's id and email as found. */
  method CompleteProfile(users: UserCollection, userId: UserId, entries: seq<Entry>, upload: Option<Avatar>)
    returns (r: Result<AuthResponse, Fault>, effects: Effects)
    requires users.Inv() && ProfileData(entries)
    modifies users
    ensures users.Inv()
    ensures var o := ProfileUpdate(old(users.db), userId, entries, upload);
            && users.db == o.db && effects == o.effects
            && (r.Err? <==> o.result.Err?)
            && (r.Err? ==> r.error == o.result.error)
            && (r.Ok? ==> r.value.user == o.result.value
                          && r.value.claims == TokenClaims(userId, old(users.db).users[FindOne(old(users.db).users, IdIs(userId)).value].email))
  {
    var found := FindOne(users.db.users, IdIs(userId));
    var before := if found.Some? then users.db.users[found.value].email else "";
    var updated;
    updated, effects := EditProfile(users, userId, entries, upload);
    if updated.Err? {
      return Err(updated.error), effects;
    }
    r := Ok(AuthResponse(TokenClaims(userId, before), updated.value));
  }
}
