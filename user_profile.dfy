/**
 * `UserProfile`: the signed-in user's own profile.  Reading it returns the
 * user's nine public fields; updating it is a partial patch in which every
 * field the request leaves null keeps its stored value.  The signed-in
 * user's id comes from the authentication principal and is a parameter.
 */
module UserProfile {
  import opened Wrappers
  import opened Store

  /** The update request: every field may be null (`None`). */
  datatype ProfilePatch = ProfilePatch(
    fullName: Option<string>,
    phoneNo: Option<string>,
    profilePicture: Option<string>,
    bio: Option<string>,
    location: Option<string>,
    organization: Option<string>)

  /** The profile reply: id, username, email and the six editable fields. */
  datatype ProfileView = ProfileView(
    id: Id,
    username: string,
    email: string,
    fullName: string,
    phoneNo: Option<string>,
    profilePicture: Option<string>,
    bio: Option<string>,
    location: Option<string>,
    organization: Option<string>)

  const UserNotFoundMessage := "Error: User not found"
  const ProfileUpdatedMessage := "Profile updated successfully"

  /** The patch that changes nothing: every field null. */
  const EmptyPatch := ProfilePatch(None, None, None, None, None, None)

  /**
   * `getUserProfile`: the profile of user `id`, or the bad-request message
   * when no such user is stored.  The reply never carries the password or
   * the roles.
   */
  function GetUserProfile(db: Db, id: Id): (r: Result<ProfileView, string>)
    ensures r.Err? <==> id !in db.users
    ensures r.Err? ==> r.error == UserNotFoundMessage
    ensures r.Ok? ==>
      var u := db.users[id];
      r.value.id == id && r.value.username == u.username && r.value.email == u.email &&
      r.value.fullName == u.fullName && r.value.phoneNo == u.phoneNo &&
      r.value.profilePicture == u.profilePicture && r.value.bio == u.bio &&
      r.value.location == u.location && r.value.organization == u.organization
  {
    if id !in db.users then Err(UserNotFoundMessage)
    else
      var u := db.users[id];
      Ok(ProfileView(id, u.username, u.email, u.fullName, u.phoneNo,
                          u.profilePicture, u.bio, u.location, u.organization))
  }

  /** Two stored users that differ only in password and roles show the same profile. */
  lemma ProfileHidesCredentials(db: Db, id: Id, password: string, roles: set<Role>)
    requires id in db.users
    ensures GetUserProfile(db.(users := db.users[id := db.users[id].(password := password, roles := roles)]), id)
         == GetUserProfile(db, id)
  {
  }

  /** The user with every non-null field of the patch applied, in the order the controller applies them. */
  function ApplyPatch(u: User, p: ProfilePatch): User
  {
    u.(fullName := p.fullName.GetOr(u.fullName),
       phoneNo := if p.phoneNo.Some? then p.phoneNo else u.phoneNo,
       profilePicture := if p.profilePicture.Some? then p.profilePicture else u.profilePicture,
       bio := if p.bio.Some? then p.bio else u.bio,
       location := if p.location.Some? then p.location else u.location,
       organization := if p.organization.Some? then p.organization else u.organization)
  }

  /**
   * Each editable field takes the patch's value exactly when that value is
   * non-null, and keeps its old value otherwise.
   */
  lemma PatchFieldwise(u: User, p: ProfilePatch)
    ensures var v := ApplyPatch(u, p);
      (p.fullName.Some? ==> v.fullName == p.fullName.value) && (p.fullName.None? ==> v.fullName == u.fullName) &&
      (p.phoneNo.Some? ==> v.phoneNo == p.phoneNo) && (p.phoneNo.None? ==> v.phoneNo == u.phoneNo) &&
      (p.profilePicture.Some? ==> v.profilePicture == p.profilePicture) &&
      (p.profilePicture.None? ==> v.profilePicture == u.profilePicture) &&
      (p.bio.Some? ==> v.bio == p.bio) && (p.bio.None? ==> v.bio == u.bio) &&
      (p.location.Some? ==> v.location == p.location) && (p.location.None? ==> v.location == u.location) &&
      (p.organization.Some? ==> v.organization == p.organization) &&
      (p.organization.None? ==> v.organization == u.organization)
  {
  }

  /** The username, email, password and roles are never touched by a patch. */
  lemma PatchKeepsCredentials(u: User, p: ProfilePatch)
    ensures var v := ApplyPatch(u, p);
      v.username == u.username && v.email == u.email && v.password == u.password && v.roles == u.roles
  {
  }

  /** The all-null patch is the identity. */
  lemma EmptyPatchIdentity(u: User)
    ensures ApplyPatch(u, EmptyPatch) == u
  {
  }

  /** Applying the same patch twice is the same as applying it once. */
  lemma PatchIdempotent(u: User, p: ProfilePatch)
    ensures ApplyPatch(ApplyPatch(u, p), p) == ApplyPatch(u, p)
  {
  }

  /** The later patch's non-null fields win over the earlier one's. */
  function Then(p: ProfilePatch, q: ProfilePatch): ProfilePatch
  {
    ProfilePatch(
      if q.fullName.Some? then q.fullName else p.fullName,
      if q.phoneNo.Some? then q.phoneNo else p.phoneNo,
      if q.profilePicture.Some? then q.profilePicture else p.profilePicture,
      if q.bio.Some? then q.bio else p.bio,
      if q.location.Some? then q.location else p.location,
      if q.organization.Some? then q.organization else p.organization)
  }

  /** Two successive updates act as the single merged patch. */
  lemma PatchesCompose(u: User, p: ProfilePatch, q: ProfilePatch)
    ensures ApplyPatch(ApplyPatch(u, p), q) == ApplyPatch(u, Then(p, q))
  {
  }

  /** The store after `updateUserProfile` for user `id`, with its reply message. */
  function UpdateSpec(db: Db, id: Id, p: ProfilePatch): (Db, Result<string, string>)
  {
    if id !in db.users then (db, Err(UserNotFoundMessage))
    else (db.(users := db.users[id := ApplyPatch(db.users[id], p)]), Ok(ProfileUpdatedMessage))
  }

  /**
   * `updateUserProfile`: loads the user, applies each non-null field by its
   * setter, then saves the user back.
   */
  method UpdateUserProfile(repo: Repository, id: Id, p: ProfilePatch) returns (r: Result<string, string>)
    modifies repo
    ensures (repo.db, r) == UpdateSpec(old(repo.db), id, p)
  {
    if id !in repo.db.users {
      return Err(UserNotFoundMessage);
    }
    var user := repo.db.users[id];
    if p.fullName.Some? {
      user := user.(fullName := p.fullName.value);
    }
    if p.phoneNo.Some? {
      user := user.(phoneNo := p.phoneNo);
    }
    if p.profilePicture.Some? {
      user := user.(profilePicture := p.profilePicture);
    }
    if p.bio.Some? {
      user := user.(bio := p.bio);
    }
    if p.location.Some? {
      user := user.(location := p.location);
    }
    if p.organization.Some? {
      user := user.(organization := p.organization);
    }
    repo.db := repo.db.(users := repo.db.users[id := user]);
    return Ok(ProfileUpdatedMessage);
  }

  /** An unknown id: the error reply, and the store is unchanged. */
  lemma UpdateUnknownUser(db: Db, id: Id, p: ProfilePatch)
    requires id !in db.users
    ensures UpdateSpec(db, id, p) == (db, Err(UserNotFoundMessage))
  {
  }

  /**
   * A known id: only that user changes, every other table and user is kept,
   * and the store invariant still holds, since usernames and emails are
   * untouched.
   */
  lemma UpdateKeepsValid(db: Db, id: Id, p: ProfilePatch)
    requires Valid(db) && id in db.users
    ensures var (d, r) := UpdateSpec(db, id, p);
      r == Ok(ProfileUpdatedMessage) &&
      d.users.Keys == db.users.Keys &&
      (forall v :: v in db.users && v != id ==> d.users[v] == db.users[v]) &&
      d == db.(users := d.users) &&
      Valid(d)
  {
    PatchKeepsCredentials(db.users[id], p);
    UserReplacedValid(db, id, ApplyPatch(db.users[id], p));
  }

  /** Reading the profile after an update shows the patched fields and the unchanged identity. */
  lemma ProfileAfterUpdate(db: Db, id: Id, p: ProfilePatch)
    requires id in db.users
    ensures var u := db.users[id];
      GetUserProfile(UpdateSpec(db, id, p).0, id) ==
      Ok(ProfileView(id, u.username, u.email,
                          p.fullName.GetOr(u.fullName),
                          if p.phoneNo.Some? then p.phoneNo else u.phoneNo,
                          if p.profilePicture.Some? then p.profilePicture else u.profilePicture,
                          if p.bio.Some? then p.bio else u.bio,
                          if p.location.Some? then p.location else u.location,
                          if p.organization.Some? then p.organization else u.organization))
  {
  }
}
