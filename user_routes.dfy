/**
 * The user routes of star-note-backend/routes/userRoutes.js over an abstract user table: a
 * map from `_id` to document. A caller names itself with a `user_id` field (`None` when it is
 * missing or empty). A password is stored as a digest that only `Matches` can compare; the
 * salt, the cost factor and the token a login signs are not modelled.
 */
module UserRoutes {
  import opened Wrappers
  import opened Replies

  /** What bcrypt stores for a password. */
  datatype Digest = Digest(secret: string)

  /** `bcrypt.hash(password, salt)`. */
  function Hash(password: string): Digest {
    Digest(password)
  }

  /** `bcrypt.compare(password, digest)`: true exactly for the password the digest was made from. */
  predicate Matches(password: string, digest: Digest) {
    digest.secret == password
  }

  datatype User = User(username: string, email: string, password: Digest, bio: string,
                       profilePicture: string, updatedAt: int)

  /** The user as replies show it: the stored fields without the password. */
  datatype PublicUser = PublicUser(id: Id, username: string, email: string, bio: string, profilePicture: string)

  function Public(id: Id, u: User): (r: PublicUser)
    ensures r.id == id && r.username == u.username && r.email == u.email
    ensures r.bio == u.bio && r.profilePicture == u.profilePicture
  {
    PublicUser(id, u.username, u.email, u.bio, u.profilePicture)
  }

  /** Two users whose public views agree are shown alike whatever their passwords. */
  lemma PublicHidesPassword(id: Id, u: User, password: Digest)
    ensures Public(id, u) == Public(id, u.(password := password))
  {
  }

  const UserRequired := "User ID is required"
  const UserNotFound := "User not found"
  const InvalidCredentials := "Invalid credentials"

  /** No two users share an email. */
  ghost predicate UniqueEmails(users: map<Id, User>) {
    forall a, b :: a in users && b in users && users[a].email == users[b].email ==> a == b
  }

  /** `findOne({ email, _id: { $ne: except } })` finds nobody. */
  predicate EmailFree(users: map<Id, User>, email: string, except: Id) {
    forall k :: k in users && k != except ==> users[k].email != email
  }

  /** `findOne({ username, _id: { $ne: except } })` finds nobody. */
  predicate UsernameFree(users: map<Id, User>, username: string, except: Id) {
    forall k :: k in users && k != except ==> users[k].username != username
  }

  /**
   * The profile fields a request sets: username and email when non-empty, bio and picture
   * whenever they are present, even as "".
   */
  function Profiled(u: User, username: string, email: string, bio: Option<string>,
                    profilePicture: Option<string>, now: int): (r: User)
    ensures r.password == u.password && r.updatedAt == now
    ensures r.username == (if username != "" then username else u.username)
    ensures r.email == (if email != "" then email else u.email)
    ensures r.bio == bio.GetOr(u.bio) && r.profilePicture == profilePicture.GetOr(u.profilePicture)
  {
    User(if username != "" then username else u.username,
         if email != "" then email else u.email,
         u.password, bio.GetOr(u.bio), profilePicture.GetOr(u.profilePicture), now)
  }

  /** A request that names no field changes only the update time. */
  lemma ProfiledNothing(u: User, now: int)
    ensures Profiled(u, "", "", None, None, now) == u.(updatedAt := now)
  {
  }

  /** An update that passed the email check keeps every email held by one user at most. */
  lemma ProfiledKeepsUnique(users: map<Id, User>, id: Id, username: string, email: string,
                             bio: Option<string>, profilePicture: Option<string>, now: int)
    requires UniqueEmails(users) && id in users
    requires email != "" && email != users[id].email ==> EmailFree(users, email, id)
    ensures UniqueEmails(users[id := Profiled(users[id], username, email, bio, profilePicture, now)])
  {
  }

  class UserStore {
    var users: map<Id, User>
    var nextId: Id

    /** Every stored id was handed out, and emails are unique. */
    ghost predicate Valid()
      reads this
    {
      (forall k :: k in users ==> k < nextId) && UniqueEmails(users)
    }

    constructor()
      ensures Valid() && users == map[] && nextId == 0
    {
      users := map[];
      nextId := 0;
    }

    /** `POST /register`: 400 when the email is taken; otherwise a new user with the hashed password. */
    method Register(username: string, email: string, password: string, now: int) returns (reply: Reply<PublicUser>)
      requires Valid()
      modifies this
      ensures Valid()
      ensures (exists k :: k in old(users) && old(users)[k].email == email) ==>
                reply == Error(400, "User already exists") && users == old(users) && nextId == old(nextId)
      ensures (forall k :: k in old(users) ==> old(users)[k].email != email) ==>
                old(nextId) !in old(users) && nextId == old(nextId) + 1
                && users == old(users)[old(nextId) := User(username, email, Hash(password), "", "", now)]
                && reply == Ok(201, Public(old(nextId), users[old(nextId)]))
    {
      if exists k :: k in users && users[k].email == email {
        return Error(400, "User already exists");
      }
      var id := nextId;
      var user := User(username, email, Hash(password), "", "", now);
      users := users[id := user];
      nextId := nextId + 1;
      reply := Ok(201, Public(id, user));
    }

    /**
     * `POST /login`: the user with that email whose digest matches the password; an unknown
     * email and a wrong password draw the same reply.
     */
    method Login(email: string, password: string) returns (reply: Reply<PublicUser>)
      requires Valid()
      ensures reply.Error? ==> reply == Error(400, InvalidCredentials)
      ensures reply.Ok? <==> exists k :: k in users && users[k].email == email && Matches(password, users[k].password)
      ensures reply.Ok? ==> reply.body.id in users && reply.code == 200
                            && reply == Ok(200, Public(reply.body.id, users[reply.body.id]))
                            && users[reply.body.id].email == email
    {
      if !(exists k :: k in users && users[k].email == email) {
        return Error(400, InvalidCredentials);
      }
      var k :| k in users && users[k].email == email;
      if !Matches(password, users[k].password) {
        return Error(400, InvalidCredentials);
      }
      reply := Ok(200, Public(k, users[k]));
    }

    /** `GET /me`: 400 without a user id, 404 for an unknown one, else the user without the password. */
    method Me(userId: Option<Id>) returns (reply: Reply<PublicUser>)
      ensures userId.None? ==> reply == Error(400, UserRequired)
      ensures userId.Some? && userId.value !in users ==> reply == Error(404, UserNotFound)
      ensures userId.Some? && userId.value in users ==> reply == Ok(200, Public(userId.value, users[userId.value]))
    {
      if userId.None? {
        return Error(400, UserRequired);
      }
      if userId.value !in users {
        return Error(404, UserNotFound);
      }
      reply := Ok(200, Public(userId.value, users[userId.value]));
    }

    /**
     * `PUT /profile`: 400 without a user id, 404 for an unknown one, 400 when the new email or
     * username belongs to another user; otherwise the fields the request names change.
     */
    method UpdateProfile(userId: Option<Id>, username: string, email: string, bio: Option<string>,
                         profilePicture: Option<string>, now: int) returns (reply: Reply<PublicUser>)
      requires Valid()
      modifies this
      ensures Valid() && nextId == old(nextId)
      ensures reply.Error? ==> users == old(users)
      ensures userId.None? ==> reply == Error(400, UserRequired)
      ensures userId.Some? && userId.value !in old(users) ==> reply == Error(404, UserNotFound)
      ensures userId.Some? && userId.value in old(users) ==>
                var id := userId.value;
                var u := old(users)[id];
                var emailTaken := email != "" && email != u.email && !EmailFree(old(users), email, id);
                var nameTaken := username != "" && username != u.username && !UsernameFree(old(users), username, id);
                (emailTaken ==> reply == Error(400, "Email already exists"))
                && (!emailTaken && nameTaken ==> reply == Error(400, "Username already exists"))
                && (!emailTaken && !nameTaken ==>
                      users == old(users)[id := Profiled(u, username, email, bio, profilePicture, now)]
                      && reply == Ok(200, Public(id, users[id])))
    {
      if userId.None? {
        return Error(400, UserRequired);
      }
      var id := userId.value;
      if id !in users {
        return Error(404, UserNotFound);
      }
      var u := users[id];
      if email != "" && email != u.email && !EmailFree(users, email, id) {
        return Error(400, "Email already exists");
      }
      if username != "" && username != u.username && !UsernameFree(users, username, id) {
        return Error(400, "Username already exists");
      }
      ProfiledKeepsUnique(users, id, username, email, bio, profilePicture, now);
      var updated := u;
      if username != "" {
        updated := updated.(username := username);
      }
      if email != "" {
        updated := updated.(email := email);
      }
      if bio.Some? {
        updated := updated.(bio := bio.value);
      }
      if profilePicture.Some? {
        updated := updated.(profilePicture := profilePicture.value);
      }
      updated := updated.(updatedAt := now);
      users := users[id := updated];
      reply := Ok(200, Public(id, updated));
    }

    /**
     * `POST /upload-profile-picture`: 400 without a user id or without a file, 404 for an
     * unknown user; otherwise the picture becomes `url`, the address the image host returns.
     */
    method UploadProfilePicture(userId: Option<Id>, url: Option<string>, now: int) returns (reply: Reply<PublicUser>)
      requires Valid()
      modifies this
      ensures Valid() && nextId == old(nextId)
      ensures userId.None? ==> reply == Error(400, UserRequired) && users == old(users)
      ensures userId.Some? && url.None? ==> reply == Error(400, "No file uploaded") && users == old(users)
      ensures userId.Some? && url.Some? && userId.value !in old(users) ==>
                reply == Error(404, UserNotFound) && users == old(users)
      ensures userId.Some? && url.Some? && userId.value in old(users) ==>
                users == old(users)[userId.value := old(users)[userId.value].(profilePicture := url.value, updatedAt := now)]
                && reply == Ok(200, Public(userId.value, users[userId.value]))
    {
      if userId.None? {
        return Error(400, UserRequired);
      }
      if url.None? {
        return Error(400, "No file uploaded");
      }
      var id := userId.value;
      if id !in users {
        return Error(404, UserNotFound);
      }
      ProfiledKeepsUnique(users, id, "", "", None, url, now);
      var updated := users[id].(profilePicture := url.value, updatedAt := now);
      users := users[id := updated];
      reply := Ok(200, Public(id, updated));
    }
  }
}
