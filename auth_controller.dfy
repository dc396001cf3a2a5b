/**
 * The account handlers of the server (`authController.ts`): registering with
 * a unique email, logging in by email and password, and updating a profile.
 *
 * `Date.now()` is a parameter. Passwords are compared as stored, in clear.
 */
module AuthController {
  import opened Wrappers
  import Text
  import opened ServerTypes

  const RegisterFieldsRequired := "Email, password, and name are required"
  const EmailExists := "Email already exists"
  const LoginFieldsRequired := "Email and password are required"
  const InvalidCredentials := "Invalid email or password"
  const DuplicateId := "duplicate key"

  datatype RegisterBody = RegisterBody(
    email: Option<string>, password: Option<string>, name: Option<string>, avatarUrl: Option<string>)

  datatype LoginBody = LoginBody(email: Option<string>, password: Option<string>)

  /** The keys of the update request that are present. */
  datatype UpdateBody = UpdateBody(name: Option<string>, avatarUrl: Option<string>, password: Option<string>)

  /** Some stored user has this email. */
  predicate EmailTaken(docs: map<string, ServerUser>, email: string) {
    exists id :: id in docs && docs[id].email == email
  }

  predicate RegisterBodyInvalid(body: RegisterBody) {
    Falsy(body.email) || Falsy(body.password) || Falsy(body.name)
  }

  /** The account `register` creates: a plain user with an empty library and no avatar unless one is given. */
  function NewUser(body: RegisterBody, now: int): (u: ServerUser)
    requires !RegisterBodyInvalid(body)
    ensures u.id == "user-" + Text.IntToString(now) && u.role == User && u.library == [] && u.downloadedChapters == []
    ensures u.email == body.email.value && u.password == body.password.value && u.name == body.name.value
    ensures Falsy(body.avatarUrl) <==> u.avatarUrl.None?
  {
    ServerUser("user-" + Text.IntToString(now), body.email.value, body.password.value, body.name.value,
               if Falsy(body.avatarUrl) then None else body.avatarUrl, User, [], [])
  }

  /** `register` */
  method Register(users: UserCollection, body: RegisterBody, now: int) returns (reply: Reply<ServerUser>)
    requires users.Valid()
    modifies users
    ensures users.Valid()
    ensures RegisterBodyInvalid(body) ==> reply == Fail(400, RegisterFieldsRequired) && users.docs == old(users.docs)
    ensures !RegisterBodyInvalid(body) && EmailTaken(old(users.docs), body.email.value) ==>
      reply == Fail(400, EmailExists) && users.docs == old(users.docs)
    ensures !RegisterBodyInvalid(body) && !EmailTaken(old(users.docs), body.email.value) ==>
      var u := NewUser(body, now);
      if u.id in old(users.docs) then reply == Fail(500, DuplicateId) && users.docs == old(users.docs)
      else reply == Ok(201, u) && users.docs == old(users.docs)[u.id := u]
  {
    if RegisterBodyInvalid(body) {
      return Fail(400, RegisterFieldsRequired);
    }
    if EmailTaken(users.docs, body.email.value) {
      return Fail(400, EmailExists);
    }
    var u := NewUser(body, now);
    if u.id in users.docs {
      return Fail(500, DuplicateId);
    }
    users.docs := users.docs[u.id := u];
    return Ok(201, u);
  }

  /** `login`: the stored user whose email and password both equal the body's. */
  method Login(users: UserCollection, body: LoginBody) returns (reply: Reply<ServerUser>)
    requires users.Valid()
    ensures Falsy(body.email) || Falsy(body.password) ==> reply == Fail(400, LoginFieldsRequired)
    ensures !Falsy(body.email) && !Falsy(body.password) ==>
      && (reply.Ok? <==> exists id :: id in users.docs && users.docs[id].email == body.email.value
                                       && users.docs[id].password == body.password.value)
      && (reply.Ok? ==> reply.status == 200 && reply.data.id in users.docs && users.docs[reply.data.id] == reply.data
                        && reply.data.email == body.email.value && reply.data.password == body.password.value)
      && (reply.Fail? ==> reply == Fail(401, InvalidCredentials))
  {
    if Falsy(body.email) || Falsy(body.password) {
      return Fail(400, LoginFieldsRequired);
    }
    if id :| id in users.docs && users.docs[id].email == body.email.value && users.docs[id].password == body.password.value {
      return Ok(200, users.docs[id]);
    }
    return Fail(401, InvalidCredentials);
  }

  /** The stored user with the update's present keys written over it; an avatar given is stored as present. */
  function UpdatedUser(u: ServerUser, body: UpdateBody): (r: ServerUser)
    ensures r.name == body.name.GetOr(u.name) && r.password == body.password.GetOr(u.password)
    ensures r.avatarUrl == if body.avatarUrl.Some? then body.avatarUrl else u.avatarUrl
    ensures r.(name := u.name, password := u.password, avatarUrl := u.avatarUrl) == u
  {
    u.(name := body.name.GetOr(u.name), password := body.password.GetOr(u.password),
       avatarUrl := if body.avatarUrl.Some? then body.avatarUrl else u.avatarUrl)
  }

  /** `updateUser` */
  method UpdateUser(users: UserCollection, id: string, body: UpdateBody) returns (reply: Reply<ServerUser>)
    requires users.Valid()
    modifies users
    ensures users.Valid()
    ensures id !in old(users.docs) ==> reply == Fail(404, UserNotFound) && users.docs == old(users.docs)
    ensures id in old(users.docs) ==>
      var u := UpdatedUser(old(users.docs)[id], body);
      reply == Ok(200, u) && users.docs == old(users.docs)[id := u]
  {
    if id !in users.docs {
      return Fail(404, UserNotFound);
    }
    var u := UpdatedUser(users.docs[id], body);
    users.docs := users.docs[id := u];
    return Ok(200, u);
  }
}
