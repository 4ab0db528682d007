/** The account routes: the public projection of a user, registration, the
    login check, and the password-reset token's issue, check and clearing.
    Password hashing and token digesting are parameters (`hash` for bcrypt,
    `digest` for SHA-256); the clock is a number of milliseconds. */
module Auth {
  import opened Wrappers
  import opened Http
  import opened UserModel

  /** `process.env.BASE_URL`, else `http://localhost:` and the port, 5001 by default. */
  function BaseUrl(envBaseUrl: string, envPort: string): string
  {
    if envBaseUrl != "" then envBaseUrl
    else "http://localhost:" + (if envPort != "" then envPort else "5001")
  }

  datatype PublicUser = PublicUser(
    id: UserId,
    name: string,
    email: string,
    role: Role,
    technologies: seq<string>,
    experience: int,
    charges: int,
    photo: Option<string>)

  /** `formatUser`: the fields a client may see; missing numbers read as 0, an
      empty photo as null, a stored photo path as an absolute URL. */
  function FormatUser(u: User, envBaseUrl: string, envPort: string): (p: PublicUser)
    ensures p.id == u.id && p.name == u.name && p.email == u.email && p.role == u.role
    ensures p.technologies == u.technologies
    ensures u.experience.None? ==> p.experience == 0
    ensures u.experience.Some? ==> p.experience == u.experience.value
    ensures u.charges.None? ==> p.charges == 0
    ensures u.charges.Some? ==> p.charges == u.charges.value
    ensures p.photo.None? <==> u.photo == ""
    ensures p.photo.Some? ==> var baseUrl := BaseUrl(envBaseUrl, envPort);
                              && |baseUrl| <= |p.photo.value|
                              && p.photo.value[..|baseUrl|] == baseUrl
                              && p.photo.value[|baseUrl|..] == u.photo
  {
    var baseUrl := BaseUrl(envBaseUrl, envPort);
    PublicUser(u.id, u.name, u.email, u.role, u.technologies,
               if u.experience.Some? then u.experience.value else 0,
               if u.charges.Some? then u.charges.value else 0,
               if u.photo != "" then Some(baseUrl + u.photo) else None)
  }

  /** `User.findOne({email})`: the position of the first user with that email. */
  function FindByEmail(users: seq<User>, email: string): (r: Option<nat>)
    ensures r.Some? ==> r.value < |users| && users[r.value].email == email
    ensures r.Some? ==> forall j :: 0 <= j < r.value ==> users[j].email != email
    ensures r.None? ==> forall j :: 0 <= j < |users| ==> users[j].email != email
  {
    if users == [] then None
    else if users[0].email == email then Some(0)
    else match FindByEmail(users[1..], email)
      case None => None
      case Some(k) => Some(k + 1)
  }

  /** What a route's catch block sends when one of its steps throws. */
  const ServerError: Reply := Reply(500, "Server error")

  /** `POST /register`, as a decision: the user to append or the reply. */
  function Registration(users: seq<User>, id: UserId, name: string, email: string, role: string,
                        password: string, hash: string -> string): (r: Result<User, Reply>)
    ensures name == "" || email == "" || password == "" ==>
              r == Err(Reply(400, "All fields are required"))
    ensures name != "" && email != "" && password != "" && FindByEmail(users, email).Some? ==>
              r == Err(Reply(400, "User already exists"))
    ensures r.Ok? ==> FindByEmail(users, email).None?
    ensures r.Ok? ==> r.value.id == id && r.value.name == name && r.value.email == email
                      && r.value.password == hash(password)
    ensures r.Ok? && role == "" ==> r.value.role == Client
    ensures r.Ok? && role != "" ==> RoleName(r.value.role) == role
    ensures r.Ok? ==> r.value.resetPasswordToken.None? && r.value.resetPasswordExpires.None?
                      && r.value.photo == ""
    ensures r.Err? && r.error.status != 400 ==> r.error == ServerError
    ensures (name != "" && email != "" && password != "" && FindByEmail(users, email).None?
             && hash(password) != "") ==> (r.Ok? <==> role == "" || ParseRole(role).Some?)
  {
    if name == "" || email == "" || password == "" then Err(Reply(400, "All fields are required"))
    else if FindByEmail(users, email).Some? then Err(Reply(400, "User already exists"))
    else match NewUser(id, name, email, Some(if role == "" then "client" else role), hash(password))
      case Err(_) => Err(ServerError)
      case Ok(u) => Ok(u)
  }

  /** The `user` object of a successful login (the signed token is not modelled). */
  datatype LoginUser = LoginUser(id: UserId, name: string, email: string, role: Role)

  const InvalidCredentials: Reply := Reply(400, "Invalid credentials")

  /** `POST /login`: an unknown email and a wrong password give the same reply.
      A request without a password reaches `bcrypt.compare` only for a known
      email, and there the comparison rejects, so the reply is the 500. */
  function Login(users: seq<User>, email: string, password: Option<string>, hash: string -> string)
    : (r: Result<LoginUser, Reply>)
    ensures r.Err? ==> r.error == InvalidCredentials || r.error == ServerError
    ensures r == Err(ServerError) <==> FindByEmail(users, email).Some? && password.None?
    ensures FindByEmail(users, email).None? ==> r == Err(InvalidCredentials)
    ensures r.Ok? ==> password.Some?
    ensures r.Ok? ==> exists k :: 0 <= k < |users| && users[k].email == email
                                  && users[k].password == hash(password.value)
                                  && r.value == LoginUser(users[k].id, users[k].name, users[k].email, users[k].role)
    ensures EmailsUnique(users) ==>
              (r.Ok? <==> password.Some? && exists k :: 0 <= k < |users| && users[k].email == email
                                                       && users[k].password == hash(password.value))
  {
    match FindByEmail(users, email)
    case None => Err(InvalidCredentials)
    case Some(k) =>
      var u := users[k];
      if password.None? then Err(ServerError)
      else if hash(password.value) != u.password then Err(InvalidCredentials)
      else Ok(LoginUser(u.id, u.name, u.email, u.role))
  }

  /** A registered user can log in with the password given at registration. */
  lemma RegisterThenLogin(users: seq<User>, id: UserId, name: string, email: string, role: string,
                          password: string, hash: string -> string)
    requires Registration(users, id, name, email, role, password, hash).Ok?
    ensures Login(users + [Registration(users, id, name, email, role, password, hash).value],
                  email, Some(password), hash).Ok?
  {
    var u := Registration(users, id, name, email, role, password, hash).value;
    var all := users + [u];
    assert FindByEmail(all, email) == Some(|users|) by {
      FindByEmailAppend(users, u, email);
    }
  }

  lemma {:induction false} FindByEmailAppend(users: seq<User>, u: User, email: string)
    requires FindByEmail(users, email).None? && u.email == email
    ensures FindByEmail(users + [u], email) == Some(|users|)
  {
    if users != [] {
      assert (users + [u])[1..] == users[1..] + [u];
      FindByEmailAppend(users[1..], u, email);
    }
  }

  /** A freshly registered user is shown with the `formatUser` defaults: no
      technologies, experience and charges 0, and no photo. */
  lemma RegisteredUserFormat(users: seq<User>, id: UserId, name: string, email: string, role: string,
                             password: string, hash: string -> string, envBaseUrl: string, envPort: string)
    requires Registration(users, id, name, email, role, password, hash).Ok?
    ensures var p := FormatUser(Registration(users, id, name, email, role, password, hash).value, envBaseUrl, envPort);
      && p.id == id && p.name == name && p.email == email
      && p.technologies == [] && p.experience == 0 && p.charges == 0 && p.photo.None?
  {
    var u := Registration(users, id, name, email, role, password, hash).value;
    assert u == NewUser(id, name, email, Some(if role == "" then "client" else role), hash(password)).value;
  }

  /** The reset window: fifteen minutes in milliseconds. */
  const ResetWindow: nat := 15 * 60 * 1000

  /** `POST /forgot-password`: store the digest of a fresh token and its expiry
      on the user with that email. */
  function ResetRequest(users: seq<User>, email: string, hashedToken: string, now: nat)
    : (r: Result<seq<User>, Reply>)
    ensures email == "" ==> r == Err(Reply(400, "Email required"))
    ensures email != "" && FindByEmail(users, email).None? ==> r == Err(Reply(404, "User not found"))
    ensures r.Ok? ==> FindByEmail(users, email).Some? && |r.value| == |users|
    ensures r.Ok? ==> var k := FindByEmail(users, email).value;
              r.value[k] == users[k].(resetPasswordToken := Some(hashedToken),
                                      resetPasswordExpires := Some(now + 900000))
              && forall j :: 0 <= j < |users| && j != k ==> r.value[j] == users[j]
  {
    if email == "" then Err(Reply(400, "Email required"))
    else match FindByEmail(users, email)
      case None => Err(Reply(404, "User not found"))
      case Some(k) =>
        Ok(users[k := users[k].(resetPasswordToken := Some(hashedToken),
                                resetPasswordExpires := Some(now + ResetWindow))])
  }

  /** The `findOne` condition of `/reset-password`: email matches, the stored
      digest is the digest of the presented token, and the expiry is still
      strictly in the future. */
  predicate CanReset(u: User, email: string, hashedToken: string, now: nat)
  {
    u.email == email && u.resetPasswordToken == Some(hashedToken)
    && u.resetPasswordExpires.Some? && u.resetPasswordExpires.value > now
  }

  function FindResettable(users: seq<User>, email: string, hashedToken: string, now: nat): (r: Option<nat>)
    ensures r.Some? ==> r.value < |users| && CanReset(users[r.value], email, hashedToken, now)
    ensures r.None? ==> forall j :: 0 <= j < |users| ==> !CanReset(users[j], email, hashedToken, now)
  {
    if users == [] then None
    else if CanReset(users[0], email, hashedToken, now) then Some(0)
    else match FindResettable(users[1..], email, hashedToken, now)
      case None => None
      case Some(k) => Some(k + 1)
  }

  /** `POST /reset-password`: on a valid token, store the new hash and clear
      both reset fields. */
  function PasswordReset(users: seq<User>, token: string, email: string, password: string,
                         digest: string -> string, hash: string -> string, now: nat)
    : (r: Result<seq<User>, Reply>)
    ensures token == "" || email == "" || password == "" ==>
              r == Err(Reply(400, "Missing required fields"))
    ensures r.Err? && token != "" && email != "" && password != "" ==>
              r == Err(Reply(400, "Invalid or expired token"))
              && forall j :: 0 <= j < |users| ==> !CanReset(users[j], email, digest(token), now)
    ensures r.Ok? ==> token != "" && email != "" && password != "" && |r.value| == |users|
    ensures r.Ok? ==>
              exists k :: 0 <= k < |users|
                && CanReset(users[k], email, digest(token), now)
                && r.value[k] == users[k].(password := hash(password), resetPasswordToken := None,
                                           resetPasswordExpires := None)
                && forall j :: 0 <= j < |users| && j != k ==> r.value[j] == users[j]
  {
    if token == "" || email == "" || password == "" then Err(Reply(400, "Missing required fields"))
    else match FindResettable(users, email, digest(token), now)
      case None => Err(Reply(400, "Invalid or expired token"))
      case Some(k) =>
        Ok(users[k := users[k].(password := hash(password), resetPasswordToken := None,
                                resetPasswordExpires := None)])
  }

  /** A token that succeeded once cannot succeed again: the reset cleared it
      and no other user has that email. */
  lemma ResetTokenSingleUse(users: seq<User>, token: string, email: string, password: string,
                            password2: string, digest: string -> string, hash: string -> string,
                            now: nat, now2: nat)
    requires EmailsUnique(users)
    requires PasswordReset(users, token, email, password, digest, hash, now).Ok?
    ensures PasswordReset(PasswordReset(users, token, email, password, digest, hash, now).value,
                          token, email, password2, digest, hash, now2).Err?
  {
    var after := PasswordReset(users, token, email, password, digest, hash, now).value;
    var k :| 0 <= k < |users| && CanReset(users[k], email, digest(token), now)
             && after[k] == users[k].(password := hash(password), resetPasswordToken := None,
                                      resetPasswordExpires := None)
             && forall j :: 0 <= j < |users| && j != k ==> after[j] == users[j];
    forall j | 0 <= j < |after| ensures !CanReset(after[j], email, digest(token), now2) {
      if j != k {
        assert users[j].email != users[k].email by {
          if j < k { } else { }
        }
      }
    }
  }

  /** A token only works before its expiry: once `now` reaches the stored
      expiry the same request is refused. */
  lemma ResetExpires(users: seq<User>, token: string, email: string, password: string,
                     digest: string -> string, hash: string -> string, issuedAt: nat, now: nat)
    requires EmailsUnique(users)
    requires var issued := ResetRequest(users, email, digest(token), issuedAt);
             issued.Ok?
    requires now >= issuedAt + ResetWindow
    ensures PasswordReset(ResetRequest(users, email, digest(token), issuedAt).value,
                          token, email, password, digest, hash, now).Err?
  {
    var issued := ResetRequest(users, email, digest(token), issuedAt).value;
    var k := FindByEmail(users, email).value;
    forall j | 0 <= j < |issued| ensures !CanReset(issued[j], email, digest(token), now) {
      if j != k {
        assert users[j].email != users[k].email by {
          if j < k { } else { }
        }
      }
    }
  }

  /** The user collection as the account routes change it in place. */
  class UserStore {
    var users: seq<User>
    var nextId: nat

    ghost predicate Valid()
      reads this
    {
      EmailsUnique(users) && IdsUnique(users)
      && forall k :: 0 <= k < |users| ==> users[k].id < nextId
    }

    constructor()
      ensures Valid() && users == []
    {
      users := [];
      nextId := 0;
    }

    method Register(name: string, email: string, role: string, password: string, hash: string -> string)
      returns (reply: Reply)
      requires Valid()
      modifies this
      ensures Valid()
      ensures match Registration(old(users), old(nextId), name, email, role, password, hash)
        case Err(e) => reply == e && users == old(users)
        case Ok(u) => reply == Reply(200, "User registered successfully") && users == old(users) + [u]
    {
      var decision := Registration(users, nextId, name, email, role, password, hash);
      if decision.Err? {
        return decision.error;
      }
      users := users + [decision.value];
      nextId := nextId + 1;
      reply := Reply(200, "User registered successfully");
    }

    method ForgotPassword(email: string, rawToken: string, digest: string -> string, now: nat)
      returns (reply: Reply)
      requires Valid()
      modifies this`users
      ensures Valid()
      ensures match ResetRequest(old(users), email, digest(rawToken), now)
        case Err(e) => reply == e && users == old(users)
        case Ok(updated) => reply == Reply(200, "Reset link sent to email") && users == updated
    {
      var decision := ResetRequest(users, email, digest(rawToken), now);
      if decision.Err? {
        return decision.error;
      }
      users := decision.value;
      reply := Reply(200, "Reset link sent to email");
    }

    method ResetPassword(token: string, email: string, password: string,
                         digest: string -> string, hash: string -> string, now: nat)
      returns (reply: Reply)
      requires Valid()
      modifies this`users
      ensures Valid()
      ensures match PasswordReset(old(users), token, email, password, digest, hash, now)
        case Err(e) => reply == e && users == old(users)
        case Ok(updated) => reply == Reply(200, "Password reset successful") && users == updated
    {
      var decision := PasswordReset(users, token, email, password, digest, hash, now);
      if decision.Err? {
        return decision.error;
      }
      users := decision.value;
      reply := Reply(200, "Password reset successful");
    }
  }
}
