/** The `User` schema: role enum and its default, reset-token fields and
    their null defaults. */
module UserModel {
  import opened Wrappers

  type UserId = nat

  datatype Role = Developer | Client | Admin

  /** The spelling of each role in the schema's enum. */
  function RoleName(r: Role): string
  {
    match r
    case Developer => "developer"
    case Client => "client"
    case Admin => "admin"
  }

  /** The enum validator: only the three spellings are accepted. */
  function ParseRole(s: string): (r: Option<Role>)
    ensures r.Some? ==> RoleName(r.value) == s
    ensures r.None? ==> s != "developer" && s != "client" && s != "admin"
  {
    if s == "developer" then Some(Developer)
    else if s == "client" then Some(Client)
    else if s == "admin" then Some(Admin)
    else None
  }

  lemma ParseRoleName(r: Role)
    ensures ParseRole(RoleName(r)) == Some(r)
  {
  }

  datatype User = User(
    id: UserId,
    name: string,
    email: string,
    role: Role,
    technologies: seq<string>,
    experience: Option<int>,
    charges: Option<int>,
    photo: string,
    password: string,
    resetPasswordToken: Option<string>,
    resetPasswordExpires: Option<nat>)

  /** Building and validating a new `User` document. An absent role takes the
      default "client"; photo defaults to "", the reset fields to null and
      technologies to the empty array. Email and password are required (the
      empty string fails a required string), and a role outside the enum fails. */
  function NewUser(id: UserId, name: string, email: string, role: Option<string>, password: string)
    : (r: Result<User, ValidationError>)
    ensures r.Ok? <==> email != "" && password != "" && (role.None? || ParseRole(role.value).Some?)
    ensures r.Ok? ==> r.value.id == id && r.value.name == name && r.value.email == email
                      && r.value.password == password
    ensures r.Ok? && role.None? ==> r.value.role == Client
    ensures r.Ok? && role.Some? ==> RoleName(r.value.role) == role.value
    ensures r.Ok? ==> r.value.photo == "" && r.value.technologies == []
                      && r.value.experience.None? && r.value.charges.None?
                      && r.value.resetPasswordToken.None? && r.value.resetPasswordExpires.None?
    ensures r.Err? ==> ("email" in r.error.paths <==> email == "")
                       && ("password" in r.error.paths <==> password == "")
                       && ("role" in r.error.paths <==> role.Some? && ParseRole(role.value).None?)
  {
    var parsed := if role.None? then Some(Client) else ParseRole(role.value);
    if email != "" && parsed.Some? && password != "" then
      Ok(User(id, name, email, parsed.value, [], None, None, "", password, None, None))
    else
      var names: seq<string> := ["email", "role", "password"];
      assert |names[0]| == 5 && |names[1]| == 4 && |names[2]| == 8;
      var paths := RequiredPaths(names, [email == "", parsed.None?, password == ""]);
      assert "email" in paths <==> email == "" by { assert names[0] == "email"; }
      assert "role" in paths <==> parsed.None? by { assert names[1] == "role"; }
      assert "password" in paths <==> password == "" by { assert names[2] == "password"; }
      Err(ValidationError(paths))
  }

  /** Lookup by id, as `User.findById` does. */
  function FindUser(users: seq<User>, id: UserId): (r: Option<User>)
    ensures r.Some? ==> r.value in users && r.value.id == id
    ensures r.None? ==> forall k :: 0 <= k < |users| ==> users[k].id != id
  {
    if users == [] then None
    else if users[0].id == id then Some(users[0])
    else FindUser(users[1..], id)
  }

  /** The unique index on email. */
  ghost predicate EmailsUnique(users: seq<User>)
  {
    forall i, j :: 0 <= i < j < |users| ==> users[i].email != users[j].email
  }

  ghost predicate IdsUnique(users: seq<User>)
  {
    forall i, j :: 0 <= i < j < |users| ==> users[i].id != users[j].id
  }
}
