/** The `Requirement` schema: required client, title and description, a
    status enum defaulting to pending, and an optional developer. */
module RequirementModel {
  import opened Wrappers
  import opened UserModel

  datatype Status = Pending | Accepted | Rejected

  function StatusName(s: Status): string
  {
    match s
    case Pending => "pending"
    case Accepted => "accepted"
    case Rejected => "rejected"
  }

  datatype Requirement = Requirement(
    id: nat,
    client: UserId,
    title: string,
    description: string,
    status: Status,
    developer: Option<UserId>)

  /** `new Requirement({...}).save()`: the three required paths are checked,
      status takes its default and no developer is set. */
  function NewRequirement(id: nat, client: Option<UserId>, title: Option<string>, description: Option<string>)
    : (r: Result<Requirement, ValidationError>)
    ensures r.Ok? <==> client.Some? && title.Some? && title.value != ""
                       && description.Some? && description.value != ""
    ensures r.Ok? ==> r.value == Requirement(id, client.value, title.value, description.value, Pending, None)
    ensures r.Err? ==> ("client" in r.error.paths <==> client.None?)
                       && ("title" in r.error.paths <==> title.None? || title.value == "")
                       && ("description" in r.error.paths <==> description.None? || description.value == "")
  {
    var noTitle := title.None? || title.value == "";
    var noDescription := description.None? || description.value == "";
    if client.Some? && !noTitle && !noDescription then
      Ok(Requirement(id, client.value, title.value, description.value, Pending, None))
    else
      var names: seq<string> := ["client", "title", "description"];
      assert |names[0]| == 6 && |names[1]| == 5 && |names[2]| == 11;
      var paths := RequiredPaths(names, [client.None?, noTitle, noDescription]);
      assert "client" in paths <==> client.None? by { assert names[0] == "client"; }
      assert "title" in paths <==> noTitle by { assert names[1] == "title"; }
      assert "description" in paths <==> noDescription by { assert names[2] == "description"; }
      Err(ValidationError(paths))
  }
}
