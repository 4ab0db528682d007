/** The `Project` schema: required title and client, optional developer,
    deadline and requirements, and a free-text status defaulting to "pending".
    Unlike the other records it has no timestamps. */
module ProjectModel {
  import opened Wrappers

  datatype Project = Project(
    id: nat,
    title: string,
    client: string,
    developer: Option<string>,
    status: string,
    deadline: Option<string>,
    requirements: Option<string>)

  const DefaultStatus: string := "pending"

  /** `new Project({...})` validated: title and client are required, an absent
      status becomes "pending", the optional fields are kept as given. */
  function NewProject(id: nat, title: string, client: string, developer: Option<string>,
                      status: Option<string>, deadline: Option<string>, requirements: Option<string>)
    : (r: Result<Project, ValidationError>)
    ensures r.Ok? <==> title != "" && client != ""
    ensures r.Ok? ==> r.value.id == id && r.value.title == title && r.value.client == client
                      && r.value.developer == developer && r.value.deadline == deadline
                      && r.value.requirements == requirements
    ensures r.Ok? && status.None? ==> r.value.status == DefaultStatus
    ensures r.Ok? && status.Some? ==> r.value.status == status.value
    ensures r.Err? ==> ("title" in r.error.paths <==> title == "")
                       && ("client" in r.error.paths <==> client == "")
  {
    if title != "" && client != "" then
      Ok(Project(id, title, client, developer,
                 if status.Some? then status.value else DefaultStatus, deadline, requirements))
    else
      var names: seq<string> := ["title", "client"];
      assert |names[0]| == 5 && |names[1]| == 6;
      var paths := RequiredPaths(names, [title == "", client == ""]);
      assert "title" in paths <==> title == "" by { assert names[0] == "title"; }
      assert "client" in paths <==> client == "" by { assert names[1] == "client"; }
      Err(ValidationError(paths))
  }
}
