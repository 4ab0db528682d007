/** The project routes: the listing filter, with its admin override, and
    project creation. */
module Projects {
  import opened Wrappers
  import opened Http
  import opened UserModel
  import opened ProjectModel

  /** A Mongo filter over the two fields the route may constrain. */
  datatype Filter = Filter(client: Option<string>, developer: Option<string>)

  /** The `let filter` of `GET /`: `client` from `email`, `developer` from
      `developer`, each only when given, and reset to `{}` for an admin. */
  function ListingFilter(role: Role, email: string, developer: string): (f: Filter)
    ensures role == Admin ==> f == Filter(None, None)
    ensures role != Admin ==> (f.client.Some? <==> email != "") && (f.developer.Some? <==> developer != "")
    ensures f.client.Some? ==> f.client.value == email
    ensures f.developer.Some? ==> f.developer.value == developer
  {
    var withClient := if email != "" then Filter(Some(email), None) else Filter(None, None);
    var withDeveloper := if developer != "" then withClient.(developer := Some(developer)) else withClient;
    if role == Admin then Filter(None, None) else withDeveloper
  }

  predicate Matches(f: Filter, p: Project)
  {
    (f.client.Some? ==> p.client == f.client.value)
    && (f.developer.Some? ==> p.developer == Some(f.developer.value))
  }

  /** `Project.find(filter)`, in collection order. */
  function Find(projects: seq<Project>, f: Filter): (r: seq<Project>)
    ensures |r| <= |projects|
    ensures forall p :: p in r <==> p in projects && Matches(f, p)
  {
    if projects == [] then []
    else (if Matches(f, projects[0]) then [projects[0]] else []) + Find(projects[1..], f)
  }

  /** The result is the collection with the non-matching projects left out:
      in collection order, each match as often as in the collection. */
  lemma {:induction false} FindInOrder(projects: seq<Project>, f: Filter)
    ensures IsSubsequence(Find(projects, f), projects)
    ensures forall p :: multiset(Find(projects, f))[p] == if Matches(f, p) then multiset(projects)[p] else 0
  {
    if projects != [] {
      FindInOrder(projects[1..], f);
      var rest := Find(projects[1..], f);
      assert projects == [projects[0]] + projects[1..];
      if Matches(f, projects[0]) {
        assert Find(projects, f) == [projects[0]] + rest;
        assert ([projects[0]] + rest)[1..] == rest;
      } else {
        assert Find(projects, f) == rest;
      }
    }
  }

  /** `GET /`: the projects the filter matches, in collection order. */
  function Listing(projects: seq<Project>, role: Role, email: string, developer: string): (r: seq<Project>)
    ensures IsSubsequence(r, projects)
    ensures forall p :: multiset(r)[p] ==
              if Matches(ListingFilter(role, email, developer), p) then multiset(projects)[p] else 0
  {
    FindInOrder(projects, ListingFilter(role, email, developer));
    Find(projects, ListingFilter(role, email, developer))
  }

  /** What the listing returns: everything for an admin; otherwise the projects
      whose client is `email` (when given) and whose developer is `developer`
      (when given), so a non-admin with neither parameter gets everything. */
  lemma ListingExactly(projects: seq<Project>, role: Role, email: string, developer: string)
    ensures forall p :: p in Listing(projects, role, email, developer) <==>
      p in projects
      && (role == Admin
          || ((email == "" || p.client == email)
              && (developer == "" || p.developer == Some(developer))))
  {
  }

  /** An empty filter keeps the whole collection, in order. */
  lemma {:induction false} EmptyFilterKeepsAll(projects: seq<Project>)
    ensures Find(projects, Filter(None, None)) == projects
  {
    if projects != [] {
      EmptyFilterKeepsAll(projects[1..]);
      assert projects == [projects[0]] + projects[1..];
    }
  }

  lemma AdminSeesAll(projects: seq<Project>, email: string, developer: string)
    ensures Listing(projects, Admin, email, developer) == projects
  {
    EmptyFilterKeepsAll(projects);
  }

  lemma NoParametersSeesAll(projects: seq<Project>, role: Role)
    ensures Listing(projects, role, "", "") == projects
  {
    EmptyFilterKeepsAll(projects);
  }

  /** `POST /`: title and client are required; the project starts "pending". */
  function Creation(id: nat, title: string, client: string, developer: Option<string>,
                    deadline: Option<string>, requirements: Option<string>): (r: Result<Project, Reply>)
    ensures title == "" || client == "" ==> r == Err(Reply(400, "Title and client required"))
    ensures title != "" && client != "" ==> r.Ok?
    ensures r.Ok? ==> r.value.id == id && r.value.title == title && r.value.client == client
                      && r.value.developer == developer && r.value.deadline == deadline
                      && r.value.requirements == requirements && r.value.status == "pending"
  {
    if title == "" || client == "" then Err(Reply(400, "Title and client required"))
    else Ok(NewProject(id, title, client, developer, Some("pending"), deadline, requirements).value)
  }

  ghost predicate ProjectIdsUnique(projects: seq<Project>)
  {
    forall i, j :: 0 <= i < j < |projects| ==> projects[i].id != projects[j].id
  }

  /** The project collection, shared with the hire routes. */
  class ProjectStore {
    var projects: seq<Project>
    var nextId: nat

    ghost predicate Valid()
      reads this
    {
      ProjectIdsUnique(projects) && forall k :: 0 <= k < |projects| ==> projects[k].id < nextId
    }

    constructor()
      ensures Valid() && projects == []
    {
      projects := [];
      nextId := 0;
    }

    method Create(title: string, client: string, developer: Option<string>,
                  deadline: Option<string>, requirements: Option<string>)
      returns (r: Result<Project, Reply>)
      requires Valid()
      modifies this
      ensures Valid()
      ensures r == Creation(old(nextId), title, client, developer, deadline, requirements)
      ensures r.Err? ==> projects == old(projects)
      ensures r.Ok? ==> projects == old(projects) + [r.value]
    {
      r := Creation(nextId, title, client, developer, deadline, requirements);
      if r.Ok? {
        projects := projects + [r.value];
        nextId := nextId + 1;
      }
    }
  }
}
