/** The hire routes: creating, listing and cancelling hire requests, and
    accepting or rejecting one, which starts (or restarts) the matching
    project and notifies the client. */
module Hire {
  import opened Wrappers
  import opened Http
  import opened ProjectModel
  import opened NotificationModel
  import opened Projects

  /** A hire request with the fields the routes set; `status` is None until a
      decision is recorded, since the Hire schema's default is not part of
      this model. */
  datatype HireRequest = HireRequest(
    id: nat,
    clientEmail: string,
    developerEmail: string,
    projectTitle: string,
    description: string,
    requirements: string,
    amount: int,
    status: Option<string>)

  const AllFieldsRequired: Reply := Reply(400, "All fields are required")

  /** `POST /`: all six fields must be truthy, so an amount of 0 is missing too. */
  function HireCreation(id: nat, clientEmail: string, developerEmail: string, projectTitle: string,
                        description: string, requirements: string, amount: Option<int>)
    : (r: Result<HireRequest, Reply>)
    ensures r.Ok? <==> clientEmail != "" && developerEmail != "" && projectTitle != ""
                       && description != "" && requirements != "" && amount.Some? && amount.value != 0
    ensures r.Err? ==> r.error == AllFieldsRequired
    ensures r.Ok? ==> r.value.id == id && r.value.clientEmail == clientEmail
                      && r.value.developerEmail == developerEmail && r.value.projectTitle == projectTitle
                      && r.value.description == description && r.value.requirements == requirements
                      && r.value.amount == amount.value && r.value.status.None?
  {
    if clientEmail == "" || developerEmail == "" || projectTitle == "" || description == ""
       || requirements == "" || amount.None? || amount.value == 0
    then Err(AllFieldsRequired)
    else Ok(HireRequest(id, clientEmail, developerEmail, projectTitle, description, requirements,
                        amount.value, None))
  }

  /** `Hire.find({developerEmail})`, in collection order. */
  function WithDeveloper(requests: seq<HireRequest>, developerEmail: string): (r: seq<HireRequest>)
    ensures |r| <= |requests|
    ensures forall q :: q in r <==> q in requests && q.developerEmail == developerEmail
  {
    if requests == [] then []
    else (if requests[0].developerEmail == developerEmail then [requests[0]] else [])
         + WithDeveloper(requests[1..], developerEmail)
  }

  /** The developer's list is the collection with other requests left out:
      in collection order, each request as often as in the collection. */
  lemma {:induction false} WithDeveloperInOrder(requests: seq<HireRequest>, developerEmail: string)
    ensures IsSubsequence(WithDeveloper(requests, developerEmail), requests)
    ensures forall q :: multiset(WithDeveloper(requests, developerEmail))[q]
                        == if q.developerEmail == developerEmail then multiset(requests)[q] else 0
  {
    if requests != [] {
      WithDeveloperInOrder(requests[1..], developerEmail);
      var rest := WithDeveloper(requests[1..], developerEmail);
      assert requests == [requests[0]] + requests[1..];
      if requests[0].developerEmail == developerEmail {
        assert WithDeveloper(requests, developerEmail) == [requests[0]] + rest;
        assert ([requests[0]] + rest)[1..] == rest;
      } else {
        assert WithDeveloper(requests, developerEmail) == rest;
      }
    }
  }

  /** `GET /?developerEmail=`: the email is required. */
  function ListForDeveloper(requests: seq<HireRequest>, developerEmail: string)
    : (r: Result<seq<HireRequest>, Reply>)
    ensures r.Err? <==> developerEmail == ""
    ensures r.Err? ==> r.error == Reply(400, "Developer email required")
    ensures r.Ok? ==> forall q :: q in r.value <==> q in requests && q.developerEmail == developerEmail
    ensures r.Ok? ==> IsSubsequence(r.value, requests)
    ensures r.Ok? ==> forall q :: multiset(r.value)[q]
                                  == if q.developerEmail == developerEmail then multiset(requests)[q] else 0
  {
    if developerEmail == "" then Err(Reply(400, "Developer email required"))
    else
      WithDeveloperInOrder(requests, developerEmail);
      Ok(WithDeveloper(requests, developerEmail))
  }

  /** `Hire.findById(id)`: the position of the request with that id. */
  function FindRequest(requests: seq<HireRequest>, id: nat): (r: Option<nat>)
    ensures r.Some? ==> r.value < |requests| && requests[r.value].id == id
    ensures r.None? ==> forall j :: 0 <= j < |requests| ==> requests[j].id != id
  {
    if requests == [] then None
    else if requests[0].id == id then Some(0)
    else match FindRequest(requests[1..], id)
      case None => None
      case Some(k) => Some(k + 1)
  }

  ghost predicate RequestIdsUnique(requests: seq<HireRequest>)
  {
    forall i, j :: 0 <= i < j < |requests| ==> requests[i].id != requests[j].id
  }

  /** `DELETE /:id` removes that request, keeps every other one, and leaves no
      request with that id behind. */
  lemma DeleteRemovesExactly(requests: seq<HireRequest>, id: nat)
    requires RequestIdsUnique(requests) && FindRequest(requests, id).Some?
    ensures var k := FindRequest(requests, id).value;
      var rest := requests[..k] + requests[k + 1..];
      && FindRequest(rest, id).None?
      && multiset(rest) + multiset{requests[k]} == multiset(requests)
  {
    var k := FindRequest(requests, id).value;
    var rest := requests[..k] + requests[k + 1..];
    forall j | 0 <= j < |rest| ensures rest[j].id != id {
      if j < k { assert rest[j] == requests[j]; } else { assert rest[j] == requests[j + 1]; }
    }
    assert requests == requests[..k] + [requests[k]] + requests[k + 1..];
  }

  datatype Decision = Accept | Reject

  /** `["accept", "reject"].includes(action)`. */
  function ParseAction(action: string): (d: Option<Decision>)
    ensures d == Some(Accept) <==> action == "accept"
    ensures d == Some(Reject) <==> action == "reject"
  {
    if action == "accept" then Some(Accept)
    else if action == "reject" then Some(Reject)
    else None
  }

  function StatusFor(d: Decision): string
  {
    if d == Accept then "accepted" else "rejected"
  }

  /** The mark that opens a notification: a check mark for accept, a cross for reject. */
  function Mark(d: Decision): char
  {
    if d == Accept then '\U{2705}' else '\U{274C}'
  }

  /** The client's notification text for a decision. */
  function NotificationText(d: Decision, title: string, developerEmail: string): (r: string)
    ensures |r| > 0 && (r[0] == '\U{2705}' <==> d == Accept) && (r[0] == '\U{274C}' <==> d == Reject)
  {
    [Mark(d)] + " Your hire request for \"" + title + "\" was " + StatusFor(d) + " by " + developerEmail
  }

  /** The text names the project title, quoted, and ends with the developer's email. */
  lemma NotificationNamesTitleAndDeveloper(d: Decision, title: string, developerEmail: string)
    ensures var text := NotificationText(d, title, developerEmail);
      && 25 + |title| <= |text|
      && text[25..25 + |title|] == title
      && text[24] == '"' && text[25 + |title|] == '"'
      && text[|text| - |developerEmail|..] == developerEmail
  {
    var lead := [Mark(d)] + " Your hire request for \"";
    var tail := "\" was " + StatusFor(d) + " by ";
    assert |lead| == 25 && lead[24] == '"';
    var text := NotificationText(d, title, developerEmail);
    assert text == lead + title + tail + developerEmail;
    assert tail[0] == '"';
  }

  /** `Project.findOne({title, client, developer})`: the first match. */
  function FindProject(projects: seq<Project>, title: string, client: string, developer: string)
    : (r: Option<nat>)
    ensures r.Some? ==> r.value < |projects| && IsHireProject(projects[r.value], title, client, developer)
    ensures r.Some? ==> forall j :: 0 <= j < r.value ==> !IsHireProject(projects[j], title, client, developer)
    ensures r.None? ==> forall j :: 0 <= j < |projects| ==> !IsHireProject(projects[j], title, client, developer)
  {
    if projects == [] then None
    else if IsHireProject(projects[0], title, client, developer) then Some(0)
    else match FindProject(projects[1..], title, client, developer)
      case None => None
      case Some(k) => Some(k + 1)
  }

  predicate IsHireProject(p: Project, title: string, client: string, developer: string)
  {
    p.title == title && p.client == client && p.developer == Some(developer)
  }

  const InProgress: string := "in-progress"

  /** On accept: the first project for (title, client, developer) is set
      in progress, or, when there is none, a new one is created with the
      request's requirements and `today` as deadline. */
  function StartProject(projects: seq<Project>, q: HireRequest, newId: nat, today: string): (r: seq<Project>)
    ensures |r| == |projects| || |r| == |projects| + 1
    ensures forall j :: 0 <= j < |projects| ==> r[j] == projects[j] || r[j] == projects[j].(status := InProgress)
  {
    match FindProject(projects, q.projectTitle, q.clientEmail, q.developerEmail)
    case Some(k) => projects[k := projects[k].(status := InProgress)]
    case None =>
      projects + [Project(newId, q.projectTitle, q.clientEmail, Some(q.developerEmail), InProgress,
                          Some(today), Some(q.requirements))]
  }

  /** After accepting, a project for the triple is in progress; at most one
      project was added, and only when none matched; an existing match keeps
      every field but its status, and every other project is unchanged. */
  lemma StartProjectEffect(projects: seq<Project>, q: HireRequest, newId: nat, today: string)
    ensures var r := StartProject(projects, q, newId, today);
      && (exists k :: 0 <= k < |r| && IsHireProject(r[k], q.projectTitle, q.clientEmail, q.developerEmail)
                      && r[k].status == InProgress)
      && (FindProject(projects, q.projectTitle, q.clientEmail, q.developerEmail).Some? ==> |r| == |projects|)
      && (FindProject(projects, q.projectTitle, q.clientEmail, q.developerEmail).None? ==>
            |r| == |projects| + 1 && r[..|projects|] == projects
            && r[|projects|].requirements == Some(q.requirements))
      && (forall j :: (0 <= j < |projects| && !IsHireProject(projects[j], q.projectTitle, q.clientEmail, q.developerEmail))
                        ==> r[j] == projects[j])
      && (var found := FindProject(projects, q.projectTitle, q.clientEmail, q.developerEmail);
          found.Some? ==>
            && r[found.value] == projects[found.value].(status := InProgress)
            && forall j :: 0 <= j < |projects| && j != found.value ==> r[j] == projects[j])
  {
    var r := StartProject(projects, q, newId, today);
    match FindProject(projects, q.projectTitle, q.clientEmail, q.developerEmail)
    case Some(k) =>
      assert IsHireProject(r[k], q.projectTitle, q.clientEmail, q.developerEmail);
    case None =>
      assert IsHireProject(r[|projects|], q.projectTitle, q.clientEmail, q.developerEmail);
  }

  /** Accepting twice creates no second project: the second accept finds the first's. */
  lemma StartProjectTwiceAddsOnce(projects: seq<Project>, q: HireRequest, id1: nat, id2: nat, today: string)
    ensures |StartProject(StartProject(projects, q, id1, today), q, id2, today)|
            == |StartProject(projects, q, id1, today)|
  {
    StartProjectEffect(projects, q, id1, today);
  }

  class HireService {
    var requests: seq<HireRequest>
    var notifications: seq<Notification>
    var nextId: nat
    /** The project collection the accept path writes to. */
    const store: ProjectStore

    /** Ids are unique and issued below `nextId`; every stored request passed
        creation, so a project started from it has a title and a client. */
    ghost predicate Valid()
      reads this, store
    {
      RequestIdsUnique(requests)
      && (forall k :: 0 <= k < |requests| ==> requests[k].id < nextId)
      && (forall k :: 0 <= k < |requests| ==> requests[k].projectTitle != "" && requests[k].clientEmail != "")
      && store.Valid()
    }

    constructor(store: ProjectStore)
      requires store.Valid()
      ensures Valid() && this.store == store && requests == [] && notifications == []
    {
      this.store := store;
      requests := [];
      notifications := [];
      nextId := 0;
    }

    method Create(clientEmail: string, developerEmail: string, projectTitle: string,
                  description: string, requirements: string, amount: Option<int>)
      returns (r: Result<HireRequest, Reply>)
      requires Valid()
      modifies this
      ensures Valid() && notifications == old(notifications)
      ensures r == HireCreation(old(nextId), clientEmail, developerEmail, projectTitle, description,
                                requirements, amount)
      ensures r.Err? ==> requests == old(requests)
      ensures r.Ok? ==> requests == old(requests) + [r.value]
    {
      r := HireCreation(nextId, clientEmail, developerEmail, projectTitle, description, requirements, amount);
      if r.Ok? {
        requests := requests + [r.value];
        nextId := nextId + 1;
      }
    }

    method Delete(id: nat) returns (reply: Reply)
      requires Valid()
      modifies this`requests
      ensures Valid()
      ensures match FindRequest(old(requests), id)
        case None => reply == Reply(404, "Request not found") && requests == old(requests)
        case Some(k) => reply == Reply(200, "Hire request cancelled")
                        && requests == old(requests)[..k] + old(requests)[k + 1..]
    {
      var found := FindRequest(requests, id);
      if found.None? {
        return Reply(404, "Request not found");
      }
      var k := found.value;
      ghost var before := requests;
      requests := requests[..k] + requests[k + 1..];
      assert forall j :: 0 <= j < |requests| ==> requests[j] in before;
      reply := Reply(200, "Hire request cancelled");
    }

    /** The accept path's upsert, applied to the project collection. */
    method StartProjectFor(q: HireRequest, today: string)
      requires store.Valid()
      modifies store
      ensures store.Valid()
      ensures store.projects == StartProject(old(store.projects), q, old(store.nextId), today)
    {
      var started := StartProject(store.projects, q, store.nextId, today);
      if |started| > |store.projects| {
        store.nextId := store.nextId + 1;
      }
      store.projects := started;
    }

    /** `PATCH /`: record the decision without looking at the previous status,
        start the project on accept, and notify the client either way. */
    method Patch(requestId: Option<nat>, action: string, today: string) returns (reply: Reply)
      requires Valid()
      modifies this, store
      ensures Valid()
      ensures requestId.None? || ParseAction(action).None? ==>
                reply == Reply(400, "Invalid data") && unchanged(this) && unchanged(store)
      ensures requestId.Some? && ParseAction(action).Some? && FindRequest(old(requests), requestId.value).None? ==>
                reply == Reply(404, "Request not found") && unchanged(this) && unchanged(store)
      ensures requestId.Some? && ParseAction(action).Some? && FindRequest(old(requests), requestId.value).Some? ==>
                var k := FindRequest(old(requests), requestId.value).value;
                var d := ParseAction(action).value;
                var q := old(requests)[k];
                && reply == Reply(200, "Request " + action + "ed successfully!")
                && requests == old(requests)[k := q.(status := Some(StatusFor(d)))]
                && notifications == old(notifications)
                     + [Notification(q.clientEmail, NotificationText(d, q.projectTitle, q.developerEmail))]
                && (d == Accept ==> store.projects == StartProject(old(store.projects), q, old(store.nextId), today))
                && (d == Reject ==> store.projects == old(store.projects))
    {
      if requestId.None? || ParseAction(action).None? {
        return Reply(400, "Invalid data");
      }
      var d := ParseAction(action).value;
      var found := FindRequest(requests, requestId.value);
      if found.None? {
        return Reply(404, "Request not found");
      }
      var k := found.value;
      var q := requests[k];
      requests := requests[k := q.(status := Some(StatusFor(d)))];
      if d == Accept {
        StartProjectFor(q, today);
      }
      notifications := notifications
        + [Notification(q.clientEmail, NotificationText(d, q.projectTitle, q.developerEmail))];
      reply := Reply(200, "Request " + action + "ed successfully!");
    }
  }
}
