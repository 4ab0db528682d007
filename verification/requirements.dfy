/** The requirements routes: a client posts a requirement, and a developer
    accepts or rejects one that is still pending. */
module Requirements {
  import opened Wrappers
  import opened Http
  import opened UserModel
  import opened RequirementModel

  /** The position of the requirement with that id, provided it is still
      pending: the condition `{_id: id, status: "pending"}`. */
  function PendingIndex(reqs: seq<Requirement>, id: nat): (r: Option<nat>)
    ensures r.Some? ==> r.value < |reqs| && reqs[r.value].id == id && reqs[r.value].status == Pending
    ensures r.None? ==> forall k :: 0 <= k < |reqs| ==> reqs[k].id != id || reqs[k].status != Pending
  {
    if reqs == [] then None
    else if reqs[0].id == id && reqs[0].status == Pending then Some(0)
    else match PendingIndex(reqs[1..], id)
      case None => None
      case Some(k) => Some(k + 1)
  }

  const AlreadyDecided: Reply := Reply(400, "Requirement already accepted or rejected")

  /** `PUT /:id/:action`: only a developer may decide; the action must be
      accept or reject; the update applies only to a pending requirement and
      records the status and the deciding developer. */
  function Decide(reqs: seq<Requirement>, caller: User, id: nat, action: string)
    : (r: Result<seq<Requirement>, Reply>)
    ensures caller.role != Developer ==> r == Err(Reply(403, "Only developers can accept/reject"))
    ensures caller.role == Developer && action != "accept" && action != "reject" ==>
              r == Err(Reply(400, "Invalid action"))
    ensures caller.role == Developer && (action == "accept" || action == "reject") ==>
              match PendingIndex(reqs, id)
              case None => r == Err(AlreadyDecided)
              case Some(k) =>
                && r.Ok? && |r.value| == |reqs|
                && r.value[k] == reqs[k].(status := if action == "accept" then Accepted else Rejected,
                                          developer := Some(caller.id))
                && StatusName(r.value[k].status) == action + "ed"
                && forall j :: 0 <= j < |reqs| && j != k ==> r.value[j] == reqs[j]
  {
    if caller.role != Developer then Err(Reply(403, "Only developers can accept/reject"))
    else if action != "accept" && action != "reject" then Err(Reply(400, "Invalid action"))
    else
      var status := if action == "accept" then Accepted else Rejected;
      match PendingIndex(reqs, id)
      case None => Err(AlreadyDecided)
      case Some(k) => Ok(reqs[k := reqs[k].(status := status, developer := Some(caller.id))])
  }

  ghost predicate RequirementIdsUnique(reqs: seq<Requirement>)
  {
    forall i, j :: 0 <= i < j < |reqs| ==> reqs[i].id != reqs[j].id
  }

  /** A decision is final: once a requirement was accepted or rejected, any
      further decision on it, by any developer, is refused and changes nothing. */
  lemma DecisionIsFinal(reqs: seq<Requirement>, first: User, second: User, id: nat, a1: string, a2: string)
    requires RequirementIdsUnique(reqs)
    requires Decide(reqs, first, id, a1).Ok?
    requires second.role == Developer && (a2 == "accept" || a2 == "reject")
    ensures Decide(Decide(reqs, first, id, a1).value, second, id, a2) == Err(AlreadyDecided)
  {
    var k := PendingIndex(reqs, id).value;
    var after := Decide(reqs, first, id, a1).value;
    forall j | 0 <= j < |after| ensures after[j].id != id || after[j].status != Pending {
      if j != k {
        assert after[j] == reqs[j];
      }
    }
  }

  /** Only a pending requirement can be decided, and the decided one is
      afterwards accepted or rejected by the caller. */
  lemma DecideOnlyPending(reqs: seq<Requirement>, caller: User, id: nat, action: string)
    requires Decide(reqs, caller, id, action).Ok?
    ensures exists k :: 0 <= k < |reqs| && reqs[k].id == id && reqs[k].status == Pending
                        && Decide(reqs, caller, id, action).value[k].status != Pending
                        && Decide(reqs, caller, id, action).value[k].developer == Some(caller.id)
  {
    var k := PendingIndex(reqs, id).value;
    assert reqs[k].id == id;
  }

  class RequirementBoard {
    var requirements: seq<Requirement>
    var nextId: nat

    ghost predicate Valid()
      reads this
    {
      RequirementIdsUnique(requirements)
      && forall k :: 0 <= k < |requirements| ==> requirements[k].id < nextId
    }

    constructor()
      ensures Valid() && requirements == []
    {
      requirements := [];
      nextId := 0;
    }

    /** `POST /`: a valid requirement is stored, but the broadcast that follows
        the save fails (no socket server is registered with the app), so the
        caller always receives the error reply. */
    method Post(caller: User, title: Option<string>, description: Option<string>) returns (reply: Reply)
      requires Valid()
      modifies this
      ensures Valid()
      ensures reply == Reply(500, "Error posting requirement")
      ensures match NewRequirement(old(nextId), Some(caller.id), title, description)
        case Ok(q) => requirements == old(requirements) + [q]
        case Err(_) => requirements == old(requirements)
    {
      var created := NewRequirement(nextId, Some(caller.id), title, description);
      if created.Ok? {
        requirements := requirements + [created.value];
        nextId := nextId + 1;
      }
      reply := Reply(500, "Error posting requirement");
    }

    method Put(caller: User, id: nat, action: string) returns (r: Result<Requirement, Reply>)
      requires Valid()
      modifies this`requirements
      ensures Valid()
      ensures match Decide(old(requirements), caller, id, action)
        case Err(e) => r == Err(e) && requirements == old(requirements)
        case Ok(after) => requirements == after
                          && r == Ok(after[PendingIndex(old(requirements), id).value])
    {
      var decided := Decide(requirements, caller, id, action);
      if decided.Err? {
        return Err(decided.error);
      }
      var k := PendingIndex(requirements, id).value;
      requirements := decided.value;
      r := Ok(requirements[k]);
    }
  }
}
