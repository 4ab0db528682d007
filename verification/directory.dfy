/** The `populate("sender receiver", "name role")` step: a message's two user
    references resolved against the user collection, null where no user has
    that id. */
module Directory {
  import opened Wrappers
  import opened UserModel
  import opened MessageModel

  datatype Party = Party(id: UserId, name: string, role: Role)

  datatype EnrichedMessage = EnrichedMessage(message: Message, sender: Option<Party>, receiver: Option<Party>)

  function PartyOf(users: seq<User>, id: UserId): (r: Option<Party>)
    ensures r.Some? <==> exists k :: 0 <= k < |users| && users[k].id == id
    ensures r.Some? ==> exists u :: u in users && u.id == id && r.value == Party(id, u.name, u.role)
  {
    match FindUser(users, id)
    case None => None
    case Some(u) => Some(Party(u.id, u.name, u.role))
  }

  function Enrich(m: Message, users: seq<User>): (e: EnrichedMessage)
    ensures e.message == m
    ensures e.sender.Some? <==> exists k :: 0 <= k < |users| && users[k].id == m.sender
    ensures e.receiver.Some? <==> exists k :: 0 <= k < |users| && users[k].id == m.receiver
    ensures e.sender.Some? ==>
              exists u :: u in users && u.id == m.sender && e.sender.value == Party(m.sender, u.name, u.role)
    ensures e.receiver.Some? ==>
              exists u :: u in users && u.id == m.receiver && e.receiver.value == Party(m.receiver, u.name, u.role)
  {
    EnrichedMessage(m, PartyOf(users, m.sender), PartyOf(users, m.receiver))
  }
}
