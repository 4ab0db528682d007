/** The Socket.IO layer of the server: the handshake middleware and the
    per-socket event handlers, over the message collection, the room
    registry and an outbox of room-addressed emissions. Handlers run one at
    a time. */
module Realtime {
  import opened Wrappers
  import opened UserModel
  import opened MessageModel
  import opened Presence
  import opened Directory
  import opened MessageStore

  /** The events the server emits, with their payloads. */
  datatype Event =
    | ReceiveMessage(payload: EnrichedMessage)
    | MessageDelivered(messageId: MessageId)
    | MessagesRead(readBy: UserId)
    | ResetUnread(from: UserId)
    | Typing(from: UserId)
    | StopTyping(from: UserId)

  /** `io.to(room).emit(event)`. */
  datatype Emission = Emission(room: UserId, event: Event)

  /** Why a handshake is refused; each carries the text of the error passed
      to `next`. */
  datatype AuthError = NoTokenProvided | InvalidToken | UserNotFound

  function AuthErrorText(e: AuthError): string
  {
    match e
    case NoTokenProvided => "No token provided"
    case InvalidToken => "Invalid token"
    case UserNotFound => "User not found"
  }

  /** The authentication middleware's decision. `verify` stands for
      `jwt.verify` with the server secret: None where it throws. */
  function Authenticate(token: string, verify: string -> Option<UserId>, users: seq<User>)
    : (r: Result<UserId, AuthError>)
    ensures r.Ok? <==> token != "" && verify(token).Some?
                       && exists k :: 0 <= k < |users| && users[k].id == verify(token).value
    ensures r.Ok? ==> r.value == verify(token).value
    ensures r == Err(NoTokenProvided) <==> token == ""
    ensures r == Err(InvalidToken) <==> token != "" && verify(token).None?
  {
    if token == "" then Err(NoTokenProvided)
    else match verify(token)
      case None => Err(InvalidToken)
      case Some(id) => if FindUser(users, id).None? then Err(UserNotFound) else Ok(id)
  }

  /** What a successful send emits: the populated message, still marked
      undelivered, to the receiver's room and then to the sender's room, and a
      delivery notice to the sender's room when the receiver was online. */
  function SendEmissions(m: Message, users: seq<User>, receiverOnline: bool): (out: seq<Emission>)
    ensures |out| == if receiverOnline then 3 else 2
    ensures forall e :: e in out ==> e.room == m.receiver || e.room == m.sender
  {
    [Emission(m.receiver, ReceiveMessage(Enrich(m, users))),
     Emission(m.sender, ReceiveMessage(Enrich(m, users)))]
    + (if receiverOnline then [Emission(m.sender, MessageDelivered(m.id))] else [])
  }

  lemma SendEmissionsShape(m: Message, users: seq<User>, receiverOnline: bool)
    ensures var out := SendEmissions(m, users, receiverOnline);
      && |out| == (if receiverOnline then 3 else 2)
      && out[0].room == m.receiver && out[0].event == ReceiveMessage(Enrich(m, users))
      && out[1].room == m.sender && out[1].event == ReceiveMessage(Enrich(m, users))
      && (receiverOnline ==> out[2] == Emission(m.sender, MessageDelivered(m.id)))
      && (forall k :: 0 <= k < |out| && out[k].event.ReceiveMessage? ==>
            k < 2 && out[k].event.payload.message == m)
      && (forall k :: 0 <= k < |out| && out[k].event.MessageDelivered? ==>
            receiverOnline && out[k].room == m.sender && out[k].event.messageId == m.id)
  {
  }

  /** The notice `forEach` emits for one message found undelivered. */
  function DeliveryNotice(m: Message): Emission
  {
    Emission(m.sender, MessageDelivered(m.id))
  }

  function DeliveryNotices(us: seq<Message>): seq<Emission>
  {
    if us == [] then [] else DeliveryNotices(us[..|us| - 1]) + [DeliveryNotice(us[|us| - 1])]
  }

  lemma DeliveryNoticesSnoc(us: seq<Message>, i: nat)
    requires i < |us|
    ensures DeliveryNotices(us[..i + 1]) == DeliveryNotices(us[..i]) + [DeliveryNotice(us[i])]
  {
    assert us[..i + 1][..i] == us[..i];
  }

  /** One notice per message, in order, each to that message's sender's room. */
  lemma {:induction false} DeliveryNoticesShape(us: seq<Message>)
    ensures |DeliveryNotices(us)| == |us|
    ensures forall k :: 0 <= k < |us| ==>
              DeliveryNotices(us)[k] == Emission(us[k].sender, MessageDelivered(us[k].id))
  {
    if us != [] {
      DeliveryNoticesShape(us[..|us| - 1]);
    }
  }

  /** A message stored while its receiver was offline is caught up by the
      receiver's next `markDelivered`: it becomes delivered and its sender is
      told, in the sender's room. */
  lemma OfflineMessageCaughtUp(ms: seq<Message>, m: Message)
    requires !m.delivered
    ensures var after := MarkDeliveredTo(ms + [m], m.receiver);
      && after[|ms|] == m.(delivered := true)
      && DeliveryNotice(m) in DeliveryNotices(Undelivered(ms + [m], m.receiver))
      && DeliveryNotice(m).room == m.sender
  {
    var us := Undelivered(ms + [m], m.receiver);
    assert (ms + [m])[|ms|] == m;
    assert m in us;
    var k :| 0 <= k < |us| && us[k] == m;
    DeliveryNoticesShape(us);
    assert DeliveryNotices(us)[k] == DeliveryNotice(m);
  }

  class ChatServer {
    /** The message collection; a message's id is its position. */
    var messages: seq<Message>
    /** Every connected socket and the user it authenticated as. */
    var sockets: Registry
    /** Every emission so far, oldest first. */
    var outbox: seq<Emission>

    ghost predicate Valid()
      reads this`messages
    {
      forall k :: 0 <= k < |messages| ==> messages[k].id == k
    }

    constructor()
      ensures Valid() && messages == [] && sockets == map[] && outbox == []
    {
      messages := [];
      sockets := map[];
      outbox := [];
    }

    /** `io.use(...)`: authenticate, then join the room named by the user id. */
    method Handshake(sid: SocketId, token: string, verify: string -> Option<UserId>, users: seq<User>)
      returns (r: Result<UserId, string>)
      requires Valid() && sid !in sockets
      modifies this
      ensures Valid() && messages == old(messages) && outbox == old(outbox)
      ensures match Authenticate(token, verify, users)
        case Ok(id) => r == Ok(id) && sockets == old(sockets)[sid := id]
        case Err(e) => r == Err(AuthErrorText(e)) && sockets == old(sockets)
    {
      match Authenticate(token, verify, users)
      case Ok(id) =>
        sockets := sockets[sid := id];
        r := Ok(id);
      case Err(e) =>
        r := Err(AuthErrorText(e));
    }

    /** `sendMessage`: save, populate, fan out to both rooms, then mark
        delivered when the receiver's room has a socket. */
    method SendMessage(sid: SocketId, receiver: Option<UserId>, body: Option<string>, now: nat, users: seq<User>)
      returns (r: Result<MessageId, ValidationError>)
      requires Valid() && sid in sockets
      modifies this`messages, this`outbox
      ensures Valid() && sockets == old(sockets)
      ensures FlagsOnlyRise(old(messages), messages)
      ensures match NewMessage(|old(messages)|, Some(sockets[sid]), receiver, body, now)
        case Err(e) =>
          r == Err(e) && messages == old(messages) && outbox == old(outbox)
        case Ok(m) =>
          var online := Online(sockets, m.receiver);
          && r == Ok(m.id)
          && messages == old(messages) + [m.(delivered := online)]
          && outbox == old(outbox) + SendEmissions(m, users, online)
    {
      var me := sockets[sid];
      var built := NewMessage(|messages|, Some(me), receiver, body, now);
      if built.Err? {
        return Err(built.error);
      }
      var m := built.value;
      var online := Online(sockets, m.receiver);
      outbox := outbox + SendEmissions(m, users, online);
      AppendFlagsOnlyRise(messages, m.(delivered := online));
      messages := messages + [m.(delivered := online)];
      r := Ok(m.id);
    }

    /** `markDelivered`: find the caller's undelivered messages, set them all
        delivered, then tell each one's sender. */
    method MarkDelivered(sid: SocketId)
      requires Valid() && sid in sockets
      modifies this`messages, this`outbox
      ensures Valid() && sockets == old(sockets)
      ensures messages == MarkDeliveredTo(old(messages), sockets[sid])
      ensures outbox == old(outbox) + DeliveryNotices(Undelivered(old(messages), sockets[sid]))
    {
      Sweep(sockets[sid]);
    }

    /** The body of `markDelivered` for the caller `me`. */
    method Sweep(me: UserId)
      requires Valid()
      modifies this`messages, this`outbox
      ensures Valid()
      ensures messages == MarkDeliveredTo(old(messages), me)
      ensures outbox == old(outbox) + DeliveryNotices(Undelivered(old(messages), me))
    {
      var undelivered := Undelivered(messages, me);
      if undelivered != [] {
        SetDelivered(me);
        Announce(undelivered);
      } else {
        NothingUndeliveredNoChange(messages, me);
        assert DeliveryNotices(undelivered) == [];
      }
    }

    /** The `updateMany` of `markDelivered`: every message to `me` becomes delivered. */
    method SetDelivered(me: UserId)
      requires Valid()
      modifies this`messages
      ensures Valid() && messages == MarkDeliveredTo(old(messages), me)
    {
      messages := MarkDeliveredTo(messages, me);
    }

    /** The `forEach` of `markDelivered`: one delivery notice per message, in order. */
    method Announce(us: seq<Message>)
      modifies this`outbox
      ensures outbox == old(outbox) + DeliveryNotices(us)
    {
      var i := 0;
      while i < |us|
        invariant 0 <= i <= |us|
        invariant outbox == old(outbox) + DeliveryNotices(us[..i])
      {
        DeliveryNoticesSnoc(us, i);
        outbox := outbox + [DeliveryNotice(us[i])];
        i := i + 1;
      }
      assert us[..i] == us;
    }

    /** `readMessages(from)`: mark read what `from` sent the caller; tell `from`
        only if something changed; always reset the caller's badge. */
    method ReadMessages(sid: SocketId, from: UserId)
      requires Valid() && sid in sockets
      modifies this`messages, this`outbox
      ensures Valid() && sockets == old(sockets)
      ensures messages == MarkReadFrom(old(messages), from, sockets[sid])
      ensures outbox == old(outbox)
        + (if CountUnread(old(messages), from, sockets[sid]) > 0
           then [Emission(from, MessagesRead(sockets[sid]))] else [])
        + [Emission(sockets[sid], ResetUnread(from))]
    {
      var me := sockets[sid];
      var modifiedCount := CountUnread(messages, from, me);
      messages := MarkReadFrom(messages, from, me);
      if modifiedCount > 0 {
        outbox := outbox + [Emission(from, MessagesRead(me))];
      }
      outbox := outbox + [Emission(me, ResetUnread(from))];
    }

    /** `typing`: relayed to the receiver's room, nothing stored. */
    method Typing(sid: SocketId, receiverId: UserId)
      requires Valid() && sid in sockets
      modifies this`outbox
      ensures outbox == old(outbox) + [Emission(receiverId, Event.Typing(sockets[sid]))]
    {
      outbox := outbox + [Emission(receiverId, Event.Typing(sockets[sid]))];
    }

    /** `stopTyping`: relayed to the receiver's room, nothing stored. */
    method StopTyping(sid: SocketId, receiverId: UserId)
      requires Valid() && sid in sockets
      modifies this`outbox
      ensures outbox == old(outbox) + [Emission(receiverId, Event.StopTyping(sockets[sid]))]
    {
      outbox := outbox + [Emission(receiverId, Event.StopTyping(sockets[sid]))];
    }

    /** `disconnect`: the socket leaves its room. */
    method Disconnect(sid: SocketId)
      requires Valid() && sid in sockets
      modifies this`sockets
      ensures sockets == old(sockets) - {sid}
    {
      sockets := sockets - {sid};
    }
  }
}
