# CodeCommunity backend — a Dafny model of its core

CodeCommunity is a marketplace backend written as an Express/Mongoose/Socket.IO
server. Clients and developers chat in real time, post and accept
requirements, send hire requests, and work on projects. This project models
the record-level behaviour of that server and proves properties of it.

- **Realtime chat** (`realtime.dfy`, with `presence.dfy`, `message_store.dfy`
  and `directory.dfy`). The Socket.IO handshake and the socket event handlers
  are the methods of `Realtime.ChatServer`. Its state is three things:
  - the message collection;
  - a registry from socket to authenticated user, where a user's private
    room is the set of that user's sockets;
  - an outbox of room-addressed emissions.

  The bulk updates are filter-then-set functions over the message sequence.
  Both flags only ever rise.
- **Chat queries** (`chat_queries.dfy`). These are pure functions:
  - the counterpart list, using the opposite-role rule, with each counterpart's
    latest message and unread count;
  - the pairwise history, sorted by creation time.
- **Accounts** (`auth.dfy`):
  - `formatUser`;
  - registration;
  - the login check;
  - the password-reset token's issue, check and clearing.

  Each route is a pure decision function. `Auth.UserStore` applies it to the
  user collection.
- **Projects, hire requests and requirements** (`projects.dfy`, `hire.dfy`,
  `requirements.dfy`). These are classes holding the collections. Their
  methods change the collections in place, and each route's guards and
  transitions are pure functions with lemmas.
- **Schemas** (`models_*.dfy`). Records, defaults and the `required`,
  `enum` and `trim` validators.

Conventions:
- Record ids are natural numbers. A message's id is its position in the
  collection, and the other collections issue ids from a counter.
- A missing or falsy string field is `""`. An optional JSON field is an
  `Option`.
- A route's reply is `Http.Reply(status, message)`.
- These are parameters, not modelled:
  - bcrypt hashing (`hash`);
  - SHA-256 token digests (`digest`);
  - `jwt.verify` (`verify`);
  - the clock (`now`, in milliseconds);
  - the date used as a new project's deadline (`today`).

Behaviour of the code that the model keeps as written:
- `resetUnread` is emitted to the reader's whole room, including the reading
  socket, on every `readMessages`.
- "Online" means the receiver's room holds at least one socket.
- A failed save in `sendMessage` is only logged. Nothing is stored or
  emitted, and nothing is sent back to the sender.
- The requirements router's `POST /` stores a valid requirement. Its reply is still
  always 500 "Error posting requirement", because `req.app.get("io")` is never
  set, so the broadcast after the save throws. `Requirements.RequirementBoard.Post`
  models this as written.
- The requirements router is not mounted by `server.js`. Its transition logic
  is modelled as the file defines it.

## Model

| member | source | states |
|---|---|---|
| UserModel.ParseRole | models/User.js:6 | Only "developer", "client" and "admin" are accepted, each as its own role. |
| UserModel.ParseRoleName | models/User.js:6 | Every role's spelling parses back to that role. |
| UserModel.NewUser | models/User.js:3-14 | A new user is valid iff email and password are non-empty and the role is absent or in the enum. An absent role becomes client. Photo is "", technologies are empty, and both reset fields are null. Each failing path is named in the validation error. |
| UserModel.FindUser | server.js:106 | A found user has the requested id. None means no user has it. |
| MessageModel.Trim | models/Message.js:18 | The trimmed body is a slice of the input with only whitespace cut off before and after it, and it neither starts nor ends with whitespace. |
| MessageModel.TrimEmptyIff | models/Message.js:15-19 | A body trims to the empty string exactly when it is all JavaScript whitespace. |
| MessageModel.TrimIdempotent | models/Message.js:18 | Trimming twice is trimming once. |
| MessageModel.TrimStart | models/Message.js:18 | Removes a leading run of whitespace exactly. The result is a suffix of the input, all of the cut part is whitespace, and the result does not start with whitespace. |
| MessageModel.TrimEnd | models/Message.js:18 | The mirror image of `TrimStart` for trailing whitespace. |
| MessageModel.NewMessage | models/Message.js:3-30 | Save succeeds iff sender, receiver and a non-whitespace body are present. The stored body is the trimmed text and is non-empty. Both flags start false and createdAt is the save time. Each missing path is named in the error. |
| RequirementModel.NewRequirement | models/Requirement.js:3-12 | Valid iff client, title and description are present. A valid requirement is pending with no developer. Each missing path is named in the error. |
| ProjectModel.NewProject | models/Project.js:3-10 | Valid iff title and client are non-empty. An absent status is "pending". The optional fields are kept as given. |
| Presence.OnlineIffRoomNonEmpty | server.js:144-145 | A receiver counts as online exactly when its room holds a socket. |
| Presence.RoomAfterJoin | server.js:110-111 | A handshake adds the socket to its own user's room and to no other room. |
| Presence.RoomAfterLeave | server.js:210-212 | A disconnect removes the socket from its room and changes nothing else. |
| Presence.TwoTabsThenLeave | server.js:110-111 | When a user has two sockets and one leaves, the other stays in the room. |
| Directory.PartyOf | server.js:134-137 | Population yields a party iff some user has the id. The party carries that id and the name and role of a user with it. |
| Directory.Enrich | server.js:134-137 | The populated message carries the stored message unchanged. Sender and receiver resolve iff a user has the referenced id, and each resolved party has the id, name and role of such a user. |
| MessageStore.FlagsOnlyRiseTransitive | server.js:146-187 | The rule that flags never fall and records keep their identity holds across any number of updates. |
| MessageStore.AppendFlagsOnlyRise | server.js:133 | Saving a new message changes no existing record. |
| MessageStore.Undelivered | server.js:159-162 | Finds exactly the caller's messages with delivered false. It is empty iff none exists. |
| MessageStore.UndeliveredInOrder | server.js:159-162 | The result is a subsequence of the store, in store order. Each message awaiting delivery appears as often as in the store, and no other message appears. |
| MessageStore.MarkDeliveredTo | server.js:165-168 | Every message to the caller becomes delivered. All other messages are unchanged. No flag falls. |
| MessageStore.MarkReadFrom | server.js:184-187 | Exactly the messages from `from` to the caller become read. All other messages are unchanged. No flag falls. |
| MessageStore.CountUnread | routes/chat.js:31-35 | The count is at most the store size, and a count of 0 means no message from the counterpart to the caller is unread. |
| MessageStore.CountUnreadIsCount | routes/chat.js:31-35 | The unread count equals the number of positions holding a message from the counterpart to the caller that is still unread. |
| MessageStore.CountUnreadPositiveIff | routes/chat.js:31-35 | The unread count is positive iff some message from the counterpart to the caller is unread. |
| MessageStore.MarkReadChangesIff | server.js:184-189 | The read update changes the store iff the unread count is positive. This is the `modifiedCount > 0` test. |
| MessageStore.UnreadZeroAfterRead | server.js:184-187 | After the read update, nothing from `from` to the caller is unread. |
| MessageStore.UpdatesTouchOneFlag | server.js:165-187 | The read update leaves `delivered` alone, and the delivery update leaves `read` alone. |
| MessageStore.NothingUndeliveredNoChange | server.js:164-175 | When nothing awaits delivery, the delivery update changes nothing. |
| MessageStore.DeliveredSweepIdempotent | server.js:159-175 | After a delivery sweep nothing awaits delivery, and a second sweep changes nothing. |
| MessageStore.ReadSweepIdempotent | server.js:184-187 | The read update is idempotent. |
| MessageStore.ReadDoesNotNeedDelivered | server.js:184-187 | A message can become read while it is still recorded as undelivered. |
| Realtime.Authenticate | server.js:100-117 | The handshake succeeds iff a token is present, it verifies, and a user with the decoded id exists. Each refusal carries its own error. |
| Realtime.SendEmissions | server.js:139-150 | Three emissions when the receiver is online and two otherwise, each addressed to the receiver's or the sender's room. |
| Realtime.SendEmissionsShape | server.js:134-150 | The first emission is `receiveMessage` to the receiver's room and the second is `receiveMessage` to the sender's room, both carrying the populated message `Enrich(m, users)`: the stored message with sender and receiver resolved to their name and role. When the receiver is online, the third is `messageDelivered` with the message id, to the sender's room. No `messageDelivered` is sent otherwise. |
| Realtime.DeliveryNoticesShape | server.js:170-174 | Each undelivered message gets one `messageDelivered` notice, in order, sent to that message's sender's room. |
| Realtime.OfflineMessageCaughtUp | server.js:157-175 | A message stored while its receiver was offline becomes delivered on the receiver's next sweep, and its sender is notified. |
| Realtime.ChatServer.Handshake | server.js:100-117 | On success the socket joins exactly its user's room. On refusal the error passed to `next` carries that refusal's text, and nothing changes. Messages and outbox never change. |
| Realtime.ChatServer.SendMessage | server.js:124-154 | A failed save stores and emits nothing. Otherwise exactly one message is appended, carrying the socket's user as sender and marked delivered iff the receiver is online. The emissions are those of `SendEmissions`, and no existing flag falls. |
| Realtime.ChatServer.MarkDelivered | server.js:157-179 | The store becomes `MarkDeliveredTo` of the old store. One notice per previously undelivered message is emitted. |
| Realtime.ChatServer.Sweep | server.js:159-175 | For the caller `me`: the store becomes `MarkDeliveredTo` of the old store, and the outbox gains exactly the delivery notices of the old undelivered list. Ids stay positions. |
| Realtime.ChatServer.SetDelivered | server.js:165-168 | The bulk update of `markDelivered`: the store becomes `MarkDeliveredTo` of the old store, and ids stay positions. |
| Realtime.ChatServer.Announce | server.js:170-174 | The `forEach` loop appends exactly the delivery notices of the given messages, in order. |
| Realtime.ChatServer.ReadMessages | server.js:182-199 | The store becomes `MarkReadFrom` of the old store. `messagesRead` goes to `from` iff something was unread. `resetUnread` is always sent to the caller's room. |
| Realtime.ChatServer.Typing | server.js:202-204 | Appends exactly one `typing` event, from the caller, to the receiver's room. |
| Realtime.ChatServer.StopTyping | server.js:206-208 | Appends exactly one `stopTyping` event, from the caller, to the receiver's room. |
| Realtime.ChatServer.Disconnect | server.js:210-212 | Removes exactly that socket from the registry. |
| ChatQueries.OppositeRole | routes/chat.js:11 | The result is developer iff the caller is a client. It is never admin. |
| ChatQueries.Eligible | routes/chat.js:14-17 | Exactly the users other than the caller with the opposite role. |
| ChatQueries.EligibleInOrder | routes/chat.js:14-17 | The eligible users are a subsequence of the collection, in collection order, each as often as in the collection. |
| ChatQueries.Latest | routes/chat.js:22-29 | None iff the pair never wrote. Otherwise a message of the pair with maximal createdAt. |
| ChatQueries.Annotate | routes/chat.js:21-42 | The entry keeps the user's id, name and role. lastMessage and lastMessageTime are null together. unreadCount is the number of messages from that user to the caller still unread. |
| ChatQueries.Counterparts | routes/chat.js:8-46 | One entry per eligible user, in directory order: entry k is the annotation of eligible user k. Every entry has the opposite role, is not the caller, and carries the id, name and role of a counterpart of the caller. |
| ChatQueries.CounterpartsExactly | routes/chat.js:14-44 | Every entry is an eligible user, and every eligible user has an entry. |
| ChatQueries.EligibleIdsUnique | routes/chat.js:14-17 | The filter keeps ids unique. |
| ChatQueries.CounterpartIdsUnique | routes/chat.js:20-44 | Each counterpart appears once. |
| ChatQueries.AnnotationsMeaning | routes/chat.js:22-42 | lastMessage and lastMessageTime are null together, exactly when the pair never wrote. Otherwise they come from a latest message of the pair. unreadCount is exactly the number of messages from the counterpart to the caller that are still unread, so it is positive iff one is. |
| ChatQueries.UnreadClearedByRead | routes/chat.js:31-35 | After `readMessages` from a counterpart, that counterpart's unread count is 0. |
| ChatQueries.Conversation | routes/chat.js:59-64 | Exactly the messages between the two users, in either direction. |
| ChatQueries.ConversationInOrder | routes/chat.js:59-64 | The conversation is a subsequence of the collection, in collection order, each message as often as in the collection. |
| ChatQueries.InsertByTime | routes/chat.js:65 | Inserting into a time-sorted list keeps it sorted and adds exactly that message. |
| ChatQueries.InsertKeepsTies | routes/chat.js:65 | The inserted message goes in front of every message with the same createdAt, and the order among those is kept. |
| ChatQueries.SortByTimeStable | routes/chat.js:65 | The sort is stable: for every timestamp, the messages with it come out in their input order. |
| ChatQueries.HistoryMessages | routes/chat.js:59-65 | The history is sorted by createdAt and is as long as the conversation. |
| ChatQueries.SortByTime | routes/chat.js:65 | The result is sorted by createdAt and is a permutation of the input. |
| ChatQueries.HistoryExactly | routes/chat.js:59-65 | The history is sorted oldest first and holds exactly the pair's messages, with multiplicity. Messages with equal createdAt keep their collection order. |
| ChatQueries.HistoryOrdersTwo | routes/chat.js:65 | Two messages stamped 1 and 2 come back in that order. |
| ChatQueries.HistoryKeepsTieOrder | routes/chat.js:65 | Two messages of the pair with the same createdAt come back in collection order. |
| ChatQueries.History | routes/chat.js:59-68 | The history has one entry per message of the sorted conversation. Entry k is message k of it, with sender and receiver populated from the directory. |
| Auth.FormatUser | routes/auth.js:22-35 | Missing numbers read as 0 and an empty photo as null. A stored photo becomes the base URL followed by the path, where the base URL is `BASE_URL`, else `http://localhost:` and the port, 5001 by default. |
| Auth.RegisteredUserFormat | routes/auth.js:25-34 | A freshly registered user is shown with no technologies, zero experience and charges, and no photo. |
| Auth.FindByEmail | routes/auth.js:56 | Returns the first user with the email. None means no user has it. |
| Auth.Registration | routes/auth.js:47-77 | A missing name, email or password gives 400 "All fields are required". A taken email gives 400 "User already exists". A schema failure gives 500. Otherwise the stored user holds the hash, not the password, and has role client when none is given. |
| Auth.Login | routes/auth.js:80-113 | An unknown email and a wrong password give the identical 400 "Invalid credentials". A known email with no password gives 500 "Server error", the only other error. With unique emails, success iff a password is given and a user has the email and the password's hash. The returned user is that user's id, name, email and role. |
| Auth.RegisterThenLogin | routes/auth.js:63-93 | A user just registered can log in with the same password. |
| Auth.ResetRequest | routes/auth.js:118-134 | Email required (400) and user not found (404) change nothing. Otherwise only the matching user gets the token digest and an expiry of now + 900000 ms. |
| Auth.FindResettable | routes/auth.js:196-200 | Finds a user with the email, the presented token's digest and an expiry strictly after now. None means none qualifies. |
| Auth.PasswordReset | routes/auth.js:185-212 | Missing fields, or no user qualifying as above, give 400 with no change. Otherwise exactly that user gets the new hash, and both reset fields become null. |
| Auth.ResetTokenSingleUse | routes/auth.js:196-212 | A token that succeeded once fails on every later attempt. |
| Auth.ResetExpires | routes/auth.js:133-199 | A token presented at or after its issue time plus fifteen minutes is refused. |
| Auth.UserStore.Register | routes/auth.js:47-77 | Applies `Registration`. On error, the store is unchanged. Emails and ids stay unique. |
| Auth.UserStore.ForgotPassword | routes/auth.js:116-181 | Applies `ResetRequest` to the store and replies "Reset link sent to email". |
| Auth.UserStore.ResetPassword | routes/auth.js:185-256 | Applies `PasswordReset` to the store and replies "Password reset successful". |
| Projects.ListingFilter | routes/projects.js:12-25 | For an admin the filter is empty. Otherwise it constrains the client exactly when `email` is given and the developer exactly when `developer` is given, to those values. |
| Projects.Find | routes/projects.js:27 | Exactly the projects matching the filter. |
| Projects.FindInOrder | routes/projects.js:27 | The result is a subsequence of the collection, in collection order, each match as often as in the collection. |
| Projects.Listing | routes/projects.js:12-27 | The listing is the in-order subsequence of the collection that the route's filter matches, with multiplicity. |
| Projects.ListingExactly | routes/projects.js:12-27 | An admin gets everything. Anyone else gets the projects matching `client = email` and `developer = developer`, each only when given. |
| Projects.EmptyFilterKeepsAll | routes/projects.js:27 | An empty filter returns the whole collection in order. |
| Projects.AdminSeesAll | routes/projects.js:23-25 | An admin's listing is the whole collection, whatever the parameters. |
| Projects.NoParametersSeesAll | routes/projects.js:12 | A listing with neither parameter is the whole collection. |
| Projects.Creation | routes/projects.js:40-51 | Without title or client: 400 "Title and client required". Otherwise a "pending" project with the given optional fields. |
| Projects.ProjectStore.Create | routes/projects.js:36-58 | Appends exactly the created project, or nothing on error. Ids stay unique. |
| Hire.HireCreation | routes/hire.js:11-17 | Any of the six fields missing, or an amount of 0, gives 400 "All fields are required". Otherwise the request carries the given fields. |
| Hire.WithDeveloper | routes/hire.js:38 | Exactly the requests for that developer email. |
| Hire.WithDeveloperInOrder | routes/hire.js:38 | The result is a subsequence of the collection, in collection order, each request as often as in the collection. |
| Hire.ListForDeveloper | routes/hire.js:30-44 | 400 iff the developer email is missing. Otherwise that developer's requests in collection order: a subsequence of the collection holding each matching request as often as the collection does, and no other. |
| Hire.FindRequest | routes/hire.js:50 | The found request has the id. None means no request has it. |
| Hire.DeleteRemovesExactly | routes/hire.js:50-55 | Deletion removes exactly that request and leaves no request with its id. |
| Hire.ParseAction | routes/hire.js:69 | Accepts exactly "accept" and "reject". |
| Hire.NotificationText | routes/hire.js:107-110 | The text opens with a check mark exactly on accept and with a cross exactly on reject. |
| Hire.NotificationNamesTitleAndDeveloper | routes/hire.js:107-110 | The notification text quotes the project title and ends with the developer's email. |
| Hire.FindProject | routes/hire.js:84-88 | Finds the first project with that title, client and developer. None means none matches. |
| Hire.StartProject | routes/hire.js:83-104 | At most one project is added, and every existing project is unchanged or only set in progress. |
| Hire.StartProjectEffect | routes/hire.js:83-104 | After accepting, a project for the triple is in progress. When one matched, the first match keeps every field but its status, which becomes in progress, and every other project is unchanged. Otherwise exactly one project is appended, carrying the request's requirements. |
| Hire.StartProjectTwiceAddsOnce | routes/hire.js:84-101 | Accepting the same request twice creates at most one project. |
| Hire.HireService.Create | routes/hire.js:9-25 | Appends the request iff `HireCreation` accepts it. Otherwise stores nothing. |
| Hire.HireService.Delete | routes/hire.js:48-60 | An unknown id gives 404 with no change. Otherwise exactly that request is removed. |
| Hire.HireService.StartProjectFor | routes/hire.js:84-103 | Applies `StartProject` to the project collection. Project ids stay unique. |
| Hire.HireService.Patch | routes/hire.js:66-127 | Bad data gives 400 and an unknown id gives 404, both with no change. Otherwise the status is set without checking the prior status. Accept starts the project and reject leaves projects alone. Exactly one client notification is appended. |
| Requirements.PendingIndex | routes/requirements.js:54-55 | Finds the requirement with the id only while it is pending. |
| Requirements.Decide | routes/requirements.js:40-66 | A non-developer gets 403 before the action is checked. A bad action gets 400. A missing or non-pending requirement gets 400. Otherwise only that requirement changes, to the status named by the action plus "ed", with the caller as developer. |
| Requirements.DecisionIsFinal | routes/requirements.js:51-66 | Once decided, a requirement refuses every further decision. |
| Requirements.DecideOnlyPending | routes/requirements.js:53-58 | Only a pending requirement is decided. It leaves pending and records the caller. |
| Requirements.RequirementBoard.Post | routes/requirements.js:7-24 | Stores the requirement, with the caller as client, iff it is valid. The reply is always 500. |
| Requirements.RequirementBoard.Put | routes/requirements.js:40-77 | Applies `Decide` and returns the updated requirement. On error nothing changes. |

## Left out

- Express, Socket.IO and Mongoose plumbing are not modelled: connection, CORS, logging and server start.
- Cryptography and signing are parameters of the model, not modelled: JWT signing and verification, bcrypt, SHA-256, and random token generation.
- bcrypt salting is not modelled. `hash` is a deterministic function, and the login compare is `hash(password) == stored`.
- Email sending (nodemailer) is left out. A mail failure after a save replies 500 with the change already made; the model does not capture this.
- The signed login token is not part of `Auth.LoginUser`.
- Concurrency is left out. Handlers run one at a time, so the race between `find` and `updateMany` in `markDelivered` is not captured.
- Realtime.ChatServer.SendMessage: database failures other than validation are not modelled, such as a failed populate or update.
- Errors from casting a malformed id to an ObjectId are not modelled. Ids are natural numbers, so these cast failures do not arise: the 500 replies in the hire and requirement routes and in the chat router's `GET /messages/:receiverId`, and the caught and logged errors in the `sendMessage`, `markDelivered` and `readMessages` socket handlers.
- The outbox records the room each event is addressed to, not the individual sockets that receive it.
- `Auth.Login` with no email in the body is not modelled as such. It is looked up as the empty email, and the driver's handling of an `undefined` filter value is not modelled.
- models/Hire.js is not part of this model. A hire request's status is `None` until a decision, amounts are integers, and no further schema validation is applied on save.
- Hire.HireCreation: amounts given as non-numbers are not modelled. Only 0 or a missing amount counts as falsy.
- Timestamps are not modelled on users, requirements and notifications. Messages carry createdAt, which is the only timestamp any query uses.
- Mongo does not define an order among equal createdAt values. `ChatQueries.Latest` picks the first in collection order, and the history sort is stable, so equal stamps keep collection order.
- Unicode handling beyond the trim whitespace set is not modelled.
- The requirements router's `GET /` listing is left out because it is a plain read with population.
- These routes are left out as outside the modelled core: reviews, admin, notification, developers, users, upload, authRoutes, and the Cloudinary helpers.
