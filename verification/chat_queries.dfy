/** The chat routes: the caller's counterpart list with each counterpart's
    last message and unread count, and the history between two users. Both
    only read the user and message collections. */
module ChatQueries {
  import opened Wrappers
  import opened UserModel
  import opened MessageModel
  import opened MessageStore
  import opened Directory

  /** A client talks to developers; every other role, admin included, talks
      to clients. */
  function OppositeRole(r: Role): (o: Role)
    ensures o != Admin
    ensures o == Developer <==> r == Client
  {
    if r == Client then Developer else Client
  }

  /** The filter `{_id: {$ne: me}, role: oppositeRole}`. */
  predicate IsCounterpart(u: User, me: UserId, myRole: Role)
  {
    u.id != me && u.role == OppositeRole(myRole)
  }

  /** The users the list is built from, in collection order. */
  function Eligible(users: seq<User>, me: UserId, myRole: Role): (r: seq<User>)
    ensures |r| <= |users|
    ensures forall u :: u in r <==> u in users && IsCounterpart(u, me, myRole)
  {
    if users == [] then []
    else (if IsCounterpart(users[0], me, myRole) then [users[0]] else [])
         + Eligible(users[1..], me, myRole)
  }

  /** The eligible users are the collection with everyone else left out:
      in collection order, each as often as in the collection. */
  lemma EligibleInOrder(users: seq<User>, me: UserId, myRole: Role)
    ensures IsSubsequence(Eligible(users, me, myRole), users)
    ensures forall u :: multiset(Eligible(users, me, myRole))[u]
                        == if IsCounterpart(u, me, myRole) then multiset(users)[u] else 0
  {
    EligibleSubsequence(users, me, myRole);
    EligibleCounts(users, me, myRole);
  }

  lemma {:induction false} EligibleSubsequence(users: seq<User>, me: UserId, myRole: Role)
    ensures IsSubsequence(Eligible(users, me, myRole), users)
  {
    if users != [] {
      EligibleSubsequence(users[1..], me, myRole);
      var rest := Eligible(users[1..], me, myRole);
      if IsCounterpart(users[0], me, myRole) {
        assert Eligible(users, me, myRole) == [users[0]] + rest;
        assert ([users[0]] + rest)[1..] == rest;
      } else {
        assert Eligible(users, me, myRole) == rest;
      }
    }
  }

  lemma {:induction false} EligibleCounts(users: seq<User>, me: UserId, myRole: Role)
    ensures forall u :: multiset(Eligible(users, me, myRole))[u]
                        == if IsCounterpart(u, me, myRole) then multiset(users)[u] else 0
  {
    if users != [] {
      var x, tail := users[0], users[1..];
      EligibleCounts(tail, me, myRole);
      var rest := Eligible(tail, me, myRole);
      var r := Eligible(users, me, myRole);
      assert users == [x] + tail;
      assert r == (if IsCounterpart(x, me, myRole) then [x] else []) + rest;
      forall u ensures multiset(r)[u] == if IsCounterpart(u, me, myRole) then multiset(users)[u] else 0 {
        assert multiset(users)[u] == multiset(tail)[u] + (if u == x then 1 else 0);
        if IsCounterpart(x, me, myRole) {
          assert multiset(r)[u] == multiset(rest)[u] + (if u == x then 1 else 0);
        }
      }
    }
  }

  /** A message of the conversation between `a` and `b`, in either direction. */
  predicate Between(m: Message, a: UserId, b: UserId)
  {
    (m.sender == a && m.receiver == b) || (m.sender == b && m.receiver == a)
  }

  /** `findOne(conversation).sort({createdAt: -1})`: a latest message of the
      conversation; among equal timestamps the first in collection order. */
  function Latest(ms: seq<Message>, a: UserId, b: UserId): (r: Option<Message>)
    ensures r.None? <==> forall k :: 0 <= k < |ms| ==> !Between(ms[k], a, b)
    ensures r.Some? ==> r.value in ms && Between(r.value, a, b)
    ensures r.Some? ==> forall k :: 0 <= k < |ms| && Between(ms[k], a, b) ==>
                          ms[k].createdAt <= r.value.createdAt
  {
    if ms == [] then None
    else
      var rest := Latest(ms[1..], a, b);
      if !Between(ms[0], a, b) then rest
      else if rest.Some? && rest.value.createdAt > ms[0].createdAt then rest
      else Some(ms[0])
  }

  /** One entry of the list: the projected user plus the annotations. */
  datatype Counterpart = Counterpart(
    id: UserId,
    name: string,
    role: Role,
    lastMessage: Option<string>,
    lastMessageTime: Option<nat>,
    unreadCount: nat)

  /** The entry for `u`: its id, name and role, the body and time of the
      pair's latest message, and the number of `u`'s messages the caller has
      not read. */
  function Annotate(u: User, me: UserId, ms: seq<Message>): (c: Counterpart)
    ensures c.id == u.id && c.name == u.name && c.role == u.role
    ensures c.lastMessageTime.None? <==> c.lastMessage.None?
    ensures c.unreadCount == |UnreadPositions(ms, u.id, me)|
  {
    CountUnreadIsCount(ms, u.id, me);
    var last := Latest(ms, me, u.id);
    Counterpart(u.id, u.name, u.role,
                if last.Some? then Some(last.value.body) else None,
                if last.Some? then Some(last.value.createdAt) else None,
                CountUnread(ms, u.id, me))
  }

  /** `GET /users`: one annotated entry per eligible user, in order. */
  function Counterparts(users: seq<User>, me: UserId, myRole: Role, ms: seq<Message>): (r: seq<Counterpart>)
    ensures |r| <= |users|
    ensures forall k :: 0 <= k < |r| ==> r[k].id != me && r[k].role == OppositeRole(myRole)
    ensures forall k :: 0 <= k < |r| ==>
              exists u :: u in users && IsCounterpart(u, me, myRole)
                          && r[k].id == u.id && r[k].name == u.name && r[k].role == u.role
    ensures |r| == |Eligible(users, me, myRole)|
    ensures forall k :: 0 <= k < |r| ==> r[k] == Annotate(Eligible(users, me, myRole)[k], me, ms)
  {
    var eligible := Eligible(users, me, myRole);
    var r := seq(|eligible|, k requires 0 <= k < |eligible| => Annotate(eligible[k], me, ms));
    assert forall k :: 0 <= k < |r| ==> eligible[k] in eligible && eligible[k] in users
                                        && r[k] == Annotate(eligible[k], me, ms);
    r
  }

  /** `id` is the id of an eligible user. */
  ghost predicate IsEligibleId(users: seq<User>, me: UserId, myRole: Role, id: UserId)
  {
    exists u :: u in users && IsCounterpart(u, me, myRole) && u.id == id
  }

  /** Every entry is an opposite-role user other than the caller, and every
      such user has an entry. */
  lemma CounterpartsExactly(users: seq<User>, me: UserId, myRole: Role, ms: seq<Message>)
    ensures var r := Counterparts(users, me, myRole, ms);
      && (forall k :: 0 <= k < |r| ==> IsEligibleId(users, me, myRole, r[k].id))
      && (forall u :: u in users && IsCounterpart(u, me, myRole) ==>
            exists k :: 0 <= k < |r| && r[k].id == u.id)
  {
    CounterpartsSound(users, me, myRole, ms);
    CounterpartsComplete(users, me, myRole, ms);
  }

  lemma CounterpartsSound(users: seq<User>, me: UserId, myRole: Role, ms: seq<Message>)
    ensures var r := Counterparts(users, me, myRole, ms);
      forall k :: 0 <= k < |r| ==> IsEligibleId(users, me, myRole, r[k].id)
  {
    var eligible := Eligible(users, me, myRole);
    var r := Counterparts(users, me, myRole, ms);
    forall k | 0 <= k < |r| ensures IsEligibleId(users, me, myRole, r[k].id) {
      var u := eligible[k];
      assert u in eligible;
      assert r[k] == Annotate(u, me, ms);
    }
  }

  lemma CounterpartsComplete(users: seq<User>, me: UserId, myRole: Role, ms: seq<Message>)
    ensures var r := Counterparts(users, me, myRole, ms);
      forall u :: u in users && IsCounterpart(u, me, myRole) ==> exists k :: 0 <= k < |r| && r[k].id == u.id
  {
    var eligible := Eligible(users, me, myRole);
    var r := Counterparts(users, me, myRole, ms);
    forall u | u in users && IsCounterpart(u, me, myRole)
      ensures exists k :: 0 <= k < |r| && r[k].id == u.id
    {
      assert u in eligible;
      var k :| 0 <= k < |eligible| && eligible[k] == u;
      assert r[k] == Annotate(u, me, ms);
    }
  }

  /** With unique user ids, every counterpart has exactly one entry. */
  lemma {:induction false} EligibleIdsUnique(users: seq<User>, me: UserId, myRole: Role)
    requires IdsUnique(users)
    ensures IdsUnique(Eligible(users, me, myRole))
  {
    if users != [] {
      EligibleIdsUnique(users[1..], me, myRole);
      var rest := Eligible(users[1..], me, myRole);
      forall v | v in rest ensures v.id != users[0].id {
        var j :| 0 <= j < |users[1..]| && users[1..][j] == v;
        assert users[j + 1] == v;
      }
    }
  }

  lemma CounterpartIdsUnique(users: seq<User>, me: UserId, myRole: Role, ms: seq<Message>)
    requires IdsUnique(users)
    ensures var r := Counterparts(users, me, myRole, ms);
            forall i, j :: 0 <= i < j < |r| ==> r[i].id != r[j].id
  {
    EligibleIdsUnique(users, me, myRole);
  }

  /** The annotations: the last message is a latest message of the pair (null
      when they never wrote), and the unread count counts what the counterpart
      sent the caller that is still unread, exactly. */
  lemma AnnotationsMeaning(u: User, me: UserId, ms: seq<Message>)
    ensures var c := Annotate(u, me, ms);
      && (c.lastMessage.None? <==> forall k :: 0 <= k < |ms| ==> !Between(ms[k], me, u.id))
      && (c.lastMessageTime.None? <==> c.lastMessage.None?)
      && (c.lastMessage.Some? ==>
            exists k :: 0 <= k < |ms| && Between(ms[k], me, u.id)
                        && ms[k].body == c.lastMessage.value
                        && ms[k].createdAt == c.lastMessageTime.value
                        && forall j :: 0 <= j < |ms| && Between(ms[j], me, u.id) ==>
                             ms[j].createdAt <= ms[k].createdAt)
      && c.unreadCount == |UnreadPositions(ms, u.id, me)|
      && (c.unreadCount > 0 <==> exists k :: 0 <= k < |ms| && AwaitsRead(ms[k], u.id, me))
  {
    CountUnreadIsCount(ms, u.id, me);
    CountUnreadPositiveIff(ms, u.id, me);
    var last := Latest(ms, me, u.id);
    if last.Some? {
      var k :| 0 <= k < |ms| && ms[k] == last.value;
    }
  }

  /** After the caller reads what `c` sent, `c`'s entry shows no unread messages. */
  lemma UnreadClearedByRead(users: seq<User>, me: UserId, myRole: Role, ms: seq<Message>, c: UserId)
    ensures var r := Counterparts(users, me, myRole, MarkReadFrom(ms, c, me));
            forall k :: 0 <= k < |r| && r[k].id == c ==> r[k].unreadCount == 0
  {
    UnreadZeroAfterRead(ms, c, me);
  }

  /** The conversation between `a` and `b`, in collection order. */
  function Conversation(ms: seq<Message>, a: UserId, b: UserId): (r: seq<Message>)
    ensures |r| <= |ms|
    ensures forall m :: m in r <==> m in ms && Between(m, a, b)
  {
    if ms == [] then []
    else (if Between(ms[0], a, b) then [ms[0]] else []) + Conversation(ms[1..], a, b)
  }

  /** The conversation is the collection with every other message left out:
      in collection order, each message as often as in the collection. */
  lemma {:induction false} ConversationInOrder(ms: seq<Message>, a: UserId, b: UserId)
    ensures IsSubsequence(Conversation(ms, a, b), ms)
    ensures forall m :: multiset(Conversation(ms, a, b))[m] == if Between(m, a, b) then multiset(ms)[m] else 0
  {
    if ms != [] {
      ConversationInOrder(ms[1..], a, b);
      var rest := Conversation(ms[1..], a, b);
      assert ms == [ms[0]] + ms[1..];
      if Between(ms[0], a, b) {
        assert Conversation(ms, a, b) == [ms[0]] + rest;
        assert ([ms[0]] + rest)[1..] == rest;
      } else {
        assert Conversation(ms, a, b) == rest;
      }
    }
  }

  predicate SortedByTime(s: seq<Message>)
  {
    forall i, j :: 0 <= i < j < |s| ==> s[i].createdAt <= s[j].createdAt
  }

  /** A message no later than the head of a sorted list can go in front of it. */
  lemma SortedCons(x: Message, s: seq<Message>)
    requires SortedByTime(s)
    requires s != [] ==> x.createdAt <= s[0].createdAt
    ensures SortedByTime([x] + s)
  {
    var r := [x] + s;
    forall i, j | 0 <= i < j < |r| ensures r[i].createdAt <= r[j].createdAt {
      if i > 0 {
        assert r[i] == s[i - 1] && r[j] == s[j - 1];
      } else {
        assert r[j] == s[j - 1];
      }
    }
  }

  /** `m` placed after every message strictly earlier than it and before
      every other one. */
  function InsertByTime(m: Message, s: seq<Message>): (r: seq<Message>)
    requires SortedByTime(s)
    ensures SortedByTime(r)
    ensures multiset(r) == multiset(s) + multiset{m}
    ensures |r| == |s| + 1 && (r[0] == m || (s != [] && r[0] == s[0]))
  {
    if s == [] then [m]
    else if m.createdAt <= s[0].createdAt then
      SortedCons(m, s);
      [m] + s
    else
      SortedTail(s);
      var rest := InsertByTime(m, s[1..]);
      InsertBehindHead(m, s, rest);
      [s[0]] + rest
  }

  /** The step of `InsertByTime` that keeps the head of `s` in front. */
  lemma InsertBehindHead(m: Message, s: seq<Message>, rest: seq<Message>)
    requires SortedByTime(s) && s != [] && s[0].createdAt < m.createdAt
    requires SortedByTime(rest) && multiset(rest) == multiset(s[1..]) + multiset{m}
    requires |rest| == |s| && (rest[0] == m || (|s| > 1 && rest[0] == s[1]))
    ensures SortedByTime([s[0]] + rest)
    ensures multiset([s[0]] + rest) == multiset(s) + multiset{m}
  {
    SortedCons(s[0], rest);
    assert s == [s[0]] + s[1..];
  }

  lemma SortedTail(s: seq<Message>)
    requires SortedByTime(s) && s != []
    ensures SortedByTime(s[1..])
  {
    forall i, j | 0 <= i < j < |s| - 1 ensures s[1..][i].createdAt <= s[1..][j].createdAt {
      assert s[1..][i] == s[i + 1] && s[1..][j] == s[j + 1];
    }
  }

  /** `.sort({createdAt: 1})`. */
  function SortByTime(s: seq<Message>): (r: seq<Message>)
    ensures SortedByTime(r)
    ensures multiset(r) == multiset(s)
  {
    if s == [] then []
    else
      assert s == [s[0]] + s[1..];
      InsertByTime(s[0], SortByTime(s[1..]))
  }

  /** The messages of `s` stamped `t`, in the order of `s`. */
  function StampedAt(s: seq<Message>, t: nat): seq<Message>
  {
    if s == [] then []
    else (if s[0].createdAt == t then [s[0]] else []) + StampedAt(s[1..], t)
  }

  lemma StampedAtCons(x: Message, s: seq<Message>, t: nat)
    ensures StampedAt([x] + s, t) == (if x.createdAt == t then [x] else []) + StampedAt(s, t)
  {
    assert ([x] + s)[1..] == s;
  }

  /** Two lists of which one is empty can trade places. */
  lemma SwapEmpty(a: seq<Message>, b: seq<Message>, c: seq<Message>)
    requires a == [] || b == []
    ensures a + (b + c) == b + (a + c)
  {
    if a == [] {
      assert a + (b + c) == b + c && a + c == c;
    } else {
      assert b + c == c && b + (a + c) == a + c;
    }
  }

  /** Inserting `m` puts it in front of every message with its own stamp. */
  lemma {:induction false} InsertKeepsTies(m: Message, s: seq<Message>, t: nat)
    requires SortedByTime(s)
    ensures StampedAt(InsertByTime(m, s), t)
            == (if m.createdAt == t then [m] else []) + StampedAt(s, t)
  {
    if s == [] || m.createdAt <= s[0].createdAt {
      StampedAtCons(m, s, t);
    } else {
      SortedTail(s);
      var rest := InsertByTime(m, s[1..]);
      assert InsertByTime(m, s) == [s[0]] + rest;
      InsertKeepsTies(m, s[1..], t);
      StampedAtCons(s[0], rest, t);
      assert s == [s[0]] + s[1..];
      StampedAtCons(s[0], s[1..], t);
      var head: seq<Message> := if s[0].createdAt == t then [s[0]] else [];
      var mine: seq<Message> := if m.createdAt == t then [m] else [];
      var tail := StampedAt(s[1..], t);
      SwapEmpty(head, mine, tail);
    }
  }

  /** The sort is stable: messages with equal stamps keep their input order. */
  lemma {:induction false} SortByTimeStable(s: seq<Message>, t: nat)
    ensures StampedAt(SortByTime(s), t) == StampedAt(s, t)
  {
    if s != [] {
      SortByTimeStable(s[1..], t);
      InsertKeepsTies(s[0], SortByTime(s[1..]), t);
    }
  }

  /** `GET /messages/:other`, before population: the pair's messages oldest
      first, equal stamps in collection order. */
  function HistoryMessages(ms: seq<Message>, me: UserId, other: UserId): (r: seq<Message>)
    ensures SortedByTime(r)
    ensures |r| == |Conversation(ms, me, other)|
  {
    var c := Conversation(ms, me, other);
    assert |SortByTime(c)| == |multiset(SortByTime(c))| == |multiset(c)| == |c|;
    SortByTime(c)
  }

  /** The history holds exactly the messages between the two users, each as
      often as in the collection, oldest first. */
  lemma HistoryExactly(ms: seq<Message>, me: UserId, other: UserId)
    ensures var h := HistoryMessages(ms, me, other);
      && SortedByTime(h)
      && multiset(h) == multiset(Conversation(ms, me, other))
      && (forall m :: m in h <==> m in ms && Between(m, me, other))
      && forall t :: StampedAt(h, t) == StampedAt(Conversation(ms, me, other), t)
  {
    var c := Conversation(ms, me, other);
    var h := HistoryMessages(ms, me, other);
    forall m ensures m in h <==> m in c {
      assert m in h <==> m in multiset(h);
      assert m in c <==> m in multiset(c);
    }
    forall t ensures StampedAt(h, t) == StampedAt(c, t) {
      SortByTimeStable(c, t);
    }
  }

  /** Two messages of a pair stamped 1 and 2 come back in that order. */
  lemma HistoryOrdersTwo(m1: Message, m2: Message, me: UserId, other: UserId)
    requires Between(m1, me, other) && Between(m2, me, other)
    requires m1.createdAt == 1 && m2.createdAt == 2
    ensures HistoryMessages([m2, m1], me, other) == [m1, m2]
  {
    assert [m2, m1][1..] == [m1];
    assert Conversation([m2, m1], me, other) == [m2, m1];
    assert SortByTime([m1]) == [m1];
    assert InsertByTime(m2, [m1]) == [m1, m2];
  }

  /** Two messages of a pair with the same stamp keep their collection order. */
  lemma HistoryKeepsTieOrder(m1: Message, m2: Message, me: UserId, other: UserId)
    requires Between(m1, me, other) && Between(m2, me, other)
    requires m1.createdAt == m2.createdAt
    ensures HistoryMessages([m1, m2], me, other) == [m1, m2]
  {
    assert [m1, m2][1..] == [m2];
    assert Conversation([m1, m2], me, other) == [m1, m2];
    assert SortByTime([m2]) == [m2];
    assert InsertByTime(m1, [m2]) == [m1, m2];
  }

  /** The history as sent: each message with sender and receiver populated. */
  function History(ms: seq<Message>, users: seq<User>, me: UserId, other: UserId): (r: seq<EnrichedMessage>)
    ensures |r| == |HistoryMessages(ms, me, other)|
    ensures forall k :: 0 <= k < |r| ==> r[k] == Enrich(HistoryMessages(ms, me, other)[k], users)
  {
    var h := HistoryMessages(ms, me, other);
    seq(|h|, k requires 0 <= k < |h| => Enrich(h[k], users))
  }
}
