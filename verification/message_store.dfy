/** The message collection's queries and bulk updates used by the socket
    handlers and the chat routes: each bulk update is a filter followed by a
    `$set` of one flag on every matching record. */
module MessageStore {
  import opened Wrappers
  import opened UserModel
  import opened MessageModel

  /** The filter `{receiver: me, delivered: false}`. */
  predicate AwaitsDelivery(m: Message, me: UserId)
  {
    m.receiver == me && !m.delivered
  }

  /** The filter `{sender: from, receiver: me, read: false}`. */
  predicate AwaitsRead(m: Message, from: UserId, me: UserId)
  {
    m.sender == from && m.receiver == me && !m.read
  }

  /** Everything but the two flags is the same record. */
  predicate SameRecord(a: Message, b: Message)
  {
    a.id == b.id && a.sender == b.sender && a.receiver == b.receiver
    && a.body == b.body && a.createdAt == b.createdAt
  }

  /** `after` extends `before`, keeps every record and never lowers a flag. */
  ghost predicate FlagsOnlyRise(before: seq<Message>, after: seq<Message>)
  {
    |before| <= |after|
    && forall k :: 0 <= k < |before| ==>
         SameRecord(before[k], after[k])
         && (before[k].delivered ==> after[k].delivered)
         && (before[k].read ==> after[k].read)
  }

  lemma FlagsOnlyRiseTransitive(a: seq<Message>, b: seq<Message>, c: seq<Message>)
    requires FlagsOnlyRise(a, b) && FlagsOnlyRise(b, c)
    ensures FlagsOnlyRise(a, c)
  {
  }

  /** Saving a new record changes no existing one. */
  lemma AppendFlagsOnlyRise(ms: seq<Message>, m: Message)
    ensures FlagsOnlyRise(ms, ms + [m])
  {
    assert forall k :: 0 <= k < |ms| ==> (ms + [m])[k] == ms[k];
  }

  /** `Message.find({receiver: me, delivered: false})`, in store order. */
  function Undelivered(ms: seq<Message>, me: UserId): (r: seq<Message>)
    ensures |r| <= |ms|
    ensures forall m :: m in r <==> m in ms && AwaitsDelivery(m, me)
    ensures r == [] <==> forall k :: 0 <= k < |ms| ==> !AwaitsDelivery(ms[k], me)
  {
    if ms == [] then []
    else (if AwaitsDelivery(ms[0], me) then [ms[0]] else []) + Undelivered(ms[1..], me)
  }

  /** The undelivered list is the store with every other message left out:
      in store order, each awaiting message as often as in the store. */
  lemma {:induction false} UndeliveredInOrder(ms: seq<Message>, me: UserId)
    ensures IsSubsequence(Undelivered(ms, me), ms)
    ensures forall m :: multiset(Undelivered(ms, me))[m] == if AwaitsDelivery(m, me) then multiset(ms)[m] else 0
  {
    if ms != [] {
      UndeliveredInOrder(ms[1..], me);
      var rest := Undelivered(ms[1..], me);
      assert ms == [ms[0]] + ms[1..];
      if AwaitsDelivery(ms[0], me) {
        assert Undelivered(ms, me) == [ms[0]] + rest;
        assert ([ms[0]] + rest)[1..] == rest;
      } else {
        assert Undelivered(ms, me) == rest;
      }
    }
  }

  /** `Message.updateMany({receiver: me, delivered: false}, {$set: {delivered: true}})`. */
  function MarkDeliveredTo(ms: seq<Message>, me: UserId): (r: seq<Message>)
    ensures |r| == |ms|
    ensures forall k :: 0 <= k < |ms| && ms[k].receiver == me ==> r[k] == ms[k].(delivered := true)
    ensures forall k :: 0 <= k < |ms| && ms[k].receiver != me ==> r[k] == ms[k]
    ensures FlagsOnlyRise(ms, r)
  {
    if ms == [] then []
    else
      [if AwaitsDelivery(ms[0], me) then ms[0].(delivered := true) else ms[0]]
      + MarkDeliveredTo(ms[1..], me)
  }

  /** `Message.updateMany({sender: from, receiver: me, read: false}, {$set: {read: true}})`. */
  function MarkReadFrom(ms: seq<Message>, from: UserId, me: UserId): (r: seq<Message>)
    ensures |r| == |ms|
    ensures forall k :: 0 <= k < |ms| && ms[k].sender == from && ms[k].receiver == me ==>
              r[k] == ms[k].(read := true)
    ensures forall k :: 0 <= k < |ms| && !(ms[k].sender == from && ms[k].receiver == me) ==>
              r[k] == ms[k]
    ensures FlagsOnlyRise(ms, r)
  {
    if ms == [] then []
    else
      [if AwaitsRead(ms[0], from, me) then ms[0].(read := true) else ms[0]]
      + MarkReadFrom(ms[1..], from, me)
  }

  /** `Message.countDocuments({sender: from, receiver: me, read: false})`; it is
      also the `modifiedCount` of the read update over the same filter. */
  function CountUnread(ms: seq<Message>, from: UserId, me: UserId): (n: nat)
    ensures n <= |ms|
    ensures n == 0 ==> forall k :: 0 <= k < |ms| ==> !AwaitsRead(ms[k], from, me)
  {
    if ms == [] then 0
    else (if AwaitsRead(ms[0], from, me) then 1 else 0) + CountUnread(ms[1..], from, me)
  }

  /** The positions at or after `lo` of the messages `from` sent `me` that
      are still unread; from 0 on these are the documents `countDocuments`
      counts. */
  ghost function UnreadPositions(ms: seq<Message>, from: UserId, me: UserId, lo: nat := 0): set<int>
  {
    set k | lo <= k < |ms| && AwaitsRead(ms[k], from, me)
  }

  /** The unread count of the messages from position `lo` on is the number
      of unread positions there. */
  lemma {:induction false} CountUnreadSuffix(ms: seq<Message>, from: UserId, me: UserId, lo: nat)
    requires lo <= |ms|
    ensures CountUnread(ms[lo..], from, me) == |UnreadPositions(ms, from, me, lo)|
    decreases |ms| - lo
  {
    if lo == |ms| {
      assert UnreadPositions(ms, from, me, lo) == {};
    } else {
      CountUnreadSuffix(ms, from, me, lo + 1);
      assert ms[lo..][1..] == ms[lo + 1..];
      var rest := UnreadPositions(ms, from, me, lo + 1);
      var head: set<int> := if AwaitsRead(ms[lo], from, me) then {lo} else {};
      assert UnreadPositions(ms, from, me, lo) == head + rest;
      assert head !! rest;
    }
  }

  /** The unread count is the number of unread messages from `from` to `me`. */
  lemma CountUnreadIsCount(ms: seq<Message>, from: UserId, me: UserId)
    ensures CountUnread(ms, from, me) == |UnreadPositions(ms, from, me)|
  {
    CountUnreadSuffix(ms, from, me, 0);
    assert ms[0..] == ms;
  }

  lemma {:induction false} CountUnreadPositiveIff(ms: seq<Message>, from: UserId, me: UserId)
    ensures CountUnread(ms, from, me) > 0 <==> exists k :: 0 <= k < |ms| && AwaitsRead(ms[k], from, me)
  {
    if ms != [] {
      CountUnreadPositiveIff(ms[1..], from, me);
      if exists k :: 0 <= k < |ms| && AwaitsRead(ms[k], from, me) {
        var k :| 0 <= k < |ms| && AwaitsRead(ms[k], from, me);
        if k > 0 { assert AwaitsRead(ms[1..][k - 1], from, me); }
      }
      if exists k :: 0 <= k < |ms[1..]| && AwaitsRead(ms[1..][k], from, me) {
        var k :| 0 <= k < |ms[1..]| && AwaitsRead(ms[1..][k], from, me);
        assert AwaitsRead(ms[k + 1], from, me);
      }
    }
  }

  /** The read update modifies some record exactly when the unread count is
      positive: `modifiedCount > 0` is the same test as a changed store. */
  lemma MarkReadChangesIff(ms: seq<Message>, from: UserId, me: UserId)
    ensures MarkReadFrom(ms, from, me) != ms <==> CountUnread(ms, from, me) > 0
  {
    CountUnreadPositiveIff(ms, from, me);
    var r := MarkReadFrom(ms, from, me);
    if r != ms {
      var k :| 0 <= k < |ms| && r[k] != ms[k];
      assert AwaitsRead(ms[k], from, me);
    }
    if CountUnread(ms, from, me) > 0 {
      var k :| 0 <= k < |ms| && AwaitsRead(ms[k], from, me);
      assert r[k] != ms[k];
    }
  }

  /** After the read update nothing from `from` to `me` is unread. */
  lemma UnreadZeroAfterRead(ms: seq<Message>, from: UserId, me: UserId)
    ensures CountUnread(MarkReadFrom(ms, from, me), from, me) == 0
  {
    var r := MarkReadFrom(ms, from, me);
    CountUnreadPositiveIff(r, from, me);
  }

  /** The read update never touches the delivered flag and the delivery
      update never touches the read flag. */
  lemma UpdatesTouchOneFlag(ms: seq<Message>, from: UserId, me: UserId)
    ensures forall k :: 0 <= k < |ms| ==> MarkReadFrom(ms, from, me)[k].delivered == ms[k].delivered
    ensures forall k :: 0 <= k < |ms| ==> MarkDeliveredTo(ms, me)[k].read == ms[k].read
  {
  }

  /** When nothing awaits delivery the update changes nothing. */
  lemma NothingUndeliveredNoChange(ms: seq<Message>, me: UserId)
    requires Undelivered(ms, me) == []
    ensures MarkDeliveredTo(ms, me) == ms
  {
    var r := MarkDeliveredTo(ms, me);
    forall k | 0 <= k < |ms| ensures r[k] == ms[k] {
      if ms[k].receiver == me {
        assert ms[k] !in Undelivered(ms, me);
      }
    }
  }

  /** After the delivery update nothing awaits delivery, so a second sweep
      finds nothing, changes nothing and announces nothing. */
  lemma DeliveredSweepIdempotent(ms: seq<Message>, me: UserId)
    ensures Undelivered(MarkDeliveredTo(ms, me), me) == []
    ensures MarkDeliveredTo(MarkDeliveredTo(ms, me), me) == MarkDeliveredTo(ms, me)
  {
    var r := MarkDeliveredTo(ms, me);
    NothingUndeliveredNoChange(r, me);
  }

  /** The read update is idempotent too. */
  lemma ReadSweepIdempotent(ms: seq<Message>, from: UserId, me: UserId)
    ensures MarkReadFrom(MarkReadFrom(ms, from, me), from, me) == MarkReadFrom(ms, from, me)
  {
    var r := MarkReadFrom(ms, from, me);
    UnreadZeroAfterRead(ms, from, me);
    MarkReadChangesIff(r, from, me);
  }

  /** Nothing orders the two flags: a message can be read while it is still
      recorded as undelivered. */
  lemma ReadDoesNotNeedDelivered()
    ensures exists ms: seq<Message>, from: UserId, me: UserId ::
              |ms| == 1 && !MarkReadFrom(ms, from, me)[0].delivered && MarkReadFrom(ms, from, me)[0].read
  {
    var m := Message(0, 1, 2, "hi", false, false, 0);
    assert !MarkReadFrom([m], 1, 2)[0].delivered && MarkReadFrom([m], 1, 2)[0].read;
  }
}
