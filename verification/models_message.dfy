/** The `Message` schema: required sender, receiver and body, the body
    trimmed before validation, both flags false by default, and a creation
    timestamp. */
module MessageModel {
  import opened Wrappers
  import opened UserModel

  type MessageId = nat

  datatype Message = Message(
    id: MessageId,
    sender: UserId,
    receiver: UserId,
    body: string,
    delivered: bool,
    read: bool,
    createdAt: nat)

  /** The characters JavaScript's `String.prototype.trim` removes: the
      WhiteSpace and LineTerminator code points of ECMAScript. */
  predicate IsWhitespace(c: char)
  {
    c == '\t' || c == '\n' || c == '\U{000B}' || c == '\U{000C}' || c == '\r'
    || c == ' ' || c == '\U{00A0}' || c == '\U{1680}'
    || ('\U{2000}' <= c <= '\U{200A}')
    || c == '\U{2028}' || c == '\U{2029}' || c == '\U{202F}' || c == '\U{205F}'
    || c == '\U{3000}' || c == '\U{FEFF}'
  }

  predicate AllWhitespace(s: string)
  {
    forall k :: 0 <= k < |s| ==> IsWhitespace(s[k])
  }

  /** The first index at or after `i` that does not hold whitespace, or `|s|`. */
  function SkipWhitespace(s: string, i: nat): (j: nat)
    requires i <= |s|
    ensures i <= j <= |s|
    ensures forall k :: i <= k < j ==> IsWhitespace(s[k])
    ensures j < |s| ==> !IsWhitespace(s[j])
    decreases |s| - i
  {
    if i < |s| && IsWhitespace(s[i]) then SkipWhitespace(s, i + 1) else i
  }

  /** The index just after the last non-whitespace character before `j`, or 0. */
  function SkipWhitespaceBack(s: string, j: nat): (i: nat)
    requires j <= |s|
    ensures i <= j
    ensures forall k :: i <= k < j ==> IsWhitespace(s[k])
    ensures i > 0 ==> !IsWhitespace(s[i - 1])
  {
    if j > 0 && IsWhitespace(s[j - 1]) then SkipWhitespaceBack(s, j - 1) else j
  }

  /** Leading whitespace removed: the result is a suffix of `s`, everything cut
      off is whitespace, and the result does not start with whitespace. */
  function TrimStart(s: string): (r: string)
    ensures |r| <= |s| && r == s[|s| - |r|..]
    ensures AllWhitespace(s[..|s| - |r|])
    ensures r != [] ==> !IsWhitespace(r[0])
  {
    var n := SkipWhitespace(s, 0);
    assert forall k :: 0 <= k < n ==> s[..n][k] == s[k];
    s[n..]
  }

  /** Trailing whitespace removed: the result is a prefix of `s`, everything cut
      off is whitespace, and the result does not end with whitespace. */
  function TrimEnd(s: string): (r: string)
    ensures |r| <= |s| && r == s[..|r|]
    ensures AllWhitespace(s[|r|..])
    ensures r != [] ==> !IsWhitespace(r[|r| - 1])
  {
    var n := SkipWhitespaceBack(s, |s|);
    assert forall k :: 0 <= k < |s| - n ==> s[n..][k] == s[n + k];
    s[..n]
  }

  /** The schema's `trim: true` setter: the result is a slice of `s` with
      only whitespace around it, and it neither starts nor ends with
      whitespace. */
  function Trim(s: string): (r: string)
    ensures |r| <= |s|
    ensures exists i :: 0 <= i <= |s| - |r| && r == s[i..i + |r|]
                        && AllWhitespace(s[..i]) && AllWhitespace(s[i + |r|..])
    ensures r != [] ==> !IsWhitespace(r[0]) && !IsWhitespace(r[|r| - 1])
  {
    var t := TrimStart(s);
    var r := TrimEnd(t);
    var i := |s| - |t|;
    assert r == s[i..i + |r|];
    assert s[i + |r|..] == t[|r|..];
    assert AllWhitespace(s[..i]) && AllWhitespace(s[i + |r|..]);
    r
  }

  /** A body trims to nothing exactly when it is made of whitespace only, so a
      whitespace-only body fails the `required` validator. */
  lemma TrimEmptyIff(s: string)
    ensures Trim(s) == [] <==> AllWhitespace(s)
  {
    var t := TrimStart(s);
    if Trim(s) == [] {
      assert t[0..] == t;
      assert t == [];
      assert s[..|s|] == s;
    }
  }

  /** Trimming a trimmed body changes nothing. */
  lemma TrimIdempotent(s: string)
    ensures Trim(Trim(s)) == Trim(s)
  {
    var t := Trim(s);
    if t != [] {
      assert TrimStart(t) == t;
      assert TrimEnd(t) == t;
    }
  }

  /** The paths a failed message validation names, in schema order. */
  function MessagePaths(noSender: bool, noReceiver: bool, noBody: bool): (paths: seq<string>)
    ensures "sender" in paths <==> noSender
    ensures "receiver" in paths <==> noReceiver
    ensures "message" in paths <==> noBody
  {
    var names: seq<string> := ["sender", "receiver", "message"];
    assert |names[0]| == 6 && |names[1]| == 8 && |names[2]| == 7;
    var paths := RequiredPaths(names, [noSender, noReceiver, noBody]);
    assert "sender" in paths <==> noSender by { assert names[0] == "sender"; }
    assert "receiver" in paths <==> noReceiver by { assert names[1] == "receiver"; }
    assert "message" in paths <==> noBody by { assert names[2] == "message"; }
    paths
  }

  /** `new Message({...}).save()`: the body is trimmed, the three required
      paths are checked, and the flags start false. */
  function NewMessage(id: MessageId, sender: Option<UserId>, receiver: Option<UserId>,
                      body: Option<string>, now: nat): (r: Result<Message, ValidationError>)
    ensures r.Ok? <==> sender.Some? && receiver.Some? && body.Some? && !AllWhitespace(body.value)
    ensures r.Ok? ==> r.value.id == id && r.value.sender == sender.value
                      && r.value.receiver == receiver.value && r.value.body == Trim(body.value)
                      && r.value.body != [] && r.value.createdAt == now
                      && !r.value.delivered && !r.value.read
    ensures r.Err? ==> ("sender" in r.error.paths <==> sender.None?)
                       && ("receiver" in r.error.paths <==> receiver.None?)
                       && ("message" in r.error.paths <==> body.None? || AllWhitespace(body.value))
  {
    var text := if body.Some? then Trim(body.value) else "";
    assert body.Some? ==> (text == "" <==> AllWhitespace(body.value)) by {
      if body.Some? { TrimEmptyIff(body.value); }
    }
    if sender.Some? && receiver.Some? && text != "" then
      Ok(Message(id, sender.value, receiver.value, text, false, false, now))
    else
      Err(ValidationError(MessagePaths(sender.None?, receiver.None?, text == "")))
  }
}
