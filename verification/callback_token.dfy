/** The moderator's inline-button payloads `approve_<chat>_<post>` and
    `reject_<chat>_<post>`: built when a post is sent for moderation and taken
    apart with `split('_')` when the moderator presses a button. */
module CallbackToken {
  import opened Wrappers
  import opened Decimal

  const SEPARATOR: char := '_'

  datatype Decision = Approve | Reject

  function ActionName(d: Decision): string
  {
    match d
    case Approve => "approve"
    case Reject => "reject"
  }

  /** Index of the first separator. */
  function FirstSeparator(s: string): (i: nat)
    requires SEPARATOR in s
    ensures i < |s| && s[i] == SEPARATOR && SEPARATOR !in s[..i]
  {
    if s[0] == SEPARATOR then 0
    else
      var k := FirstSeparator(s[1..]);
      assert s[..k + 1] == [s[0]] + s[1..][..k];
      k + 1
  }

  /** `String.prototype.split('_')`: the separator-free pieces between
      separators, at least one. */
  function Split(s: string): (pieces: seq<string>)
    ensures |pieces| >= 1
    ensures forall i :: 0 <= i < |pieces| ==> SEPARATOR !in pieces[i]
    decreases |s|
  {
    if SEPARATOR !in s then [s]
    else
      var i := FirstSeparator(s);
      [s[..i]] + Split(s[i + 1..])
  }

  /** `Array.prototype.join('_')`, the inverse of `Split`. */
  function Join(pieces: seq<string>): string
    requires |pieces| >= 1
  {
    if |pieces| == 1 then pieces[0] else pieces[0] + [SEPARATOR] + Join(pieces[1..])
  }

  lemma {:induction false} JoinSplit(s: string)
    ensures Join(Split(s)) == s
    decreases |s|
  {
    if SEPARATOR in s {
      var i := FirstSeparator(s);
      var rest := Split(s[i + 1..]);
      assert Split(s) == [s[..i]] + rest;
      JoinSplit(s[i + 1..]);
      assert Join(Split(s)) == s[..i] + [SEPARATOR] + Join(rest);
      assert s == s[..i] + [SEPARATOR] + s[i + 1..];
    } else {
      assert Split(s) == [s];
    }
  }

  /** The first separator of `head + "_" + tail` is the one after `head`. */
  lemma FirstSeparatorAfter(head: string, tail: string)
    requires SEPARATOR !in head
    ensures FirstSeparator(head + [SEPARATOR] + tail) == |head|
  {
    var s := head + [SEPARATOR] + tail;
    assert forall k :: 0 <= k < |head| ==> s[k] == head[k];
    assert s[|head|] == SEPARATOR;
    assert SEPARATOR !in s[..FirstSeparator(s)];
  }

  lemma {:induction false} SplitJoin(pieces: seq<string>)
    requires |pieces| >= 1
    requires forall i :: 0 <= i < |pieces| ==> SEPARATOR !in pieces[i]
    ensures Split(Join(pieces)) == pieces
  {
    if |pieces| > 1 {
      var head, tail := pieces[0], Join(pieces[1..]);
      var s := head + [SEPARATOR] + tail;
      assert Join(pieces) == s;
      SplitJoin(pieces[1..]);
      FirstSeparatorAfter(head, tail);
      assert s[..|head|] == head && s[|head| + 1..] == tail;
      assert SEPARATOR in s by { assert s[|head|] == SEPARATOR; }
      assert Split(s) == [head] + Split(tail);
    } else {
      assert Join(pieces) == pieces[0];
    }
  }

  /** The payload of a moderator button, as `sendPostForModeration` builds it. */
  function Format(d: Decision, chat: int, postId: nat): (data: string)
    ensures Split(data) == [ActionName(d), IntToString(chat), NatToString(postId)]
  {
    FormatSplits(d, chat, postId);
    ActionName(d) + [SEPARATOR] + IntToString(chat) + [SEPARATOR] + NatToString(postId)
  }

  /** The three pieces of a payload are separator-free, so splitting it
      gives them back. */
  lemma FormatSplits(d: Decision, chat: int, postId: nat)
    ensures Split(ActionName(d) + [SEPARATOR] + IntToString(chat) + [SEPARATOR] + NatToString(postId))
      == [ActionName(d), IntToString(chat), NatToString(postId)]
  {
    var pieces := [ActionName(d), IntToString(chat), NatToString(postId)];
    CharNotInIntToString(chat, SEPARATOR);
    CharNotInIntToString(postId, SEPARATOR);
    assert IntToString(postId) == NatToString(postId);
    assert pieces[1..] == [IntToString(chat), NatToString(postId)];
    assert pieces[1..][1..] == [NatToString(postId)];
    assert Join(pieces[1..]) == IntToString(chat) + [SEPARATOR] + NatToString(postId);
    assert Join(pieces) == ActionName(d) + [SEPARATOR] + IntToString(chat) + [SEPARATOR] + NatToString(postId);
    SplitJoin(pieces);
  }

  /** What `const [action, userChatId, postId] = data.split('_')` yields when
      both ids read as numbers; pieces beyond the third are ignored. */
  datatype Target = Target(action: string, chat: int, postId: nat)

  function Parse(data: string): (r: Option<Target>)
    ensures r.Some? <==> |Split(data)| >= 3 && ParseInt(Split(data)[1]).Some? && ParseNat(Split(data)[2]).Some?
    ensures r.Some? ==>
      && r.value.action == Split(data)[0]
      && ParseInt(Split(data)[1]) == Some(r.value.chat)
      && ParseNat(Split(data)[2]) == Some(r.value.postId)
  {
    var pieces := Split(data);
    if |pieces| < 3 then None
    else
      match (ParseInt(pieces[1]), ParseNat(pieces[2]))
      case (Some(chat), Some(postId)) => Some(Target(pieces[0], chat, postId))
      case _ => None
  }

  /** Splitting a built payload recovers the decision, the chat and the post. */
  lemma ParseFormat(d: Decision, chat: int, postId: nat)
    ensures Parse(Format(d, chat, postId)) == Some(Target(ActionName(d), chat, postId))
  {
    IntToStringRoundTrip(chat);
    ParseNatToString(postId);
  }

  /** Two different buttons never carry the same payload. */
  lemma FormatInjective(d1: Decision, c1: int, p1: nat, d2: Decision, c2: int, p2: nat)
    requires Format(d1, c1, p1) == Format(d2, c2, p2)
    ensures d1 == d2 && c1 == c2 && p1 == p2
  {
    ParseFormat(d1, c1, p1);
    ParseFormat(d2, c2, p2);
  }
}
