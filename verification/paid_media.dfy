/** The media-group table of the paid variant: photos of one album are
    collected under `${chatId}_${media_group_id}`. The entry remembers the post
    and the time of its first member and is flushed by one timer armed when
    the entry is created (set-once policy); a periodic sweep drops entries
    older than five minutes. */
module PaidMedia {
  import opened Wrappers
  import opened Posts

  /** Age beyond which the sweep drops an entry: five minutes, in ms. */
  const STALE_AFTER_MS: int := 5 * 60 * 1000

  /** One pending album. A member whose size list was empty is kept as
      `None` (the source pushes `undefined`). `processed` mirrors the
      source's flag; a flush removes the entry in the same step that would
      set it, so no transition here leaves it true. */
  datatype MediaGroup = MediaGroup(postId: nat, photos: seq<Option<string>>, timestamp: int, processed: bool)

  type Table = map<GroupKey, MediaGroup>

  /** A member photo arrives: the entry is created on first sight with the
      current post and time, and the photo is appended; nothing else in the
      table changes. */
  function Arrive(table: Table, key: GroupKey, postId: nat, photo: Option<string>, now: int): (t: Table)
    ensures t.Keys == table.Keys + {key}
    ensures forall k :: k in table && k != key ==> t[k] == table[k]
    ensures key in table ==> t[key] == table[key].(photos := table[key].photos + [photo])
    ensures key !in table ==> t[key] == MediaGroup(postId, [photo], now, false)
  {
    var g := if key in table then table[key] else MediaGroup(postId, [], now, false);
    table[key := g.(photos := g.photos + [photo])]
  }

  /** A burst of album members arriving one after another. */
  function ArriveAll(table: Table, key: GroupKey, postId: nat, ids: seq<string>, now: int): Table
    decreases |ids|
  {
    if |ids| == 0 then table
    else ArriveAll(Arrive(table, key, postId, Some(ids[0]), now), key, postId, ids[1..], now)
  }

  /** Wrapping file ids as present members. */
  function Present(ids: seq<string>): (members: seq<Option<string>>)
    ensures |members| == |ids|
    ensures forall i :: 0 <= i < |ids| ==> members[i] == Some(ids[i])
  {
    if |ids| == 0 then [] else [Some(ids[0])] + Present(ids[1..])
  }

  /** `group.photos.map(photo => photo.file_id)`: `None` when a member is
      missing, where the source throws. */
  function FileIds(members: seq<Option<string>>): (r: Option<seq<string>>)
    ensures r.Some? <==> forall i :: 0 <= i < |members| ==> members[i].Some?
    ensures r.Some? ==> Present(r.value) == members
  {
    if |members| == 0 then Some([])
    else if members[0].None? then None
    else match FileIds(members[1..])
      case None => None
      case Some(rest) => Some([members[0].value] + rest)
  }

  /** However many members a burst has, the entry keeps the post and time of
      the first and holds every member in arrival order. */
  lemma {:induction false} ArriveAllCollects(table: Table, key: GroupKey, postId: nat, ids: seq<string>, now: int)
    requires key !in table && |ids| > 0
    ensures var t := ArriveAll(table, key, postId, ids, now);
      key in t && t[key] == MediaGroup(postId, Present(ids), now, false)
  {
    var t1 := Arrive(table, key, postId, Some(ids[0]), now);
    ArriveAllExtends(t1, key, postId, ids[1..], now);
    assert [Some(ids[0])] + Present(ids[1..]) == Present(ids);
  }

  lemma {:induction false} ArriveAllExtends(table: Table, key: GroupKey, postId: nat, ids: seq<string>, now: int)
    requires key in table
    ensures var t := ArriveAll(table, key, postId, ids, now);
      key in t && t[key] == table[key].(photos := table[key].photos + Present(ids))
    decreases |ids|
  {
    if |ids| > 0 {
      var t1 := Arrive(table, key, postId, Some(ids[0]), now);
      ArriveAllExtends(t1, key, postId, ids[1..], now);
      assert table[key].photos + [Some(ids[0])] + Present(ids[1..]) == table[key].photos + Present(ids);
    }
  }

  /** `cleanupOldMediaGroups`: keeps exactly the entries whose timestamp is
      not before `now` minus five minutes. */
  function Sweep(table: Table, now: int): (t: Table)
    ensures forall k :: k in t <==> k in table && now - table[k].timestamp <= STALE_AFTER_MS
    ensures forall k :: k in t ==> t[k] == table[k]
  {
    map k | k in table && !(table[k].timestamp < now - STALE_AFTER_MS) :: table[k]
  }

  /** A later sweep drops at least what an earlier one dropped, and sweeping
      twice at the same time drops nothing more. */
  lemma SweepMonotone(table: Table, now1: int, now2: int)
    requires now1 <= now2
    ensures Sweep(table, now2).Keys <= Sweep(table, now1).Keys
    ensures Sweep(Sweep(table, now1), now1) == Sweep(table, now1)
  {
  }
}
