/** The description-first variant (`simple-bot.js`): a post is created in
    `awaiting_description`, a description of 10 to 500 words moves it to
    `awaiting_photos`, up to four photos are collected (singly or as albums,
    an album entering whole or not at all), and `finish_photos` publishes it
    straight to the channel. Only `published` is terminal. */
module SimpleBot {
  import opened Wrappers
  import opened Posts
  import Words

  const MIN_WORDS: nat := 10
  const MAX_WORDS: nat := 500
  const MAX_PHOTOS: nat := 4

  /** `stage NOT IN ('published')`. */
  const TERMINAL: set<Stage> := {Published}

  datatype DescriptionError = TooShort(words: nat) | TooLong(words: nat)

  /** The announcement caption: author and description. */
  datatype Caption = Caption(author: string, description: string)

  /** What one publish sends to the channel. */
  datatype Publication =
    | SinglePhoto(media: string, caption: Caption)
    | PhotoAlbum(items: seq<AlbumItem<Caption>>)

  /** What the bot says back; the wording is left out. */
  datatype Reply =
    | AskUsername
    | ActivePostExists
    | CreateMenu
    | AskDescription
    | DescriptionRejected(error: DescriptionError)
    | AskPhotos(maxPhotos: nat)
    | PhotoLimitReached
    | PhotoAdded(total: nat)
    | GroupRejected(size: nat)
    | GroupAdded(added: nat, total: nat)
    | AddPhotoFirst
    | PostPublished

  datatype Output = ToUser(chat: int, reply: Reply) | ToChannel(publication: Publication)

  /** One pending album under the reset-per-arrival policy. `timer` counts
      the arms so far (0: never armed); only the timer of the latest arm can
      fire, since each arrival clears the previous one. `postId` is the
      current post seen by the latest arrival. `processed` mirrors the
      source's flag; a flush removes the entry in the same step that would
      set it, so no transition here leaves it true. */
  datatype PendingGroup = PendingGroup(photos: seq<string>, timer: nat, postId: nat, processed: bool)

  type Table = map<GroupKey, PendingGroup>

  datatype State = State(store: map<int, seq<Post>>, groups: Table)

  datatype Transition = Transition(state: State, outputs: seq<Output>)

  datatype Handled = Handled(posts: seq<Post>, outputs: seq<Output>)

  /** One post after a handler, with what was sent. */
  datatype PostHandled = PostHandled(post: Post, outputs: seq<Output>)

  /** Inbound updates and timer firings. A group timer names the arm it
      belongs to; `delivered` says whether the publish send went through.
      `/start` arrives as an ordinary text. */
  datatype Event =
    | Callback(chat: int, from: Sender, data: string, now: nat, delivered: bool)
    | Text(chat: int, from: Sender, text: string)
    | Photo(chat: int, sizes: seq<PhotoSize>, mediaGroup: Option<string>)
    | GroupTimer(key: GroupKey, arm: nat)

  predicate HasActivePost(posts: seq<Post>)
  {
    HasActive(posts, TERMINAL)
  }

  // ------------------------------------------------------------ start/create

  /** The `/\/start/` listener fires on any text containing `/start`. */
  predicate MentionsStart(text: string)
  {
    Words.Occurs("/start", text)
  }

  /** `/start`: asks for a handle, refuses while a post is active, else shows
      the menu. It never changes the stored posts. */
  function OnStart(posts: seq<Post>, from: Sender): (r: Reply)
    ensures r == CreateMenu <==> from.username != "" && !HasActivePost(posts)
    ensures r == ActivePostExists <==> from.username != "" && HasActivePost(posts)
    ensures r == AskUsername <==> from.username == ""
  {
    if from.username == "" then AskUsername
    else if HasActivePost(posts) then ActivePostExists
    else CreateMenu
  }

  /** The fresh post `create_post` stores. */
  function NewPost(id: nat, author: string): Post
  {
    Post(id, AwaitingDescription, [], "", "", "", "", author, false, false)
  }

  /** `create_post`: refused while a post is active; otherwise a post in
      `awaiting_description` with no photos is appended. */
  function CreatePost(posts: seq<Post>, chat: int, from: Sender, now: nat): (h: Handled)
    ensures HasActivePost(posts) ==> h == Handled(posts, [ToUser(chat, ActivePostExists)])
    ensures !HasActivePost(posts) ==>
      && |h.posts| == |posts| + 1
      && h.posts[..|posts|] == posts
      && var p := h.posts[|posts|];
      && p.id == now && p.stage == AwaitingDescription && p.photos == []
      && p.description == "" && !p.photosFinished && p.username == UsernameLabel(from)
      && h.outputs == [ToUser(chat, AskDescription)]
  {
    if HasActivePost(posts) then Handled(posts, [ToUser(chat, ActivePostExists)])
    else Handled(posts + [NewPost(now, UsernameLabel(from))], [ToUser(chat, AskDescription)])
  }

  // ------------------------------------------------------------- description

  /** `validateDescription`: `None` when the count of
      `text.trim().split(/\s+/)` is within bounds, else the error with the
      count. */
  function ValidateDescription(text: string): (r: Option<DescriptionError>)
    ensures r.None? <==> MIN_WORDS <= Words.JsWordCount(text) <= MAX_WORDS
  {
    var count := Words.JsWordCount(text);
    if count < MIN_WORDS then Some(TooShort(count))
    else if count > MAX_WORDS then Some(TooLong(count))
    else None
  }

  /** In terms of words: a description is accepted exactly when it has 10 to
      500 words; fewer (even none) is "too short", more is "too long". */
  lemma DescriptionAcceptedIff(text: string)
    ensures ValidateDescription(text).None? <==> MIN_WORDS <= Words.WordCount(text) <= MAX_WORDS
    ensures (ValidateDescription(text).Some? && ValidateDescription(text).value.TooShort?)
              <==> Words.WordCount(text) < MIN_WORDS
    ensures (ValidateDescription(text).Some? && ValidateDescription(text).value.TooLong?)
              <==> Words.WordCount(text) > MAX_WORDS
  {
    Words.JsWordCountIsWordCount(text);
  }

  /** The text handler: commands are ignored; in `awaiting_description` a
      valid text becomes the description and the post waits for photos; an
      invalid one changes nothing. */
  function OnText(posts: seq<Post>, chat: int, text: string): (h: Handled)
    ensures |h.posts| == |posts|
    ensures ("/" <= text || |posts| == 0 || Last(posts).stage != AwaitingDescription) ==> h == Handled(posts, [])
    ensures !("/" <= text) && |posts| > 0 && Last(posts).stage == AwaitingDescription ==>
      match ValidateDescription(text)
      case Some(e) => h == Handled(posts, [ToUser(chat, DescriptionRejected(e))])
      case None =>
        && h.posts == WithLast(posts, Last(posts).(description := text, stage := AwaitingPhotos))
        && h.outputs == [ToUser(chat, AskPhotos(MAX_PHOTOS))]
  {
    if "/" <= text || |posts| == 0 || Last(posts).stage != AwaitingDescription then Handled(posts, [])
    else match ValidateDescription(text)
      case Some(e) => Handled(posts, [ToUser(chat, DescriptionRejected(e))])
      case None =>
        Handled(WithLast(posts, Last(posts).(description := text, stage := AwaitingPhotos)),
                [ToUser(chat, AskPhotos(MAX_PHOTOS))])
  }

  // ------------------------------------------------------------------ photos

  /** A single photo in `awaiting_photos`: refused at the cap, else its
      largest size is appended at the end. */
  function AddSinglePhoto(post: Post, chat: int, sizes: seq<PhotoSize>): (h: PostHandled)
    ensures |post.photos| >= MAX_PHOTOS ==> h == PostHandled(post, [ToUser(chat, PhotoLimitReached)])
    ensures |post.photos| < MAX_PHOTOS && |sizes| > 0 ==>
      && h.post == post.(photos := post.photos + [sizes[|sizes| - 1].fileId])
      && h.outputs == [ToUser(chat, PhotoAdded(|post.photos| + 1))]
    ensures |post.photos| < MAX_PHOTOS && |sizes| == 0 ==> h.post == post
  {
    if |post.photos| >= MAX_PHOTOS then PostHandled(post, [ToUser(chat, PhotoLimitReached)])
    else match LargestFileId(sizes)
      case None => PostHandled(post, [])
      case Some(id) => PostHandled(post.(photos := post.photos + [id]), [ToUser(chat, PhotoAdded(|post.photos| + 1))])
  }

  /** An album member: ignored once the group is processed; otherwise the
      entry is created if new, the file id appended, and the single timer
      re-armed. When the size list is empty the source throws after creating
      the entry, which is then left unarmed. */
  function Arrive(table: Table, key: GroupKey, postId: nat, sizes: seq<PhotoSize>): (t: Table)
    ensures key in t
    ensures forall k :: k != key ==> (k in t <==> k in table) && (k in t ==> t[k] == table[k])
    ensures key in table && table[key].processed ==> t == table
    ensures (key !in table || !table[key].processed) && |sizes| > 0 ==>
      var g := if key in table then table[key] else PendingGroup([], 0, postId, false);
      t[key] == PendingGroup(g.photos + [sizes[|sizes| - 1].fileId], g.timer + 1, postId, false)
  {
    var g := if key in table then table[key] else PendingGroup([], 0, postId, false);
    if g.processed then table
    else match LargestFileId(sizes)
      case None => table[key := g]
      case Some(id) => table[key := g.(photos := g.photos + [id], timer := g.timer + 1, postId := postId)]
  }

  /** Re-arming: once a newer member has arrived, the timer armed for an
      earlier one fires to no effect. */
  lemma ArrivalCancelsEarlierTimer(s: State, key: GroupKey, postId: nat, sizes: seq<PhotoSize>)
    requires key in s.groups && !s.groups[key].processed && |sizes| > 0
    ensures var s1 := s.(groups := Arrive(s.groups, key, postId, sizes));
      FlushGroup(s1, key, s.groups[key].timer) == Transition(s1, [])
  {
  }

  /** The album timer that is still armed: the entry is removed and the
      whole album is appended to the post it was collected for, in order, if
      it fits under the cap, else refused in full. The stage is not checked
      again. */
  function FlushGroup(s: State, key: GroupKey, arm: nat): (t: Transition)
    ensures !(key in s.groups && arm > 0 && s.groups[key].timer == arm) ==> t == Transition(s, [])
    ensures key in s.groups && arm > 0 && s.groups[key].timer == arm ==>
      && t.state.groups == s.groups - {key}
      && var g := s.groups[key];
      && var posts := PostsOf(s.store, key.chat);
      && match IndexOfId(posts, g.postId)
         case None => t.state.store == s.store
         case Some(i) =>
           && (|g.photos| + |posts[i].photos| <= MAX_PHOTOS ==>
                 && t.state.store == s.store[key.chat := posts[i := posts[i].(photos := posts[i].photos + g.photos)]]
                 && t.outputs == [ToUser(key.chat, GroupAdded(|g.photos|, |posts[i].photos| + |g.photos|))])
           && (|g.photos| + |posts[i].photos| > MAX_PHOTOS ==>
                 t.state.store == s.store && t.outputs == [ToUser(key.chat, GroupRejected(|g.photos|))])
  {
    if !(key in s.groups && arm > 0 && s.groups[key].timer == arm) then Transition(s, [])
    else
      var g := s.groups[key];
      var groups := s.groups - {key};
      var posts := PostsOf(s.store, key.chat);
      match IndexOfId(posts, g.postId)
      case None => Transition(s.(groups := groups), [])
      case Some(i) =>
        var p := posts[i];
        if |g.photos| > MAX_PHOTOS - |p.photos| then
          Transition(s.(groups := groups), [ToUser(key.chat, GroupRejected(|g.photos|))])
        else
          var p' := p.(photos := p.photos + g.photos);
          Transition(State(s.store[key.chat := posts[i := p']], groups),
                     [ToUser(key.chat, GroupAdded(|g.photos|, |p'.photos|))])
  }

  /** The photo handler: ignored unless the current post waits for photos. */
  function OnPhoto(s: State, chat: int, sizes: seq<PhotoSize>, mediaGroup: Option<string>): (t: Transition)
    ensures var posts := PostsOf(s.store, chat);
      (|posts| == 0 || Last(posts).stage != AwaitingPhotos) ==> t == Transition(s, [])
    ensures forall c :: c != chat ==> PostsOf(t.state.store, c) == PostsOf(s.store, c)
    ensures |PostsOf(t.state.store, chat)| == |PostsOf(s.store, chat)|
    ensures var posts := PostsOf(s.store, chat);
      |posts| > 0 && Last(posts).stage == AwaitingPhotos ==>
        && PostsOf(t.state.store, chat)[..|posts| - 1] == posts[..|posts| - 1]
        && (mediaGroup.Some? ==>
              t == Transition(s.(groups := Arrive(s.groups, GroupKey(chat, mediaGroup.value), Last(posts).id, sizes)), []))
        && (mediaGroup.None? ==>
              var h := AddSinglePhoto(Last(posts), chat, sizes);
              t.state.groups == s.groups && Last(PostsOf(t.state.store, chat)) == h.post && t.outputs == h.outputs)
  {
    var posts := PostsOf(s.store, chat);
    if |posts| == 0 || Last(posts).stage != AwaitingPhotos then Transition(s, [])
    else match mediaGroup
      case Some(g) => Transition(s.(groups := Arrive(s.groups, GroupKey(chat, g), Last(posts).id, sizes)), [])
      case None =>
        var h := AddSinglePhoto(Last(posts), chat, sizes);
        Transition(s.(store := s.store[chat := WithLast(posts, h.post)]), h.outputs)
  }

  // ----------------------------------------------------------------- publish

  /** One photo goes out as a photo, several as one album; the caption rides
      on the first item only. */
  function PublicationOf(photos: seq<string>, caption: Caption): (pub: Publication)
    requires |photos| > 0
    ensures |photos| == 1 ==> pub == SinglePhoto(photos[0], caption)
    ensures |photos| > 1 ==> pub.PhotoAlbum? && Medias(pub.items) == photos
    ensures pub.PhotoAlbum? ==> forall i :: 0 <= i < |pub.items| ==> (pub.items[i].caption.Some? <==> i == 0)
    ensures pub.PhotoAlbum? ==> |pub.items| > 0 && pub.items[0].caption == Some(caption)
  {
    if |photos| == 1 then SinglePhoto(photos[0], caption)
    else
      AlbumKeepsOrder(photos, caption);
      PhotoAlbum(Album(photos, caption))
  }

  /** `finish_photos`: only in `awaiting_photos`; with no photo nothing
      changes; otherwise exactly one publication is sent and, once it went
      through, the post is published. */
  function FinishPhotos(posts: seq<Post>, chat: int, delivered: bool): (h: Handled)
    ensures |h.posts| == |posts|
    ensures (|posts| == 0 || Last(posts).stage != AwaitingPhotos) ==> h == Handled(posts, [])
    ensures |posts| > 0 && Last(posts).stage == AwaitingPhotos && |Last(posts).photos| == 0 ==>
      h == Handled(posts, [ToUser(chat, AddPhotoFirst)])
    ensures |posts| > 0 && Last(posts).stage == AwaitingPhotos && |Last(posts).photos| > 0 && !delivered ==>
      h.posts == posts
    ensures |posts| > 0 && Last(posts).stage == AwaitingPhotos && |Last(posts).photos| > 0 && delivered ==>
      var p := Last(posts);
      && h.posts == WithLast(posts, p.(stage := Published))
      && h.outputs == [ToChannel(PublicationOf(p.photos, Caption(p.username, p.description))), ToUser(chat, PostPublished)]
  {
    if |posts| == 0 || Last(posts).stage != AwaitingPhotos then Handled(posts, [])
    else
      var p := Last(posts);
      if |p.photos| == 0 then Handled(posts, [ToUser(chat, AddPhotoFirst)])
      else if !delivered then Handled(posts, [])
      else
        Handled(WithLast(posts, p.(stage := Published)),
                [ToChannel(PublicationOf(p.photos, Caption(p.username, p.description))), ToUser(chat, PostPublished)])
  }

  // ---------------------------------------------------------------- dispatch

  /** Both callback handlers run on every button press: the first checks the
      handle and serves `create_post`; the second serves `finish_photos`
      without a handle check. */
  function OnCallback(s: State, chat: int, from: Sender, data: string, now: nat, delivered: bool): (t: Transition)
    ensures t.state.groups == s.groups
    ensures forall c :: c != chat ==> PostsOf(t.state.store, c) == PostsOf(s.store, c)
    ensures from.username == "" ==> |t.outputs| > 0 && t.outputs[0] == ToUser(chat, AskUsername)
    ensures data == "create_post" && from.username != "" ==>
      && PostsOf(t.state.store, chat) == CreatePost(PostsOf(s.store, chat), chat, from, now).posts
      && (!HasActivePost(PostsOf(s.store, chat)) ==> Last(PostsOf(t.state.store, chat)).username == "@" + from.username)
    ensures data == "finish_photos" ==>
      PostsOf(t.state.store, chat) == FinishPhotos(PostsOf(s.store, chat), chat, delivered).posts
    ensures (data != "create_post" || from.username == "") && data != "finish_photos" ==>
      PostsOf(t.state.store, chat) == PostsOf(s.store, chat)
  {
    var posts := PostsOf(s.store, chat);
    var first :=
      if from.username == "" then Handled(posts, [ToUser(chat, AskUsername)])
      else if data == "create_post" then CreatePost(posts, chat, from, now)
      else Handled(posts, []);
    var second :=
      if data == "finish_photos" then FinishPhotos(first.posts, chat, delivered)
      else Handled(first.posts, []);
    Transition(s.(store := s.store[chat := second.posts]), first.outputs + second.outputs)
  }

  /** One inbound update or timer firing. Buttons and texts leave the
      album table alone; nothing but a timer touches another chat's posts;
      a text mentioning `/start` is answered first, then handled as text. */
  function Next(s: State, e: Event): (t: Transition)
    ensures e.Callback? || e.Text? ==> t.state.groups == s.groups
    ensures !e.GroupTimer? ==> forall c :: c != e.chat ==> PostsOf(t.state.store, c) == PostsOf(s.store, c)
    ensures e.Text? ==>
      var posts := PostsOf(s.store, e.chat);
      var h := OnText(posts, e.chat, e.text);
      && PostsOf(t.state.store, e.chat) == h.posts
      && (MentionsStart(e.text) ==> t.outputs == [ToUser(e.chat, OnStart(posts, e.from))] + h.outputs)
      && (!MentionsStart(e.text) ==> t.outputs == h.outputs)
    ensures e.GroupTimer? ==>
      && t.state.groups.Keys <= s.groups.Keys
      && forall c :: c != e.key.chat ==> PostsOf(t.state.store, c) == PostsOf(s.store, c)
  {
    match e
    case Callback(chat, from, data, now, delivered) => OnCallback(s, chat, from, data, now, delivered)
    case Text(chat, from, text) =>
      var posts := PostsOf(s.store, chat);
      var start := if MentionsStart(text) then [ToUser(chat, OnStart(posts, from))] else [];
      var h := OnText(posts, chat, text);
      Transition(s.(store := s.store[chat := h.posts]), start + h.outputs)
    case Photo(chat, sizes, mediaGroup) => OnPhoto(s, chat, sizes, mediaGroup)
    case GroupTimer(key, arm) => FlushGroup(s, key, arm)
  }

  // -------------------------------------------------------------- invariants

  /** At most one active post per chat, the current one, and no post holds
      more than `MAX_PHOTOS` photos. */
  ghost predicate Valid(s: State)
  {
    forall c :: c in s.store ==>
      && OnlyLastMayBeActive(s.store[c], TERMINAL)
      && forall i :: 0 <= i < |s.store[c]| ==> |s.store[c][i].photos| <= MAX_PHOTOS
  }

  /** Every update and every timer keeps both the single active post and the
      photo cap. */
  lemma NextPreservesValid(s: State, e: Event)
    requires Valid(s)
    ensures Valid(Next(s, e).state)
  {
    match e
    case Callback(chat, from, data, now, delivered) =>
      CallbackPreservesValid(s, chat, from, data, now, delivered);
    case Text(chat, from, text) =>
      TextPreservesValid(s, chat, text);
    case Photo(chat, sizes, mediaGroup) =>
      PhotoPreservesValid(s, chat, sizes, mediaGroup);
    case GroupTimer(key, arm) =>
      FlushPreservesValid(s, key, arm);
  }

  lemma TextPreservesValid(s: State, chat: int, text: string)
    requires Valid(s)
    ensures Valid(s.(store := s.store[chat := OnText(PostsOf(s.store, chat), chat, text).posts]))
  {
    var posts := PostsOf(s.store, chat);
    var h := OnText(posts, chat, text);
    if !("/" <= text) && |posts| > 0 && Last(posts).stage == AwaitingDescription && ValidateDescription(text).None? {
      var p := Last(posts).(description := text, stage := AwaitingPhotos);
      assert h.posts == WithLast(posts, p);
      ReplaceLastKeepsValid(s, chat, p);
    } else {
      assert h.posts == posts;
      if chat in s.store {
        assert s.store[chat := posts] == s.store;
      }
    }
  }

  /** Replacing the current post by one within the cap keeps `Valid`. */
  lemma ReplaceLastKeepsValid(s: State, chat: int, p: Post)
    requires Valid(s) && |PostsOf(s.store, chat)| > 0 && |p.photos| <= MAX_PHOTOS
    ensures Valid(s.(store := s.store[chat := WithLast(PostsOf(s.store, chat), p)]))
  {
  }

  lemma PhotoPreservesValid(s: State, chat: int, sizes: seq<PhotoSize>, mediaGroup: Option<string>)
    requires Valid(s)
    ensures Valid(OnPhoto(s, chat, sizes, mediaGroup).state)
  {
  }

  lemma CallbackPreservesValid(s: State, chat: int, from: Sender, data: string, now: nat, delivered: bool)
    requires Valid(s)
    ensures Valid(OnCallback(s, chat, from, data, now, delivered).state)
  {
    var posts := PostsOf(s.store, chat);
    if from.username != "" && data == "create_post" && !HasActivePost(posts) {
      var h := CreatePost(posts, chat, from, now);
      assert h.posts[|h.posts| - 1].stage !in TERMINAL;
    }
  }

  lemma FlushPreservesValid(s: State, key: GroupKey, arm: nat)
    requires Valid(s)
    ensures Valid(FlushGroup(s, key, arm).state)
  {
  }

  /** The cap is never exceeded and an album enters whole or not at all: the
      flushed post gains either nothing or every photo of the album. */
  lemma AlbumAllOrNothing(s: State, key: GroupKey, arm: nat, i: nat)
    requires Valid(s)
    requires key in s.groups && arm > 0 && s.groups[key].timer == arm
    requires IndexOfId(PostsOf(s.store, key.chat), s.groups[key].postId) == Some(i)
    ensures var before := PostsOf(s.store, key.chat)[i].photos;
      var after := PostsOf(FlushGroup(s, key, arm).state.store, key.chat);
      && |after| == |PostsOf(s.store, key.chat)|
      && (after[i].photos == before || after[i].photos == before + s.groups[key].photos)
      && |after[i].photos| <= MAX_PHOTOS
  {
  }

  /** A publish sends the post's photos, all of them and in order. */
  lemma PublishSendsEveryPhoto(posts: seq<Post>, chat: int)
    requires |posts| > 0 && Last(posts).stage == AwaitingPhotos && |Last(posts).photos| > 0
    ensures var h := FinishPhotos(posts, chat, true);
      var pub := h.outputs[0].publication;
      && (pub.SinglePhoto? ==> [pub.media] == Last(posts).photos)
      && (pub.PhotoAlbum? ==> Medias(pub.items) == Last(posts).photos)
  {
  }
}
