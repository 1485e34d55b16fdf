/** The data shared by both bot variants: the closed stage enum, one row of the
    `posts` table, the sender of an update, and the helpers every handler uses
    to pick the "current" post (the last row fetched for a chat) and to build a
    captioned album. */
module Posts {
  import opened Wrappers

  datatype Stage =
    | AwaitingBookCount
    | AwaitingPaymentReceipt
    | AwaitingPhotos
    | AwaitingDescription
    | AwaitingModeration
    | Published
    | Rejected

  /** One row of the `posts` table, with `photos` already decoded from its JSON
      list. A variant that has no price or receipt keeps those fields empty.
      `hasSentInstruction` and `photosFinished` are written by the paid
      variant but never loaded back under those names (bot.js:58-71), so no
      handler reads them. */
  datatype Post = Post(
    id: nat,
    stage: Stage,
    photos: seq<string>,
    description: string,
    receipt: string,
    price: string,
    priceText: string,
    username: string,
    hasSentInstruction: bool,
    photosFinished: bool)

  /** The identity fields of a Telegram user. The empty string stands for a
      field Telegram did not send (JavaScript treats both as false). */
  datatype Sender = Sender(username: string, firstName: string, lastName: string)

  /** One size of a photo message; only the file id is used. */
  datatype PhotoSize = PhotoSize(fileId: string)

  /** Key of the in-memory media-group table: `${chatId}_${media_group_id}`. */
  datatype GroupKey = GroupKey(chat: int, mediaGroupId: string)

  const UNKNOWN_USER: string := "Невідомий користувач"

  /** `msg.photo[msg.photo.length - 1].file_id`: the largest size is the last
      one; on an empty size list the source throws, which is `None` here. */
  function LargestFileId(sizes: seq<PhotoSize>): Option<string>
  {
    if |sizes| == 0 then None else Some(sizes[|sizes| - 1].fileId)
  }

  /** The display label stored with a new post: the handle with an `@`, else
      first name and optional last name, else a fixed placeholder. */
  function UsernameLabel(from: Sender): (shown: string)
    ensures |shown| > 0
    ensures from.username != "" ==> shown == "@" + from.username
    ensures from.username == "" && from.firstName != "" ==> from.firstName <= shown
    ensures from.username == "" && from.firstName == "" ==> shown == UNKNOWN_USER
  {
    if from.username != "" then "@" + from.username
    else if from.firstName != "" then
      from.firstName + (if from.lastName != "" then " " + from.lastName else "")
    else UNKNOWN_USER
  }

  /** The entry gate of both variants refuses every sender without a handle,
      so the label of every post they create is the `@` handle; the two
      fallbacks of `UsernameLabel` are never reached. */
  lemma GatedLabelIsHandle(from: Sender)
    requires from.username != ""
    ensures UsernameLabel(from) == "@" + from.username
    ensures UsernameLabel(from)[1..] == from.username
  {
  }

  /** True when some post's stage lies outside `terminal`: the
      `stage NOT IN (...)` query of `hasActivePost`. */
  function HasActive(posts: seq<Post>, terminal: set<Stage>): (b: bool)
    ensures b <==> exists i :: 0 <= i < |posts| && posts[i].stage !in terminal
  {
    if |posts| == 0 then false
    else if posts[|posts| - 1].stage !in terminal then true
    else
      var b := HasActive(posts[..|posts| - 1], terminal);
      assert forall i :: 0 <= i < |posts| - 1 ==> posts[..|posts| - 1][i] == posts[i];
      b
  }

  /** Every post except possibly the current (last) one is finished. */
  ghost predicate OnlyLastMayBeActive(posts: seq<Post>, terminal: set<Stage>)
  {
    forall i :: 0 <= i < |posts| - 1 ==> posts[i].stage in terminal
  }

  /** Under `OnlyLastMayBeActive` the store query reduces to a look at the
      current post, and at most one post is active. */
  lemma ActiveIsLast(posts: seq<Post>, terminal: set<Stage>)
    requires OnlyLastMayBeActive(posts, terminal)
    ensures HasActive(posts, terminal) <==> |posts| > 0 && posts[|posts| - 1].stage !in terminal
    ensures forall i, j ::
              (0 <= i < |posts| && 0 <= j < |posts| && posts[i].stage !in terminal && posts[j].stage !in terminal)
              ==> i == j
  {
  }

  /** Index of the first post with the given id (`Array.prototype.find`). */
  function IndexOfId(posts: seq<Post>, id: nat): (r: Option<nat>)
    ensures r.Some? ==> r.value < |posts| && posts[r.value].id == id
    ensures r.Some? ==> forall j :: 0 <= j < r.value ==> posts[j].id != id
    ensures r.None? ==> forall j :: 0 <= j < |posts| ==> posts[j].id != id
  {
    if |posts| == 0 then None
    else if posts[0].id == id then Some(0)
    else match IndexOfId(posts[1..], id)
      case None => None
      case Some(k) => Some(k + 1)
  }

  /** The lookup depends only on the ids: updating a post without changing
      its id finds the same index. */
  lemma {:induction false} IndexOfIdSameIds(a: seq<Post>, b: seq<Post>, id: nat)
    requires |a| == |b|
    requires forall j :: 0 <= j < |a| ==> a[j].id == b[j].id
    ensures IndexOfId(a, id) == IndexOfId(b, id)
  {
    if |a| > 0 {
      IndexOfIdSameIds(a[1..], b[1..], id);
    }
  }

  /** The posts of one chat; a chat with no rows has none. */
  function PostsOf(store: map<int, seq<Post>>, chat: int): seq<Post>
  {
    if chat in store then store[chat] else []
  }

  /** The current post of a chat: `userState[userState.length - 1]`. */
  function Last(posts: seq<Post>): Post
    requires |posts| > 0
  {
    posts[|posts| - 1]
  }

  /** The chat's posts with the current one replaced. */
  function WithLast(posts: seq<Post>, p: Post): seq<Post>
    requires |posts| > 0
  {
    posts[|posts| - 1 := p]
  }

  /** One element of a `sendMediaGroup` call. */
  datatype AlbumItem<C> = AlbumItem(media: string, caption: Option<C>)

  /** `photos.map((photo, index) => ...)` with the caption on index 0 only. */
  function Album<C>(photos: seq<string>, caption: C): (items: seq<AlbumItem<C>>)
    ensures |items| == |photos|
    ensures forall i :: 0 <= i < |items| ==> items[i].media == photos[i]
    ensures forall i :: 0 <= i < |items| ==> (items[i].caption.Some? <==> i == 0)
    ensures |items| > 0 ==> items[0].caption == Some(caption)
  {
    if |photos| == 0 then [] else [AlbumItem(photos[0], Some(caption))] + Uncaptioned(photos[1..])
  }

  function Uncaptioned<C>(photos: seq<string>): (items: seq<AlbumItem<C>>)
    ensures |items| == |photos|
    ensures forall i :: 0 <= i < |items| ==> items[i] == AlbumItem(photos[i], None)
  {
    if |photos| == 0 then [] else [AlbumItem(photos[0], None)] + Uncaptioned(photos[1..])
  }

  /** The file ids an album sends, in order. */
  function Medias<C>(items: seq<AlbumItem<C>>): seq<string>
  {
    if |items| == 0 then [] else [items[0].media] + Medias(items[1..])
  }

  /** Publishing an album sends exactly the post's photos, in their order. */
  lemma {:induction false} AlbumKeepsOrder<C>(photos: seq<string>, caption: C)
    ensures Medias(Album(photos, caption)) == photos
  {
    if |photos| > 0 {
      UncaptionedMedias<C>(photos[1..]);
    }
  }

  lemma {:induction false} UncaptionedMedias<C>(photos: seq<string>)
    ensures Medias(Uncaptioned<C>(photos)) == photos
  {
    if |photos| > 0 {
      var items := Uncaptioned<C>(photos);
      assert items[1..] == Uncaptioned<C>(photos[1..]);
      UncaptionedMedias<C>(photos[1..]);
    }
  }
}
