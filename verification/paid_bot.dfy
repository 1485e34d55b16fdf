/** The paid variant (`bot.js`): a post moves from choosing a book count
    through a payment receipt, photos and a description to moderation, where
    a moderator publishes or rejects it. Every handler is a pure function of
    the stored posts and the update; the current post of a chat is the last
    one fetched. Sends whose failure decides a transition are an input flag. */
module PaidBot {
  import opened Wrappers
  import opened Posts
  import opened CallbackToken
  import opened PaidMedia

  /** `stage NOT IN ('published', 'rejected')`. */
  const TERMINAL: set<Stage> := {Published, Rejected}

  /** What the bot says back; the Ukrainian wording is left out. */
  datatype Reply =
    | AskUsername
    | ActivePostExists
    | ChooseBookCount
    | AskReceipt(priceText: string)
    | MainMenu
    | SearchStub
    | PhotosDone(count: nat)
    | NoPhotosOfferFinish
    | ReceiptReceived
    | AskReceiptAgain
    | AskPhotoOfferFinish
    | PhotosReceived(total: nat)
    | GroupReceived(added: nat, total: nat)
    | AskDescriptionText
    | NoPhotosForModeration
    | SentToModeration
    | PostPublished
    | PublishFailed
    | NothingToPublish
    | PostRejected

  /** The review message sent to the moderators: the receipt photo, the
      chosen option and author, and the two button payloads. */
  datatype ModerationRequest = ModerationRequest(
    receipt: string, priceText: string, author: string, approve: string, reject: string)

  /** Caption of the first album item: the description and its author. */
  datatype PublishedCaption = PublishedCaption(description: string, author: string)

  datatype Output =
    | ToUser(chat: int, reply: Reply)
    | ToModerators(request: ModerationRequest)
    | ToChannel(album: seq<AlbumItem<PublishedCaption>>)

  /** One chat's posts after a handler, with what was sent. */
  datatype Handled = Handled(posts: seq<Post>, outputs: seq<Output>)

  /** One post after a handler, with what was sent. */
  datatype PostHandled = PostHandled(post: Post, outputs: seq<Output>)

  datatype State = State(store: map<int, seq<Post>>, groups: Table)

  datatype Transition = Transition(state: State, outputs: seq<Output>)

  /** The whole store after a moderator decision, with what was sent. */
  datatype Decided = Decided(store: map<int, seq<Post>>, outputs: seq<Output>)

  /** Inbound updates and timer firings. `now` is `Date.now()`; `delivered`
      says whether the sends that come before the save went through: the
      moderator decision's sends, the receipt notice, the album notice. */
  datatype Event =
    | Callback(chat: int, from: Sender, data: string, now: nat, delivered: bool)
    | Text(chat: int, from: Sender, text: string)
    | Photo(chat: int, from: Sender, sizes: seq<PhotoSize>, mediaGroup: Option<string>, now: nat, delivered: bool)
    | GroupTimer(key: GroupKey, delivered: bool)
    | SweepTimer(now: nat)

  predicate HasActivePost(posts: seq<Post>)
  {
    HasActive(posts, TERMINAL)
  }

  // ---------------------------------------------------------------- buttons

  /** The branch of the callback handler a payload selects, checked in the
      source's order; anything unrecognised goes to the moderator handler. */
  datatype Button =
    | SellBooksButton
    | BookCountButton
    | BackToBookCountButton
    | BackToMenuButton
    | SearchButton
    | FinishPhotosButton
    | ModeratorButton

  function ClassifyCallback(data: string): (b: Button)
    ensures b == SellBooksButton <==> data == "sell_books"
    ensures b == BookCountButton <==> "books_" <= data
    ensures b == BackToBookCountButton <==> data == "back_to_book_count"
    ensures b == BackToMenuButton <==> data == "back_to_menu"
    ensures b == SearchButton <==> data == "search_books"
    ensures b == FinishPhotosButton <==> data == "finish_photos"
    ensures data in BOOK_OPTIONS ==> b == BookCountButton
  {
    if data == "sell_books" then
      assert data[0] != "books_"[0];
      SellBooksButton
    else if "books_" <= data then
      BookPayloadIsNoOtherButton(data);
      BookCountButton
    else if data == "back_to_book_count" then BackToBookCountButton
    else if data == "back_to_menu" then BackToMenuButton
    else if data == "search_books" then SearchButton
    else if data == "finish_photos" then FinishPhotosButton
    else ModeratorButton
  }

  /** A `books_` payload is none of the fixed button names. */
  lemma BookPayloadIsNoOtherButton(data: string)
    requires "books_" <= data
    ensures data != "back_to_book_count" && data != "back_to_menu"
    ensures data != "search_books" && data != "finish_photos"
  {
    assert data[0] == 'b' && data[1] == 'o';
    assert "back_to_book_count"[1] == 'a' && "back_to_menu"[1] == 'a';
    assert "search_books"[0] == 's' && "finish_photos"[0] == 'f';
  }

  /** A moderator button's payload always reaches the moderator handler. */
  lemma TokenIsModeratorButton(d: Decision, chat: int, postId: nat)
    ensures ClassifyCallback(Format(d, chat, postId)) == ModeratorButton
  {
    var data := Format(d, chat, postId);
    assert data[0] == ActionName(d)[0];
  }

  /** The fresh post `sell_books` stores. */
  function NewPost(id: nat, author: string): Post
  {
    Post(id, AwaitingBookCount, [], "", "", "", "", author, false, false)
  }

  /** `sell_books`: refused while an active post exists, otherwise a new post
      in `awaiting_book_count` is appended. */
  function SellBooks(posts: seq<Post>, chat: int, from: Sender, now: nat): (h: Handled)
    ensures HasActivePost(posts) ==> h == Handled(posts, [ToUser(chat, ActivePostExists)])
    ensures !HasActivePost(posts) ==>
      && |h.posts| == |posts| + 1
      && h.posts[..|posts|] == posts
      && var p := h.posts[|posts|];
      && p.id == now && p.stage == AwaitingBookCount && p.username == UsernameLabel(from)
      && p.photos == [] && p.description == "" && p.receipt == ""
      && p.price == "" && p.priceText == "" && !p.hasSentInstruction
      && h.outputs == [ToUser(chat, ChooseBookCount)]
  {
    if HasActivePost(posts) then Handled(posts, [ToUser(chat, ActivePostExists)])
    else Handled(posts + [NewPost(now, UsernameLabel(from))], [ToUser(chat, ChooseBookCount)])
  }

  /** After `sell_books` exactly one post is active, whatever happened. */
  lemma SellBooksLeavesOneActive(posts: seq<Post>, chat: int, from: Sender, now: nat)
    requires OnlyLastMayBeActive(posts, TERMINAL)
    ensures var h := SellBooks(posts, chat, from, now);
      HasActivePost(h.posts) && OnlyLastMayBeActive(h.posts, TERMINAL)
  {
    var h := SellBooks(posts, chat, from, now);
    assert h.posts[|h.posts| - 1].stage !in TERMINAL;
  }

  datatype PriceChoice = PriceChoice(price: string, text: string)

  /** The six book-count options and what each costs. */
  const BOOK_OPTIONS: set<string> :=
    {"books_1_4", "books_5_9", "books_10_14", "books_15_19", "books_20_24", "books_25_30"}

  function PriceFor(data: string): (r: Option<PriceChoice>)
    ensures r.Some? <==> data in BOOK_OPTIONS
  {
    if data == "books_1_4" then Some(PriceChoice("5 грн", "1-4 книги - 5 грн"))
    else if data == "books_5_9" then Some(PriceChoice("10 грн", "5-9 книг - 10 грн"))
    else if data == "books_10_14" then Some(PriceChoice("15 грн", "10-14 книг - 15 грн"))
    else if data == "books_15_19" then Some(PriceChoice("20 грн", "15-19 книг - 20 грн"))
    else if data == "books_20_24" then Some(PriceChoice("25 грн", "20-24 книги - 25 грн"))
    else if data == "books_25_30" then Some(PriceChoice("30 грн", "25-30 книг - 30 грн"))
    else None
  }

  /** `books_*`: sets price and price text of the current post from the table
      and asks for the receipt; nothing else changes. Neither the stage nor
      the option is checked first: an unknown option or a chat without posts
      throws, which changes nothing. */
  function ChooseBooks(posts: seq<Post>, chat: int, data: string): (h: Handled)
    ensures |h.posts| == |posts|
    ensures (|posts| == 0 || data !in BOOK_OPTIONS) ==> h == Handled(posts, [])
    ensures |posts| > 0 && data in BOOK_OPTIONS ==>
      var c := PriceFor(data).value;
      && h.posts == WithLast(posts, Last(posts).(price := c.price, priceText := c.text,
                                                  stage := AwaitingPaymentReceipt))
      && h.outputs == [ToUser(chat, AskReceipt(c.text))]
  {
    if |posts| == 0 then Handled(posts, [])
    else match PriceFor(data)
      case None => Handled(posts, [])
      case Some(c) =>
        var p := Last(posts);
        Handled(WithLast(posts, p.(price := c.price, priceText := c.text, stage := AwaitingPaymentReceipt)),
                [ToUser(chat, AskReceipt(c.text))])
  }

  /** `back_to_book_count`: clears price and price text of the current post
      and returns it to `awaiting_book_count`; nothing else changes. */
  function BackToBookCount(posts: seq<Post>, chat: int): (h: Handled)
    ensures |h.posts| == |posts|
    ensures |posts| == 0 ==> h == Handled(posts, [])
    ensures |posts| > 0 ==>
      && h.posts[..|posts| - 1] == posts[..|posts| - 1]
      && Last(h.posts) == Last(posts).(stage := AwaitingBookCount, price := "", priceText := "")
      && h.outputs == [ToUser(chat, ChooseBookCount)]
  {
    if |posts| == 0 then Handled(posts, [])
    else
      var p := Last(posts);
      Handled(WithLast(posts, p.(stage := AwaitingBookCount, price := "", priceText := "")),
              [ToUser(chat, ChooseBookCount)])
  }

  /** "Back" undoes a book-count choice: choosing an option on a fresh post
      and pressing back restores the post exactly. */
  lemma BackUndoesChoice(posts: seq<Post>, chat: int, data: string)
    requires |posts| > 0 && data in BOOK_OPTIONS
    requires Last(posts).stage == AwaitingBookCount
    requires Last(posts).price == "" && Last(posts).priceText == ""
    ensures BackToBookCount(ChooseBooks(posts, chat, data).posts, chat).posts == posts
  {
    var h := ChooseBooks(posts, chat, data);
    var b := BackToBookCount(h.posts, chat);
    assert b.posts[..|posts| - 1] == posts[..|posts| - 1];
    assert b.posts[|posts| - 1] == posts[|posts| - 1];
  }

  /** `back_to_menu`: deletes the current post, whatever its stage. */
  function BackToMenu(posts: seq<Post>, chat: int): (h: Handled)
    ensures |posts| == 0 ==> h == Handled(posts, [])
    ensures |posts| > 0 ==> h.posts + [Last(posts)] == posts && h.outputs == [ToUser(chat, MainMenu)]
  {
    if |posts| == 0 then Handled(posts, [])
    else Handled(posts[..|posts| - 1], [ToUser(chat, MainMenu)])
  }

  /** `finish_photos`: with at least one photo, marks photos finished and
      asks for the description; with none (or no post) nothing changes and the
      same finish button is offered again. The stage is not checked. */
  function FinishPhotos(posts: seq<Post>, chat: int): (h: Handled)
    ensures |h.posts| == |posts|
    ensures (|posts| == 0 || |Last(posts).photos| == 0) ==> h == Handled(posts, [ToUser(chat, NoPhotosOfferFinish)])
    ensures |posts| > 0 && |Last(posts).photos| > 0 ==>
      && h.posts[..|posts| - 1] == posts[..|posts| - 1]
      && Last(h.posts) == Last(posts).(photosFinished := true, stage := AwaitingDescription)
      && h.outputs == [ToUser(chat, PhotosDone(|Last(posts).photos|))]
  {
    if |posts| > 0 && |Last(posts).photos| > 0 then
      var p := Last(posts);
      Handled(WithLast(posts, p.(photosFinished := true, stage := AwaitingDescription)),
              [ToUser(chat, PhotosDone(|p.photos|))])
    else Handled(posts, [ToUser(chat, NoPhotosOfferFinish)])
  }

  // ------------------------------------------------------------- moderation

  function AuthorOf(p: Post): string
  {
    if p.username != "" then p.username else UNKNOWN_USER
  }

  /** `handleModeratorActions`: splits the payload, finds the post, then
      approves (publishes the album when there is a photo and the sends go
      through) or rejects (when the notification goes through). The stage is
      not consulted; nothing but the found post changes. */
  function ModeratorAction(store: map<int, seq<Post>>, data: string, delivered: bool): (r: Decided)
    ensures Parse(data).None? ==> r.store == store && r.outputs == []
    ensures Parse(data).Some? ==>
      var t := Parse(data).value;
      var posts := PostsOf(store, t.chat);
      match IndexOfId(posts, t.postId)
      case None => r.store == store && r.outputs == []
      case Some(i) =>
        var p := posts[i];
        && (t.action == "approve" && |p.photos| > 0 && delivered ==>
              && r.store == store[t.chat := posts[i := p.(stage := Published)]]
              && r.outputs == [ToChannel(Album(p.photos, PublishedCaption(p.description, AuthorOf(p)))),
                               ToUser(t.chat, PostPublished)])
        && (t.action == "reject" && delivered ==>
              && r.store == store[t.chat := posts[i := p.(stage := Rejected)]]
              && r.outputs == [ToUser(t.chat, PostRejected)])
        && (!(t.action == "approve" && |p.photos| > 0 && delivered) && !(t.action == "reject" && delivered) ==>
              r.store == store)
  {
    match Parse(data)
    case None => Decided(store, [])
    case Some(t) =>
      var posts := PostsOf(store, t.chat);
      match IndexOfId(posts, t.postId)
      case None => Decided(store, [])
      case Some(i) =>
        var p := posts[i];
        if t.action == "approve" then
          if |p.photos| == 0 then Decided(store, [ToUser(t.chat, NothingToPublish)])
          else if !delivered then Decided(store, [ToUser(t.chat, PublishFailed)])
          else
            Decided(store[t.chat := posts[i := p.(stage := Published)]],
                       [ToChannel(Album(p.photos, PublishedCaption(p.description, AuthorOf(p)))),
                        ToUser(t.chat, PostPublished)])
        else if t.action == "reject" && delivered then
          Decided(store[t.chat := posts[i := p.(stage := Rejected)]], [ToUser(t.chat, PostRejected)])
        else Decided(store, [])
  }

  /** The request sent for a post whose description just arrived. */
  function ReviewRequest(chat: int, p: Post): (r: ModerationRequest)
    ensures Parse(r.approve) == Some(Target("approve", chat, p.id))
    ensures Parse(r.reject) == Some(Target("reject", chat, p.id))
    ensures r.receipt == p.receipt
    ensures r.priceText != "" && (p.priceText != "" ==> r.priceText == p.priceText)
    ensures r.author != "" && (p.username != "" ==> r.author == p.username)
  {
    ParseFormat(Approve, chat, p.id);
    ParseFormat(Reject, chat, p.id);
    ModerationRequest(p.receipt, if p.priceText != "" then p.priceText else "Не вказано", AuthorOf(p),
                      Format(Approve, chat, p.id), Format(Reject, chat, p.id))
  }

  /** `handleDescription` in `awaiting_description`: any non-empty text
      becomes the description and the post goes to `awaiting_moderation`; a
      review request is sent when the post has photos. The stage advances even
      when there is no photo to review. Empty text only re-asks. */
  function HandleDescription(post: Post, chat: int, text: string): (h: PostHandled)
    requires post.stage == AwaitingDescription
    ensures text == "" ==> h == PostHandled(post, [ToUser(chat, AskDescriptionText)])
    ensures text != "" ==> h.post == post.(description := text, stage := AwaitingModeration)
    ensures text != "" && |post.photos| > 0 ==>
      h.outputs == [ToModerators(ReviewRequest(chat, h.post)), ToUser(chat, SentToModeration)]
    ensures text != "" && |post.photos| == 0 ==>
      (forall o :: o in h.outputs ==> !o.ToModerators?)
  {
    if text == "" then PostHandled(post, [ToUser(chat, AskDescriptionText)])
    else
      var p := post.(description := text, stage := AwaitingModeration);
      if |p.photos| == 0 then
        PostHandled(p, [ToUser(chat, NoPhotosForModeration), ToUser(chat, SentToModeration)])
      else
        PostHandled(p, [ToModerators(ReviewRequest(chat, p)), ToUser(chat, SentToModeration)])
  }

  /** The approve payload built for a post publishes exactly that post, with
      all its photos in their order, provided the sends go through; no
      earlier post of the chat may share its id. */
  lemma ApprovePayloadPublishes(store: map<int, seq<Post>>, chat: int, i: nat)
    requires i < |PostsOf(store, chat)|
    requires IndexOfId(PostsOf(store, chat), PostsOf(store, chat)[i].id) == Some(i)
    requires |PostsOf(store, chat)[i].photos| > 0
    ensures var posts := PostsOf(store, chat);
      var r := ModeratorAction(store, Format(Approve, chat, posts[i].id), true);
      && r.store == store[chat := posts[i := posts[i].(stage := Published)]]
      && |r.outputs| == 2 && r.outputs[0].ToChannel?
      && Medias(r.outputs[0].album) == posts[i].photos
  {
    var posts := PostsOf(store, chat);
    ParseFormat(Approve, chat, posts[i].id);
    AlbumKeepsOrder(posts[i].photos, PublishedCaption(posts[i].description, AuthorOf(posts[i])));
  }

  /** The reject payload built for a post rejects exactly that post once the
      author has been told. */
  lemma RejectPayloadRejects(store: map<int, seq<Post>>, chat: int, i: nat)
    requires i < |PostsOf(store, chat)|
    requires IndexOfId(PostsOf(store, chat), PostsOf(store, chat)[i].id) == Some(i)
    ensures var posts := PostsOf(store, chat);
      var r := ModeratorAction(store, Format(Reject, chat, posts[i].id), true);
      && r.store == store[chat := posts[i := posts[i].(stage := Rejected)]]
      && r.outputs == [ToUser(chat, PostRejected)]
  {
    var posts := PostsOf(store, chat);
    ParseFormat(Reject, chat, posts[i].id);
  }

  /** A decision on the current post, after it was replaced by `p` with the
      same id, acts on `p`. */
  lemma DecisionOnReplacedLast(store: map<int, seq<Post>>, chat: int, p: Post, d: Decision)
    requires var posts := PostsOf(store, chat);
      && |posts| > 0 && p.id == Last(posts).id
      && IndexOfId(posts, Last(posts).id) == Some(|posts| - 1)
      && (d == Approve ==> |p.photos| > 0)
    ensures var posts := PostsOf(store, chat);
      var after := if d == Approve then Published else Rejected;
      ModeratorAction(store[chat := WithLast(posts, p)], Format(d, chat, p.id), true).store
        == store[chat := WithLast(posts, p.(stage := after))]
  {
    var posts := PostsOf(store, chat);
    var n := |posts| - 1;
    var posts' := WithLast(posts, p);
    var s := store[chat := posts'];
    assert PostsOf(s, chat) == posts';
    assert IndexOfId(posts', posts'[n].id) == Some(n) by {
      IndexOfIdSameIds(posts, posts', p.id);
    }
    var after := if d == Approve then Published else Rejected;
    DecisionActsOn(s, chat, n, d);
    assert posts'[n := p.(stage := after)] == WithLast(posts, p.(stage := after));
  }

  /** A delivered decision built for the post at index `n` acts on it. */
  lemma DecisionActsOn(store: map<int, seq<Post>>, chat: int, n: nat, d: Decision)
    requires n < |PostsOf(store, chat)|
    requires IndexOfId(PostsOf(store, chat), PostsOf(store, chat)[n].id) == Some(n)
    requires d == Approve ==> |PostsOf(store, chat)[n].photos| > 0
    ensures var posts := PostsOf(store, chat);
      var after := if d == Approve then Published else Rejected;
      ModeratorAction(store, Format(d, chat, posts[n].id), true).store
        == store[chat := posts[n := posts[n].(stage := after)]]
  {
    if d == Approve {
      ApprovePayloadPublishes(store, chat, n);
    } else {
      RejectPayloadRejects(store, chat, n);
    }
  }

  /** The approve button of the review request sent when a description
      arrives acts on that very post: it publishes it. */
  lemma ReviewApproveActsOnItsPost(store: map<int, seq<Post>>, chat: int, text: string)
    requires var posts := PostsOf(store, chat);
      && |posts| > 0 && Last(posts).stage == AwaitingDescription
      && IndexOfId(posts, Last(posts).id) == Some(|posts| - 1)
      && text != "" && |Last(posts).photos| > 0
    ensures var posts := PostsOf(store, chat);
      var h := HandleDescription(Last(posts), chat, text);
      var s := store[chat := WithLast(posts, h.post)];
      ModeratorAction(s, ReviewRequest(chat, h.post).approve, true).store
        == store[chat := WithLast(posts, h.post.(stage := Published))]
  {
    var h := HandleDescription(Last(PostsOf(store, chat)), chat, text);
    DecisionOnReplacedLast(store, chat, h.post, Approve);
  }

  /** The reject button of the review request sent when a description
      arrives acts on that very post: it rejects it. */
  lemma ReviewRejectActsOnItsPost(store: map<int, seq<Post>>, chat: int, text: string)
    requires var posts := PostsOf(store, chat);
      && |posts| > 0 && Last(posts).stage == AwaitingDescription
      && IndexOfId(posts, Last(posts).id) == Some(|posts| - 1)
      && text != ""
    ensures var posts := PostsOf(store, chat);
      var h := HandleDescription(Last(posts), chat, text);
      var s := store[chat := WithLast(posts, h.post)];
      ModeratorAction(s, ReviewRequest(chat, h.post).reject, true).store
        == store[chat := WithLast(posts, h.post.(stage := Rejected))]
  {
    var h := HandleDescription(Last(PostsOf(store, chat)), chat, text);
    DecisionOnReplacedLast(store, chat, h.post, Reject);
  }

  // ----------------------------------------------------------------- photos

  /** `handleReceipt`: a photo becomes the receipt (its largest size) and the
      post moves to `awaiting_photos`; other input only re-asks. The notice is
      sent before the save, so when it fails nothing is stored. */
  function HandleReceipt(post: Post, chat: int, photo: Option<seq<PhotoSize>>, delivered: bool): (h: PostHandled)
    ensures photo.None? ==> h == PostHandled(post, [ToUser(chat, AskReceiptAgain)])
    ensures photo.Some? && |photo.value| > 0 && delivered ==>
      && h.post == post.(receipt := photo.value[|photo.value| - 1].fileId, stage := AwaitingPhotos)
      && h.outputs == [ToUser(chat, ReceiptReceived)]
    ensures photo.Some? && (|photo.value| == 0 || !delivered) ==> h == PostHandled(post, [])
  {
    match photo
    case None => PostHandled(post, [ToUser(chat, AskReceiptAgain)])
    case Some(sizes) =>
      match LargestFileId(sizes)
      case None => PostHandled(post, [])
      case Some(id) =>
        if delivered then PostHandled(post.(receipt := id, stage := AwaitingPhotos), [ToUser(chat, ReceiptReceived)])
        else PostHandled(post, [])
  }

  datatype PhotoHandled = PhotoHandled(groups: Table, post: Post, outputs: seq<Output>)

  /** `handlePhotos` in `awaiting_photos`: an album member only goes into the
      group table; a single photo is appended at once (there is no cap) and
      announced. The announcement is guarded by `hasSentInstruction`, but a
      loaded post never carries that property (the column keeps its
      snake_case name), so the guard always passes. */
  function HandlePhotos(groups: Table, chat: int, post: Post, photo: Option<seq<PhotoSize>>,
                        mediaGroup: Option<string>, now: int): (h: PhotoHandled)
    ensures photo.None? ==> h == PhotoHandled(groups, post, [ToUser(chat, AskPhotoOfferFinish)])
    ensures photo.Some? && mediaGroup.Some? ==>
      && h.post == post && h.outputs == []
      && h.groups == Arrive(groups, GroupKey(chat, mediaGroup.value), post.id, LargestFileId(photo.value), now)
    ensures photo.Some? && mediaGroup.None? ==> h.groups == groups
    ensures photo.Some? && mediaGroup.None? && |photo.value| > 0 ==>
      && h.post == post.(photos := post.photos + [photo.value[|photo.value| - 1].fileId])
      && h.outputs == [ToUser(chat, PhotosReceived(|post.photos| + 1))]
    ensures photo.Some? && mediaGroup.None? && |photo.value| == 0 ==> h.post == post
  {
    match photo
    case None => PhotoHandled(groups, post, [ToUser(chat, AskPhotoOfferFinish)])
    case Some(sizes) =>
      match mediaGroup
      case Some(g) => PhotoHandled(Arrive(groups, GroupKey(chat, g), post.id, LargestFileId(sizes), now), post, [])
      case None =>
        match LargestFileId(sizes)
        case None => PhotoHandled(groups, post, [])
        case Some(id) =>
          var p := post.(photos := post.photos + [id]);
          PhotoHandled(groups, p, [ToUser(chat, PhotosReceived(|p.photos|))])
  }

  /** The group timer: unless already processed, the entry is removed, and
      its photos are appended after the post's existing ones only if the post
      it was collected for, fetched afresh, is still in `awaiting_photos`
      (and every member had a file id); otherwise the batch is dropped. The
      album notice is sent before the save, and always: its guard reads a
      `hasSentInstruction` that a loaded post never carries. When the notice
      fails, the catch removes the entry and nothing is saved. */
  function FlushGroup(s: State, key: GroupKey, delivered: bool): (t: Transition)
    ensures key !in s.groups || s.groups[key].processed ==> t == Transition(s, [])
    ensures key in s.groups && !s.groups[key].processed ==>
      && t.state.groups == s.groups - {key}
      && var g := s.groups[key];
      && var posts := PostsOf(s.store, key.chat);
      && match IndexOfId(posts, g.postId)
         case None => t.state.store == s.store && t.outputs == []
         case Some(i) =>
           if posts[i].stage == AwaitingPhotos && FileIds(g.photos).Some? && delivered then
             var ids := FileIds(g.photos).value;
             && Present(ids) == g.photos
             && t.state.store == s.store[key.chat := posts[i := posts[i].(photos := posts[i].photos + ids,
                                                                           hasSentInstruction := true)]]
             && t.outputs == [ToUser(key.chat, GroupReceived(|ids|, |posts[i].photos| + |ids|))]
           else t.state.store == s.store && t.outputs == []
  {
    if key !in s.groups || s.groups[key].processed then Transition(s, [])
    else
      var g := s.groups[key];
      var groups := s.groups - {key};
      var posts := PostsOf(s.store, key.chat);
      match IndexOfId(posts, g.postId)
      case None => Transition(s.(groups := groups), [])
      case Some(i) =>
        var p := posts[i];
        if p.stage != AwaitingPhotos then Transition(s.(groups := groups), [])
        else match FileIds(g.photos)
          case None => Transition(s.(groups := groups), [])
          case Some(ids) =>
            if !delivered then Transition(s.(groups := groups), [])
            else
              var p' := p.(photos := p.photos + ids, hasSentInstruction := true);
              Transition(State(s.store[key.chat := posts[i := p']], groups),
                         [ToUser(key.chat, GroupReceived(|ids|, |p'.photos|))])
  }

  /** The stage re-check of the flush: when the post the album was collected
      for is no longer waiting for photos, the batch is dropped and only the
      entry goes. */
  lemma FlushDropsMovedOnBatch(s: State, key: GroupKey, i: nat, delivered: bool)
    requires key in s.groups && !s.groups[key].processed
    requires IndexOfId(PostsOf(s.store, key.chat), s.groups[key].postId) == Some(i)
    requires PostsOf(s.store, key.chat)[i].stage != AwaitingPhotos
    ensures FlushGroup(s, key, delivered) == Transition(s.(groups := s.groups - {key}), [])
  {
  }

  /** A group flushes at most once: its entry is gone afterwards, so a second
      firing finds nothing. */
  lemma FlushAtMostOnce(s: State, key: GroupKey, first: bool, second: bool)
    ensures FlushGroup(FlushGroup(s, key, first).state, key, second).state == FlushGroup(s, key, first).state
    ensures key !in FlushGroup(s, key, first).state.groups || (key in s.groups && s.groups[key].processed)
  {
  }

  // -------------------------------------------------------------- dispatch

  /** The callback handler: the handle gate, then the branch the payload
      selects. */
  function OnCallback(s: State, chat: int, from: Sender, data: string, now: nat, delivered: bool): (t: Transition)
    ensures from.username == "" ==> t == Transition(s, [ToUser(chat, AskUsername)])
    ensures t.state.groups == s.groups
    ensures from.username != "" && ClassifyCallback(data) == ModeratorButton ==>
      var m := ModeratorAction(s.store, data, delivered);
      t.state.store == m.store && t.outputs == m.outputs
    ensures from.username != "" && ClassifyCallback(data) != ModeratorButton ==>
      && (forall c :: c != chat ==> PostsOf(t.state.store, c) == PostsOf(s.store, c))
      && var posts := PostsOf(s.store, chat);
      && var after := PostsOf(t.state.store, chat);
      && (data == "sell_books" ==> Handled(after, t.outputs) == SellBooks(posts, chat, from, now))
      && (data == "sell_books" && !HasActivePost(posts) ==> Last(after).username == "@" + from.username)
      && ("books_" <= data ==> Handled(after, t.outputs) == ChooseBooks(posts, chat, data))
      && (data == "back_to_book_count" ==> Handled(after, t.outputs) == BackToBookCount(posts, chat))
      && (data == "back_to_menu" ==> Handled(after, t.outputs) == BackToMenu(posts, chat))
      && (data == "search_books" ==> after == posts && t.outputs == [ToUser(chat, SearchStub)])
      && (data == "finish_photos" ==> Handled(after, t.outputs) == FinishPhotos(posts, chat))
  {
    if from.username == "" then Transition(s, [ToUser(chat, AskUsername)])
    else
      var posts := PostsOf(s.store, chat);
      var h := match ClassifyCallback(data)
        case SellBooksButton => SellBooks(posts, chat, from, now)
        case BookCountButton => ChooseBooks(posts, chat, data)
        case BackToBookCountButton => BackToBookCount(posts, chat)
        case BackToMenuButton => BackToMenu(posts, chat)
        case SearchButton => Handled(posts, [ToUser(chat, SearchStub)])
        case FinishPhotosButton => FinishPhotos(posts, chat)
        case ModeratorButton => Handled(posts, []);
      if ClassifyCallback(data) == ModeratorButton then
        var m := ModeratorAction(s.store, data, delivered);
        Transition(s.(store := m.store), m.outputs)
      else Transition(s.(store := s.store[chat := h.posts]), h.outputs)
  }

  /** The text handler: `/start` is left to its own handler; in
      `awaiting_description` the text goes to `HandleDescription`. */
  function OnText(s: State, chat: int, from: Sender, text: string): (t: Transition)
    ensures t.state.groups == s.groups
    ensures forall c :: c != chat ==> PostsOf(t.state.store, c) == PostsOf(s.store, c)
    ensures text == "/start" ==> t == Transition(s, [])
    ensures text != "/start" && from.username == "" ==> t == Transition(s, [ToUser(chat, AskUsername)])
    ensures var posts := PostsOf(s.store, chat);
      text != "/start" && from.username != "" && (|posts| == 0 || Last(posts).stage != AwaitingDescription) ==>
        t == Transition(s, [])
    ensures var posts := PostsOf(s.store, chat);
      text != "/start" && from.username != "" && |posts| > 0 && Last(posts).stage == AwaitingDescription ==>
        var h := HandleDescription(Last(posts), chat, text);
        PostsOf(t.state.store, chat) == WithLast(posts, h.post) && t.outputs == h.outputs
  {
    var posts := PostsOf(s.store, chat);
    if text == "/start" then Transition(s, [])
    else if from.username == "" then Transition(s, [ToUser(chat, AskUsername)])
    else if |posts| == 0 || Last(posts).stage != AwaitingDescription then Transition(s, [])
    else
      var h := HandleDescription(Last(posts), chat, text);
      Transition(s.(store := s.store[chat := WithLast(posts, h.post)]), h.outputs)
  }

  /** The photo handler: the handle gate, then the receipt or the photo step
      of the current post; any other stage ignores the photo. */
  function OnPhoto(s: State, chat: int, from: Sender, sizes: seq<PhotoSize>, mediaGroup: Option<string>, now: nat,
                   delivered: bool): (t: Transition)
    ensures forall c :: c != chat ==> PostsOf(t.state.store, c) == PostsOf(s.store, c)
    ensures |PostsOf(t.state.store, chat)| == |PostsOf(s.store, chat)|
    ensures from.username == "" ==> t == Transition(s, [ToUser(chat, AskUsername)])
    ensures var posts := PostsOf(s.store, chat);
      from.username != "" && (|posts| == 0 || Last(posts).stage !in {AwaitingPaymentReceipt, AwaitingPhotos}) ==>
        t == Transition(s, [])
    ensures var posts := PostsOf(s.store, chat);
      from.username != "" && |posts| > 0 ==>
        && PostsOf(t.state.store, chat)[..|posts| - 1] == posts[..|posts| - 1]
        && (Last(posts).stage == AwaitingPaymentReceipt ==>
              var h := HandleReceipt(Last(posts), chat, Some(sizes), delivered);
              && t.state.groups == s.groups
              && Last(PostsOf(t.state.store, chat)) == h.post && t.outputs == h.outputs)
        && (Last(posts).stage == AwaitingPhotos ==>
              var h := HandlePhotos(s.groups, chat, Last(posts), Some(sizes), mediaGroup, now);
              && t.state.groups == h.groups
              && Last(PostsOf(t.state.store, chat)) == h.post && t.outputs == h.outputs)
  {
    var posts := PostsOf(s.store, chat);
    if from.username == "" then Transition(s, [ToUser(chat, AskUsername)])
    else if |posts| == 0 then Transition(s, [])
    else
      var p := Last(posts);
      if p.stage == AwaitingPaymentReceipt then
        var h := HandleReceipt(p, chat, Some(sizes), delivered);
        Transition(s.(store := s.store[chat := WithLast(posts, h.post)]), h.outputs)
      else if p.stage == AwaitingPhotos then
        var h := HandlePhotos(s.groups, chat, p, Some(sizes), mediaGroup, now);
        Transition(State(s.store[chat := WithLast(posts, h.post)], h.groups), h.outputs)
      else Transition(s, [])
  }

  /** One inbound update or timer firing. A user's update touches only that
      user's posts and leaves the group table alone unless it is a photo;
      the timers only remove group entries, and the sweep sends nothing and
      leaves every post alone. */
  function Next(s: State, e: Event): (t: Transition)
    ensures e.Callback? || e.Text? ==> t.state.groups == s.groups
    ensures e.Text? || e.Photo? ==>
      forall c :: c != e.chat ==> PostsOf(t.state.store, c) == PostsOf(s.store, c)
    ensures e.Callback? && ClassifyCallback(e.data) != ModeratorButton ==>
      forall c :: c != e.chat ==> PostsOf(t.state.store, c) == PostsOf(s.store, c)
    ensures e.GroupTimer? ==>
      && t.state.groups.Keys <= s.groups.Keys
      && forall c :: c != e.key.chat ==> PostsOf(t.state.store, c) == PostsOf(s.store, c)
    ensures e.SweepTimer? ==> t.state.store == s.store && t.outputs == [] && t.state.groups.Keys <= s.groups.Keys
  {
    match e
    case Callback(chat, from, data, now, delivered) => OnCallback(s, chat, from, data, now, delivered)
    case Text(chat, from, text) => OnText(s, chat, from, text)
    case Photo(chat, from, sizes, mediaGroup, now, delivered) => OnPhoto(s, chat, from, sizes, mediaGroup, now, delivered)
    case GroupTimer(key, delivered) => FlushGroup(s, key, delivered)
    case SweepTimer(now) => Transition(s.(groups := Sweep(s.groups, now)), [])
  }

  // ------------------------------------------------------------- invariants

  /** Every chat has at most one active post, and it is the current one. */
  ghost predicate Valid(s: State)
  {
    forall c :: c in s.store ==> OnlyLastMayBeActive(s.store[c], TERMINAL)
  }

  /** Every update and every timer keeps at most one active post per chat. */
  lemma NextPreservesValid(s: State, e: Event)
    requires Valid(s)
    ensures Valid(Next(s, e).state)
  {
    match e
    case Callback(chat, from, data, now, delivered) =>
      CallbackKeepsValid(s, chat, from, data, now, delivered);
    case Text(chat, from, text) =>
      assert Valid(OnText(s, chat, from, text).state);
    case Photo(chat, from, sizes, mediaGroup, now, delivered) =>
      assert Valid(OnPhoto(s, chat, from, sizes, mediaGroup, now, delivered).state);
    case GroupTimer(key, delivered) =>
      assert Valid(FlushGroup(s, key, delivered).state);
    case SweepTimer(now) =>
  }

  lemma CallbackKeepsValid(s: State, chat: int, from: Sender, data: string, now: nat, delivered: bool)
    requires Valid(s)
    ensures Valid(OnCallback(s, chat, from, data, now, delivered).state)
  {
    if from.username != "" {
      var posts := PostsOf(s.store, chat);
      if ClassifyCallback(data) == SellBooksButton {
        SellBooksLeavesOneActive(posts, chat, from, now);
      } else if ClassifyCallback(data) == BackToMenuButton && |posts| > 0 {
        assert forall i :: 0 <= i < |posts| - 2 ==> posts[..|posts| - 1][i] == posts[i];
      } else if ClassifyCallback(data) == ModeratorButton {
        ModeratorKeepsOnlyLast(s, data, delivered);
      }
    }
  }

  lemma ModeratorKeepsOnlyLast(s: State, data: string, delivered: bool)
    requires Valid(s)
    ensures Valid(s.(store := ModeratorAction(s.store, data, delivered).store))
  {
  }

  /** The race between a finish and a pending album is settled in favour of
      the finish: once `finish_photos` has moved the post on, the album's
      timer drops the whole batch and removes the entry. */
  lemma FinishBeforeFlushDropsBatch(s: State, chat: int, from: Sender, now: nat, delivered: bool, key: GroupKey,
                                    flushDelivered: bool)
    requires from.username != "" && key.chat == chat
    requires var posts := PostsOf(s.store, chat);
      && |posts| > 0 && |Last(posts).photos| > 0 && Last(posts).stage == AwaitingPhotos
      && key in s.groups && !s.groups[key].processed && s.groups[key].postId == Last(posts).id
      && IndexOfId(posts, Last(posts).id) == Some(|posts| - 1)
    ensures var posts := PostsOf(s.store, chat);
      var t1 := OnCallback(s, chat, from, "finish_photos", now, delivered);
      var t2 := FlushGroup(t1.state, key, flushDelivered);
      var after := PostsOf(t2.state.store, chat);
      && key !in t2.state.groups
      && |after| == |posts|
      && after[|posts| - 1].photos == posts[|posts| - 1].photos
      && after[|posts| - 1].stage == AwaitingDescription
  {
    var posts := PostsOf(s.store, chat);
    var h := FinishPhotos(posts, chat);
    var t1 := OnCallback(s, chat, from, "finish_photos", now, delivered);
    FinishButtonDispatch(s, chat, from, now, delivered);
    var posts1 := PostsOf(t1.state.store, chat);
    assert posts1 == h.posts;
    IndexOfIdSameIds(posts, posts1, Last(posts).id);
    assert posts1[|posts| - 1].stage == AwaitingDescription;
    assert t1.state.groups == s.groups;
    FlushDropsMovedOnBatch(t1.state, key, |posts| - 1, flushDelivered);
  }

  lemma FinishButtonDispatch(s: State, chat: int, from: Sender, now: nat, delivered: bool)
    requires from.username != ""
    ensures OnCallback(s, chat, from, "finish_photos", now, delivered)
      == Transition(s.(store := s.store[chat := FinishPhotos(PostsOf(s.store, chat), chat).posts]),
                    FinishPhotos(PostsOf(s.store, chat), chat).outputs)
  {
    assert "finish_photos"[0] != "books_"[0];
    assert ClassifyCallback("finish_photos") == FinishPhotosButton;
  }

  /** An album sent while the post waits for photos lands after the existing
      photos, every member in arrival order, once its timer fires, exactly
      when the album notice goes through; otherwise nothing is saved. */
  lemma AlbumAppendsInArrivalOrder(s: State, key: GroupKey, ids: seq<string>, now: int, delivered: bool)
    requires key !in s.groups && |ids| > 0
    requires var posts := PostsOf(s.store, key.chat);
      && |posts| > 0 && Last(posts).stage == AwaitingPhotos
      && IndexOfId(posts, Last(posts).id) == Some(|posts| - 1)
    ensures var posts := PostsOf(s.store, key.chat);
      var s1 := s.(groups := ArriveAll(s.groups, key, Last(posts).id, ids, now));
      var t := FlushGroup(s1, key, delivered);
      && (delivered ==> Last(PostsOf(t.state.store, key.chat)).photos == Last(posts).photos + ids)
      && (delivered ==> t.outputs == [ToUser(key.chat, GroupReceived(|ids|, |Last(posts).photos| + |ids|))])
      && (!delivered ==> t.state.store == s.store && t.outputs == [])
      && key !in t.state.groups
  {
    var posts := PostsOf(s.store, key.chat);
    ArriveAllCollects(s.groups, key, Last(posts).id, ids, now);
    var s1 := s.(groups := ArriveAll(s.groups, key, Last(posts).id, ids, now));
    var g := s1.groups[key];
    assert FileIds(g.photos).Some?;
    PresentInjective(FileIds(g.photos).value, ids);
  }

  lemma {:induction false} PresentInjective(a: seq<string>, b: seq<string>)
    requires Present(a) == Present(b)
    ensures a == b
  {
    assert |a| == |b|;
    forall i | 0 <= i < |a|
      ensures a[i] == b[i]
    {
      assert Present(a)[i] == Present(b)[i];
    }
  }

  /** A price button pressed on an old message is honoured even when the
      current post is already finished: it becomes active again. */
  lemma StalePriceButtonReopensPost(posts: seq<Post>, chat: int, data: string)
    requires |posts| > 0 && data in BOOK_OPTIONS && Last(posts).stage == Published
    ensures !HasActivePost(posts) ==> HasActivePost(ChooseBooks(posts, chat, data).posts)
    ensures Last(ChooseBooks(posts, chat, data).posts).stage == AwaitingPaymentReceipt
  {
  }
}
