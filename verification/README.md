# Book-listing bot: submission state machine in Dafny

This project models the part of a Telegram bot that walks a user's listing
("post") from creation to publication in a channel. The bot comes in two
variants:

- **Paid variant** (`bot.js`). The user picks a book count, which sets the
  price, then sends a payment receipt, then photos (singly or as albums),
  then a description. A moderator then approves or rejects the post through
  two buttons whose payloads are `approve_<chat>_<post>` and
  `reject_<chat>_<post>`. Terminal stages: `published` and `rejected`.
- **Description-first variant** (`simple-bot.js`). The user sends a
  description of 10 to 500 words, then up to 4 photos. Finishing publishes
  the post straight to the channel. The only terminal stage is `published`.

Every handler is a pure function from the state to the new state plus the
messages the bot would send. The state is the map from chat to that chat's
posts in store order, together with the table of pending photo albums. As in
the source, the *current post* of a chat is its last one. Timer expiries are
events of their own. Whether a send to Telegram went through is an input
flag (`delivered`) wherever the outcome decides the transition.

| file | module | contents |
|---|---|---|
| `wrappers.dfy` | `Wrappers` | `Option` |
| `posts.dfy` | `Posts` | stages, the post record, the author label, the active-post query, lookup by id, album layout |
| `decimal.dfy` | `Decimal` | decimal rendering and parsing of ids, with their round trip |
| `callback_token.dfy` | `CallbackToken` | `split('_')` and the moderator payload format, with their round trips |
| `words.dfy` | `Words` | JavaScript `trim()` and `split(/\s+/)` word count against a reference word count; literal-regex matching |
| `paid_media.dfy` | `PaidMedia` | album collection in the paid variant (timer set once) and the five-minute sweep |
| `paid_bot.dfy` | `PaidBot` | the paid variant's handlers, moderation, and its invariant |
| `simple_bot.dfy` | `SimpleBot` | the description-first variant's handlers, album debounce (timer re-armed per photo), publishing, and its invariant |

Main properties proved:

- **Both variants: one active post.** Every event and timer keeps at most
  one active post per chat, and that post is the current one.
  (`PaidBot.NextPreservesValid`, `SimpleBot.NextPreservesValid`)
- **Description-first variant: photo cap.** No post ever holds more than 4
  photos.
- **Moderator payloads round-trip.** Splitting the payload built for a post
  recovers exactly its decision, chat and post id. Its buttons then act on
  exactly that post.
- **Albums.** A flushed album keeps arrival order. In the description-first
  variant it enters whole or not at all, and a re-armed timer makes the
  earlier one a no-op. In the paid variant, a finish that beats the album's
  timer drops the album.
- **Word count.** The JavaScript word count equals the number of
  whitespace-separated words, except that text with no word counts as 1.

## Model

| member | source | states |
|---|---|---|
| `Posts.UsernameLabel` | bot.js:188-192 | the author label is never empty: `@handle` when the user has a handle, else one starting with the first name, else the "unknown user" text |
| `Posts.GatedLabelIsHandle` | simple-bot.js:150-151 | past the handle gate the label is exactly `@` followed by the handle, so the fallbacks never apply |
| `Posts.HasActive` | bot.js:119-125 | true exactly when some stored post of the chat has a stage outside the terminal set |
| `Posts.ActiveIsLast` | simple-bot.js:96-102 | when only the last post may be active, the store query reduces to a check of the current post, and no two posts are active at once |
| `Posts.IndexOfId` | bot.js:459 | `find` by id: the first post with that id, or none when no post has it |
| `Posts.IndexOfIdSameIds` | bot.js:341 | a lookup by id gives the same answer after any change that keeps every post's id in place |
| `Posts.Album` | simple-bot.js:310-314 | one album item per photo, in photo order, with the caption on the first item and on no other |
| `Posts.AlbumKeepsOrder` | bot.js:463-467 | the media of the album are exactly the post's photos, in order |
| `Decimal.NatToString` | bot.js:441-442 | the decimal rendering of a post id is a non-empty run of digits |
| `Decimal.IntToString` | bot.js:441-442 | a rendered chat id is non-empty, starts with `-` exactly when the id is negative, and is otherwise made of digits |
| `Decimal.ParseInt` | bot.js:457-459 | an id is read exactly from an optional minus sign followed by a non-empty run of digits; only a text with the minus sign reads as negative |
| `Decimal.ParseNat` | bot.js:459 | parsing succeeds exactly on a non-empty run of digits |
| `Decimal.ParseNatToString` | bot.js:457-459 | parsing the rendering of an id gives back that id |
| `Decimal.IntToStringRoundTrip` | bot.js:441-442 | parsing the rendering of a (possibly negative) chat id gives back that chat id |
| `Decimal.CharNotInIntToString` | bot.js:441-442 | a rendered chat id contains no `_`, so it cannot split a payload in the wrong place |
| `CallbackToken.Split` | bot.js:457 | `split('_')` gives at least one piece, and no piece contains the separator |
| `CallbackToken.JoinSplit` | bot.js:457 | joining the pieces of a split with `_` gives back the original text |
| `CallbackToken.SplitJoin` | bot.js:457 | splitting pieces joined with `_` gives back the pieces, when none of them contains `_` |
| `CallbackToken.Format` | bot.js:441-442 | a built payload splits at `_` into exactly three pieces: the action name, the rendered chat id and the rendered post id |
| `CallbackToken.Parse` | bot.js:457-459 | a payload is read exactly when it has at least three pieces, the second reads as an integer and the third as a natural number; the action, chat and post id are then the first three pieces as read |
| `CallbackToken.ParseFormat` | bot.js:441-442 | reading a built approve or reject payload recovers its decision, chat and post id |
| `CallbackToken.FormatInjective` | bot.js:441-442 | two posts' payloads are equal only if the decision, chat and post id are all equal |
| `Words.TrimStart` | simple-bot.js:175 | the result is a suffix of the input, does not start with whitespace, and only whitespace was dropped |
| `Words.TrimEnd` | simple-bot.js:175 | the result is a prefix of the input, does not end with whitespace, and only whitespace was dropped |
| `Words.SplitOnSpaceRuns` | simple-bot.js:175 | `split(/\s+/)` gives at least one piece, no piece contains whitespace, and a text without whitespace is its own single piece |
| `Words.JsWordCount` | simple-bot.js:175 | the count is at least 1, and exactly 1 for a text without whitespace |
| `Words.JsWordCountIsWordCount` | simple-bot.js:175 | `text.trim().split(/\s+/).length` is the number of whitespace-separated words, except that text with no word gives 1 |
| `Words.OccursAt` | simple-bot.js:105 | a literal pattern such as `/\/start/` matches a text exactly when the text contains the pattern at some position |
| `PaidMedia.Arrive` | bot.js:322-374 | a first album member creates the entry with the post id and arrival time; later members only append, with the post id and time fixed at creation; other entries are untouched |
| `PaidMedia.FileIds` | bot.js:345 | the album's file ids are available exactly when every member carries one, and they are the members in order |
| `PaidMedia.ArriveAllCollects` | bot.js:373-374 | a burst of members collects every file id, in arrival order, under the post id of the first |
| `PaidMedia.ArriveAllExtends` | bot.js:373-374 | members arriving at an existing entry only extend its photos; its post id and time stay |
| `PaidMedia.Sweep` | bot.js:289-298 | the sweep keeps exactly the entries at most five minutes old, unchanged |
| `PaidMedia.SweepMonotone` | bot.js:289-298 | a later sweep keeps no more entries than an earlier one, and sweeping twice at once changes nothing |
| `PaidBot.ClassifyCallback` | bot.js:177-277 | a payload selects a menu branch exactly when it is that branch's name (or starts with `books_`), so the order of the checks never matters; each of the six options is a book-count press |
| `PaidBot.TokenIsModeratorButton` | bot.js:215-276 | every approve or reject payload falls through all the menu branches to the moderator handler |
| `PaidBot.SellBooks` | bot.js:177-214 | refused while a post is active; otherwise exactly one fresh post in `awaiting_book_count` is appended, and earlier posts are untouched |
| `PaidBot.SellBooksLeavesOneActive` | bot.js:178-205 | after `sell_books` the chat has an active post, and it is the only one |
| `PaidBot.PriceFor` | bot.js:216-223 | exactly the six `books_*` options have a price |
| `PaidBot.ChooseBooks` | bot.js:215-234 | a known option sets the current post's price and moves it to `awaiting_payment_receipt`; an unknown option or an empty chat changes nothing |
| `PaidBot.BackToBookCount` | bot.js:235-249 | the current post returns to `awaiting_book_count` with its price cleared; other posts are untouched |
| `PaidBot.BackUndoesChoice` | bot.js:227-239 | choosing a count and then pressing back restores a fresh post exactly |
| `PaidBot.BackToMenu` | bot.js:250-257 | exactly the current post is deleted, whatever its stage |
| `PaidBot.FinishPhotos` | bot.js:262-274 | with at least one photo the post moves to `awaiting_description` with photos finished and keeps its photos; with none, nothing changes and finishing is offered again |
| `PaidBot.ModeratorAction` | bot.js:456-528 | the payload's post, found by id, is published (all photos as one album) on a delivered approve with photos, or rejected on a delivered reject; in every other case the store stays as it was |
| `PaidBot.ReviewRequest` | bot.js:437-445 | the request carries the post's receipt, a non-empty option text and author (the post's own when set), and approve and reject payloads that read back as that chat and that post |
| `PaidBot.HandleDescription` | bot.js:530-554 | non-empty text becomes the description and the post moves to `awaiting_moderation`; the review request goes out only when there are photos; empty text only asks again |
| `PaidBot.ApprovePayloadPublishes` | bot.js:441-482 | the approve payload built for a post publishes that very post, with all of its photos in order |
| `PaidBot.RejectPayloadRejects` | bot.js:442-524 | the reject payload built for a post rejects that very post |
| `PaidBot.DecisionOnReplacedLast` | bot.js:457-524 | once the current post is replaced by one with the same id, a delivered approve (when the post has photos) or reject acts on the replacement |
| `PaidBot.ReviewApproveActsOnItsPost` | bot.js:437-445 | the approve button of a review request publishes the post whose description was just sent |
| `PaidBot.ReviewRejectActsOnItsPost` | bot.js:437-445 | the reject button of a review request rejects the post whose description was just sent |
| `PaidBot.HandleReceipt` | bot.js:557-575 | a photo becomes the receipt (largest size) and the post moves to `awaiting_photos`, provided the notice that comes before the save goes through; when it fails, or for anything but a photo, the post is unchanged |
| `PaidBot.HandlePhotos` | bot.js:304-402 | an album member only goes into the album table; a single photo is appended at once, with no cap, and is always announced, since the flag that would silence it is never loaded |
| `PaidBot.FlushGroup` | bot.js:332-370 | the entry is removed; its photos are appended, in order, and the album notice is sent, exactly when the post found afresh by id still awaits photos, every member had a file id, and the notice (sent before the save, and always owed because its guard flag is never loaded) goes through; in every other case nothing is saved or sent |
| `PaidBot.FlushDropsMovedOnBatch` | bot.js:339-343 | when the album's post no longer awaits photos, the flush only removes the entry |
| `PaidBot.FlushAtMostOnce` | bot.js:334-337 | a second firing of the same album timer changes nothing |
| `PaidBot.OnCallback` | bot.js:163-277 | a user without a handle is only told to set one; no button touches the album table; each menu payload goes to its own handler, which sees and changes only the presser's posts; everything else goes to the moderator handler |
| `PaidBot.OnText` | bot.js:405-426 | `/start` is left to its own listener; past the handle gate, only a current post in `awaiting_description` is handled, by the description step; otherwise nothing changes; other chats and the album table are untouched |
| `PaidBot.OnPhoto` | bot.js:577-595 | past the handle gate, a photo goes to the receipt step in `awaiting_payment_receipt` and to the photo step in `awaiting_photos`, which act on the current post only; without posts or in any other stage nothing changes; earlier posts and other chats are untouched |
| `PaidBot.Next` | bot.js:163-595 | texts and menu buttons leave the album table alone; texts, photos and menu buttons touch only the sender's posts; an album timer only removes entries and touches only its own chat; the sweep sends nothing and changes no post |
| `PaidBot.NextPreservesValid` | bot.js:178-185 | every update and timer keeps at most one active post per chat, the current one |
| `PaidBot.ModeratorKeepsOnlyLast` | bot.js:456-528 | a moderator decision never activates an older post |
| `PaidBot.FinishBeforeFlushDropsBatch` | bot.js:262-268 | an album whose timer fires after `finish_photos` is dropped: the post keeps the photos it had and stays in `awaiting_description` |
| `PaidBot.AlbumAppendsInArrivalOrder` | bot.js:345-346 | a flushed album lands after the existing photos, every member in arrival order, with its notice, exactly when the album notice goes through; when it fails nothing is saved or sent |
| `PaidBot.StalePriceButtonReopensPost` | bot.js:225-229 | a price button pressed on an old message reopens a published post, making it active again |
| `SimpleBot.OnStart` | simple-bot.js:105-126 | the menu is shown exactly to a user with a handle and no active post; a user with a handle and an active post is refused; a user without a handle is only asked for one |
| `SimpleBot.CreatePost` | simple-bot.js:139-170 | refused while a post is active; otherwise exactly one fresh post in `awaiting_description`, with no photos, is appended |
| `SimpleBot.ValidateDescription` | simple-bot.js:174-183 | a description is accepted exactly when its JavaScript word count lies in [10, 500] |
| `SimpleBot.DescriptionAcceptedIff` | simple-bot.js:174-183 | accepted exactly when the text has 10 to 500 words; "too short" exactly below 10 words (text with no word included); "too long" exactly above 500 |
| `SimpleBot.OnText` | simple-bot.js:186-214 | commands and texts outside `awaiting_description` change nothing; a valid description is stored and the post moves to `awaiting_photos`; an invalid one leaves the post as it was |
| `SimpleBot.AddSinglePhoto` | simple-bot.js:273-289 | at the cap the photo is refused and the post is unchanged; below it the photo is appended at the end |
| `SimpleBot.Arrive` | simple-bot.js:225-248 | once an album is processed, its members are ignored; otherwise the member is appended and the album's single timer is re-armed; other albums are untouched |
| `SimpleBot.ArrivalCancelsEarlierTimer` | simple-bot.js:243-247 | after a further member arrives, the timer armed for the previous one fires to no effect |
| `SimpleBot.FlushGroup` | simple-bot.js:247-268 | only the latest armed timer acts: it removes the entry and appends the whole album to its post if it fits under the cap, else refuses it whole |
| `SimpleBot.OnPhoto` | simple-bot.js:217-222 | photos are ignored unless the current post awaits photos; then an album member only goes into the album table and a single photo goes to the single-photo step on the current post; only the sender's chat can change, and no post is added or removed |
| `SimpleBot.PublicationOf` | simple-bot.js:305-316 | one photo goes out as a single photo, several as one album in photo order; the caption (author and description) is on the first item and on no other |
| `SimpleBot.FinishPhotos` | simple-bot.js:293-323 | only a post in `awaiting_photos` is affected; with no photo nothing changes; a delivered publish sends every photo once and marks the post `published` |
| `SimpleBot.OnCallback` | simple-bot.js:129-323 | both callback handlers (lines 129-171 and 293-323) run: `create_post` only past the handle gate, `finish_photos` without it; no other payload changes anything |
| `SimpleBot.Next` | simple-bot.js:105-268 | buttons and texts leave the album table alone; nothing but an album timer touches another chat's posts; a text mentioning `/start` gets the start reply first and is then handled as text; a timer only removes album entries |
| `SimpleBot.NextPreservesValid` | simple-bot.js:139-147 | every update and timer keeps at most one active post per chat, the current one, and at most 4 photos per post |
| `SimpleBot.AlbumAllOrNothing` | simple-bot.js:250-259 | a flushed album's post gains either none or all of the album's photos, and stays within the cap |
| `SimpleBot.PublishSendsEveryPhoto` | simple-bot.js:307-316 | a publish sends exactly the post's photos, in order |

## Behaviour of the code worth knowing

Points where the code behaves in a way a reader may not expect. The model
follows the code in each.

- **Paid variant.**
  - `bot.js` has no photo cap and no word-count check on descriptions.
  - The post moves to `awaiting_moderation` even when it has no photo to
    review, and even when the send to the moderators fails
    (bot.js:537-540).
  - `books_*`, `back_to_book_count`, `finish_photos` and the moderator
    buttons do not check the stage. A stale button therefore still acts
    (`StalePriceButtonReopensPost`).
  - `back_to_menu` deletes the current post whatever its stage.
  - `getUserState` copies only `price_text` and `username` to camelCase
    (bot.js:58-71). `has_sent_instruction` is written on every save but never
    read back as `hasSentInstruction`. The guards at bot.js:349 and 391 always
    pass, so every single photo and every flushed album is announced, not
    only the first.
  - Album members that arrive after their album was flushed start a new
    album. The set-once timer does not re-arm.
- **Description-first variant.**
  - The album timer does not re-check the stage.
  - The description is validated and stored before any moderation. There is
    no moderation at all: finishing publishes directly.
- **Neither variant** expires old posts. The paid variant's `back_to_menu`
  (offered, among other places, when a second post is refused,
  bot.js:180-183) discards the current post, even an active or published one
  (bot.js:250-253). The description-first variant has no way to discard a
  post.

## Left out

- Telegram I/O, MySQL, JSON encoding of the photo list and the wording of
  messages. Replies are constructors; a failed send is the `delivered` flag.
  Sends whose failure only loses a notification are taken to succeed.
- Real timers and `Date.now()`:
  - a post id is the `now` parameter, and id collisions are not modelled;
  - an album flush is an explicit event;
  - the paid variant's one-second notification timer for single photos is
    folded into the photo event.
- Interleaving of concurrent asynchronous handlers. Every event runs to
  completion before the next.
- `SimpleBot.FlushGroup` acts on the post as stored, found by the id seen at
  the latest member's arrival. It does not act on the in-memory copy that the
  timer callback captured (simple-bot.js:250, 259). The two differ only when
  another update for the same post lands between the last member and the
  timer.
- `SimpleBot.OnCallback` does not order the replies of the two callback
  handlers against each other. Both run on every button press, and their
  outputs are listed first handler first. The same holds for the `/start`
  listener, which fires on any text containing `/start`, against the text
  handler.
- `PaidBot.ModeratorAction` folds the two sends of an approval (album, then
  the author's notice) into one `delivered` flag. It also reads the payload's
  ids as plain decimals: JavaScript's looser `==` coercion would also accept,
  for example, surrounding whitespace.
- `has_sent_instruction` and `photos_finished` are written by the paid variant
  but never read back (bot.js:58-71). Later saves write the missing property
  back as NULL. The model's `hasSentInstruction` and `photosFinished` keep
  the value last set by a handler instead. No handler reads either one, so
  the difference cannot be observed.
- The paid variant's `/start` listener (bot.js:128-151) only records the
  user's handle and shows the menu. It never touches posts.
- The `search_books` stub only replies.
- Empty photo-size arrays, which Telegram never sends, follow the source's
  throw where it comes:
  - a single photo, or a receipt, throws before the save, and the model
    changes nothing;
  - an album member in the paid variant is pushed as `undefined`
    (bot.js:374). The flush then throws (bot.js:345) and its catch deletes
    the entry (bot.js:365-368). The model keeps a `None` member, whose album
    is dropped with its entry;
  - an album member in the description-first variant creates the entry if
    it is new and then throws before appending or re-arming
    (simple-bot.js:235-241). The model does the same: the entry exists,
    and its photos and timer are as they were.
- The current post is the last row of `SELECT * FROM posts WHERE
  user_chat_id = ?`, which has no `ORDER BY` (bot.js:57, simple-bot.js:52).
  The model keeps a chat's posts in insertion order, which is what MySQL
  returns in practice (primary-key order). Post ids come from `Date.now()`,
  so the model agrees with the source only while the clock increases.
- `PaidBot.HandleDescription`: the notice sent when the post has no photo
  (bot.js:430) and the one sent when the review request fails (bot.js:448)
  both come before the save (bot.js:540). The model takes both to go
  through; if one failed, the source would skip the save.
