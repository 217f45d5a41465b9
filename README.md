# SwapStyle marketplace core in Dafny

SwapStyle is a marketplace where users list clothes and trade them with each
other. Users propose a swap of listed items, chat about it, and review each
other once a trade is completed. Positive reviews earn experience, and
experience raises a user's level (1 to 50). This project models the data
records and the server-side route handlers of that core, and proves
properties of them. The Mongoose schemas and hooks are `User`, `Clothing`,
`Trade`, `Chat` and `Review`. The routes are `/api/trade`, `/api/review`,
`/api/chat` and `/api/clothing`; each has a `GET` and a `POST` handler.

Layout, one module per file:

- `base.dfy` (`Base`): identifiers, `Option`, and the handler outcome
  `Response` (200 with a value, or 401, 400, 404, 500).
- `query.dfy` (`Query`): what the handlers use from the document store.
  `findOne` is the first match. `find` returns exactly the matching
  documents, each once. `sort({k: -1})` is a permutation in descending key
  order.
- `user.dfy` (`UserModel`): the progression system.
  - The per-level experience requirement is computed exactly in integers
    and proved to be the floor of the exact real value 100 * 1.5^(level-1).
  - `Settle` is the level-up loop written as a function. The `UserDoc`
    class runs the loop itself, with invariants, and is proved equal to
    `Settle`.
  - The level colour bands.
- `clothing.dfy`, `trade.dfy`, `chat.dfy`, `review.dfy`: the records, their
  enumerations and defaults, and the schema constraints as predicates.
  - `chat.dfy` also has the pre-save hook that derives `lastMessage`, and
    a `ChatDoc` document class that route code pushes onto and saves.
  - `review.dfy` also has the upsert keyed by (trade, reviewer).
- `trade_route.dfy`, `review_route.dfy`, `chat_route.dfy`,
  `clothing_route.dfy`: the decisions each handler makes, as functions.
  These are offer validation, choosing the reviewed party and the stat
  bonus, the find-or-create lookup, the search filter, and casting a
  listing body.
- `server.dfy` (`Server`): class `Store` holds the five collections. Each
  handler is a method or a function over the store, and every `POST` keeps
  the store invariant `StoreValid`.

The session is a parameter (`None` means signed out), and so is the clock
(`now`). A document's identifier is its position in its collection.

Where the code and its own comments or description disagree, the model
follows the code:

- **Experience at level 50.** The loop in `addExperience`
  (models/User.ts:116-119) keeps subtracting the level-50 requirement once
  the level is pinned at 50. So the surplus at the cap is reduced modulo
  that requirement rather than kept (`UserModel.SettleAtCap`).
- **Colour bands.** The comments in `getLevelColor` put levels 1-4 in
  grey and 5-9 in green. `Math.floor((level - 1) / 5)` in fact puts levels
  1-5 in grey and 6-10 in green (`UserModel.GreyEndsAtFive`).
- **New chats.** `POST /api/chat` creates a chat without a `trade`, but the
  chat schema requires one. The create is therefore always refused, and the
  handler answers 500 whenever the two users have no chat yet
  (`ChatRoute.PairChatRejected`, `Server.Store.PostChat`).
- **Review constraints.** `findOneAndUpdate` does not run schema
  validators. A stored review is therefore not required to satisfy the
  rating and comment constraints of models/Review.ts, which
  `ReviewModel.ReviewValid` states (`ReviewModel.UpsertSkipsValidation`).
- **Reviewed users without a name or email.** The text-message sign-up
  creates users without the `name` and `email` the user schema requires.
  `POST /api/review` saves the reviewed user after the review is upserted,
  and that save fails for such a user. The handler then answers 500 with
  the review written, the user not credited and no chat note
  (`Server.Store.PostReview`).

## Model

| member | source | states |
|---|---|---|
| UserModel.NewUserIsValidAndSettled | models/User.ts:7-74 | a new user starts at level 1 with 0 experience, counters at 0, inside the level bounds and below the first requirement; it passes the schema exactly when it has a name and an email |
| UserModel.RequiredExperienceIsFloor | models/User.ts:103-106 | the integer requirement is exactly floor(100 * 1.5^(level-1)): at most the real value and more than it minus one |
| UserModel.RequiredExperienceGrows | models/User.ts:103-106 | each level needs at least 50 more experience than the previous one |
| UserModel.RequiredExperienceIncreasing | models/User.ts:103-106 | the requirement strictly increases with the level |
| UserModel.RequiredAtFirstLevels | models/User.ts:103-106 | level 1 needs 100 and level 2 needs 150 |
| UserModel.Settle | models/User.ts:116-119 | the loop ends inside the level bounds, never lowers the level, never adds experience, and leaves less experience than the final level requires |
| UserModel.SettleConserves | models/User.ts:116-119 | experience put in equals experience left plus the requirements of every level passed through; the final level is the start plus the number of passes, capped at 50 |
| UserModel.SettleAtCap | models/User.ts:116-119 | at level 50 the loop reduces experience modulo the level-50 requirement |
| UserModel.SettleSettled | models/User.ts:116 | experience below the requirement is left as it is |
| UserModel.SettleExamples | models/User.ts:112-119 | 100 experience at level 1 gives level 2 with 0; 249 gives level 2 with 149 |
| UserModel.UserDoc.Save | models/User.ts:7-17 | save succeeds exactly when the document has a name, an email and a level within bounds |
| UserModel.UserDoc.AddExperience | models/User.ts:112-122 | the in-place loop ends where Settle says, keeps the level bounds, leaves experience below the new requirement and changes no other field |
| UserModel.LevelColorIndex | models/User.ts:143 | the band index is below 10; band i starts at level 5i+1 and, except the last, ends at 5i+5 |
| UserModel.LevelColor | models/User.ts:129-145 | the colour is one of the ten listed colours |
| UserModel.LevelColorIndexMonotone | models/User.ts:143 | a higher level never has a lower band |
| UserModel.LevelColorBands | models/User.ts:129-145 | levels 1-5 are grey, 6-10 green, 46-50 gold, each in both directions |
| UserModel.GreyEndsAtFive | models/User.ts:143 | levels 1 and 5 share a colour and level 6 has another |
| ClothingModel.ParseCategory | models/Clothing.ts:18-22 | a string parses to a category exactly when it is that category's name |
| ClothingModel.ParseCondition | models/Clothing.ts:27-31 | a string parses to a condition exactly when it is that condition's name |
| ClothingModel.ParseStatus | models/Clothing.ts:47-51 | a string parses to a status exactly when it is that status's name |
| ClothingModel.Trim | models/Clothing.ts:9-13 | the result is an infix of the input with only white space cut from both ends, and neither end of it is white space |
| ClothingModel.TrimKeepsTrimmed | models/Clothing.ts:9-13 | trimming changes a string exactly when one of its ends is white space, and the result is always trimmed |
| ClothingModel.TrimIdempotent | models/Clothing.ts:52-55 | trimming twice is trimming once |
| ChatModel.PushMessageKeepsChat | models/Chat.ts:3-22 | pushing a message without a type onto a stored chat and saving keeps the chat schema-valid exactly when the content is non-empty; the message becomes the last message, of type text, stamped now |
| ChatModel.PreSaveDerives | models/Chat.ts:51-57 | the hook makes lastMessage the final message whenever there is one, and keeps the messages |
| ChatModel.PreSaveWithoutMessages | models/Chat.ts:51-57 | with no messages, the hook leaves lastMessage as it was |
| ChatModel.CreateChatDerives | models/Chat.ts:36-57 | a created chat derives its last message, and starts with none when it has no messages |
| ChatModel.ChatDoc.Push | models/Chat.ts:35 | push appends exactly the message and changes nothing else |
| ChatModel.ChatDoc.Save | models/Chat.ts:51-57 | saving a document is the pre-save hook applied to its contents |
| ChatModel.PushThenSave | models/Chat.ts:51-57 | push then save appends the message and makes it the last message |
| ReviewModel.FindByKey | models/Review.ts:47 | finds the first stored review with the same (trade, reviewer), or reports that there is none |
| ReviewModel.UpsertEffect | app/api/review/route.ts:34-44 | the written review is stored, reviews under other keys are untouched, and the collection grows only for a new key |
| ReviewModel.UpsertKeepsKeysUnique | models/Review.ts:47 | the upsert keeps (trade, reviewer) unique, and exactly the written review carries its key |
| ReviewModel.UpsertElements | app/api/review/route.ts:34-44 | nothing but the written review enters the collection |
| ReviewModel.UpsertSkipsValidation | models/Review.ts:19-29 | a valid review has a rating from 1 to 5 and a comment, yet the upsert stores a review with rating 7 and one with neither rating nor comment |
| ReviewModel.UpsertOverwrites | app/api/review/route.ts:34-44 | two submissions under one key leave the same collection as the second alone |
| TradeRoute.ValidateOffer | app/api/trade/route.ts:19-37 | an offer passes exactly when every id names a listing owned by the party; it then becomes {item, owner} entries in request order |
| TradeRoute.ValidateProposalExact | app/api/trade/route.ts:16-45 | a proposal is accepted exactly when the body is complete and both offers pass; the stored trade then has owned offers in request order |
| TradeRoute.OneBadItemRejects | app/api/trade/route.ts:19-37 | one foreign or missing item on either side rejects the whole proposal |
| TradeRoute.EmptyOffersAccepted | app/api/trade/route.ts:19-37 | empty offers on both sides are accepted |
| ReviewRoute.ReviewedParty | app/api/review/route.ts:29-31 | the reviewed user takes part in the trade: the receiver when the reviewer initiated it, the initiator otherwise |
| ReviewRoute.ReviewedIsTheOtherParty | app/api/review/route.ts:29-31 | a participant of a trade between two users reviews the other one; anyone else's review is filed against the initiator |
| ReviewRoute.CreditReview | app/api/review/route.ts:47-54 | crediting a valid user gives a valid user |
| ReviewRoute.CreditReviewEffect | app/api/review/route.ts:47-54 | rating 4 or more adds one positive review and runs the level-up on 25 more experience, keeping identity and trade count; a lower or absent rating changes nothing |
| ReviewRoute.CreditReviewRepeats | app/api/review/route.ts:47-54 | crediting a record twice with positive ratings adds two positive reviews |
| ReviewRoute.ReviewNote | app/api/review/route.ts:61 | the note is "Left a ", then the rating in decimal without leading zeros (reading back as the rating, with a minus sign when negative) or "undefined" when absent, then "-star review" |
| ReviewRoute.ReviewNoteDistinguishes | app/api/review/route.ts:61 | different ratings give different notes |
| ReviewRoute.ChatOfTrade | app/api/review/route.ts:57 | finds the first chat of the trade, or reports that there is none |
| ReviewRoute.NoteReviewEffect | app/api/review/route.ts:56-65 | the trade's chat gains the trade_update note as its final and last message; other chats and a trade without a chat are untouched |
| ChatRoute.LastMessageTime | app/api/chat/route.ts:18 | the sort key is the last message's time, and below every time when there is no message |
| ChatRoute.ChatBetween | app/api/chat/route.ts:41-43 | finds the first chat listing both users, or reports that there is none |
| ChatRoute.PairChatRejected | app/api/chat/route.ts:50-53 | the record the handler creates lacks the required trade, so it fails the schema |
| ClothingRoute.SearchNarrows | app/api/clothing/route.ts:22-26 | with no filter every available item matches; each filter only narrows the result; an empty parameter does not restrict |
| ClothingRoute.BuildListing | app/api/clothing/route.ts:64-67 | the body is stored exactly when its required fields are present and its enumerations valid; the result is schema-valid, owned by the session user, with the trimmed title, the body's description, size and images, the trimmed tags, the named enumerations, status defaulting to available, the body's createdAt or else now, and updatedAt now |
| ClothingRoute.TrimAll | models/Clothing.ts:52-55 | every tag is trimmed and trimmed tags stay trimmed |
| ClothingRoute.OwnerOverridden | app/api/clothing/route.ts:64-67 | any owner named in the body is replaced by the session user |
| Query.FindFirst | app/api/chat/route.ts:41-43 | findOne answers the first matching document, or none when nothing matches |
| Query.Find | app/api/review/route.ts:95-97 | find answers exactly the matching documents, each once, in natural order |
| Query.SortDesc | app/api/trade/route.ts:82 | sort answers a permutation of its input in descending key order |
| Query.FindSorted | app/api/trade/route.ts:72-82 | find then sort answers exactly the matching documents, each once, in descending key order |
| Server.Store.CreateChatRecord | models/Chat.ts:24-29 | a chat that passes the schema is appended; one that fails is refused, leaving the store unchanged |
| Server.Store.PostTrade | app/api/trade/route.ts:8-62 | 401 when signed out; 500 with nothing written when validation fails; otherwise the trade (offers owned by their parties, pending, accepted by neither, no meeting, stamped now) and its empty chat are stored, that chat is the trade's first, and both show in the listings of both parties |
| Server.AddTradeValid | app/api/trade/route.ts:39-52 | storing a trade together with its chat keeps the store invariant |
| Server.FreshTradeNotReviewable | models/Trade.ts:29-52 | a created trade takes the schema defaults (accepted by neither party, pending, no meeting, stamped now), so the review route refuses it |
| Server.NewChatIsFirstOfTrade | app/api/trade/route.ts:48-52 | a chat stored right after its trade is that trade's first chat |
| Server.Store.GetTrades | app/api/trade/route.ts:64-92 | 401 when signed out; otherwise exactly the trades the user initiated or receives, each once, latest update first |
| Server.Store.PostReview | app/api/review/route.ts:9-75 | 401 when signed out; 404 with nothing written unless the body names a trade that exists and is completed; otherwise the review is upserted; when the reviewed user then fails the user schema the answer is 500 with only the review written; else the review is returned and the store becomes AfterReview; the invariant is kept throughout |
| Server.AfterReviewValid | app/api/review/route.ts:34-65 | the upsert, the credit and the chat note together keep the store invariant |
| Server.UpsertKeepsReviewsStored | app/api/review/route.ts:34-44 | the upsert alone keeps the unique index and every review filed against the other party of a stored trade |
| Server.RepeatReviewCreditsTwice | app/api/review/route.ts:34-54 | two accepted positive reviews of one trade by one user leave only the second review stored, yet add two positive reviews to the reviewed user |
| Server.Store.CreditReviewedUser | app/api/review/route.ts:47-54 | the save succeeds exactly when the reviewed user is missing or its credited record passes the user schema; on success the user is replaced by that record, otherwise nothing changes |
| Server.Store.NoteInTradeChat | app/api/review/route.ts:56-65 | loading, pushing and saving the trade's chat gives the chats NoteReview describes |
| Server.Store.GetReviews | app/api/review/route.ts:77-107 | 401 when signed out; 400 without a trade id; otherwise exactly the reviews of that trade, each once |
| Server.Store.GetChats | app/api/chat/route.ts:6-28 | 401 when signed out; otherwise exactly the user's chats, each once, latest message first |
| Server.Store.PostChat | app/api/chat/route.ts:30-63 | 401 when signed out; the first chat of the two users when one exists; otherwise 500; the store never changes |
| Server.Store.GetClothing | app/api/clothing/route.ts:6-52 | 401 when signed out; otherwise exactly the available listings that satisfy every given filter, each once, newest first |
| Server.Store.PostClothing | app/api/clothing/route.ts:54-77 | 401 when signed out; 500 with nothing written when the body fails the schema; otherwise the listing is appended, owned by the session user, and a listing without a status shows in the unfiltered search |
| Server.AddListingValid | models/Clothing.ts:3-64 | appending a schema-valid listing keeps every stored listing schema-valid |

## Left out

- The geospatial filter of `GET /api/clothing` (`lat`, `lng`, `radius`,
  `$near`) and the GeoJSON `location` of users and listings: floating-point
  geometry is not modelled.
- Server.Store.PostClothing: a body without coordinates gets the location
  `{type: 'Point', coordinates: []}`, which the required `coordinates` and
  the 2dsphere index (models/Clothing.ts:42-45, 67) refuse, so the route
  answers 500 for it. The model has no location and stores such a listing.
- Reading the session, connecting to the database, and parsing HTTP and
  JSON. The session and the clock are parameters. Request bodies are
  datatypes in which a field the client may leave out is `None` and a
  missing list is empty; the one exception is the chat participant, noted
  below.
- Malformed identifiers: the route handlers answer 500 for a string that is not an
  ObjectId. Identifiers here are positions, and one out of range is a
  missing document.
- `populate`: responses carry identifiers, not the populated user and item
  documents.
- User fields `image`, `phoneNumber` and `preferences`; the timestamps of
  users and reviews; the `updatedAt` stamp of the user and review pre-save
  hooks. These do not affect any modelled decision.
- The listing text index: no modelled handler uses it.
- The email uniqueness index: users are taken as given by `Store.Load`,
  because sign-up is not part of this model.
- The route files app/api/trade/[id]/route.ts,
  app/api/trade/[id]/complete/route.ts, app/api/chat/[id]/route.ts and the
  authentication routes are not part of this model. The store invariant
  `StoreValid` is one the modelled handlers keep. It does not say that a
  trade's offers belong to its parties: the `PATCH` handler in
  app/api/trade/[id]/route.ts:73-75 stores the body's `receiverItems`
  without checking ownership. `Server.Store.PostTrade` states ownership of
  the trade it creates.
- Concurrency and atomicity: handlers run one at a time. The write that
  fails at the reviewed user's save is modelled; other writes on the
  modelled paths cannot fail (the trade's chat always passes the schema).
- The second save of the user document (`addExperience` saves, then the
  route saves again): both store the same record, so the model writes once.
- Ratings that are not integers (fractions, strings, `null`): `rating` is
  an optional `int`.
- ReviewRoute.ReviewNote: renders every integer rating digit by digit. A
  JavaScript template literal writes a number of magnitude 10^21 or more in
  exponent form (`1e+21`), and a JSON body carries integers beyond 2^53
  only approximately; ratings of that size are not modelled.
- ReviewModel.Upsert: an update body without `rating` or `comment` stores
  them as absent, as Mongoose 6 does (undefined becomes null). Mongoose 7
  and later drop undefined keys and keep the stored values, under which
  `UpsertOverwrites` would not hold for such bodies. The model assumes
  Mongoose 6.
- UserModel.RequiredExperience: computed exactly as a quotient of integers
  instead of using `Math.pow` in floating point. `RequiredExperienceIsFloor`
  proves this is the floor of the exact real value; rounding error in the
  floating-point powers is not modelled.
- ClothingModel.Trim: removes only the ASCII white space characters, while
  `String.prototype.trim` also removes Unicode spaces.
- ReviewModel.MaxCommentLength: lengths count Dafny characters, while the
  500 limit counts UTF-16 code units.
- Query.SortDesc: keeps insertion order among equal keys, while the store
  leaves the order of ties unspecified. The contracts state only the
  descending order and the permutation.
- Query.Find: answers its matches in insertion order, and Query.FindFirst,
  ReviewRoute.ChatOfTrade, ChatRoute.ChatBetween and ReviewModel.FindByKey
  answer the first match in insertion order. MongoDB leaves the order of a
  `find` without `sort` unspecified, so when several documents match,
  which one `findOne` returns is a choice of this model.
- Server.Store.PostChat: the participant is a required identifier; a body
  without `participantId` is not modelled.
