/** The route handlers over the document store: each handler checks the
    session, reads and writes the collections, and answers a response. */
module Server {
  import opened Base
  import opened Query
  import opened UserModel
  import opened ClothingModel
  import opened TradeModel
  import opened ChatModel
  import opened ReviewModel
  import opened TradeRoute
  import opened ReviewRoute
  import opened ChatRoute
  import opened ClothingRoute

  /** The contents of the five collections. */
  datatype Snapshot = Snapshot(
    users: map<UserId, UserData>,
    items: seq<Clothing>,
    trades: seq<Trade>,
    chats: seq<Chat>,
    reviews: seq<Review>)

  /** A stored chat passes its schema, derives its last message and belongs
      to a stored trade. */
  predicate ChatStored(trades: seq<Trade>, c: Chat) {
    ChatSchemaValid(c) && LastMessageDerived(c) && c.trade.value < |trades|
  }

  /** A stored review belongs to a stored trade and names as reviewed party
      the one the review route picks for its reviewer. */
  predicate ReviewStored(trades: seq<Trade>, rv: Review) {
    rv.trade < |trades| && rv.reviewed == ReviewedParty(trades[rv.trade], rv.reviewer)
  }

  predicate UsersValid(users: map<UserId, UserData>) {
    forall u :: u in users ==> UserValid(users[u])
  }

  predicate ItemsValid(items: seq<Clothing>) {
    forall i :: 0 <= i < |items| ==> ClothingValid(items[i])
  }

  predicate ChatsStored(trades: seq<Trade>, chats: seq<Chat>) {
    forall i :: 0 <= i < |chats| ==> ChatStored(trades, chats[i])
  }

  predicate ReviewsStored(trades: seq<Trade>, reviews: seq<Review>) {
    UniqueKeys(reviews) && forall rv :: rv in reviews ==> ReviewStored(trades, rv)
  }

  /** What the modelled handlers keep true of the store. */
  predicate StoreValid(s: Snapshot) {
    && UsersValid(s.users)
    && ItemsValid(s.items)
    && ChatsStored(s.trades, s.chats)
    && ReviewsStored(s.trades, s.reviews)
  }

  /** The session user's trades: `$or` on initiator and receiver. */
  predicate TradeOf(me: UserId, t: Trade) { IsParty(t, me) }

  /** The session user's chats: `participants` contains the user. */
  predicate ChatOf(me: UserId, c: Chat) { me in c.participants }

  class Store {
    var users: map<UserId, UserData>
    var items: seq<Clothing>
    var trades: seq<Trade>
    var chats: seq<Chat>
    var reviews: seq<Review>

    function Contents(): Snapshot
      reads this
    {
      Snapshot(users, items, trades, chats, reviews)
    }

    ghost predicate Valid()
      reads this
    {
      StoreValid(Contents())
    }

    constructor Load(s: Snapshot)
      requires StoreValid(s)
      ensures Contents() == s && Valid()
    {
      users, items, trades, chats, reviews := s.users, s.items, s.trades, s.chats, s.reviews;
    }

    /** `Chat.create(c)`: the schema is checked first, and a record that
        fails it is not stored. */
    method CreateChatRecord(c: Chat) returns (k: Option<ChatId>)
      modifies this
      ensures ChatSchemaValid(c) ==> k == Some(|old(chats)|) && chats == old(chats) + [c]
      ensures !ChatSchemaValid(c) ==> k.None? && chats == old(chats)
      ensures users == old(users) && items == old(items) && trades == old(trades) && reviews == old(reviews)
    {
      if ChatSchemaValid(c) {
        k := Some(|chats|);
        chats := chats + [c];
      } else {
        k := None;
      }
    }

    /** `POST /api/trade`: validate both offers, then store the trade and the
        chat that goes with it. */
    method PostTrade(session: Option<UserId>, req: TradeRequest, now: Time) returns (r: Response<Doc<Trade>>)
      requires Valid()
      modifies this
      ensures Valid()
      ensures session.None? ==> r == Unauthorized && Contents() == old(Contents())
      ensures session.Some? && ValidateProposal(old(items), session.value, req).None? ==>
        r == ServerError && Contents() == old(Contents())
      ensures session.Some? && ValidateProposal(old(items), session.value, req).Some? ==>
        var me := session.value;
        var p := ValidateProposal(old(items), me, req).value;
        var t := NewTrade(me, p.receiver, p.initiatorItems, p.receiverItems, now);
        var id := |old(trades)|;
        && r == Ok(Doc(id, t))
        && trades == old(trades) + [t]
        && chats == old(chats) + [CreateChat(Some(id), [me, p.receiver], [], now)]
        && ChatOfTrade(chats, id) == Some(|old(chats)|)
        && users == old(users) && items == old(items) && reviews == old(reviews)
      ensures r.Ok? ==>
        var t := r.value.value;
        && t.initiator == session.value
        && !t.initiatorAccepted && !t.receiverAccepted && t.status == TradeStatus.Pending
        && t.meeting == NoMeeting && t.createdAt == now && t.updatedAt == now
      ensures r.Ok? ==> OffersOwned(r.value.value)
      ensures r.Ok? ==> r.value in GetTrades(session).value
      ensures r.Ok? ==>
        var c := Doc(|old(chats)|, chats[|old(chats)|]);
        c in GetChats(session).value && c in GetChats(Some(r.value.value.receiver)).value
    {
      if session.None? {
        return Unauthorized;
      }
      var me := session.value;
      var proposal := ValidateProposal(items, me, req);
      if proposal.None? {
        return ServerError;
      }
      ValidateProposalExact(items, me, req);
      var p := proposal.value;
      var t := NewTrade(me, p.receiver, p.initiatorItems, p.receiverItems, now);
      var id := |trades|;
      var c := CreateChat(Some(id), [me, p.receiver], [], now);
      CreateChatDerives(Some(id), [me, p.receiver], [], now);
      AddTradeValid(Contents(), t, c);
      NewChatIsFirstOfTrade(trades, chats, c);
      trades := trades + [t];
      var k := CreateChatRecord(c);
      r := Ok(Doc(id, t));
    }

    /** `GET /api/trade`: the session user's trades, latest update first. */
    function GetTrades(session: Option<UserId>): (r: Response<seq<Doc<Trade>>>)
      reads this
      ensures session.None? <==> r == Unauthorized
      ensures r.Ok? ==> forall d :: d in r.value <==>
        d.id < |trades| && d.value == trades[d.id] && IsParty(d.value, session.value)
      ensures r.Ok? ==> Distinct(r.value)
      ensures r.Ok? ==> forall i, j :: 0 <= i < j < |r.value| ==> r.value[i].value.updatedAt >= r.value[j].value.updatedAt
    {
      if session.None? then Unauthorized
      else
        var me := session.value;
        var found := FindSorted(trades, (t: Trade) => TradeOf(me, t), (t: Trade) => t.updatedAt);
        assert forall i, j :: 0 <= i < j < |found| ==> found[i].value.updatedAt >= found[j].value.updatedAt by {
          assert SortedDesc(found, (d: Doc<Trade>) => d.value.updatedAt);
        }
        Ok(found)
    }

    /** `POST /api/review`: for a completed trade, upsert the session user's
        review, credit the reviewed user and note the review in the trade's
        chat. */
    method PostReview(session: Option<UserId>, req: ReviewRequest, now: Time) returns (r: Response<Review>)
      requires Valid()
      modifies this
      ensures Valid()
      ensures session.None? ==> r == Unauthorized && Contents() == old(Contents())
      ensures session.Some? && !Reviewable(old(trades), req.tradeId) ==>
        r == NotFound && Contents() == old(Contents())
      ensures session.Some? && Reviewable(old(trades), req.tradeId) && ReviewedUserSaves(old(Contents()), session.value, req) ==>
        && r == Ok(ReviewOf(old(trades), session.value, req))
        && Contents() == AfterReview(old(Contents()), session.value, req, now)
      ensures session.Some? && Reviewable(old(trades), req.tradeId) && !ReviewedUserSaves(old(Contents()), session.value, req) ==>
        && r == ServerError
        && Contents() == old(Contents()).(reviews := Upsert(old(reviews), ReviewOf(old(trades), session.value, req)))
    {
      if session.None? {
        return Unauthorized;
      }
      var me := session.value;
      if !Reviewable(trades, req.tradeId) {
        return NotFound;
      }
      var id := req.tradeId.value;
      ghost var before := Contents();
      AfterReviewValid(before, me, req, now);
      var reviewed := ReviewedParty(trades[id], me);
      var rv := ReviewOf(trades, me, req);
      UpsertKeepsReviewsStored(trades, reviews, rv);
      reviews := Upsert(reviews, rv);
      var saved := CreditReviewedUser(reviewed, req.rating);
      if !saved {
        return ServerError;
      }
      NoteInTradeChat(id, me, req.rating, now);
      r := Ok(rv);
    }

    /** The stat update of the review route: load the reviewed user, credit
        a positive rating, save; a missing user is skipped. The save fails,
        and nothing is written, when the user lacks a name or an email. */
    method CreditReviewedUser(reviewed: UserId, rating: Option<int>) returns (saved: bool)
      requires UsersValid(users)
      modifies this
      ensures saved <==> reviewed !in old(users) || UserSchemaValid(CreditReview(old(users)[reviewed], rating))
      ensures users == if reviewed in old(users) && saved
                       then old(users)[reviewed := CreditReview(old(users)[reviewed], rating)]
                       else old(users)
      ensures items == old(items) && trades == old(trades) && chats == old(chats) && reviews == old(reviews)
    {
      saved := true;
      if reviewed in users {
        var user := new UserDoc.Load(users[reviewed]);
        if IsPositive(rating) {
          user.positiveReviews := user.positiveReviews + 1;
          user.AddExperience(ReviewBonus);
        }
        saved := user.Save();
        if saved {
          users := users[reviewed := user.Data()];
        }
      }
    }

    /** The chat note of the review route: push a `trade_update` message
        onto the trade's chat, if there is one, and save it. */
    method NoteInTradeChat(trade: TradeId, me: UserId, rating: Option<int>, now: Time)
      modifies this
      ensures chats == NoteReview(old(chats), trade, me, rating, now)
      ensures users == old(users) && items == old(items) && trades == old(trades) && reviews == old(reviews)
    {
      var k := ChatOfTrade(chats, trade);
      if k.Some? {
        var chat := new ChatDoc.Load(chats[k.value]);
        chat.Push(NewMessage(me, ReviewNote(rating), Some(TradeUpdate), now));
        chat.Save(now);
        chats := chats[k.value := chat.Data()];
      }
    }

    /** `GET /api/review`: the reviews of one trade; the trade id is
        required. */
    function GetReviews(session: Option<UserId>, tradeId: Option<TradeId>): (r: Response<seq<Doc<Review>>>)
      reads this
      ensures session.None? <==> r == Unauthorized
      ensures session.Some? && tradeId.None? <==> r == BadRequest
      ensures r.Ok? ==> forall d :: d in r.value <==>
        d.id < |reviews| && d.value == reviews[d.id] && d.value.trade == tradeId.value
      ensures r.Ok? ==> Distinct(r.value) && IdsAscending(r.value)
    {
      if session.None? then Unauthorized
      else if tradeId.None? then BadRequest
      else Ok(Find(reviews, (rv: Review) => rv.trade == tradeId.value))
    }

    /** `GET /api/chat`: the session user's chats, most recent message
        first, chats without messages last. */
    function GetChats(session: Option<UserId>): (r: Response<seq<Doc<Chat>>>)
      reads this
      ensures session.None? <==> r == Unauthorized
      ensures r.Ok? ==> forall d :: d in r.value <==>
        d.id < |chats| && d.value == chats[d.id] && session.value in d.value.participants
      ensures r.Ok? ==> Distinct(r.value)
      ensures r.Ok? ==> forall i, j :: 0 <= i < j < |r.value| ==>
        LastMessageTime(r.value[i].value) >= LastMessageTime(r.value[j].value)
    {
      if session.None? then Unauthorized
      else
        var me := session.value;
        var found := FindSorted(chats, (c: Chat) => ChatOf(me, c), LastMessageTime);
        assert forall i, j :: 0 <= i < j < |found| ==>
          LastMessageTime(found[i].value) >= LastMessageTime(found[j].value) by {
          assert SortedDesc(found, (d: Doc<Chat>) => LastMessageTime(d.value));
        }
        Ok(found)
    }

    /** `POST /api/chat`: the existing chat of the two users, or else a new
        one, whose record lacks the required trade and is refused. */
    method PostChat(session: Option<UserId>, participant: UserId, now: Time) returns (r: Response<Doc<Chat>>)
      requires Valid()
      modifies this
      ensures Valid() && Contents() == old(Contents())
      ensures session.None? <==> r == Unauthorized
      ensures session.Some? && ChatBetween(chats, session.value, participant).Some? ==>
        var k := ChatBetween(chats, session.value, participant).value;
        r == Ok(Doc(k, chats[k]))
      ensures session.Some? && ChatBetween(chats, session.value, participant).None? ==> r == ServerError
      ensures r.Ok? ==> r.value in GetChats(session).value
    {
      if session.None? {
        return Unauthorized;
      }
      var me := session.value;
      var existing := ChatBetween(chats, me, participant);
      if existing.Some? {
        return Ok(Doc(existing.value, chats[existing.value]));
      }
      var c := PairChat(me, participant, now);
      PairChatRejected(me, participant, now);
      var k := CreateChatRecord(c);
      r := ServerError;
    }

    /** `GET /api/clothing`: the available listings that satisfy the
        filters, newest first. */
    function GetClothing(session: Option<UserId>, q: SearchQuery): (r: Response<seq<Doc<Clothing>>>)
      reads this
      ensures session.None? <==> r == Unauthorized
      ensures r.Ok? ==> forall d :: d in r.value <==>
        d.id < |items| && d.value == items[d.id] && MatchesSearch(q, d.value)
      ensures r.Ok? ==> forall d :: d in r.value ==> d.value.status == Available
      ensures r.Ok? ==> Distinct(r.value)
      ensures r.Ok? ==> forall i, j :: 0 <= i < j < |r.value| ==> r.value[i].value.createdAt >= r.value[j].value.createdAt
    {
      if session.None? then Unauthorized
      else
        var found := FindSorted(items, (c: Clothing) => MatchesSearch(q, c), (c: Clothing) => c.createdAt);
        assert forall i, j :: 0 <= i < j < |found| ==> found[i].value.createdAt >= found[j].value.createdAt by {
          assert SortedDesc(found, (d: Doc<Clothing>) => d.value.createdAt);
        }
        Ok(found)
    }

    /** `POST /api/clothing`: store the body as a listing of the session
        user, if it passes the schema. */
    method PostClothing(session: Option<UserId>, req: ListingRequest, now: Time) returns (r: Response<Doc<Clothing>>)
      requires Valid()
      modifies this
      ensures Valid()
      ensures session.None? ==> r == Unauthorized && Contents() == old(Contents())
      ensures session.Some? && BuildListing(req, session.value, now).None? ==>
        r == ServerError && Contents() == old(Contents())
      ensures session.Some? && BuildListing(req, session.value, now).Some? ==>
        var c := BuildListing(req, session.value, now).value;
        && r == Ok(Doc(|old(items)|, c))
        && items == old(items) + [c]
        && c.owner == session.value
        && users == old(users) && trades == old(trades) && chats == old(chats) && reviews == old(reviews)
      ensures r.Ok? && req.status.None? ==> r.value in GetClothing(session, SearchQuery(None, None, None)).value
    {
      if session.None? {
        return Unauthorized;
      }
      var listing := BuildListing(req, session.value, now);
      if listing.None? {
        return ServerError;
      }
      AddListingValid(items, listing.value);
      var id := |items|;
      items := items + [listing.value];
      r := Ok(Doc(id, listing.value));
      assert MatchesSearch(SearchQuery(None, None, None), listing.value) <==> listing.value.status == Available;
    }
  }

  /** A chat stored right after its trade is the first chat of that trade,
      since every earlier chat belongs to an earlier trade. */
  lemma NewChatIsFirstOfTrade(trades: seq<Trade>, chats: seq<Chat>, c: Chat)
    requires ChatsStored(trades, chats)
    requires c.trade == Some(|trades|)
    ensures ChatOfTrade(chats + [c], |trades|) == Some(|chats|)
  {
    var all := chats + [c];
    assert all[|chats|] == c;
    forall i | 0 <= i < |chats| ensures all[i].trade != Some(|trades|) {
      assert all[i] == chats[i];
    }
  }

  /** `Trade.findById(tradeId)` finds a completed trade; an absent id finds
      nothing. */
  predicate Reviewable(trades: seq<Trade>, tradeId: Option<TradeId>) {
    tradeId.Some? && tradeId.value < |trades| && trades[tradeId.value].status == Completed
  }

  /** Storing a trade together with its chat keeps the store valid: earlier chats and reviews still refer to the same trades. */
  lemma AddTradeValid(s: Snapshot, t: Trade, c: Chat)
    requires StoreValid(s)
    requires ChatSchemaValid(c) && LastMessageDerived(c) && c.trade == Some(|s.trades|)
    ensures StoreValid(s.(trades := s.trades + [t], chats := s.chats + [c]))
  {
    var trades, chats := s.trades + [t], s.chats + [c];
    forall i | 0 <= i < |chats| ensures ChatStored(trades, chats[i]) {
      if i < |s.chats| {
        assert chats[i] == s.chats[i];
      }
    }
    forall rv | rv in s.reviews ensures ReviewStored(trades, rv) {
      assert trades[rv.trade] == s.trades[rv.trade];
    }
  }

  /** A trade as `Trade.create` stores it awaits both acceptances, is
      pending, has no meeting yet, and so cannot be reviewed: the review route
      answers 404 for it until it is completed. */
  lemma FreshTradeNotReviewable(trades: seq<Trade>, me: UserId, receiver: UserId,
                                mine: seq<TradeItem>, theirs: seq<TradeItem>, now: Time)
    ensures var t := NewTrade(me, receiver, mine, theirs, now);
      && !t.initiatorAccepted && !t.receiverAccepted
      && t.status == TradeStatus.Pending && t.meeting == NoMeeting
      && t.createdAt == now && t.updatedAt == now
      && !Reviewable(trades + [t], Some(|trades|))
  {
    var t := NewTrade(me, receiver, mine, theirs, now);
    assert (trades + [t])[|trades|] == t;
  }

  /** The review that `me` writes for trade `req.tradeId`, filed against
      the other party. */
  function ReviewOf(trades: seq<Trade>, me: UserId, req: ReviewRequest): Review
    requires Reviewable(trades, req.tradeId)
  {
    var id := req.tradeId.value;
    Review(id, me, ReviewedParty(trades[id], me), req.rating, req.comment)
  }

  /** The save of the reviewed user succeeds: the user is missing (and
      skipped), or its credited record passes the user schema. */
  predicate ReviewedUserSaves(s: Snapshot, me: UserId, req: ReviewRequest)
    requires StoreValid(s) && Reviewable(s.trades, req.tradeId)
  {
    var reviewed := ReviewedParty(s.trades[req.tradeId.value], me);
    reviewed in s.users ==> UserSchemaValid(CreditReview(s.users[reviewed], req.rating))
  }

  /** The store after an accepted review of trade `req.tradeId` by `me`. */
  function AfterReview(s: Snapshot, me: UserId, req: ReviewRequest, now: Time): Snapshot
    requires StoreValid(s) && Reviewable(s.trades, req.tradeId)
  {
    var id := req.tradeId.value;
    var reviewed := ReviewedParty(s.trades[id], me);
    var rv := ReviewOf(s.trades, me, req);
    s.(reviews := Upsert(s.reviews, rv),
       users := if reviewed in s.users then s.users[reviewed := CreditReview(s.users[reviewed], req.rating)] else s.users,
       chats := NoteReview(s.chats, id, me, req.rating, now))
  }

  /** A review keeps the store valid: the credited user stays within the
      level bounds, the note keeps the chat's schema and derivation, and the
      upsert keeps the unique index. */
  lemma AfterReviewValid(s: Snapshot, me: UserId, req: ReviewRequest, now: Time)
    requires StoreValid(s) && Reviewable(s.trades, req.tradeId)
    ensures StoreValid(AfterReview(s, me, req, now))
  {
    var id := req.tradeId.value;
    UpsertKeepsReviewsStored(s.trades, s.reviews, ReviewOf(s.trades, me, req));
    NoteKeepsChatsStored(s.trades, s.chats, id, me, req.rating, now);
  }

  /** The upsert keeps the unique index and files only reviews of stored
      trades against the other party. */
  lemma UpsertKeepsReviewsStored(trades: seq<Trade>, reviews: seq<Review>, rv: Review)
    requires ReviewsStored(trades, reviews) && ReviewStored(trades, rv)
    ensures ReviewsStored(trades, Upsert(reviews, rv))
  {
    UpsertKeepsKeysUnique(reviews, rv);
    UpsertElements(reviews, rv);
  }

  /** Two accepted positive reviews of one trade by the same user leave
      only the second review stored, yet credit the reviewed user twice: the
      route counts every positive submission, overwrites included. */
  lemma RepeatReviewCreditsTwice(s: Snapshot, me: UserId, a: ReviewRequest, b: ReviewRequest, t1: Time, t2: Time)
    requires StoreValid(s) && Reviewable(s.trades, a.tradeId) && b.tradeId == a.tradeId
    requires IsPositive(a.rating) && IsPositive(b.rating)
    requires ReviewedParty(s.trades[a.tradeId.value], me) in s.users
    ensures StoreValid(AfterReview(s, me, a, t1))
    ensures var s1 := AfterReview(s, me, a, t1);
      var s2 := AfterReview(s1, me, b, t2);
      var reviewed := ReviewedParty(s.trades[a.tradeId.value], me);
      && s2.reviews == Upsert(s.reviews, ReviewOf(s.trades, me, b))
      && reviewed in s2.users
      && s2.users[reviewed].positiveReviews == s.users[reviewed].positiveReviews + 2
  {
    AfterReviewValid(s, me, a, t1);
    UpsertOverwrites(s.reviews, ReviewOf(s.trades, me, a), ReviewOf(s.trades, me, b));
  }

  lemma NoteKeepsChatsStored(trades: seq<Trade>, chats: seq<Chat>, trade: TradeId, me: UserId, rating: Option<int>, now: Time)
    requires ChatsStored(trades, chats)
    ensures ChatsStored(trades, NoteReview(chats, trade, me, rating, now))
  {
    NoteReviewEffect(chats, trade, me, rating, now);
    var out := NoteReview(chats, trade, me, rating, now);
    match ChatOfTrade(chats, trade)
    case None =>
    case Some(k) =>
      var m := Message(me, ReviewNote(rating), TradeUpdate, now);
      assert out[k].messages == chats[k].messages + [m];
      assert ChatSchemaValid(out[k]) by {
        forall i | 0 <= i < |out[k].messages| ensures out[k].messages[i].content != [] {
          if i < |chats[k].messages| {
            assert out[k].messages[i] == chats[k].messages[i];
          }
        }
      }
  }

  /** Storing a new listing keeps the store valid. */
  lemma AddListingValid(items: seq<Clothing>, c: Clothing)
    requires ItemsValid(items) && ClothingValid(c)
    ensures ItemsValid(items + [c])
  {
    forall i | 0 <= i < |items + [c]| ensures ClothingValid((items + [c])[i]) {
      if i < |items| {
        assert (items + [c])[i] == items[i];
      }
    }
  }
}
