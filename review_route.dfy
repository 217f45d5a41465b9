/** The decision part of `POST /api/review`: the reviewed party, the stat
    bonus and the chat note. */
module ReviewRoute {
  import opened Base
  import opened Query
  import opened UserModel
  import opened TradeModel
  import opened ChatModel

  /** The JSON body; a field the client left out is None. */
  datatype ReviewRequest = ReviewRequest(tradeId: Option<TradeId>, rating: Option<int>, comment: Option<string>)

  /** A rating at or above this is positive. */
  const PositiveRating := 4
  /** Experience granted to the reviewed user for a positive review. */
  const ReviewBonus := 25

  /** The party being reviewed: the receiver when the session user started
      the trade, the initiator in every other case. Nothing checks that the
      session user takes part in the trade. */
  function ReviewedParty(t: Trade, me: UserId): (u: UserId)
    ensures IsParty(t, u)
    ensures me == t.initiator ==> u == t.receiver
    ensures me != t.initiator ==> u == t.initiator
  {
    if t.initiator == me then t.receiver else t.initiator
  }

  /** A participant reviews the other participant; anyone else's review is
      filed against the initiator. */
  lemma ReviewedIsTheOtherParty(t: Trade, me: UserId)
    ensures IsParty(t, me) && t.initiator != t.receiver ==> ReviewedParty(t, me) != me
    ensures !IsParty(t, me) ==> ReviewedParty(t, me) == t.initiator
  {
  }

  /** `rating >= 4`; an absent rating compares false. */
  predicate IsPositive(rating: Option<int>) {
    rating.Some? && rating.value >= PositiveRating
  }

  /** The reviewed user's record after the route's stat update: a positive
      rating counts one more positive review and runs the level-up loop on 25
      more experience; any other rating leaves the record as it was. */
  function CreditReview(u: UserData, rating: Option<int>): (v: UserData)
    requires UserValid(u)
    ensures UserValid(v)
  {
    if IsPositive(rating) then
      var p := Settle(u.level, u.experience + ReviewBonus);
      u.(positiveReviews := u.positiveReviews + 1, level := p.level, experience := p.experience)
    else u
  }

  lemma CreditReviewEffect(u: UserData, rating: Option<int>)
    requires UserValid(u)
    ensures !IsPositive(rating) ==> CreditReview(u, rating) == u
    ensures rating.None? ==> CreditReview(u, rating) == u
    ensures IsPositive(rating) ==>
      var v := CreditReview(u, rating);
      && v.positiveReviews == u.positiveReviews + 1
      && Progress(v.level, v.experience) == Settle(u.level, u.experience + ReviewBonus)
      && u.level <= v.level && v.experience < RequiredExperience(v.level)
      && v.experience + Spent(u.level, LevelUps(u.level, u.experience + ReviewBonus)) == u.experience + ReviewBonus
      && v.name == u.name && v.email == u.email && v.completedTrades == u.completedTrades
  {
    SettleConserves(u.level, u.experience + ReviewBonus);
  }

  /** Every positive submission credits again, overwrites included: two
      positive reviews yield two increments. */
  lemma CreditReviewRepeats(u: UserData, r1: Option<int>, r2: Option<int>)
    requires UserValid(u)
    requires IsPositive(r1) && IsPositive(r2)
    ensures CreditReview(CreditReview(u, r1), r2).positiveReviews == u.positiveReviews + 2
  {
  }

  /** The content of the chat note, "Left a N-star review": between the
      fixed prefix and suffix stands the rating in decimal without leading
      zeros, with a minus sign when negative, or "undefined" when the body
      had no rating. */
  function ReviewNote(rating: Option<int>): (s: string)
    ensures |s| >= 20 && s[..7] == "Left a " && s[|s| - 12..] == "-star review"
    ensures rating.None? ==> s[7..|s| - 12] == "undefined"
    ensures rating.Some? && rating.value >= 0 ==>
      AllDigits(s[7..|s| - 12]) && DecimalValue(s[7..|s| - 12]) == rating.value
    ensures rating.Some? && rating.value < 0 ==>
      |s| > 20 && s[7] == '-' && AllDigits(s[8..|s| - 12]) && DecimalValue(s[8..|s| - 12]) == -rating.value
    ensures rating.Some? && rating.value >= 0 && |s| > 20 ==> s[7] != '0'
    ensures rating.Some? && rating.value < 0 && |s| > 21 ==> s[8] != '0'
    ensures rating.Some? && 0 <= rating.value < 10 ==>
      s == "Left a " + [(rating.value + '0' as int) as char] + "-star review"
  {
    var middle := if rating.None? then "undefined" else IntToString(rating.value);
    var s := "Left a " + middle + "-star review";
    assert s[7..|s| - 12] == middle;
    assert rating.Some? && rating.value < 0 ==> s[8..|s| - 12] == middle[1..];
    s
  }

  /** The note tells every rating apart. */
  lemma ReviewNoteDistinguishes(a: Option<int>, b: Option<int>)
    requires a != b
    ensures ReviewNote(a) != ReviewNote(b)
  {
  }

  /** `Chat.findOne({trade})`: the first chat of the trade. */
  function ChatOfTrade(chats: seq<Chat>, trade: TradeId): (k: Option<ChatId>)
    ensures k.Some? ==> k.value < |chats| && chats[k.value].trade == Some(trade)
    ensures k.Some? ==> forall i :: 0 <= i < k.value ==> chats[i].trade != Some(trade)
    ensures k.None? ==> forall i :: 0 <= i < |chats| ==> chats[i].trade != Some(trade)
  {
    FindFirst(chats, (c: Chat) => c.trade == Some(trade))
  }

  /** The review's chat note: if the trade has a chat, one `trade_update`
      message from the reviewer is pushed and the chat is saved. */
  function NoteReview(chats: seq<Chat>, trade: TradeId, me: UserId, rating: Option<int>, now: Time): seq<Chat> {
    match ChatOfTrade(chats, trade)
    case None => chats
    case Some(k) =>
      var m := NewMessage(me, ReviewNote(rating), Some(TradeUpdate), now);
      chats[k := PreSave(chats[k].(messages := chats[k].messages + [m]), now)]
  }

  /** The note lands at the end of the trade's chat and becomes its last
      message; no other chat changes, and without a chat nothing changes. */
  lemma NoteReviewEffect(chats: seq<Chat>, trade: TradeId, me: UserId, rating: Option<int>, now: Time)
    ensures |NoteReview(chats, trade, me, rating, now)| == |chats|
    ensures ChatOfTrade(chats, trade).None? ==> NoteReview(chats, trade, me, rating, now) == chats
    ensures ChatOfTrade(chats, trade).Some? ==>
      var k := ChatOfTrade(chats, trade).value;
      var out := NoteReview(chats, trade, me, rating, now);
      var m := Message(me, ReviewNote(rating), TradeUpdate, now);
      && out[k].messages == chats[k].messages + [m]
      && out[k].lastMessage == Some(m)
      && LastMessageDerived(out[k])
      && out[k].trade == chats[k].trade && out[k].participants == chats[k].participants
      && (forall i :: 0 <= i < |chats| && i != k ==> out[i] == chats[i])
  {
    match ChatOfTrade(chats, trade)
    case None =>
    case Some(k) =>
      var m := NewMessage(me, ReviewNote(rating), Some(TradeUpdate), now);
      PushThenSave(chats[k], m, now);
  }
}
