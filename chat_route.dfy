/** The decision part of `/api/chat`: the listing order and the
    find-or-create lookup by participant pair. */
module ChatRoute {
  import opened Base
  import opened Query
  import opened ChatModel

  /** The sort key `lastMessage.timestamp`; a chat without a last message
      has a null key, which the store orders below every date. */
  function LastMessageTime(c: Chat): (t: int)
    ensures c.lastMessage.None? ==> t < 0
    ensures c.lastMessage.Some? ==> t == c.lastMessage.value.timestamp
  {
    match c.lastMessage
    case None => -1
    case Some(m) => m.timestamp
  }

  predicate HasBoth(c: Chat, a: UserId, b: UserId) {
    a in c.participants && b in c.participants
  }

  /** `Chat.findOne({participants: {$all: [a, b]}})`: the first chat that
      lists both users. */
  function ChatBetween(chats: seq<Chat>, a: UserId, b: UserId): (k: Option<ChatId>)
    ensures k.Some? ==> k.value < |chats| && HasBoth(chats[k.value], a, b)
    ensures k.Some? ==> forall i :: 0 <= i < k.value ==> !HasBoth(chats[i], a, b)
    ensures k.None? ==> forall i :: 0 <= i < |chats| ==> !HasBoth(chats[i], a, b)
  {
    FindFirst(chats, (c: Chat) => HasBoth(c, a, b))
  }

  /** The record `POST /api/chat` asks the store to create. */
  function PairChat(me: UserId, other: UserId, now: Time): Chat {
    CreateChat(None, [me, other], [], now)
  }

  /** That record carries no `trade`, which the chat schema requires, so
      the create is always rejected. */
  lemma PairChatRejected(me: UserId, other: UserId, now: Time)
    ensures !ChatSchemaValid(PairChat(me, other, now))
    ensures PairChat(me, other, now).participants == [me, other] && PairChat(me, other, now).messages == []
  {
  }
}
