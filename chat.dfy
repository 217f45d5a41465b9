/** The chat record: its messages, the derived `lastMessage`, and the
    pre-save hook that derives it. */
module ChatModel {
  import opened Base

  datatype MessageType = Text | TradeUpdate | MeetingPin

  datatype Message = Message(sender: UserId, content: string, kind: MessageType, timestamp: Time)

  /** A message sub-document as Mongoose builds it from a pushed object:
      an omitted type defaults to `text`, an omitted timestamp to now. */
  function NewMessage(sender: UserId, content: string, kind: Option<MessageType>, now: Time): Message {
    Message(sender, content, if kind.Some? then kind.value else Text, now)
  }

  datatype Chat = Chat(
    trade: Option<TradeId>,
    participants: seq<UserId>,
    messages: seq<Message>,
    lastMessage: Option<Message>,
    createdAt: Time,
    updatedAt: Time)

  /** The schema's required fields: a chat needs its trade, a message needs
      non-empty content (sender and type are always present by their types). */
  predicate ChatSchemaValid(c: Chat) {
    c.trade.Some? && forall i :: 0 <= i < |c.messages| ==> c.messages[i].content != []
  }

  /** `lastMessage` is the final message, and null while there is none. */
  predicate LastMessageDerived(c: Chat) {
    if |c.messages| > 0 then c.lastMessage == Some(c.messages[|c.messages| - 1])
    else c.lastMessage == None
  }

  /** The pre-save hook: refresh `lastMessage` when there are messages and
      stamp `updatedAt`. */
  function PreSave(c: Chat, now: Time): Chat {
    c.(lastMessage := if |c.messages| > 0 then Some(c.messages[|c.messages| - 1]) else c.lastMessage,
       updatedAt := now)
  }

  /** A chat as `Chat.create` stores it: `lastMessage` starts at null and
      the hook runs once. */
  function CreateChat(trade: Option<TradeId>, participants: seq<UserId>, messages: seq<Message>, now: Time): Chat {
    PreSave(Chat(trade, participants, messages, None, now, now), now)
  }

  /** Saving establishes the derivation whenever there is a message, and
      keeps it when there is none. */
  lemma PreSaveDerives(c: Chat, now: Time)
    requires LastMessageDerived(c) || |c.messages| > 0
    ensures LastMessageDerived(PreSave(c, now))
    ensures PreSave(c, now).messages == c.messages
  {
  }

  /** With no messages, saving leaves `lastMessage` where it was. */
  lemma PreSaveWithoutMessages(c: Chat, now: Time)
    requires c.messages == []
    ensures PreSave(c, now).lastMessage == c.lastMessage
  {
  }

  /** Every freshly created chat satisfies the derivation. */
  lemma CreateChatDerives(trade: Option<TradeId>, participants: seq<UserId>, messages: seq<Message>, now: Time)
    ensures LastMessageDerived(CreateChat(trade, participants, messages, now))
    ensures CreateChat(trade, participants, [], now).lastMessage == None
  {
  }

  /** A chat document as loaded from the store; route code pushes onto its
      messages in place and saves it back. */
  class ChatDoc {
    var trade: Option<TradeId>
    var participants: seq<UserId>
    var messages: seq<Message>
    var lastMessage: Option<Message>
    var createdAt: Time
    var updatedAt: Time

    function Data(): Chat
      reads this
    {
      Chat(trade, participants, messages, lastMessage, createdAt, updatedAt)
    }

    constructor Load(c: Chat)
      ensures Data() == c
    {
      trade, participants, messages := c.trade, c.participants, c.messages;
      lastMessage, createdAt, updatedAt := c.lastMessage, c.createdAt, c.updatedAt;
    }

    /** `chat.messages.push(m)`. */
    method Push(m: Message)
      modifies this
      ensures messages == old(messages) + [m]
      ensures Data() == old(Data()).(messages := old(messages) + [m])
    {
      messages := messages + [m];
    }

    /** `chat.save()`: runs the pre-save hook. */
    method Save(now: Time)
      modifies this
      ensures Data() == PreSave(old(Data()), now)
    {
      if |messages| > 0 {
        lastMessage := Some(messages[|messages| - 1]);
      }
      updatedAt := now;
    }
  }

  /** Pushing a message given without a type onto a stored chat and saving
      keeps the chat storable exactly when the content is non-empty, and in
      every case makes that message, of type text, the last message. */
  lemma PushMessageKeepsChat(c: Chat, sender: UserId, content: string, now: Time)
    requires ChatSchemaValid(c) && LastMessageDerived(c)
    ensures var d := PreSave(c.(messages := c.messages + [NewMessage(sender, content, None, now)]), now);
      && (ChatSchemaValid(d) <==> content != [])
      && LastMessageDerived(d)
      && d.lastMessage.Some? && d.lastMessage.value.kind == Text
      && d.lastMessage.value.sender == sender && d.lastMessage.value.content == content
      && d.lastMessage.value.timestamp == now
  {
    var m := NewMessage(sender, content, None, now);
    var d := PreSave(c.(messages := c.messages + [m]), now);
    assert d.messages[|c.messages|] == m;
    if content != [] {
      forall i | 0 <= i < |d.messages| ensures d.messages[i].content != [] {
        if i < |c.messages| {
          assert d.messages[i] == c.messages[i];
        }
      }
    }
  }

  /** Pushing a message and saving appends exactly that message at the end
      and makes it the last message. */
  lemma PushThenSave(c: Chat, m: Message, now: Time)
    ensures PreSave(c.(messages := c.messages + [m]), now).messages == c.messages + [m]
    ensures PreSave(c.(messages := c.messages + [m]), now).lastMessage == Some(m)
    ensures LastMessageDerived(PreSave(c.(messages := c.messages + [m]), now))
  {
  }
}
