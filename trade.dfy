/** The trade record: the offered items of each party, the two acceptance
    flags, the status enumeration and the meeting details, with their
    defaults. */
module TradeModel {
  import opened Base

  datatype TradeStatus = Pending | Accepted | Completed | Cancelled

  /** One offered listing and the party that gives it. */
  datatype TradeItem = TradeItem(item: ItemId, owner: UserId)

  /** The meeting sub-document; each part is null until set. */
  datatype Meeting = Meeting(time: Option<Time>, location: Option<string>, coordinates: Option<seq<real>>)

  const NoMeeting := Meeting(None, None, None)

  datatype Trade = Trade(
    initiator: UserId,
    receiver: UserId,
    initiatorItems: seq<TradeItem>,
    receiverItems: seq<TradeItem>,
    initiatorAccepted: bool,
    receiverAccepted: bool,
    status: TradeStatus,
    meeting: Meeting,
    createdAt: Time,
    updatedAt: Time)

  /** `Trade.create` with the given parties and offers: every other field
      takes its schema default, and the pre-save hook stamps `updatedAt`. */
  function NewTrade(initiator: UserId, receiver: UserId,
                    initiatorItems: seq<TradeItem>, receiverItems: seq<TradeItem>,
                    now: Time): Trade
  {
    Trade(initiator, receiver, initiatorItems, receiverItems,
          false, false, Pending, NoMeeting, now, now)
  }

  /** Every offered item is given by the party on whose side it is listed. */
  predicate OffersOwned(t: Trade) {
    && (forall i :: 0 <= i < |t.initiatorItems| ==> t.initiatorItems[i].owner == t.initiator)
    && (forall i :: 0 <= i < |t.receiverItems| ==> t.receiverItems[i].owner == t.receiver)
  }

  predicate IsParty(t: Trade, u: UserId) {
    t.initiator == u || t.receiver == u
  }
}
