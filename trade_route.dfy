/** The decision part of `POST /api/trade`: the request body and the
    all-or-nothing validation of both offers. */
module TradeRoute {
  import opened Base
  import opened ClothingModel
  import opened TradeModel

  /** The JSON body; a field the client left out is None. */
  datatype TradeRequest = TradeRequest(
    receiverId: Option<UserId>,
    initiatorItems: Option<seq<ItemId>>,
    receiverItems: Option<seq<ItemId>>)

  /** The listing exists and its stored owner is `party`. */
  predicate OwnedBy(items: seq<Clothing>, id: ItemId, party: UserId) {
    id < |items| && items[id].owner == party
  }

  /** The per-item check-and-map: every listed id must name an existing
      listing owned by `party`, and then it becomes {item, owner: party}, in
      request order; one failing id fails the whole list. */
  function ValidateOffer(items: seq<Clothing>, ids: seq<ItemId>, party: UserId): (r: Option<seq<TradeItem>>)
    ensures r.Some? <==> forall i :: 0 <= i < |ids| ==> OwnedBy(items, ids[i], party)
    ensures r.Some? ==> |r.value| == |ids|
    ensures r.Some? ==> forall i :: 0 <= i < |ids| ==> r.value[i] == TradeItem(ids[i], party)
  {
    if ids == [] then Some([])
    else if !OwnedBy(items, ids[0], party) then None
    else match ValidateOffer(items, ids[1..], party)
      case None => None
      case Some(rest) => Some([TradeItem(ids[0], party)] + rest)
  }

  /** A proposal that passed validation: the receiver and both offers as
      they will be stored. */
  datatype Proposal = Proposal(receiver: UserId, initiatorItems: seq<TradeItem>, receiverItems: seq<TradeItem>)

  /** Everything the handler checks before writing anything. A missing item
      array makes `.map` throw; a missing receiver fails the receiver-item
      check or, with no receiver items, the trade's required `receiver`. Every
      such failure is a 500. */
  function ValidateProposal(items: seq<Clothing>, me: UserId, req: TradeRequest): Option<Proposal> {
    if req.receiverId.None? || req.initiatorItems.None? || req.receiverItems.None? then None
    else
      var mine := ValidateOffer(items, req.initiatorItems.value, me);
      var theirs := ValidateOffer(items, req.receiverItems.value, req.receiverId.value);
      if mine.None? || theirs.None? then None
      else Some(Proposal(req.receiverId.value, mine.value, theirs.value))
  }

  /** The proposal is accepted exactly when the body is complete, every
      initiator item is the session user's and every receiver item is the
      receiver's; the stored offers then keep the request order and name the
      validated party as owner, so every stored trade has owned offers. */
  lemma ValidateProposalExact(items: seq<Clothing>, me: UserId, req: TradeRequest)
    ensures ValidateProposal(items, me, req).Some? <==>
      && req.receiverId.Some? && req.initiatorItems.Some? && req.receiverItems.Some?
      && (forall i :: 0 <= i < |req.initiatorItems.value| ==> OwnedBy(items, req.initiatorItems.value[i], me))
      && (forall i :: 0 <= i < |req.receiverItems.value| ==> OwnedBy(items, req.receiverItems.value[i], req.receiverId.value))
    ensures ValidateProposal(items, me, req).Some? ==>
      var p := ValidateProposal(items, me, req).value;
      && p.receiver == req.receiverId.value
      && |p.initiatorItems| == |req.initiatorItems.value|
      && |p.receiverItems| == |req.receiverItems.value|
      && (forall i :: 0 <= i < |p.initiatorItems| ==> p.initiatorItems[i] == TradeItem(req.initiatorItems.value[i], me))
      && (forall i :: 0 <= i < |p.receiverItems| ==> p.receiverItems[i] == TradeItem(req.receiverItems.value[i], p.receiver))
      && OffersOwned(NewTrade(me, p.receiver, p.initiatorItems, p.receiverItems, 0))
  {
  }

  /** A single foreign or missing listing on either side rejects the whole
      proposal. */
  lemma OneBadItemRejects(items: seq<Clothing>, me: UserId, req: TradeRequest, k: nat)
    requires req.receiverId.Some? && req.initiatorItems.Some? && req.receiverItems.Some?
    requires (k < |req.initiatorItems.value| && !OwnedBy(items, req.initiatorItems.value[k], me))
          || (k < |req.receiverItems.value| && !OwnedBy(items, req.receiverItems.value[k], req.receiverId.value))
    ensures ValidateProposal(items, me, req).None?
  {
  }

  /** Empty offers are accepted. */
  lemma EmptyOffersAccepted(items: seq<Clothing>, me: UserId, receiver: UserId)
    ensures ValidateProposal(items, me, TradeRequest(Some(receiver), Some([]), Some([])))
         == Some(Proposal(receiver, [], []))
  {
  }
}
