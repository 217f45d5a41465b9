/** The decision part of `/api/clothing`: the search query and the record
    `POST` builds from the body. */
module ClothingRoute {
  import opened Base
  import opened ClothingModel

  /** The query-string filters; an absent parameter is None. */
  datatype SearchQuery = SearchQuery(category: Option<string>, size: Option<string>, condition: Option<string>)

  /** `if (param) query.field = param`: a parameter takes part in the query
      only when present and non-empty. */
  predicate Restricts(param: Option<string>) {
    param.Some? && param.value != ""
  }

  /** The MongoDB query the handler builds: available items, and equality on
      every parameter that takes part. */
  predicate MatchesSearch(q: SearchQuery, c: Clothing) {
    && c.status == Available
    && (Restricts(q.category) ==> CategoryName(c.category) == q.category.value)
    && (Restricts(q.size) ==> c.size == q.size.value)
    && (Restricts(q.condition) ==> ConditionName(c.condition) == q.condition.value)
  }

  /** With no filter, the search shows every available item; each filter
      only narrows it. */
  lemma SearchNarrows(q: SearchQuery, c: Clothing)
    ensures MatchesSearch(SearchQuery(None, None, None), c) <==> c.status == Available
    ensures MatchesSearch(q, c) ==> MatchesSearch(q.(category := None), c)
    ensures MatchesSearch(q, c) ==> MatchesSearch(q.(size := None), c)
    ensures MatchesSearch(q, c) ==> MatchesSearch(q.(condition := None), c)
    ensures MatchesSearch(q.(category := Some("")), c) == MatchesSearch(q.(category := None), c)
  {
  }

  /** The JSON body of `POST /api/clothing`; absent fields are None or
      empty. Any `owner` it carries is overridden. */
  datatype ListingRequest = ListingRequest(
    owner: Option<UserId>,
    title: Option<string>,
    description: Option<string>,
    category: Option<string>,
    size: Option<string>,
    condition: Option<string>,
    images: seq<string>,
    status: Option<string>,
    tags: seq<string>,
    createdAt: Option<Time>)

  /** A required string is present and non-empty. */
  predicate Present(s: Option<string>) {
    s.Some? && s.value != ""
  }

  /** Casting and validating `{...body, owner: me}` against the schema:
      title and tags are trimmed, the required fields must be present, the
      enumerations must name members, a missing status defaults to
      `available`. A `createdAt` in the body is kept (the default applies
      only when it is absent), and the pre-save hook stamps `updatedAt`. */
  function BuildListing(req: ListingRequest, me: UserId, now: Time): (r: Option<Clothing>)
    ensures r.Some? <==>
      && req.title.Some? && Trim(req.title.value) != ""
      && Present(req.description) && Present(req.size)
      && req.category.Some? && ParseCategory(req.category.value).Some?
      && req.condition.Some? && ParseCondition(req.condition.value).Some?
      && (forall i :: 0 <= i < |req.images| ==> req.images[i] != "")
      && (req.status.None? || ParseStatus(req.status.value).Some?)
    ensures r.Some? ==> ClothingValid(r.value)
    ensures r.Some? ==> r.value.owner == me
    ensures r.Some? ==> r.value.createdAt == (if req.createdAt.Some? then req.createdAt.value else now)
    ensures r.Some? ==> r.value.updatedAt == now
    ensures r.Some? ==> r.value.title == Trim(req.title.value)
    ensures r.Some? ==> r.value.description == req.description.value && r.value.size == req.size.value
    ensures r.Some? ==> r.value.images == req.images && r.value.tags == TrimAll(req.tags)
    ensures r.Some? ==> CategoryName(r.value.category) == req.category.value
    ensures r.Some? ==> ConditionName(r.value.condition) == req.condition.value
    ensures r.Some? ==> r.value.status == (if req.status.None? then Available else ParseStatus(req.status.value).value)
  {
    if req.title.None? || req.description.None? || req.category.None? || req.size.None? || req.condition.None? then None
    else
      var title := Trim(req.title.value);
      var category := ParseCategory(req.category.value);
      var condition := ParseCondition(req.condition.value);
      var status := if req.status.None? then Some(Available) else ParseStatus(req.status.value);
      var tags := TrimAll(req.tags);
      if title == "" || req.description.value == "" || req.size.value == ""
         || category.None? || condition.None? || status.None?
         || exists i :: 0 <= i < |req.images| && req.images[i] == ""
      then None
      else
        var c := Clothing(me, title, req.description.value, category.value, req.size.value,
                          condition.value, req.images, status.value, tags,
                          if req.createdAt.Some? then req.createdAt.value else now, now);
        assert ClothingValid(c);
        Some(c)
  }

  /** The `trim` setter applied to every tag. */
  function TrimAll(tags: seq<string>): (r: seq<string>)
    ensures |r| == |tags|
    ensures forall i :: 0 <= i < |tags| ==> r[i] == Trim(tags[i]) && IsTrimmed(r[i])
  {
    if tags == [] then []
    else
      [Trim(tags[0])] + TrimAll(tags[1..])
  }

  /** The stored owner is the session user whatever owner the body named. */
  lemma OwnerOverridden(req: ListingRequest, me: UserId, claimed: UserId, now: Time)
    ensures BuildListing(req.(owner := Some(claimed)), me, now) == BuildListing(req, me, now)
    ensures BuildListing(req, me, now).Some? ==> BuildListing(req, me, now).value.owner == me
  {
  }
}
