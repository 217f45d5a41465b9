/** The review record, its field constraints, and the unique
    (trade, reviewer) key with the upsert that respects it. */
module ReviewModel {
  import opened Base

  /** A review; rating and comment are absent when the body left them out. */
  datatype Review = Review(trade: TradeId, reviewer: UserId, reviewed: UserId, rating: Option<int>, comment: Option<string>)

  const MaxCommentLength := 500

  /** The schema's constraints: a rating from 1 to 5 and a non-empty comment
      of at most 500 characters. `findOneAndUpdate` does not run them. */
  predicate ReviewValid(r: Review) {
    && r.rating.Some? && 1 <= r.rating.value <= 5
    && r.comment.Some? && 0 < |r.comment.value| <= MaxCommentLength
  }

  /** Same unique key: same trade and same reviewer. */
  predicate SameKey(a: Review, b: Review) {
    a.trade == b.trade && a.reviewer == b.reviewer
  }

  /** The unique index on (trade, reviewer) holds. */
  predicate UniqueKeys(rs: seq<Review>) {
    forall i, j :: 0 <= i < j < |rs| ==> !SameKey(rs[i], rs[j])
  }

  /** The first stored review with the key of `r`, if any. */
  function FindByKey(rs: seq<Review>, r: Review): (k: Option<nat>)
    ensures k.Some? ==> k.value < |rs| && SameKey(rs[k.value], r)
    ensures k.Some? ==> forall i :: 0 <= i < k.value ==> !SameKey(rs[i], r)
    ensures k.None? ==> forall i :: 0 <= i < |rs| ==> !SameKey(rs[i], r)
  {
    if rs == [] then None
    else if SameKey(rs[0], r) then Some(0)
    else match FindByKey(rs[1..], r)
      case None => None
      case Some(k) => Some(k + 1)
  }

  /** `findOneAndUpdate({trade, reviewer}, r, {upsert: true})`: overwrite
      the review with that key, or insert `r` when there is none. */
  function Upsert(rs: seq<Review>, r: Review): seq<Review> {
    match FindByKey(rs, r)
    case Some(k) => rs[k := r]
    case None => rs + [r]
  }

  /** After an upsert `r` is stored, every review under another key is
      exactly as before, and the collection grows by one only when the key
      was new. */
  lemma UpsertEffect(rs: seq<Review>, r: Review)
    ensures r in Upsert(rs, r)
    ensures forall x :: !SameKey(x, r) ==> (x in Upsert(rs, r) <==> x in rs)
    ensures |Upsert(rs, r)| == if FindByKey(rs, r).Some? then |rs| else |rs| + 1
  {
    match FindByKey(rs, r)
    case Some(k) =>
      assert rs[k := r][k] == r;
      forall x | !SameKey(x, r) ensures x in rs[k := r] <==> x in rs {
        if x in rs {
          var i :| 0 <= i < |rs| && rs[i] == x;
          assert rs[k := r][i] == x;
        }
        if x in rs[k := r] {
          var i :| 0 <= i < |rs| && rs[k := r][i] == x;
          assert rs[i] == x;
        }
      }
    case None =>
  }

  /** The upsert keeps the unique index valid, and leaves exactly one review
      under the key it wrote. */
  lemma UpsertKeepsKeysUnique(rs: seq<Review>, r: Review)
    requires UniqueKeys(rs)
    ensures UniqueKeys(Upsert(rs, r))
    ensures forall i :: 0 <= i < |Upsert(rs, r)| && SameKey(Upsert(rs, r)[i], r) ==> Upsert(rs, r)[i] == r
  {
    var out := Upsert(rs, r);
    match FindByKey(rs, r)
    case Some(k) =>
    case None =>
  }

  /** Nothing but the written review enters the collection. */
  lemma UpsertElements(rs: seq<Review>, r: Review)
    ensures forall x :: x in Upsert(rs, r) ==> x == r || x in rs
  {
    match FindByKey(rs, r)
    case Some(k) =>
      forall x | x in rs[k := r] ensures x == r || x in rs {
        var i :| 0 <= i < |rs| && rs[k := r][i] == x;
        if i != k {
          assert rs[i] == x;
        }
      }
    case None =>
  }

  /** The upsert stores a review the schema would refuse: an out-of-range
      rating, and a missing rating and comment, both get through. */
  lemma UpsertSkipsValidation(rs: seq<Review>, t: TradeId, a: UserId, b: UserId)
    ensures var bad := Review(t, a, b, Some(7), Some("ok"));
      !ReviewValid(bad) && bad in Upsert(rs, bad)
    ensures var empty := Review(t, a, b, None, None);
      !ReviewValid(empty) && empty in Upsert(rs, empty)
    ensures forall r :: ReviewValid(r) ==> r.rating.Some? && 1 <= r.rating.value <= 5 && r.comment.Some?
  {
    UpsertEffect(rs, Review(t, a, b, Some(7), Some("ok")));
    UpsertEffect(rs, Review(t, a, b, None, None));
  }

  /** Resubmitting under the same key overwrites the first submission:
      two upserts with one key leave what the second alone would leave. */
  lemma UpsertOverwrites(rs: seq<Review>, a: Review, b: Review)
    requires SameKey(a, b)
    ensures Upsert(Upsert(rs, a), b) == Upsert(rs, b)
  {
    var once := Upsert(rs, a);
    match FindByKey(rs, a)
    case Some(k) =>
      assert FindByKey(rs, b) == Some(k);
      FirstKeyAfterWrite(rs, a, k);
      assert FindByKey(once, b) == Some(k);
    case None =>
      assert FindByKey(rs, b).None?;
      FindAppended(rs, a, b);
      assert once[|rs| := b] == rs + [b];
  }

  lemma FirstKeyAfterWrite(rs: seq<Review>, a: Review, k: nat)
    requires FindByKey(rs, a) == Some(k)
    ensures forall b :: SameKey(a, b) ==> FindByKey(rs[k := a], b) == Some(k)
  {
    forall b | SameKey(a, b) ensures FindByKey(rs[k := a], b) == Some(k) {
      FindByKeyIsFirst(rs[k := a], b, k);
    }
  }

  /** FindByKey answers the least index holding the key. */
  lemma {:induction false} FindByKeyIsFirst(rs: seq<Review>, b: Review, k: nat)
    requires k < |rs| && SameKey(rs[k], b)
    requires forall i :: 0 <= i < k ==> !SameKey(rs[i], b)
    ensures FindByKey(rs, b) == Some(k)
  {
    if k > 0 {
      FindByKeyIsFirst(rs[1..], b, k - 1);
    }
  }

  lemma {:induction false} FindAppended(rs: seq<Review>, a: Review, b: Review)
    requires SameKey(a, b) && FindByKey(rs, a).None?
    ensures FindByKey(rs + [a], b) == Some(|rs|)
  {
    if rs != [] {
      assert (rs + [a])[1..] == rs[1..] + [a];
      FindAppended(rs[1..], a, b);
    }
  }
}
