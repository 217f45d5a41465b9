/** The listing record: enumerations, defaults, the trimming setter and the
    schema's validity conditions. */
module ClothingModel {
  import opened Base

  datatype Category = Tops | Bottoms | Dresses | Shoes | Accessories
  datatype Condition = New | LikeNew | Good | Fair | Poor
  datatype ItemStatus = Available | Pending | Swapped

  function CategoryName(c: Category): string {
    match c
    case Tops => "tops"
    case Bottoms => "bottoms"
    case Dresses => "dresses"
    case Shoes => "shoes"
    case Accessories => "accessories"
  }

  function ConditionName(c: Condition): string {
    match c
    case New => "new"
    case LikeNew => "like_new"
    case Good => "good"
    case Fair => "fair"
    case Poor => "poor"
  }

  function StatusName(s: ItemStatus): string {
    match s
    case Available => "available"
    case Pending => "pending"
    case Swapped => "swapped"
  }

  /** The enum validators: a stored string is accepted exactly when it is one
      of the listed names, and then it denotes that member. */
  function ParseCategory(s: string): (r: Option<Category>)
    ensures r.Some? ==> CategoryName(r.value) == s
    ensures forall c :: CategoryName(c) == s ==> r == Some(c)
  {
    if s == "tops" then Some(Tops)
    else if s == "bottoms" then Some(Bottoms)
    else if s == "dresses" then Some(Dresses)
    else if s == "shoes" then Some(Shoes)
    else if s == "accessories" then Some(Accessories)
    else None
  }

  function ParseCondition(s: string): (r: Option<Condition>)
    ensures r.Some? ==> ConditionName(r.value) == s
    ensures forall c :: ConditionName(c) == s ==> r == Some(c)
  {
    if s == "new" then Some(New)
    else if s == "like_new" then Some(LikeNew)
    else if s == "good" then Some(Good)
    else if s == "fair" then Some(Fair)
    else if s == "poor" then Some(Poor)
    else None
  }

  function ParseStatus(s: string): (r: Option<ItemStatus>)
    ensures r.Some? ==> StatusName(r.value) == s
    ensures forall c :: StatusName(c) == s ==> r == Some(c)
  {
    if s == "available" then Some(Available)
    else if s == "pending" then Some(Pending)
    else if s == "swapped" then Some(Swapped)
    else None
  }

  /** The characters String.prototype.trim removes, restricted to ASCII. */
  predicate IsSpace(c: char) {
    c == ' ' || c == '\t' || c == '\n' || c == '\r' || c == '\U{000B}' || c == '\U{000C}'
  }

  function TrimStart(s: string): (r: string)
    ensures |r| <= |s| && r == s[|s| - |r|..]
    ensures r == [] || !IsSpace(r[0])
    ensures forall i :: 0 <= i < |s| - |r| ==> IsSpace(s[i])
  {
    if s != [] && IsSpace(s[0]) then TrimStart(s[1..]) else s
  }

  function TrimEnd(s: string): (r: string)
    ensures |r| <= |s| && r == s[..|r|]
    ensures r == [] || !IsSpace(r[|r| - 1])
    ensures forall i :: |r| <= i < |s| ==> IsSpace(s[i])
  {
    if s != [] && IsSpace(s[|s| - 1]) then TrimEnd(s[..|s| - 1]) else s
  }

  /** The `trim: true` setter: the infix left after removing the white
      space at either end; it neither starts nor ends with white space. */
  function Trim(s: string): (r: string)
    ensures r == [] || (!IsSpace(r[0]) && !IsSpace(r[|r| - 1]))
    ensures exists i, j :: 0 <= i <= j <= |s| && r == s[i..j] && TrimmedAway(s, i, j)
  {
    var t := TrimStart(s);
    var r := TrimEnd(t);
    TrimBounds(s, t, r, |s| - |t|, |s| - |t| + |r|);
    r
  }

  lemma TrimBounds(s: string, t: string, r: string, i: nat, j: nat)
    requires t == TrimStart(s) && r == TrimEnd(t)
    requires i == |s| - |t| && j == i + |r|
    ensures j <= |s| && r == s[i..j] && TrimmedAway(s, i, j)
  {
    assert t == s[i..];
    assert r == t[..|r|];
    assert forall k :: 0 <= k < i ==> IsSpace(s[k]);
    forall k | j <= k < |s| ensures IsSpace(s[k]) {
      assert s[k] == t[k - i];
    }
  }

  /** Everything outside s[i..j] is white space. */
  predicate TrimmedAway(s: string, i: nat, j: nat)
    requires i <= j <= |s|
  {
    (forall k :: 0 <= k < i ==> IsSpace(s[k])) && (forall k :: j <= k < |s| ==> IsSpace(s[k]))
  }

  /** Neither end is white space. */
  predicate IsTrimmed(s: string) {
    s == [] || (!IsSpace(s[0]) && !IsSpace(s[|s| - 1]))
  }

  /** Trimming changes exactly the strings that are not yet trimmed. */
  lemma TrimKeepsTrimmed(s: string)
    ensures IsTrimmed(s) <==> Trim(s) == s
    ensures IsTrimmed(Trim(s))
  {
    if IsTrimmed(s) && s != [] {
      assert TrimStart(s) == s;
      assert TrimEnd(s) == s;
    }
  }

  lemma TrimIdempotent(s: string)
    ensures Trim(Trim(s)) == Trim(s)
  {
    TrimKeepsTrimmed(Trim(s));
  }

  /** A stored listing (the GeoJSON location is not part of this model). */
  datatype Clothing = Clothing(
    owner: UserId,
    title: string,
    description: string,
    category: Category,
    size: string,
    condition: Condition,
    images: seq<string>,
    status: ItemStatus,
    tags: seq<string>,
    createdAt: Time,
    updatedAt: Time)

  /** What the schema guarantees of every stored listing: the required
      strings are non-empty, title and tags are stored trimmed. */
  predicate ClothingValid(c: Clothing) {
    && c.title != [] && IsTrimmed(c.title)
    && c.description != []
    && c.size != []
    && (forall i :: 0 <= i < |c.images| ==> c.images[i] != [])
    && (forall i :: 0 <= i < |c.tags| ==> IsTrimmed(c.tags[i]))
  }
}
