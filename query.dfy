/** The part of the document store the route handlers rely on: a collection
    viewed as documents with their identifiers, `find` with a filter, and
    `sort` on a numeric key in descending order. */
module Query {
  import opened Base

  /** A stored document together with its identifier. */
  datatype Doc<T> = Doc(id: nat, value: T)

  /** No document occurs twice. */
  predicate Distinct<T(==)>(s: seq<T>) {
    forall i, j :: 0 <= i < j < |s| ==> s[i] != s[j]
  }

  /** Keys never increase from left to right. */
  predicate SortedDesc<T>(s: seq<T>, key: T -> int) {
    forall i, j :: 0 <= i < j < |s| ==> key(s[i]) >= key(s[j])
  }

  /** The documents of a collection in natural (insertion) order. */
  function Collection<T(!new)>(s: seq<T>): (r: seq<Doc<T>>)
    ensures |r| == |s|
    ensures forall i :: 0 <= i < |s| ==> r[i] == Doc(i, s[i])
    ensures forall d :: d in r <==> d.id < |s| && d.value == s[d.id]
    ensures Distinct(r) && IdsAscending(r)
  {
    seq(|s|, i requires 0 <= i < |s| => Doc(i, s[i]))
  }

  /** Identifiers strictly increase from left to right (natural order). */
  predicate IdsAscending<T>(docs: seq<Doc<T>>) {
    forall i, j :: 0 <= i < j < |docs| ==> docs[i].id < docs[j].id
  }

  /** `findOne(filter)`: the position of the first match, if any. */
  function FindFirst<T>(s: seq<T>, p: T -> bool): (k: Option<nat>)
    ensures k.Some? ==> k.value < |s| && p(s[k.value])
    ensures k.Some? ==> forall i :: 0 <= i < k.value ==> !p(s[i])
    ensures k.None? ==> forall i :: 0 <= i < |s| ==> !p(s[i])
  {
    if s == [] then None
    else if p(s[0]) then Some(0)
    else match FindFirst(s[1..], p)
      case None => None
      case Some(k) => Some(k + 1)
  }

  /** `find(filter)` without a sort: the matching documents, in the order of
      the input. */
  function Select<T(!new)>(docs: seq<Doc<T>>, p: T -> bool): (r: seq<Doc<T>>)
    ensures forall d :: d in r <==> d in docs && p(d.value)
    ensures |r| <= |docs|
    ensures Distinct(docs) ==> Distinct(r)
    ensures IdsAscending(docs) ==> IdsAscending(r)
  {
    if docs == [] then []
    else
      var rest := Select(docs[1..], p);
      assert docs == [docs[0]] + docs[1..];
      PrependKeeps(docs[0], docs[1..], rest);
      if p(docs[0].value) then [docs[0]] + rest else rest
  }

  lemma PrependKeeps<T>(h: Doc<T>, tail: seq<Doc<T>>, rest: seq<Doc<T>>)
    requires forall d :: d in rest ==> d in tail
    ensures Distinct([h] + tail) ==> Distinct(tail)
    ensures IdsAscending([h] + tail) ==> IdsAscending(tail)
    ensures Distinct([h] + tail) && Distinct(rest) ==> Distinct([h] + rest)
    ensures IdsAscending([h] + tail) && IdsAscending(rest) ==> IdsAscending([h] + rest)
  {
    var full := [h] + tail;
    if Distinct(full) {
      forall i, j | 0 <= i < j < |tail| ensures tail[i] != tail[j] {
        assert full[i + 1] == tail[i] && full[j + 1] == tail[j];
      }
    }
    if IdsAscending(full) {
      forall i, j | 0 <= i < j < |tail| ensures tail[i].id < tail[j].id {
        assert full[i + 1] == tail[i] && full[j + 1] == tail[j];
      }
    }
    forall k | 0 <= k < |rest|
      ensures Distinct(full) ==> h != rest[k]
      ensures IdsAscending(full) ==> h.id < rest[k].id
    {
      assert rest[k] in rest;
      assert rest[k] in tail;
      var m :| 0 <= m < |tail| && tail[m] == rest[k];
      assert full[0] == h && full[m + 1] == tail[m];
    }
  }

  /** Insertion of one element into a sequence sorted by descending key; it
      goes before the first element whose key is not larger, so equal keys
      keep their order. */
  function Insert<T>(x: T, s: seq<T>, key: T -> int): (r: seq<T>)
    requires SortedDesc(s, key)
    ensures SortedDesc(r, key)
    ensures multiset(r) == multiset(s) + multiset{x}
    ensures |r| == |s| + 1
  {
    if s == [] || key(x) >= key(s[0]) then [x] + s
    else
      var rest := Insert(x, s[1..], key);
      HeadDominates(s[0], x, s[1..], rest, key);
      assert s == [s[0]] + s[1..];
      [s[0]] + rest
  }

  /** Prepending an element whose key bounds every key of a sorted sequence
      keeps it sorted. */
  lemma HeadDominates<T>(h: T, x: T, tail: seq<T>, rest: seq<T>, key: T -> int)
    requires SortedDesc([h] + tail, key) && SortedDesc(rest, key)
    requires key(h) > key(x)
    requires multiset(rest) == multiset(tail) + multiset{x}
    ensures SortedDesc([h] + rest, key)
  {
    forall k | 0 <= k < |rest| ensures key(h) >= key(rest[k]) {
      assert rest[k] in multiset(rest);
      if rest[k] != x {
        assert rest[k] in multiset(tail);
        assert rest[k] in rest;
      assert rest[k] in tail;
      var m :| 0 <= m < |tail| && tail[m] == rest[k];
        assert ([h] + tail)[0] == h && ([h] + tail)[m + 1] == tail[m];
        assert key(([h] + tail)[0]) >= key(([h] + tail)[m + 1]);
      }
    }
  }

  /** `sort({key: -1})`: a permutation of the input in descending key order. */
  function SortDesc<T>(s: seq<T>, key: T -> int): (r: seq<T>)
    ensures SortedDesc(r, key)
    ensures multiset(r) == multiset(s)
    ensures |r| == |s|
  {
    if s == [] then []
    else
      assert s == [s[0]] + s[1..];
      Insert(s[0], SortDesc(s[1..], key), key)
  }

  /** A permutation of a repetition-free sequence is repetition-free. */
  lemma {:induction false} PermutationKeepsDistinct<T>(a: seq<T>, b: seq<T>)
    requires multiset(a) == multiset(b)
    requires Distinct(a)
    ensures Distinct(b)
  {
    forall i, j | 0 <= i < j < |b| ensures b[i] != b[j] {
      if b[i] == b[j] {
        assert b == b[..j] + b[j..];
        assert b[i] in b[..j];
        assert multiset(b)[b[i]] >= 2 by {
          assert multiset(b) == multiset(b[..j]) + multiset(b[j..]);
          assert b[j] in b[j..];
        }
        CountAtMostOne(a, b[i]);
        assert false;
      }
    }
  }

  lemma {:induction false} CountAtMostOne<T>(a: seq<T>, x: T)
    requires Distinct(a)
    ensures multiset(a)[x] <= 1
  {
    if a != [] {
      assert a == [a[0]] + a[1..];
      assert Distinct(a[1..]) by {
        forall i, j | 0 <= i < j < |a[1..]| ensures a[1..][i] != a[1..][j] {
          assert a[1..][i] == a[i + 1] && a[1..][j] == a[j + 1];
        }
      }
      CountAtMostOne(a[1..], x);
      if a[0] == x {
        assert x !in a[1..] by {
          forall k | 0 <= k < |a[1..]| ensures a[1..][k] != x {
            assert a[1..][k] == a[k + 1];
          }
        }
      }
    }
  }

  /** `find(filter)` over a whole collection: exactly the matching
      documents, each once, in natural order. */
  function Find<T(!new)>(s: seq<T>, p: T -> bool): (r: seq<Doc<T>>)
    ensures forall d :: d in r <==> d.id < |s| && d.value == s[d.id] && p(d.value)
    ensures Distinct(r) && IdsAscending(r)
  {
    Select(Collection(s), p)
  }

  /** `find(filter).sort({key: -1})` over a whole collection: exactly the
      matching documents, each once, in descending key order. */
  function FindSorted<T(!new)>(s: seq<T>, p: T -> bool, key: T -> int): (r: seq<Doc<T>>)
    ensures forall d :: d in r <==> d.id < |s| && d.value == s[d.id] && p(d.value)
    ensures Distinct(r)
    ensures SortedDesc(r, (d: Doc<T>) => key(d.value))
  {
    var matching := Select(Collection(s), p);
    var r := SortDesc(matching, (d: Doc<T>) => key(d.value));
    PermutationKeepsDistinct(matching, r);
    assert forall d :: d in r <==> d in multiset(matching);
    r
  }
}
