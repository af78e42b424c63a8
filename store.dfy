/** The document store as an abstract in-memory table: a sequence of items, each with a
    primary key. A scan filters and keeps the table's order, a put overwrites the item with
    the same key or appends, a delete removes by key. Any call may fail. */
module Store {
  import opened Wrappers

  type Id = string

  /** Whether the next scan, put and delete issued by one operation succeed. */
  datatype Backend = Backend(scanOk: bool, putOk: bool, deleteOk: bool)

  const Healthy := Backend(true, true, true)

  /** The items of `s` that satisfy `p`, in the order of `s`. */
  function Filter<T(!new)>(s: seq<T>, p: T -> bool): (r: seq<T>)
    ensures |r| <= |s|
    ensures forall x :: x in r <==> x in s && p(x)
    ensures multiset(r) <= multiset(s)
  {
    if s == [] then []
    else
      assert s == [s[0]] + s[1..];
      if p(s[0]) then [s[0]] + Filter(s[1..], p)
      else Filter(s[1..], p)
  }

  /** Filtering distributes over concatenation: the scan keeps the table's order. */
  lemma {:induction false} FilterAppend<T(!new)>(a: seq<T>, b: seq<T>, p: T -> bool)
    ensures Filter(a + b, p) == Filter(a, p) + Filter(b, p)
  {
    if a == [] {
      assert a + b == b;
    } else {
      assert (a + b)[0] == a[0];
      assert (a + b)[1..] == a[1..] + b;
      FilterAppend(a[1..], b, p);
    }
  }

  /** Replacing an item by another that the filter also keeps replaces it in the scan result. */
  lemma FilterReplace<T(!new)>(s: seq<T>, i: nat, x: T, p: T -> bool)
    requires i < |s| && p(s[i]) && p(x)
    ensures Filter(s[i := x], p) == Filter(s[..i], p) + [x] + Filter(s[i + 1..], p)
    ensures Filter(s, p) == Filter(s[..i], p) + [s[i]] + Filter(s[i + 1..], p)
  {
    assert s[i := x] == s[..i] + [x] + s[i + 1..];
    assert s == s[..i] + [s[i]] + s[i + 1..];
    FilterAppend(s[..i] + [x], s[i + 1..], p);
    FilterAppend(s[..i], [x], p);
    FilterAppend(s[..i] + [s[i]], s[i + 1..], p);
    FilterAppend(s[..i], [s[i]], p);
    assert Filter([x], p) == [x] by { assert [x][1..] == []; }
    assert Filter([s[i]], p) == [s[i]] by { assert [s[i]][1..] == []; }
  }

  /** Replacing an item the filter drops by another it drops leaves the scan result as it was. */
  lemma FilterReplaceDropped<T(!new)>(s: seq<T>, i: nat, x: T, p: T -> bool)
    requires i < |s| && !p(s[i]) && !p(x)
    ensures Filter(s[i := x], p) == Filter(s, p)
  {
    assert s[i := x] == s[..i] + [x] + s[i + 1..];
    assert s == s[..i] + [s[i]] + s[i + 1..];
    FilterAppend(s[..i] + [x], s[i + 1..], p);
    FilterAppend(s[..i], [x], p);
    FilterAppend(s[..i] + [s[i]], s[i + 1..], p);
    FilterAppend(s[..i], [s[i]], p);
    assert Filter([x], p) == [] by { assert [x][1..] == []; }
    assert Filter([s[i]], p) == [] by { assert [s[i]][1..] == []; }
  }

  /** With unique keys, replacing the first item of a scan result puts the new item first. */
  lemma FilterFirstReplaced<T(!new)>(s: seq<T>, i: nat, x: T, p: T -> bool, key: T -> Id)
    requires UniqueKeys(s, key) && i < |s| && p(s[i]) && p(x)
    requires |Filter(s, p)| > 0 && Filter(s, p)[0] == s[i]
    ensures |Filter(s[i := x], p)| > 0 && Filter(s[i := x], p)[0] == x
  {
    FilterReplace(s, i, x, p);
    forall j | 0 <= j < i ensures s[..i][j] != s[i] {
      assert key(s[j]) != key(s[i]);
    }
    assert s[i] !in s[..i];
    assert Filter(s[..i], p) == [];
  }

  /** The keys present in the table. */
  function Keys<T(!new)>(s: seq<T>, key: T -> Id): set<Id> {
    set i | 0 <= i < |s| :: key(s[i])
  }

  /** No two items share a primary key. */
  ghost predicate UniqueKeys<T(!new)>(s: seq<T>, key: T -> Id) {
    forall i, j :: 0 <= i < |s| && 0 <= j < |s| && key(s[i]) == key(s[j]) ==> i == j
  }

  /** Position of the first item with key `k`, or |s| when there is none. */
  function IndexOfKey<T(!new)>(s: seq<T>, key: T -> Id, k: Id): (i: nat)
    ensures i <= |s|
    ensures i < |s| <==> k in Keys(s, key)
    ensures i < |s| ==> key(s[i]) == k
    ensures forall j :: 0 <= j < i ==> key(s[j]) != k
  {
    if s == [] then 0
    else if key(s[0]) == k then 0
    else
      var i := IndexOfKey(s[1..], key, k);
      assert forall j :: 0 <= j < |s| - 1 ==> s[1..][j] == s[j + 1];
      assert Keys(s, key) == {key(s[0])} + Keys(s[1..], key) by {
        forall y | y in Keys(s, key) ensures y in {key(s[0])} + Keys(s[1..], key) {
          var j :| 0 <= j < |s| && key(s[j]) == y;
          if j > 0 { assert key(s[1..][j - 1]) == y; }
        }
      }
      1 + i
  }

  /** Put: overwrite the item with the same key in place, or append it. */
  function Put<T(!new)>(s: seq<T>, x: T, key: T -> Id): (r: seq<T>)
    ensures key(x) !in Keys(s, key) ==> r == s + [x]
    ensures key(x) in Keys(s, key) ==> |r| == |s|
    ensures key(x) in Keys(s, key) ==> var i := IndexOfKey(s, key, key(x));
      r[i] == x && forall j :: 0 <= j < |s| && j != i ==> r[j] == s[j]
    ensures x in r
    ensures forall y :: y in r ==> y == x || y in s
  {
    var i := IndexOfKey(s, key, key(x));
    if i < |s| then s[i := x] else s + [x]
  }

  /** With unique keys, putting an item whose key belongs to `s[i]` replaces exactly `s[i]`. */
  lemma PutAt<T(!new)>(s: seq<T>, i: nat, x: T, key: T -> Id)
    requires UniqueKeys(s, key) && i < |s| && key(x) == key(s[i])
    ensures Put(s, x, key) == s[i := x]
  {
    assert key(x) in Keys(s, key);
    var k := IndexOfKey(s, key, key(x));
    assert k == i;
  }

  /** A put adds exactly its own key to the table's keys. */
  lemma KeysAfterPut<T(!new)>(s: seq<T>, x: T, key: T -> Id)
    ensures Keys(Put(s, x, key), key) == Keys(s, key) + {key(x)}
  {
    var r := Put(s, x, key);
    forall k | k in Keys(s, key) + {key(x)} ensures k in Keys(r, key) {
      if k == key(x) {
        var j :| 0 <= j < |r| && r[j] == x;
      } else {
        var j :| 0 <= j < |s| && key(s[j]) == k;
        assert r[j] == s[j];
      }
    }
    forall k | k in Keys(r, key) ensures k in Keys(s, key) + {key(x)} {
      var j :| 0 <= j < |r| && key(r[j]) == k;
      if r[j] != x {
        assert r[j] in s;
        var m :| 0 <= m < |s| && s[m] == r[j];
      }
    }
  }

  /** A put keeps the keys unique. */
  lemma PutKeepsUniqueKeys<T(!new)>(s: seq<T>, x: T, key: T -> Id)
    requires UniqueKeys(s, key)
    ensures UniqueKeys(Put(s, x, key), key)
  {
    var r := Put(s, x, key);
    if key(x) in Keys(s, key) {
      var i := IndexOfKey(s, key, key(x));
      assert r == s[i := x];
    } else {
      forall a, b | 0 <= a < |r| && 0 <= b < |r| && key(r[a]) == key(r[b]) ensures a == b {
      }
    }
  }

  /** Delete: remove every item with key `k`. */
  function Delete<T(!new)>(s: seq<T>, k: Id, key: T -> Id): (r: seq<T>)
    ensures k !in Keys(r, key)
    ensures forall y :: y in r <==> y in s && key(y) != k
    ensures k !in Keys(s, key) ==> r == s
  {
    var r := Filter(s, y => key(y) != k);
    assert k !in Keys(r, key) by {
      forall i | 0 <= i < |r| ensures key(r[i]) != k {
        assert r[i] in r;
      }
    }
    if k !in Keys(s, key) then FilterAll(s, y => key(y) != k); r else r
  }

  /** A filter that keeps every item returns the sequence unchanged. */
  lemma {:induction false} FilterAll<T(!new)>(s: seq<T>, p: T -> bool)
    requires forall y :: y in s ==> p(y)
    ensures Filter(s, p) == s
  {
    if s != [] {
      assert s[0] in s;
      FilterAll(s[1..], p);
    }
  }

  /** A filter that no element passes is empty. */
  lemma FilterNone<T(!new)>(s: seq<T>, p: T -> bool)
    requires forall y :: y in s ==> !p(y)
    ensures Filter(s, p) == []
  {
    var r := Filter(s, p);
    assert forall k :: 0 <= k < |r| ==> r[k] in r;
  }

  /** Filtering out one dropped item in the middle leaves the filtered sides. */
  lemma FilterDrop<T(!new)>(a: seq<T>, x: T, b: seq<T>, p: T -> bool)
    requires !p(x)
    ensures Filter(a + [x] + b, p) == Filter(a, p) + Filter(b, p)
  {
    FilterAppend(a + [x], b, p);
    FilterAppend(a, [x], p);
    FilterSingleDropped(x, p);
  }

  lemma FilterSingleDropped<T(!new)>(x: T, p: T -> bool)
    requires !p(x)
    ensures Filter([x], p) == []
  {
    assert [x][1..] == [];
  }

  /** Deleting the key of a just-appended item with a fresh key restores the sequence. */
  lemma DeleteAppended<T(!new)>(s: seq<T>, x: T, key: T -> Id)
    requires key(x) !in Keys(s, key)
    ensures Delete(s + [x], key(x), key) == s
  {
    var p := y => key(y) != key(x);
    assert forall y :: y in s ==> p(y) by {
      forall y | y in s ensures p(y) {
        var j :| 0 <= j < |s| && s[j] == y;
      }
    }
    FilterAppend(s, [x], p);
    FilterAll(s, p);
    FilterSingleDropped(x, p);
  }

  /** With unique keys, deleting a present key removes exactly one item. */
  lemma DeleteOne<T(!new)>(s: seq<T>, i: nat, key: T -> Id)
    requires UniqueKeys(s, key) && i < |s|
    ensures Delete(s, key(s[i]), key) == s[..i] + s[i + 1..]
  {
    var k := key(s[i]);
    var p := y => key(y) != k;
    var a, b := s[..i], s[i + 1..];
    assert s == a + [s[i]] + b;
    FilterDrop(a, s[i], b, p);
    forall y | y in a ensures p(y) {
      var j :| 0 <= j < i && a[j] == y;
      assert s[j] == y;
    }
    FilterAll(a, p);
    forall y | y in b ensures p(y) {
      var j :| 0 <= j < |b| && b[j] == y;
      assert s[i + 1 + j] == y;
    }
    FilterAll(b, p);
  }

  /** With unique keys, deleting the key of a member removes that member from its place. */
  lemma DeleteMember<T(!new)>(s: seq<T>, x: T, key: T -> Id)
    requires x in s
    ensures UniqueKeys(s, key) ==>
      exists i :: 0 <= i < |s| && s[i] == x && Delete(s, key(x), key) == s[..i] + s[i + 1..]
  {
    if UniqueKeys(s, key) {
      var i :| 0 <= i < |s| && s[i] == x;
      DeleteOne(s, i, key);
    }
  }

  /** A put, or a failure when the backend fails it (the table is then unchanged). */
  function PutItem<T(!new)>(b: Backend, s: seq<T>, x: T, key: T -> Id): (r: Result<seq<T>>)
    ensures r.Success? <==> b.putOk
    ensures r.Success? ==> x in r.value
    ensures r.Success? ==> r.value == Put(s, x, key)
  {
    if b.putOk then Success(Put(s, x, key)) else Failure(BackendFailure)
  }

  /** A delete by key. A missing key (`undefined` in the source) is rejected by the store
      as a malformed request, like a failing backend. */
  function DeleteItem<T(!new)>(b: Backend, s: seq<T>, k: Option<Id>, key: T -> Id): (r: Result<seq<T>>)
    ensures r.Success? <==> b.deleteOk && k.Some?
    ensures r.Success? ==> k.value !in Keys(r.value, key)
    ensures r.Success? ==> r.value == Delete(s, k.value, key)
  {
    if k.None? || !b.deleteOk then Failure(BackendFailure) else Success(Delete(s, k.value, key))
  }
}
