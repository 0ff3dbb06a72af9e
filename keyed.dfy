/**
 * Sequences of records looked up by a key field: the `findIndex`, `find`,
 * `filter` and index-assignment idioms every writer of the record store is
 * built from. The key is a function from a record to its key string (`id`,
 * or `shopId` for menus).
 */
module Keyed {
  import opened Basics

  /** `s.findIndex(x => key(x) === k)`: the first position holding key `k`, or -1. */
  function FirstIndex<R>(s: seq<R>, key: R -> string, k: string): (i: int)
    ensures -1 <= i < |s|
    ensures i >= 0 ==> key(s[i]) == k
    ensures forall j :: 0 <= j < |s| && (i == -1 || j < i) ==> key(s[j]) != k
    decreases |s|
  {
    if s == [] then -1
    else if key(s[0]) == k then 0
    else
      var i := FirstIndex(s[1..], key, k);
      if i == -1 then -1 else i + 1
  }

  /** Some record of `s` has key `k`. */
  predicate HasKey<R>(s: seq<R>, key: R -> string, k: string) {
    exists j :: 0 <= j < |s| && key(s[j]) == k
  }

  /** No two records of `s` share a key. */
  predicate UniqueKeys<R>(s: seq<R>, key: R -> string) {
    forall i, j :: 0 <= i < j < |s| ==> key(s[i]) != key(s[j])
  }

  /** `s.find(x => key(x) === k)`: the first record holding key `k`, if any. */
  function Find<R>(s: seq<R>, key: R -> string, k: string): (r: Option<R>)
    ensures r.None? <==> !HasKey(s, key, k)
    ensures r.Some? ==> r.value in s && key(r.value) == k
    ensures r.Some? ==> exists i :: 0 <= i < |s| && s[i] == r.value && key(s[i]) == k
                                   && forall j :: 0 <= j < i ==> key(s[j]) != k
  {
    var i := FirstIndex(s, key, k);
    if i == -1 then None else Some(s[i])
  }

  /** `s.filter(x => key(x) === k)`. */
  function Where<R>(s: seq<R>, key: R -> string, k: string): (r: seq<R>)
    ensures |r| <= |s|
    ensures forall i :: 0 <= i < |r| ==> r[i] in s && key(r[i]) == k
    ensures forall i :: 0 <= i < |s| && key(s[i]) == k ==> s[i] in r
    decreases |s|
  {
    if s == [] then []
    else if key(s[0]) == k then [s[0]] + Where(s[1..], key, k)
    else Where(s[1..], key, k)
  }

  /** `s.filter(x => key(x) !== k)`. */
  function Except<R>(s: seq<R>, key: R -> string, k: string): (r: seq<R>)
    ensures |r| <= |s|
    ensures forall i :: 0 <= i < |r| ==> r[i] in s && key(r[i]) != k
    ensures forall i :: 0 <= i < |s| && key(s[i]) != k ==> s[i] in r
    decreases |s|
  {
    if s == [] then []
    else if key(s[0]) != k then [s[0]] + Except(s[1..], key, k)
    else Except(s[1..], key, k)
  }

  /** Filtering keeps the order: filtering a concatenation concatenates the filtered parts. */
  lemma {:induction false} WhereAppend<R>(a: seq<R>, b: seq<R>, key: R -> string, k: string)
    ensures Where(a + b, key, k) == Where(a, key, k) + Where(b, key, k)
  {
    if a != [] {
      assert (a + b)[1..] == a[1..] + b;
      WhereAppend(a[1..], b, key, k);
    } else {
      assert a + b == b;
    }
  }

  /** The same for `Except`. */
  lemma {:induction false} ExceptAppend<R>(a: seq<R>, b: seq<R>, key: R -> string, k: string)
    ensures Except(a + b, key, k) == Except(a, key, k) + Except(b, key, k)
  {
    if a != [] {
      assert (a + b)[1..] == a[1..] + b;
      ExceptAppend(a[1..], b, key, k);
    } else {
      assert a + b == b;
    }
  }

  /** Dropping key `k` twice is dropping it once. */
  lemma {:induction false} ExceptIdempotent<R>(s: seq<R>, key: R -> string, k: string)
    ensures Except(Except(s, key, k), key, k) == Except(s, key, k)
  {
    if s != [] {
      ExceptIdempotent(s[1..], key, k);
    }
  }

  /** Dropping a key no record has changes nothing. */
  lemma {:induction false} ExceptAbsent<R>(s: seq<R>, key: R -> string, k: string)
    requires !HasKey(s, key, k)
    ensures Except(s, key, k) == s
  {
    if s != [] {
      assert !HasKey(s[1..], key, k) by {
        forall j | 0 <= j < |s[1..]| ensures key(s[1..][j]) != k {
          assert s[1..][j] == s[j + 1];
        }
      }
      ExceptAbsent(s[1..], key, k);
    }
  }

  /** Keeping key `k` after dropping key `j` is keeping key `k`, unless the two keys are one. */
  lemma {:induction false} WhereExcept<R>(s: seq<R>, key: R -> string, k: string, j: string)
    ensures Where(Except(s, key, j), key, k) == if k == j then [] else Where(s, key, k)
  {
    if s != [] {
      WhereExcept(s[1..], key, k, j);
    }
  }

  /** Keeping key `k` among records that all have key `k` keeps them all. */
  lemma {:induction false} WhereAll<R>(s: seq<R>, key: R -> string, k: string)
    requires forall i :: 0 <= i < |s| ==> key(s[i]) == k
    ensures Where(s, key, k) == s
  {
    if s != [] {
      WhereAll(s[1..], key, k);
    }
  }

  /** The first record with key `k` replaced by `x`; without such a record nothing changes. */
  function ReplaceFirst<R>(s: seq<R>, key: R -> string, k: string, x: R): (r: seq<R>)
    ensures |r| == |s|
    ensures forall i :: 0 <= i < |s| && key(s[i]) != k ==> r[i] == s[i]
    decreases |s|
  {
    if s == [] then []
    else if key(s[0]) == k then [x] + s[1..]
    else [s[0]] + ReplaceFirst(s[1..], key, k, x)
  }

  /**
   * `const i = s.findIndex(...); if (i > -1) s[i] = x;` computes `ReplaceFirst`:
   * only the first record with key `k` is replaced, and an absent key changes nothing.
   */
  lemma {:induction false} ReplaceFirstAt<R>(s: seq<R>, key: R -> string, k: string, x: R)
    ensures FirstIndex(s, key, k) == -1 ==> ReplaceFirst(s, key, k, x) == s
    ensures FirstIndex(s, key, k) >= 0 ==> ReplaceFirst(s, key, k, x) == s[FirstIndex(s, key, k) := x]
  {
    if s != [] && key(s[0]) != k {
      var rest := s[1..];
      ReplaceFirstAt(rest, key, k, x);
      assert ReplaceFirst(s, key, k, x) == [s[0]] + ReplaceFirst(rest, key, k, x);
      assert [s[0]] + rest == s;
      var i := FirstIndex(rest, key, k);
      if i >= 0 {
        assert FirstIndex(s, key, k) == i + 1;
        assert [s[0]] + rest[i := x] == s[i + 1 := x];
      } else {
        assert FirstIndex(s, key, k) == -1;
      }
    }
  }

  /** `s.map(y => key(y) === k ? x : y)`: every record with key `k` becomes `x`. */
  function ReplaceAll<R>(s: seq<R>, key: R -> string, k: string, x: R): (r: seq<R>)
    ensures |r| == |s|
    ensures forall i :: 0 <= i < |s| ==> r[i] == if key(s[i]) == k then x else s[i]
    decreases |s|
  {
    if s == [] then [] else [if key(s[0]) == k then x else s[0]] + ReplaceAll(s[1..], key, k, x)
  }

  /** With unique keys, replacing every match and replacing the first match agree. */
  lemma {:induction false} ReplaceAllIsReplaceFirst<R>(s: seq<R>, key: R -> string, k: string, x: R)
    requires UniqueKeys(s, key)
    ensures ReplaceAll(s, key, k, x) == ReplaceFirst(s, key, k, x)
  {
    if s != [] {
      assert UniqueKeys(s[1..], key) by {
        forall i, j | 0 <= i < j < |s[1..]| ensures key(s[1..][i]) != key(s[1..][j]) {
          assert s[1..][i] == s[i + 1] && s[1..][j] == s[j + 1];
        }
      }
      ReplaceAllIsReplaceFirst(s[1..], key, k, x);
      if key(s[0]) == k {
        forall i | 0 <= i < |s[1..]| ensures key(s[1..][i]) != k {
          assert s[1..][i] == s[i + 1];
        }
        assert ReplaceAll(s[1..], key, k, x) == s[1..];
      }
    }
  }

  /**
   * Update-or-insert by key (`saveToCollection`, `saveMenu`): the first record
   * whose key is `key(x)` is replaced by `x`; without one, `x` goes at the end.
   */
  function Upsert<R>(s: seq<R>, x: R, key: R -> string): (r: seq<R>)
    ensures |s| <= |r| <= |s| + 1
    ensures x in r
    decreases |s|
  {
    if s == [] then [x]
    else if key(s[0]) == key(x) then [x] + s[1..]
    else [s[0]] + Upsert(s[1..], x, key)
  }

  /**
   * `findIndex`, then either index assignment or `push`, computes `Upsert`:
   * a present key keeps the length and replaces that position, an absent key
   * appends at the end.
   */
  lemma {:induction false} UpsertAt<R>(s: seq<R>, x: R, key: R -> string)
    ensures FirstIndex(s, key, key(x)) >= 0 ==> Upsert(s, x, key) == s[FirstIndex(s, key, key(x)) := x]
    ensures FirstIndex(s, key, key(x)) == -1 ==> Upsert(s, x, key) == s + [x]
  {
    if s != [] && key(s[0]) != key(x) {
      UpsertAt(s[1..], x, key);
      var i := FirstIndex(s[1..], key, key(x));
      if i >= 0 {
        assert [s[0]] + s[1..][i := x] == s[i + 1 := x];
      } else {
        assert [s[0]] + (s[1..] + [x]) == s + [x];
      }
    }
  }

  /** The length grows by one exactly when the key was absent. */
  lemma UpsertLength<R>(s: seq<R>, x: R, key: R -> string)
    ensures |Upsert(s, x, key)| == if HasKey(s, key, key(x)) then |s| else |s| + 1
  {
    UpsertAt(s, x, key);
  }

  /** Upserting the same record twice gives the collection upserting it once gives. */
  lemma {:induction false} UpsertIdempotent<R>(s: seq<R>, x: R, key: R -> string)
    ensures Upsert(Upsert(s, x, key), x, key) == Upsert(s, x, key)
  {
    if s != [] && key(s[0]) != key(x) {
      UpsertIdempotent(s[1..], x, key);
    }
  }

  /** Every record with another key is left as it was and in its order. */
  lemma {:induction false} UpsertKeepsOthers<R>(s: seq<R>, x: R, key: R -> string)
    ensures Except(Upsert(s, x, key), key, key(x)) == Except(s, key, key(x))
  {
    if s == [] {
    } else if key(s[0]) == key(x) {
      assert Except([x] + s[1..], key, key(x)) == Except(s[1..], key, key(x));
    } else {
      UpsertKeepsOthers(s[1..], x, key);
    }
  }

  /** After an upsert, looking up the record's key finds that record. */
  lemma {:induction false} UpsertThenFind<R>(s: seq<R>, x: R, key: R -> string)
    ensures Find(Upsert(s, x, key), key, key(x)) == Some(x)
  {
    if s != [] && key(s[0]) != key(x) {
      UpsertThenFind(s[1..], x, key);
      assert FirstIndex(Upsert(s, x, key), key, key(x)) == FirstIndex(Upsert(s[1..], x, key), key, key(x)) + 1;
    }
  }

  /** An upsert keeps the keys unique ("at most one record per key"). */
  lemma UpsertKeepsUnique<R>(s: seq<R>, x: R, key: R -> string)
    requires UniqueKeys(s, key)
    ensures UniqueKeys(Upsert(s, x, key), key)
  {
    UpsertAt(s, x, key);
    var r := Upsert(s, x, key);
    var i := FirstIndex(s, key, key(x));
    forall a, b | 0 <= a < b < |r| ensures key(r[a]) != key(r[b]) {
      if i >= 0 {
        if a != i && b != i {
          assert r[a] == s[a] && r[b] == s[b];
        }
      } else if b == |s| {
        assert r[a] == s[a] && r[b] == x;
      } else {
        assert r[a] == s[a] && r[b] == s[b];
      }
    }
  }

  /** No record has key `k`: filtering on `k` gives nothing. */
  lemma WhereNone<R>(s: seq<R>, key: R -> string, k: string)
    requires !HasKey(s, key, k)
    ensures Where(s, key, k) == []
  {
  }

  /** Two lists with unique keys and no key in common concatenate to a list with unique keys. */
  lemma UniqueConcat<R>(a: seq<R>, b: seq<R>, key: R -> string)
    requires UniqueKeys(a, key) && UniqueKeys(b, key)
    requires forall i, j :: 0 <= i < |a| && 0 <= j < |b| ==> key(a[i]) != key(b[j])
    ensures UniqueKeys(a + b, key)
  {
    var c := a + b;
    forall i, j | 0 <= i < j < |c| ensures key(c[i]) != key(c[j]) {
      if j < |a| {
        assert c[i] == a[i] && c[j] == a[j];
      } else if i >= |a| {
        assert c[i] == b[i - |a|] && c[j] == b[j - |a|];
      } else {
        assert c[i] == a[i] && c[j] == b[j - |a|];
      }
    }
  }

  /** Appending a record whose key is new keeps the keys unique. */
  lemma UniqueAppend<R>(s: seq<R>, x: R, key: R -> string)
    requires UniqueKeys(s, key) && !HasKey(s, key, key(x))
    ensures UniqueKeys(s + [x], key)
  {
    UniqueConcat(s, [x], key);
  }

  /** Filtering on one field keeps another field's values unique. */
  lemma {:induction false} UniqueFilter<R>(s: seq<R>, field: R -> string, key: R -> string, k: string)
    requires UniqueKeys(s, key)
    ensures UniqueKeys(Except(s, field, k), key)
    ensures UniqueKeys(Where(s, field, k), key)
  {
    if s != [] {
      var t := s[1..];
      assert UniqueKeys(t, key) by {
        forall i, j | 0 <= i < j < |t| ensures key(t[i]) != key(t[j]) {
          assert t[i] == s[i + 1] && t[j] == s[j + 1];
        }
      }
      UniqueFilter(t, field, key, k);
      forall u | u == Where(t, field, k) || u == Except(t, field, k)
        ensures UniqueKeys([s[0]] + u, key)
      {
        forall i | 0 <= i < |u| ensures key(u[i]) != key(s[0]) {
          assert u[i] in t;
          var m :| 0 <= m < |t| && t[m] == u[i];
          assert t[m] == s[m + 1];
        }
        UniqueConcat([s[0]], u, key);
      }
    }
  }

  /** Replacing a record by one with the same key keeps the keys unique. */
  lemma UniqueReplaceFirst<R>(s: seq<R>, key: R -> string, x: R)
    requires UniqueKeys(s, key)
    ensures UniqueKeys(ReplaceFirst(s, key, key(x), x), key)
  {
    ReplaceFirstAt(s, key, key(x), x);
    var r := ReplaceFirst(s, key, key(x), x);
    var p := FirstIndex(s, key, key(x));
    forall i, j | 0 <= i < j < |r| ensures key(r[i]) != key(r[j]) {
      if p >= 0 {
        assert key(r[i]) == key(s[i]) && key(r[j]) == key(s[j]);
      }
    }
  }
}
