/**
 Python's `sorted(items, key=..., reverse=...)` and `list.sort`, which every
 listing in the application goes through: a stable sort by a key, where
 `reverse=True` orders by descending key but still keeps items with equal keys
 in their original order.

 Keys are integers or strings, the two kinds the application sorts by
 (sizes, times, pids and percentages as integers; names as strings).
 */
module Sorting {

  datatype Key = Num(n: int) | Str(s: string)

  /** Python's `<` on `str`: lexicographic by code point, a proper prefix first. */
  predicate StrLt(a: string, b: string)
    decreases |a|
  {
    if |a| == 0 then |b| > 0
    else if |b| == 0 then false
    else a[0] < b[0] || (a[0] == b[0] && StrLt(a[1..], b[1..]))
  }

  /** The order on keys; a number is placed before any string, a choice Python
      itself never has to make because one listing never mixes the two. */
  predicate KeyLt(a: Key, b: Key) {
    match (a, b)
    case (Num(x), Num(y)) => x < y
    case (Str(x), Str(y)) => StrLt(x, y)
    case (Num(_), Str(_)) => true
    case (Str(_), Num(_)) => false
  }

  lemma {:induction false} StrLtIrreflexive(a: string)
    ensures !StrLt(a, a)
    decreases |a|
  {
    if |a| > 0 {
      StrLtIrreflexive(a[1..]);
    }
  }

  lemma {:induction false} StrLtTransitive(a: string, b: string, c: string)
    requires StrLt(a, b) && StrLt(b, c)
    ensures StrLt(a, c)
    decreases |a|
  {
    if |a| > 0 && |b| > 0 && |c| > 0 && a[0] == b[0] == c[0] {
      StrLtTransitive(a[1..], b[1..], c[1..]);
    }
  }

  lemma {:induction false} StrLtTotal(a: string, b: string)
    ensures a == b || StrLt(a, b) || StrLt(b, a)
    decreases |a|
  {
    if |a| > 0 && |b| > 0 && a[0] == b[0] {
      StrLtTotal(a[1..], b[1..]);
      if a[1..] == b[1..] {
        assert a == [a[0]] + a[1..] && b == [b[0]] + b[1..];
      }
    }
  }

  /** `KeyLt` is a strict total order: irreflexive, transitive, and any two
      different keys are comparable. */
  lemma KeyLtStrictTotal(a: Key, b: Key, c: Key)
    ensures !KeyLt(a, a)
    ensures KeyLt(a, b) && KeyLt(b, c) ==> KeyLt(a, c)
    ensures a == b || KeyLt(a, b) || KeyLt(b, a)
  {
    if a.Str? {
      StrLtIrreflexive(a.s);
      if b.Str? {
        StrLtTotal(a.s, b.s);
        if c.Str? && KeyLt(a, b) && KeyLt(b, c) {
          StrLtTransitive(a.s, b.s, c.s);
        }
      }
    }
  }

  /** `a` is strictly earlier than `b` in the requested direction. */
  predicate Before(a: Key, b: Key, desc: bool) {
    if desc then KeyLt(b, a) else KeyLt(a, b)
  }

  /** "Not earlier than" is transitive. */
  lemma NotBeforeTransitive(a: Key, b: Key, c: Key, desc: bool)
    requires !Before(b, a, desc) && !Before(c, b, desc)
    ensures !Before(c, a, desc)
  {
    KeyLtStrictTotal(b, c, a);
    KeyLtStrictTotal(a, c, b);
    KeyLtStrictTotal(c, b, a);
  }

  /** No item is strictly earlier than one that precedes it. */
  predicate SortedBy<T>(r: seq<T>, key: T -> Key, desc: bool) {
    forall i, j :: 0 <= i < j < |r| ==> !Before(key(r[j]), key(r[i]), desc)
  }

  /** The items of `s` whose key is `k`, in order. */
  function WithKey<T>(s: seq<T>, key: T -> Key, k: Key): (r: seq<T>)
    ensures |r| <= |s|
  {
    if |s| == 0 then []
    else (if key(s[0]) == k then [s[0]] else []) + WithKey(s[1..], key, k)
  }

  /** Places `x` after the items that are strictly earlier than it, and before
      everything else: so it goes in front of the items with its own key. */
  function Insert<T>(x: T, r: seq<T>, key: T -> Key, desc: bool): seq<T> {
    if |r| == 0 || !Before(key(r[0]), key(x), desc) then [x] + r
    else [r[0]] + Insert(x, r[1..], key, desc)
  }

  /** `sorted(s, key=key, reverse=desc)`. */
  function SortBy<T>(s: seq<T>, key: T -> Key, desc: bool): seq<T> {
    if |s| == 0 then [] else Insert(s[0], SortBy(s[1..], key, desc), key, desc)
  }

  lemma {:induction false} InsertPerm<T>(x: T, r: seq<T>, key: T -> Key, desc: bool)
    ensures multiset(Insert(x, r, key, desc)) == multiset([x] + r)
    ensures |Insert(x, r, key, desc)| == |r| + 1
  {
    if |r| > 0 && Before(key(r[0]), key(x), desc) {
      InsertPerm(x, r[1..], key, desc);
      assert r == [r[0]] + r[1..];
    }
  }

  /** Sorting only rearranges: the result is a permutation of the input. */
  lemma {:induction false} SortByPerm<T>(s: seq<T>, key: T -> Key, desc: bool)
    ensures multiset(SortBy(s, key, desc)) == multiset(s)
    ensures |SortBy(s, key, desc)| == |s|
  {
    if |s| > 0 {
      SortByPerm(s[1..], key, desc);
      InsertPerm(s[0], SortBy(s[1..], key, desc), key, desc);
      assert s == [s[0]] + s[1..];
    }
  }

  /** Putting in front an item no later item is earlier than keeps the order. */
  lemma ConsSorted<T>(y: T, t: seq<T>, key: T -> Key, desc: bool)
    requires SortedBy(t, key, desc)
    requires forall j :: 0 <= j < |t| ==> !Before(key(t[j]), key(y), desc)
    ensures SortedBy([y] + t, key, desc)
  {
    var out := [y] + t;
    forall i, j | 0 <= i < j < |out| ensures !Before(key(out[j]), key(out[i]), desc) {
      assert out[j] == t[j - 1];
      if i > 0 {
        assert out[i] == t[i - 1];
      }
    }
  }

  lemma {:induction false} InsertSorted<T>(x: T, r: seq<T>, key: T -> Key, desc: bool)
    requires SortedBy(r, key, desc)
    ensures SortedBy(Insert(x, r, key, desc), key, desc)
  {
    if |r| == 0 || !Before(key(r[0]), key(x), desc) {
      forall j | 0 <= j < |r| ensures !Before(key(r[j]), key(x), desc) {
        KeyLtStrictTotal(key(r[0]), key(x), key(x));
        if j > 0 {
          NotBeforeTransitive(key(x), key(r[0]), key(r[j]), desc);
        }
      }
      ConsSorted(x, r, key, desc);
    } else {
      var tail := Insert(x, r[1..], key, desc);
      InsertSorted(x, r[1..], key, desc);
      InsertPerm(x, r[1..], key, desc);
      forall j | 0 <= j < |tail| ensures !Before(key(tail[j]), key(r[0]), desc) {
        assert tail[j] in multiset([x] + r[1..]);
        if tail[j] == x {
          KeyLtStrictTotal(key(x), key(r[0]), key(x));
        } else {
          assert tail[j] in r[1..];
          var m :| 0 <= m < |r[1..]| && r[1..][m] == tail[j];
          assert r[m + 1] == tail[j];
        }
      }
      ConsSorted(r[0], tail, key, desc);
    }
  }

  /** The result is ordered by key in the requested direction. */
  lemma {:induction false} SortBySorted<T>(s: seq<T>, key: T -> Key, desc: bool)
    ensures SortedBy(SortBy(s, key, desc), key, desc)
  {
    if |s| > 0 {
      SortBySorted(s[1..], key, desc);
      InsertSorted(s[0], SortBy(s[1..], key, desc), key, desc);
    }
  }

  lemma {:induction false} WithKeyAppend<T>(a: seq<T>, b: seq<T>, key: T -> Key, k: Key)
    ensures WithKey(a + b, key, k) == WithKey(a, key, k) + WithKey(b, key, k)
  {
    if |a| > 0 {
      assert (a + b)[1..] == a[1..] + b;
      WithKeyAppend(a[1..], b, key, k);
    } else {
      assert a + b == b;
    }
  }

  lemma {:induction false} InsertWithKey<T>(x: T, r: seq<T>, key: T -> Key, desc: bool, k: Key)
    ensures WithKey(Insert(x, r, key, desc), key, k) == WithKey([x] + r, key, k)
  {
    if |r| > 0 && Before(key(r[0]), key(x), desc) {
      InsertWithKey(x, r[1..], key, desc, k);
      KeyLtStrictTotal(key(r[0]), key(x), key(x));
      assert key(r[0]) != key(x);
      assert ([r[0]] + Insert(x, r[1..], key, desc))[1..] == Insert(x, r[1..], key, desc);
      assert ([x] + r)[1..] == r;
      assert ([x] + r[1..])[1..] == r[1..];
      assert r[1..] == r[1..];
      if key(r[0]) == k {
        assert key(x) != k;
      }
    }
  }

  /** Stability, `reverse=True` included: the items sharing any one key keep
      their original relative order. */
  lemma {:induction false} SortByStable<T>(s: seq<T>, key: T -> Key, desc: bool, k: Key)
    ensures WithKey(SortBy(s, key, desc), key, k) == WithKey(s, key, k)
  {
    if |s| > 0 {
      SortByStable(s[1..], key, desc, k);
      InsertWithKey(s[0], SortBy(s[1..], key, desc), key, desc, k);
    }
  }

  /** A subsequence of an ordered sequence keeps the order. */
  lemma {:induction false} WithKeySorted<T>(s: seq<T>, key: T -> Key, desc: bool, k: Key, key2: T -> Key)
    requires SortedBy(s, key2, desc)
    ensures SortedBy(WithKey(s, key, k), key2, desc)
  {
    if |s| > 0 {
      var rest := WithKey(s[1..], key, k);
      WithKeySorted(s[1..], key, desc, k, key2);
      WithKeyFrom(s[1..], key, k);
      if key(s[0]) == k {
        var out := [s[0]] + rest;
        forall i, j | 0 <= i < j < |out| ensures !Before(key2(out[j]), key2(out[i]), desc) {
          assert out[j] == rest[j - 1];
          assert rest[j - 1] in multiset(rest);
          assert rest[j - 1] in s[1..];
          var m :| 0 <= m < |s[1..]| && s[1..][m] == rest[j - 1];
          assert s[m + 1] == out[j];
          if i > 0 {
            assert out[i] == rest[i - 1];
          }
        }
      }
    }
  }

  /** Every item of `WithKey(s, key, k)` is an item of `s`. */
  lemma {:induction false} WithKeyFrom<T>(s: seq<T>, key: T -> Key, k: Key)
    ensures multiset(WithKey(s, key, k)) <= multiset(s)
  {
    if |s| > 0 {
      WithKeyFrom(s[1..], key, k);
      assert s == [s[0]] + s[1..];
    }
  }

  /** Every item is strictly earlier than each later one, so no two share a
      key. */
  predicate StrictlySortedBy<T>(r: seq<T>, key: T -> Key, desc: bool) {
    forall i, j :: 0 <= i < j < |r| ==> Before(key(r[i]), key(r[j]), desc)
  }

  lemma BeforeTransitive(a: Key, b: Key, c: Key, desc: bool)
    requires Before(a, b, desc) && Before(b, c, desc)
    ensures Before(a, c, desc)
  {
    KeyLtStrictTotal(a, b, c);
    KeyLtStrictTotal(c, b, a);
  }

  /** Strict order between neighbours gives strict order throughout. */
  lemma {:induction false} StrictFromAdjacent<T>(r: seq<T>, key: T -> Key, desc: bool)
    requires forall i :: 0 <= i < |r| - 1 ==> Before(key(r[i]), key(r[i + 1]), desc)
    ensures StrictlySortedBy(r, key, desc)
  {
    if |r| > 1 {
      var t := r[1..];
      forall i | 0 <= i < |t| - 1 ensures Before(key(t[i]), key(t[i + 1]), desc) {
        assert t[i] == r[i + 1] && t[i + 1] == r[i + 2];
      }
      StrictFromAdjacent(t, key, desc);
      forall i, j | 0 <= i < j < |r| ensures Before(key(r[i]), key(r[j]), desc) {
        if i > 0 {
          assert r[i] == t[i - 1] && r[j] == t[j - 1];
        } else if j > 1 {
          assert r[1] == t[0] && r[j] == t[j - 1];
          BeforeTransitive(key(r[0]), key(r[1]), key(r[j]), desc);
        }
      }
    }
  }

  /** Removing equal first items from equal multisets leaves equal ones. */
  lemma TailsAgree<T>(a: seq<T>, b: seq<T>)
    requires |a| > 0 && |b| > 0 && a[0] == b[0] && multiset(a) == multiset(b)
    ensures multiset(a[1..]) == multiset(b[1..])
  {
    assert a == [a[0]] + a[1..] && b == [b[0]] + b[1..];
    assert multiset(a) == multiset([a[0]]) + multiset(a[1..]);
    assert multiset(b) == multiset([a[0]]) + multiset(b[1..]);
    assert multiset(a[1..]) == multiset(a) - multiset([a[0]]);
    assert multiset(b[1..]) == multiset(b) - multiset([a[0]]);
  }

  /** An ordered rearrangement of a strictly ordered sequence begins with the
      same item. */
  lemma HeadsAgree<T>(a: seq<T>, b: seq<T>, key: T -> Key, desc: bool)
    requires StrictlySortedBy(a, key, desc) && SortedBy(b, key, desc)
    requires multiset(a) == multiset(b) && |a| > 0
    ensures |b| > 0 && a[0] == b[0]
  {
    assert a[0] in multiset(b);
    var k :| 0 <= k < |b| && b[k] == a[0];
    assert b[0] in multiset(a);
    var m :| 0 <= m < |a| && a[m] == b[0];
    assert !Before(key(a[0]), key(a[m]), desc) by {
      KeyLtStrictTotal(key(b[0]), key(b[0]), key(b[0]));
      if k > 0 {
        assert !Before(key(b[k]), key(b[0]), desc);
      }
    }
  }

  /** Distinct keys leave a sort no freedom: an ordered rearrangement of a
      strictly ordered sequence is that sequence. */
  lemma {:induction false} SortedUnique<T>(a: seq<T>, b: seq<T>, key: T -> Key, desc: bool)
    requires StrictlySortedBy(a, key, desc) && SortedBy(b, key, desc)
    requires multiset(a) == multiset(b)
    ensures a == b
  {
    assert |a| == |multiset(a)| == |multiset(b)| == |b|;
    if |a| > 0 {
      HeadsAgree(a, b, key, desc);
      TailsAgree(a, b);
      forall i, j | 0 <= i < j < |a[1..]| ensures Before(key(a[1..][i]), key(a[1..][j]), desc) {
        assert a[1..][i] == a[i + 1] && a[1..][j] == a[j + 1];
      }
      forall i, j | 0 <= i < j < |b[1..]| ensures !Before(key(b[1..][j]), key(b[1..][i]), desc) {
        assert b[1..][i] == b[i + 1] && b[1..][j] == b[j + 1];
      }
      SortedUnique(a[1..], b[1..], key, desc);
      assert a == [a[0]] + a[1..] && b == [b[0]] + b[1..];
    }
  }

  /** The list with the entries at `i` and `j` exchanged. */
  function Swap<T>(s: seq<T>, i: nat, j: nat): (r: seq<T>)
    requires i < |s| && j < |s|
    ensures |r| == |s| && r[i] == s[j] && r[j] == s[i]
    ensures forall k :: 0 <= k < |s| && k != i && k != j ==> r[k] == s[k]
  {
    s[i := s[j]][j := s[i]]
  }

  /** Exchanging two entries keeps the same entries. */
  lemma SwapKeepsBag<T>(s: seq<T>, i: nat, j: nat)
    requires i < |s| && j < |s|
    ensures multiset(Swap(s, i, j)) == multiset(s)
  {
    if i != j {
      var m := multiset(s);
      assert s[i] in m && s[j] in m;
      var s1 := s[i := s[j]];
      assert multiset(s1) == m - multiset{s[i]} + multiset{s[j]};
      assert s1[j] == s[j];
    } else {
      assert Swap(s, i, j) == s;
    }
  }
}
