/** Order-preserving list operations shared by the search merge and the
    directory resolver: reversal, sublists and `distinctBy`. */
module Lists {
  import opened Text

  function Reverse<T>(s: seq<T>): (r: seq<T>)
    ensures |r| == |s|
    ensures forall i :: 0 <= i < |s| ==> r[i] == s[|s| - 1 - i]
  {
    if s == [] then [] else Reverse(s[1..]) + [s[0]]
  }

  /** `r` is obtained from `s` by deleting elements, keeping the order of the rest. */
  predicate Sublist<T(==)>(r: seq<T>, s: seq<T>)
    decreases |s|
  {
    if r == [] then true
    else if s == [] then false
    else (r[0] == s[0] && Sublist(r[1..], s[1..])) || Sublist(r, s[1..])
  }


  lemma {:induction false} MultisetReverse<T>(s: seq<T>)
    ensures multiset(Reverse(s)) == multiset(s)
  {
    if s != [] {
      MultisetReverse(s[1..]);
      assert s == [s[0]] + s[1..];
    }
  }

  lemma {:induction false} SublistRefl<T>(s: seq<T>)
    ensures Sublist(s, s)
  {
    if s != [] {
      SublistRefl(s[1..]);
    }
  }

  lemma {:induction false} SublistMembers<T>(r: seq<T>, s: seq<T>)
    requires Sublist(r, s)
    ensures forall x :: x in r ==> x in s
    decreases |s|
  {
    if r != [] && s != [] {
      if r[0] == s[0] && Sublist(r[1..], s[1..]) {
        SublistMembers(r[1..], s[1..]);
        assert r == [r[0]] + r[1..] && s == [s[0]] + s[1..];
      } else {
        SublistMembers(r, s[1..]);
      }
    }
  }

  lemma {:induction false} SublistTransitive<T>(a: seq<T>, b: seq<T>, c: seq<T>)
    requires Sublist(a, b) && Sublist(b, c)
    ensures Sublist(a, c)
    decreases |c|
  {
    if a == [] {
    } else if b[0] == c[0] && Sublist(b[1..], c[1..]) {
      if a[0] == b[0] && Sublist(a[1..], b[1..]) {
        SublistTransitive(a[1..], b[1..], c[1..]);
      } else {
        SublistTransitive(a, b[1..], c[1..]);
      }
    } else {
      SublistTransitive(a, b, c[1..]);
    }
  }

  lemma {:induction false} SublistAppend<T>(r: seq<T>, s: seq<T>, x: T)
    requires Sublist(r, s)
    ensures Sublist(r, s + [x])
    decreases |s|
  {
    if r != [] {
      assert (s + [x])[0] == s[0];
      assert (s + [x])[1..] == s[1..] + [x];
      if r[0] == s[0] && Sublist(r[1..], s[1..]) {
        SublistAppend(r[1..], s[1..], x);
      } else {
        SublistAppend(r, s[1..], x);
      }
    }
  }

  /** No two elements share a key. */
  predicate UniqueBy<T, K(==)>(list: seq<T>, key: T -> K) {
    forall i, j :: 0 <= i < j < |list| ==> key(list[i]) != key(list[j])
  }

  /** Some element of `list` has key `k`. */
  predicate HasKey<T, K(==)>(list: seq<T>, key: T -> K, k: K) {
    exists i :: 0 <= i < |list| && key(list[i]) == k
  }

  /** The `distinctBy` walk: keeps the first element of every key not yet in `seen`. */
  function DistinctFrom<T(==), K(==)>(list: seq<T>, key: T -> K, seen: set<K>): (r: seq<T>)
    ensures UniqueBy(r, key)
    ensures forall k :: 0 <= k < |r| ==> key(r[k]) !in seen
    ensures Sublist(r, list)
    ensures forall i :: 0 <= i < |list| && key(list[i]) !in seen ==> HasKey(r, key, key(list[i]))
    decreases |list|
  {
    if list == [] then []
    else if key(list[0]) in seen then
      var rest := DistinctFrom(list[1..], key, seen);
      assert forall i :: 1 <= i < |list| ==> list[i] == list[1..][i - 1];
      rest
    else
      var rest := DistinctFrom(list[1..], key, seen + {key(list[0])});
      assert forall i :: 1 <= i < |list| ==> list[i] == list[1..][i - 1];
      SublistRefl(rest);
      [list[0]] + rest
  }

  /** `list.distinctBy(key)`: the first element of every key, in their original order. */
  function DistinctBy<T(==), K(==)>(list: seq<T>, key: T -> K): (r: seq<T>)
    ensures UniqueBy(r, key)
    ensures Sublist(r, list)
    ensures forall i :: 0 <= i < |list| ==> HasKey(r, key, key(list[i]))
    ensures forall j :: 0 <= j < |r| ==> exists i :: FirstOfKey(list, key, i) && list[i] == r[j]
  {
    DistinctFromFirst(list, key, {});
    DistinctFrom(list, key, {})
  }

  /** `list[i]` is the first element of `list` with its key. */
  predicate FirstOfKey<T, K(==)>(list: seq<T>, key: T -> K, i: int) {
    0 <= i < |list| && forall k :: 0 <= k < i ==> key(list[k]) != key(list[i])
  }

  /** Every element the `distinctBy` walk keeps is the first of its key in the input. */
  lemma {:induction false} DistinctFromFirst<T, K>(list: seq<T>, key: T -> K, seen: set<K>)
    ensures forall j :: 0 <= j < |DistinctFrom(list, key, seen)| ==>
      exists i :: FirstOfKey(list, key, i) && list[i] == DistinctFrom(list, key, seen)[j]
    decreases |list|
  {
    if list != [] {
      var r := DistinctFrom(list, key, seen);
      var seen' := if key(list[0]) in seen then seen else seen + {key(list[0])};
      var rest := DistinctFrom(list[1..], key, seen');
      DistinctFromFirst(list[1..], key, seen');
      var offset := if key(list[0]) in seen then 0 else 1;
      assert r == (if offset == 0 then [] else [list[0]]) + rest;
      forall j | 0 <= j < |r| ensures exists i :: FirstOfKey(list, key, i) && list[i] == r[j] {
        if j < offset {
          assert FirstOfKey(list, key, 0) && list[0] == r[j];
        } else {
          var x := rest[j - offset];
          assert x == r[j];
          assert key(x) !in seen';
          assert 0 <= j - offset < |rest|;
          assert exists i :: FirstOfKey(list[1..], key, i) && list[1..][i] == rest[j - offset];
          var i' :| FirstOfKey(list[1..], key, i') && list[1..][i'] == x;
          forall k | 0 <= k < i' + 1 ensures key(list[k]) != key(list[i' + 1]) {
            if k > 0 {
              assert list[k] == list[1..][k - 1];
            }
          }
          assert FirstOfKey(list, key, i' + 1) && list[i' + 1] == r[j];
        }
      }
      assert r == DistinctFrom(list, key, seen);
    } else {
      assert DistinctFrom(list, key, seen) == [];
    }
  }

  // ---------------------------------------------------------------------------
  // Stable insertion sorts by a key

  /** Keys never increase along the list. */
  predicate NonIncreasing<T>(list: seq<T>, key: T -> real) {
    forall i, j :: 0 <= i < j < |list| ==> key(list[i]) >= key(list[j])
  }

  /** The elements of `list` whose key is `k`, in order. */
  function WithKey<T, K(==)>(list: seq<T>, key: T -> K, k: K): seq<T> {
    if list == [] then []
    else (if key(list[0]) == k then [list[0]] else []) + WithKey(list[1..], key, k)
  }

  /** Places `x` after every element whose key is strictly larger and before the rest. */
  function InsertDesc<T(==)>(x: T, sorted: seq<T>, key: T -> real): (r: seq<T>)
    requires NonIncreasing(sorted, key)
    ensures multiset(r) == multiset(sorted) + multiset{x}
    ensures NonIncreasing(r, key)
  {
    if sorted == [] || key(sorted[0]) <= key(x) then
      ConsNonIncreasing(x, sorted, key);
      [x] + sorted
    else
      var rest := InsertDesc(x, sorted[1..], key);
      assert sorted == [sorted[0]] + sorted[1..];
      AboveInserted(sorted, x, rest, key);
      ConsNonIncreasing(sorted[0], rest, key);
      [sorted[0]] + rest
  }

  /** The head of a non-increasing list is at least every element of its tail with `x`
      added, when it is above `x`. */
  lemma AboveInserted<T>(sorted: seq<T>, x: T, rest: seq<T>, key: T -> real)
    requires |sorted| > 0 && NonIncreasing(sorted, key)
    requires key(x) < key(sorted[0])
    requires multiset(rest) == multiset(sorted[1..]) + multiset{x}
    ensures forall k :: 0 <= k < |rest| ==> key(rest[k]) <= key(sorted[0])
  {
    forall k | 0 <= k < |rest| ensures key(rest[k]) <= key(sorted[0]) {
      assert rest[k] in multiset(rest);
      if rest[k] != x {
        assert rest[k] in multiset(sorted[1..]);
        var m :| 0 <= m < |sorted[1..]| && sorted[1..][m] == rest[k];
        assert sorted[m + 1] == rest[k];
      }
    }
  }

  /** Putting a key at least the first one in front of a non-increasing list keeps it
      non-increasing. */
  lemma ConsNonIncreasing<T>(y: T, rest: seq<T>, key: T -> real)
    requires NonIncreasing(rest, key)
    requires rest == [] || key(rest[0]) <= key(y)
        || forall k :: 0 <= k < |rest| ==> key(rest[k]) <= key(y)
    ensures NonIncreasing([y] + rest, key)
  {
    var r := [y] + rest;
    forall i, j | 0 <= i < j < |r| ensures key(r[i]) >= key(r[j]) {
      assert r[j] == rest[j - 1];
      if i > 0 {
        assert r[i] == rest[i - 1];
      }
    }
  }

  /** The elements with key `k` of a list with one more element in front. */
  lemma WithKeyCons<T, K>(y: T, rest: seq<T>, key: T -> K, k: K)
    ensures WithKey([y] + rest, key, k) == (if key(y) == k then [y] else []) + WithKey(rest, key, k)
  {
    assert ([y] + rest)[1..] == rest;
  }

  /** `sortedByDescending { key }`: a stable sort by non-increasing key. */
  function SortDesc<T(==)>(list: seq<T>, key: T -> real): (r: seq<T>)
    ensures multiset(r) == multiset(list)
    ensures NonIncreasing(r, key)
  {
    if list == [] then []
    else
      assert list == [list[0]] + list[1..];
      InsertDesc(list[0], SortDesc(list[1..], key), key)
  }

  lemma {:induction false} InsertDescStable<T>(x: T, sorted: seq<T>, key: T -> real, k: real)
    requires NonIncreasing(sorted, key)
    ensures WithKey(InsertDesc(x, sorted, key), key, k)
         == (if key(x) == k then [x] else []) + WithKey(sorted, key, k)
  {
    if sorted == [] || key(sorted[0]) <= key(x) {
      WithKeyCons(x, sorted, key, k);
    } else {
      var rest := InsertDesc(x, sorted[1..], key);
      assert InsertDesc(x, sorted, key) == [sorted[0]] + rest;
      InsertDescStable(x, sorted[1..], key, k);
      WithKeyCons(sorted[0], rest, key, k);
      WithKeyCons(sorted[0], sorted[1..], key, k);
      assert [sorted[0]] + sorted[1..] == sorted;
      if key(x) == k {
        assert key(sorted[0]) != k;
      }
    }
  }

  /** The descending sort is stable: the elements of one key keep their order. */
  lemma {:induction false} SortDescStable<T>(list: seq<T>, key: T -> real, k: real)
    ensures WithKey(SortDesc(list, key), key, k) == WithKey(list, key, k)
  {
    if list != [] {
      SortDescStable(list[1..], key, k);
      InsertDescStable(list[0], SortDesc(list[1..], key), key, k);
    }
  }

  /** The elements of a concatenation with key `k` are those of each part. */
  lemma {:induction false} WithKeyAppend<T, K>(a: seq<T>, b: seq<T>, key: T -> K, k: K)
    ensures WithKey(a + b, key, k) == WithKey(a, key, k) + WithKey(b, key, k)
  {
    if a != [] {
      WithKeyAppend(a[1..], b, key, k);
      assert (a + b)[0] == a[0];
      assert (a + b)[1..] == a[1..] + b;
    } else {
      assert a + b == b;
    }
  }

  /** Reversing a list reverses the elements of every key. */
  lemma {:induction false} WithKeyReverse<T, K>(s: seq<T>, key: T -> K, k: K)
    ensures WithKey(Reverse(s), key, k) == Reverse(WithKey(s, key, k))
  {
    if s != [] {
      WithKeyReverse(s[1..], key, k);
      WithKeyAppend(Reverse(s[1..]), [s[0]], key, k);
      assert WithKey([s[0]], key, k) == if key(s[0]) == k then [s[0]] else [];
      var w := WithKey(s, key, k);
      if key(s[0]) == k {
        assert w[1..] == WithKey(s[1..], key, k);
      }
    }
  }

  /** Keys never decrease along the list, in lexicographic order. */
  predicate LexAscending<T>(list: seq<T>, key: T -> string) {
    forall i, j :: 0 <= i < j < |list| ==> LexLe(key(list[i]), key(list[j]))
  }

  /** Places `x` before the first element whose key is not below its own. */
  function InsertAsc<T(==)>(x: T, sorted: seq<T>, key: T -> string): (r: seq<T>)
    requires LexAscending(sorted, key)
    ensures multiset(r) == multiset(sorted) + multiset{x}
    ensures LexAscending(r, key)
  {
    if sorted == [] || LexLe(key(x), key(sorted[0])) then
      HeadBelowRest(x, sorted, key);
      ConsAscending(x, sorted, key);
      [x] + sorted
    else
      var rest := InsertAsc(x, sorted[1..], key);
      assert sorted == [sorted[0]] + sorted[1..];
      LexLeTotal(key(x), key(sorted[0]));
      BelowInserted(sorted, x, rest, key);
      ConsAscending(sorted[0], rest, key);
      [sorted[0]] + rest
  }

  /** A key at or below the first key of an ascending list is below all of them. */
  lemma HeadBelowRest<T>(x: T, sorted: seq<T>, key: T -> string)
    requires LexAscending(sorted, key)
    requires sorted == [] || LexLe(key(x), key(sorted[0]))
    ensures forall j :: 0 <= j < |sorted| ==> LexLe(key(x), key(sorted[j]))
  {
    forall j | 0 <= j < |sorted| ensures LexLe(key(x), key(sorted[j])) {
      if j > 0 {
        LexLeTransitive(key(x), key(sorted[0]), key(sorted[j]));
      }
    }
  }

  /** The head of an ascending list is below every element of its tail with `x` added,
      when it is below `x`. */
  lemma BelowInserted<T>(sorted: seq<T>, x: T, rest: seq<T>, key: T -> string)
    requires |sorted| > 0 && LexAscending(sorted, key)
    requires LexLe(key(sorted[0]), key(x))
    requires multiset(rest) == multiset(sorted[1..]) + multiset{x}
    ensures forall k :: 0 <= k < |rest| ==> LexLe(key(sorted[0]), key(rest[k]))
  {
    forall k | 0 <= k < |rest| ensures LexLe(key(sorted[0]), key(rest[k])) {
      assert rest[k] in multiset(rest);
      if rest[k] != x {
        assert rest[k] in multiset(sorted[1..]);
        var m :| 0 <= m < |sorted[1..]| && sorted[1..][m] == rest[k];
        assert sorted[m + 1] == rest[k];
      }
    }
  }

  /** Putting a key below all others in front of an ascending list keeps it ascending. */
  lemma ConsAscending<T>(y: T, rest: seq<T>, key: T -> string)
    requires LexAscending(rest, key)
    requires forall k :: 0 <= k < |rest| ==> LexLe(key(y), key(rest[k]))
    ensures LexAscending([y] + rest, key)
  {
    var r := [y] + rest;
    forall i, j | 0 <= i < j < |r| ensures LexLe(key(r[i]), key(r[j])) {
      assert r[j] == rest[j - 1];
      if i > 0 {
        assert r[i] == rest[i - 1];
      }
    }
  }

  /** `sortedBy { key }` on strings: a stable sort by non-decreasing key. */
  function SortAsc<T(==)>(list: seq<T>, key: T -> string): (r: seq<T>)
    ensures multiset(r) == multiset(list)
    ensures LexAscending(r, key)
  {
    if list == [] then []
    else
      assert list == [list[0]] + list[1..];
      InsertAsc(list[0], SortAsc(list[1..], key), key)
  }

  /** Inserting `x` into an ascending list puts it before the elements of its own key. */
  lemma {:induction false} InsertAscStable<T>(x: T, sorted: seq<T>, key: T -> string, k: string)
    requires LexAscending(sorted, key)
    ensures WithKey(InsertAsc(x, sorted, key), key, k)
         == (if key(x) == k then [x] else []) + WithKey(sorted, key, k)
  {
    if sorted == [] || LexLe(key(x), key(sorted[0])) {
      WithKeyCons(x, sorted, key, k);
    } else {
      var rest := InsertAsc(x, sorted[1..], key);
      assert InsertAsc(x, sorted, key) == [sorted[0]] + rest;
      InsertAscStable(x, sorted[1..], key, k);
      WithKeyCons(sorted[0], rest, key, k);
      WithKeyCons(sorted[0], sorted[1..], key, k);
      assert [sorted[0]] + sorted[1..] == sorted;
      if key(x) == k {
        LexLeTotal(key(x), key(x));
        assert key(sorted[0]) != k;
      }
    }
  }

  /** The ascending sort is stable: the elements of one key keep their order. */
  lemma {:induction false} SortAscStable<T>(list: seq<T>, key: T -> string, k: string)
    ensures WithKey(SortAsc(list, key), key, k) == WithKey(list, key, k)
  {
    if list != [] {
      SortAscStable(list[1..], key, k);
      InsertAscStable(list[0], SortAsc(list[1..], key), key, k);
    }
  }

  /** Deleting elements keeps keys unique. */
  lemma {:induction false} UniqueBySublist<T, K>(r: seq<T>, s: seq<T>, key: T -> K)
    requires Sublist(r, s) && UniqueBy(s, key)
    ensures UniqueBy(r, key)
    decreases |s|
  {
    if r != [] {
      assert UniqueBy(s[1..], key) by {
        forall i, j | 0 <= i < j < |s[1..]| ensures key(s[1..][i]) != key(s[1..][j]) {
          assert s[1..][i] == s[i + 1] && s[1..][j] == s[j + 1];
        }
      }
      if r[0] == s[0] && Sublist(r[1..], s[1..]) {
        UniqueBySublist(r[1..], s[1..], key);
        SublistMembers(r[1..], s[1..]);
        forall j | 0 < j < |r| ensures key(r[0]) != key(r[j]) {
          assert r[j] == r[1..][j - 1];
          assert r[j] in s[1..];
          var m :| 0 <= m < |s[1..]| && s[1..][m] == r[j];
          assert s[m + 1] == r[j];
        }
      } else {
        UniqueBySublist(r, s[1..], key);
      }
    }
  }

  /** Unique keys mean no element occurs twice. */
  lemma {:induction false} UniqueByCount<T, K>(s: seq<T>, key: T -> K, x: T)
    requires UniqueBy(s, key)
    ensures multiset(s)[x] <= 1
  {
    if s != [] {
      assert s == [s[0]] + s[1..];
      assert UniqueBy(s[1..], key) by {
        forall i, j | 0 <= i < j < |s[1..]| ensures key(s[1..][i]) != key(s[1..][j]) {
          assert s[1..][i] == s[i + 1] && s[1..][j] == s[j + 1];
        }
      }
      UniqueByCount(s[1..], key, x);
      if x == s[0] {
        forall m | 0 <= m < |s[1..]| ensures s[1..][m] != x {
          assert s[1..][m] == s[m + 1];
        }
      }
    }
  }

  /** Reordering keeps keys unique. */
  lemma UniqueByPermutation<T, K>(r: seq<T>, s: seq<T>, key: T -> K)
    requires multiset(r) == multiset(s) && UniqueBy(s, key)
    ensures UniqueBy(r, key)
  {
    forall i, j | 0 <= i < j < |r| ensures key(r[i]) != key(r[j]) {
      if r[i] == r[j] {
        assert r == r[..j] + r[j..];
        assert r[i] == r[..j][i];
        assert r[j] == r[j..][0];
        assert multiset(r)[r[i]] == multiset(r[..j])[r[i]] + multiset(r[j..])[r[i]];
        UniqueByCount(s, key, r[i]);
      } else {
        assert r[i] in multiset(s) && r[j] in multiset(s);
        var k :| 0 <= k < |s| && s[k] == r[i];
        var l :| 0 <= l < |s| && s[l] == r[j];
        assert k != l;
        assert key(s[k]) != key(s[l]);
      }
    }
  }

  /** Appending the same element to both sides keeps a sublist a sublist. */
  lemma {:induction false} SublistSnoc<T>(r: seq<T>, s: seq<T>, x: T)
    requires Sublist(r, s)
    ensures Sublist(r + [x], s + [x])
    decreases |s|
  {
    if s != [] {
      assert (s + [x])[0] == s[0];
      assert (s + [x])[1..] == s[1..] + [x];
    }
    if r == [] {
      if s != [] {
        SublistSnoc(r, s[1..], x);
      }
    } else {
      assert (r + [x])[0] == r[0];
      assert (r + [x])[1..] == r[1..] + [x];
      if r[0] == s[0] && Sublist(r[1..], s[1..]) {
        SublistSnoc(r[1..], s[1..], x);
      } else {
        SublistSnoc(r, s[1..], x);
      }
    }
  }

  /** Keys never increase along the list, in lexicographic order. */
  predicate LexDescending<T>(list: seq<T>, key: T -> string) {
    forall i, j :: 0 <= i < j < |list| ==> LexLe(key(list[j]), key(list[i]))
  }

  /** Reversing an ascending list gives a descending one. */
  lemma ReverseAscending<T>(s: seq<T>, key: T -> string)
    requires LexAscending(s, key)
    ensures LexDescending(Reverse(s), key)
  {
    var r := Reverse(s);
    forall i, j | 0 <= i < j < |r| ensures LexLe(key(r[j]), key(r[i])) {
      assert r[j] == s[|s| - 1 - j] && r[i] == s[|s| - 1 - i];
    }
  }
}
