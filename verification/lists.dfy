/** The JavaScript array operations the admin app uses on its lists:
    `filter`, `findIndex`/`find`, `splice(i, 1)`, `reduce` to a sum, and the
    stable `sort` with a comparator. */
module Lists {
  import opened Wrappers

  /** `s.filter(p)`: the elements satisfying `p`, in their original order. */
  function Filter<T>(s: seq<T>, p: T -> bool): (r: seq<T>)
    ensures |r| <= |s|
    ensures forall x :: x in r ==> x in s && p(x)
  {
    if s == [] then [] else (if p(s[0]) then [s[0]] else []) + Filter(s[1..], p)
  }

  /** An element is kept by `filter` exactly when it is in the list and
      satisfies the predicate. */
  lemma {:induction false} FilterMembership<T>(s: seq<T>, p: T -> bool, x: T)
    ensures x in Filter(s, p) <==> x in s && p(x)
  {
    if s != [] {
      FilterMembership(s[1..], p, x);
      assert x in s ==> x == s[0] || x in s[1..];
    }
  }

  /** `filter` of a concatenation is the concatenation of the filters: the
      kept elements keep their relative order. */
  lemma {:induction false} FilterConcat<T>(s: seq<T>, t: seq<T>, p: T -> bool)
    ensures Filter(s + t, p) == Filter(s, p) + Filter(t, p)
  {
    if s == [] {
      assert s + t == t;
    } else {
      var head := if p(s[0]) then [s[0]] else [];
      calc {
        Filter(s + t, p);
        { assert (s + t)[0] == s[0]; assert (s + t)[1..] == s[1..] + t; }
        head + Filter(s[1..] + t, p);
        { FilterConcat(s[1..], t, p); }
        head + (Filter(s[1..], p) + Filter(t, p));
        (head + Filter(s[1..], p)) + Filter(t, p);
      }
    }
  }

  /** A predicate every element satisfies keeps the whole list. */
  lemma {:induction false} FilterAll<T>(s: seq<T>, p: T -> bool)
    requires forall i :: 0 <= i < |s| ==> p(s[i])
    ensures Filter(s, p) == s
  {
    if s != [] {
      FilterAll(s[1..], p);
    }
  }

  /** A predicate no element satisfies keeps nothing. */
  lemma {:induction false} FilterNone<T>(s: seq<T>, p: T -> bool)
    requires forall i :: 0 <= i < |s| ==> !p(s[i])
    ensures Filter(s, p) == []
  {
    if s != [] {
      FilterNone(s[1..], p);
    }
  }

  /** No element occurs twice. */
  predicate Distinct<T(==)>(s: seq<T>) {
    forall i, j :: 0 <= i < j < |s| ==> s[i] != s[j]
  }

  /** Filtering a list without repeats gives a list without repeats. */
  lemma {:induction false} FilterDistinct<T>(s: seq<T>, p: T -> bool)
    requires Distinct(s)
    ensures Distinct(Filter(s, p))
  {
    if s != [] {
      assert Distinct(s[1..]) by {
        forall i, j | 0 <= i < j < |s[1..]| ensures s[1..][i] != s[1..][j] {
          assert s[1..][i] == s[i + 1] && s[1..][j] == s[j + 1];
        }
      }
      FilterDistinct(s[1..], p);
      var rest := Filter(s[1..], p);
      if p(s[0]) {
        assert s[0] !in s[1..];
        assert s[0] !in rest;
        var r := [s[0]] + rest;
        forall i, j | 0 <= i < j < |r| ensures r[i] != r[j] {
          assert r[j] == rest[j - 1];
          if i == 0 {
            assert rest[j - 1] in rest;
          } else {
            assert r[i] == rest[i - 1];
          }
        }
      }
    }
  }

  /** `s.findIndex(p)`: the first position whose element satisfies `p`, or -1
      when there is none. */
  function FirstIndex<T>(s: seq<T>, p: T -> bool): (r: int)
    ensures -1 <= r < |s|
    ensures r == -1 <==> forall i :: 0 <= i < |s| ==> !p(s[i])
    ensures r >= 0 ==> p(s[r]) && forall i :: 0 <= i < r ==> !p(s[i])
  {
    if s == [] then -1
    else if p(s[0]) then 0
    else
      var k := FirstIndex(s[1..], p);
      if k == -1 then -1 else k + 1
  }

  /** `s.find(p)`: the first element satisfying `p`, or nothing. */
  function Find<T>(s: seq<T>, p: T -> bool): (r: Option<T>)
    ensures r.None? <==> forall i :: 0 <= i < |s| ==> !p(s[i])
    ensures r.Some? ==> exists i :: 0 <= i < |s| && s[i] == r.value && p(s[i]) && FirstIndex(s, p) == i
  {
    var k := FirstIndex(s, p);
    if k == -1 then None else Some(s[k])
  }

  /** `s.splice(i, 1)`: the list without its element at position `i`, the
      others in order. */
  function RemoveAt<T>(s: seq<T>, i: nat): (r: seq<T>)
    requires i < |s|
    ensures |r| == |s| - 1
    ensures forall j :: 0 <= j < i ==> r[j] == s[j]
    ensures forall j :: i <= j < |r| ==> r[j] == s[j + 1]
  {
    s[..i] + s[i + 1..]
  }

  /** `s.reduce((sum, x) => sum + f(x), 0)`. */
  function Sum<T>(s: seq<T>, f: T -> int): int {
    if s == [] then 0 else f(s[0]) + Sum(s[1..], f)
  }

  /** A sum of non-negative terms is non-negative, and at least each term. */
  lemma {:induction false} SumNonNegative<T>(s: seq<T>, f: T -> int)
    requires forall i :: 0 <= i < |s| ==> f(s[i]) >= 0
    ensures Sum(s, f) >= 0
    ensures forall i :: 0 <= i < |s| ==> f(s[i]) <= Sum(s, f)
  {
    if s != [] {
      SumNonNegative(s[1..], f);
      assert forall i :: 1 <= i < |s| ==> s[i] == s[1..][i - 1];
    }
  }

  /** `s` is ordered from the largest key to the smallest. */
  predicate SortedDesc<T>(s: seq<T>, key: T -> int) {
    forall i, j :: 0 <= i < j < |s| ==> key(s[i]) >= key(s[j])
  }

  /** Puts `x` in front of the first element whose key is not larger than its
      own. */
  function InsertDesc<T>(x: T, s: seq<T>, key: T -> int): (r: seq<T>)
    ensures |r| == |s| + 1
    ensures multiset(r) == multiset(s) + multiset{x}
  {
    if s == [] || key(s[0]) <= key(x) then [x] + s
    else
      assert s == [s[0]] + s[1..];
      [s[0]] + InsertDesc(x, s[1..], key)
  }

  /** `s.sort((a, b) => key(b) - key(a))` with ECMAScript's stable sort. */
  function SortDesc<T>(s: seq<T>, key: T -> int): (r: seq<T>)
    ensures |r| == |s|
  {
    if s == [] then [] else InsertDesc(s[0], SortDesc(s[1..], key), key)
  }

  lemma {:induction false} InsertDescSorted<T>(x: T, s: seq<T>, key: T -> int)
    requires SortedDesc(s, key)
    ensures SortedDesc(InsertDesc(x, s, key), key)
  {
    if s != [] && key(s[0]) > key(x) {
      InsertDescSorted(x, s[1..], key);
      var rest := InsertDesc(x, s[1..], key);
      var r := [s[0]] + rest;
      forall i, j | 0 <= i < j < |r| ensures key(r[i]) >= key(r[j]) {
        if i == 0 {
          var y := rest[j - 1];
          assert y in multiset(rest);
          if y != x {
            assert y in s[1..];
            var m :| 0 <= m < |s[1..]| && s[1..][m] == y;
            assert s[m + 1] == y;
          }
        } else {
          assert r[i] == rest[i - 1] && r[j] == rest[j - 1];
        }
      }
    }
  }

  /** The sorted list runs from the newest key to the oldest. */
  lemma {:induction false} SortDescSorted<T>(s: seq<T>, key: T -> int)
    ensures SortedDesc(SortDesc(s, key), key)
  {
    if s != [] {
      SortDescSorted(s[1..], key);
      InsertDescSorted(s[0], SortDesc(s[1..], key), key);
    }
  }

  /** The sorted list is a permutation of the original. */
  lemma {:induction false} SortDescPermutation<T>(s: seq<T>, key: T -> int)
    ensures multiset(SortDesc(s, key)) == multiset(s)
  {
    if s != [] {
      SortDescPermutation(s[1..], key);
      assert s == [s[0]] + s[1..];
    }
  }

  /** The elements whose key is `k`. */
  function KeyIs<T>(key: T -> int, k: int): T -> bool {
    y => key(y) == k
  }

  lemma {:induction false} InsertDescStable<T>(x: T, s: seq<T>, key: T -> int, k: int)
    ensures Filter(InsertDesc(x, s, key), KeyIs(key, k))
         == (if key(x) == k then [x] else []) + Filter(s, KeyIs(key, k))
  {
    var eq := KeyIs(key, k);
    var mid := if key(x) == k then [x] else [];
    if s == [] || key(s[0]) <= key(x) {
      assert InsertDesc(x, s, key) == [x] + s;
      assert ([x] + s)[1..] == s;
      assert Filter([x] + s, eq) == mid + Filter(s, eq);
    } else {
      InsertDescStable(x, s[1..], key, k);
      var rest := InsertDesc(x, s[1..], key);
      var head := if eq(s[0]) then [s[0]] else [];
      assert ([s[0]] + rest)[1..] == rest;
      assert Filter(s, eq) == head + Filter(s[1..], eq);
      assert Filter([s[0]] + rest, eq) == head + (mid + Filter(s[1..], eq));
      assert InsertDesc(x, s, key) == [s[0]] + rest;
      // `s[0]` has a larger key than `x`, so at most one of them is kept.
      if key(x) == k {
        assert head == [];
        assert head + (mid + Filter(s[1..], eq)) == mid + Filter(s[1..], eq);
      } else {
        assert mid == [];
        assert mid + Filter(s[1..], eq) == Filter(s[1..], eq);
      }
    }
  }

  /** The sort is stable: the elements sharing any one key appear in the
      sorted list in their original order. */
  lemma {:induction false} SortDescStable<T>(s: seq<T>, key: T -> int, k: int)
    ensures Filter(SortDesc(s, key), KeyIs(key, k)) == Filter(s, KeyIs(key, k))
  {
    if s != [] {
      SortDescStable(s[1..], key, k);
      InsertDescStable(s[0], SortDesc(s[1..], key), key, k);
    }
  }

  /** When every element has the same key the stable sort changes nothing. */
  lemma SortDescSameKey<T>(s: seq<T>, key: T -> int, k: int)
    requires forall i :: 0 <= i < |s| ==> key(s[i]) == k
    ensures SortDesc(s, key) == s
  {
    var r := SortDesc(s, key);
    SortDescPermutation(s, key);
    SortDescStable(s, key, k);
    forall i | 0 <= i < |r| ensures KeyIs(key, k)(r[i]) {
      assert r[i] in multiset(s);
    }
    FilterAll(s, KeyIs(key, k));
    FilterAll(r, KeyIs(key, k));
  }

  /** Past a head that does not match, the first match and its removal
      shift by one. */
  lemma RemoveFirstPastHead<T>(s: seq<T>, p: T -> bool)
    requires s != [] && !p(s[0]) && FirstIndex(s[1..], p) >= 0
    ensures FirstIndex(s, p) == FirstIndex(s[1..], p) + 1
    ensures RemoveAt(s, FirstIndex(s, p)) == [s[0]] + RemoveAt(s[1..], FirstIndex(s[1..], p))
  {
    var k := FirstIndex(s[1..], p);
    var r, t := RemoveAt(s, k + 1), RemoveAt(s[1..], k);
    forall i | 0 <= i < |r| ensures r[i] == ([s[0]] + t)[i] {
      if i > 0 {
        assert ([s[0]] + t)[i] == t[i - 1];
      }
    }
  }

  /** Removing an element that does not satisfy `p` leaves the first
      element satisfying `p` in place, one position earlier when it came
      after the removed one. */
  lemma FirstIndexAfterRemoveAt<T>(s: seq<T>, k: nat, p: T -> bool)
    requires k < |s| && !p(s[k])
    ensures var j := FirstIndex(s, p);
            FirstIndex(RemoveAt(s, k), p) == (if j == -1 then -1 else if j < k then j else j - 1)
  {
    var r, j := RemoveAt(s, k), FirstIndex(s, p);
    if j == -1 {
      assert forall i :: 0 <= i < |r| ==> !p(r[i]) by {
        forall i | 0 <= i < |r| ensures !p(r[i]) {
          if i >= k { assert r[i] == s[i + 1]; }
        }
      }
    } else if j < k {
      assert r[j] == s[j];
      assert forall i :: 0 <= i < j ==> r[i] == s[i];
    } else {
      assert r[j - 1] == s[j];
      forall i | 0 <= i < j - 1 ensures !p(r[i]) {
        if i >= k { assert r[i] == s[i + 1]; }
      }
    }
  }
}
