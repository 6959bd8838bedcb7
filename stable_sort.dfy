/** `Array.prototype.sort` with a comparator `(a, b) => key(a) - key(b)`:
    a stable sort by a numeric key. With keys that are never NaN the
    comparator is consistent, so the sorted result is unique: the one
    insertion sort builds. */
module StableSort {
  import opened Numbers

  /** No key is NaN: the comparator is then a total order. */
  predicate KeysDefined<T>(s: seq<T>, key: T -> Number)
  {
    forall i :: 0 <= i < |s| ==> !key(s[i]).NaN?
  }

  /** Ascending by key; equal keys in any order. */
  predicate SortedBy<T>(s: seq<T>, key: T -> Number)
  {
    forall i, j :: 0 <= i < j < |s| ==> !Less(key(s[j]), key(s[i]))
  }

  /** Inserts `x` after every element whose key is not above its own. */
  function Insert<T>(x: T, s: seq<T>, key: T -> Number): (r: seq<T>)
    ensures |r| == |s| + 1
  {
    if |s| == 0 then [x]
    else if Less(key(x), key(s[0])) then [x] + s
    else [s[0]] + Insert(x, s[1..], key)
  }

  /** The stable sort: each element in turn inserted into the sorted
      elements before it. */
  function SortBy<T>(xs: seq<T>, key: T -> Number): (r: seq<T>)
    ensures |r| == |xs|
  {
    if |xs| == 0 then [] else Insert(xs[|xs| - 1], SortBy(xs[..|xs| - 1], key), key)
  }

  /** The elements of `s` whose key is `k`, in order. */
  function WithKey<T>(s: seq<T>, key: T -> Number, k: Number): seq<T>
  {
    if |s| == 0 then [] else (if key(s[0]) == k then [s[0]] else []) + WithKey(s[1..], key, k)
  }

  // ---------------- the order on defined keys ----------------

  lemma LessTransitive(x: Number, y: Number, z: Number)
    requires Less(x, y) && Less(y, z)
    ensures Less(x, z)
  {
  }

  /** On numbers that are not NaN, `!Less` is a total order. */
  lemma NotLessTransitive(x: Number, y: Number, z: Number)
    requires !x.NaN? && !y.NaN? && !z.NaN?
    requires !Less(y, x) && !Less(z, y)
    ensures !Less(z, x)
  {
  }

  lemma NotLessEither(x: Number, y: Number)
    requires !x.NaN? && !y.NaN? && !Less(x, y) && !Less(y, x)
    ensures x == y
  {
  }

  // ---------------- insertion ----------------

  lemma {:induction false} InsertMultiset<T>(x: T, s: seq<T>, key: T -> Number)
    ensures multiset(Insert(x, s, key)) == multiset(s) + multiset{x}
    decreases |s|
  {
    if |s| > 0 && !Less(key(x), key(s[0])) {
      InsertMultiset(x, s[1..], key);
      assert s == [s[0]] + s[1..];
    }
  }

  lemma {:induction false} InsertSorted<T>(x: T, s: seq<T>, key: T -> Number)
    requires SortedBy(s, key) && KeysDefined(s, key) && !key(x).NaN?
    ensures SortedBy(Insert(x, s, key), key)
    decreases |s|
  {
    if |s| > 0 && !Less(key(x), key(s[0])) {
      InsertSorted(x, s[1..], key);
      var r := Insert(x, s[1..], key);
      InsertMultiset(x, s[1..], key);
      forall j | 0 < j < |r| + 1 ensures !Less(key(([s[0]] + r)[j]), key(s[0])) {
        var e := r[j - 1];
        assert e in multiset(r);
        assert e == x || e in multiset(s[1..]);
        if e != x {
          var k :| 0 <= k < |s[1..]| && s[1..][k] == e;
          assert s[k + 1] == e;
        }
      }
    }
  }

  /** Where `x` lands: after every element whose key is not above its own,
      before the first one whose key is. */
  lemma {:induction false} InsertAt<T>(x: T, s: seq<T>, key: T -> Number, j: nat)
    requires j <= |s|
    requires forall k :: 0 <= k < j ==> !Less(key(x), key(s[k]))
    requires j < |s| ==> Less(key(x), key(s[j]))
    ensures Insert(x, s, key) == s[..j] + [x] + s[j..]
    decreases j
  {
    if j > 0 {
      InsertAt(x, s[1..], key, j - 1);
      assert s[..j] == [s[0]] + s[1..][..j - 1];
    }
  }

  lemma {:induction false} InsertWithKey<T>(x: T, s: seq<T>, key: T -> Number, k: Number)
    requires SortedBy(s, key) && KeysDefined(s, key) && !key(x).NaN?
    ensures WithKey(Insert(x, s, key), key, k) == WithKey(s, key, k) + (if key(x) == k then [x] else [])
    decreases |s|
  {
    var e := if key(x) == k then [x] else [];
    if |s| == 0 {
      WithKeyCons(x, [], key, k);
      assert [x] + [] == [x];
    } else if Less(key(x), key(s[0])) {
      WithKeyCons(x, s, key, k);
      if key(x) == k {
        AboveKeyNone(s, key, k);
      }
    } else {
      var r := Insert(x, s[1..], key);
      assert Insert(x, s, key) == [s[0]] + r;
      InsertWithKey(x, s[1..], key, k);
      WithKeyCons(s[0], r, key, k);
      WithKeyCons(s[0], s[1..], key, k);
      assert [s[0]] + s[1..] == s;
      var h, a := if key(s[0]) == k then [s[0]] else [], WithKey(s[1..], key, k);
      assert h + (a + e) == (h + a) + e;
    }
  }

  /** One unfolding of `WithKey`. */
  lemma WithKeyCons<T>(y: T, r: seq<T>, key: T -> Number, k: Number)
    ensures WithKey([y] + r, key, k) == (if key(y) == k then [y] else []) + WithKey(r, key, k)
  {
    assert ([y] + r)[0] == y && ([y] + r)[1..] == r;
  }

  /** In a sorted sequence that starts above `k`, no key is `k`. */
  lemma {:induction false} AboveKeyNone<T>(s: seq<T>, key: T -> Number, k: Number)
    requires SortedBy(s, key) && KeysDefined(s, key) && |s| > 0 && Less(k, key(s[0]))
    ensures WithKey(s, key, k) == []
    decreases |s|
  {
    if |s| > 1 {
      assert !Less(key(s[1]), key(s[0]));
      assert Less(k, key(s[1])) by {
        if key(s[1]) != key(s[0]) {
          assert Less(key(s[0]), key(s[1]));
        }
      }
      AboveKeyNone(s[1..], key, k);
    }
  }

  lemma {:induction false} WithKeyAppend<T>(s: seq<T>, t: seq<T>, key: T -> Number, k: Number)
    ensures WithKey(s + t, key, k) == WithKey(s, key, k) + WithKey(t, key, k)
    decreases |s|
  {
    if |s| == 0 {
      assert s + t == t;
    } else {
      WithKeyAppend(s[1..], t, key, k);
      var h := if key(s[0]) == k then [s[0]] else [];
      var a, b := WithKey(s[1..], key, k), WithKey(t, key, k);
      assert (s + t)[0] == s[0] && (s + t)[1..] == s[1..] + t;
      assert WithKey(s + t, key, k) == h + (a + b);
      assert h + (a + b) == (h + a) + b;
    }
  }

  // ---------------- the sort ----------------

  /** The result is ascending by key. */
  lemma {:induction false} SortBySorted<T>(xs: seq<T>, key: T -> Number)
    requires KeysDefined(xs, key)
    ensures SortedBy(SortBy(xs, key), key) && KeysDefined(SortBy(xs, key), key)
    decreases |xs|
  {
    if |xs| > 0 {
      var init := xs[..|xs| - 1];
      SortBySorted(init, key);
      SortByMultiset(xs, key);
      InsertSorted(xs[|xs| - 1], SortBy(init, key), key);
      forall i | 0 <= i < |SortBy(xs, key)| ensures !key(SortBy(xs, key)[i]).NaN? {
        var e := SortBy(xs, key)[i];
        assert e in multiset(xs);
      }
    }
  }

  /** The result is a permutation of the input. */
  lemma {:induction false} SortByMultiset<T>(xs: seq<T>, key: T -> Number)
    ensures multiset(SortBy(xs, key)) == multiset(xs)
    decreases |xs|
  {
    if |xs| > 0 {
      var init := xs[..|xs| - 1];
      SortByMultiset(init, key);
      InsertMultiset(xs[|xs| - 1], SortBy(init, key), key);
      assert xs == init + [xs[|xs| - 1]];
    }
  }

  /** Stability: the elements that share a key keep their input order. */
  lemma {:induction false} SortByStable<T>(xs: seq<T>, key: T -> Number, k: Number)
    requires KeysDefined(xs, key)
    ensures WithKey(SortBy(xs, key), key, k) == WithKey(xs, key, k)
    decreases |xs|
  {
    if |xs| > 0 {
      var init := xs[..|xs| - 1];
      var x := xs[|xs| - 1];
      SortByStable(init, key, k);
      SortBySorted(init, key);
      InsertWithKey(x, SortBy(init, key), key, k);
      assert xs == init + [x];
      WithKeyAppend(init, [x], key, k);
    }
  }

  /** An input that is already in order (for instance one whose keys are
      all equal) comes back unchanged. */
  lemma {:induction false} SortBySortedInput<T>(xs: seq<T>, key: T -> Number)
    requires SortedBy(xs, key)
    ensures SortBy(xs, key) == xs
    decreases |xs|
  {
    if |xs| > 0 {
      var init := xs[..|xs| - 1];
      SortBySortedInput(init, key);
      InsertAt(xs[|xs| - 1], init, key, |init|);
      assert init[..|init|] + [xs[|xs| - 1]] + init[|init|..] == xs;
    }
  }

  // ---------------- in place ----------------

  /** `arr.sort((a, b) => key(a) - key(b))` on an array of rows with
      defined keys: insertion sort in place. */
  method SortInPlace<T>(a: array<T>, key: T -> Number)
    requires KeysDefined(a[..], key)
    modifies a
    ensures a[..] == SortBy(old(a[..]), key)
  {
    ghost var input := a[..];
    var i := 0;
    while i < a.Length
      invariant 0 <= i <= a.Length
      invariant a[..i] == SortBy(input[..i], key)
      invariant a[i..] == input[i..]
    {
      InsertNext(a, i, key, input);
      i := i + 1;
    }
    assert input[..a.Length] == input;
  }

  /** One step of insertion sort: `a[i]` moves into the sorted `a[..i]`. */
  method InsertNext<T>(a: array<T>, i: nat, key: T -> Number, ghost input: seq<T>)
    requires i < a.Length == |input| && KeysDefined(input, key)
    requires a[..i] == SortBy(input[..i], key) && a[i..] == input[i..]
    modifies a
    ensures a[..i + 1] == SortBy(input[..i + 1], key) && a[i + 1..] == input[i + 1..]
  {
    ghost var prefix := a[..i];
    var x := a[i];
    assert x == input[i];
    var j := ShiftAbove(a, i, x, key, prefix);
    ghost var before := a[..];
    a[j] := x;
    StoreInGap(before, a[..], input, prefix, x, key, i, j);
  }

  /** Storing `x` into the gap the shift left gives the sorted prefix one
      element longer, and leaves the unsorted rest alone. */
  lemma StoreInGap<T>(before: seq<T>, after: seq<T>, input: seq<T>, prefix: seq<T>, x: T, key: T -> Number, i: nat, j: nat)
    requires i < |input| == |before| && KeysDefined(input, key) && x == input[i]
    requires prefix == SortBy(input[..i], key) && j <= i
    requires before[..j] == prefix[..j] && before[j + 1..i + 1] == prefix[j..]
    requires before[i + 1..] == input[i + 1..]
    requires forall k :: j <= k < i ==> Less(key(x), key(prefix[k]))
    requires j > 0 ==> !Less(key(x), key(prefix[j - 1]))
    requires after == before[j := x]
    ensures after[..i + 1] == SortBy(input[..i + 1], key) && after[i + 1..] == input[i + 1..]
  {
    assert KeysDefined(input[..i], key);
    SortBySorted(input[..i], key);
    assert after[..j] == before[..j];
    assert after[j + 1..i + 1] == before[j + 1..i + 1];
    assert after[i + 1..] == before[i + 1..];
    Inserted(after, prefix, x, key, i, j);
    assert input[..i + 1][..i] == input[..i];
  }

  /** The elements of the sorted `a[..i]` whose key is above `key(x)` move
      one place to the right; `j` is the gap left before them. */
  method ShiftAbove<T>(a: array<T>, i: nat, x: T, key: T -> Number, ghost prefix: seq<T>) returns (j: nat)
    requires i < a.Length && a[..i] == prefix
    modifies a
    ensures j <= i
    ensures a[..j] == prefix[..j] && a[j + 1..i + 1] == prefix[j..]
    ensures a[i + 1..] == old(a[i + 1..])
    ensures forall k :: j <= k < i ==> Less(key(x), key(prefix[k]))
    ensures j > 0 ==> !Less(key(x), key(prefix[j - 1]))
  {
    j := i;
    while j > 0 && Less(key(x), key(a[j - 1]))
      invariant 0 <= j <= i
      invariant a[..j] == prefix[..j]
      invariant a[j + 1..i + 1] == prefix[j..]
      invariant a[i + 1..] == old(a[i + 1..])
      invariant forall k :: j <= k < i ==> Less(key(x), key(prefix[k]))
    {
      a[j] := a[j - 1];
      j := j - 1;
    }
  }

  /** In a sorted sequence, an element not above `x` has only elements not
      above `x` before it. */
  lemma NotBelowGap<T>(s: seq<T>, x: T, key: T -> Number, j: nat)
    requires SortedBy(s, key) && KeysDefined(s, key) && !key(x).NaN? && j <= |s|
    requires j > 0 ==> !Less(key(x), key(s[j - 1]))
    ensures forall k :: 0 <= k < j ==> !Less(key(x), key(s[k]))
  {
    forall k | 0 <= k < j ensures !Less(key(x), key(s[k])) {
      NotLessTransitive(key(s[k]), key(s[j - 1]), key(x));
    }
  }

  /** The array after the shift and the store holds `x` inserted into the
      sorted prefix. */
  lemma Inserted<T>(b: seq<T>, prefix: seq<T>, x: T, key: T -> Number, i: nat, j: nat)
    requires SortedBy(prefix, key) && KeysDefined(prefix, key) && !key(x).NaN?
    requires j <= i == |prefix| && i < |b|
    requires b[..j] == prefix[..j] && b[j] == x && b[j + 1..i + 1] == prefix[j..]
    requires forall k :: j <= k < i ==> Less(key(x), key(prefix[k]))
    requires j > 0 ==> !Less(key(x), key(prefix[j - 1]))
    ensures b[..i + 1] == Insert(x, prefix, key)
  {
    NotBelowGap(prefix, x, key, j);
    InsertAt(x, prefix, key, j);
    Spliced(b, prefix, x, i, j);
  }

  lemma Spliced<T>(b: seq<T>, p: seq<T>, x: T, i: nat, j: nat)
    requires j <= i == |p| && i < |b|
    requires b[..j] == p[..j] && b[j] == x && b[j + 1..i + 1] == p[j..]
    ensures b[..i + 1] == p[..j] + [x] + p[j..]
  {
    assert b[..i + 1] == b[..j] + [b[j]] + b[j + 1..i + 1];
  }
}
