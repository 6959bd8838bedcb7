/** Character classes and string helpers with JavaScript semantics. */
module Text {

  /** JavaScript's `\s` class (WhiteSpace and LineTerminator), which is also
      the set of characters that `String.prototype.trim` removes. */
  predicate IsSpace(c: char)
  {
    || c == '\t' || c == '\n' || c == '\U{000B}' || c == '\U{000C}' || c == '\r'
    || c == ' ' || c == '\U{00A0}' || c == '\U{1680}'
    || ('\U{2000}' <= c <= '\U{200A}')
    || c == '\U{2028}' || c == '\U{2029}' || c == '\U{202F}' || c == '\U{205F}'
    || c == '\U{3000}' || c == '\U{FEFF}'
  }

  predicate IsDigit(c: char) { '0' <= c <= '9' }

  /** JavaScript's `\w` class (without the `u` flag). */
  predicate IsWordChar(c: char)
  {
    ('a' <= c <= 'z') || ('A' <= c <= 'Z') || IsDigit(c) || c == '_'
  }

  /** The class `[\w.]` used for template paths. */
  predicate IsPathChar(c: char) { IsWordChar(c) || c == '.' }

  /** Length of the longest prefix of `s` made of `\s` characters. */
  function SpaceRun(s: string): (n: nat)
    ensures n <= |s|
  {
    if |s| == 0 || !IsSpace(s[0]) then 0 else 1 + SpaceRun(s[1..])
  }

  /** Length of the longest prefix of `s` made of `[\w.]` characters. */
  function PathRun(s: string): (n: nat)
    ensures n <= |s|
  {
    if |s| == 0 || !IsPathChar(s[0]) then 0 else 1 + PathRun(s[1..])
  }

  /** The characters of `s` from index `k` on agree with those of `pat` from
      index `m` on, for as long as `pat` lasts. */
  predicate SameFrom(s: string, pat: string, k: nat, m: nat)
    decreases |pat| - m
  {
    m >= |pat| || (k < |s| && s[k] == pat[m] && SameFrom(s, pat, k + 1, m + 1))
  }

  /** True when `pat` occurs in `s` starting at index `i`. */
  predicate OccursAt(s: string, pat: string, i: nat)
  {
    i + |pat| <= |s| && SameFrom(s, pat, i, 0)
  }

  lemma {:induction false} SameFromSlice(s: string, pat: string, k: nat, m: nat)
    requires m <= |pat| && k + |pat| - m <= |s|
    ensures SameFrom(s, pat, k, m) <==> s[k..k + |pat| - m] == pat[m..]
    decreases |pat| - m
  {
    if m < |pat| {
      SameFromSlice(s, pat, k + 1, m + 1);
      assert s[k..k + |pat| - m] == [s[k]] + s[k + 1..k + |pat| - m];
      assert pat[m..] == [pat[m]] + pat[m + 1..];
    }
  }

  /** `OccursAt` is equality of the slice of `s` at `i` with `pat`. */
  lemma OccursAtSlice(s: string, pat: string, i: nat)
    ensures OccursAt(s, pat, i) <==> i + |pat| <= |s| && s[i..i + |pat|] == pat
  {
    if i + |pat| <= |s| {
      SameFromSlice(s, pat, i, 0);
    }
  }

  /** `pat` occurs nowhere in `s`. */
  predicate NoOccurrence(s: string, pat: string)
  {
    forall i: nat :: i <= |s| ==> !OccursAt(s, pat, i)
  }

  /** `s` ends with `suffix` (`String.prototype.endsWith`). */
  predicate EndsWith(s: string, suffix: string)
  {
    |suffix| <= |s| && s[|s| - |suffix|..] == suffix
  }

  /** `String.prototype.trimStart`. */
  function TrimStart(s: string): (r: string)
    ensures |r| <= |s| && r == s[|s| - |r|..]
    ensures r == [] || !IsSpace(r[0])
    ensures forall i :: 0 <= i < |s| - |r| ==> IsSpace(s[i])
  {
    if |s| > 0 && IsSpace(s[0]) then TrimStart(s[1..]) else s
  }

  /** `String.prototype.trimEnd`. */
  function TrimEnd(s: string): (r: string)
    ensures |r| <= |s| && r == s[..|r|]
    ensures r == [] || !IsSpace(r[|r| - 1])
    ensures forall i :: |r| <= i < |s| ==> IsSpace(s[i])
  {
    if |s| > 0 && IsSpace(s[|s| - 1]) then TrimEnd(s[..|s| - 1]) else s
  }

  /** `r` is the slice of `s` starting at `i`, with only white space
      before and after it in `s`. */
  predicate SliceInSpace(r: string, s: string, i: nat)
  {
    && i + |r| <= |s| && r == s[i..i + |r|]
    && (forall k :: 0 <= k < i ==> IsSpace(s[k]))
    && (forall k :: i + |r| <= k < |s| ==> IsSpace(s[k]))
  }

  /** `r` is `s` with its leading and trailing white space removed and
      nothing else: a slice of `s` with only white space outside it, and
      with no white space at its own ends. */
  predicate TrimOf(r: string, s: string)
  {
    && (r == [] || (!IsSpace(r[0]) && !IsSpace(r[|r| - 1])))
    && exists i: nat :: i <= |s| && SliceInSpace(r, s, i)
  }

  /** `String.prototype.trim`. */
  function Trim(s: string): (r: string)
    ensures TrimOf(r, s)
  {
    var t := TrimStart(s);
    var r := TrimEnd(t);
    TrimSlice(s, t, r);
    r
  }

  /** What `TrimStart` and then `TrimEnd` leave is `s` trimmed. */
  lemma TrimSlice(s: string, t: string, r: string)
    requires t == TrimStart(s) && r == TrimEnd(t)
    ensures TrimOf(r, s)
  {
    var i := |s| - |t|;
    SuffixSlice(s, t, r, i);
    assert r != [] ==> r[0] == t[0];
    assert SliceInSpace(r, s, i);
  }

  /** The part `TrimEnd` keeps of the suffix `t` of `s` is a slice of `s`
      followed only by white space. */
  lemma SuffixSlice(s: string, t: string, r: string, i: nat)
    requires i + |t| == |s| && t == s[i..]
    requires |r| <= |t| && r == t[..|r|]
    requires forall k :: |r| <= k < |t| ==> IsSpace(t[k])
    ensures r == s[i..i + |r|]
    ensures forall k :: i + |r| <= k < |s| ==> IsSpace(s[k])
  {
    forall k | i + |r| <= k < |s|
      ensures IsSpace(s[k])
    {
      assert s[k] == t[k - i];
    }
  }

  /** Only one text is `s` trimmed, so `TrimOf` characterises `trim`. */
  lemma TrimOfUnique(r: string, s: string)
    requires TrimOf(r, s)
    ensures r == Trim(s)
  {
    var q := Trim(s);
    var i: nat :| i <= |s| && SliceInSpace(r, s, i);
    var j: nat :| j <= |s| && SliceInSpace(q, s, j);
    if r == [] || q == [] {
      AllSpace(r, s, i);
      AllSpace(q, s, j);
    } else {
      SameTrimmedSlice(r, q, s, i, j);
    }
  }

  /** Two slices of `s` that both have only white space outside them and no
      white space at their ends are the same slice. */
  lemma SameTrimmedSlice(r: string, q: string, s: string, i: nat, j: nat)
    requires SliceInSpace(r, s, i) && SliceInSpace(q, s, j)
    requires r != [] && !IsSpace(r[0]) && !IsSpace(r[|r| - 1])
    requires q != [] && !IsSpace(q[0]) && !IsSpace(q[|q| - 1])
    ensures r == q
  {
    assert s[i] == r[0] && s[j] == q[0];
    NotSpaceAfter(s, i, j);
    NotSpaceAfter(s, j, i);
    var e, f := i + |r|, j + |q|;
    assert s[e - 1] == r[|r| - 1] && s[f - 1] == q[|q| - 1];
    NotSpaceBefore(s, f - 1, e);
    NotSpaceBefore(s, e - 1, f);
  }

  /** A character that is not white space lies at or after any all-space prefix. */
  lemma NotSpaceAfter(s: string, i: nat, j: nat)
    requires i < |s| && !IsSpace(s[i]) && j <= |s|
    requires forall k :: 0 <= k < j ==> IsSpace(s[k])
    ensures j <= i
  {
  }

  /** A character that is not white space lies before any all-space suffix. */
  lemma NotSpaceBefore(s: string, i: nat, j: nat)
    requires i < |s| && !IsSpace(s[i])
    requires forall k :: j <= k < |s| ==> IsSpace(s[k])
    ensures i < j
  {
  }

  /** An empty trim result means `s` is all white space, and then it is the
      only trim result. */
  lemma AllSpace(r: string, s: string, i: nat)
    requires SliceInSpace(r, s, i) && (r == [] || (!IsSpace(r[0]) && !IsSpace(r[|r| - 1])))
    ensures r == [] <==> forall k :: 0 <= k < |s| ==> IsSpace(s[k])
  {
    if r != [] {
      assert s[i] == r[0];
    }
  }

  /** Non-empty text that neither starts nor ends with white space: what a
      non-empty `trim` result is. */
  predicate Trimmed(s: string)
  {
    |s| > 0 && !IsSpace(s[0]) && !IsSpace(s[|s| - 1])
  }

  /** `s.split(sep)` for a one-character separator. */
  function Split(s: string, sep: char): (parts: seq<string>)
    ensures |parts| >= 1
  {
    if |s| == 0 then [""]
    else if s[0] == sep then [""] + Split(s[1..], sep)
    else
      var rest := Split(s[1..], sep);
      [[s[0]] + rest[0]] + rest[1..]
  }

  /** `parts.join(sep)` for a one-character separator. */
  function JoinWith(parts: seq<string>, sep: char): string
  {
    if |parts| == 0 then ""
    else if |parts| == 1 then parts[0]
    else parts[0] + [sep] + JoinWith(parts[1..], sep)
  }

  /** `parts.join('')`. */
  function Concat(parts: seq<string>): string
  {
    if |parts| == 0 then "" else parts[0] + Concat(parts[1..])
  }

  /** Splitting and joining again with the same separator gives back the string. */
  lemma {:induction false} SplitJoin(s: string, sep: char)
    ensures JoinWith(Split(s, sep), sep) == s
  {
    if |s| == 0 {
    } else if s[0] == sep {
      SplitJoin(s[1..], sep);
      var rest := Split(s[1..], sep);
      assert Split(s, sep) == [""] + rest;
      assert ([""] + rest)[1..] == rest;
    } else {
      SplitJoin(s[1..], sep);
      var rest := Split(s[1..], sep);
      var parts := [[s[0]] + rest[0]] + rest[1..];
      assert Split(s, sep) == parts;
      if |rest| == 1 {
        assert JoinWith(parts, sep) == [s[0]] + rest[0];
      } else {
        assert parts[1..] == rest[1..];
        assert JoinWith(rest, sep) == rest[0] + [sep] + JoinWith(rest[1..], sep);
      }
    }
  }

  /** Splitting `a + [sep] + b` splits `a` and `b` separately. */
  lemma {:induction false} SplitAround(a: string, sep: char, b: string)
    ensures Split(a + [sep] + b, sep) == Split(a, sep) + Split(b, sep)
  {
    if |a| == 0 {
      assert a + [sep] + b == [sep] + b;
      SplitCons(sep, b, sep);
    } else {
      var t := a[1..] + [sep] + b;
      SplitAround(a[1..], sep, b);
      SplitConsShared(a[0], t, a[1..], sep, Split(b, sep));
      assert a + [sep] + b == [a[0]] + t;
      assert a == [a[0]] + a[1..];
    }
  }

  /** Putting the same character in front of two strings whose parts agree
      up to a common tail keeps them agreeing. */
  lemma SplitConsShared(c: char, x: string, y: string, sep: char, tail: seq<string>)
    requires Split(x, sep) == Split(y, sep) + tail
    ensures Split([c] + x, sep) == Split([c] + y, sep) + tail
  {
    SplitCons(c, x, sep);
    SplitCons(c, y, sep);
    if c != sep {
      FirstPartAppend(c, Split(y, sep), tail);
    }
  }

  /** Extending the first part of `p + tail` extends the first part of `p`. */
  lemma FirstPartAppend(c: char, p: seq<string>, tail: seq<string>)
    requires |p| >= 1
    ensures [[c] + (p + tail)[0]] + (p + tail)[1..] == [[c] + p[0]] + p[1..] + tail
  {
    assert (p + tail)[0] == p[0];
    assert (p + tail)[1..] == p[1..] + tail;
  }

  /** Text without the separator splits into itself. */
  lemma {:induction false} SplitNoSeparator(s: string, sep: char)
    requires forall k :: 0 <= k < |s| ==> s[k] != sep
    ensures Split(s, sep) == [s]
  {
    if |s| > 0 {
      SplitNoSeparator(s[1..], sep);
      assert [s[0]] + s[1..] == s;
    }
  }

  /** One unfolding of `Split` on a string that starts with `c`. */
  lemma SplitCons(c: char, t: string, sep: char)
    ensures c == sep ==> Split([c] + t, sep) == [""] + Split(t, sep)
    ensures c != sep ==> Split([c] + t, sep) == [[c] + Split(t, sep)[0]] + Split(t, sep)[1..]
  {
    assert ([c] + t)[1..] == t;
  }

  /** Concatenation of the pieces of `xs + ys`. */
  lemma {:induction false} ConcatAppend(xs: seq<string>, ys: seq<string>)
    ensures Concat(xs + ys) == Concat(xs) + Concat(ys)
  {
    if |xs| == 0 {
      assert xs + ys == ys;
    } else {
      ConcatAppend(xs[1..], ys);
      assert (xs + ys)[1..] == xs[1..] + ys;
    }
  }

  /** ASCII lower-casing (`String.prototype.toLowerCase` on ASCII text). */
  function LowerChar(c: char): (d: char)
    ensures 'A' <= c <= 'Z' ==> 'a' <= d <= 'z'
    ensures !('A' <= c <= 'Z') ==> d == c
  {
    if 'A' <= c <= 'Z' then (c as int + 32) as char else c
  }

  function Lower(s: string): (r: string)
    ensures |r| == |s|
    ensures forall i :: 0 <= i < |s| ==> r[i] == LowerChar(s[i])
  {
    if |s| == 0 then "" else [LowerChar(s[0])] + Lower(s[1..])
  }

  // ---------------- decimal numerals ----------------

  function DigitChar(d: nat): (c: char)
    requires d < 10
    ensures IsDigit(c)
  {
    "0123456789"[d]
  }

  function DigitValue(c: char): (d: nat)
    requires IsDigit(c)
    ensures d < 10 && DigitChar(d) == c
  {
    c as int - '0' as int
  }

  /** The decimal numeral of `n`, as `String(n)` writes it. */
  function NatToDecimal(n: nat): (s: string)
    ensures |s| >= 1
    ensures forall i :: 0 <= i < |s| ==> IsDigit(s[i])
    ensures s[0] == '0' ==> n == 0
  {
    if n < 10 then [DigitChar(n)] else NatToDecimal(n / 10) + [DigitChar(n % 10)]
  }

  /** `String(i)` for an integer number. */
  function IntToDecimal(i: int): (s: string)
    ensures |s| >= 1
  {
    if i < 0 then "-" + NatToDecimal(-i) else NatToDecimal(i)
  }

  /** The value of a run of decimal digits. */
  function DigitsValue(s: string): (n: nat)
    requires forall i :: 0 <= i < |s| ==> IsDigit(s[i])
  {
    if |s| == 0 then 0 else DigitsValue(s[..|s| - 1]) * 10 + DigitValue(s[|s| - 1])
  }

  /** Reading back the numeral written by `NatToDecimal` gives the number. */
  lemma {:induction false} NatToDecimalRoundTrip(n: nat)
    ensures DigitsValue(NatToDecimal(n)) == n
  {
    if n >= 10 {
      NatToDecimalRoundTrip(n / 10);
      var s := NatToDecimal(n);
      assert s[..|s| - 1] == NatToDecimal(n / 10);
    }
  }
}
