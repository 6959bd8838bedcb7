/** Properties of the template renderer: depth-correct loop matching, what
    the loop and conditional passes leave behind, passthrough of text without
    directives, and the shape of one loop expansion. */
module TemplateProperties {
  import opened Wrappers
  import opened Text
  import opened Json
  import opened TemplateEngine

  // ---------------- loop matching ----------------

  /** Scanning at a greater depth runs through the same tokens: the close
      that would end the scan at depth `e` only lowers depth `e + d` to `d`,
      and the scan goes on from there. */
  lemma {:induction false} MatchingCloseDeeper(s: string, i: nat, e: nat, d: nat, k: nat)
    requires i <= |s| && e >= 1 && d >= 1
    requires MatchingClose(s, i, e) == Some(k)
    ensures k + |EachClose| <= |s|
    ensures MatchingClose(s, k + |EachClose|, d) == MatchingClose(s, i, e + d)
    decreases |s| - i, 1
  {
    assert i < |s|;
    match TokAt(s, i)
    case OpenTok(_, _) => DeeperPastOpen(s, i, e, d, k);
    case CloseTok => DeeperPastClose(s, i, e, d, k);
    case Plain => DeeperPastPlain(s, i, e, d, k);
  }

  /** `MatchingCloseDeeper` at an opening directive: both scans go one
      level deeper. */
  lemma {:induction false} DeeperPastOpen(s: string, i: nat, e: nat, d: nat, k: nat)
    requires i < |s| && e >= 1 && d >= 1 && TokAt(s, i).OpenTok?
    requires MatchingClose(s, i, e) == Some(k)
    ensures k + |EachClose| <= |s|
    ensures MatchingClose(s, k + |EachClose|, d) == MatchingClose(s, i, e + d)
    decreases |s| - i, 0
  {
    MatchingCloseDeeper(s, i + TokAt(s, i).len, e + 1, d, k);
  }

  /** `MatchingCloseDeeper` at a `{{/each}}`: the scan at depth 1 stops
      there, and deeper scans go one level up. */
  lemma {:induction false} DeeperPastClose(s: string, i: nat, e: nat, d: nat, k: nat)
    requires i < |s| && e >= 1 && d >= 1 && TokAt(s, i).CloseTok?
    requires MatchingClose(s, i, e) == Some(k)
    ensures k + |EachClose| <= |s|
    ensures MatchingClose(s, k + |EachClose|, d) == MatchingClose(s, i, e + d)
    decreases |s| - i, 0
  {
    if e > 1 {
      MatchingCloseDeeper(s, i + |EachClose|, e - 1, d, k);
    }
  }

  /** `MatchingCloseDeeper` at any other character. */
  lemma {:induction false} DeeperPastPlain(s: string, i: nat, e: nat, d: nat, k: nat)
    requires i < |s| && e >= 1 && d >= 1 && TokAt(s, i).Plain?
    requires MatchingClose(s, i, e) == Some(k)
    ensures k + |EachClose| <= |s|
    ensures MatchingClose(s, k + |EachClose|, d) == MatchingClose(s, i, e + d)
    decreases |s| - i, 0
  {
    MatchingCloseDeeper(s, i + 1, e, d, k);
  }

  /** Nested loops match by nesting: an inner `{{#each}}` at `i` and
      everything up to its own matching close are skipped as a whole by the
      scan for an outer close. */
  lemma SkipsInnerLoop(s: string, i: nat, d: nat)
    requires i < |s| && d >= 1 && TokAt(s, i).OpenTok?
    requires MatchingClose(s, i + TokAt(s, i).len, 1).Some?
    ensures MatchingClose(s, i, d)
         == MatchingClose(s, MatchingClose(s, i + TokAt(s, i).len, 1).value + |EachClose|, d)
  {
    MatchingCloseDeeper(s, i + TokAt(s, i).len, 1, d, MatchingClose(s, i + TokAt(s, i).len, 1).value);
  }

  // ---------------- what the passes leave behind ----------------

  /** When the loop pass finishes, no loop is left that it could expand:
      either no `{{#each}}` remains or the first one has no matching close. */
  lemma {:induction false} ExpandEachDone(t: string, ctx: Value, fuel: nat)
    requires ExpandEach(t, ctx, fuel).Some?
    ensures FirstLoop(ExpandEach(t, ctx, fuel).value).None?
    decreases fuel
  {
    match EachStep(t, ctx, fuel)
    case Done(r) =>
    case Continue(next) => ExpandEachDone(next, ctx, fuel - 1);
  }

  /** When the conditional pass finishes, the conditional regular expression
      no longer matches anywhere. */
  lemma {:induction false} ExpandIfDone(t: string, ctx: Value, fuel: nat)
    requires ExpandIf(t, ctx, fuel).Some?
    ensures IfMatch(ExpandIf(t, ctx, fuel).value).None?
    decreases fuel
  {
    match IfStep(t, ctx, fuel)
    case Done(r) =>
    case Continue(next) => ExpandIfDone(next, ctx, fuel - 1);
  }

  // ---------------- text without directives ----------------

  /** `s` contains no `{{`, the opening of every directive and interpolation. */
  predicate NoDoubleBrace(s: string)
  {
    forall i :: 0 <= i < |s| - 1 ==> !(s[i] == '{' && s[i + 1] == '{')
  }

  /** A scan for an opening directive that has matched `m` characters of the
      head succeeds only if the rest of the head follows. */
  lemma {:induction false} OpenScanHead(s: string, head: string, j: nat, m: nat)
    requires j + m <= |s| && m < |head|
    requires OpenScan(s, head, j, j + m, Head(m)).Some?
    ensures j + |head| <= |s|
    ensures forall i :: m <= i < |head| ==> s[j + i] == head[i]
    decreases |head| - m
  {
    if m + 1 < |head| {
      OpenScanHead(s, head, j, m + 1);
    }
  }

  /** An opening directive starts with its head. */
  lemma OpenAtHead(s: string, j: nat, head: string)
    requires j <= |s| && |head| > 0
    ensures OpenAt(s, j, head).Some? ==>
      j + |head| <= |s| && forall i :: 0 <= i < |head| ==> s[j + i] == head[i]
  {
    if OpenAt(s, j, head).Some? {
      OpenScanHead(s, head, j, 0);
    }
  }

  /** An opening directive whose head starts with `{{` starts with `{{`. */
  lemma OpenAtBraces(s: string, j: nat, head: string)
    requires j <= |s| && |head| >= 2 && head[0] == '{' && head[1] == '{'
    ensures OpenAt(s, j, head).Some? ==> j + 1 < |s| && s[j] == '{' && s[j + 1] == '{'
  {
    OpenAtHead(s, j, head);
  }

  /** A token other than plain text starts with `{{`. */
  lemma TokenStartsWithBraces(s: string, j: nat)
    requires j < |s|
    ensures !TokAt(s, j).Plain? ==> j + 1 < |s| && s[j] == '{' && s[j + 1] == '{'
  {
    OpenAtBraces(s, j, EachHead);
    if OpenAt(s, j, EachHead).None? && OccursAt(s, EachClose, j) {
      assert SameFrom(s, EachClose, j + 1, 1);
    }
  }

  /** Without `{{` there is no loop to expand. */
  lemma {:induction false} FindOpenNone(s: string, from: nat)
    requires NoDoubleBrace(s)
    ensures FindOpen(s, from).None?
    decreases |s| - from
  {
    if from < |s| {
      TokenStartsWithBraces(s, from);
      assert from + 1 >= |s| || !(s[from] == '{' && s[from + 1] == '{');
      FindOpenNone(s, from + 1);
    }
  }

  /** Without `{{` there is no conditional block. */
  lemma {:induction false} IfMatchNone(s: string, i: nat)
    requires NoDoubleBrace(s)
    ensures IfMatchFrom(s, i).None?
    decreases |s| - i
  {
    if i < |s| {
      OpenAtBraces(s, i, IfHead);
      assert i + 1 >= |s| || !(s[i] == '{' && s[i + 1] == '{');
      IfMatchNone(s, i + 1);
    }
  }

  /** Without `{{` there is no `this` token to replace. */
  lemma {:induction false} ReplaceThisNone(s: string, ctx: Value)
    requires NoDoubleBrace(s)
    ensures ReplaceThis(s, ctx) == s
    decreases |s|
  {
    if |s| > 0 {
      assert NoDoubleBrace(s[1..]) by {
        forall i | 0 <= i < |s[1..]| - 1 ensures !(s[1..][i] == '{' && s[1..][i + 1] == '{') {
          assert s[1..][i] == s[i + 1] && s[1..][i + 1] == s[i + 2];
        }
      }
      assert |s| < 2 || !(s[0] == '{' && s[1] == '{');
      ReplaceThisNone(s[1..], ctx);
      assert s == [s[0]] + s[1..];
    }
  }

  /** Without `{{` there is no key token to replace. */
  lemma {:induction false} ReplaceKeysNone(s: string, ctx: Value)
    requires NoDoubleBrace(s)
    ensures ReplaceKeys(s, ctx) == s
    decreases |s|
  {
    if |s| > 0 {
      assert NoDoubleBrace(s[1..]) by {
        forall i | 0 <= i < |s[1..]| - 1 ensures !(s[1..][i] == '{' && s[1..][i + 1] == '{') {
          assert s[1..][i] == s[i + 1] && s[1..][i + 1] == s[i + 2];
        }
      }
      assert |s| < 2 || !(s[0] == '{' && s[1] == '{');
      ReplaceKeysNone(s[1..], ctx);
      assert s == [s[0]] + s[1..];
    }
  }

  /** A template without `{{` comes back unchanged from `render`, whatever the
      context: no pass finds anything to rewrite. */
  lemma RenderPassthrough(t: string, ctx: Value, fuel: nat)
    requires NoDoubleBrace(t)
    ensures Render(t, ctx, fuel) == Some(t)
  {
    FindOpenNone(t, 0);
    assert EachStep(t, ctx, fuel) == Done(Some(t));
    IfMatchNone(t, 0);
    assert IfStep(t, ctx, fuel) == Done(Some(t));
    ReplaceThisNone(t, ctx);
    ReplaceKeysNone(t, ctx);
  }

  // ---------------- one loop expansion ----------------

  /** `ctx` with only `this` rebound: every other property of an object
      context reads as before. */
  lemma WithThisKeepsOthers(ctx: Value, item: Value, key: string)
    requires ctx.Obj? && key != "this"
    ensures Step(WithThis(ctx, item), key) == Step(ctx, key)
  {
  }

  /** A loop over no items (its path gives a non-array or an empty array)
      is removed together with both of its directives. */
  lemma EachStepNoItems(t: string, ctx: Value, fuel: nat, l: Loop)
    requires FirstLoop(t) == Some(l) && fuel > 0
    requires LoopItems(Get(ctx, l.path)) == []
    ensures EachStep(t, ctx, fuel) == Continue(t[..l.start] + t[l.closeIdx + |EachClose|..])
  {
    var rest := t[l.closeIdx + |EachClose|..];
    assert t[..l.start] + "" + rest == t[..l.start] + rest;
  }

  /** When every item renders, the loop's replacement is the concatenation
      of one render of the body per item, in array order, item `i` rendered
      with `this` bound to it. */
  lemma {:induction false} RenderEachOfParts(body: string, items: seq<Value>, ctx: Value, fuel: nat, parts: seq<string>)
    requires |parts| == |items|
    requires forall i :: 0 <= i < |items| ==> Render(body, WithThis(ctx, items[i]), fuel) == Some(parts[i])
    ensures RenderEach(body, items, ctx, fuel) == Some(Concat(parts))
    decreases |items|
  {
    if |items| > 0 {
      RenderEachOfParts(body, items[1..], ctx, fuel, parts[1..]);
      assert Render(body, WithThis(ctx, items[0]), fuel) == Some(parts[0]);
    }
  }

  /** When one item fails to render (out of fuel), so does the loop. */
  lemma {:induction false} RenderEachFails(body: string, items: seq<Value>, ctx: Value, fuel: nat, i: nat)
    requires i < |items| && Render(body, WithThis(ctx, items[i]), fuel).None?
    ensures RenderEach(body, items, ctx, fuel).None?
    decreases |items|
  {
    if i > 0 {
      RenderEachFails(body, items[1..], ctx, fuel, i - 1);
    }
  }

  /** `n` copies of `b`, concatenated. */
  function Repeat(b: string, n: nat): (r: string)
    ensures |r| == n * |b|
  {
    if n == 0 then "" else b + Repeat(b, n - 1)
  }

  lemma {:induction false} ConcatCopies(b: string, n: nat)
    ensures Concat(seq(n, _ => b)) == Repeat(b, n)
  {
    if n > 0 {
      ConcatCopies(b, n - 1);
      assert seq(n, _ => b)[1..] == seq(n - 1, _ => b);
    }
  }

  /** A loop body without `{{` is repeated once per item. */
  lemma PlainBodyRepeats(body: string, items: seq<Value>, ctx: Value, fuel: nat)
    requires NoDoubleBrace(body)
    ensures RenderEach(body, items, ctx, fuel) == Some(Repeat(body, |items|))
  {
    forall i | 0 <= i < |items| ensures Render(body, WithThis(ctx, items[i]), fuel) == Some(body) {
      RenderPassthrough(body, WithThis(ctx, items[i]), fuel);
    }
    RenderEachOfParts(body, items, ctx, fuel, seq(|items|, _ => body));
    ConcatCopies(body, |items|);
  }

  // ---------------- a loop written out ----------------

  /** Reading the rest of the head moves the scanner to the spaces state. */
  lemma {:induction false} OpenScanReadsHead(s: string, head: string, j: nat, m: nat)
    requires m < |head| && j + |head| <= |s|
    requires forall i :: m <= i < |head| ==> s[j + i] == head[i]
    ensures OpenScan(s, head, j, j + m, Head(m)) == OpenScan(s, head, j, j + |head|, Spaces(0))
    decreases |head| - m
  {
    if m + 1 < |head| {
      OpenScanReadsHead(s, head, j, m + 1);
    }
  }

  /** Reading the rest of a path and the closing `}}` ends the scan with the
      path that started at `p`. */
  lemma {:induction false} OpenScanReadsPath(s: string, head: string, j: nat, p: nat, k: nat, e: nat)
    requires j <= p <= k <= e && e + 2 <= |s|
    requires forall i :: k <= i < e ==> IsPathChar(s[i])
    requires s[e] == '}' && s[e + 1] == '}'
    ensures OpenScan(s, head, j, k, PathChars(p)) == Some(Directive(s[p..e], e + 2 - j))
    decreases e - k
  {
    if k < e {
      OpenScanReadsPath(s, head, j, p, k + 1, e);
    } else {
      assert OpenScan(s, head, j, k, PathChars(p)) == OpenScan(s, head, j, k + 1, Brace(p, k));
    }
  }

  /** `{{#each p}}` written at index `j` is recognised with its path. */
  lemma OpenAtEach(s: string, j: nat, p: string)
    requires ValidPath(p) && j + |p| + 10 <= |s|
    requires s[j..j + 7] == EachHead && s[j + 7] == ' ' && s[j + 8..j + 8 + |p|] == p
    requires s[j + 8 + |p|] == '}' && s[j + 9 + |p|] == '}'
    ensures OpenAt(s, j, EachHead) == Some(Directive(p, |p| + 10))
  {
    forall i | 0 <= i < |EachHead| ensures s[j + i] == EachHead[i] {
      assert s[j + i] == s[j..j + 7][i];
    }
    OpenScanReadsHead(s, EachHead, j, 0);
    assert s[j + 8] == p[0] && !IsSpace(p[0]);
    forall i | j + 9 <= i < j + 8 + |p| ensures IsPathChar(s[i]) {
      assert s[i] == p[i - j - 8];
    }
    OpenScanReadsPath(s, EachHead, j, j + 8, j + 9, j + 8 + |p|);
  }

  /** `{{/each}}` written at index `j` is a closing token. */
  lemma CloseAt(s: string, j: nat)
    requires j + |EachClose| <= |s| && s[j..j + |EachClose|] == EachClose
    ensures TokAt(s, j) == CloseTok
  {
    OpenAtHead(s, j, EachHead);
    assert EachHead[2] == '#';
    assert s[j + 2] == s[j..j + |EachClose|][2] == '/';
    OccursAtSlice(s, EachClose, j);
  }

  /** The search for an opening directive passes over text without `{`. */
  lemma {:induction false} FindOpenSkips(s: string, from: nat, to: nat)
    requires from <= to < |s| && TokAt(s, to).OpenTok?
    requires forall i :: from <= i < to ==> s[i] != '{'
    ensures FindOpen(s, from) == Some(to)
    decreases |s| - from
  {
    if from < to {
      TokenStartsWithBraces(s, from);
      FindOpenSkips(s, from + 1, to);
    }
  }

  /** The search for the matching close passes over text without `{`. */
  lemma {:induction false} MatchingCloseSkips(s: string, from: nat, to: nat)
    requires from <= to < |s| && TokAt(s, to) == CloseTok
    requires forall i :: from <= i < to ==> s[i] != '{'
    ensures MatchingClose(s, from, 1) == Some(to)
    decreases |s| - from
  {
    if from < to {
      TokenStartsWithBraces(s, from);
      MatchingCloseSkips(s, from + 1, to);
    }
  }

  /** Every token other than plain text starts with `{{#` or `{{/`, so an
      interpolation such as `{{this.name}}` is plain text to the loop scan. */
  lemma TokenMarker(s: string, j: nat)
    requires j < |s|
    ensures !TokAt(s, j).Plain? ==> MarkerAt(s, j)
  {
    OpenAtHead(s, j, EachHead);
    assert EachHead[0] == '{' && EachHead[1] == '{' && EachHead[2] == '#';
    if OpenAt(s, j, EachHead).None? && OccursAt(s, EachClose, j) {
      assert SameFrom(s, EachClose, j + 1, 1);
      assert SameFrom(s, EachClose, j + 2, 2);
    }
  }

  /** No opening directive starts at an index in `[from, to)`. */
  predicate NoOpenIn(t: string, from: nat, to: nat)
    requires from <= to <= |t|
    decreases |t| - from
  {
    from == to || (!TokAt(t, from).OpenTok? && NoOpenIn(t, from + 1, to))
  }

  /** No opening directive starts before index `j`. */
  predicate NoOpenBefore(t: string, j: nat)
    requires j <= |t|
  {
    NoOpenIn(t, 0, j)
  }

  /** `{{#` or `{{/` starts at index `i`. */
  predicate MarkerAt(s: string, i: nat)
  {
    i + 2 < |s| && s[i] == '{' && s[i + 1] == '{' && (s[i + 2] == '#' || s[i + 2] == '/')
  }

  /** No `{{#` or `{{/` starts at an index in `[from, to)`. */
  predicate NoLoopMarker(s: string, from: nat, to: nat)
    requires from <= to <= |s|
  {
    forall i :: from <= i < to ==> !MarkerAt(s, i)
  }

  /** Text without loop markers is plain text to the loop scan. */
  lemma MarkerFreePlain(s: string, from: nat, to: nat)
    requires from <= to <= |s| && NoLoopMarker(s, from, to)
    ensures forall i :: from <= i < to ==> TokAt(s, i).Plain?
  {
    forall i | from <= i < to
      ensures TokAt(s, i).Plain?
    {
      TokenMarker(s, i);
    }
  }

  /** The scan for a close passes over plain text at any depth. */
  lemma {:induction false} MatchingClosePastPlain(s: string, from: nat, to: nat, d: nat)
    requires from <= to <= |s| && d >= 1
    requires forall i :: from <= i < to ==> TokAt(s, i).Plain?
    ensures MatchingClose(s, from, d) == MatchingClose(s, to, d)
    decreases |s| - from
  {
    if from < to {
      MatchingClosePastPlain(s, from + 1, to, d);
    }
  }

  /** The search for an opening directive finds the first one. */
  lemma {:induction false} FindOpenFirst(t: string, from: nat, j: nat)
    requires from <= j < |t| && TokAt(t, j).OpenTok? && NoOpenIn(t, from, j)
    ensures FindOpen(t, from) == Some(j)
    decreases j - from
  {
    if from < j {
      FindOpenFirst(t, from + 1, j);
    }
  }

  /** Plain text holds no opening directive. */
  lemma {:induction false} PlainNoOpen(t: string, from: nat, to: nat)
    requires from <= to <= |t|
    requires forall i :: from <= i < to ==> TokAt(t, i).Plain?
    ensures NoOpenIn(t, from, to)
    decreases |t| - from
  {
    if from < to {
      PlainNoOpen(t, from + 1, to);
    }
  }

  /** `{{#each p}}`, with a valid path `p`, is written at index `j`. */
  predicate EachAt(t: string, j: nat, p: string)
  {
    && ValidPath(p) && j + |p| + 10 <= |t|
    && t[j..j + 7] == EachHead && t[j + 7] == ' ' && t[j + 8..j + 8 + |p|] == p
    && t[j + 8 + |p|] == '}' && t[j + 9 + |p|] == '}'
  }

  /** `{{#each p}}` is written at `j`, no opening directive comes before it,
      and the scan of its body ends at the `{{/each}}` at `c`. Interpolations
      and whole nested loops may stand before it and in its body. */
  predicate LoopWrittenAt(t: string, j: nat, p: string, c: nat)
  {
    && EachAt(t, j, p)
    && NoOpenBefore(t, j)
    && MatchingClose(t, j + |p| + 10, 1) == Some(c)
  }

  /** The loop written at `j` is the first loop, with body from the end of
      its directive to `c`. */
  lemma FirstLoopAt(t: string, j: nat, p: string, c: nat)
    requires LoopWrittenAt(t, j, p, c)
    ensures FirstLoop(t) == Some(Loop(j, j + |p| + 10, p, c))
  {
    TokAtEach(t, j, p);
    FindOpenFirst(t, 0, j);
    FirstLoopFrom(t, j, p, c);
  }

  lemma FirstLoopFrom(t: string, j: nat, p: string, c: nat)
    requires j < |t| && FindOpen(t, 0) == Some(j) && TokAt(t, j) == OpenTok(p, |p| + 10)
    requires j + |p| + 10 <= |t| && MatchingClose(t, j + |p| + 10, 1) == Some(c)
    ensures FirstLoop(t) == Some(Loop(j, j + |p| + 10, p, c))
  {
    FirstLoopFound(t, j, c);
  }

  /** Text before index `j` without `{{#` or `{{/` holds no opening
      directive. */
  lemma PrefixFlat(t: string, j: nat)
    requires j <= |t| && NoLoopMarker(t, 0, j)
    ensures NoOpenBefore(t, j)
  {
    MarkerFreePlain(t, 0, j);
    PlainNoOpen(t, 0, j);
  }

  /** The scan for a close passes over text without `{{#` or `{{/`. */
  lemma PastFlat(t: string, s: nat, i: nat, d: nat)
    requires s <= i <= |t| && d >= 1 && NoLoopMarker(t, s, i)
    ensures MatchingClose(t, s, d) == MatchingClose(t, i, d)
  {
    MarkerFreePlain(t, s, i);
    MatchingClosePastPlain(t, s, i, d);
  }

  /** A body from `s` to a `{{/each}}` at `c`, without `{{#` or `{{/` but
      possibly with interpolations such as `{{this.name}}`, is matched by
      that close. */
  lemma BodyFlat(t: string, s: nat, c: nat)
    requires s <= c && c + |EachClose| <= |t| && t[c..c + |EachClose|] == EachClose
    requires NoLoopMarker(t, s, c)
    ensures MatchingClose(t, s, 1) == Some(c)
  {
    PastFlat(t, s, c, 1);
    CloseAt(t, c);
  }

  /** A body from `s` to a `{{/each}}` at `c` that holds one inner loop,
      `{{#each q}}` at `i` closed at `k`, and otherwise no `{{#` or `{{/`, is
      matched by the outer close: the inner pair is skipped whole. */
  lemma BodyNested(t: string, s: nat, i: nat, q: string, k: nat, c: nat)
    requires EachAt(t, i, q) && s <= i && i + |q| + 10 <= k && k + |EachClose| <= c
    requires c + |EachClose| <= |t|
    requires t[k..k + |EachClose|] == EachClose && t[c..c + |EachClose|] == EachClose
    requires NoLoopMarker(t, s, i) && NoLoopMarker(t, i + |q| + 10, k) && NoLoopMarker(t, k + |EachClose|, c)
    ensures MatchingClose(t, s, 1) == Some(c)
  {
    TokAtEach(t, i, q);
    BodyFlat(t, i + |q| + 10, k);
    BodyFlat(t, k + |EachClose|, c);
    PastFlat(t, s, i, 1);
    NestedChain(t, s, i, q, k, c);
  }

  /** `{{#each q}}` written at `i` is read as an opening token with path `q`. */
  lemma TokAtEach(t: string, i: nat, q: string)
    requires EachAt(t, i, q)
    ensures TokAt(t, i) == OpenTok(q, |q| + 10)
  {
    OpenAtEach(t, i, q);
  }

  lemma NestedChain(t: string, s: nat, i: nat, q: string, k: nat, c: nat)
    requires s <= i < |t| && TokAt(t, i) == OpenTok(q, |q| + 10)
    requires MatchingClose(t, s, 1) == MatchingClose(t, i, 1)
    requires MatchingClose(t, i + |q| + 10, 1) == Some(k)
    requires k + |EachClose| <= |t| && MatchingClose(t, k + |EachClose|, 1) == Some(c)
    ensures MatchingClose(t, s, 1) == Some(c)
  {
    SkipsInnerLoop(t, i, 1);
  }

  /** The loop written at `j` with path `p`, whose items all render, is
      replaced by the text before it, the concatenated renders of its body
      and the text after its close; when an item runs out of fuel the pass
      stops. */
  lemma LoopAtExpands(t: string, j: nat, p: string, c: nat, ctx: Value, fuel: nat)
    requires LoopWrittenAt(t, j, p, c) && fuel > 0
    ensures var rendered := RenderEach(t[j + |p| + 10..c], LoopItems(Get(ctx, p)), ctx, fuel - 1);
      EachStep(t, ctx, fuel)
        == if rendered.Some? then Continue(t[..j] + rendered.value + t[c + |EachClose|..]) else Done(None)
  {
    FirstLoopAt(t, j, p, c);
    EachStepOfFirst(t, j, p, c, ctx, fuel);
  }

  /** The pass over a template whose first loop is known. */
  lemma EachStepOfFirst(t: string, j: nat, p: string, c: nat, ctx: Value, fuel: nat)
    requires FirstLoop(t) == Some(Loop(j, j + |p| + 10, p, c)) && fuel > 0
    ensures j + |p| + 10 <= c && c + |EachClose| <= |t|
    ensures var rendered := RenderEach(t[j + |p| + 10..c], LoopItems(Get(ctx, p)), ctx, fuel - 1);
      EachStep(t, ctx, fuel)
        == if rendered.Some? then Continue(t[..j] + rendered.value + t[c + |EachClose|..]) else Done(None)
  {
    var l := Loop(j, j + |p| + 10, p, c);
    var rendered := RenderEach(t[l.bodyStart..l.closeIdx], LoopItems(Get(ctx, l.path)), ctx, fuel - 1);
    if rendered.Some? {
      EachStepSplice(t, ctx, fuel, l, rendered.value);
    } else {
      EachStepFails(t, ctx, fuel, l);
    }
  }

  /** With no items the whole span, both directives included, is removed. */
  lemma LoopAtNoItems(t: string, j: nat, p: string, c: nat, ctx: Value, fuel: nat)
    requires LoopWrittenAt(t, j, p, c) && fuel > 0 && LoopItems(Get(ctx, p)) == []
    ensures EachStep(t, ctx, fuel) == Continue(t[..j] + t[c + |EachClose|..])
  {
    FirstLoopAt(t, j, p, c);
    EachStepNoItems(t, ctx, fuel, Loop(j, j + |p| + 10, p, c));
  }
}
