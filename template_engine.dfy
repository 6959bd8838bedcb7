/** The string template renderer: loop expansion, conditional expansion,
    `this` interpolation and key interpolation over a JSON context.

    The source's expansion loops restart from the beginning of the template
    after every splice and are not guaranteed to stop (interpolated text can
    form new directives). Each loop iteration and each nested render here
    consumes one unit of `fuel`; `None` means the fuel ran out. */
module TemplateEngine {
  import opened Wrappers
  import opened Text
  import opened Json

  // ---------------- directive tokens ----------------

  const EachHead := "{{#each"
  const IfHead := "{{#if"
  const EachClose := "{{/each}}"
  const ElseTag := "{{else}}"
  const IfClose := "{{/if}}"

  /** An opening directive recognised at the start of a string: the path it
      names and the length of the whole directive. */
  datatype Directive = Directive(path: string, len: nat)

  /** A template path: text matched by `[\w.]+`. */
  predicate ValidPath(p: string)
  {
    |p| > 0 && forall i :: 0 <= i < |p| ==> IsPathChar(p[i])
  }

  /** The states of a left-to-right scanner for `<head>\s+([\w.]+)\}\}`:
      `m` characters of the head matched; `n` spaces read; inside the path
      that starts at `p`; the first `}` read after the path `[p, e)`. */
  datatype OpenState = Head(m: nat) | Spaces(n: nat) | PathChars(p: nat) | Brace(p: nat, e: nat)

  /** The regular expression `<head>\s+([\w.]+)\}\}` matched at index `j`
      of `s`, with `head` either `{{#each` or `{{#if`, continuing from index
      `k` in state `st`. The three character classes involved are disjoint,
      so the greedy runs never need to backtrack and the scan is
      deterministic. */
  function OpenScan(s: string, head: string, j: nat, k: nat, st: OpenState): (r: Option<Directive>)
    requires j <= k <= |s|
    ensures r.Some? ==> 1 <= r.value.len && j + r.value.len <= |s|
    decreases |s| - k
  {
    if k == |s| then None
    else
      var c := s[k];
      match st
      case Head(m) =>
        if m < |head| && c == head[m] then
          OpenScan(s, head, j, k + 1, if m + 1 == |head| then Spaces(0) else Head(m + 1))
        else None
      case Spaces(n) =>
        if IsSpace(c) then OpenScan(s, head, j, k + 1, Spaces(n + 1))
        else if n > 0 && IsPathChar(c) then OpenScan(s, head, j, k + 1, PathChars(k))
        else None
      case PathChars(p) =>
        if IsPathChar(c) then OpenScan(s, head, j, k + 1, PathChars(p))
        else if c == '}' && p <= k then OpenScan(s, head, j, k + 1, Brace(p, k))
        else None
      case Brace(p, e) =>
        if c == '}' && p <= e <= |s| then Some(Directive(s[p..e], k + 1 - j)) else None
  }

  /** The opening directive `<head> path}}` at index `j` of `s`, if any. */
  function OpenAt(s: string, j: nat, head: string): (r: Option<Directive>)
    requires j <= |s|
    ensures r.Some? ==> 1 <= r.value.len && j + r.value.len <= |s|
  {
    OpenScan(s, head, j, j, Head(0))
  }

  /** What the loop scanner's regular expression
      `\{\{#each\s+[\w.]+\}\}|\{\{\/each\}\}` sees at one position:
      an opening directive, a closing `{{/each}}`, or neither. */
  datatype Tok = OpenTok(path: string, len: nat) | CloseTok | Plain

  /** The number of characters a token spans. */
  function TokLen(t: Tok): nat
  {
    match t
    case OpenTok(_, n) => n
    case CloseTok => |EachClose|
    case Plain => 1
  }

  /** The token that starts at index `j` of `s`. */
  function TokAt(s: string, j: nat): (t: Tok)
    requires j < |s|
    ensures 1 <= TokLen(t) && j + TokLen(t) <= |s|
  {
    match OpenAt(s, j, EachHead)
    case Some(d) => OpenTok(d.path, d.len)
    case None => if OccursAt(s, EachClose, j) then CloseTok else Plain
  }

  /** The first opening directive at or after index `from`
      (`openRe.exec(tpl)` with `lastIndex = from`). */
  function FindOpen(s: string, from: nat): (r: Option<nat>)
    decreases |s| - from
    ensures r.Some? ==> from <= r.value < |s| && TokAt(s, r.value).OpenTok?
    ensures r.Some? ==> forall k :: from <= k < r.value ==> !TokAt(s, k).OpenTok?
    ensures r.None? ==> forall k :: from <= k < |s| ==> !TokAt(s, k).OpenTok?
  {
    if from >= |s| then None
    else if TokAt(s, from).OpenTok? then Some(from)
    else FindOpen(s, from + 1)
  }

  /** The index of the `{{/each}}` that closes a loop, scanning `s` from
      index `i` at nesting depth `depth`: every opening directive raises the
      depth, every `{{/each}}` lowers it, and the close that brings it to
      zero is the match. Tokens are consumed whole, as `tokenRe.exec` does. */
  function MatchingClose(s: string, i: nat, depth: nat): (r: Option<nat>)
    requires i <= |s| && depth >= 1
    ensures r.Some? ==> i <= r.value && r.value + |EachClose| <= |s|
    decreases |s| - i
  {
    if i == |s| then None
    else match TokAt(s, i)
      case OpenTok(_, n) => MatchingClose(s, i + n, depth + 1)
      case CloseTok =>
        if depth == 1 then Some(i) else MatchingClose(s, i + |EachClose|, depth - 1)
      case Plain => MatchingClose(s, i + 1, depth)
  }

  /** The matching close is a `{{/each}}` token at or after `i`. */
  lemma {:induction false} MatchingCloseIsClose(s: string, i: nat, depth: nat)
    requires i <= |s| && depth >= 1
    ensures MatchingClose(s, i, depth).Some? ==> TokAt(s, MatchingClose(s, i, depth).value) == CloseTok
    decreases |s| - i
  {
    if i < |s| {
      match TokAt(s, i)
      case OpenTok(_, n) => MatchingCloseIsClose(s, i + n, depth + 1);
      case CloseTok => if depth > 1 { MatchingCloseIsClose(s, i + |EachClose|, depth - 1); }
      case Plain => MatchingCloseIsClose(s, i + 1, depth);
    }
  }

  /** What `findMatchingEachClose` returns when it finds the close. */
  datatype CloseInfo = CloseInfo(closeIdx: nat, closeLen: nat)

  /** `findMatchingEachClose(tpl, from)`: scans the tokens after an opening
      `{{#each}}` with a depth counter that starts at 1. */
  method FindMatchingEachClose(tpl: string, from: nat) returns (r: Option<CloseInfo>)
    requires from <= |tpl|
    ensures r.None? <==> MatchingClose(tpl, from, 1).None?
    ensures r.Some? ==> r.value == CloseInfo(MatchingClose(tpl, from, 1).value, |EachClose|)
  {
    var i := from;
    var depth: nat := 1;
    while i < |tpl|
      invariant from <= i <= |tpl| && depth >= 1
      invariant MatchingClose(tpl, from, 1) == MatchingClose(tpl, i, depth)
      decreases |tpl| - i
    {
      var tok := TokAt(tpl, i);
      if tok.OpenTok? {
        depth := depth + 1;
        i := i + tok.len;
      } else if tok.CloseTok? {
        if depth == 1 {
          return Some(CloseInfo(i, |EachClose|));
        }
        depth := depth - 1;
        i := i + |EachClose|;
      } else {
        i := i + 1;
      }
    }
    return None;
  }

  /** The first occurrence of `pat` in `s` at or after index `from`. */
  function FindFrom(s: string, pat: string, from: nat): (r: Option<nat>)
    decreases |s| - from
    ensures r.Some? ==> from <= r.value && OccursAt(s, pat, r.value)
    ensures r.Some? ==> forall j :: from <= j < r.value ==> !OccursAt(s, pat, j)
    ensures r.None? ==> forall j :: from <= j ==> !OccursAt(s, pat, j)
  {
    if from + |pat| > |s| then None
    else if OccursAt(s, pat, from) then Some(from)
    else FindFrom(s, pat, from + 1)
  }

  // ---------------- context lookup ----------------

  /** A canonical array index: a decimal numeral without leading zeros. */
  function ArrayIndex(key: string): Option<nat>
  {
    if |key| > 0 && (forall i :: 0 <= i < |key| ==> IsDigit(key[i])) && (key[0] != '0' || |key| == 1)
    then Some(DigitsValue(key)) else None
  }

  /** The numeral of an index is read back as that index. */
  lemma ArrayIndexOfDecimal(n: nat)
    ensures ArrayIndex(NatToDecimal(n)) == Some(n)
  {
    NatToDecimalRoundTrip(n);
  }

  /** One step of `get`'s reduce: `o != null && (k in o) ? o[k] : undefined`.
      An object yields its own property, an array its element at a
      canonical index or its `length`; every other value yields undefined. */
  function Step(o: Value, key: string): Value
  {
    match o
    case Obj(fields) => (match Lookup(fields, key) case Some(x) => x case None => Undefined)
    case Arr(items) =>
      (match ArrayIndex(key)
       case Some(i) => if i < |items| then items[i] else Undefined
       case None => if key == "length" then Num(|items|) else Undefined)
    case _ => Undefined
  }

  function Walk(o: Value, keys: seq<string>): Value
    decreases |keys|
  {
    if |keys| == 0 then o else Walk(Step(o, keys[0]), keys[1..])
  }

  /** `get(obj, path)`: undefined for a falsy root, otherwise a walk along the
      dot-separated segments of `path`. */
  function Get(obj: Value, path: string): (r: Value)
    ensures !Truthy(obj) ==> r == Undefined
  {
    if !Truthy(obj) then Undefined else Walk(obj, Split(path, '.'))
  }

  /** `ctx.this` (undefined when the context is not an object). */
  function ThisOf(ctx: Value): Value
  {
    match ctx
    case Obj(fields) => (match Lookup(fields, "this") case Some(x) => x case None => Undefined)
    case _ => Undefined
  }

  /** `{ ...ctx, this: item }`: the loop context for one item. */
  function WithThis(ctx: Value, item: Value): (r: Value)
    ensures r.Obj? && ThisOf(r) == item
  {
    match ctx
    case Obj(fields) => Obj(SetField(fields, "this", item))
    case Arr(items) =>
      Obj(SetField(seq(|items|, i requires 0 <= i < |items| => (NatToDecimal(i), items[i])), "this", item))
    case Str(s) =>
      Obj(SetField(seq(|s|, i requires 0 <= i < |s| => (NatToDecimal(i), Str([s[i]]))), "this", item))
    case _ => Obj([("this", item)])
  }

  /** A path resolved against the context, falling back to `ctx.this` when
      the context gives undefined and `ctx.this` is truthy. */
  function Resolve(ctx: Value, path: string): Value
  {
    var v := Get(ctx, path);
    if v == Undefined && Truthy(ctx) && Truthy(ThisOf(ctx)) then Get(ThisOf(ctx), path) else v
  }

  /** `toStr(v)`: null, undefined, objects and arrays give empty text. */
  function ToStr(v: Value): (r: string)
    ensures IsNullish(v) || v.Arr? || v.Obj? ==> r == ""
    ensures v.Str? ==> r == v.s
    ensures v.Bool? ==> r == (if v.b then "true" else "false")
    ensures v.Num? ==> r == IntToDecimal(v.n)
  {
    if IsNullish(v) then "" else if v.Arr? || v.Obj? then "" else StringOf(v)
  }

  /** The condition of `{{#if}}`: JavaScript-truthy, and non-empty when it is
      an array. */
  predicate Cond(v: Value)
    ensures !Cond(v) <==> v in {Undefined, Null, Bool(false), Num(0), Str(""), Arr([])}
  {
    Truthy(v) && (!v.Arr? || |v.items| > 0)
  }

  /** The items a loop iterates over: those of a non-empty array, else none. */
  function LoopItems(v: Value): (r: seq<Value>)
    ensures r != [] <==> v.Arr? && v.items != []
    ensures r != [] ==> r == v.items
  {
    if v.Arr? && |v.items| > 0 then v.items else []
  }

  // ---------------- conditional blocks ----------------

  /** A conditional block found in a template: its extent `[start, end)`,
      the condition path and the two branch texts. */
  datatype IfBlock = IfBlock(start: nat, path: string, yes: string, no: string, end: nat)

  /** The lazy part of `([\s\S]*?)(?:\{\{else\}\}([\s\S]*?))?\{\{\/if\}\}`
      after a `{{#if}}` that ends at `b`, trying end positions `p` in
      increasing order; at each it first tries the optional else group. The
      result is the true branch, the false branch and the end of the match. */
  function IfBody(s: string, b: nat, p: nat): (r: Option<(string, string, nat)>)
    requires b <= p <= |s|
    decreases |s| - p
    ensures r.Some? ==> p + |IfClose| <= r.value.2 <= |s|
  {
    if p + |IfClose| > |s| then None
    else if OccursAt(s, ElseTag, p) && FindFrom(s, IfClose, p + |ElseTag|).Some? then
      var q := FindFrom(s, IfClose, p + |ElseTag|).value;
      Some((s[b..p], s[p + |ElseTag|..q], q + |IfClose|))
    else if OccursAt(s, IfClose, p) then Some((s[b..p], "", p + |IfClose|))
    else IfBody(s, b, p + 1)
  }

  /** `ifBlockRe.exec(s)` searching from index `i`: the leftmost `{{#if}}`
      whose block can be completed. */
  function IfMatchFrom(s: string, i: nat): (r: Option<IfBlock>)
    decreases |s| - i
    ensures r.Some? ==> i <= r.value.start < r.value.end <= |s|
  {
    if i >= |s| then None
    else match OpenAt(s, i, IfHead)
      case Some(d) =>
        (match IfBody(s, i + d.len, i + d.len)
         case Some(body) => Some(IfBlock(i, d.path, body.0, body.1, body.2))
         case None => IfMatchFrom(s, i + 1))
      case None => IfMatchFrom(s, i + 1)
  }

  function IfMatch(s: string): Option<IfBlock> { IfMatchFrom(s, 0) }

  // ---------------- interpolation tokens ----------------

  /** `\{\{\s*this(?:\.([\w.]+))?\s*\}\}` anchored at the start of `s`: the
      optional sub-path and the length of the token. */
  function ThisTokenAt(s: string): (r: Option<(Option<string>, nat)>)
    ensures r.Some? ==> "{{" <= s && 0 < r.value.1 <= |s|
  {
    if "{{" <= s then
      var a := 2 + SpaceRun(s[2..]);
      if "this" <= s[a..] then
        var q := a + 4;
        var sub: Option<string> :=
          if q < |s| && s[q] == '.' && PathRun(s[q + 1..]) > 0 then Some(s[q + 1..q + 1 + PathRun(s[q + 1..])]) else None;
        var e := if sub.Some? then q + 1 + |sub.value| else q;
        var c := e + SpaceRun(s[e..]);
        if "}}" <= s[c..] then Some((sub, c + 2)) else None
      else None
    else None
  }

  /** `\{\{\s*([\w.]+)\s*\}\}` anchored at the start of `s`: the path and the
      length of the token. */
  function KeyTokenAt(s: string): (r: Option<(string, nat)>)
    ensures r.Some? ==> "{{" <= s && 0 < r.value.1 <= |s|
  {
    if "{{" <= s then
      var a := 2 + SpaceRun(s[2..]);
      var p := PathRun(s[a..]);
      var c := a + p + SpaceRun(s[a + p..]);
      if p > 0 && "}}" <= s[c..] then Some((s[a..a + p], c + 2)) else None
    else None
  }

  /** `replaceThis`: every `{{this}}` / `{{this.path}}` token, scanning left
      to right without rescanning replacements, becomes the text of
      `ctx.this` or of the path looked up in it. */
  function ReplaceThis(s: string, ctx: Value): string
    decreases |s|
  {
    if |s| == 0 then ""
    else match ThisTokenAt(s)
      case Some((sub, n)) =>
        ToStr(if sub.Some? then Get(ThisOf(ctx), sub.value) else ThisOf(ctx)) + ReplaceThis(s[n..], ctx)
      case None => [s[0]] + ReplaceThis(s[1..], ctx)
  }

  /** `replaceKeys`: every `{{path}}` token becomes the text of the path
      resolved against the context (falling back to `ctx.this`). */
  function ReplaceKeys(s: string, ctx: Value): string
    decreases |s|
  {
    if |s| == 0 then ""
    else match KeyTokenAt(s)
      case Some((path, n)) => ToStr(Resolve(ctx, path)) + ReplaceKeys(s[n..], ctx)
      case None => [s[0]] + ReplaceKeys(s[1..], ctx)
  }

  // ---------------- the four passes ----------------

  /** A loop found in a template: the index of its opening directive, where
      its body starts, the path it iterates over, and the index of its
      matching `{{/each}}`. */
  datatype Loop = Loop(start: nat, bodyStart: nat, path: string, closeIdx: nat)

  /** The first opening directive and its matching close, when the close
      exists; `None` when there is no opening directive or the first one is
      unmatched (either of which ends the loop pass). */
  function FirstLoop(t: string): (r: Option<Loop>)
    ensures r.Some? ==> r.value.start < r.value.bodyStart <= r.value.closeIdx
    ensures r.Some? ==> r.value.closeIdx + |EachClose| <= |t|
  {
    match FindOpen(t, 0)
    case None => None
    case Some(start) =>
      var open := TokAt(t, start);
      match MatchingClose(t, start + open.len, 1)
      case None => None
      case Some(closeIdx) =>
        MatchingCloseIsClose(t, start + open.len, 1);
        Some(Loop(start, start + open.len, open.path, closeIdx))
  }

  /** The loop pass has stopped: no `{{#each}}` is left, or the first one
      has no matching close. */
  predicate EachPassDone(t: string)
  {
    FirstLoop(t).None?
  }

  /** The outcome of one iteration of an expansion loop: the loop returns
      `result` (`None` when the fuel ran out), or continues with `next`. */
  datatype Outcome = Done(result: Option<string>) | Continue(next: string)

  /** `render(tpl, ctx)`: loops, then conditionals, then `this`, then keys. */
  function Render(tpl: string, ctx: Value, fuel: nat): Option<string>
    decreases fuel, 3, 0
  {
    match ExpandEach(tpl, ctx, fuel)
    case None => None
    case Some(a) =>
      match ExpandIf(a, ctx, fuel)
      case None => None
      case Some(b) => Some(ReplaceKeys(ReplaceThis(b, ctx), ctx))
  }

  /** `arr.map(item => render(inner, { ...ctx, this: item })).join('')`. */
  function RenderEach(body: string, items: seq<Value>, ctx: Value, fuel: nat): Option<string>
    decreases fuel, 4, |items|
  {
    if |items| == 0 then Some("")
    else match Render(body, WithThis(ctx, items[0]), fuel)
      case None => None
      case Some(first) =>
        match RenderEach(body, items[1..], ctx, fuel)
        case None => None
        case Some(rest) => Some(first + rest)
  }

  /** One iteration of `expandEachBlocks`: stop when there is no loop left
      or the first one is unmatched; otherwise splice the rendered items in
      place of the whole loop, both directives included. */
  function EachStep(tpl: string, ctx: Value, fuel: nat): (r: Outcome)
    decreases fuel, 1, 0
    ensures r.Continue? ==> fuel > 0
  {
    match FirstLoop(tpl)
    case None => Done(Some(tpl))
    case Some(l) =>
      if fuel == 0 then Done(None)
      else
        match RenderEach(tpl[l.bodyStart..l.closeIdx], LoopItems(Get(ctx, l.path)), ctx, fuel - 1)
        case None => Done(None)
        case Some(rendered) => Continue(tpl[..l.start] + rendered + tpl[l.closeIdx + |EachClose|..])
  }

  /** `expandEachBlocks`: expands the first loop, then starts over. */
  function ExpandEach(tpl: string, ctx: Value, fuel: nat): Option<string>
    decreases fuel, 2, 0
  {
    match EachStep(tpl, ctx, fuel)
    case Done(r) => r
    case Continue(next) => ExpandEach(next, ctx, fuel - 1)
  }

  /** One iteration of `expandIfBlocks`: stop when no conditional block is
      left; otherwise replace the first block by its chosen branch, rendered
      against the same context. */
  function IfStep(tpl: string, ctx: Value, fuel: nat): (r: Outcome)
    decreases fuel, 1, 0
    ensures r.Continue? ==> fuel > 0
  {
    match IfMatch(tpl)
    case None => Done(Some(tpl))
    case Some(m) =>
      if fuel == 0 then Done(None)
      else
        var chosen := if Cond(Resolve(ctx, m.path)) then m.yes else m.no;
        match Render(chosen, ctx, fuel - 1)
        case None => Done(None)
        case Some(rendered) => Continue(tpl[..m.start] + rendered + tpl[m.end..])
  }

  /** `expandIfBlocks`: replaces the first conditional block, then starts over. */
  function ExpandIf(tpl: string, ctx: Value, fuel: nat): Option<string>
    decreases fuel, 2, 0
  {
    match IfStep(tpl, ctx, fuel)
    case Done(r) => r
    case Continue(next) => ExpandIf(next, ctx, fuel - 1)
  }

  /** The first loop is the one the scanner finds. */
  lemma FirstLoopFound(t: string, start: nat, closeIdx: nat)
    requires FindOpen(t, 0) == Some(start)
    requires MatchingClose(t, start + TokAt(t, start).len, 1) == Some(closeIdx)
    ensures FirstLoop(t) == Some(Loop(start, start + TokAt(t, start).len, TokAt(t, start).path, closeIdx))
  {
  }

  /** A loop whose items all render is replaced by the concatenation of
      their renders. */
  lemma EachStepSplice(t: string, ctx: Value, fuel: nat, l: Loop, rendered: string)
    requires FirstLoop(t) == Some(l) && fuel > 0
    requires RenderEach(t[l.bodyStart..l.closeIdx], LoopItems(Get(ctx, l.path)), ctx, fuel - 1) == Some(rendered)
    ensures EachStep(t, ctx, fuel) == Continue(t[..l.start] + rendered + t[l.closeIdx + |EachClose|..])
  {
  }

  /** A loop one of whose items runs out of fuel stops the pass. */
  lemma EachStepFails(t: string, ctx: Value, fuel: nat, l: Loop)
    requires FirstLoop(t) == Some(l) && fuel > 0
    requires RenderEach(t[l.bodyStart..l.closeIdx], LoopItems(Get(ctx, l.path)), ctx, fuel - 1).None?
    ensures EachStep(t, ctx, fuel) == Done(None)
  {
  }

  /** `openRe.exec(tpl)` followed by `findMatchingEachClose`: the first loop
      of the template, or `None` when the loop pass must stop. */
  method FindFirstLoop(t: string) returns (l: Option<Loop>)
    ensures l == FirstLoop(t)
  {
    var m := FindOpen(t, 0);
    if m.None? {
      return None;
    }
    var startIdx, open := m.value, TokAt(t, m.value);
    var closeInfo := FindMatchingEachClose(t, startIdx + open.len);
    if closeInfo.None? {
      return None;
    }
    FirstLoopFound(t, startIdx, closeInfo.value.closeIdx);
    return Some(Loop(startIdx, startIdx + open.len, open.path, closeInfo.value.closeIdx));
  }

  /** The body of the `while (true)` loop of `expandEachBlocks`. */
  method ExpandEachIteration(t: string, ctx: Value, f: nat) returns (step: Outcome)
    ensures step == EachStep(t, ctx, f)
  {
    var l := FindFirstLoop(t);
    if l.None? {
      return Done(Some(t));
    }
    if f == 0 {
      return Done(None);
    }
    var loop := l.value;
    var inner := t[loop.bodyStart..loop.closeIdx];
    var rendered := RenderEach(inner, LoopItems(Get(ctx, loop.path)), ctx, f - 1);
    if rendered.None? {
      EachStepFails(t, ctx, f, loop);
      return Done(None);
    }
    EachStepSplice(t, ctx, f, loop, rendered.value);
    return Continue(t[..loop.start] + rendered.value + t[loop.closeIdx + |EachClose|..]);
  }

  /** The loop of `expandEachBlocks`, splicing a local copy of the template. */
  method ExpandEachBlocks(tpl: string, ctx: Value, fuel: nat) returns (r: Option<string>)
    ensures r == ExpandEach(tpl, ctx, fuel)
  {
    var t := tpl;
    var f := fuel;
    while true
      invariant ExpandEach(t, ctx, f) == ExpandEach(tpl, ctx, fuel)
      decreases f
    {
      var step := ExpandEachIteration(t, ctx, f);
      if step.Done? {
        return step.result;
      }
      t, f := step.next, f - 1;
    }
  }

  /** The body of the `while (true)` loop of `expandIfBlocks`. */
  method ExpandIfIteration(t: string, ctx: Value, f: nat) returns (step: Outcome)
    ensures step == IfStep(t, ctx, f)
  {
    var m := IfMatch(t);
    if m.None? {
      return Done(Some(t));
    }
    if f == 0 {
      return Done(None);
    }
    var v := Resolve(ctx, m.value.path);
    var chosen := if Cond(v) then m.value.yes else m.value.no;
    var rendered := Render(chosen, ctx, f - 1);
    if rendered.None? {
      return Done(None);
    }
    return Continue(t[..m.value.start] + rendered.value + t[m.value.end..]);
  }

  /** The loop of `expandIfBlocks`. */
  method ExpandIfBlocks(tpl: string, ctx: Value, fuel: nat) returns (r: Option<string>)
    ensures r == ExpandIf(tpl, ctx, fuel)
  {
    var t := tpl;
    var f := fuel;
    while true
      invariant ExpandIf(t, ctx, f) == ExpandIf(tpl, ctx, fuel)
      decreases f
    {
      var step := ExpandIfIteration(t, ctx, f);
      if step.Done? {
        return step.result;
      }
      t, f := step.next, f - 1;
    }
  }
}
