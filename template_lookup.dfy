/** Properties of path lookup (`get`), the loop context, and the two
    interpolation passes on single tokens. */
module TemplateLookup {
  import opened Wrappers
  import opened Text
  import opened Json
  import opened TemplateEngine

  // ---------------- get ----------------

  /** Once the walk reaches a value without properties it stays undefined. */
  lemma {:induction false} WalkFromNothing(o: Value, keys: seq<string>)
    requires !o.Obj? && !o.Arr? && |keys| > 0
    ensures Walk(o, keys) == Undefined
    decreases |keys|
  {
    if |keys| > 1 {
      WalkFromNothing(Undefined, keys[1..]);
    }
  }

  /** `get` gives undefined as soon as a key is absent or an intermediate
      value is null or undefined, whatever the remaining keys are. */
  lemma WalkStops(o: Value, k: string, rest: seq<string>)
    requires Step(o, k) == Undefined
    ensures Walk(o, [k] + rest) == Undefined
  {
    assert ([k] + rest)[1..] == rest;
    if |rest| > 0 {
      WalkFromNothing(Undefined, rest);
    }
  }

  /** Walking two key lists one after the other is walking their
      concatenation. */
  lemma {:induction false} WalkAppend(o: Value, xs: seq<string>, ys: seq<string>)
    ensures Walk(o, xs + ys) == Walk(Walk(o, xs), ys)
    decreases |xs|
  {
    if |xs| == 0 {
      assert xs + ys == ys;
    } else {
      assert (xs + ys)[1..] == xs[1..] + ys;
      WalkAppend(Step(o, xs[0]), xs[1..], ys);
    }
  }

  /** Looking up a dotted path is looking up its parts in turn. */
  lemma GetDotted(obj: Value, a: string, b: string)
    ensures Get(obj, a + "." + b) == Get(Get(obj, a), b)
  {
    if Truthy(obj) {
      SplitAround(a, '.', b);
      WalkAppend(obj, Split(a, '.'), Split(b, '.'));
      var v := Get(obj, a);
      if !Truthy(v) {
        WalkFromNothing(v, Split(b, '.'));
      }
    }
  }

  /** An array index written in decimal reads the element. */
  lemma GetArrayIndex(items: seq<Value>, i: nat)
    requires i < |items|
    ensures Get(Arr(items), NatToDecimal(i)) == items[i]
  {
    ArrayIndexOfDecimal(i);
    var s := NatToDecimal(i);
    SplitNoSeparator(s, '.');
    assert Walk(Arr(items), [s]) == Walk(Step(Arr(items), s), []);
  }

  /** `length` reads the size of an array. */
  lemma GetArrayLength(items: seq<Value>)
    ensures Get(Arr(items), "length") == Num(|items|)
  {
    SplitNoSeparator("length", '.');
    assert ArrayIndex("length").None? by { assert !IsDigit("length"[0]); }
    assert Walk(Arr(items), ["length"]) == Walk(Step(Arr(items), "length"), []);
  }

  // ---------------- the loop context ----------------

  /** In a loop over an object context, a path whose first segment is not
      `this` and that the context does not have falls back to the same path
      on the current item (when the item is truthy). */
  lemma ResolveFallsBackToItem(ctx: Value, item: Value, path: string)
    requires ctx.Obj? && Truthy(item)
    requires Split(path, '.')[0] != "this" && Get(ctx, path) == Undefined
    ensures Resolve(WithThis(ctx, item), path) == Get(item, path)
  {
    var keys := Split(path, '.');
    var loopCtx := WithThis(ctx, item);
    assert Step(loopCtx, keys[0]) == Step(ctx, keys[0]);
    assert Get(loopCtx, path) == Walk(Step(loopCtx, keys[0]), keys[1..]);
  }

  /** A path the context has keeps its value inside a loop: only `this` is
      rebound. */
  lemma ResolveKeepsContext(ctx: Value, item: Value, path: string)
    requires ctx.Obj? && Split(path, '.')[0] != "this" && Get(ctx, path) != Undefined
    ensures Resolve(WithThis(ctx, item), path) == Get(ctx, path)
  {
    var keys := Split(path, '.');
    var loopCtx := WithThis(ctx, item);
    assert Step(loopCtx, keys[0]) == Step(ctx, keys[0]);
    assert Get(loopCtx, path) == Walk(Step(loopCtx, keys[0]), keys[1..]);
  }

  // ---------------- interpolation of single tokens ----------------

  /** The path characters at the start of `p + t`, when `t` does not go on
      with one, are those of `p`. */
  lemma {:induction false} PathRunOf(p: string, t: string)
    requires forall i :: 0 <= i < |p| ==> IsPathChar(p[i])
    requires |t| == 0 || !IsPathChar(t[0])
    ensures PathRun(p + t) == |p|
  {
    if |p| > 0 {
      assert (p + t)[1..] == p[1..] + t;
      PathRunOf(p[1..], t);
    } else {
      assert p + t == t;
    }
  }

  /** `{{path}}` is replaced by the text of the path resolved against the
      context; the rest of the text is processed after it. */
  lemma ReplaceKeysToken(p: string, rest: string, ctx: Value)
    requires ValidPath(p)
    ensures ReplaceKeys("{{" + p + "}}" + rest, ctx) == ToStr(Resolve(ctx, p)) + ReplaceKeys(rest, ctx)
  {
    var s := "{{" + p + "}}" + rest;
    assert s[2..] == p + ("}}" + rest);
    PathRunOf(p, "}}" + rest);
    assert s[2 + |p|..] == "}}" + rest;
    assert s[2..2 + |p|] == p;
    assert KeyTokenAt(s) == Some((p, |p| + 4));
    assert s[|p| + 4..] == rest;
  }

  /** `{{this}}` is replaced by the text of `ctx.this`. */
  lemma ReplaceThisToken(rest: string, ctx: Value)
    ensures ReplaceThis("{{this}}" + rest, ctx) == ToStr(ThisOf(ctx)) + ReplaceThis(rest, ctx)
  {
    var s := "{{this}}" + rest;
    assert s[2..] == "this}}" + rest;
    assert s[6..] == "}}" + rest;
    assert ThisTokenAt(s) == Some((None, 8));
    assert s[8..] == rest;
  }

  /** `{{this.path}}` is replaced by the text of the path looked up in
      `ctx.this`. */
  lemma ReplaceThisPathToken(p: string, rest: string, ctx: Value)
    requires ValidPath(p)
    ensures ReplaceThis("{{this." + p + "}}" + rest, ctx) == ToStr(Get(ThisOf(ctx), p)) + ReplaceThis(rest, ctx)
  {
    var s := "{{this." + p + "}}" + rest;
    assert s[2..] == "this." + p + "}}" + rest;
    assert s[7..] == p + ("}}" + rest);
    PathRunOf(p, "}}" + rest);
    assert s[7..7 + |p|] == p;
    assert s[7 + |p|..] == "}}" + rest;
    assert ThisTokenAt(s) == Some((Some(p), |p| + 9));
    assert s[|p| + 9..] == rest;
  }
}
