/** Properties of the conditional pass: where a block ends, how it splits
    into its two branches, and how the condition is resolved. */
module TemplateConditionals {
  import opened Wrappers
  import opened Text
  import opened Json
  import opened TemplateEngine

  /** An occurrence of `{{/if}}` starts with `{{/`. */
  lemma CloseChars(s: string, k: nat)
    ensures OccursAt(s, IfClose, k) ==> k + 2 < |s| && s[k] == '{' && s[k + 1] == '{' && s[k + 2] == '/'
  {
    if OccursAt(s, IfClose, k) {
      OccursAtSlice(s, IfClose, k);
      assert s[k..k + |IfClose|][2] == '/';
    }
  }

  /** `{{else}}` and `{{/if}}` cannot overlap. */
  lemma ElseNotClose(s: string, e: nat, k: nat)
    requires OccursAt(s, ElseTag, e) && e <= k < e + |ElseTag|
    ensures !OccursAt(s, IfClose, k)
  {
    OccursAtSlice(s, ElseTag, e);
    CloseChars(s, k);
    assert s[e..e + |ElseTag|][k - e] == s[k];
    if k + 1 < e + |ElseTag| {
      assert s[e..e + |ElseTag|][k + 1 - e] == s[k + 1];
    }
    if k + 2 < e + |ElseTag| {
      assert s[e..e + |ElseTag|][k + 2 - e] == s[k + 2];
    }
  }

  /** The first occurrence at or after `p` is the first at or after `x`
      when nothing occurs in between. */
  lemma {:induction false} FindFromSkips(s: string, pat: string, p: nat, x: nat)
    requires p <= x
    requires forall k :: p <= k < x ==> !OccursAt(s, pat, k)
    ensures FindFrom(s, pat, p) == FindFrom(s, pat, x)
    decreases x - p
  {
    if p < x {
      FindFromSkips(s, pat, p + 1, x);
    }
  }

  /** The lazy body match succeeds exactly when some `{{/if}}` follows. */
  lemma {:induction false} IfBodyExists(s: string, b: nat, p: nat)
    requires b <= p <= |s|
    ensures IfBody(s, b, p).Some? <==> FindFrom(s, IfClose, p).Some?
    decreases |s| - p
  {
    if p + |IfClose| <= |s| && !OccursAt(s, IfClose, p)
      && !(OccursAt(s, ElseTag, p) && FindFrom(s, IfClose, p + |ElseTag|).Some?)
    {
      IfBodyExists(s, b, p + 1);
    }
  }

  /** Candidate end positions with neither `{{else}}` nor `{{/if}}` are
      passed over. */
  lemma {:induction false} IfBodySkips(s: string, b: nat, p: nat, e: nat)
    requires b <= p <= e <= |s|
    requires forall k :: p <= k < e ==> !OccursAt(s, ElseTag, k) && !OccursAt(s, IfClose, k)
    ensures IfBody(s, b, p) == IfBody(s, b, e)
    decreases e - p
  {
    if p < e {
      if p + |IfClose| > |s| {
        IfBodyExists(s, b, e);
      } else {
        IfBodySkips(s, b, p + 1, e);
      }
    }
  }

  /** Without `{{else}}` before the first `{{/if}}`, the block ends at that
      close, the true branch is everything before it and the false branch
      is empty. */
  lemma IfBodyNoElse(s: string, b: nat, c: nat)
    requires b <= |s| && FindFrom(s, IfClose, b) == Some(c)
    requires forall k :: b <= k < c ==> !OccursAt(s, ElseTag, k)
    ensures IfBody(s, b, b) == Some((s[b..c], "", c + |IfClose|))
  {
    IfBodySkips(s, b, b, c);
    if OccursAt(s, ElseTag, c) {
      ElseNotClose(s, c, c);
    }
  }

  /** With an `{{else}}` at `e` before any `{{/if}}`, the true branch runs up
      to it, the false branch from it to the first `{{/if}}`, and the block
      ends at that close, which is also the first `{{/if}}` after the
      opening directive. Without a close there is no block. */
  lemma IfBodyWithElse(s: string, b: nat, e: nat)
    requires b <= e && OccursAt(s, ElseTag, e)
    requires forall k :: b <= k < e ==> !OccursAt(s, ElseTag, k) && !OccursAt(s, IfClose, k)
    ensures match FindFrom(s, IfClose, b)
      case None => IfBody(s, b, b).None?
      case Some(c) => IfBody(s, b, b) == Some((s[b..e], s[e + |ElseTag|..c], c + |IfClose|))
  {
    IfBodySkips(s, b, b, e);
    forall k | e <= k < e + |ElseTag| ensures !OccursAt(s, IfClose, k) {
      ElseNotClose(s, e, k);
    }
    FindFromSkips(s, IfClose, b, e + |ElseTag|);
    IfBodyExists(s, b, b);
  }

  /** The leftmost `{{#if}}` directive whose block can be completed is the
      one expanded; blocks are not nested: an inner `{{#if}}` is plain text
      of the outer block's branches. */
  lemma IfMatchAt(s: string, i: nat, d: Directive)
    requires i <= |s| && OpenAt(s, i, IfHead) == Some(d)
    requires FindFrom(s, IfClose, i + d.len).Some?
    ensures IfMatchFrom(s, i).Some? && IfMatchFrom(s, i).value.start == i
    ensures IfMatchFrom(s, i).value.path == d.path
  {
    IfBodyExists(s, i + d.len, i + d.len);
  }

  /** One expansion replaces the block by the render of the chosen branch:
      the true branch when the condition holds, the false branch
      (empty without `{{else}}`) otherwise. */
  lemma IfStepSplice(t: string, ctx: Value, fuel: nat, m: IfBlock)
    requires IfMatch(t) == Some(m) && fuel > 0
    ensures var chosen := if Cond(Resolve(ctx, m.path)) then m.yes else m.no;
      match Render(chosen, ctx, fuel - 1)
      case Some(r) => IfStep(t, ctx, fuel) == Continue(t[..m.start] + r + t[m.end..])
      case None => IfStep(t, ctx, fuel) == Done(None)
  {
  }
}
