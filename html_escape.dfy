/** `esc`, the HTML escaper of the history and about pages: five global
    replacements applied one after the other, `&` first. */
module HtmlEscape {
  import opened Text
  import opened Json

  /** `s.replace(/c/g, rep)` for a single character `c`. */
  function ReplaceChar(s: string, c: char, rep: string): (r: string)
    ensures c !in rep ==> c !in r
    decreases |s|
  {
    if |s| == 0 then ""
    else (if s[0] == c then rep else [s[0]]) + ReplaceChar(s[1..], c, rep)
  }

  /** The character the `k`-th replacement of `esc` looks for, `&` first. */
  function RuleChar(k: nat): char
  {
    if k == 0 then '&' else if k == 1 then '<' else if k == 2 then '>' else if k == 3 then '"' else '\''
  }

  /** The entity the `k`-th replacement writes. */
  function RuleText(k: nat): string
  {
    if k == 0 then "&amp;" else if k == 1 then "&lt;" else if k == 2 then "&gt;" else if k == 3 then "&quot;" else "&#39;"
  }

  const RuleCount := 5

  /** The replacements from the `k`-th on, each applied to the whole text. */
  function ReplaceFrom(s: string, k: nat): string
    decreases RuleCount - k
  {
    if k >= RuleCount then s else ReplaceFrom(ReplaceChar(s, RuleChar(k), RuleText(k)), k + 1)
  }

  /** The escape of a text: all five replacements in order. */
  function EscText(s: string): string
  {
    ReplaceFrom(s, 0)
  }

  /** `esc(v)`: escapes `String(v)`. */
  function Esc(v: Value): string
  {
    EscText(StringOf(v))
  }

  /** The character-by-character reading of `esc`: each of the five
      special characters becomes its entity, every other character stays. */
  function Entity(c: char): string
  {
    if c == '&' then "&amp;"
    else if c == '<' then "&lt;"
    else if c == '>' then "&gt;"
    else if c == '"' then "&quot;"
    else if c == '\'' then "&#39;"
    else [c]
  }

  function EscapeEach(s: string): string
    decreases |s|
  {
    if |s| == 0 then "" else Entity(s[0]) + EscapeEach(s[1..])
  }

  predicate Special(c: char)
  {
    c == '&' || c == '<' || c == '>' || c == '"' || c == '\''
  }

  // ---------------- each character independently ----------------

  lemma {:induction false} ReplaceCharAppend(a: string, b: string, c: char, rep: string)
    ensures ReplaceChar(a + b, c, rep) == ReplaceChar(a, c, rep) + ReplaceChar(b, c, rep)
    decreases |a|
  {
    if |a| == 0 {
      assert a + b == b;
    } else {
      assert (a + b)[1..] == a[1..] + b;
      ReplaceCharAppend(a[1..], b, c, rep);
    }
  }

  /** A chain of replacements distributes over concatenation. */
  lemma {:induction false} ReplaceFromAppend(x: string, y: string, k: nat)
    ensures ReplaceFrom(x + y, k) == ReplaceFrom(x, k) + ReplaceFrom(y, k)
    decreases RuleCount - k
  {
    if k < RuleCount {
      ReplaceCharAppend(x, y, RuleChar(k), RuleText(k));
      ReplaceFromAppend(ReplaceChar(x, RuleChar(k), RuleText(k)), ReplaceChar(y, RuleChar(k), RuleText(k)), k + 1);
    }
  }

  /** `esc` of a concatenation is the concatenation of the escapes. */
  lemma EscTextAppend(x: string, y: string)
    ensures EscText(x + y) == EscText(x) + EscText(y)
  {
    ReplaceFromAppend(x, y, 0);
  }

  /** Replacements of characters the text does not contain change nothing. */
  lemma {:induction false} ReplaceFromAbsent(s: string, k: nat)
    requires forall j :: k <= j < RuleCount ==> RuleChar(j) !in s
    ensures ReplaceFrom(s, k) == s
    decreases RuleCount - k
  {
    if k < RuleCount {
      ReplaceCharAbsent(s, RuleChar(k), RuleText(k));
      ReplaceFromAbsent(s, k + 1);
    }
  }

  /** A single character goes through the chain unchanged up to the rule
      for it; from there on its entity goes through the rest. */
  lemma {:induction false} ReplaceFromChar(c: char, k: nat, i: nat)
    requires k <= i < RuleCount && RuleChar(i) == c
    requires forall j :: k <= j < i ==> RuleChar(j) != c
    ensures ReplaceFrom([c], k) == ReplaceFrom(RuleText(i), i + 1)
    decreases i - k
  {
    ReplaceCharOne(c, RuleChar(k), RuleText(k));
    if k < i {
      ReplaceFromChar(c, k + 1, i);
    }
  }

  /** The entity of the `i`-th rule holds none of the later rules'
      characters, because `&` is replaced first. */
  lemma EntityUntouched(i: nat)
    requires i < RuleCount
    ensures forall j :: i < j < RuleCount ==> RuleChar(j) !in RuleText(i)
  {
  }

  /** Each character is escaped on its own: a special character becomes
      its entity, any other character stays. */
  lemma EscTextChar(c: char)
    ensures EscText([c]) == Entity(c)
  {
    if Special(c) {
      var i := if c == '&' then 0 else if c == '<' then 1 else if c == '>' then 2 else if c == '"' then 3 else 4;
      ReplaceFromChar(c, 0, i);
      EntityUntouched(i);
      ReplaceFromAbsent(RuleText(i), i + 1);
    } else {
      ReplaceFromAbsent([c], 0);
    }
  }

  /** One replacement on a one-character string. */
  lemma ReplaceCharOne(d: char, c: char, rep: string)
    ensures ReplaceChar([d], c, rep) == (if d == c then rep else [d])
  {
    assert [d][1..] == [];
  }

  /** A replacement of a character the text does not contain changes nothing. */
  lemma {:induction false} ReplaceCharAbsent(s: string, c: char, rep: string)
    ensures c !in s ==> ReplaceChar(s, c, rep) == s
    decreases |s|
  {
    if |s| > 0 && c !in s {
      ReplaceCharAbsent(s[1..], c, rep);
      assert s == [s[0]] + s[1..];
    }
  }

  /** `esc` escapes each character independently. */
  lemma {:induction false} EscTextIsEscapeEach(s: string)
    ensures EscText(s) == EscapeEach(s)
    decreases |s|
  {
    if |s| > 0 {
      assert s == [s[0]] + s[1..];
      EscTextAppend([s[0]], s[1..]);
      EscTextChar(s[0]);
      EscTextIsEscapeEach(s[1..]);
    }
  }

  // ---------------- consequences ----------------

  /** After `esc` no `<`, `>`, `"` or `'` is left. */
  lemma {:induction false} EscapeEachSafe(s: string)
    ensures forall i :: 0 <= i < |EscapeEach(s)| ==> !(EscapeEach(s)[i] in "<>\"'")
    decreases |s|
  {
    if |s| > 0 {
      EscapeEachSafe(s[1..]);
      var e := Entity(s[0]);
      var r := EscapeEach(s[1..]);
      assert forall i :: 0 <= i < |e| ==> !(e[i] in "<>\"'");
      forall i | 0 <= i < |e + r| ensures !((e + r)[i] in "<>\"'") {
        if i >= |e| { assert (e + r)[i] == r[i - |e|]; }
      }
    }
  }

  lemma EscSafe(s: string)
    ensures forall i :: 0 <= i < |EscText(s)| ==> !(EscText(s)[i] in "<>\"'")
  {
    EscTextIsEscapeEach(s);
    EscapeEachSafe(s);
  }

  /** Text without any of the five special characters is unchanged. */
  lemma {:induction false} EscapeEachPlain(s: string)
    requires forall i :: 0 <= i < |s| ==> !Special(s[i])
    ensures EscapeEach(s) == s
    decreases |s|
  {
    if |s| > 0 {
      EscapeEachPlain(s[1..]);
      assert s == [s[0]] + s[1..];
    }
  }

  lemma EscPlain(s: string)
    requires forall i :: 0 <= i < |s| ==> !Special(s[i])
    ensures EscText(s) == s
  {
    EscTextIsEscapeEach(s);
    EscapeEachPlain(s);
  }

  /** Every `&` is escaped, also one that starts an entity already present
      in the input (`&amp;` becomes `&amp;amp;`). */
  lemma AmpersandAlwaysEscaped(t: string)
    ensures EscText(['&'] + t) == "&amp;" + EscText(t)
  {
    EscTextAppend(['&'], t);
    EscTextChar('&');
  }

  // ---------------- the inverse ----------------

  /** Decoding of the five entities, left to right. */
  function Unescape(s: string): string
    decreases |s|
  {
    if "&amp;" <= s then "&" + Unescape(s[5..])
    else if "&lt;" <= s then "<" + Unescape(s[4..])
    else if "&gt;" <= s then ">" + Unescape(s[4..])
    else if "&quot;" <= s then "\"" + Unescape(s[6..])
    else if "&#39;" <= s then "'" + Unescape(s[5..])
    else if |s| == 0 then ""
    else [s[0]] + Unescape(s[1..])
  }

  /** Decoding one escaped character. */
  lemma UnescapeEntity(c: char, rest: string)
    ensures Unescape(Entity(c) + rest) == [c] + Unescape(rest)
  {
    var e := Entity(c);
    var s := e + rest;
    assert s[..|e|] == e && s[|e|..] == rest;
    if c == '&' {
      assert "&amp;" <= s;
    } else if c == '<' {
      assert s[1] == 'l';
      assert "&lt;" <= s;
    } else if c == '>' {
      assert s[1] == 'g';
      assert "&gt;" <= s;
    } else if c == '"' {
      assert s[1] == 'q';
      assert "&quot;" <= s;
    } else if c == '\'' {
      assert s[1] == '#';
      assert "&#39;" <= s;
    } else {
      assert s[0] == c != '&';
      assert s[1..] == rest;
    }
  }

  /** Decoding undoes `esc`: no information is lost. */
  lemma {:induction false} UnescapeEscapeEach(s: string)
    ensures Unescape(EscapeEach(s)) == s
    decreases |s|
  {
    if |s| > 0 {
      UnescapeEntity(s[0], EscapeEach(s[1..]));
      UnescapeEscapeEach(s[1..]);
      assert s == [s[0]] + s[1..];
    }
  }

  lemma UnescapeEsc(s: string)
    ensures Unescape(EscText(s)) == s
  {
    EscTextIsEscapeEach(s);
    UnescapeEscapeEach(s);
  }

  /** Different texts have different escapes. */
  lemma EscInjective(s: string, t: string)
    requires EscText(s) == EscText(t)
    ensures s == t
  {
    UnescapeEsc(s);
    UnescapeEsc(t);
  }
}
