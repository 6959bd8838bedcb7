/** Two helpers of the milestones page: `withAlpha`, which turns a
    `#rrggbb` colour into an `rgba(..)` colour with an alpha, and the
    footer navigation built by `populateFooterNavFromData`. */
module Milestones {
  import opened Wrappers
  import opened Text
  import opened Json
  import opened Numbers

  // ---------------- withAlpha ----------------

  /** `s.replace(c, "")` with a one-character string pattern: only the
      first occurrence goes. */
  function RemoveFirst(s: string, c: char): (r: string)
    ensures c !in s ==> r == s
    ensures c in s ==> |r| == |s| - 1
    ensures |s| > 0 && s[0] == c ==> r == s[1..]
  {
    if |s| == 0 then s
    else if s[0] == c then s[1..]
    else [s[0]] + RemoveFirst(s[1..], c)
  }

  /** Wherever the first `c` stands, it is the one removed: the text before
      it and the text after it are kept. */
  lemma {:induction false} RemoveFirstAt(s: string, c: char, i: nat)
    requires i < |s| && s[i] == c && c !in s[..i]
    ensures RemoveFirst(s, c) == s[..i] + s[i + 1..]
  {
    if i > 0 {
      assert s[0] != c by { assert s[0] == s[..i][0]; }
      assert s[1..][..i - 1] == s[1..i];
      assert c !in s[1..i] by {
        forall k | 0 <= k < i - 1 ensures s[1..i][k] != c { assert s[1..i][k] == s[..i][k + 1]; }
      }
      RemoveFirstAt(s[1..], c, i - 1);
      assert s[..i] == [s[0]] + s[1..i];
      assert s[1..][i..] == s[i + 1..];
    }
  }

  /** `s.slice(from, to)` for `0 <= from <= to`: both ends clipped to the length. */
  function Slice(s: string, from: nat, to: nat): (r: string)
    requires from <= to
    ensures |r| <= to - from
  {
    var e := if to <= |s| then to else |s|;
    var b := if from <= e then from else e;
    s[b..e]
  }

  /** The default alpha, `0.2`, as the template literal writes it. */
  const DefaultAlpha: string := "0.2"

  /** The template literal `rgba(${r}, ${g}, ${b}, ${a})`. */
  function Rgba(r: string, g: string, b: string, a: string): string
  {
    "rgba(" + r + ", " + g + ", " + b + ", " + a + ")"
  }

  /** `String(parseInt(h.slice(2k, 2k + 2), 16))`: channel `k` as written. */
  function Channel(h: string, k: nat): string
  {
    IntOrNaNText(ParseIntHex(Slice(h, 2 * k, 2 * k + 2)))
  }

  /** `withAlpha(hex, a)`: the channels are read from the hex pairs at
      [0,2), [2,4) and [4,6) after the first `#` is removed, each written as
      a decimal integer or `NaN`; `alpha` is the text of `a`. */
  function WithAlpha(hex: string, alpha: string): string
  {
    var h := RemoveFirst(hex, '#');
    Rgba(Channel(h, 0), Channel(h, 1), Channel(h, 2), alpha)
  }

  /** `parseInt` of two hexadecimal digits is their value, in 0..255. */
  lemma ParseIntHexPair(p: string, v: int)
    requires |p| == 2 && IsHexDigit(p[0]) && IsHexDigit(p[1])
    requires v == HexDigitValue(p[0]) * 16 + HexDigitValue(p[1])
    ensures ParseIntHex(p) == Some(v)
    ensures 0 <= v <= 255
  {
    assert !IsSpace(p[0]);
    assert TrimStart(p) == p;
    assert !(p[1] == 'x' || p[1] == 'X');
    assert HexRun(p[2..]) == 0;
    assert HexRun(p[1..]) == 1 by { assert p[1..][1..] == p[2..]; }
    assert HexRun(p) == 2;
    assert p[..2] == p && p[..2][..1] == [p[0]];
    assert RadixValue([p[0]], 16) == HexDigitValue(p[0]) by {
      assert [p[0]][..0] == [];
    }
  }

  /** The two hexadecimal digits of a byte, lower case. */
  function HexByte(n: nat): (s: string)
    requires n < 256
    ensures |s| == 2 && IsHexDigit(s[0]) && IsHexDigit(s[1])
    ensures HexDigitValue(s[0]) * 16 + HexDigitValue(s[1]) == n
  {
    [HexDigitChar(n / 16), HexDigitChar(n % 16)]
  }

  function HexDigitChar(d: nat): (c: char)
    requires d < 16
    ensures IsHexDigit(c) && HexDigitValue(c) == d
  {
    if d < 10 then (d + '0' as int) as char else (d - 10 + 'a' as int) as char
  }

  /** Six hexadecimal digits of either case: the `rrggbb` of a colour. */
  predicate HexColour(h: string)
  {
    |h| == 6 && forall i :: 0 <= i < 6 ==> IsHexDigit(h[i])
  }

  /** The value of the hex pair of channel `k`. */
  function PairValue(h: string, k: nat): int
    requires 2 * k + 2 <= |h|
  {
    HexDigitValue(h[2 * k]) * 16 + HexDigitValue(h[2 * k + 1])
  }

  /** A channel whose pair is two hex digits, of either case, is their value
      in decimal, a number from 0 to 255. */
  lemma ChannelOfPair(h: string, k: nat)
    requires 2 * k + 2 <= |h| && IsHexDigit(h[2 * k]) && IsHexDigit(h[2 * k + 1])
    ensures Channel(h, k) == IntToDecimal(PairValue(h, k))
    ensures 0 <= PairValue(h, k) <= 255
  {
    var p := h[2 * k..2 * k + 2];
    assert Slice(h, 2 * k, 2 * k + 2) == p;
    assert p[0] == h[2 * k] && p[1] == h[2 * k + 1];
    ParseIntHexPair(p, PairValue(h, k));
    assert Channel(h, k) == IntOrNaNText(Some(PairValue(h, k)));
  }

  /** The channels of `rrggbb` are the values of its three pairs. */
  lemma ChannelsOfColour(h: string)
    requires HexColour(h)
    ensures Channel(h, 0) == IntToDecimal(PairValue(h, 0))
    ensures Channel(h, 1) == IntToDecimal(PairValue(h, 1))
    ensures Channel(h, 2) == IntToDecimal(PairValue(h, 2))
  {
    assert IsHexDigit(h[0]) && IsHexDigit(h[1]) && IsHexDigit(h[2]);
    assert IsHexDigit(h[3]) && IsHexDigit(h[4]) && IsHexDigit(h[5]);
    ChannelOfPair(h, 0);
    ChannelOfPair(h, 1);
    ChannelOfPair(h, 2);
  }

  /** For a `#rrggbb` colour the channels are the values of the three pairs
      and the alpha follows them. */
  lemma WithAlphaOfColour(h: string, alpha: string)
    requires HexColour(h)
    ensures WithAlpha("#" + h, alpha)
      == Rgba(IntToDecimal(PairValue(h, 0)), IntToDecimal(PairValue(h, 1)), IntToDecimal(PairValue(h, 2)), alpha)
  {
    assert RemoveFirst("#" + h, '#') == h by { assert ("#" + h)[1..] == h; }
    ChannelsOfColour(h);
  }

  /** The same without the `#`: `replace` finds nothing to remove. */
  lemma WithAlphaOfBareColour(h: string, alpha: string)
    requires HexColour(h)
    ensures WithAlpha(h, alpha)
      == Rgba(IntToDecimal(PairValue(h, 0)), IntToDecimal(PairValue(h, 1)), IntToDecimal(PairValue(h, 2)), alpha)
  {
    assert '#' !in h by {
      forall i | 0 <= i < |h| ensures h[i] != '#' {
        assert IsHexDigit(h[i]);
      }
    }
    ChannelsOfColour(h);
  }

  /** Writing three bytes as `#rrggbb` and applying `withAlpha` gives those
      bytes back in decimal. */
  lemma WithAlphaOfBytes(r: nat, g: nat, b: nat, alpha: string)
    requires r < 256 && g < 256 && b < 256
    ensures WithAlpha("#" + HexByte(r) + HexByte(g) + HexByte(b), alpha)
      == Rgba(IntToDecimal(r), IntToDecimal(g), IntToDecimal(b), alpha)
  {
    var x, y, z := HexByte(r), HexByte(g), HexByte(b);
    var h := x + y + z;
    assert h[0] == x[0] && h[1] == x[1] && h[2] == y[0] && h[3] == y[1] && h[4] == z[0] && h[5] == z[1];
    assert HexColour(h);
    assert PairValue(h, 0) == r && PairValue(h, 1) == g && PairValue(h, 2) == b;
    assert "#" + x + y + z == "#" + h;
    WithAlphaOfColour(h, alpha);
  }

  /** A channel past the end of the colour is `NaN`: `parseInt("", 16)`. */
  lemma ChannelPastEnd(h: string, k: nat)
    requires |h| <= 2 * k
    ensures Channel(h, k) == "NaN"
  {
    assert Slice(h, 2 * k, 2 * k + 2) == "";
    assert TrimStart("") == "";
    assert HexRun("") == 0;
  }

  // ---------------- footer navigation ----------------

  /** A normalized footer link. */
  datatype Link = Link(href: string, caption: string)

  /** `{ href, label }` as a JSON object. */
  function LinkObject(href: string, caption: string): Value
  {
    Obj([("href", Str(href)), ("label", Str(caption))])
  }

  /** The three links used when the data has none. */
  function DefaultLinks(): seq<Value>
  {
    [LinkObject("about.html", "About"), LinkObject("history.html", "History"),
     LinkObject("milestones.html", "Milestones")]
  }

  /** `Array.isArray(navLinks) && navLinks.length ? navLinks : defaults`. */
  function LinkSource(navLinks: Value): (r: seq<Value>)
    ensures navLinks.Arr? && |navLinks.items| > 0 ==> r == navLinks.items
    ensures !(navLinks.Arr? && |navLinks.items| > 0) ==> r == DefaultLinks()
  {
    if navLinks.Arr? && |navLinks.items| > 0 then navLinks.items else DefaultLinks()
  }

  /** `s.replace(/^\/+/, "")`: every leading `/` removed. */
  function StripSlashes(s: string): (r: string)
    ensures |r| <= |s| && r == s[|s| - |r|..]
    ensures r == [] || r[0] != '/'
    ensures forall i :: 0 <= i < |s| - |r| ==> s[i] == '/'
  {
    if |s| > 0 && s[0] == '/' then StripSlashes(s[1..]) else s
  }

  /** `l.label || "Link"`, written into the page as `String(..)`. */
  function LabelOf(l: Value): string
    requires !IsNullish(l)
  {
    var caption := Member(l, "label").value;
    StringOf(if Truthy(caption) then caption else Str("Link"))
  }

  /** The `map` callback: `{ href: (l.href || "").replace(/^\/+/, ""),
      label: l.label || "Link" }`. It throws on a null or undefined link and
      on a truthy `href` that is not a string (which has no `replace`). */
  function NormalizeLink(l: Value): (r: Result<Link>)
    ensures IsNullish(l) ==> r == TypeError
    ensures r.Ok? ==> r.value.href == [] || r.value.href[0] != '/'
  {
    if IsNullish(l) then TypeError
    else
      var href := Member(l, "href").value;
      if !Truthy(href) then Ok(Link("", LabelOf(l)))
      else if href.Str? then Ok(Link(StripSlashes(href.s), LabelOf(l)))
      else TypeError
  }

  /** The links of `populateFooterNavFromData`, normalized in order. */
  function NormalizeLinks(ls: seq<Value>): (r: Result<seq<Link>>)
    ensures r.Ok? ==> |r.value| == |ls|
    ensures r.Ok? ==> forall i :: 0 <= i < |ls| ==> NormalizeLink(ls[i]) == Ok(r.value[i])
    ensures r == TypeError <==> exists i :: 0 <= i < |ls| && NormalizeLink(ls[i]) == TypeError
  {
    if |ls| == 0 then Ok([])
    else
      match (NormalizeLink(ls[0]), NormalizeLinks(ls[1..]))
      case (Ok(x), Ok(rest)) =>
        assert forall i :: 1 <= i < |ls| ==> ls[i] == ls[1..][i - 1];
        Ok([x] + rest)
      case (TypeError, _) => TypeError
      case (_, TypeError) =>
        var j :| 0 <= j < |ls[1..]| && NormalizeLink(ls[1..][j]) == TypeError;
        assert NormalizeLink(ls[j + 1]) == TypeError;
        TypeError
  }

  /** The normalized link keeps the object's `href` without its leading
      slashes (empty when it is missing or falsy) and its label, `Link` when
      the label is missing or falsy. */
  lemma NormalizeLinkFields(l: Value, href: string, caption: string)
    requires l.Obj? && Lookup(l.fields, "href") == Some(Str(href)) && Lookup(l.fields, "label") == Some(Str(caption))
    ensures NormalizeLink(l) == Ok(Link(StripSlashes(href), if caption == "" then "Link" else caption))
  {
    assert Member(l, "href") == Ok(Str(href));
    assert Member(l, "label") == Ok(Str(caption));
    assert LabelOf(l) == if caption == "" then "Link" else caption;
    if href == "" {
      assert !Truthy(Str(href));
    } else {
      assert Truthy(Str(href));
    }
  }

  /** A link object without `href` and `label` becomes an empty link labelled `Link`. */
  lemma NormalizeLinkBare(l: Value)
    requires l.Obj? && Lookup(l.fields, "href").None? && Lookup(l.fields, "label").None?
    ensures NormalizeLink(l) == Ok(Link("", "Link"))
  {
  }

  /** A link written as `{ href, label }` with a non-empty label. */
  lemma NormalizeLinkObject(href: string, caption: string)
    requires caption != ""
    ensures NormalizeLink(LinkObject(href, caption)) == Ok(Link(StripSlashes(href), caption))
  {
    LinkObjectFields(href, caption);
    NormalizeLinkFields(LinkObject(href, caption), href, caption);
  }

  /** The two properties of `{ href, label }`. */
  lemma LinkObjectFields(href: string, caption: string)
    ensures Lookup(LinkObject(href, caption).fields, "href") == Some(Str(href))
    ensures Lookup(LinkObject(href, caption).fields, "label") == Some(Str(caption))
  {
    var fields := LinkObject(href, caption).fields;
    assert fields[0].0 == "href" && fields[1].0 == "label";
    assert "label" != "href" by { assert |"label"| != |"href"|; }
  }

  /** One unfolding of `NormalizeLinks`. */
  lemma NormalizeLinksCons(x: Value, xs: seq<Value>)
    ensures NormalizeLink(x).Ok? && NormalizeLinks(xs).Ok? ==>
      NormalizeLinks([x] + xs) == Ok([NormalizeLink(x).value] + NormalizeLinks(xs).value)
  {
    assert ([x] + xs)[0] == x && ([x] + xs)[1..] == xs;
  }

  /** A link object whose `href` has no leading `/` normalizes to itself. */
  lemma NormalizeLinkPlain(href: string, caption: string)
    requires caption != "" && (href == "" || href[0] != '/')
    ensures NormalizeLink(LinkObject(href, caption)) == Ok(Link(href, caption))
  {
    NormalizeLinkObject(href, caption);
  }

  /** A link that normalization leaves as it is: a label and no leading `/`. */
  predicate PlainLink(l: Link)
  {
    l.caption != "" && (l.href == "" || l.href[0] != '/')
  }

  /** The links written as `{ href, label }` objects. */
  function LinkObjects(links: seq<Link>): (r: seq<Value>)
    ensures |r| == |links|
  {
    if |links| == 0 then [] else [LinkObject(links[0].href, links[0].caption)] + LinkObjects(links[1..])
  }

  /** Links that are already plain normalize to themselves, in order. */
  lemma {:induction false} NormalizePlainLinks(links: seq<Link>)
    requires forall i :: 0 <= i < |links| ==> PlainLink(links[i])
    ensures NormalizeLinks(LinkObjects(links)) == Ok(links)
  {
    if |links| > 0 {
      var l := links[0];
      NormalizeLinkPlain(l.href, l.caption);
      NormalizePlainLinks(links[1..]);
      NormalizeLinksCons(LinkObject(l.href, l.caption), LinkObjects(links[1..]));
      assert [l] + links[1..] == links;
    }
  }

  /** The defaults normalize to themselves. */
  lemma DefaultLinksNormalized()
    ensures NormalizeLinks(DefaultLinks())
      == Ok([Link("about.html", "About"), Link("history.html", "History"), Link("milestones.html", "Milestones")])
  {
    var links := [Link("about.html", "About"), Link("history.html", "History"), Link("milestones.html", "Milestones")];
    assert LinkObjects(links) == DefaultLinks() by {
      assert LinkObjects(links[2..]) == [DefaultLinks()[2]] by { assert links[2..][1..] == []; }
      assert LinkObjects(links[1..]) == DefaultLinks()[1..] by { assert links[1..][1..] == links[2..]; }
    }
    NormalizePlainLinks(links);
  }



  /** `(location.pathname.split("/").pop() || "").toLowerCase()`: the last
      path segment, lower-cased. */
  function Here(pathname: string): string
  {
    var parts := Split(pathname, '/');
    Lower(parts[|parts| - 1])
  }

  /** `here && href.toLowerCase().endsWith(here)`. */
  predicate Active(href: string, here: string)
  {
    here != "" && EndsWith(Lower(href), here)
  }

  /** The list item of one link; an empty `href` becomes `#`. */
  function Item(link: Link, here: string): string
  {
    "<li><a href=\"" + (if link.href == "" then "#" else link.href) + "\""
      + (if Active(link.href, here) then " aria-current=\"page\"" else "")
      + ">" + link.caption + "</a></li>"
  }

  /** `links.map(f).join("")`. */
  function JoinMap(links: seq<Link>, f: Link -> string): string
  {
    if |links| == 0 then "" else f(links[0]) + JoinMap(links[1..], f)
  }

  /** The `map` callback that writes one item. */
  function ItemOf(here: string): Link -> string
  {
    (link: Link) => Item(link, here)
  }

  /** The items of all links, in order. */
  function Items(links: seq<Link>, here: string): string
  {
    JoinMap(links, ItemOf(here))
  }

  /** The footer's inner HTML for the `nav.links` data and the page's path;
      `TypeError` when a link cannot be normalized. */
  function FooterNav(navLinks: Value, pathname: string): (r: Result<string>)
    ensures r == TypeError <==> NormalizeLinks(LinkSource(navLinks)) == TypeError
  {
    match NormalizeLinks(LinkSource(navLinks))
    case Ok(links) => Ok(Items(links, Here(pathname)))
    case TypeError => TypeError
  }

  /** Mapping and joining a list is mapping and joining its two halves. */
  lemma {:induction false} JoinMapAppend(a: seq<Link>, b: seq<Link>, f: Link -> string)
    ensures JoinMap(a + b, f) == JoinMap(a, f) + JoinMap(b, f)
    decreases |a|
  {
    if |a| == 0 {
      assert a + b == b;
    } else {
      JoinMapAppend(a[1..], b, f);
      assert (a + b)[0] == a[0] && (a + b)[1..] == a[1..] + b;
    }
  }

  /** The items are one per link, in order: the HTML of a list of links is
      the HTML of its parts side by side. */
  lemma ItemsAppend(a: seq<Link>, b: seq<Link>, here: string)
    ensures Items(a + b, here) == Items(a, here) + Items(b, here)
  {
    JoinMapAppend(a, b, ItemOf(here));
  }

  /** The joined markup is the concatenation of one item per link, in order. */
  lemma {:induction false} ItemsConcat(links: seq<Link>, here: string)
    ensures Items(links, here) == Concat(seq(|links|, i requires 0 <= i < |links| => Item(links[i], here)))
    decreases |links|
  {
    if |links| > 0 {
      ItemsConcat(links[1..], here);
      var all := seq(|links|, i requires 0 <= i < |links| => Item(links[i], here));
      var rest := seq(|links| - 1, i requires 0 <= i < |links| - 1 => Item(links[1..][i], here));
      assert all[1..] == rest;
      assert ItemOf(here)(links[0]) == all[0];
    }
  }

  /** When the links normalize, the footer holds one item per given link (or
      per default), in order, each written from that link normalized. */
  lemma FooterNavPerLink(navLinks: Value, pathname: string)
    requires NormalizeLinks(LinkSource(navLinks)).Ok?
    ensures var src := LinkSource(navLinks);
      var links := NormalizeLinks(src).value;
      && |links| == |src|
      && (forall i :: 0 <= i < |src| ==> NormalizeLink(src[i]) == Ok(links[i]))
      && FooterNav(navLinks, pathname)
         == Ok(Concat(seq(|links|, i requires 0 <= i < |links| => Item(links[i], Here(pathname)))))
  {
    ItemsConcat(NormalizeLinks(LinkSource(navLinks)).value, Here(pathname));
  }

  /** Each item is a list element around one anchor whose target is the
      link's `href` (`#` when empty). */
  lemma ItemShape(link: Link, here: string)
    ensures var it := Item(link, here);
      var target := if link.href == "" then "#" else link.href;
      |it| >= 13 + |target| + 10 &&
      it[..13 + |target|] == "<li><a href=\"" + target &&
      it[|it| - 9..] == "</a></li>"
  {
  }

  /** On the page with path `dir/page` the last segment is `page`,
      lower-cased. */
  lemma HereOfPath(dir: string, page: string)
    requires '/' !in page
    ensures Here(dir + "/" + page) == Lower(page)
  {
    SplitAround(dir, '/', page);
    SplitNoSeparator(page, '/');
    assert dir + "/" + page == dir + ['/'] + page;
  }

  /** A path that ends in `/` makes no link active. */
  lemma NothingActiveAtDirectory(dir: string, href: string)
    ensures !Active(href, Here(dir + "/"))
  {
    HereOfPath(dir, "");
    assert dir + "/" + "" == dir + "/";
  }

  /** A link whose `href` names the current page, in any letter case, is
      the active one. */
  lemma OwnPageActive(dir: string, page: string, href: string)
    requires '/' !in page && page != "" && Lower(href) == Lower(page)
    ensures Active(href, Here(dir + "/" + page))
  {
    HereOfPath(dir, page);
  }

  /** With no usable `nav.links` the footer holds the three default links. */
  lemma FooterNavDefaults(navLinks: Value, pathname: string)
    requires !(navLinks.Arr? && |navLinks.items| > 0)
    ensures FooterNav(navLinks, pathname) == Ok(Items(
      [Link("about.html", "About"), Link("history.html", "History"), Link("milestones.html", "Milestones")],
      Here(pathname)))
  {
    DefaultLinksNormalized();
  }
}
