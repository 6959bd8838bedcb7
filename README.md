# Connected Pakistan page scripts — a Dafny model

This project models the logic at the heart of the site's page scripts. It
covers three parts:

- **The string template renderer** (`js/template-engine.js`). `render` expands
  `{{#each path}} … {{/each}}` loops, then expands
  `{{#if path}} … {{else}} … {{/if}}` conditionals, then interpolates
  `{{this}}` / `{{this.path}}` tokens and `{{path}}` tokens against a JSON
  context. The loop expander finds the matching `{{/each}}` with a depth counter
  (`findMatchingEachClose`). Both expanders restart from the beginning of the
  template after every splice. `get` walks a dotted path. `toStr` writes null,
  undefined, objects and arrays as empty text.
- **The chart-data normalizers of the history page** (`js/history.js`). The file
  holds two independent copies of `normalizeUsersOverTime` and
  `normalizeLabelValue`, and the model keeps them apart:
  - The first copy (`ChartsFirst`, lines 96-162) filters falsy rows, reads years
    and user counts with `parseFloat(...) || null`, and ranks labels missing from
    the preferred order at 999, after the preferred ones.
  - The second copy (`ChartsSecond`, lines 351-396) throws on a null or undefined
    row, reads with `Number(...)`, and ranks by `indexOf + 1000`. That puts
    labels missing from the preferred order (rank 999) *before* every preferred
    label.
  - Both copies build a fresh row array and sort it in place with
    `Array.prototype.sort`, which ECMAScript 2019 requires to be stable. The
    model gives this sort a stable insertion-sort specification (`StableSort`)
    and an in-place array method proved to meet it.
  - The page's HTML escaper `esc` (history.js line 503) is modelled too.
- **The milestones page helpers** (`js/milestones.js`):
  - `withAlpha` turns `#rrggbb` into `rgba(r, g, b, a)`. It parses each channel
    with `parseInt(…, 16)`, so a missing channel reads `NaN`.
  - The footer-navigation builder takes the links (or three defaults when there
    are none), strips leading slashes from each `href`, and defaults the label to
    `Link`. It renders one `<li><a …>` item per link. An item is marked
    `aria-current="page"` when the lower-cased last segment of the current path
    is non-empty and ends the lower-cased `href`.

JSON values are the datatype `Json.Value`, which includes `undefined`. Object
properties are an ordered list of (key, value) pairs, in the order in which
`Object.entries` enumerates them. Numbers produced by `Number`, `parseFloat` and
`parseInt` are `Numbers.Number`: NaN, the two infinities, or an exact real. A
JavaScript `TypeError`, raised when a property of `null` or `undefined` is read,
is the `TypeError` case of `Wrappers.Result`.

Pure logic is written as functions. The source's `while` loops are methods with
loop invariants, each proved equal to the function that specifies it:
- the depth-counting scan of `findMatchingEachClose`;
- the `while (true)` loops of `expandEachBlocks` and `expandIfBlocks`.

Both normalizers build a fresh row array and call `Array.prototype.sort` on it.
The model writes that library sort as an in-place insertion sort over an array
(`SortInPlace`), proved equal to its stable specification, and each normalizer
as a method that fills a fresh array and sorts it.

The expansion loops of the renderer need not terminate in JavaScript, so the
model gives `Render` a `fuel` bound. Each splice and each nested render costs one
unit, and `None` means the fuel ran out.

## Model

| member | source | states |
|---|---|---|
| TemplateEngine.FindMatchingEachClose | js/template-engine.js:52-66 | the depth-counting scan returns the index of the `{{/each}}` that brings the depth from 1 to 0, and null exactly when no such close exists |
| TemplateEngine.MatchingCloseIsClose | js/template-engine.js:56-61 | the match found is a `{{/each}}` token |
| TemplateProperties.MatchingCloseDeeper | js/template-engine.js:56-63 | if the scan at depth `e` stops at close `k`, scanning on from after `k` at depth `d` reaches the same close as scanning at depth `e + d` from the start: nesting is counted, not just tokens |
| TemplateProperties.DeeperPastOpen | js/template-engine.js:57 | the same claim at an opening directive, where both scans go one level deeper |
| TemplateProperties.DeeperPastClose | js/template-engine.js:58-61 | the same claim at a `{{/each}}`, where the depth-1 scan stops and deeper scans go one level up |
| TemplateProperties.DeeperPastPlain | js/template-engine.js:56 | the same claim at a character that starts no token |
| TemplateProperties.SkipsInnerLoop | js/template-engine.js:57-63 | a nested `{{#each}}` and its own matching close are skipped as one unit by the outer scan |
| TemplateProperties.MatchingCloseSkips | js/template-engine.js:53-61 | with no `{` between the start and a `{{/each}}`, that close is the match |
| TemplateProperties.CloseAt | js/template-engine.js:53 | the text `{{/each}}` is read as a close token |
| TemplateProperties.TokenStartsWithBraces | js/template-engine.js:53 | every loop token starts with `{{` |
| TemplateProperties.OpenAtHead | js/template-engine.js:26 | an opening directive matched at `j` starts with the literal head there |
| TemplateProperties.OpenAtBraces | js/template-engine.js:26 | an opening directive begins with two braces |
| TemplateProperties.OpenScanHead | js/template-engine.js:26 | a successful scan from inside the head has read the rest of the head verbatim |
| TemplateProperties.OpenScanReadsHead | js/template-engine.js:26 | once the head is present, the scan continues in the whitespace state |
| TemplateProperties.OpenScanReadsPath | js/template-engine.js:26 | a run of `[\w.]` characters followed by `}}` yields that path and the full directive length |
| TemplateProperties.OpenAtEach | js/template-engine.js:26 | `{{#each p}}` with a valid path is recognised, with path `p` and length `\|p\| + 10` |
| TemplateProperties.FindOpenSkips | js/template-engine.js:26-29 | with no `{` before an opening directive, `openRe.exec` finds that one |
| TemplateEngine.FindOpen | js/template-engine.js:26-29 | `openRe.exec` returns the first opening directive at or after the start, and none exactly when there is none |
| TemplateProperties.FindOpenFirst | js/template-engine.js:26-29 | an opening directive with no other one before it is the one `openRe.exec` finds, whatever interpolations precede it |
| TemplateProperties.FindOpenNone | js/template-engine.js:26-30 | a template without `{{` has no loop, so the loop pass stops at once |
| TemplateEngine.FindFirstLoop | js/template-engine.js:28-37 | `openRe.exec` plus `findMatchingEachClose` give the first loop, or stop when it is missing or unmatched |
| TemplateProperties.FirstLoopAt | js/template-engine.js:29-39 | a `{{#each p}}` at `j` with no opening directive before it, whose body's depth-counting scan reaches the close at `c`, is the first loop, with path `p`, body from the directive's end to `c` and close `c`; interpolations before it and interpolations or nested loops in its body are allowed |
| TemplateProperties.PrefixFlat | js/template-engine.js:26-29 | text containing no `{{#` or `{{/` (interpolations like `{{key}}` allowed) holds no opening directive |
| TemplateProperties.BodyFlat | js/template-engine.js:52-66 | a body with no `{{#` or `{{/`, such as `<li>{{this.name}} ({{this.age}})</li>`, is matched by the `{{/each}}` that ends it |
| TemplateProperties.BodyNested | js/template-engine.js:52-66 | a body holding one whole nested loop is matched by the outer `{{/each}}`, the inner pair being skipped |
| TemplateEngine.ExpandEachIteration | js/template-engine.js:28-47 | one iteration either stops (no loop or no match), or splices the rendered items in place of the whole loop |
| TemplateEngine.ExpandEachBlocks | js/template-engine.js:25-50 | the `while (true)` loop returns what the loop-pass specification returns |
| TemplateProperties.ExpandEachDone | js/template-engine.js:27-30 | when the loop pass finishes, no matched loop remains in its output |
| TemplateProperties.EachStepNoItems | js/template-engine.js:41-47 | a path that is not a non-empty array removes the loop and its body entirely |
| TemplateProperties.LoopAtExpands | js/template-engine.js:39-47 | for that first loop at `j` closed at `c`, one pass replaces the text from `j` to the end of the close by the body rendered once per item of `p`, keeping the text before and after unchanged; it stops when a nested render runs out of fuel |
| TemplateProperties.LoopAtNoItems | js/template-engine.js:43-47 | the same loop over a missing, empty or non-array value is removed, directives included, leaving the text before and after |
| TemplateProperties.RenderEachOfParts | js/template-engine.js:44 | `map(render).join('')` is the concatenation of the per-item renders, in item order |
| TemplateProperties.RenderEachFails | js/template-engine.js:44 | one failed item render fails the whole map |
| TemplateProperties.PlainBodyRepeats | js/template-engine.js:44 | a body without `{{` is repeated once per item |
| TemplateProperties.ConcatCopies | js/template-engine.js:44 | joining `n` copies of a body is its `n`-fold repetition |
| TemplateEngine.WithThis | js/template-engine.js:44 | `{ ...ctx, this: item }` is an object whose `this` is the item |
| TemplateProperties.WithThisKeepsOthers | js/template-engine.js:44 | spreading the context keeps every property other than `this` |
| TemplateConditionals.IfBodyExists | js/template-engine.js:70 | the lazy `{{#if}}` body matches exactly when a `{{/if}}` follows |
| TemplateConditionals.IfBodySkips | js/template-engine.js:70 | the lazy match skips positions holding neither `{{else}}` nor `{{/if}}` |
| TemplateConditionals.IfBodyNoElse | js/template-engine.js:70-78 | without `{{else}}` before the first `{{/if}}`, the true branch is the text up to it and the false branch is empty |
| TemplateConditionals.IfBodyWithElse | js/template-engine.js:70-78 | with `{{else}}` first, the branches are the text before it and the text up to the next `{{/if}}` |
| TemplateConditionals.IfMatchAt | js/template-engine.js:70-76 | an `{{#if p}}` followed by some `{{/if}}` is matched at its own index with path `p` |
| TemplateConditionals.ElseNotClose | js/template-engine.js:70 | no `{{/if}}` starts inside an `{{else}}` |
| TemplateConditionals.CloseChars | js/template-engine.js:70 | a `{{/if}}` starts with `{{/` |
| TemplateConditionals.FindFromSkips | js/template-engine.js:70 | the search for a literal skips positions where it does not occur |
| TemplateEngine.FindFrom | js/template-engine.js:70 | the first occurrence at or after the start, with no earlier one, or none at all |
| TemplateProperties.IfMatchNone | js/template-engine.js:73-74 | a template without `{{` has no conditional block |
| TemplateEngine.ExpandIfIteration | js/template-engine.js:73-88 | one iteration of the conditional loop stops when no block is left or splices the rendered chosen branch |
| TemplateEngine.ExpandIfBlocks | js/template-engine.js:68-91 | the `while (true)` loop returns what the conditional-pass specification returns |
| TemplateProperties.ExpandIfDone | js/template-engine.js:72-74 | when the conditional pass finishes, no conditional block remains |
| TemplateEngine.Cond | js/template-engine.js:84 | the condition is false exactly for undefined, null, false, 0, `""` and `[]` |
| TemplateLookup.ReplaceThisToken | js/template-engine.js:97-101 | `{{this}}` becomes the text of `ctx.this` and scanning continues after it |
| TemplateLookup.ReplaceThisPathToken | js/template-engine.js:97-101 | `{{this.p}}` becomes the text of `get(ctx.this, p)` |
| TemplateProperties.ReplaceThisNone | js/template-engine.js:97-101 | text without `{{` is left unchanged |
| TemplateLookup.ReplaceKeysToken | js/template-engine.js:104-109 | `{{p}}` becomes the text of `p` resolved against the context, falling back to `ctx.this` |
| TemplateProperties.ReplaceKeysNone | js/template-engine.js:104-109 | text without `{{` is left unchanged |
| TemplateLookup.PathRunOf | js/template-engine.js:105 | the `[\w.]+` run of a path followed by a non-path character is the whole path |
| TemplateLookup.ResolveFallsBackToItem | js/template-engine.js:106-107 | inside a loop, a path missing from the context is looked up in the current item |
| TemplateLookup.ResolveKeepsContext | js/template-engine.js:106-107 | inside a loop, a path the context defines wins over the item |
| TemplateProperties.RenderPassthrough | js/template-engine.js:15-21 | rendering a template without `{{` returns it unchanged |
| TemplateLookup.GetDotted | js/template-engine.js:115 | `get(o, "a.b")` is `get(get(o, "a"), "b")` |
| TemplateLookup.WalkAppend | js/template-engine.js:115 | reducing over two segment lists is reducing over the first, then the second |
| TemplateLookup.WalkStops | js/template-engine.js:115 | once a step gives undefined, the rest of the path gives undefined |
| TemplateLookup.WalkFromNothing | js/template-engine.js:115 | a path into a primitive gives undefined |
| TemplateLookup.GetArrayIndex | js/template-engine.js:115 | a decimal index of an array gives its element |
| TemplateLookup.GetArrayLength | js/template-engine.js:115 | `length` of an array gives its length |
| TemplateEngine.ArrayIndexOfDecimal | js/template-engine.js:115 | the numeral of an index reads back as that index |
| Text.SplitJoin | js/template-engine.js:115 | joining the parts of `split` with the separator gives the path back |
| TemplateEngine.ToStr | js/template-engine.js:117-120 | nullish values, arrays and objects give `""`; strings are themselves; booleans and integers are written as `String` writes them |
| Json.Truthy | js/template-engine.js:114 | falsy exactly for undefined, null, false, 0 and `""` |
| Json.Member | js/history.js:131 | reading a property throws exactly on null or undefined, a present property reads as its value, and a missing property is undefined |
| Json.Lookup | js/template-engine.js:115 | a key is found exactly when some entry has it, and the value found belongs to such an entry |
| Json.SetField | js/template-engine.js:44 | setting a key gives it the new value and leaves every other key's lookup alone |
| HtmlEscape.EscTextIsEscapeEach | js/history.js:503-504 | the five chained `replace` calls equal escaping each character independently |
| HtmlEscape.EscSafe | js/history.js:503-504 | the result contains no `<`, `>`, `"` or `'` |
| HtmlEscape.EscPlain | js/history.js:503-504 | text without special characters is unchanged |
| HtmlEscape.AmpersandAlwaysEscaped | js/history.js:503 | `&` is escaped even before text that already looks like an entity |
| HtmlEscape.UnescapeEsc | js/history.js:503-504 | decoding the five entities restores the input |
| HtmlEscape.EscInjective | js/history.js:503-504 | different inputs escape differently |
| HtmlEscape.EscTextAppend | js/history.js:503-504 | escaping distributes over concatenation |
| HtmlEscape.EscTextChar | js/history.js:503-504 | one character escapes to its entity, or to itself |
| HtmlEscape.ReplaceChar | js/history.js:503 | a global replacement whose replacement text lacks the character removes it |
| HtmlEscape.ReplaceCharAppend | js/history.js:503 | a global replacement of one character distributes over concatenation |
| HtmlEscape.UnescapeEntity | js/history.js:503-504 | an entity followed by any text decodes to its character |
| StableSort.SortInPlace | js/history.js:108 | the array is sorted in place into the stable-sort specification of its old contents |
| StableSort.SortBySorted | js/history.js:108 | the specification's output is ascending by key |
| StableSort.SortByMultiset | js/history.js:108 | the output is a permutation of the input |
| StableSort.SortByStable | js/history.js:108 | rows with equal keys keep their input order |
| StableSort.SortBySortedInput | js/history.js:108 | sorting an already ascending array leaves it unchanged |
| StableSort.InsertSorted | js/history.js:108 | inserting into an ascending run keeps it ascending |
| StableSort.InsertMultiset | js/history.js:108 | insertion adds exactly the one row |
| StableSort.InsertWithKey | js/history.js:108 | insertion appends the row after the rows with an equal key |
| StableSort.InsertAt | js/history.js:108 | the row goes after every row not above it and before the first row above it |
| StableSort.WithKeyAppend | js/history.js:108 | picking the rows with one key distributes over concatenation |
| StableSort.AboveKeyNone | js/history.js:108 | an ascending run whose first key is above `k` has no row with key `k` |
| StableSort.LessTransitive | js/history.js:108 | the comparator's order is transitive |
| StableSort.NotLessTransitive | js/history.js:108 | "not below" is transitive for keys that are not NaN |
| StableSort.NotLessEither | js/history.js:108 | keys that are not NaN and neither below the other are equal |
| StableSort.InsertNext | js/history.js:108 | one pass of the in-place insertion extends the sorted prefix by one element and leaves the rest |
| StableSort.ShiftAbove | js/history.js:108 | the rows above the new row move up by one, and the gap sits after the last row not above it |
| StableSort.Inserted | js/history.js:108 | shifting plus writing the row into the gap is the specification's insertion |
| StableSort.Spliced | js/history.js:108 | the array after the shift is prefix, row, rest |
| StableSort.NotBelowGap | js/history.js:108 | the new row is not below any row before the gap |
| ChartData.SortRows | js/history.js:101-108 | copying the rows into a fresh array and sorting it gives an ascending permutation of them, namely the specification's |
| ChartData.Unzip | js/history.js:109 | `labels[i]` and `values[i]` come from row `i`, and the two lists are equally long |
| ChartData.UnzipPairs | js/history.js:109 | pairing labels with values again gives the rows back |
| ChartData.FilterMapMembers | js/history.js:101-107 | a row is in the output exactly when some input row maps to it |
| ChartData.IndexOf | js/history.js:138 | `indexOf` is -1 exactly when the label is absent; otherwise it is the first position holding the label |
| ChartsFirst.YearRow | js/history.js:101-107 | falsy rows are dropped, and a kept row has a year and a value that are neither NaN nor 0 |
| ChartsFirst.UsersOverTime | js/history.js:96-121 | a value that is neither an array nor an object gives empty labels and values |
| ChartsFirst.YearRowsDefined | js/history.js:107-108 | every row that reaches the sort has a year that is not NaN |
| ChartsFirst.UsersOverTimeAscending | js/history.js:108 | the labels come out ascending |
| ChartsFirst.UsersOverTimeRows | js/history.js:101-109 | the (label, value) pairs are a permutation of the kept rows |
| ChartsFirst.UsersOverTimeArrayRow | js/history.js:99-109 | for an array, a pair is in the result exactly when some element produces it, and then neither part is NaN or 0 |
| ChartsFirst.UsersOverTimeObjectRow | js/history.js:112-117 | for an object, a pair is in the result exactly when some entry produces it, and then neither part is NaN |
| ChartsFirst.NormalizeUsersOverTime | js/history.js:96-121 | the function computed with a fresh array sorted in place is the specification |
| ChartsFirst.Rank | js/history.js:138-140 | a preferred label ranks at its position, any other at 999 |
| ChartsFirst.LabelRow | js/history.js:130-133 | a kept row has a trimmed non-empty label and a finite value |
| ChartsFirst.LabelText | js/history.js:131 | the label is `String(label ?? name ?? key ?? "")` with its outer white space removed, and is empty or trimmed at both ends |
| ChartsFirst.LabelTextOfLabel | js/history.js:131 | a row whose `label` is a string gets that string, trimmed |
| ChartsFirst.LabelValue | js/history.js:126-162 | it throws exactly when the input is an array with a null or undefined element; anything else that is neither an array nor an object gives empty labels and values |
| ChartsFirst.RanksDefined | js/history.js:137-141 | every rank is a number the comparator can order |
| ChartsFirst.LabelValueRows | js/history.js:130-158 | the output pairs are a permutation of the kept rows |
| ChartsFirst.LabelValueFiltered | js/history.js:133 | every output label is non-empty and trimmed, and every value finite |
| ChartsFirst.LabelValueRanked | js/history.js:136-141 | with a preferred order, the ranks come out ascending |
| ChartsFirst.LabelValuePreferredFirst | js/history.js:136-141 | preferred labels come first, in the preferred order, and unknown labels follow them |
| ChartsFirst.RankOrder | js/history.js:140 | a rank not above a preferred label's rank belongs to a preferred label at an earlier or equal position |
| ChartsFirst.LabelValueStable | js/history.js:137-141 | rows of equal rank keep their input order |
| ChartsFirst.LabelValueUnordered | js/history.js:136 | an empty preferred order leaves the rows in input order |
| ChartsFirst.NormalizeLabelValue | js/history.js:126-162 | the function computed with an in-place sort is the specification |
| ChartsSecond.YearRow | js/history.js:354-357 | a kept row has a finite year and a finite value |
| ChartsSecond.UsersOverTime | js/history.js:351-369 | it throws exactly for an array with a null or undefined element; a value that is neither an array nor an object gives empty labels and values |
| ChartsSecond.YearRowsFinite | js/history.js:357 | every kept row is finite in both parts |
| ChartsSecond.YearRowsDefined | js/history.js:357-358 | every row that reaches the sort has a year that is not NaN |
| ChartsSecond.UsersOverTimeAscending | js/history.js:358 | the labels come out ascending |
| ChartsSecond.UsersOverTimeRows | js/history.js:354-359 | the output pairs are a permutation of the kept rows, and all of them are finite |
| ChartsSecond.NormalizeUsersOverTime | js/history.js:351-369 | the function computed with an in-place sort is the specification |
| ChartsSecond.Rank | js/history.js:380 | a preferred label ranks at its position plus 1000, any other at 999 |
| ChartsSecond.LabelRow | js/history.js:374-377 | a kept row has a trimmed non-empty label and a finite value |
| ChartsSecond.LabelText | js/history.js:375 | the label is `String(label ?? name ?? key ?? "")` with its outer white space removed, and is empty or trimmed at both ends |
| ChartsSecond.LabelTextOfLabel | js/history.js:375 | a row whose `label` is a string gets that string, trimmed |
| ChartsSecond.LabelValue | js/history.js:371-396 | it throws exactly for an array with a null or undefined element; a value that is neither an array nor an object gives empty labels and values |
| ChartsSecond.RanksDefined | js/history.js:378-381 | every rank is a number the comparator can order |
| ChartsSecond.LabelValueRows | js/history.js:374-393 | the output pairs are a permutation of the kept rows |
| ChartsSecond.LabelValueFiltered | js/history.js:377 | every output label is non-empty and trimmed, and every value finite |
| ChartsSecond.LabelValueRanked | js/history.js:378-381 | with a preferred order, the ranks come out ascending |
| ChartsSecond.LabelValueUnknownFirst | js/history.js:378-381 | once a preferred label appears, only preferred labels follow, in the preferred order: labels not in the preferred order come first |
| ChartsSecond.RankOrder | js/history.js:380 | a rank not below a preferred label's rank belongs to a preferred label at a later or equal position |
| ChartsSecond.LabelValueStable | js/history.js:379-381 | rows of equal rank keep their input order |
| ChartsSecond.LabelValueUnordered | js/history.js:378 | an empty preferred order leaves the rows in input order |
| ChartsSecond.NormalizeLabelValue | js/history.js:371-396 | the function computed with an in-place sort is the specification |
| Numbers.ParseFloatOfDecimal | js/history.js:104 | `parseFloat` of an integer's numeral is that integer |
| Numbers.StringToNumberOfDecimal | js/history.js:114 | `Number` of an integer's numeral is that integer |
| Numbers.ToNumberOfText | js/history.js:114 | `Number("n")` and `Number(n)` agree |
| Numbers.ParseFloat | js/history.js:104 | `parseFloat` is NaN exactly when no decimal literal starts the trimmed text |
| Numbers.DecimalPrefixOfDecimal | js/history.js:104 | an integer's numeral is read whole as a decimal literal |
| Numbers.UnsignedOfDecimal | js/history.js:104 | a natural number's numeral is read whole as an unsigned literal |
| Numbers.NumeralTrimmed | js/history.js:131 | a numeral has no surrounding whitespace |
| Text.Trim | js/history.js:131 | `trim` removes exactly the leading and trailing white space: the result is a slice of the input with only white space outside it, and neither end of it is white space |
| Text.TrimSlice | js/history.js:131 | dropping the leading white space and then the trailing white space leaves such a slice |
| Text.TrimOfUnique | js/history.js:131 | only one text meets that description, so it characterises `trim` |
| Text.NatToDecimalRoundTrip | js/template-engine.js:119 | reading back a written natural number gives the number |
| Text.Lower | js/milestones.js:69 | `toLowerCase` maps each character, changing only upper-case letters |
| Text.SplitAround | js/milestones.js:69 | splitting `a + "/" + b` splits `a` and `b` separately |
| Text.SplitNoSeparator | js/milestones.js:69 | text without the separator splits into itself alone |
| Milestones.RemoveFirst | js/milestones.js:18 | `replace("#", "")` removes one character when there is a `#` and nothing otherwise, and a leading `#` is the one removed |
| Milestones.RemoveFirstAt | js/milestones.js:18 | wherever the first `#` stands, it is exactly the one removed: the text before and after it is kept |
| Milestones.ParseIntHexPair | js/milestones.js:19-21 | `parseInt` of two hex digits, of either case, in base 16 is their byte value, 0 to 255 |
| Milestones.ChannelOfPair | js/milestones.js:19-21 | a channel whose slice holds two hex digits is written as their value in decimal, from 0 to 255 |
| Milestones.HexByte | js/milestones.js:19-21 | the two hex digits written for a byte read back as the byte |
| Milestones.ChannelsOfColour | js/milestones.js:19-21 | the three channels of any six hex digits `rrggbb`, upper or lower case, are the decimal values of the three pairs |
| Milestones.WithAlphaOfColour | js/milestones.js:17-23 | `withAlpha("#rrggbb", a)` is `rgba(r, g, b, a)` with the decimal values of the three pairs, for any six hex digits |
| Milestones.WithAlphaOfBareColour | js/milestones.js:17-23 | a colour of six hex digits without `#` gives the same result |
| Milestones.WithAlphaOfBytes | js/milestones.js:17-23 | three bytes written as `#rrggbb` come back from `withAlpha` as those bytes in decimal |
| Milestones.ChannelPastEnd | js/milestones.js:19-21 | a channel past the end of a short colour is written `NaN` |
| Milestones.StripSlashes | js/milestones.js:55 | the result is the input without its leading run of slashes, and does not start with `/` |
| Milestones.NormalizeLink | js/milestones.js:54-57 | a null or undefined link throws, and a normalized href never starts with `/` |
| Milestones.NormalizeLinks | js/milestones.js:49-57 | the mapping throws exactly when some link does; otherwise entry `i` is link `i` normalized |
| Milestones.NormalizeLinkFields | js/milestones.js:55-56 | for string fields, the href loses its leading slashes, and an empty label becomes `Link` |
| Milestones.NormalizeLinkBare | js/milestones.js:55-56 | a link without href and label becomes an empty href labelled `Link` |
| Milestones.NormalizeLinkObject | js/milestones.js:55-56 | `{ href, label }` with a non-empty label keeps the label and strips the href |
| Milestones.NormalizeLinkPlain | js/milestones.js:55-56 | such a link whose href has no leading slash is unchanged |
| Milestones.NormalizePlainLinks | js/milestones.js:49-57 | any list of links with a label and no leading `/` normalizes to itself, in order |
| Milestones.DefaultLinksNormalized | js/milestones.js:50-57 | the defaults are About, History and Milestones, unchanged by normalization |
| Milestones.FooterNavDefaults | js/milestones.js:49-75 | with no links given, the footer lists the three defaults, each marked against the current page |
| Milestones.ItemsAppend | js/milestones.js:70-75 | the joined markup of two lists of links is the markup of the first followed by that of the second |
| Milestones.ItemsConcat | js/milestones.js:70-75 | the joined markup is the concatenation of one item per link, in order |
| Milestones.FooterNavPerLink | js/milestones.js:49-75 | when the links normalize, the footer is one item per given link (or per default link), in order, each written from that link normalized and marked against the current page |
| Milestones.ItemShape | js/milestones.js:73 | each item is `<li><a href="` + href (or `#` when it is empty) … `</a></li>` |
| Milestones.HereOfPath | js/milestones.js:69 | the current page is the lower-cased last path segment |
| Milestones.NothingActiveAtDirectory | js/milestones.js:69-72 | at a path ending in `/` no link is marked active |
| Milestones.OwnPageActive | js/milestones.js:69-72 | a link whose href equals the current page's name, ignoring case, is marked active |

## Left out

- Loading: `loadTemplate` (template-engine.js:1-13) is a `fetch` plus a DOM write. It is not part of this model, nor are the chart drawing, the DOM lookups, `requestAnimationFrame` polling, the KPI counters or the observers in `js/history.js` and `js/milestones.js`.
- TemplateEngine.Render: the expansion loops of `render` need not terminate in JavaScript. The model runs them under a `fuel` bound, and an exhausted bound is a `None` result, not a hang.
- TemplateEngine.Step: after the first path segment, `k in o` throws a `TypeError` in JavaScript whenever `o` is a primitive that is not null or undefined: any number, string or boolean, including `0`, `""` and `false`. The model yields undefined instead. `in` also sees inherited properties such as `constructor`, `toString` and the array methods; the model treats those names as absent and gives only own properties, array indices and an array's `length`.
- TemplateLookup.WalkFromNothing: states the model's undefined for a path into a primitive, where JavaScript throws at `k in o` (template-engine.js:115) for every primitive that is not null or undefined.
- TemplateEngine.ThisOf: a `{{this}}` or `{{this.p}}` token rendered with a null or undefined context throws at `ctx.this` (template-engine.js:99) in JavaScript. The model reads `this` of such a context as undefined and writes `""`. Contexts built for loop items are always objects, so only a top-level null or undefined context differs.
- Numbers.Number: finite numbers are exact reals. Rounding to binary64, overflow to an infinity, underflow and `-0` are not modelled. `Json.Value` numbers are integers only, so `String(n)` is modelled for integers.
- Milestones.WithAlpha: the alpha `a` is passed as its text. How JavaScript writes a fractional number such as `0.2` is left out, and the default is the text `0.2`.
- Text.Lower: case mapping covers ASCII `A`-`Z` only. JavaScript's full Unicode `toLowerCase` is not modelled.
- Json.Value: an object is an ordered list of (key, value) pairs, assumed to hold no duplicate keys and to be in `Object.entries` order (integer-like keys first). That ordering rule is not itself modelled.
- ChartsFirst.LabelValuePreferredFirst: stated only for preferred orders of at most 999 labels. Beyond that a preferred label at position 999 or later ranks with, or after, labels that are not preferred.
- StableSort.SortBy: sort keys that are NaN are excluded by precondition (`KeysDefined`). Every normalizer filters such rows out before sorting, and a NaN comparator result leaves an implementation-defined order.
- HtmlEscape.Esc: `String(s)` is modelled for the JSON values of `Json.Value`. `String` of a symbol, which throws, is not.
- The second `esc` in `js/about.js` is the same function and is not modelled separately.
- Milestones.Item: the label is written through `String(label)` without escaping, as the source does. The DOM parsing of the resulting markup is not modelled.
