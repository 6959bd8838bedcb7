/** The chart-data normalizers of the second chart script of the history
    page. They differ from the first script's: `normalizeUsersOverTime`
    reads numbers with `Number` from `year ?? Year` and
    `usersMillions ?? value ?? users`, keeps finite rows only and throws
    on a null element; `normalizeLabelValue` reads `value ?? pct ?? val`
    and ranks a label by `indexOf + 1000`, so unknown labels (999) come
    before every label of the preferred order. */
module ChartsSecond {
  import opened Wrappers
  import opened Text
  import opened Json
  import opened Numbers
  import opened StableSort
  import opened ChartData

  // ---------------- normalizeUsersOverTime ----------------

  /** One element of the array form: `{ y, v }` read with `Number`, kept
      when both are finite. */
  function YearRow(d: Value): (r: Option<(Number, Number)>)
    requires !IsNullish(d)
    ensures r.Some? ==> IsFinite(r.value.0) && IsFinite(r.value.1)
  {
    var y := ToNumber(Prop2(d, "year", "Year"));
    var v := ToNumber(Prop3(d, "usersMillions", "value", "users"));
    if IsFinite(y) && IsFinite(v) then Some((y, v)) else None
  }

  /** `YearRow` on every element; a null or undefined element has no row
      (it makes the `map` throw). */
  function YearRowOf(d: Value): Option<(Number, Number)>
  {
    if IsNullish(d) then None else YearRow(d)
  }

  /** One entry of the object form, `[Number(k), Number(v)]`, kept when
      both are finite. */
  function YearEntry(e: (string, Value)): (r: Option<(Number, Number)>)
    ensures r.Some? <==> IsFinite(StringToNumber(e.0)) && IsFinite(ToNumber(e.1))
    ensures r.Some? ==> r.value == (StringToNumber(e.0), ToNumber(e.1))
  {
    var k := StringToNumber(e.0);
    var v := ToNumber(e.1);
    if IsFinite(k) && IsFinite(v) then Some((k, v)) else None
  }

  /** The rows that survive the filters, in input order. */
  function YearRows(raw: Value): seq<(Number, Number)>
  {
    match raw
    case Arr(items) => FilterMap(items, YearRowOf)
    case Obj(fields) => FilterMap(fields, YearEntry)
    case _ => []
  }

  /** `normalizeUsersOverTime(raw)`; `TypeError` when an array element is
      null or undefined. */
  function UsersOverTime(raw: Value): (r: Result<Series<Number>>)
    ensures r == TypeError <==> raw.Arr? && HasNullishRow(raw.items)
    ensures !(raw.Arr? || raw.Obj?) ==> r == Ok(NoData())
  {
    if raw.Arr? && HasNullishRow(raw.items) then TypeError
    else Ok(Unzip(SortBy(YearRows(raw), Label)))
  }

  /** Every kept row has a finite year and a finite value. */
  lemma YearRowsFinite(raw: Value, i: nat)
    requires i < |YearRows(raw)|
    ensures IsFinite(YearRows(raw)[i].0) && IsFinite(YearRows(raw)[i].1)
  {
    match raw
    case Arr(items) => FilterMapMembers(items, YearRowOf, YearRows(raw)[i]);
    case Obj(fields) => FilterMapMembers(fields, YearEntry, YearRows(raw)[i]);
  }

  lemma YearRowsDefined(raw: Value)
    ensures KeysDefined(YearRows(raw), Label)
  {
    forall i | 0 <= i < |YearRows(raw)| ensures !Label(YearRows(raw)[i]).NaN? {
      YearRowsFinite(raw, i);
    }
  }

  /** The years come out in ascending order. */
  lemma UsersOverTimeAscending(raw: Value)
    requires UsersOverTime(raw).Ok?
    ensures var r := UsersOverTime(raw).value;
      forall i, j :: 0 <= i < j < |r.labels| ==> !Less(r.labels[j], r.labels[i])
  {
    YearRowsDefined(raw);
    SortBySorted(YearRows(raw), Label);
  }

  /** The output rows are the kept rows, each once, each year beside its own
      value, and all of them are finite. */
  lemma UsersOverTimeRows(raw: Value, y: Number, v: Number)
    requires UsersOverTime(raw).Ok?
    ensures var r := UsersOverTime(raw).value;
      |r.labels| == |r.values| && multiset(Pairs(r)) == multiset(YearRows(raw))
    ensures var r := UsersOverTime(raw).value;
      (y, v) in Pairs(r) ==> IsFinite(y) && IsFinite(v)
  {
    var sorted := SortBy(YearRows(raw), Label);
    UnzipPairs(sorted);
    SortByMultiset(YearRows(raw), Label);
    var r := UsersOverTime(raw).value;
    if (y, v) in Pairs(r) {
      assert (y, v) in multiset(YearRows(raw));
      var i :| 0 <= i < |YearRows(raw)| && YearRows(raw)[i] == (y, v);
      YearRowsFinite(raw, i);
    }
  }

  /** `normalizeUsersOverTime` as the script runs it: the kept rows are
      collected into a fresh array that is sorted in place. */
  method NormalizeUsersOverTime(raw: Value) returns (r: Result<Series<Number>>)
    ensures r == UsersOverTime(raw)
  {
    if raw.Arr? && HasNullishRow(raw.items) {
      return TypeError;
    }
    YearRowsDefined(raw);
    var rows := SortRows(YearRows(raw), Label);
    r := Ok(Unzip(rows));
  }

  // ---------------- normalizeLabelValue ----------------

  /** `preferredOrder.indexOf(l) + 1000`: 999 for an unknown label, 1000
      and up for the labels of the preferred order. */
  function Rank(pref: seq<string>, l: string): (r: Number)
    ensures l in pref ==> r == Finite((IndexOf(pref, l) + 1000) as real)
    ensures l !in pref ==> r == Finite(999.0)
  {
    Finite((IndexOf(pref, l) + 1000) as real)
  }

  /** The sort key of a row. */
  function RankOf(pref: seq<string>): ((string, Number)) -> Number
  {
    (row: (string, Number)) => Rank(pref, row.0)
  }

  /** One element of the array form: the label from `label ?? name ?? key ?? ""`,
      trimmed, the value from `value ?? pct ?? val`; kept when the label is
      not empty and the value is finite. */
  function LabelRow(d: Value): (r: Option<(string, Number)>)
    requires !IsNullish(d)
    ensures r.Some? ==> Trimmed(r.value.0) && IsFinite(r.value.1)
  {
    var l := LabelText(d);
    var v := ToNumber(Prop3(d, "value", "pct", "val"));
    if l != "" && IsFinite(v) then Some((l, v)) else None
  }

  /** `String(d.label ?? d.name ?? d.key ?? "").trim()`. */
  function LabelText(d: Value): (l: string)
    requires !IsNullish(d)
    ensures TrimOf(l, StringOf(Coalesce(Prop3(d, "label", "name", "key"), Str(""))))
    ensures l == "" || Trimmed(l)
  {
    Trim(StringOf(Coalesce(Prop3(d, "label", "name", "key"), Str(""))))
  }

  /** A string `label` property wins over `name` and `key`, and only its
      outer white space is removed. */
  lemma LabelTextOfLabel(fields: seq<(string, Value)>, s: string)
    requires Lookup(fields, "label") == Some(Str(s))
    ensures TrimOf(LabelText(Obj(fields)), s)
  {
  }

  function LabelRowOf(d: Value): Option<(string, Number)>
  {
    if IsNullish(d) then None else LabelRow(d)
  }

  /** The rows that survive the filter, in input order. */
  function LabelRows(raw: Value): seq<(string, Number)>
  {
    match raw
    case Arr(items) => FilterMap(items, LabelRowOf)
    case Obj(fields) => FilterMap(fields, FiniteEntry)
    case _ => []
  }

  /** `if (preferredOrder.length) rows.sort(..)`. */
  function Arrange(rows: seq<(string, Number)>, pref: seq<string>): seq<(string, Number)>
  {
    if |pref| > 0 then SortBy(rows, RankOf(pref)) else rows
  }

  /** `normalizeLabelValue(raw, preferredOrder)`; `TypeError` when an array
      element is null or undefined. */
  function LabelValue(raw: Value, pref: seq<string>): (r: Result<Series<string>>)
    ensures r == TypeError <==> raw.Arr? && HasNullishRow(raw.items)
    ensures !(raw.Arr? || raw.Obj?) ==> r == Ok(NoData())
  {
    if raw.Arr? && HasNullishRow(raw.items) then TypeError
    else Ok(Unzip(Arrange(LabelRows(raw), pref)))
  }

  lemma RanksDefined(rows: seq<(string, Number)>, pref: seq<string>)
    ensures KeysDefined(rows, RankOf(pref))
  {
  }

  /** The output rows are the kept rows, each once. */
  lemma LabelValueRows(raw: Value, pref: seq<string>)
    requires LabelValue(raw, pref).Ok?
    ensures var r := LabelValue(raw, pref).value;
      |r.labels| == |r.values| && multiset(Pairs(r)) == multiset(LabelRows(raw))
  {
    UnzipPairs(Arrange(LabelRows(raw), pref));
    SortByMultiset(LabelRows(raw), RankOf(pref));
  }

  /** From the array form every label is non-empty and trimmed and every value finite. */
  lemma LabelValueFiltered(items: seq<Value>, pref: seq<string>, l: string, v: Number)
    requires LabelValue(Arr(items), pref).Ok?
    ensures (l, v) in Pairs(LabelValue(Arr(items), pref).value) ==> Trimmed(l) && IsFinite(v)
  {
    LabelValueRows(Arr(items), pref);
    var r := LabelValue(Arr(items), pref).value;
    assert (l, v) in Pairs(r) <==> (l, v) in multiset(Pairs(r));
    FilterMapMembers(items, LabelRowOf, (l, v));
  }

  /** With a preferred order the rows are in ascending rank. */
  lemma LabelValueRanked(raw: Value, pref: seq<string>)
    requires LabelValue(raw, pref).Ok? && |pref| > 0
    ensures var r := LabelValue(raw, pref).value;
      forall i, j :: 0 <= i < j < |r.labels| ==> !Less(Rank(pref, r.labels[j]), Rank(pref, r.labels[i]))
  {
    RanksDefined(LabelRows(raw), pref);
    SortBySorted(LabelRows(raw), RankOf(pref));
    var sorted := SortBy(LabelRows(raw), RankOf(pref));
    assert forall i :: 0 <= i < |sorted| ==> RankOf(pref)(sorted[i]) == Rank(pref, sorted[i].0);
  }

  /** Unknown labels come first; the labels of the preferred order follow,
      in that order, whatever its length. */
  lemma LabelValueUnknownFirst(raw: Value, pref: seq<string>)
    requires LabelValue(raw, pref).Ok? && |pref| > 0
    ensures var r := LabelValue(raw, pref).value;
      forall i, j :: 0 <= i < j < |r.labels| && r.labels[i] in pref ==>
        r.labels[j] in pref && IndexOf(pref, r.labels[i]) <= IndexOf(pref, r.labels[j])
  {
    LabelValueRanked(raw, pref);
    var r := LabelValue(raw, pref).value;
    forall i, j | 0 <= i < j < |r.labels| && r.labels[i] in pref
      ensures r.labels[j] in pref && IndexOf(pref, r.labels[i]) <= IndexOf(pref, r.labels[j])
    {
      RankOrder(pref, r.labels[i], r.labels[j]);
    }
  }

  /** A label ranked no earlier than a label of the preferred order is in
      it too, and not before it. */
  lemma RankOrder(pref: seq<string>, a: string, b: string)
    requires a in pref && !Less(Rank(pref, b), Rank(pref, a))
    ensures b in pref && IndexOf(pref, a) <= IndexOf(pref, b)
  {
  }

  /** Rows of equal rank keep their input order (the sort is stable). */
  lemma LabelValueStable(raw: Value, pref: seq<string>, k: Number)
    requires LabelValue(raw, pref).Ok?
    ensures var r := LabelValue(raw, pref).value;
      |r.labels| == |r.values| &&
      WithKey(Pairs(r), RankOf(pref), k) == WithKey(LabelRows(raw), RankOf(pref), k)
  {
    UnzipPairs(Arrange(LabelRows(raw), pref));
    if |pref| > 0 {
      RanksDefined(LabelRows(raw), pref);
      SortByStable(LabelRows(raw), RankOf(pref), k);
    }
  }

  /** Without a preferred order the rows keep their input order. */
  lemma LabelValueUnordered(raw: Value)
    requires LabelValue(raw, []).Ok?
    ensures var r := LabelValue(raw, []).value;
      |r.labels| == |r.values| && Pairs(r) == LabelRows(raw)
  {
    UnzipPairs(LabelRows(raw));
  }

  /** `normalizeLabelValue` as the script runs it, sorting the fresh row
      array in place when a preferred order is given. */
  method NormalizeLabelValue(raw: Value, pref: seq<string>) returns (r: Result<Series<string>>)
    ensures r == LabelValue(raw, pref)
  {
    if raw.Arr? && HasNullishRow(raw.items) {
      return TypeError;
    }
    var rows := LabelRows(raw);
    if |pref| > 0 {
      RanksDefined(rows, pref);
      rows := SortRows(rows, RankOf(pref));
    }
    r := Ok(Unzip(rows));
  }
}
