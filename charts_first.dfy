/** The chart-data normalizers of the first chart script of the history
    page: `normalizeUsersOverTime` reads numbers with `parseFloat(..) || null`
    and sorts by year; `normalizeLabelValue` keeps rows with a non-empty
    label and a finite value and puts labels of the preferred order first
    (an unknown label ranks 999). */
module ChartsFirst {
  import opened Wrappers
  import opened Text
  import opened Json
  import opened Numbers
  import opened StableSort
  import opened ChartData

  // ---------------- normalizeUsersOverTime ----------------

  /** `parseFloat(..) || null`: `None` stands for null, which NaN and zero become. */
  function OrNull(x: Number): (r: Option<Number>)
    ensures r.Some? <==> NumberTruthy(x)
    ensures r.Some? ==> r.value == x
  {
    if NumberTruthy(x) then Some(x) else None
  }

  /** One element of the array form, through `filter(Boolean)`, the `map`
      to `{ y, v }` and the filter that drops rows with a null side. */
  function YearRow(d: Value): (r: Option<(Number, Number)>)
    ensures !Truthy(d) ==> r.None?
    ensures r.Some? ==> NumberTruthy(r.value.0) && NumberTruthy(r.value.1)
  {
    if !Truthy(d) then None
    else
      var y := OrNull(ParseFloatValue(Prop4(d, "year", "Year", "date", "t")));
      var v := OrNull(ParseFloatValue(Prop4(d, "usersMillions", "value", "users", "y")));
      if y.Some? && v.Some? then Some((y.value, v.value)) else None
  }

  /** One entry of the object form, `[Number(k), Number(v)]`, kept when
      neither side is NaN. */
  function YearEntry(e: (string, Value)): (r: Option<(Number, Number)>)
    ensures r.Some? <==> !IsNaN(StringToNumber(e.0)) && !IsNaN(ToNumber(e.1))
    ensures r.Some? ==> r.value == (StringToNumber(e.0), ToNumber(e.1))
  {
    var k := StringToNumber(e.0);
    var v := ToNumber(e.1);
    if !IsNaN(k) && !IsNaN(v) then Some((k, v)) else None
  }

  /** The rows that survive the filters, in input order; a falsy `raw` or
      one that is neither an array nor an object has none. */
  function YearRows(raw: Value): seq<(Number, Number)>
  {
    match raw
    case Arr(items) => FilterMap(items, YearRow)
    case Obj(fields) => FilterMap(fields, YearEntry)
    case _ => []
  }

  /** `normalizeUsersOverTime(raw)`. */
  function UsersOverTime(raw: Value): (r: Series<Number>)
    ensures !(raw.Arr? || raw.Obj?) ==> r == NoData()
  {
    Unzip(SortBy(YearRows(raw), Label))
  }

  /** No year of a kept row is NaN, so the comparator `a.y - b.y` is consistent. */
  lemma YearRowsDefined(raw: Value)
    ensures KeysDefined(YearRows(raw), Label)
  {
    var rows := YearRows(raw);
    forall i | 0 <= i < |rows| ensures !Label(rows[i]).NaN? {
      match raw
      case Arr(items) => FilterMapMembers(items, YearRow, rows[i]);
      case Obj(fields) => FilterMapMembers(fields, YearEntry, rows[i]);
    }
  }

  /** The years come out in ascending order. */
  lemma UsersOverTimeAscending(raw: Value)
    ensures var r := UsersOverTime(raw);
      forall i, j :: 0 <= i < j < |r.labels| ==> !Less(r.labels[j], r.labels[i])
  {
    YearRowsDefined(raw);
    SortBySorted(YearRows(raw), Label);
  }

  /** The output rows are the kept rows, each once, each year beside its own value. */
  lemma UsersOverTimeRows(raw: Value)
    ensures var r := UsersOverTime(raw);
      |r.labels| == |r.values| && multiset(Pairs(r)) == multiset(YearRows(raw))
  {
    var sorted := SortBy(YearRows(raw), Label);
    UnzipPairs(sorted);
    SortByMultiset(YearRows(raw), Label);
  }

  /** From the array form, a row is kept exactly when the element is truthy
      and both its year and its value parse to a number other than NaN and
      zero. */
  lemma UsersOverTimeArrayRow(items: seq<Value>, y: Number, v: Number)
    ensures var r := UsersOverTime(Arr(items));
      (y, v) in Pairs(r) <==> exists i :: 0 <= i < |items| && YearRow(items[i]) == Some((y, v))
    ensures var r := UsersOverTime(Arr(items));
      (y, v) in Pairs(r) ==> NumberTruthy(y) && NumberTruthy(v)
  {
    UsersOverTimeRows(Arr(items));
    var r := UsersOverTime(Arr(items));
    assert (y, v) in Pairs(r) <==> (y, v) in multiset(Pairs(r));
    FilterMapMembers(items, YearRow, (y, v));
  }

  /** From the object form, a row is kept exactly when neither its key nor
      its value converts to NaN. */
  lemma UsersOverTimeObjectRow(fields: seq<(string, Value)>, y: Number, v: Number)
    ensures var r := UsersOverTime(Obj(fields));
      (y, v) in Pairs(r) <==> exists i :: 0 <= i < |fields| && YearEntry(fields[i]) == Some((y, v))
    ensures var r := UsersOverTime(Obj(fields));
      (y, v) in Pairs(r) ==> !IsNaN(y) && !IsNaN(v)
  {
    UsersOverTimeRows(Obj(fields));
    var r := UsersOverTime(Obj(fields));
    assert (y, v) in Pairs(r) <==> (y, v) in multiset(Pairs(r));
    FilterMapMembers(fields, YearEntry, (y, v));
  }

  /** `normalizeUsersOverTime` as the script runs it: the kept rows are
      collected into a fresh array that is sorted in place. */
  method NormalizeUsersOverTime(raw: Value) returns (s: Series<Number>)
    ensures s == UsersOverTime(raw)
  {
    YearRowsDefined(raw);
    var rows := SortRows(YearRows(raw), Label);
    s := Unzip(rows);
  }

  // ---------------- normalizeLabelValue ----------------

  /** `(ia === -1 ? 999 : ia)`: the position in the preferred order, 999
      for a label that is not in it. */
  function Rank(pref: seq<string>, l: string): (r: Number)
    ensures l in pref ==> r == Finite(IndexOf(pref, l) as real)
    ensures l !in pref ==> r == Finite(999.0)
  {
    var i := IndexOf(pref, l);
    Finite((if i == -1 then 999 else i) as real)
  }

  /** The sort key of a row. */
  function RankOf(pref: seq<string>): ((string, Number)) -> Number
  {
    (row: (string, Number)) => Rank(pref, row.0)
  }

  /** One element of the array form: `{ l, v }` with the label read from
      `label ?? name ?? key ?? ""` and trimmed, the value from
      `value ?? pct ?? count ?? val`; kept when the label is not empty and
      the value is finite. */
  function LabelRow(d: Value): (r: Option<(string, Number)>)
    requires !IsNullish(d)
    ensures r.Some? ==> Trimmed(r.value.0) && IsFinite(r.value.1)
  {
    var l := LabelText(d);
    var v := ToNumber(Prop4(d, "value", "pct", "count", "val"));
    if l != "" && IsFinite(v) then Some((l, v)) else None
  }

  /** `String(d.label ?? d.name ?? d.key ?? "").trim()`. */
  function LabelText(d: Value): (l: string)
    requires !IsNullish(d)
    ensures TrimOf(l, StringOf(Coalesce(Prop3(d, "label", "name", "key"), Str(""))))
    ensures l == "" || Trimmed(l)
  {
    Trim(StringOf(Coalesce(Prop3(d, "label", "name", "key"), Str(""))))
  }

  /** A string `label` property wins over `name` and `key`, and only its
      outer white space is removed. */
  lemma LabelTextOfLabel(fields: seq<(string, Value)>, s: string)
    requires Lookup(fields, "label") == Some(Str(s))
    ensures TrimOf(LabelText(Obj(fields)), s)
  {
  }

  /** `LabelRow` on every element; a null or undefined element has no row
      (it makes the `map` throw before any row is kept). */
  function LabelRowOf(d: Value): Option<(string, Number)>
  {
    if IsNullish(d) then None else LabelRow(d)
  }

  /** The rows that survive the filter, in input order. */
  function LabelRows(raw: Value): seq<(string, Number)>
  {
    match raw
    case Arr(items) => FilterMap(items, LabelRowOf)
    case Obj(fields) => FilterMap(fields, FiniteEntry)
    case _ => []
  }

  /** `if (preferredOrder.length) rows.sort(..)`. */
  function Arrange(rows: seq<(string, Number)>, pref: seq<string>): seq<(string, Number)>
  {
    if |pref| > 0 then SortBy(rows, RankOf(pref)) else rows
  }

  /** `normalizeLabelValue(raw, preferredOrder)`; `TypeError` when an array
      element is null or undefined. */
  function LabelValue(raw: Value, pref: seq<string>): (r: Result<Series<string>>)
    ensures r == TypeError <==> raw.Arr? && HasNullishRow(raw.items)
    ensures !(raw.Arr? || raw.Obj?) ==> r == Ok(NoData())
  {
    if raw.Arr? && HasNullishRow(raw.items) then TypeError
    else Ok(Unzip(Arrange(LabelRows(raw), pref)))
  }

  /** Ranks are never NaN. */
  lemma RanksDefined(rows: seq<(string, Number)>, pref: seq<string>)
    ensures KeysDefined(rows, RankOf(pref))
  {
  }

  /** The output rows are the kept rows, each once. */
  lemma LabelValueRows(raw: Value, pref: seq<string>)
    requires LabelValue(raw, pref).Ok?
    ensures var r := LabelValue(raw, pref).value;
      |r.labels| == |r.values| && multiset(Pairs(r)) == multiset(LabelRows(raw))
  {
    UnzipPairs(Arrange(LabelRows(raw), pref));
    SortByMultiset(LabelRows(raw), RankOf(pref));
  }

  /** From the array form every label is non-empty and trimmed and every value finite. */
  lemma LabelValueFiltered(items: seq<Value>, pref: seq<string>, l: string, v: Number)
    requires LabelValue(Arr(items), pref).Ok?
    ensures (l, v) in Pairs(LabelValue(Arr(items), pref).value) ==> Trimmed(l) && IsFinite(v)
  {
    LabelValueRows(Arr(items), pref);
    var r := LabelValue(Arr(items), pref).value;
    assert (l, v) in Pairs(r) <==> (l, v) in multiset(Pairs(r));
    FilterMapMembers(items, LabelRowOf, (l, v));
  }

  /** With a preferred order the rows are in ascending rank. */
  lemma LabelValueRanked(raw: Value, pref: seq<string>)
    requires LabelValue(raw, pref).Ok? && |pref| > 0
    ensures var r := LabelValue(raw, pref).value;
      forall i, j :: 0 <= i < j < |r.labels| ==> !Less(Rank(pref, r.labels[j]), Rank(pref, r.labels[i]))
  {
    RanksDefined(LabelRows(raw), pref);
    SortBySorted(LabelRows(raw), RankOf(pref));
    var sorted := SortBy(LabelRows(raw), RankOf(pref));
    assert forall i :: 0 <= i < |sorted| ==> RankOf(pref)(sorted[i]) == Rank(pref, sorted[i].0);
  }

  /** Labels of the preferred order come in that order and, when it has at
      most 999 entries, before every unknown label. */
  lemma LabelValuePreferredFirst(raw: Value, pref: seq<string>)
    requires LabelValue(raw, pref).Ok? && 0 < |pref| <= 999
    ensures var r := LabelValue(raw, pref).value;
      forall i, j :: 0 <= i < j < |r.labels| && r.labels[j] in pref ==>
        r.labels[i] in pref && IndexOf(pref, r.labels[i]) <= IndexOf(pref, r.labels[j])
  {
    LabelValueRanked(raw, pref);
    var r := LabelValue(raw, pref).value;
    forall i, j | 0 <= i < j < |r.labels| && r.labels[j] in pref
      ensures r.labels[i] in pref && IndexOf(pref, r.labels[i]) <= IndexOf(pref, r.labels[j])
    {
      RankOrder(pref, r.labels[i], r.labels[j]);
    }
  }

  /** A label ranked no later than a label of a preferred order of at most
      999 entries is in it too, and not after it. */
  lemma RankOrder(pref: seq<string>, a: string, b: string)
    requires |pref| <= 999 && b in pref && !Less(Rank(pref, b), Rank(pref, a))
    ensures a in pref && IndexOf(pref, a) <= IndexOf(pref, b)
  {
  }

  /** Rows of equal rank keep their input order (the sort is stable). */
  lemma LabelValueStable(raw: Value, pref: seq<string>, k: Number)
    requires LabelValue(raw, pref).Ok?
    ensures var r := LabelValue(raw, pref).value;
      |r.labels| == |r.values| &&
      WithKey(Pairs(r), RankOf(pref), k) == WithKey(LabelRows(raw), RankOf(pref), k)
  {
    UnzipPairs(Arrange(LabelRows(raw), pref));
    if |pref| > 0 {
      RanksDefined(LabelRows(raw), pref);
      SortByStable(LabelRows(raw), RankOf(pref), k);
    }
  }

  /** Without a preferred order the rows keep their input order. */
  lemma LabelValueUnordered(raw: Value)
    requires LabelValue(raw, []).Ok?
    ensures var r := LabelValue(raw, []).value;
      |r.labels| == |r.values| && Pairs(r) == LabelRows(raw)
  {
    UnzipPairs(LabelRows(raw));
  }

  /** `normalizeLabelValue` as the script runs it, sorting the fresh row
      array in place when a preferred order is given. */
  method NormalizeLabelValue(raw: Value, pref: seq<string>) returns (r: Result<Series<string>>)
    ensures r == LabelValue(raw, pref)
  {
    if raw.Arr? && HasNullishRow(raw.items) {
      return TypeError;
    }
    var rows := LabelRows(raw);
    if |pref| > 0 {
      RanksDefined(rows, pref);
      rows := SortRows(rows, RankOf(pref));
    }
    r := Ok(Unzip(rows));
  }
}
