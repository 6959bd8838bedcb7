/** The pieces the chart-data normalizers of the history page are built
    from: the `{ labels, values }` series they return, the `map`/`filter`
    steps over rows, `Array.prototype.indexOf` on the preferred order, and
    the in-place sort of the freshly built row array. */
module ChartData {
  import opened Wrappers
  import opened Json
  import opened Numbers
  import opened StableSort

  /** The `{ labels, values }` object a normalizer returns. */
  datatype Series<L> = Series(labels: seq<L>, values: seq<Number>)

  /** `{ labels: [], values: [] }`. */
  function NoData<L>(): Series<L>
  {
    Series([], [])
  }

  /** `rows.map(r => r.label)` and `rows.map(r => r.value)`: entry `i` of
      both comes from row `i`. */
  function Unzip<L>(rows: seq<(L, Number)>): (r: Series<L>)
    ensures |r.labels| == |r.values| == |rows|
    ensures forall i :: 0 <= i < |rows| ==> (r.labels[i], r.values[i]) == rows[i]
  {
    if |rows| == 0 then NoData()
    else
      var rest := Unzip(rows[1..]);
      Series([rows[0].0] + rest.labels, [rows[0].1] + rest.values)
  }

  /** The rows of a series, label and value side by side. */
  function Pairs<L>(s: Series<L>): seq<(L, Number)>
    requires |s.labels| == |s.values|
  {
    seq(|s.labels|, i requires 0 <= i < |s.labels| => (s.labels[i], s.values[i]))
  }

  /** Splitting rows into a series and pairing them up again gives the rows back. */
  lemma UnzipPairs<L>(rows: seq<(L, Number)>)
    ensures Pairs(Unzip(rows)) == rows
  {
  }

  /** The label of a row. */
  function Label<L>(row: (L, Number)): L
  {
    row.0
  }

  /** `xs.map(f).filter(keep)` in one pass: `f` gives `None` for a row the
      filter drops. The kept rows stay in input order. */
  function FilterMap<A, B>(xs: seq<A>, f: A -> Option<B>): (ys: seq<B>)
    ensures |ys| <= |xs|
  {
    if |xs| == 0 then []
    else (match f(xs[0]) case Some(y) => [y] case None => []) + FilterMap(xs[1..], f)
  }

  /** A row is in the result exactly when some input row maps to it. */
  lemma {:induction false} FilterMapMembers<A, B>(xs: seq<A>, f: A -> Option<B>, y: B)
    ensures y in FilterMap(xs, f) <==> exists i :: 0 <= i < |xs| && f(xs[i]) == Some(y)
    decreases |xs|
  {
    if |xs| > 0 {
      FilterMapMembers(xs[1..], f, y);
      var head := match f(xs[0]) case Some(z) => [z] case None => [];
      assert FilterMap(xs, f) == head + FilterMap(xs[1..], f);
      if exists i :: 0 <= i < |xs| && f(xs[i]) == Some(y) {
        var i :| 0 <= i < |xs| && f(xs[i]) == Some(y);
        if i > 0 {
          assert f(xs[1..][i - 1]) == Some(y);
        }
      }
      if y in FilterMap(xs[1..], f) {
        var i :| 0 <= i < |xs[1..]| && f(xs[1..][i]) == Some(y);
        assert f(xs[i + 1]) == Some(y);
      }
    }
  }

  /** Reading a property of a null or undefined row throws in the `map`
      callback: some row is null or undefined. */
  predicate HasNullishRow(xs: seq<Value>)
  {
    exists i :: 0 <= i < |xs| && IsNullish(xs[i])
  }

  /** `d.key` on a row that is neither null nor undefined. */
  function Prop(d: Value, key: string): Value
    requires !IsNullish(d)
  {
    Member(d, key).value
  }

  /** `d.a ?? d.b`. */
  function Prop2(d: Value, a: string, b: string): Value
    requires !IsNullish(d)
  {
    Coalesce(Prop(d, a), Prop(d, b))
  }

  /** `d.a ?? d.b ?? d.c`. */
  function Prop3(d: Value, a: string, b: string, c: string): Value
    requires !IsNullish(d)
  {
    Coalesce(Prop(d, a), Prop2(d, b, c))
  }

  /** `d.a ?? d.b ?? d.c ?? d.e`. */
  function Prop4(d: Value, a: string, b: string, c: string, e: string): Value
    requires !IsNullish(d)
  {
    Coalesce(Prop(d, a), Prop3(d, b, c, e))
  }

  /** `xs.indexOf(x)`: the first position of `x`, or -1 when it is absent. */
  function IndexOf(xs: seq<string>, x: string): (i: int)
    ensures -1 <= i < |xs|
    ensures i == -1 <==> x !in xs
    ensures i >= 0 ==> xs[i] == x && x !in xs[..i]
  {
    if |xs| == 0 then -1
    else if xs[0] == x then 0
    else
      var j := IndexOf(xs[1..], x);
      assert j >= 0 ==> xs[..j + 1] == [xs[0]] + xs[1..][..j];
      if j == -1 then -1 else j + 1
  }

  /** An entry of an object as `[String(k), Number(v)]`, kept when the
      value is finite (the object branch of both `normalizeLabelValue`s). */
  function FiniteEntry(e: (string, Value)): (r: Option<(string, Number)>)
    ensures r.Some? <==> IsFinite(ToNumber(e.1))
    ensures r.Some? ==> r.value == (e.0, ToNumber(e.1))
  {
    var v := ToNumber(e.1);
    if IsFinite(v) then Some((e.0, v)) else None
  }

  /** The sort of a freshly built array of rows: the rows are copied into
      an array that is sorted in place. */
  method SortRows<T>(rows: seq<T>, key: T -> Number) returns (sorted: seq<T>)
    requires KeysDefined(rows, key)
    ensures sorted == SortBy(rows, key)
    ensures multiset(sorted) == multiset(rows) && SortedBy(sorted, key)
  {
    var a := new T[|rows|](i requires 0 <= i < |rows| => rows[i]);
    assert a[..] == rows;
    SortInPlace(a, key);
    sorted := a[..];
    SortByMultiset(rows, key);
    SortBySorted(rows, key);
  }
}
