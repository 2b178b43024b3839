/** The zero-field scan `findZeroFields` (src/App.jsx:161-264): every field of
    a sheet whose numeric value is exactly 0 yields one error record, in a
    fixed order: the year, the six categories in key order, then the flat
    metrics.

    The source builds a nested field's id from the lower-cased category path
    (`assets.noncurrent`), while the form's drop-downs build it with the
    original case (`assets.nonCurrent`). The scan is therefore defined once,
    with a flag choosing the path spelling: `FindZeroFieldsAsWritten` is the
    code as written, `FindZeroFields` the corrected scan. The workspace's
    confirmation gate carries the same flag, so the page is modelled both
    as written and corrected. */
module Validation {
  import opened Common
  import opened Text
  import opened Sheets

  /** One error record: `{sheetId, sheetYear, location, fieldId}`. */
  datatype ZeroError = ZeroError(sheetId: int, sheetYear: int, location: string, fieldId: string)

  /** A field of a sheet: the year, the `index`-th entry of a category, or a
      flat metric. */
  datatype FieldRef = YearField | Leaf(sub: Sub, index: nat) | Flat(metric: Metric)

  /** `sheet-{id}`, the prefix of every field id of a sheet. */
  function SheetPrefix(id: int): string {
    "sheet-" + IntToString(id)
  }

  /** The location text of a category, `section > subSection`. */
  function CategoryLocation(sub: Sub): string {
    SectionName(sub) + " > " + SubName(sub)
  }

  /** The category part of a nested field id: `location` with `" > "` turned
      into `"."`, lower-cased when `lowerPath` is set (as the source does). */
  function CategoryPath(sub: Sub, lowerPath: bool): string {
    var path := SectionName(sub) + "." + SubName(sub);
    if lowerPath then ToLower(path) else path
  }

  /** The location text of a flat metric. */
  function MetricLabel(m: Metric): string {
    match m
    case Income => "Income"
    case Revenue => "Revenue"
    case Profit => "Profit"
    case OpeningIncome => "Opening Income"
    case NetIncome => "Net Income"
    case InterestExpense => "Interest Expense"
    case IncomeTaxes => "Income Taxes"
    case Depreciation => "Depreciation"
    case Amortization => "Amortization"
  }

  predicate ValidRef(s: Sheet, f: FieldRef) {
    f.Leaf? ==> f.index < |Cat(s, f.sub)|
  }

  /** The numeric value of a field; `None` for an absent flat metric, whose
      `Number(undefined)` is NaN and never equals 0. */
  function ValueOf(s: Sheet, f: FieldRef): Option<int>
    requires ValidRef(s, f)
  {
    match f
    case YearField => Some(s.year)
    case Leaf(sub, i) => Some(Cat(s, sub)[i].1)
    case Flat(m) => MetricValue(s, m)
  }

  /** The error record the scan emits for a zero field. */
  function ErrorFor(s: Sheet, f: FieldRef, lowerPath: bool): (e: ZeroError)
    requires ValidRef(s, f)
    ensures e.sheetId == s.id && e.sheetYear == s.year
  {
    match f
    case YearField =>
      ZeroError(s.id, s.year, "Year", SheetPrefix(s.id) + ".year")
    case Leaf(sub, i) =>
      var key := Cat(s, sub)[i].0;
      ZeroError(s.id, s.year, CategoryLocation(sub) + " > " + key,
                SheetPrefix(s.id) + "." + CategoryPath(sub, lowerPath) + "." + key)
    case Flat(m) =>
      ZeroError(s.id, s.year, MetricLabel(m), SheetPrefix(s.id) + "." + MetricKey(m))
  }

  // ---------------------------------------------------------------------
  // The scan, following the source's structure
  // ---------------------------------------------------------------------

  /** `checkNested` over the first `n` keys of one category. */
  function ScanCategory(s: Sheet, sub: Sub, n: nat, lowerPath: bool): seq<ZeroError>
    requires n <= |Cat(s, sub)|
  {
    if n == 0 then []
    else
      ScanCategory(s, sub, n - 1, lowerPath)
      + (if Cat(s, sub)[n - 1].1 == 0 then [ErrorFor(s, Leaf(sub, n - 1), lowerPath)] else [])
  }

  function ScanAllCategory(s: Sheet, sub: Sub, lowerPath: bool): seq<ZeroError> {
    ScanCategory(s, sub, |Cat(s, sub)|, lowerPath)
  }

  /** The flat-metric checks, in the order given. */
  function ScanMetrics(s: Sheet, ms: seq<Metric>, lowerPath: bool): seq<ZeroError> {
    if |ms| == 0 then []
    else
      ScanMetrics(s, ms[..|ms| - 1], lowerPath)
      + (if MetricValue(s, ms[|ms| - 1]) == Some(0)
         then [ErrorFor(s, Flat(ms[|ms| - 1]), lowerPath)] else [])
  }

  /** `checkNested` over each category of `subs`, in order. */
  function ScanCategories(s: Sheet, subs: seq<Sub>, lowerPath: bool): seq<ZeroError> {
    if |subs| == 0 then []
    else ScanCategories(s, subs[..|subs| - 1], lowerPath) + ScanAllCategory(s, subs[|subs| - 1], lowerPath)
  }

  /** The whole scan: year, the six categories, the flat metrics. */
  function ScanSheet(s: Sheet, lowerPath: bool): seq<ZeroError> {
    (if s.year == 0 then [ErrorFor(s, YearField, lowerPath)] else [])
    + ScanCategories(s, SubOrder, lowerPath)
    + ScanMetrics(s, MetricOrder, lowerPath)
  }

  /** `findZeroFields(sheet)` exactly as written: nested ids use the
      lower-cased category path. */
  function FindZeroFieldsAsWritten(s: Sheet): seq<ZeroError> {
    ScanSheet(s, true)
  }

  /** `findZeroFields(sheet)` with the category path in its original case, so
      that its ids are the ones the drop-downs look for. */
  function FindZeroFields(s: Sheet): seq<ZeroError> {
    ScanSheet(s, false)
  }

  // ---------------------------------------------------------------------
  // Reference definition: filter an explicit field list
  // ---------------------------------------------------------------------

  function LeafRefs(sub: Sub, n: nat): (r: seq<FieldRef>)
    ensures |r| == n
    ensures forall i :: 0 <= i < n ==> r[i] == Leaf(sub, i)
  {
    seq(n, i requires 0 <= i < n => Leaf(sub, i))
  }

  function FlatRefs(ms: seq<Metric>): (r: seq<FieldRef>)
    ensures |r| == |ms|
    ensures forall i :: 0 <= i < |ms| ==> r[i] == Flat(ms[i])
  {
    seq(|ms|, i requires 0 <= i < |ms| => Flat(ms[i]))
  }

  /** The fields of the categories `subs`, category by category. */
  function CategoryFields(s: Sheet, subs: seq<Sub>): (r: seq<FieldRef>)
    ensures forall f :: f in r ==> ValidRef(s, f)
  {
    if |subs| == 0 then []
    else CategoryFields(s, subs[..|subs| - 1]) + LeafRefs(subs[|subs| - 1], |Cat(s, subs[|subs| - 1])|)
  }

  /** Every field of a sheet in scan order. */
  function AllFields(s: Sheet): (r: seq<FieldRef>)
    ensures forall f :: f in r ==> ValidRef(s, f)
  {
    [YearField] + CategoryFields(s, SubOrder) + FlatRefs(MetricOrder)
  }

  lemma {:induction false} LeafInCategoryFields(s: Sheet, subs: seq<Sub>, sub: Sub, i: nat)
    requires sub in subs && i < |Cat(s, sub)|
    ensures Leaf(sub, i) in CategoryFields(s, subs)
  {
    var last := subs[|subs| - 1];
    if last == sub {
      assert LeafRefs(sub, |Cat(s, sub)|)[i] == Leaf(sub, i);
    } else {
      assert subs == subs[..|subs| - 1] + [last];
      LeafInCategoryFields(s, subs[..|subs| - 1], sub, i);
    }
  }

  /** Every line item of every category is among the scanned fields. */
  lemma LeafInAllFields(s: Sheet, sub: Sub, i: nat)
    requires i < |Cat(s, sub)|
    ensures Leaf(sub, i) in AllFields(s)
  {
    assert sub in SubOrder by { assert SubOrder[0] == AssetsCurrent; }
    LeafInCategoryFields(s, SubOrder, sub, i);
    var all := AllFields(s);
    var cf := CategoryFields(s, SubOrder);
    assert all == [YearField] + cf + FlatRefs(MetricOrder);
    var k :| 0 <= k < |cf| && cf[k] == Leaf(sub, i);
    assert all[1 + k] == Leaf(sub, i);
  }

  /** The fields among `refs` whose value is exactly 0, in order. */
  function ZeroFields(s: Sheet, refs: seq<FieldRef>): (r: seq<FieldRef>)
    requires forall f :: f in refs ==> ValidRef(s, f)
    ensures forall f :: f in r ==> ValidRef(s, f)
  {
    if |refs| == 0 then []
    else
      var last := refs[|refs| - 1];
      assert refs == refs[..|refs| - 1] + [last];
      ZeroFields(s, refs[..|refs| - 1]) + (if ValueOf(s, last) == Some(0) then [last] else [])
  }

  /** A field is kept exactly when it is among `refs` and its value is 0. */
  lemma {:induction false} ZeroFieldsMembers(s: Sheet, refs: seq<FieldRef>)
    requires forall f :: f in refs ==> ValidRef(s, f)
    ensures forall f :: f in ZeroFields(s, refs) <==> f in refs && ValueOf(s, f) == Some(0)
  {
    if |refs| > 0 {
      var pre, last := refs[..|refs| - 1], refs[|refs| - 1];
      assert refs == pre + [last];
      ZeroFieldsMembers(s, pre);
    }
  }

  function ErrorsFor(s: Sheet, refs: seq<FieldRef>, lowerPath: bool): (r: seq<ZeroError>)
    requires forall f :: f in refs ==> ValidRef(s, f)
    ensures |r| == |refs|
    ensures forall i :: 0 <= i < |refs| ==> r[i] == ErrorFor(s, refs[i], lowerPath)
  {
    seq(|refs|, i requires 0 <= i < |refs| && ValidRef(s, refs[i]) => ErrorFor(s, refs[i], lowerPath))
  }

  lemma {:induction false} ZeroFieldsAppend(s: Sheet, a: seq<FieldRef>, b: seq<FieldRef>)
    requires forall f :: f in a ==> ValidRef(s, f)
    requires forall f :: f in b ==> ValidRef(s, f)
    ensures ZeroFields(s, a + b) == ZeroFields(s, a) + ZeroFields(s, b)
    decreases |b|
  {
    if |b| > 0 {
      var b', last := b[..|b| - 1], b[|b| - 1];
      assert b == b' + [last];
      ZeroFieldsAppend(s, a, b');
      ZeroFieldsSnoc(s, a + b', last);
      ZeroFieldsSnoc(s, b', last);
      assert (a + b') + [last] == a + b;
    } else {
      assert a + b == a;
    }
  }

  lemma ZeroFieldsSnoc(s: Sheet, refs: seq<FieldRef>, last: FieldRef)
    requires forall f :: f in refs ==> ValidRef(s, f)
    requires ValidRef(s, last)
    ensures ZeroFields(s, refs + [last])
            == ZeroFields(s, refs) + (if ValueOf(s, last) == Some(0) then [last] else [])
  {
    var r := refs + [last];
    assert r[..|r| - 1] == refs;
  }

  lemma ErrorsForAppend(s: Sheet, a: seq<FieldRef>, b: seq<FieldRef>, lowerPath: bool)
    requires forall f :: f in a ==> ValidRef(s, f)
    requires forall f :: f in b ==> ValidRef(s, f)
    ensures ErrorsFor(s, a + b, lowerPath) == ErrorsFor(s, a, lowerPath) + ErrorsFor(s, b, lowerPath)
  {
  }

  lemma {:induction false} ScanCategoryIsFilter(s: Sheet, sub: Sub, n: nat, lowerPath: bool)
    requires n <= |Cat(s, sub)|
    ensures ScanCategory(s, sub, n, lowerPath)
            == ErrorsFor(s, ZeroFields(s, LeafRefs(sub, n)), lowerPath)
  {
    if n > 0 {
      var pre := LeafRefs(sub, n - 1);
      var one := [Leaf(sub, n - 1)];
      calc {
        ErrorsFor(s, ZeroFields(s, LeafRefs(sub, n)), lowerPath);
        == { assert LeafRefs(sub, n) == pre + one; ZeroFieldsAppend(s, pre, one); }
        ErrorsFor(s, ZeroFields(s, pre) + ZeroFields(s, one), lowerPath);
        == { ErrorsForAppend(s, ZeroFields(s, pre), ZeroFields(s, one), lowerPath); }
        ErrorsFor(s, ZeroFields(s, pre), lowerPath) + ErrorsFor(s, ZeroFields(s, one), lowerPath);
        == { ScanCategoryIsFilter(s, sub, n - 1, lowerPath); SingleFieldFilter(s, Leaf(sub, n - 1), lowerPath); }
        ScanCategory(s, sub, n - 1, lowerPath)
        + (if Cat(s, sub)[n - 1].1 == 0 then [ErrorFor(s, Leaf(sub, n - 1), lowerPath)] else []);
      }
    }
  }

  /** Filtering a single field emits its error exactly when it is zero. */
  lemma SingleFieldFilter(s: Sheet, f: FieldRef, lowerPath: bool)
    requires ValidRef(s, f)
    ensures ErrorsFor(s, ZeroFields(s, [f]), lowerPath)
            == if ValueOf(s, f) == Some(0) then [ErrorFor(s, f, lowerPath)] else []
  {
    assert [f][..0] == [];
  }

  lemma {:induction false} ScanMetricsIsFilter(s: Sheet, ms: seq<Metric>, lowerPath: bool)
    ensures ScanMetrics(s, ms, lowerPath) == ErrorsFor(s, ZeroFields(s, FlatRefs(ms)), lowerPath)
  {
    if |ms| > 0 {
      var ms' := ms[..|ms| - 1];
      var one := [Flat(ms[|ms| - 1])];
      ScanMetricsIsFilter(s, ms', lowerPath);
      assert FlatRefs(ms) == FlatRefs(ms') + one;
      ZeroFieldsAppend(s, FlatRefs(ms'), one);
      ErrorsForAppend(s, ZeroFields(s, FlatRefs(ms')), ZeroFields(s, one), lowerPath);
      SingleFieldFilter(s, Flat(ms[|ms| - 1]), lowerPath);
    }
  }

  lemma {:induction false} ScanCategoriesIsFilter(s: Sheet, subs: seq<Sub>, lowerPath: bool)
    ensures ScanCategories(s, subs, lowerPath)
            == ErrorsFor(s, ZeroFields(s, CategoryFields(s, subs)), lowerPath)
  {
    if |subs| > 0 {
      var subs' := subs[..|subs| - 1];
      var sub := subs[|subs| - 1];
      var part := LeafRefs(sub, |Cat(s, sub)|);
      ScanCategoriesIsFilter(s, subs', lowerPath);
      ScanCategoryIsFilter(s, sub, |Cat(s, sub)|, lowerPath);
      ZeroFieldsAppend(s, CategoryFields(s, subs'), part);
      ErrorsForAppend(s, ZeroFields(s, CategoryFields(s, subs')), ZeroFields(s, part), lowerPath);
    }
  }

  /** The scan is total and ordered: it emits exactly one error per field of
      `AllFields(s)` whose value is 0, in that order, and nothing else. */
  lemma ScanIsZeroFilterOfAllFields(s: Sheet, lowerPath: bool)
    ensures ScanSheet(s, lowerPath) == ErrorsFor(s, ZeroFields(s, AllFields(s)), lowerPath)
  {
    var cats := CategoryFields(s, SubOrder);
    var flats := FlatRefs(MetricOrder);
    var y := ZeroFields(s, [YearField]);
    var zc := ZeroFields(s, cats);
    var zf := ZeroFields(s, flats);
    var yearPart := if s.year == 0 then [ErrorFor(s, YearField, lowerPath)] else [];
    assert ErrorsFor(s, y, lowerPath) == yearPart by {
      assert y == ZeroFields(s, []) + (if s.year == 0 then [YearField] else []);
    }
    assert ScanCategories(s, SubOrder, lowerPath) == ErrorsFor(s, zc, lowerPath) by {
      ScanCategoriesIsFilter(s, SubOrder, lowerPath);
    }
    assert ScanMetrics(s, MetricOrder, lowerPath) == ErrorsFor(s, zf, lowerPath) by {
      ScanMetricsIsFilter(s, MetricOrder, lowerPath);
    }
    assert ZeroFields(s, AllFields(s)) == y + zc + zf by {
      ZeroFieldsAppend(s, [YearField], cats);
      ZeroFieldsAppend(s, [YearField] + cats, flats);
    }
    assert ErrorsFor(s, y + zc + zf, lowerPath)
              == ErrorsFor(s, y, lowerPath) + ErrorsFor(s, zc, lowerPath) + ErrorsFor(s, zf, lowerPath) by {
      ErrorsForAppend(s, y, zc, lowerPath);
      ErrorsForAppend(s, y + zc, zf, lowerPath);
    }
  }

  // ---------------------------------------------------------------------
  // What the scan reports
  // ---------------------------------------------------------------------

  /** `findZeroFields` flags a field if and only if its value is exactly 0:
      the i-th error is the error of the i-th zero field, every zero field is
      reported, and no other field (a non-zero value, or an absent metric) is.
      Every error carries the sheet's id and year. */
  lemma FindZeroFieldsReportsExactlyZeroFields(s: Sheet, lowerPath: bool)
    ensures var errs := ScanSheet(s, lowerPath);
            var zs := ZeroFields(s, AllFields(s));
            |errs| == |zs|
            && (forall i :: 0 <= i < |errs| ==> errs[i] == ErrorFor(s, zs[i], lowerPath))
            && (forall f :: f in AllFields(s) ==> (f in zs <==> ValueOf(s, f) == Some(0)))
            && (forall m :: MetricValue(s, m).None? ==> Flat(m) !in zs)
            && (forall e :: e in errs ==> e.sheetId == s.id && e.sheetYear == s.year)
  {
    ScanIsZeroFilterOfAllFields(s, lowerPath);
    ZeroFieldsMembers(s, AllFields(s));
  }

  /** The code as written and the corrected scan report the same fields with
      the same locations; a flat or year id is the same in both, and a nested
      id differs only in that the as-written one lower-cases the category
      path. */
  lemma AsWrittenDiffersOnlyInPathCase(s: Sheet)
    ensures |FindZeroFieldsAsWritten(s)| == |FindZeroFields(s)| == |ZeroFields(s, AllFields(s))|
    ensures forall i :: 0 <= i < |FindZeroFields(s)| ==>
              var a := FindZeroFieldsAsWritten(s)[i];
              var b := FindZeroFields(s)[i];
              a.sheetId == b.sheetId && a.sheetYear == b.sheetYear && a.location == b.location
    ensures forall i :: 0 <= i < |FindZeroFields(s)| ==>
              var f := ZeroFields(s, AllFields(s))[i];
              var a := FindZeroFieldsAsWritten(s)[i];
              var b := FindZeroFields(s)[i];
              f in AllFields(s)
              && (!f.Leaf? ==> a.fieldId == b.fieldId)
              && (f.Leaf? ==>
                    var path := SectionName(f.sub) + "." + SubName(f.sub);
                    var key := Cat(s, f.sub)[f.index].0;
                    b.fieldId == SheetPrefix(s.id) + "." + path + "." + key
                    && a.fieldId == SheetPrefix(s.id) + "." + ToLower(path) + "." + key)
  {
    ScanIsZeroFilterOfAllFields(s, true);
    ScanIsZeroFilterOfAllFields(s, false);
    ZeroFieldsMembers(s, AllFields(s));
  }

  function TotalLeaves(s: Sheet, subs: seq<Sub>): nat {
    if |subs| == 0 then 0 else TotalLeaves(s, subs[..|subs| - 1]) + |Cat(s, subs[|subs| - 1])|
  }

  predicate AllLeavesZero(s: Sheet) {
    forall sub, i :: 0 <= i < |Cat(s, sub)| ==> Cat(s, sub)[i].1 == 0
  }

  lemma {:induction false} ScanCategoryAllZero(s: Sheet, sub: Sub, n: nat, lowerPath: bool)
    requires n <= |Cat(s, sub)| && AllLeavesZero(s)
    ensures |ScanCategory(s, sub, n, lowerPath)| == n
  {
    if n > 0 {
      ScanCategoryAllZero(s, sub, n - 1, lowerPath);
    }
  }

  lemma {:induction false} ScanCategoriesAllZero(s: Sheet, subs: seq<Sub>, lowerPath: bool)
    requires AllLeavesZero(s)
    ensures |ScanCategories(s, subs, lowerPath)| == TotalLeaves(s, subs)
  {
    if |subs| > 0 {
      ScanCategoriesAllZero(s, subs[..|subs| - 1], lowerPath);
      ScanCategoryAllZero(s, subs[|subs| - 1], |Cat(s, subs[|subs| - 1])|, lowerPath);
    }
  }

  lemma {:induction false} ScanMetricsAppend(s: Sheet, a: seq<Metric>, b: seq<Metric>, lowerPath: bool)
    ensures ScanMetrics(s, a + b, lowerPath) == ScanMetrics(s, a, lowerPath) + ScanMetrics(s, b, lowerPath)
    decreases |b|
  {
    if |b| == 0 {
      assert a + b == a;
    } else {
      assert (a + b)[..|a + b| - 1] == a + b[..|b| - 1];
      ScanMetricsAppend(s, a, b[..|b| - 1], lowerPath);
    }
  }

  lemma {:induction false} ScanMetricsAbsent(s: Sheet, ms: seq<Metric>, lowerPath: bool)
    requires forall i :: 0 <= i < |ms| ==> MetricValue(s, ms[i]).None?
    ensures ScanMetrics(s, ms, lowerPath) == []
  {
    if |ms| > 0 {
      ScanMetricsAbsent(s, ms[..|ms| - 1], lowerPath);
    }
  }

  lemma TotalLeavesOfSubOrder(s: Sheet)
    ensures TotalLeaves(s, SubOrder)
            == |s.assetsCurrent| + |s.assetsNonCurrent| + |s.liabilitiesCurrent|
               + |s.liabilitiesLongTerm| + |s.equityCommon| + |s.equityComprehensive|
  {
    var subs := SubOrder;
    assert subs[..1] == [AssetsCurrent];
    assert subs[..2][..1] == subs[..1];
    assert subs[..3][..2] == subs[..2];
    assert subs[..4][..3] == subs[..3];
    assert subs[..5][..4] == subs[..4];
    assert subs[..6][..5] == subs[..5];
    assert subs[..6] == subs;
    assert TotalLeaves(s, subs[..1]) == |s.assetsCurrent| by { assert subs[..1][..0] == []; }
    assert TotalLeaves(s, subs[..2]) == TotalLeaves(s, subs[..1]) + |s.assetsNonCurrent|;
    assert TotalLeaves(s, subs[..3]) == TotalLeaves(s, subs[..2]) + |s.liabilitiesCurrent|;
    assert TotalLeaves(s, subs[..4]) == TotalLeaves(s, subs[..3]) + |s.liabilitiesLongTerm|;
    assert TotalLeaves(s, subs[..5]) == TotalLeaves(s, subs[..4]) + |s.equityCommon|;
    assert TotalLeaves(s, subs[..6]) == TotalLeaves(s, subs[..5]) + |s.equityComprehensive|;
  }

  lemma DefaultSheetLeafErrors(id: int, year: int, lowerPath: bool)
    ensures |ScanCategories(DefaultBalanceSheet(id, year), SubOrder, lowerPath)| == 18
  {
    var d := DefaultBalanceSheet(id, year);
    forall sub, i | 0 <= i < |Cat(d, sub)| ensures Cat(d, sub)[i].1 == 0 {
      DefaultSheetCategories(id, year, sub);
    }
    DefaultSheetCategories(id, year, AssetsCurrent);
    DefaultSheetCategories(id, year, AssetsNonCurrent);
    DefaultSheetCategories(id, year, LiabilitiesCurrent);
    DefaultSheetCategories(id, year, LiabilitiesLongTerm);
    DefaultSheetCategories(id, year, EquityCommon);
    DefaultSheetCategories(id, year, EquityComprehensive);
    ZeroLeavesCount(d, lowerPath);
  }

  /** A sheet with a fresh sheet's category sizes, all of whose line items
      are 0, yields one error per line item: 18 in all. */
  lemma ZeroLeavesCount(d: Sheet, lowerPath: bool)
    requires AllLeavesZero(d)
    requires |d.assetsCurrent| == 4 && |d.assetsNonCurrent| == 3 && |d.liabilitiesCurrent| == 3
    requires |d.liabilitiesLongTerm| == 3 && |d.equityCommon| == 3 && |d.equityComprehensive| == 2
    ensures |ScanCategories(d, SubOrder, lowerPath)| == 18
  {
    ScanCategoriesAllZero(d, SubOrder, lowerPath);
    TotalLeavesOfSubOrder(d);
  }

  lemma DefaultSheetMetricErrors(id: int, year: int, lowerPath: bool)
    ensures |ScanMetrics(DefaultBalanceSheet(id, year), MetricOrder, lowerPath)| == 3
  {
    ThreeZeroMetrics(DefaultBalanceSheet(id, year), lowerPath);
  }

  lemma ThreeZeroMetrics(s: Sheet, lowerPath: bool)
    requires s.metrics == map[Income := 0, Revenue := 0, Profit := 0]
    ensures |ScanMetrics(s, MetricOrder, lowerPath)| == 3
  {
    var present := [Income, Revenue, Profit];
    var absent := [OpeningIncome, NetIncome, InterestExpense, IncomeTaxes, Depreciation, Amortization];
    assert MetricOrder == present + absent;
    ScanMetricsAppend(s, present, absent, lowerPath);
    ScanMetricsAbsent(s, absent, lowerPath);
    ThreePresentMetrics(s, Income, Revenue, Profit, lowerPath);
  }

  /** Three metrics that are all 0 yield three errors. */
  lemma ThreePresentMetrics(s: Sheet, m1: Metric, m2: Metric, m3: Metric, lowerPath: bool)
    requires MetricValue(s, m1) == MetricValue(s, m2) == MetricValue(s, m3) == Some(0)
    ensures |ScanMetrics(s, [m1, m2, m3], lowerPath)| == 3
  {
    ScanMetricsAppend(s, [m1, m2], [m3], lowerPath);
    ScanMetricsAppend(s, [m1], [m2], lowerPath);
    OneZeroMetric(s, m1, lowerPath);
    OneZeroMetric(s, m2, lowerPath);
    OneZeroMetric(s, m3, lowerPath);
    assert [m1] + [m2] == [m1, m2];
    assert [m1, m2] + [m3] == [m1, m2, m3];
  }

  lemma OneZeroMetric(s: Sheet, m: Metric, lowerPath: bool)
    requires MetricValue(s, m) == Some(0)
    ensures |ScanMetrics(s, [m], lowerPath)| == 1
  {
    assert [m][..0] == [];
  }

  /** A fresh sheet with a non-zero year yields exactly 21 errors: its 18
      nested line items plus `income`, `revenue` and `profit`; the six absent
      metrics are never flagged. With year 0 the year is flagged too. */
  lemma DefaultSheetErrorCount(id: int, year: int, lowerPath: bool)
    ensures |ScanSheet(DefaultBalanceSheet(id, year), lowerPath)| == if year == 0 then 22 else 21
  {
    DefaultSheetLeafErrors(id, year, lowerPath);
    DefaultSheetMetricErrors(id, year, lowerPath);
  }
}
