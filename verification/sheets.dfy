/** The balance-sheet record and its helpers (src/utils/balanceSheetUtils.js):
    the six nested categories of named amounts, the flat income metrics,
    the zeroed factory `defaultBalanceSheet` and the category sum `sumValues`. */
module Sheets {
  import opened Common
  import opened Text

  /** One named amount group, in key insertion order (a JavaScript object
      whose keys are the line-item labels). */
  type Category = seq<(string, int)>

  /** The six nested categories, in the order the sheet declares them. */
  datatype Sub =
    | AssetsCurrent | AssetsNonCurrent
    | LiabilitiesCurrent | LiabilitiesLongTerm
    | EquityCommon | EquityComprehensive

  /** The flat metrics a sheet may carry. */
  datatype Metric =
    | Income | Revenue | Profit | OpeningIncome | NetIncome
    | InterestExpense | IncomeTaxes | Depreciation | Amortization

  /** `companyId` / `companyName` as stamped on a sheet by the flattening
      export. */
  datatype Owner = Owner(companyId: int, companyName: string)

  /** A balance sheet. `name` and `identifier` are absent on a fresh sheet;
      a flat metric absent from `metrics` is `undefined` in the source. */
  datatype Sheet = Sheet(
    id: int,
    year: int,
    name: Option<string>,
    identifier: Option<string>,
    assetsCurrent: Category,
    assetsNonCurrent: Category,
    liabilitiesCurrent: Category,
    liabilitiesLongTerm: Category,
    equityCommon: Category,
    equityComprehensive: Category,
    metrics: map<Metric, int>,
    owner: Option<Owner>)

  const SubOrder: seq<Sub> := [AssetsCurrent, AssetsNonCurrent, LiabilitiesCurrent,
                               LiabilitiesLongTerm, EquityCommon, EquityComprehensive]

  const MetricOrder: seq<Metric> := [Income, Revenue, Profit, OpeningIncome, NetIncome,
                                     InterestExpense, IncomeTaxes, Depreciation, Amortization]

  /** The section object a category lives in (`assets`, `liabilities`, `equity`). */
  function SectionName(sub: Sub): string {
    match sub
    case AssetsCurrent | AssetsNonCurrent => "assets"
    case LiabilitiesCurrent | LiabilitiesLongTerm => "liabilities"
    case EquityCommon | EquityComprehensive => "equity"
  }

  /** The category's key inside its section object, with its original case. */
  function SubName(sub: Sub): string {
    match sub
    case AssetsCurrent => "current"
    case AssetsNonCurrent => "nonCurrent"
    case LiabilitiesCurrent => "current"
    case LiabilitiesLongTerm => "longTerm"
    case EquityCommon => "common"
    case EquityComprehensive => "comprehensive"
  }

  /** The property name of a flat metric. */
  function MetricKey(m: Metric): string {
    match m
    case Income => "income"
    case Revenue => "revenue"
    case Profit => "profit"
    case OpeningIncome => "openingIncome"
    case NetIncome => "netIncome"
    case InterestExpense => "interestExpense"
    case IncomeTaxes => "incomeTaxes"
    case Depreciation => "depreciation"
    case Amortization => "amortization"
  }

  function Cat(s: Sheet, sub: Sub): Category {
    match sub
    case AssetsCurrent => s.assetsCurrent
    case AssetsNonCurrent => s.assetsNonCurrent
    case LiabilitiesCurrent => s.liabilitiesCurrent
    case LiabilitiesLongTerm => s.liabilitiesLongTerm
    case EquityCommon => s.equityCommon
    case EquityComprehensive => s.equityComprehensive
  }

  /** The sheet with one category replaced. */
  function WithCat(s: Sheet, sub: Sub, c: Category): (r: Sheet)
    ensures Cat(r, sub) == c
    ensures forall other :: other != sub ==> Cat(r, other) == Cat(s, other)
    ensures r.id == s.id && r.year == s.year && r.name == s.name
    ensures r.identifier == s.identifier && r.metrics == s.metrics && r.owner == s.owner
  {
    match sub
    case AssetsCurrent => s.(assetsCurrent := c)
    case AssetsNonCurrent => s.(assetsNonCurrent := c)
    case LiabilitiesCurrent => s.(liabilitiesCurrent := c)
    case LiabilitiesLongTerm => s.(liabilitiesLongTerm := c)
    case EquityCommon => s.(equityCommon := c)
    case EquityComprehensive => s.(equityComprehensive := c)
  }

  /** A flat metric's value, `None` when the property is absent. */
  function MetricValue(s: Sheet, m: Metric): Option<int> {
    if m in s.metrics then Some(s.metrics[m]) else None
  }

  // ---------------------------------------------------------------------
  // Categories as ordered association lists
  // ---------------------------------------------------------------------

  function Keys(c: Category): (r: seq<string>)
    ensures |r| == |c|
  {
    seq(|c|, i requires 0 <= i < |c| => c[i].0)
  }

  /** Object keys are unique. */
  predicate KeysUnique(c: Category) {
    forall i, j :: 0 <= i < j < |c| ==> c[i].0 != c[j].0
  }

  /** `obj[key]`: the value under `key`, `None` when the key is absent. */
  function Lookup(c: Category, key: string): (r: Option<int>)
    ensures r.None? <==> key !in Keys(c)
    ensures r.Some? ==> exists i :: 0 <= i < |c| && c[i] == (key, r.value)
  {
    assert |c| > 0 ==> Keys(c) == [c[0].0] + Keys(c[1..]);
    if |c| == 0 then None
    else if c[0].0 == key then Some(c[0].1)
    else Lookup(c[1..], key)
  }

  /** `sumValues(obj)`: the sum of the category's values. */
  function SumValues(c: Category): int {
    if |c| == 0 then 0 else SumValues(c[..|c| - 1]) + c[|c| - 1].1
  }

  /** `{...obj, [key]: v}`: an existing key keeps its position and takes the
      new value; a new key is appended at the end. */
  function SetKey(c: Category, key: string, v: int): (r: Category)
  {
    if |c| == 0 then [(key, v)]
    else if c[0].0 == key then [(key, v)] + c[1..]
    else [c[0]] + SetKey(c[1..], key, v)
  }

  lemma SumValuesCons(x: (string, int), c: Category)
    ensures SumValues([x] + c) == x.1 + SumValues(c)
    decreases |c|
  {
    if |c| > 0 {
      assert ([x] + c)[..|c|] == [x] + c[..|c| - 1];
      SumValuesCons(x, c[..|c| - 1]);
    }
  }

  /** Setting a key updates that key and leaves every other key's value and
      the key order as they were; a new key goes last. */
  lemma SetKeyEffect(c: Category, key: string, v: int)
    ensures Lookup(SetKey(c, key, v), key) == Some(v)
    ensures forall k :: k != key ==> Lookup(SetKey(c, key, v), k) == Lookup(c, k)
    ensures key in Keys(c) ==> Keys(SetKey(c, key, v)) == Keys(c)
    ensures key !in Keys(c) ==> Keys(SetKey(c, key, v)) == Keys(c) + [key]
  {
    SetKeyLookup(c, key, v);
    SetKeyKeys(c, key, v);
  }

  lemma {:induction false} SetKeyLookup(c: Category, key: string, v: int)
    ensures Lookup(SetKey(c, key, v), key) == Some(v)
    ensures forall k :: k != key ==> Lookup(SetKey(c, key, v), k) == Lookup(c, k)
  {
    if |c| > 0 {
      var r := SetKey(c, key, v);
      if c[0].0 == key {
        assert r == [(key, v)] + c[1..];
        assert r[1..] == c[1..];
      } else {
        SetKeyLookup(c[1..], key, v);
        assert r == [c[0]] + SetKey(c[1..], key, v);
        assert r[1..] == SetKey(c[1..], key, v);
      }
    }
  }

  lemma {:induction false} SetKeyKeys(c: Category, key: string, v: int)
    ensures key in Keys(c) ==> Keys(SetKey(c, key, v)) == Keys(c)
    ensures key !in Keys(c) ==> Keys(SetKey(c, key, v)) == Keys(c) + [key]
  {
    if |c| > 0 {
      assert Keys(c) == [c[0].0] + Keys(c[1..]);
      var r := SetKey(c, key, v);
      if c[0].0 == key {
        assert r == [(key, v)] + c[1..];
        assert Keys(r) == [key] + Keys(c[1..]);
      } else {
        SetKeyKeys(c[1..], key, v);
        assert r == [c[0]] + SetKey(c[1..], key, v);
        assert Keys(r) == [c[0].0] + Keys(SetKey(c[1..], key, v));
      }
    }
  }

  /** An object never holds a key twice, and setting a key keeps it so. */
  lemma SetKeyKeepsKeysUnique(c: Category, key: string, v: int)
    requires KeysUnique(c)
    ensures KeysUnique(SetKey(c, key, v))
  {
    var r := SetKey(c, key, v);
    SetKeyKeys(c, key, v);
    forall i, j | 0 <= i < j < |r| ensures r[i].0 != r[j].0 {
      assert r[i].0 == Keys(r)[i] && r[j].0 == Keys(r)[j];
      if j < |c| {
        assert Keys(c)[i] == c[i].0 && Keys(c)[j] == c[j].0;
      } else {
        assert Keys(c)[i] == c[i].0;
      }
    }
  }

  /** Changing one key's value by `d` changes the sum by exactly `d`;
      adding a new key adds its value. */
  lemma {:induction false} SetKeySum(c: Category, key: string, v: int)
    ensures Lookup(c, key).Some? ==>
              SumValues(SetKey(c, key, v)) == SumValues(c) + (v - Lookup(c, key).value)
    ensures Lookup(c, key).None? ==> SumValues(SetKey(c, key, v)) == SumValues(c) + v
  {
    if |c| == 0 {
      assert SumValues([(key, v)]) == SumValues([]) + v;
    } else {
      assert c == [c[0]] + c[1..];
      SumValuesCons(c[0], c[1..]);
      if c[0].0 == key {
        SumValuesCons((key, v), c[1..]);
      } else {
        SetKeySum(c[1..], key, v);
        SumValuesCons(c[0], SetKey(c[1..], key, v));
      }
    }
  }

  // ---------------------------------------------------------------------
  // The factory
  // ---------------------------------------------------------------------

  function Zeroed(keys: seq<string>): (c: Category)
    ensures Keys(c) == keys
    ensures forall i :: 0 <= i < |c| ==> c[i].1 == 0
  {
    seq(|keys|, i requires 0 <= i < |keys| => (keys[i], 0))
  }

  /** The line items of each category of a fresh sheet, in declared order. */
  function DefaultKeys(sub: Sub): seq<string> {
    match sub
    case AssetsCurrent =>
      ["Cash and cash equivalents", "Receivables, net", "Inventories", "Prepaid expenses & other"]
    case AssetsNonCurrent =>
      ["Property and equipment, net", "Goodwill", "Long-term lease assets"]
    case LiabilitiesCurrent =>
      ["Short-term borrowings", "Accounts payable", "Accrued liabilities"]
    case LiabilitiesLongTerm =>
      ["Long-term debt", "Deferred income taxes", "Finance & operating lease obligations"]
    case EquityCommon =>
      ["Common stock", "Capital in excess of par value", "Retained earnings"]
    case EquityComprehensive =>
      ["Foreign currency translation adjustments", "Unrealized gains/losses on securities"]
  }

  /** `defaultBalanceSheet(id, year)`. */
  function DefaultBalanceSheet(id: int, year: int): (s: Sheet)
    ensures s.id == id && s.year == year
    ensures s.metrics == map[Income := 0, Revenue := 0, Profit := 0]
    ensures s.name.None? && s.identifier.None? && s.owner.None?
  {
    Sheet(id, year, None, None,
          Zeroed(DefaultKeys(AssetsCurrent)), Zeroed(DefaultKeys(AssetsNonCurrent)),
          Zeroed(DefaultKeys(LiabilitiesCurrent)), Zeroed(DefaultKeys(LiabilitiesLongTerm)),
          Zeroed(DefaultKeys(EquityCommon)), Zeroed(DefaultKeys(EquityComprehensive)),
          map[Income := 0, Revenue := 0, Profit := 0], None)
  }

  /** Each category of a fresh sheet holds the declared line items, in
      declared order, all 0; the sizes are 4, 3, 3, 3, 3 and 2. */
  lemma DefaultSheetCategories(id: int, year: int, sub: Sub)
    ensures var c := Cat(DefaultBalanceSheet(id, year), sub);
            Keys(c) == DefaultKeys(sub)
            && (forall i :: 0 <= i < |c| ==> c[i].1 == 0)
            && |c| == (match sub
                       case AssetsCurrent => 4
                       case EquityComprehensive => 2
                       case _ => 3)
  {
    DefaultCat(id, year, sub);
  }

  lemma DefaultCat(id: int, year: int, sub: Sub)
    ensures Cat(DefaultBalanceSheet(id, year), sub) == Zeroed(DefaultKeys(sub))
  {
  }

  /** Only `income`, `revenue` and `profit` are present on a fresh sheet,
      each 0. */
  lemma DefaultSheetMetrics(id: int, year: int, m: Metric)
    ensures MetricValue(DefaultBalanceSheet(id, year), m)
            == if m == Income || m == Revenue || m == Profit then Some(0) else None
  {
  }

  /** Every category of a fresh sheet sums to 0. */
  lemma {:induction false} ZeroedSum(keys: seq<string>)
    ensures SumValues(Zeroed(keys)) == 0
  {
    if |keys| > 0 {
      ZeroedSum(keys[..|keys| - 1]);
      assert Zeroed(keys)[..|keys| - 1] == Zeroed(keys[..|keys| - 1]);
    }
  }

  lemma DefaultSheetSumsToZero(id: int, year: int, sub: Sub)
    ensures SumValues(Cat(DefaultBalanceSheet(id, year), sub)) == 0
  {
    ZeroedSum(DefaultKeys(sub));
  }
}
