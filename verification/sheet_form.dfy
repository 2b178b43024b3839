/** The editing card of one balance sheet (src/components/BalanceSheetForm.jsx):
    line-item edits, the name edit and the identifier it recomputes, the
    income edit, the section totals, the accounting-equation check, and the
    error test of a field id. */
module SheetForm {
  import opened Common
  import opened Text
  import opened Sheets
  import opened Validation
  import opened Dropdown

  /** `updateField(section, subSection, field, newValue)`: the category with
      `field` set to `newValue` (kept in place when present, appended when
      new). */
  function UpdateField(s: Sheet, sub: Sub, key: string, v: int): Sheet {
    WithCat(s, sub, SetKey(Cat(s, sub), key, v))
  }

  /** The edited item reads back the new value; every other item, every
      other category and every other field of the sheet are as they were,
      and the item order of the category is kept. */
  lemma UpdateFieldEffect(s: Sheet, sub: Sub, key: string, v: int)
    ensures var r := UpdateField(s, sub, key, v);
            && Lookup(Cat(r, sub), key) == Some(v)
            && (forall k :: k != key ==> Lookup(Cat(r, sub), k) == Lookup(Cat(s, sub), k))
            && (key in Keys(Cat(s, sub)) ==> Keys(Cat(r, sub)) == Keys(Cat(s, sub)))
            && (forall other :: other != sub ==> Cat(r, other) == Cat(s, other))
            && r.id == s.id && r.year == s.year && r.name == s.name
            && r.identifier == s.identifier && r.metrics == s.metrics && r.owner == s.owner
  {
    SetKeyEffect(Cat(s, sub), key, v);
  }

  /** `${value}` of a property that may be `undefined`. */
  function Interpolate(x: Option<string>): string {
    match x
    case Some(t) => t
    case None => "undefined"
  }

  /** `${name}-${year}`. */
  function IdentifierOf(name: Option<string>, year: int): string {
    Interpolate(name) + "-" + IntToString(year)
  }

  /** The company-name edit: the name and the identifier built from it. */
  function Rename(s: Sheet, newName: string): (r: Sheet)
    ensures r.name == Some(newName)
    ensures r.identifier.Some?
    ensures r == s.(name := r.name, identifier := r.identifier)
  {
    s.(name := Some(newName), identifier := Some(IdentifierOf(Some(newName), s.year)))
  }

  /** The identifier written after an upload merge, from whatever name and
      year the merged sheet holds. */
  function RecomputeIdentifier(s: Sheet): (r: Sheet)
    ensures r == s.(identifier := r.identifier)
  {
    s.(identifier := Some(IdentifierOf(s.name, s.year)))
  }

  /** The name edit and the upload recomputation agree: after a rename the
      identifier is already the recomputed one, and renaming twice with the
      same name is renaming once. */
  lemma RenameAgreesWithRecompute(s: Sheet, newName: string)
    ensures RecomputeIdentifier(Rename(s, newName)) == Rename(s, newName)
    ensures Rename(Rename(s, newName), newName) == Rename(s, newName)
  {
  }

  /** Under one name, the identifier tells the years apart. */
  lemma IdentifierDeterminesYear(name: Option<string>, y1: int, y2: int)
    requires IdentifierOf(name, y1) == IdentifierOf(name, y2)
    ensures y1 == y2
  {
    var p := Interpolate(name) + "-";
    assert IdentifierOf(name, y1) == p + IntToString(y1);
    assert IdentifierOf(name, y2) == p + IntToString(y2);
    assert IntToString(y1) == (p + IntToString(y1))[|p|..];
    assert IntToString(y2) == (p + IntToString(y2))[|p|..];
    IntToStringInjective(y1, y2);
  }

  /** The card title: `identifier || `${name}-${year}``; an empty
      identifier is falsy. */
  function CardTitle(s: Sheet): (r: string)
    ensures s.identifier.Some? && s.identifier.value != [] ==> r == s.identifier.value
    ensures s.identifier.None? || s.identifier.value == [] ==> r == IdentifierOf(s.name, s.year)
  {
    match s.identifier
    case Some(t) => if t != [] then t else IdentifierOf(s.name, s.year)
    case None => IdentifierOf(s.name, s.year)
  }

  /** After a rename the title is the recomputed identifier. */
  lemma TitleAfterRename(s: Sheet, newName: string)
    ensures CardTitle(Rename(s, newName)) == IdentifierOf(Some(newName), s.year)
  {
    var t := IdentifierOf(Some(newName), s.year);
    assert t[|newName|] == '-';
  }

  /** `{ ...sheet, income: newVal }`. */
  function EditIncome(s: Sheet, v: int): (r: Sheet)
    ensures MetricValue(r, Income) == Some(v)
    ensures forall m :: m != Income ==> MetricValue(r, m) == MetricValue(s, m)
    ensures forall sub :: Cat(r, sub) == Cat(s, sub)
    ensures r == s.(metrics := r.metrics)
  {
    s.(metrics := s.metrics[Income := v])
  }

  // ---------------------------------------------------------------------
  // Totals and the accounting equation
  // ---------------------------------------------------------------------

  function TotalAssets(s: Sheet): int {
    SumValues(s.assetsCurrent) + SumValues(s.assetsNonCurrent)
  }

  function TotalLiabilities(s: Sheet): int {
    SumValues(s.liabilitiesCurrent) + SumValues(s.liabilitiesLongTerm)
  }

  function TotalEquity(s: Sheet): int {
    SumValues(s.equityCommon) + SumValues(s.equityComprehensive)
  }

  function OverallBalance(s: Sheet): int {
    TotalAssets(s) - TotalLiabilities(s) - TotalEquity(s)
  }

  /** `totalAssets === (totalLiabilities + totalEquity)`. */
  predicate IsEquationValid(s: Sheet) {
    TotalAssets(s) == TotalLiabilities(s) + TotalEquity(s)
  }

  /** Over integers the equation holds exactly when the balance is zero. */
  lemma EquationIffBalanced(s: Sheet)
    ensures IsEquationValid(s) <==> OverallBalance(s) == 0
  {
  }

  /** +1 for an asset category, -1 for the others: how an item's value
      enters the overall balance. */
  function Sign(sub: Sub): int {
    if SectionName(sub) == "assets" then 1 else -1
  }

  /** The balance as a signed sum over the six categories. */
  lemma BalanceIsSignedSum(s: Sheet)
    ensures OverallBalance(s) ==
              Sign(AssetsCurrent) * SumValues(s.assetsCurrent)
              + Sign(AssetsNonCurrent) * SumValues(s.assetsNonCurrent)
              + Sign(LiabilitiesCurrent) * SumValues(s.liabilitiesCurrent)
              + Sign(LiabilitiesLongTerm) * SumValues(s.liabilitiesLongTerm)
              + Sign(EquityCommon) * SumValues(s.equityCommon)
              + Sign(EquityComprehensive) * SumValues(s.equityComprehensive)
  {
  }

  /** Editing an existing item from `a` to `v` moves the overall balance by
      `v - a`, up for an asset and down for a liability or equity item. */
  lemma UpdateFieldBalance(s: Sheet, sub: Sub, key: string, v: int)
    requires key in Keys(Cat(s, sub))
    ensures OverallBalance(UpdateField(s, sub, key, v))
            == OverallBalance(s) + Sign(sub) * (v - Lookup(Cat(s, sub), key).value)
  {
    SetKeySum(Cat(s, sub), key, v);
    var r := UpdateField(s, sub, key, v);
    BalanceIsSignedSum(s);
    BalanceIsSignedSum(r);
  }

  /** A fresh sheet balances. */
  lemma DefaultSheetBalances(id: int, year: int)
    ensures OverallBalance(DefaultBalanceSheet(id, year)) == 0
    ensures IsEquationValid(DefaultBalanceSheet(id, year))
  {
    var s := DefaultBalanceSheet(id, year);
    forall sub: Sub ensures SumValues(Cat(s, sub)) == 0 {
      DefaultSheetSumsToZero(id, year, sub);
    }
    ZeroCategoriesBalance(s);
  }

  /** A sheet whose six categories each sum to 0 balances. */
  lemma ZeroCategoriesBalance(s: Sheet)
    requires forall sub: Sub :: SumValues(Cat(s, sub)) == 0
    ensures OverallBalance(s) == 0 && IsEquationValid(s)
  {
    assert SumValues(Cat(s, AssetsCurrent)) == 0 && SumValues(Cat(s, AssetsNonCurrent)) == 0;
    assert SumValues(Cat(s, LiabilitiesCurrent)) == 0 && SumValues(Cat(s, LiabilitiesLongTerm)) == 0;
    assert SumValues(Cat(s, EquityCommon)) == 0 && SumValues(Cat(s, EquityComprehensive)) == 0;
  }

  // ---------------------------------------------------------------------
  // Error highlighting of flat fields
  // ---------------------------------------------------------------------

  /** `validationErrors && validationErrors.includes(id)`; no markers is an
      empty list. */
  predicate HasError(markers: seq<string>, id: string) {
    id in markers
  }

  /** The id the card gives a flat field. */
  function FlatFieldId(s: Sheet, m: Metric): string {
    SheetPrefix(s.id) + "." + MetricKey(m)
  }

  lemma FlatInAllFields(s: Sheet, m: Metric)
    ensures Flat(m) in AllFields(s)
  {
    var j: nat := match m
      case Income => 0 case Revenue => 1 case Profit => 2 case OpeningIncome => 3
      case NetIncome => 4 case InterestExpense => 5 case IncomeTaxes => 6
      case Depreciation => 7 case Amortization => 8;
    assert MetricOrder[j] == m;
    var all := AllFields(s);
    var pre := [YearField] + CategoryFields(s, SubOrder);
    assert all == pre + FlatRefs(MetricOrder);
    assert all[|pre| + j] == Flat(m);
  }

  /** A flat field that is 0 is highlighted after the prompt is cancelled,
      with either scan (flat ids carry no category path). */
  lemma FlatZeroHighlighted(s: Sheet, m: Metric, lowerPath: bool)
    ensures MetricValue(s, m) == Some(0) ==> HasError(FieldIds(ScanSheet(s, lowerPath)), FlatFieldId(s, m))
  {
    if MetricValue(s, m) == Some(0) {
      FlatInAllFields(s, m);
      FindZeroFieldsReportsExactlyZeroFields(s, lowerPath);
      var errs := ScanSheet(s, lowerPath);
      var zs := ZeroFields(s, AllFields(s));
      var j :| 0 <= j < |zs| && zs[j] == Flat(m);
      assert FieldIds(errs)[j] == FlatFieldId(s, m);
    }
  }
}
