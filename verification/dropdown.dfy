/** One collapsible category of a sheet form (src/components/DropDown.jsx):
    the ids of its line items, their error highlighting, the auto-open
    effect, the toggle and the displayed total; and how those ids relate to
    the ids the zero-field scan reports. */
module Dropdown {
  import opened Common
  import opened Text
  import opened Sheets
  import opened Validation

  /** `sheet-{sheetId}.{section}.{subSection}.{field}`, with the category
      names in their original case. */
  function FieldId(sheetId: int, sub: Sub, key: string): string {
    SheetPrefix(sheetId) + "." + SectionName(sub) + "." + SubName(sub) + "." + key
  }

  /** `validationErrors.includes(fieldId)`. */
  predicate Marked(markers: seq<string>, sheetId: int, sub: Sub, key: string) {
    FieldId(sheetId, sub, key) in markers
  }

  /** Some line item of the category is marked. */
  predicate AnyMarked(markers: seq<string>, sheetId: int, sub: Sub, fields: Category) {
    exists k :: 0 <= k < |fields| && Marked(markers, sheetId, sub, fields[k].0)
  }

  /** The effect: `open` becomes true when a line item is marked, and is
      otherwise left alone. */
  function AutoOpen(open: bool, markers: seq<string>, sheetId: int, sub: Sub, fields: Category): bool {
    if AnyMarked(markers, sheetId, sub, fields) then true else open
  }

  /** The effect never closes the category, opens it exactly when an item is
      marked, and running it twice is running it once. */
  lemma AutoOpenFacts(open: bool, markers: seq<string>, sheetId: int, sub: Sub, fields: Category)
    ensures open ==> AutoOpen(open, markers, sheetId, sub, fields)
    ensures AutoOpen(false, markers, sheetId, sub, fields) <==> AnyMarked(markers, sheetId, sub, fields)
    ensures AutoOpen(AutoOpen(open, markers, sheetId, sub, fields), markers, sheetId, sub, fields)
            == AutoOpen(open, markers, sheetId, sub, fields)
  {
  }

  /** `toggleOpen`. */
  function Toggle(open: bool): (r: bool)
    ensures r != open
  {
    !open
  }

  /** The header total after one line item is edited moves by the change in
      that item. */
  lemma TotalAfterEdit(fields: Category, key: string, v: int)
    requires key in Keys(fields)
    ensures SumValues(SetKey(fields, key, v)) == SumValues(fields) + v - Lookup(fields, key).value
  {
    SetKeySum(fields, key, v);
  }

  /** The ids of a list of errors, as `handleModalCancel` stores them. */
  function FieldIds(errors: seq<ZeroError>): (r: seq<string>)
    ensures |r| == |errors|
    ensures forall i :: 0 <= i < |errors| ==> r[i] == errors[i].fieldId
  {
    seq(|errors|, i requires 0 <= i < |errors| => errors[i].fieldId)
  }

  // ---------------------------------------------------------------------
  // The corrected scan agrees with the drop-down ids
  // ---------------------------------------------------------------------

  /** A nested error of the corrected scan carries exactly the id the
      drop-down gives that line item. */
  lemma CorrectedIdIsFieldId(s: Sheet, sub: Sub, i: nat)
    requires i < |Cat(s, sub)|
    ensures ErrorFor(s, Leaf(sub, i), false).fieldId == FieldId(s.id, sub, Cat(s, sub)[i].0)
  {
  }

  /** The error of a zero line item is in the scan's output, at the
      position of that item among the zero fields. */
  lemma ZeroLeafReported(s: Sheet, sub: Sub, i: nat, lowerPath: bool)
    requires i < |Cat(s, sub)| && Cat(s, sub)[i].1 == 0
    ensures ErrorFor(s, Leaf(sub, i), lowerPath) in ScanSheet(s, lowerPath)
  {
    LeafInAllFields(s, sub, i);
    FindZeroFieldsReportsExactlyZeroFields(s, lowerPath);
    var zs := ZeroFields(s, AllFields(s));
    assert Leaf(sub, i) in zs;
    var j :| 0 <= j < |zs| && zs[j] == Leaf(sub, i);
    assert ScanSheet(s, lowerPath)[j] == ErrorFor(s, Leaf(sub, i), lowerPath);
  }

  /** With the corrected scan, cancelling the prompt marks every zero line
      item, and the drop-down holding it opens. */
  lemma ZeroLeafHighlighted(s: Sheet, sub: Sub, i: nat, open: bool)
    requires i < |Cat(s, sub)| && Cat(s, sub)[i].1 == 0
    ensures Marked(FieldIds(FindZeroFields(s)), s.id, sub, Cat(s, sub)[i].0)
    ensures AutoOpen(open, FieldIds(FindZeroFields(s)), s.id, sub, Cat(s, sub))
  {
    ZeroLeafReported(s, sub, i, false);
    CorrectedIdIsFieldId(s, sub, i);
    var errs := FindZeroFields(s);
    var j :| 0 <= j < |errs| && errs[j] == ErrorFor(s, Leaf(sub, i), false);
    assert FieldIds(errs)[j] == FieldId(s.id, sub, Cat(s, sub)[i].0);
  }

  // ---------------------------------------------------------------------
  // The scan as written
  // ---------------------------------------------------------------------

  /** For the categories whose key is already lower-case the as-written id
      is the drop-down id. */
  lemma AsWrittenIdMatchesLowerCaseCategory(s: Sheet, sub: Sub, i: nat)
    requires i < |Cat(s, sub)|
    requires sub != AssetsNonCurrent && sub != LiabilitiesLongTerm
    ensures ErrorFor(s, Leaf(sub, i), true).fieldId == FieldId(s.id, sub, Cat(s, sub)[i].0)
  {
    LowerPlainPath(sub);
  }

  /** Two strings that differ at a position both of them have cannot be
      equal, whatever follows them. */
  lemma DifferAt(a: string, b: string, ka: string, kb: string, k: nat)
    requires k < |a| && k < |b| && a[k] != b[k]
    ensures a + ka != b + kb
  {
    assert (a + ka)[k] == a[k];
    assert (b + kb)[k] == b[k];
  }

  /** Two ids with the same `sheet-{id}.` shape agree on what follows. */
  lemma SameTail(n1: int, n2: int, t1: string, t2: string)
    requires "sheet-" + IntToString(n1) + "." + t1 == "sheet-" + IntToString(n2) + "." + t2
    ensures t1 == t2
  {
    var x1 := IntToString(n1) + ['.'] + t1;
    var x2 := IntToString(n2) + ['.'] + t2;
    Regroup("sheet-", IntToString(n1), t1);
    Regroup("sheet-", IntToString(n2), t2);
    DropPrefix("sheet-", x1, x2);
    IntToStringAvoids(n1, '.');
    IntToStringAvoids(n2, '.');
    SplitAtFirst('.', IntToString(n1), t1, IntToString(n2), t2);
  }

  /** Ids with different tails differ. */
  lemma DistinctTails(n1: int, n2: int, t1: string, t2: string)
    requires t1 != t2
    ensures "sheet-" + IntToString(n1) + "." + t1 != "sheet-" + IntToString(n2) + "." + t2
  {
    if "sheet-" + IntToString(n1) + "." + t1 == "sheet-" + IntToString(n2) + "." + t2 {
      SameTail(n1, n2, t1, t2);
    }
  }

  lemma Regroup(p: string, n: string, t: string)
    ensures p + n + "." + t == p + (n + ['.'] + t)
  {
  }

  lemma DropPrefix(p: string, x: string, y: string)
    requires p + x == p + y
    ensures x == y
  {
    assert x == (p + x)[|p|..];
    assert y == (p + y)[|p|..];
  }

  /** Category paths without capitals are kept as they are. */
  lemma LowerPlainPath(sub: Sub)
    requires sub != AssetsNonCurrent && sub != LiabilitiesLongTerm
    ensures CategoryPath(sub, true) == SectionName(sub) + "." + SubName(sub)
  {
    ToLowerOfLower(SectionName(sub) + "." + SubName(sub));
  }

  lemma LowerNonCurrent()
    ensures ToLower("assets.nonCurrent") == "assets.noncurrent"
  {
    assert "assets.nonCurrent" == "assets.non" + ['C'] + "urrent";
    ToLowerOneCapital("assets.non", 'C', "urrent");
  }

  lemma LowerLongTerm()
    ensures ToLower("liabilities.longTerm") == "liabilities.longterm"
  {
    assert "liabilities.longTerm" == "liabilities.long" + ['T'] + "erm";
    ToLowerOneCapital("liabilities.long", 'T', "erm");
  }

  /** The first position at which the lower-cased path of `sub2` and the
      path of `sub` differ. */
  function DiffIndex(sub2: Sub, sub: Sub): nat {
    if SectionName(sub2) != SectionName(sub) then 0
    else if sub2 == AssetsCurrent then 7
    else if sub2 == AssetsNonCurrent then 10
    else if sub2 == LiabilitiesCurrent then 12
    else 16
  }

  /** The lower-cased path of any category differs from the path of
      `assets.nonCurrent` and of `liabilities.longTerm` at `DiffIndex`. */
  lemma PathDiffAt(sub2: Sub, sub: Sub)
    requires sub == AssetsNonCurrent || sub == LiabilitiesLongTerm
    ensures var a := CategoryPath(sub2, true);
            var b := SectionName(sub) + "." + SubName(sub);
            DiffIndex(sub2, sub) < |a| && DiffIndex(sub2, sub) < |b| && a[DiffIndex(sub2, sub)] != b[DiffIndex(sub2, sub)]
  {
    if sub2 == AssetsNonCurrent {
      LowerNonCurrent();
    } else if sub2 == LiabilitiesLongTerm {
      LowerLongTerm();
    } else {
      LowerPlainPath(sub2);
    }
  }

  /** A nested as-written id's tail never spells a line item of
      `assets.nonCurrent` or `liabilities.longTerm`. */
  lemma LeafTailDiffers(sub2: Sub, key2: string, sub: Sub, key: string)
    requires sub == AssetsNonCurrent || sub == LiabilitiesLongTerm
    ensures CategoryPath(sub2, true) + "." + key2 != SectionName(sub) + "." + SubName(sub) + "." + key
  {
    var a := CategoryPath(sub2, true);
    var b := SectionName(sub) + "." + SubName(sub);
    PathDiffAt(sub2, sub);
    DifferAt(a, b, "." + key2, "." + key, DiffIndex(sub2, sub));
    assert a + "." + key2 == a + ("." + key2);
    assert b + "." + key == b + ("." + key);
  }

  /** Neither the year id's tail nor a flat metric's tail does either. */
  lemma FlatTailDiffers(f: FieldRef, sub: Sub, key: string)
    requires !f.Leaf?
    requires sub == AssetsNonCurrent || sub == LiabilitiesLongTerm
    ensures (if f.YearField? then "year" else MetricKey(f.metric))
            != SectionName(sub) + "." + SubName(sub) + "." + key
  {
    var a := if f.YearField? then "year" else MetricKey(f.metric);
    var b := SectionName(sub);
    var k: nat := if f.Flat? && f.metric == Amortization && sub == AssetsNonCurrent then 1 else 0;
    DifferAt(a, b, [], "." + SubName(sub) + "." + key, k);
    assert b + "." + SubName(sub) + "." + key == b + ("." + SubName(sub) + "." + key);
  }

  /** The as-written scan can never mark a line item of `assets.nonCurrent`
      or `liabilities.longTerm`: no error it reports, for any sheet, has the
      drop-down id of such an item, whatever the sheet id and key. */
  lemma AsWrittenNeverMarks(t: Sheet, f: FieldRef, sheetId: int, sub: Sub, key: string)
    requires ValidRef(t, f)
    requires sub == AssetsNonCurrent || sub == LiabilitiesLongTerm
    ensures ErrorFor(t, f, true).fieldId != FieldId(sheetId, sub, key)
  {
    match f {
      case Leaf(sub2, i) => LeafNeverMarks(t, sub2, i, sheetId, sub, key);
      case YearField => OtherNeverMarks(t, f, "year", sheetId, sub, key);
      case Flat(m) => OtherNeverMarks(t, f, MetricKey(m), sheetId, sub, key);
    }
  }

  lemma LeafNeverMarks(t: Sheet, sub2: Sub, i: nat, sheetId: int, sub: Sub, key: string)
    requires i < |Cat(t, sub2)|
    requires sub == AssetsNonCurrent || sub == LiabilitiesLongTerm
    ensures ErrorFor(t, Leaf(sub2, i), true).fieldId != FieldId(sheetId, sub, key)
  {
    var tail := SectionName(sub) + "." + SubName(sub) + "." + key;
    var t1 := CategoryPath(sub2, true) + "." + Cat(t, sub2)[i].0;
    IdShape(sheetId, sub, key);
    assert ErrorFor(t, Leaf(sub2, i), true).fieldId == "sheet-" + IntToString(t.id) + "." + t1;
    LeafTailDiffers(sub2, Cat(t, sub2)[i].0, sub, key);
    DistinctTails(t.id, sheetId, t1, tail);
  }

  lemma OtherNeverMarks(t: Sheet, f: FieldRef, name: string, sheetId: int, sub: Sub, key: string)
    requires f.YearField? ==> name == "year"
    requires f.Flat? ==> name == MetricKey(f.metric)
    requires !f.Leaf?
    requires sub == AssetsNonCurrent || sub == LiabilitiesLongTerm
    ensures ErrorFor(t, f, true).fieldId != FieldId(sheetId, sub, key)
  {
    var tail := SectionName(sub) + "." + SubName(sub) + "." + key;
    IdShape(sheetId, sub, key);
    assert ErrorFor(t, f, true).fieldId == "sheet-" + IntToString(t.id) + "." + name;
    FlatTailDiffers(f, sub, key);
    DistinctTails(t.id, sheetId, name, tail);
  }

  lemma IdShape(sheetId: int, sub: Sub, key: string)
    ensures FieldId(sheetId, sub, key)
            == "sheet-" + IntToString(sheetId) + "." + (SectionName(sub) + "." + SubName(sub) + "." + key)
  {
    DotAssoc(SheetPrefix(sheetId), SectionName(sub), SubName(sub), key);
  }

  lemma DotAssoc(p: string, a: string, b: string, c: string)
    ensures p + "." + a + "." + b + "." + c == p + "." + (a + "." + b + "." + c)
  {
  }

  /** The discrepancy on a concrete input: a zero line item of
      `assets.nonCurrent` (in a fresh sheet, "Goodwill") is reported by the
      as-written scan, yet its id is not among the reported ids, so after
      cancelling the prompt its drop-down stays closed and the item is not
      highlighted. */
  lemma NonCurrentZeroNotHighlighted(s: Sheet, sub: Sub, i: nat)
    requires sub == AssetsNonCurrent || sub == LiabilitiesLongTerm
    requires i < |Cat(s, sub)| && Cat(s, sub)[i].1 == 0
    ensures ErrorFor(s, Leaf(sub, i), true) in FindZeroFieldsAsWritten(s)
    ensures !Marked(FieldIds(FindZeroFieldsAsWritten(s)), s.id, sub, Cat(s, sub)[i].0)
    ensures !AutoOpen(false, FieldIds(FindZeroFieldsAsWritten(s)), s.id, sub, Cat(s, sub))
  {
    ZeroLeafReported(s, sub, i, true);
    forall key ensures FieldId(s.id, sub, key) !in FieldIds(FindZeroFieldsAsWritten(s)) {
      AsWrittenIdsNeverMark(s, sub, key);
    }
  }

  /** No id the as-written scan reports is the id of a line item of these
      two categories. */
  lemma AsWrittenIdsNeverMark(s: Sheet, sub: Sub, key: string)
    requires sub == AssetsNonCurrent || sub == LiabilitiesLongTerm
    ensures FieldId(s.id, sub, key) !in FieldIds(FindZeroFieldsAsWritten(s))
  {
    var errs := FindZeroFieldsAsWritten(s);
    ScanIsZeroFilterOfAllFields(s, true);
    var zs := ZeroFields(s, AllFields(s));
    forall j | 0 <= j < |errs| ensures errs[j].fieldId != FieldId(s.id, sub, key) {
      assert zs[j] in zs;
      AsWrittenNeverMarks(s, zs[j], s.id, sub, key);
    }
  }

  /** A fresh sheet exhibits it: "Goodwill" is its second non-current
      asset, and it is 0. */
  lemma FreshSheetGoodwillNotHighlighted(id: int, year: int)
    ensures var s := DefaultBalanceSheet(id, year);
            && Cat(s, AssetsNonCurrent)[1] == ("Goodwill", 0)
            && !Marked(FieldIds(FindZeroFieldsAsWritten(s)), id, AssetsNonCurrent, "Goodwill")
            && Marked(FieldIds(FindZeroFields(s)), id, AssetsNonCurrent, "Goodwill")
  {
    var s := DefaultBalanceSheet(id, year);
    DefaultSheetCategories(id, year, AssetsNonCurrent);
    assert Keys(Cat(s, AssetsNonCurrent))[1] == "Goodwill";
    NonCurrentZeroNotHighlighted(s, AssetsNonCurrent, 1);
    ZeroLeafHighlighted(s, AssetsNonCurrent, 1, false);
  }
}
