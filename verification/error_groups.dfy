/** The confirmation prompt's presentation of zero-field errors
    (src/components/ValidationModal.jsx:4-59): errors are grouped by sheet
    year, each group keeps the distinct display messages in first-occurrence
    order, category paths are shown under friendly names, and groups are
    listed in the string order of their year keys. */
module ErrorGroups {
  import opened Common
  import opened Text
  import opened Sheets
  import opened Validation

  // ---------------------------------------------------------------------
  // Display message of one error
  // ---------------------------------------------------------------------

  /** The text before the first `>` (all of `s` when there is none). */
  function BeforeGt(s: string): (r: string)
    ensures '>' !in r
  {
    if |s| == 0 || s[0] == '>' then [] else [s[0]] + BeforeGt(s[1..])
  }

  /** The text after the first `>` (empty when there is none). */
  function AfterGt(s: string): string {
    if |s| == 0 then [] else if s[0] == '>' then s[1..] else AfterGt(s[1..])
  }

  lemma {:induction false} SplitAtFirstGt(p: string, q: string)
    requires '>' !in p
    ensures BeforeGt(p + ">" + q) == p
    ensures AfterGt(p + ">" + q) == q
  {
    if |p| > 0 {
      assert (p + ">" + q)[1..] == p[1..] + ">" + q;
      SplitAtFirstGt(p[1..], q);
    } else {
      assert p + ">" + q == [">"[0]] + q;
    }
  }

  /** `subheading` after the friendly-name mapping: `section` and `sub` are
      the trimmed first and second `>`-separated parts of the location. The
      comparisons against `'nonCurrent'` and `'longTerm'` after lower-casing
      can never succeed; they are kept as written. */
  function Friendly(section: string, sub: string): string {
    FriendlyLowered(ToLower(section), ToLower(sub), sub)
  }

  /** The mapping itself, given the lower-cased section `sec` and
      subcategory `low`; `sub` is the subcategory as written. */
  function FriendlyLowered(sec: string, low: string, sub: string): string {
    if sec == "assets" then
      if low == "current" then "Current Assets"
      else if low == "noncurrent" || low == "nonCurrent" then "Non-Current Assets"
      else sub
    else if sec == "liabilities" then
      if low == "current" then "Current Liabilities"
      else if low == "longterm" || low == "longTerm" then "Long-Term Liabilities"
      else sub
    else if sec == "equity" then
      if low == "common" then "Common Stock & Retained Earnings"
      else if low == "comprehensive" then "Accumulated Other Comprehensive Loss"
      else sub
    else sub
  }

  /** The subheading of a location containing `>`: the friendly name for
      its trimmed first and second parts. */
  function Subheading(loc: string): string {
    Friendly(Trim(BeforeGt(loc)), Trim(BeforeGt(AfterGt(loc))))
  }

  /** The line shown for one error (before the suffix " is 0."). */
  function Message(e: ZeroError): string {
    if '>' in e.location then Subheading(e.location) else e.location
  }

  /** Lower-cased text never contains a capital letter, so the comparisons
      against `'nonCurrent'` and `'longTerm'` are always false. */
  lemma MixedCaseComparisonsAreDead(s: string)
    ensures ToLower(s) != "nonCurrent" && ToLower(s) != "longTerm"
  {
    var l := ToLower(s);
    if |l| == 10 { assert l[3] == LowerChar(s[3]); assert "nonCurrent"[3] == 'C'; }
    if |l| == 8 { assert l[4] == LowerChar(s[4]); assert "longTerm"[4] == 'T'; }
  }

  /** The friendly name of each of the six categories. */
  function FriendlyTitle(sub: Sub): string {
    match sub
    case AssetsCurrent => "Current Assets"
    case AssetsNonCurrent => "Non-Current Assets"
    case LiabilitiesCurrent => "Current Liabilities"
    case LiabilitiesLongTerm => "Long-Term Liabilities"
    case EquityCommon => "Common Stock & Retained Earnings"
    case EquityComprehensive => "Accumulated Other Comprehensive Loss"
  }

  lemma TrimPadded(w: string)
    requires |w| > 0 && !IsJsSpace(w[0]) && !IsJsSpace(w[|w| - 1])
    ensures Trim(w + " ") == w
    ensures Trim(" " + w + " ") == w
  {
    assert (w + " ")[..|w|] == w;
    assert (" " + w + " ")[1..] == w + " ";
  }

  /** A three-part location `sec > name > key` is shown as the friendly
      name of `sec` and `name`, whatever `key` is. */
  lemma SubheadingOfPath(sec: string, name: string, key: string)
    requires |sec| > 0 && !IsJsSpace(sec[0]) && !IsJsSpace(sec[|sec| - 1]) && '>' !in sec
    requires |name| > 0 && !IsJsSpace(name[0]) && !IsJsSpace(name[|name| - 1]) && '>' !in name
    ensures Subheading(sec + " > " + name + " > " + key) == Friendly(sec, name)
  {
    var loc := sec + " > " + name + " > " + key;
    assert loc == (sec + " ") + ">" + (" " + name + " > " + key);
    SplitAtFirstGt(sec + " ", " " + name + " > " + key);
    assert " " + name + " > " + key == (" " + name + " ") + ">" + (" " + key);
    SplitAtFirstGt(" " + name + " ", " " + key);
    TrimPadded(sec);
    TrimPadded(name);
  }

  /** Section and category names are plain words. */
  lemma PathPartsArePlain(sub: Sub)
    ensures var sec := SectionName(sub);
            |sec| > 0 && !IsJsSpace(sec[0]) && !IsJsSpace(sec[|sec| - 1]) && '>' !in sec
    ensures var name := SubName(sub);
            |name| > 0 && !IsJsSpace(name[0]) && !IsJsSpace(name[|name| - 1]) && '>' !in name
  {
    SectionIsPlain(sub);
    SubNameIsPlain(sub);
  }

  lemma SectionIsPlain(sub: Sub)
    ensures var sec := SectionName(sub);
            |sec| > 0 && !IsJsSpace(sec[0]) && !IsJsSpace(sec[|sec| - 1]) && '>' !in sec
  {
  }

  lemma SubNameIsPlain(sub: Sub)
    ensures var name := SubName(sub);
            |name| > 0 && !IsJsSpace(name[0]) && !IsJsSpace(name[|name| - 1]) && '>' !in name
  {
  }

  /** Every nested error the scan produces is shown under its category's
      friendly name, whatever the line item's key; several zero items of one
      category therefore give the same message. */
  lemma NestedErrorMessage(s: Sheet, sub: Sub, i: nat, lowerPath: bool)
    requires i < |Cat(s, sub)|
    ensures Message(ErrorFor(s, Leaf(sub, i), lowerPath)) == FriendlyTitle(sub)
  {
    var key := Cat(s, sub)[i].0;
    var sec := SectionName(sub);
    var name := SubName(sub);
    var loc := sec + " > " + name + " > " + key;
    LeafLocation(s, sub, i, lowerPath);
    PathPartsArePlain(sub);
    SubheadingOfPath(sec, name, key);
    FriendlyOfScanPath(sub);
    GtInPath(sec, name, key);
  }

  lemma LeafLocation(s: Sheet, sub: Sub, i: nat, lowerPath: bool)
    requires i < |Cat(s, sub)|
    ensures ErrorFor(s, Leaf(sub, i), lowerPath).location
            == SectionName(sub) + " > " + SubName(sub) + " > " + Cat(s, sub)[i].0
  {
  }

  lemma GtInPath(sec: string, name: string, key: string)
    ensures '>' in sec + " > " + name + " > " + key
  {
    assert (sec + " > " + name + " > " + key)[|sec| + 1] == '>';
  }

  /** A location without `>` is shown as is. */
  lemma PlainLocationShownAsIs(e: ZeroError)
    requires '>' !in e.location
    ensures Message(e) == e.location
  {
  }

  /** The year and the flat metrics have locations without `>`, so they are
      shown under their own labels. */
  lemma FlatLocationsArePlain(s: Sheet, f: FieldRef, lowerPath: bool)
    requires ValidRef(s, f) && !f.Leaf?
    ensures '>' !in ErrorFor(s, f, lowerPath).location
  {
    match f
    case YearField =>
      assert ErrorFor(s, f, lowerPath).location == "Year";
    case Flat(m) =>
      assert ErrorFor(s, f, lowerPath).location == MetricLabel(m);
      MetricLabelIsPlain(m);
  }

  lemma MetricLabelIsPlain(m: Metric)
    ensures '>' !in MetricLabel(m)
  {
    match m
    case Income =>
    case Revenue =>
    case Profit =>
    case OpeningIncome =>
    case NetIncome =>
    case InterestExpense =>
    case IncomeTaxes =>
    case Depreciation =>
    case Amortization =>
  }

  /** A nested location whose subcategory is not one of the known ones keeps
      the trimmed subcategory text. */
  lemma UnknownSubcategoryKept(section: string, sub: string)
    requires ToLower(sub) !in {"current", "noncurrent", "longterm", "common", "comprehensive"}
    ensures Friendly(section, sub) == sub
  {
    MixedCaseComparisonsAreDead(sub);
  }

  /** The six scan paths map to their friendly names; the mixed-case keys
      reach theirs through the lower-cased comparison. */
  lemma FriendlyOfScanPath(sub: Sub)
    ensures Friendly(SectionName(sub), SubName(sub)) == FriendlyTitle(sub)
  {
    match sub
    case AssetsCurrent => FriendlyOfLower("assets", "current", "current");
    case AssetsNonCurrent =>
      ToLowerOneCapital("non", 'C', "urrent");
      FriendlyOfLower("assets", "nonCurrent", "noncurrent");
    case LiabilitiesCurrent => FriendlyOfLower("liabilities", "current", "current");
    case LiabilitiesLongTerm =>
      ToLowerOneCapital("long", 'T', "erm");
      FriendlyOfLower("liabilities", "longTerm", "longterm");
    case EquityCommon => FriendlyOfLower("equity", "common", "common");
    case EquityComprehensive => FriendlyOfLower("equity", "comprehensive", "comprehensive");
  }

  /** The mapping only ever shows the subcategory text or the title of a
      category of the same (lower-cased) section. */
  lemma FriendlyIsTitleOrSub(section: string, sub: string)
    ensures var r := Friendly(section, sub);
            r == sub || exists t: Sub :: r == FriendlyTitle(t) && ToLower(section) == SectionName(t)
  {
    var sec, low := ToLower(section), ToLower(sub);
    if Friendly(section, sub) != sub {
      var t :=
        if sec == "assets" then (if low == "current" then AssetsCurrent else AssetsNonCurrent)
        else if sec == "liabilities" then (if low == "current" then LiabilitiesCurrent else LiabilitiesLongTerm)
        else if low == "common" then EquityCommon else EquityComprehensive;
      assert Friendly(section, sub) == FriendlyTitle(t) && sec == SectionName(t);
    }
  }

  /** With a lower-case section and a known lower-cased subcategory, the
      mapping reads the lower-cased text. */
  lemma FriendlyOfLower(sec: string, sub: string, low: string)
    requires forall i :: 0 <= i < |sec| ==> !IsUpper(sec[i])
    requires ToLower(sub) == low || ((forall i :: 0 <= i < |sub| ==> !IsUpper(sub[i])) && sub == low)
    ensures Friendly(sec, sub) == FriendlyLowered(sec, low, sub)
  {
    ToLowerOfLower(sec);
    if sub == low && forall i :: 0 <= i < |sub| ==> !IsUpper(sub[i]) {
      ToLowerOfLower(sub);
    }
  }

  // ---------------------------------------------------------------------
  // Grouping by year, as built by the `forEach` loop
  // ---------------------------------------------------------------------

  /** The object key of an error's group: `String(sheetYear)`. */
  function YearKey(e: ZeroError): string {
    IntToString(e.sheetYear)
  }

  /** What the loop reads from each error: its year key and its message. */
  function Entries(errors: seq<ZeroError>): (r: seq<(string, string)>)
    ensures |r| == |errors|
    ensures forall i :: 0 <= i < |errors| ==> r[i] == (YearKey(errors[i]), Message(errors[i]))
  {
    seq(|errors|, i requires 0 <= i < |errors| => (YearKey(errors[i]), Message(errors[i])))
  }

  datatype Group = Group(year: string, messages: seq<string>)

  function GroupYears(gs: seq<Group>): (r: seq<string>)
    ensures |r| == |gs|
    ensures forall i :: 0 <= i < |gs| ==> r[i] == gs[i].year
  {
    seq(|gs|, i requires 0 <= i < |gs| => gs[i].year)
  }

  /** `groupedErrors[key]`, `None` when the key was never set. */
  function Find(gs: seq<Group>, key: string): Option<seq<string>> {
    if |gs| == 0 then None
    else if gs[0].year == key then Some(gs[0].messages)
    else Find(gs[1..], key)
  }

  /** One iteration of the loop: create the year's `Set` if missing, then
      `add` the message (a no-op when it is already there). */
  function AddMessage(gs: seq<Group>, key: string, msg: string): seq<Group> {
    if |gs| == 0 then [Group(key, [msg])]
    else if gs[0].year == key then
      [Group(key, if msg in gs[0].messages then gs[0].messages else gs[0].messages + [msg])] + gs[1..]
    else [gs[0]] + AddMessage(gs[1..], key, msg)
  }

  /** The `groupedErrors` object after the loop over the entries `ps`. */
  function Accumulate(ps: seq<(string, string)>): seq<Group> {
    if |ps| == 0 then []
    else AddMessage(Accumulate(ps[..|ps| - 1]), ps[|ps| - 1].0, ps[|ps| - 1].1)
  }

  // ---------------------------------------------------------------------
  // Reference definition
  // ---------------------------------------------------------------------

  function KeysOf(ps: seq<(string, string)>): (r: seq<string>)
    ensures |r| == |ps|
    ensures forall i :: 0 <= i < |ps| ==> r[i] == ps[i].0
  {
    seq(|ps|, i requires 0 <= i < |ps| => ps[i].0)
  }

  /** The messages of the entries whose key is `key`, in order, repetitions
      included. */
  function MessagesUnder(ps: seq<(string, string)>, key: string): seq<string> {
    if |ps| == 0 then []
    else MessagesUnder(ps[..|ps| - 1], key) + (if ps[|ps| - 1].0 == key then [ps[|ps| - 1].1] else [])
  }

  lemma {:induction false} FindAddMessage(gs: seq<Group>, key: string, msg: string, k: string)
    ensures Find(AddMessage(gs, key, msg), k)
            == if k != key then Find(gs, k)
               else if Find(gs, key).None? then Some([msg])
               else if msg in Find(gs, key).value then Find(gs, key)
               else Some(Find(gs, key).value + [msg])
    ensures GroupYears(AddMessage(gs, key, msg))
            == if key in GroupYears(gs) then GroupYears(gs) else GroupYears(gs) + [key]
  {
    if |gs| > 0 {
      FindAddMessage(gs[1..], key, msg, k);
      assert GroupYears(gs) == [gs[0].year] + GroupYears(gs[1..]);
      var r := AddMessage(gs, key, msg);
      if gs[0].year == key {
        assert GroupYears(r) == [key] + GroupYears(gs[1..]);
      } else {
        assert GroupYears(r) == [gs[0].year] + GroupYears(AddMessage(gs[1..], key, msg));
      }
    }
  }

  lemma FindIffPresent(gs: seq<Group>, k: string)
    ensures Find(gs, k).Some? <==> k in GroupYears(gs)
  {
    if |gs| > 0 {
      assert GroupYears(gs) == [gs[0].year] + GroupYears(gs[1..]);
      FindIffPresent(gs[1..], k);
    }
  }

  lemma {:induction false} MessagesUnderAbsentKey(ps: seq<(string, string)>, k: string)
    requires k !in KeysOf(ps)
    ensures MessagesUnder(ps, k) == []
  {
    if |ps| > 0 {
      assert KeysOf(ps) == KeysOf(ps[..|ps| - 1]) + [ps[|ps| - 1].0];
      MessagesUnderAbsentKey(ps[..|ps| - 1], k);
    }
  }

  /** The loop's object maps each key present among the entries to that
      key's distinct messages in first-occurrence order, and holds no other
      key; its keys are in first-occurrence order without repetition. */
  lemma {:induction false} AccumulateIsGrouping(ps: seq<(string, string)>)
    ensures forall k :: Find(Accumulate(ps), k)
              == if k in KeysOf(ps) then Some(Dedup(MessagesUnder(ps, k))) else None
    ensures GroupYears(Accumulate(ps)) == Dedup(KeysOf(ps))
  {
    if |ps| > 0 {
      var pre := ps[..|ps| - 1];
      AccumulateIsGrouping(pre);
      forall k ensures Find(Accumulate(ps), k)
                 == if k in KeysOf(ps) then Some(Dedup(MessagesUnder(ps, k))) else None
      {
        FindStep(ps, k);
      }
      YearsStep(ps);
    }
  }

  lemma FindStep(ps: seq<(string, string)>, k: string)
    requires |ps| > 0
    requires var pre := ps[..|ps| - 1];
             Find(Accumulate(pre), k) == if k in KeysOf(pre) then Some(Dedup(MessagesUnder(pre, k))) else None
    ensures Find(Accumulate(ps), k) == if k in KeysOf(ps) then Some(Dedup(MessagesUnder(ps, k))) else None
  {
    var pre := ps[..|ps| - 1];
    var key := ps[|ps| - 1].0;
    var msg := ps[|ps| - 1].1;
    var gs := Accumulate(pre);
    assert KeysOf(ps) == KeysOf(pre) + [key];
    assert Accumulate(ps) == AddMessage(gs, key, msg);
    FindAddMessage(gs, key, msg, k);
    if k != key {
      assert MessagesUnder(ps, k) == MessagesUnder(pre, k);
    } else if k in KeysOf(pre) {
      assert MessagesUnder(ps, k) == MessagesUnder(pre, k) + [msg];
      DedupSnoc(MessagesUnder(pre, k), msg);
    } else {
      MessagesUnderAbsentKey(pre, k);
      assert MessagesUnder(ps, k) == [msg];
      assert Dedup([msg]) == [msg] by {
        assert [msg][..0] == [];
      }
    }
  }

  lemma YearsStep(ps: seq<(string, string)>)
    requires |ps| > 0
    requires var pre := ps[..|ps| - 1];
             (forall k :: Find(Accumulate(pre), k).Some? <==> k in KeysOf(pre))
             && GroupYears(Accumulate(pre)) == Dedup(KeysOf(pre))
    ensures GroupYears(Accumulate(ps)) == Dedup(KeysOf(ps))
  {
    var pre := ps[..|ps| - 1];
    var key := ps[|ps| - 1].0;
    var msg := ps[|ps| - 1].1;
    var gs := Accumulate(pre);
    assert KeysOf(ps) == KeysOf(pre) + [key];
    DedupSnoc(KeysOf(pre), key);
    FindIffPresent(gs, key);
    FindAddMessage(gs, key, msg, key);
  }

  // ---------------------------------------------------------------------
  // What the prompt shows
  // ---------------------------------------------------------------------

  /** `Object.keys(groupedErrors).sort().map(...)` over the loop's entries:
      the groups listed by ascending key. */
  function Arrange(ps: seq<(string, string)>): (r: seq<Group>)
    ensures NoDuplicates(GroupYears(Accumulate(ps)))
    ensures GroupYears(r) == SortStrings(GroupYears(Accumulate(ps)))
    ensures forall i :: 0 <= i < |r| ==> r[i].messages == Find(Accumulate(ps), r[i].year).GetOr([])
  {
    var gs := Accumulate(ps);
    AccumulateYearsDistinct(ps);
    var keys := SortStrings(GroupYears(gs));
    var r := seq(|keys|, i requires 0 <= i < |keys| => Group(keys[i], Find(gs, keys[i]).GetOr([])));
    assert GroupYears(r) == keys;
    r
  }

  lemma AccumulateYearsDistinct(ps: seq<(string, string)>)
    ensures NoDuplicates(GroupYears(Accumulate(ps)))
  {
    AccumulateIsGrouping(ps);
  }

  /** The listed groups are exactly the keys present among the entries, in
      strictly ascending string order, each carrying that key's distinct
      messages in first-occurrence order. */
  lemma ArrangeIsGrouping(ps: seq<(string, string)>)
    ensures forall k :: k in KeysOf(ps) <==> k in GroupYears(Arrange(ps))
    ensures StrictlySorted(GroupYears(Arrange(ps)))
    ensures forall i :: 0 <= i < |Arrange(ps)| ==>
              Arrange(ps)[i].messages == Dedup(MessagesUnder(ps, Arrange(ps)[i].year))
  {
    ArrangeKeys(ps);
    ArrangeMessages(ps);
  }

  lemma ArrangeKeys(ps: seq<(string, string)>)
    ensures forall k :: k in KeysOf(ps) <==> k in GroupYears(Arrange(ps))
  {
    var gs := Accumulate(ps);
    AccumulateIsGrouping(ps);
    var keys := GroupYears(Arrange(ps));
    forall k ensures k in keys <==> k in KeysOf(ps) {
      assert k in keys <==> k in multiset(keys);
      assert k in GroupYears(gs) <==> k in multiset(GroupYears(gs));
    }
  }

  lemma ArrangeMessages(ps: seq<(string, string)>)
    ensures forall i :: 0 <= i < |Arrange(ps)| ==>
              Arrange(ps)[i].messages == Dedup(MessagesUnder(ps, Arrange(ps)[i].year))
  {
    var gs := Accumulate(ps);
    AccumulateIsGrouping(ps);
    ArrangeKeys(ps);
    var r := Arrange(ps);
    forall i | 0 <= i < |r| ensures r[i].messages == Dedup(MessagesUnder(ps, r[i].year)) {
      var k := r[i].year;
      assert k in GroupYears(r) by { assert GroupYears(r)[i] == k; }
      assert k in KeysOf(ps);
      assert Find(gs, k) == Some(Dedup(MessagesUnder(ps, k)));
    }
  }

  /** The groups the prompt lists for `errors`. */
  function Present(errors: seq<ZeroError>): seq<Group> {
    Arrange(Entries(errors))
  }

  lemma {:induction false} EntryListed(ps: seq<(string, string)>, n: nat)
    requires n < |ps|
    ensures ps[n].1 in MessagesUnder(ps, ps[n].0)
  {
    if n < |ps| - 1 {
      EntryListed(ps[..|ps| - 1], n);
    }
  }

  lemma EntryShown(ps: seq<(string, string)>, n: nat)
    requires n < |ps|
    ensures exists i :: 0 <= i < |Arrange(ps)| && Arrange(ps)[i].year == ps[n].0
                        && ps[n].1 in Arrange(ps)[i].messages
  {
    var r := Arrange(ps);
    ArrangeIsGrouping(ps);
    assert ps[n].0 in KeysOf(ps) by { assert KeysOf(ps)[n] == ps[n].0; }
    var i :| 0 <= i < |r| && GroupYears(r)[i] == ps[n].0;
    EntryListed(ps, n);
  }

  /** Nothing is dropped: every error's message is listed under its year. */
  lemma NoErrorDropped(errors: seq<ZeroError>, n: nat)
    requires n < |errors|
    ensures exists i :: 0 <= i < |Present(errors)| && Present(errors)[i].year == YearKey(errors[n])
                        && Message(errors[n]) in Present(errors)[i].messages
  {
    var ps := Entries(errors);
    assert ps[n] == (YearKey(errors[n]), Message(errors[n]));
    EntryShown(ps, n);
    var i :| 0 <= i < |Arrange(ps)| && Arrange(ps)[i].year == ps[n].0 && ps[n].1 in Arrange(ps)[i].messages;
    assert Present(errors)[i].year == YearKey(errors[n]);
  }

  /** Within a group no message appears twice, and there is exactly one group
      per distinct year among the errors. */
  lemma GroupsAreDistinct(errors: seq<ZeroError>)
    ensures forall i :: 0 <= i < |Present(errors)| ==> NoDuplicates(Present(errors)[i].messages)
    ensures forall i, j :: 0 <= i < j < |Present(errors)| ==> Present(errors)[i].year != Present(errors)[j].year
  {
    var r := Present(errors);
    ArrangeIsGrouping(Entries(errors));
    forall i, j | 0 <= i < j < |r| ensures r[i].year != r[j].year {
      assert LexLess(GroupYears(r)[i], GroupYears(r)[j]);
      LexLessIrreflexive(r[i].year);
    }
  }

  lemma FourDigits(n: nat)
    requires 1000 <= n <= 9999
    ensures |NatToString(n)| == 4
  {
    assert NatToString(n) == NatToString(n / 10) + [DigitChar(n % 10)];
    assert NatToString(n / 10) == NatToString(n / 100) + [DigitChar(n / 10 % 10)];
    assert NatToString(n / 100) == NatToString(n / 1000) + [DigitChar(n / 100 % 10)];
  }

  /** For four-digit years, the string order of the groups is the numeric
      order of the years. */
  lemma FourDigitYearsInNumericOrder(errors: seq<ZeroError>, i: nat, j: nat, a: ZeroError, b: ZeroError)
    requires forall e :: e in errors ==> 1000 <= e.sheetYear <= 9999
    requires i < j < |Present(errors)|
    requires a in errors && YearKey(a) == Present(errors)[i].year
    requires b in errors && YearKey(b) == Present(errors)[j].year
    ensures a.sheetYear < b.sheetYear
  {
    var r := Present(errors);
    ArrangeIsGrouping(Entries(errors));
    assert LexLess(GroupYears(r)[i], GroupYears(r)[j]);
    FourDigits(a.sheetYear);
    FourDigits(b.sheetYear);
    LexOrderIsNumericForEqualWidth(a.sheetYear, b.sheetYear);
  }
}
