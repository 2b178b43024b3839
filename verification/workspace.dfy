/** The balance-sheet workspace of the main page (src/App.jsx): companies
    with their year-ordered sheets, the sheet and company operations, and the
    zero-field confirmation gate with its pending action.

    The current calendar year is a parameter `thisYear`. A handler that
    would throw in the source (the current company is missing) leaves the
    state as it was, since no setter ran. */
module Workspace {
  import opened Common
  import opened Text
  import opened Sheets
  import opened Validation
  import opened YearSort

  datatype Company = Company(id: int, name: string, sheets: seq<Sheet>)

  /** The actions the bottom buttons pass to `validateAndProceed`. */
  datatype Action = AddCompany | CompareData

  /** `ran` records every action that has run, in order: its observable
      part is the alert or the navigation it triggers. */
  datatype AppState = AppState(
    companies: seq<Company>,
    currentId: int,
    markers: seq<string>,
    showModal: bool,
    pending: Option<Action>,
    tempErrors: seq<ZeroError>,
    ran: seq<Action>)

  const MaxSheets: nat := 10
  const MaxCompanies: nat := 5

  /** `"Company " + String.fromCharCode(64 + k + 1)`, the name of the
      company added when `k` companies exist. */
  function CompanyName(k: nat): string
    requires k < 26
  {
    "Company " + [(65 + k) as char]
  }

  function Init(thisYear: int): AppState {
    AppState([Company(1, "Company A", [DefaultBalanceSheet(1, thisYear)])], 1, [], false, None, [], [])
  }

  /** `companies.find(company => company.id === id)`, as an index. */
  function FindCompany(cs: seq<Company>, id: int): (r: Option<nat>)
    ensures r.Some? ==> r.value < |cs| && cs[r.value].id == id
    ensures r.None? <==> forall i :: 0 <= i < |cs| ==> cs[i].id != id
  {
    if |cs| == 0 then None
    else if cs[0].id == id then Some(0)
    else match FindCompany(cs[1..], id)
      case None => None
      case Some(i) => Some(i + 1)
  }

  /** `prev.map(company => company.id === id ? {...company, sheets: f(company.sheets)} : company)`. */
  function MapCompany(cs: seq<Company>, id: int, f: seq<Sheet> -> seq<Sheet>): (r: seq<Company>)
    ensures |r| == |cs|
    ensures forall i :: 0 <= i < |cs| ==>
              r[i] == if cs[i].id == id then cs[i].(sheets := f(cs[i].sheets)) else cs[i]
  {
    seq(|cs|, i requires 0 <= i < |cs| => if cs[i].id == id then cs[i].(sheets := f(cs[i].sheets)) else cs[i])
  }

  // ---------------------------------------------------------------------
  // Invariants
  // ---------------------------------------------------------------------

  /** What every company's sheet list keeps: at most ten sheets, ascending
      years, unique ids and unique years. */
  predicate SheetsValid(s: seq<Sheet>) {
    |s| <= MaxSheets && SortedByYear(s) && UniqueBy(s, ById) && UniqueBy(s, ByYear)
  }

  predicate CompanyIdsUnique(cs: seq<Company>) {
    forall i, j :: 0 <= i < j < |cs| ==> cs[i].id != cs[j].id
  }

  /** The invariant of the workspace, which depends only on the companies
      and the current id. */
  predicate Valid(st: AppState) {
    ValidCompanies(st.companies, st.currentId)
  }

  predicate ValidCompanies(cs: seq<Company>, currentId: int) {
    && |cs| <= MaxCompanies
    && CompanyIdsUnique(cs)
    && FindCompany(cs, currentId).Some?
    && (forall i :: 0 <= i < |cs| ==> SheetsValid(cs[i].sheets))
    && (forall i :: 0 <= i < |cs| ==> cs[i].name == CompanyName(i))
  }

  /** The start state satisfies the invariant. */
  lemma InitValid(thisYear: int)
    ensures Valid(Init(thisYear))
  {
  }

  /** Changing only the sheet lists, each into a valid list, keeps the
      invariant. */
  lemma MapCompanyValid(st: AppState, f: seq<Sheet> -> seq<Sheet>)
    requires Valid(st)
    requires forall i :: 0 <= i < |st.companies| && st.companies[i].id == st.currentId ==>
               SheetsValid(f(st.companies[i].sheets))
    ensures Valid(st.(companies := MapCompany(st.companies, st.currentId, f)))
  {
    var cs := MapCompany(st.companies, st.currentId, f);
    var i := FindCompany(st.companies, st.currentId).value;
    assert cs[i].id == st.currentId;
  }

  // ---------------------------------------------------------------------
  // Sheet operations
  // ---------------------------------------------------------------------

  /** The marker `sheet-{id}.year`. */
  function YearMarker(id: int): string {
    SheetPrefix(id) + ".year"
  }

  /** `prev.filter(errorId => errorId !== m)`. */
  function RemoveMarker(ms: seq<string>, m: string): (r: seq<string>)
    ensures forall x :: x in r <==> x in ms && x != m
  {
    if |ms| == 0 then []
    else
      assert forall x :: x in ms <==> x in ms[..|ms| - 1] || x == ms[|ms| - 1] by {
        assert ms == ms[..|ms| - 1] + [ms[|ms| - 1]];
      }
      RemoveMarker(ms[..|ms| - 1], m) + (if ms[|ms| - 1] != m then [ms[|ms| - 1]] else [])
  }

  /** Another sheet (a different id) already has `u`'s year. */
  predicate YearTaken(s: seq<Sheet>, u: Sheet) {
    exists i :: 0 <= i < |s| && s[i].id != u.id && s[i].year == u.year
  }

  /** `updateSheet(u)`. */
  function UpdateSheet(st: AppState, u: Sheet): AppState {
    match FindCompany(st.companies, st.currentId)
    case None => st
    case Some(ci) =>
      if YearTaken(st.companies[ci].sheets, u) then
        st.(markers := Dedup(st.markers + [YearMarker(u.id)]))
      else
        st.(markers := RemoveMarker(st.markers, YearMarker(u.id)),
            companies := MapCompany(st.companies, st.currentId, s => SortByYear(ReplaceSheet(s, u))))
  }

  /** A duplicate year is refused: the companies stay as they were and the
      year marker is present exactly once, with every earlier marker kept.
      Otherwise the marker is gone, the sheet with `u`'s id is replaced by
      `u`, the list is year-sorted, and other companies are untouched. */
  lemma UpdateSheetEffect(st: AppState, u: Sheet)
    requires Valid(st)
    ensures var ci := FindCompany(st.companies, st.currentId).value;
            var r := UpdateSheet(st, u);
            && r.ran == st.ran && r.pending == st.pending && r.showModal == st.showModal
            && (YearTaken(st.companies[ci].sheets, u) ==>
                  && r.companies == st.companies
                  && NoDuplicates(r.markers)
                  && YearMarker(u.id) in r.markers
                  && (forall k :: 0 <= k < |st.markers| ==> st.markers[k] in r.markers)
                  && (forall k :: 0 <= k < |r.markers| ==> r.markers[k] in st.markers || r.markers[k] == YearMarker(u.id)))
            && (!YearTaken(st.companies[ci].sheets, u) ==>
                  && YearMarker(u.id) !in r.markers
                  && (forall x :: x in st.markers && x != YearMarker(u.id) ==> x in r.markers)
                  && |r.companies| == |st.companies|
                  && (forall i :: 0 <= i < |st.companies| && i != ci ==> r.companies[i] == st.companies[i])
                  && r.companies[ci].sheets == SortByYear(ReplaceSheet(st.companies[ci].sheets, u))
                  && |r.companies[ci].sheets| == |st.companies[ci].sheets|
                  && SortedByYear(r.companies[ci].sheets))
  {
    var ci := FindCompany(st.companies, st.currentId).value;
    if YearTaken(st.companies[ci].sheets, u) {
      RefusedMarkers(st.markers, YearMarker(u.id));
    } else {
      var f := (s: seq<Sheet>) => SortByYear(ReplaceSheet(s, u));
      AcceptedCompanies(st.companies, st.currentId, ci, f);
    }
  }

  /** Adding a marker and dropping duplicates keeps every marker and adds
      that one, once. */
  lemma RefusedMarkers(ms: seq<string>, m: string)
    ensures var r := Dedup(ms + [m]);
            && NoDuplicates(r)
            && m in r
            && (forall k :: 0 <= k < |ms| ==> ms[k] in r)
            && (forall k :: 0 <= k < |r| ==> r[k] in ms || r[k] == m)
  {
    var w := ms + [m];
    assert w[|ms|] == m;
    forall k | 0 <= k < |ms| ensures ms[k] in Dedup(w) {
      assert w[k] == ms[k];
    }
  }

  /** Mapping over the companies changes only the current one. */
  lemma AcceptedCompanies(cs: seq<Company>, id: int, ci: nat, f: seq<Sheet> -> seq<Sheet>)
    requires ci < |cs| && cs[ci].id == id && CompanyIdsUnique(cs)
    ensures var r := MapCompany(cs, id, f);
            && |r| == |cs|
            && (forall i :: 0 <= i < |cs| && i != ci ==> r[i] == cs[i])
            && r[ci].sheets == f(cs[ci].sheets)
  {
  }

  /** The sheets with `u`'s id become `u`: the list of sheets is the old
      list with that sheet swapped, in year order. */
  lemma UpdateSheetValid(st: AppState, u: Sheet)
    requires Valid(st)
    ensures Valid(UpdateSheet(st, u))
  {
    var ci := FindCompany(st.companies, st.currentId).value;
    if !YearTaken(st.companies[ci].sheets, u) {
      var f := (s: seq<Sheet>) => SortByYear(ReplaceSheet(s, u));
      forall i | 0 <= i < |st.companies| && st.companies[i].id == st.currentId
        ensures SheetsValid(f(st.companies[i].sheets))
      {
        assert i == ci;
        var s := st.companies[i].sheets;
        ReplaceSheetUnique(s, u);
        SortByYearUnique(ReplaceSheet(s, u), ById);
        SortByYearUnique(ReplaceSheet(s, u), ByYear);
      }
      MapCompanyValid(st, f);
    }
  }

  /** `length ? Math.max(...years) + 1 : thisYear`. */
  function NextYear(s: seq<Sheet>, thisYear: int): (y: int)
    ensures KeyFresh(s, ByYear, y)
    ensures |s| == 0 ==> y == thisYear
    ensures |s| > 0 ==> forall i :: 0 <= i < |s| ==> KeyOf(s[i], ByYear) < y
    ensures |s| > 0 ==> exists i :: 0 <= i < |s| && KeyOf(s[i], ByYear) == y - 1
  {
    if |s| > 0 then MaxKey(s, ByYear) + 1 else thisYear
  }

  /** The sheet list after `addNextSheet`'s per-company step. */
  function WithNextSheet(s: seq<Sheet>, thisYear: int): seq<Sheet> {
    if |s| >= MaxSheets then s
    else SortByYear(s + [DefaultBalanceSheet(NextSheetId(s), NextYear(s, thisYear))])
  }

  /** `addNextSheet()`, the button shown for a company without sheets. */
  function AddNextSheet(st: AppState, thisYear: int): AppState {
    st.(companies := MapCompany(st.companies, st.currentId, s => WithNextSheet(s, thisYear)))
  }

  /** Below the cap, one zeroed sheet is added whose id and year are fresh:
      one past the largest, or 1 and the current year for an empty list. */
  lemma WithNextSheetEffect(s: seq<Sheet>, thisYear: int)
    requires SheetsValid(s)
    ensures |s| >= MaxSheets ==> WithNextSheet(s, thisYear) == s
    ensures |s| < MaxSheets ==>
              var x := DefaultBalanceSheet(NextSheetId(s), NextYear(s, thisYear));
              && multiset(WithNextSheet(s, thisYear)) == multiset(s) + multiset{x}
              && KeyFresh(s, ById, x.id) && KeyFresh(s, ByYear, x.year)
              && (|s| == 0 ==> x.id == 1 && x.year == thisYear)
    ensures SheetsValid(WithNextSheet(s, thisYear))
  {
    if |s| < MaxSheets {
      var x := DefaultBalanceSheet(NextSheetId(s), NextYear(s, thisYear));
      AppendFreshValid(s, x);
    }
  }

  /** Appending a sheet with a fresh id and a fresh year below the cap and
      sorting gives a valid list. */
  lemma AppendFreshValid(s: seq<Sheet>, x: Sheet)
    requires SheetsValid(s) && |s| < MaxSheets
    requires KeyFresh(s, ById, x.id) && KeyFresh(s, ByYear, x.year)
    ensures SheetsValid(SortByYear(s + [x]))
  {
    AppendFreshUnique(s, x, ById);
    AppendFreshUnique(s, x, ByYear);
    SortByYearUnique(s + [x], ById);
    SortByYearUnique(s + [x], ByYear);
  }

  lemma AppendFreshUnique(s: seq<Sheet>, x: Sheet, k: Key)
    requires UniqueBy(s, k) && KeyFresh(s, k, KeyOf(x, k))
    ensures UniqueBy(s + [x], k)
  {
    var t := s + [x];
    forall i, j | 0 <= i < j < |t| ensures KeyOf(t[i], k) != KeyOf(t[j], k) {
      assert t[i] == s[i];
    }
  }

  /** `addNextSheet` changes only the current company's sheets, which
      become `WithNextSheet` of them; the markers, the prompt and the
      record of actions stay. */
  lemma AddNextSheetEffect(st: AppState, thisYear: int)
    requires Valid(st)
    ensures var ci := FindCompany(st.companies, st.currentId).value;
            var r := AddNextSheet(st, thisYear);
            && r == st.(companies := r.companies)
            && |r.companies| == |st.companies|
            && (forall i :: 0 <= i < |st.companies| && i != ci ==> r.companies[i] == st.companies[i])
            && r.companies[ci] == st.companies[ci].(sheets := WithNextSheet(st.companies[ci].sheets, thisYear))
  {
    var ci := FindCompany(st.companies, st.currentId).value;
    AcceptedCompanies(st.companies, st.currentId, ci, s => WithNextSheet(s, thisYear));
  }

  lemma AddNextSheetValid(st: AppState, thisYear: int)
    requires Valid(st)
    ensures Valid(AddNextSheet(st, thisYear))
  {
    var f := (s: seq<Sheet>) => WithNextSheet(s, thisYear);
    forall i | 0 <= i < |st.companies| && st.companies[i].id == st.currentId
      ensures SheetsValid(f(st.companies[i].sheets))
    {
      WithNextSheetEffect(st.companies[i].sheets, thisYear);
    }
    MapCompanyValid(st, f);
  }

  /** `addNextSheetFor(year)` and `addPreviousSheet(year)` with
      `newYear` = `year + 1` or `year - 1`. */
  function AddAdjacent(st: AppState, newYear: int): AppState {
    match FindCompany(st.companies, st.currentId)
    case None => st
    case Some(ci) =>
      var s := st.companies[ci].sheets;
      if |s| >= MaxSheets || !KeyFresh(s, ByYear, newYear) then st
      else
        var updated := SortByYear(s + [DefaultBalanceSheet(NextSheetId(s), newYear)]);
        st.(companies := MapCompany(st.companies, st.currentId, _ => updated))
  }

  function AddNextSheetFor(st: AppState, year: int): AppState {
    AddAdjacent(st, year + 1)
  }

  function AddPreviousSheet(st: AppState, year: int): AppState {
    AddAdjacent(st, year - 1)
  }

  /** At the cap, or when the year already exists, nothing changes.
      Otherwise the current company gains exactly one zeroed sheet for
      `newYear` with id one past the largest, the list stays in year order,
      and no other company changes. */
  lemma AddAdjacentEffect(st: AppState, newYear: int)
    requires Valid(st)
    ensures var ci := FindCompany(st.companies, st.currentId).value;
            var s := st.companies[ci].sheets;
            var r := AddAdjacent(st, newYear);
            && (|s| >= MaxSheets || !KeyFresh(s, ByYear, newYear) ==> r == st)
            && (|s| < MaxSheets && KeyFresh(s, ByYear, newYear) ==>
                  var x := DefaultBalanceSheet(NextSheetId(s), newYear);
                  && r.markers == st.markers && r.ran == st.ran
                  && |r.companies| == |st.companies|
                  && (forall i :: 0 <= i < |st.companies| && i != ci ==> r.companies[i] == st.companies[i])
                  && multiset(r.companies[ci].sheets) == multiset(s) + multiset{x}
                  && KeyFresh(s, ById, x.id)
                  && SortedByYear(r.companies[ci].sheets))
  {
  }

  lemma AddAdjacentValid(st: AppState, newYear: int)
    requires Valid(st)
    ensures Valid(AddAdjacent(st, newYear))
  {
    var ci := FindCompany(st.companies, st.currentId).value;
    var s := st.companies[ci].sheets;
    if |s| < MaxSheets && KeyFresh(s, ByYear, newYear) {
      var updated := SortByYear(s + [DefaultBalanceSheet(NextSheetId(s), newYear)]);
      AppendFreshValid(s, DefaultBalanceSheet(NextSheetId(s), newYear));
      MapCompanyValid(st, _ => updated);
    }
  }

  /** `deleteSheet(sheetId)`. */
  function DeleteSheet(st: AppState, sheetId: int): AppState {
    st.(companies := MapCompany(st.companies, st.currentId, s => WithoutSheet(s, sheetId)))
  }

  /** Exactly the current company's sheets with that id disappear. */
  lemma DeleteSheetEffect(st: AppState, sheetId: int)
    requires Valid(st)
    ensures var ci := FindCompany(st.companies, st.currentId).value;
            var r := DeleteSheet(st, sheetId);
            && (forall x :: x in r.companies[ci].sheets <==> x in st.companies[ci].sheets && x.id != sheetId)
            && (forall i :: 0 <= i < |st.companies| && i != ci ==> r.companies[i] == st.companies[i])
  {
  }

  lemma DeleteSheetValid(st: AppState, sheetId: int)
    requires Valid(st)
    ensures Valid(DeleteSheet(st, sheetId))
  {
    var f := (s: seq<Sheet>) => WithoutSheet(s, sheetId);
    forall i | 0 <= i < |st.companies| && st.companies[i].id == st.currentId
      ensures SheetsValid(f(st.companies[i].sheets))
    {
      WithoutSheetKeepsOrder(st.companies[i].sheets, sheetId, ById);
      WithoutSheetKeepsOrder(st.companies[i].sheets, sheetId, ByYear);
    }
    MapCompanyValid(st, f);
  }

  // ---------------------------------------------------------------------
  // Companies and the confirmation gate
  // ---------------------------------------------------------------------

  /** `Math.max(...companies.map(c => c.id))` on a non-empty list. */
  function MaxCompanyId(cs: seq<Company>): (m: int)
    requires |cs| > 0
    ensures forall i :: 0 <= i < |cs| ==> cs[i].id <= m
    ensures exists i :: 0 <= i < |cs| && cs[i].id == m
  {
    if |cs| == 1 then cs[0].id
    else
      var m := MaxCompanyId(cs[..|cs| - 1]);
      assert forall i :: 0 <= i < |cs| - 1 ==> cs[..|cs| - 1][i] == cs[i];
      if cs[|cs| - 1].id > m then cs[|cs| - 1].id else m
  }

  /** `companies.length ? Math.max(...ids) + 1 : 1`: one past the largest
      id, whatever its sign, and 1 for an empty list. */
  function NextCompanyId(cs: seq<Company>): (id: int)
    ensures forall i :: 0 <= i < |cs| ==> cs[i].id < id
    ensures |cs| == 0 ==> id == 1
    ensures |cs| > 0 ==> exists i :: 0 <= i < |cs| && cs[i].id == id - 1
  {
    if |cs| == 0 then 1 else MaxCompanyId(cs) + 1
  }

  /** Running an action: `ran` records it; adding a company below the cap
      appends "Company X" with a single sheet of id 1 and switches to it. */
  function Run(st: AppState, a: Action, thisYear: int): AppState {
    var st1 := st.(ran := st.ran + [a]);
    match a
    case CompareData => st1
    case AddCompany =>
      if |st.companies| >= MaxCompanies then st1
      else
        var id := NextCompanyId(st.companies);
        var c := Company(id, CompanyName(|st.companies|), [DefaultBalanceSheet(1, thisYear)]);
        st1.(companies := st.companies + [c], currentId := id)
  }

  /** Below five companies, a company named after its position, with a
      fresh id and one zeroed sheet of id 1 for the current year, is
      appended and becomes current; at five, only the alert happens. */
  lemma RunAddCompanyEffect(st: AppState, thisYear: int)
    ensures var r := Run(st, AddCompany, thisYear);
            && r.ran == st.ran + [AddCompany]
            && (|st.companies| >= MaxCompanies ==> r.companies == st.companies && r.currentId == st.currentId)
            && (|st.companies| < MaxCompanies ==>
                  && |r.companies| == |st.companies| + 1
                  && r.companies[..|st.companies|] == st.companies
                  && var c := r.companies[|st.companies|];
                     && c.name == "Company " + [(65 + |st.companies|) as char]
                     && (forall i :: 0 <= i < |st.companies| ==> st.companies[i].id != c.id)
                     && c.sheets == [DefaultBalanceSheet(1, thisYear)]
                     && r.currentId == c.id)
  {
  }

  lemma RunValid(st: AppState, a: Action, thisYear: int)
    requires Valid(st)
    ensures Valid(Run(st, a, thisYear))
  {
    var r := Run(st, a, thisYear);
    if a == AddCompany && |st.companies| < MaxCompanies {
      var id := NextCompanyId(st.companies);
      var c := Company(id, CompanyName(|st.companies|), [DefaultBalanceSheet(1, thisYear)]);
      assert r.companies == st.companies + [c] && r.currentId == id;
      SingleSheetValid(DefaultBalanceSheet(1, thisYear));
      AppendCompanyValid(st.companies, st.currentId, c);
    } else {
      assert r.companies == st.companies && r.currentId == st.currentId;
    }
  }

  lemma SingleSheetValid(x: Sheet)
    ensures SheetsValid([x])
  {
  }

  /** Appending a company with a fresh id, the next name and valid sheets
      below the cap keeps the invariant, with the new company current. */
  lemma AppendCompanyValid(cs: seq<Company>, currentId: int, c: Company)
    requires ValidCompanies(cs, currentId) && |cs| < MaxCompanies
    requires forall i :: 0 <= i < |cs| ==> cs[i].id < c.id
    requires c.name == CompanyName(|cs|) && SheetsValid(c.sheets)
    ensures ValidCompanies(cs + [c], c.id)
  {
    var r := cs + [c];
    assert r[|cs|] == c;
    assert FindCompany(r, c.id).Some?;
  }

  /** The current company's sheets scanned in order, the errors of each
      sheet concatenated. `lowerPath` picks the scan: `true` is the program
      as written (`FindZeroFieldsAsWritten`), `false` the corrected scan
      (`FindZeroFields`); the gate and every event below carry the flag. */
  function AllErrors(sheets: seq<Sheet>, lowerPath: bool): seq<ZeroError> {
    if |sheets| == 0 then []
    else AllErrors(sheets[..|sheets| - 1], lowerPath) + ScanSheet(sheets[|sheets| - 1], lowerPath)
  }

  /** The scan finds nothing exactly when no sheet has a zero field. */
  lemma {:induction false} AllErrorsEmpty(sheets: seq<Sheet>, lowerPath: bool)
    ensures AllErrors(sheets, lowerPath) == [] <==> forall i :: 0 <= i < |sheets| ==> ScanSheet(sheets[i], lowerPath) == []
  {
    if |sheets| > 0 {
      AllErrorsEmpty(sheets[..|sheets| - 1], lowerPath);
      assert forall i :: 0 <= i < |sheets| - 1 ==> sheets[..|sheets| - 1][i] == sheets[i];
    }
  }

  /** Both scans report the same number of errors on every sheet list, so
      they block on the same lists. */
  lemma {:induction false} AllErrorsSameLength(sheets: seq<Sheet>)
    ensures |AllErrors(sheets, true)| == |AllErrors(sheets, false)|
  {
    if |sheets| > 0 {
      AllErrorsSameLength(sheets[..|sheets| - 1]);
      AsWrittenDiffersOnlyInPathCase(sheets[|sheets| - 1]);
    }
  }

  /** `validateAndProceed(action)`. */
  function ValidateAndProceed(st: AppState, a: Action, thisYear: int, lowerPath: bool): AppState {
    match FindCompany(st.companies, st.currentId)
    case None => st
    case Some(ci) =>
      var errs := AllErrors(st.companies[ci].sheets, lowerPath);
      if |errs| > 0 then st.(tempErrors := errs, pending := Some(a), showModal := true)
      else Run(st, a, thisYear)
  }

  /** `handleModalCancel`: the markers become the stashed errors' field ids
      (replacing, not merging), the prompt closes, and the pending action
      is left as it was. */
  function ModalCancel(st: AppState): AppState {
    st.(markers := seq(|st.tempErrors|, i requires 0 <= i < |st.tempErrors| => st.tempErrors[i].fieldId),
        showModal := false)
  }

  /** `handleModalConfirm`. */
  function ModalConfirm(st: AppState, thisYear: int): AppState {
    var st1 := st.(showModal := false);
    match st.pending
    case None => st1
    case Some(a) => Run(st1, a, thisYear).(pending := None)
  }

  /** With no zero field the action runs at once; otherwise it does not
      run, it becomes pending, the errors are stashed and the prompt
      opens, with the companies unchanged. */
  lemma ValidateAndProceedEffect(st: AppState, a: Action, thisYear: int, lowerPath: bool)
    requires Valid(st)
    ensures var ci := FindCompany(st.companies, st.currentId).value;
            var errs := AllErrors(st.companies[ci].sheets, lowerPath);
            var r := ValidateAndProceed(st, a, thisYear, lowerPath);
            && (errs == [] ==> r == Run(st, a, thisYear) && r.ran == st.ran + [a])
            && (errs != [] ==>
                  && r.ran == st.ran && r.companies == st.companies && r.markers == st.markers
                  && r.pending == Some(a) && r.showModal && r.tempErrors == errs)
  {
  }

  /** The gate as written and the corrected gate run, block and stash on
      the same states; the two results differ in nothing but the stashed
      error records, whose field ids are spelled differently. */
  lemma GatesDifferOnlyInStash(st: AppState, a: Action, thisYear: int)
    requires Valid(st)
    ensures var w := ValidateAndProceed(st, a, thisYear, true);
            var c := ValidateAndProceed(st, a, thisYear, false);
            w.(tempErrors := c.tempErrors) == c
  {
    var ci := FindCompany(st.companies, st.currentId).value;
    AllErrorsSameLength(st.companies[ci].sheets);
  }

  /** Running an action records it and leaves the prompt state alone. */
  lemma RunRecords(st: AppState, a: Action, thisYear: int)
    ensures var r := Run(st, a, thisYear);
            r.ran == st.ran + [a] && r.pending == st.pending && r.showModal == st.showModal
            && r.markers == st.markers && r.tempErrors == st.tempErrors
  {
  }

  /** Confirming after a blocked action runs it exactly once, clears it and
      closes the prompt. */
  lemma ConfirmRunsPendingOnce(st: AppState, a: Action, thisYear: int, lowerPath: bool)
    requires Valid(st)
    requires AllErrors(st.companies[FindCompany(st.companies, st.currentId).value].sheets, lowerPath) != []
    ensures var v := ValidateAndProceed(st, a, thisYear, lowerPath);
            var r := ModalConfirm(v, thisYear);
            && v.showModal && v.ran == st.ran
            && r.ran == st.ran + [a]
            && r.pending.None?
            && !r.showModal
  {
    var v := ValidateAndProceed(st, a, thisYear, lowerPath);
    assert v.pending == Some(a);
    RunRecords(v.(showModal := false), a, thisYear);
  }

  /** Cancelling never runs the pending action and marks exactly the
      stashed errors' fields. */
  lemma CancelNeverRuns(st: AppState)
    ensures var r := ModalCancel(st);
            && r.ran == st.ran && r.companies == st.companies && r.pending == st.pending && !r.showModal
            && |r.markers| == |st.tempErrors|
            && (forall i :: 0 <= i < |st.tempErrors| ==> r.markers[i] == st.tempErrors[i].fieldId)
  {
  }

  /** Confirming always closes the prompt and clears the pending action;
      it runs the pending action, if any, exactly once, and keeps the
      markers and the stashed errors. */
  lemma ModalConfirmEffect(st: AppState, thisYear: int)
    ensures var r := ModalConfirm(st, thisYear);
            && !r.showModal && r.pending.None?
            && r.markers == st.markers && r.tempErrors == st.tempErrors
            && (st.pending.None? ==> r.ran == st.ran && r.companies == st.companies)
            && (st.pending.Some? ==> r.ran == st.ran + [st.pending.value])
  {
    if st.pending.Some? {
      RunRecords(st.(showModal := false), st.pending.value, thisYear);
    }
  }

  /** The `i`-th company button makes exactly that company the one the
      page edits, and changes no company. */
  lemma SelectCompanyEffect(st: AppState, i: nat)
    requires Valid(st) && i < |st.companies|
    ensures var r := SelectCompany(st, i);
            && r.companies == st.companies
            && FindCompany(r.companies, r.currentId) == Some(i)
  {
    var r := SelectCompany(st, i);
    assert FindCompany(r.companies, r.currentId).Some?;
  }

  // ---------------------------------------------------------------------
  // Every event keeps the invariant
  // ---------------------------------------------------------------------

  /** What the page lets the user do: edit the current company's sheets,
      or go through the confirmation gate and the company buttons. */
  datatype Event = Sheets(e: SheetEvent) | Gate(g: GateEvent)

  datatype SheetEvent =
    | Update(u: Sheet)
    | AddNext
    | AddNextFor(year: int)
    | AddPrevious(year: int)
    | Delete(sheetId: int)

  /** `Select(i)` clicks the `i`-th company button; `Confirm`/`Cancel` are
      the prompt's buttons, which exist only while `showModal` holds. */
  datatype GateEvent =
    | Proceed(a: Action)
    | Cancel
    | Confirm
    | Select(index: nat)

  function Step(st: AppState, ev: Event, thisYear: int, lowerPath: bool): AppState {
    match ev
    case Sheets(e) => SheetStep(st, e, thisYear)
    case Gate(g) => GateStep(st, g, thisYear, lowerPath)
  }

  function SheetStep(st: AppState, e: SheetEvent, thisYear: int): AppState {
    match e
    case Update(u) => UpdateSheet(st, u)
    case AddNext => AddNextSheet(st, thisYear)
    case AddNextFor(y) => AddNextSheetFor(st, y)
    case AddPrevious(y) => AddPreviousSheet(st, y)
    case Delete(id) => DeleteSheet(st, id)
  }

  function GateStep(st: AppState, g: GateEvent, thisYear: int, lowerPath: bool): AppState {
    match g
    case Proceed(a) => ValidateAndProceed(st, a, thisYear, lowerPath)
    case Cancel => if st.showModal then ModalCancel(st) else st
    case Confirm => if st.showModal then ModalConfirm(st, thisYear) else st
    case Select(i) => SelectCompany(st, i)
  }

  /** The prompt's buttons are mounted only while it is open: with the
      prompt closed, neither button does anything, so a cancelled action
      can never be confirmed later; with it open, cancelling keeps the
      action pending but runs nothing, and a confirm after that is inert. */
  lemma PromptButtonsOnlyWhenOpen(st: AppState, thisYear: int, lowerPath: bool)
    ensures !st.showModal ==>
              GateStep(st, Confirm, thisYear, lowerPath) == st
              && GateStep(st, Cancel, thisYear, lowerPath) == st
    ensures var c := GateStep(st, Cancel, thisYear, lowerPath);
            && !c.showModal && c.ran == st.ran
            && GateStep(c, Confirm, thisYear, lowerPath) == c
  {
  }

  /** The `i`-th company button makes that company current. */
  function SelectCompany(st: AppState, i: nat): AppState {
    if i < |st.companies| then st.(currentId := st.companies[i].id) else st
  }

  /** Every event keeps: at most five companies with unique ids, named in
      order, the current one present, and per company at most ten sheets
      in ascending year order with unique ids and years. */
  lemma StepValid(st: AppState, ev: Event, thisYear: int, lowerPath: bool)
    requires Valid(st)
    ensures Valid(Step(st, ev, thisYear, lowerPath))
  {
    match ev
    case Sheets(e) => SheetStepValid(st, e, thisYear);
    case Gate(g) => GateStepValid(st, g, thisYear, lowerPath);
  }

  lemma SheetStepValid(st: AppState, e: SheetEvent, thisYear: int)
    requires Valid(st)
    ensures Valid(SheetStep(st, e, thisYear))
  {
    match e
    case Update(u) => UpdateStepValid(st, u, thisYear);
    case AddNext => AddNextStepValid(st, thisYear);
    case AddNextFor(y) => AdjacentStepValid(st, e, thisYear, y + 1);
    case AddPrevious(y) => AdjacentStepValid(st, e, thisYear, y - 1);
    case Delete(id) => DeleteStepValid(st, id, thisYear);
  }

  lemma UpdateStepValid(st: AppState, u: Sheet, thisYear: int)
    requires Valid(st)
    ensures Valid(SheetStep(st, Update(u), thisYear))
  {
    assert SheetStep(st, Update(u), thisYear) == UpdateSheet(st, u);
    UpdateSheetValid(st, u);
  }

  lemma AddNextStepValid(st: AppState, thisYear: int)
    requires Valid(st)
    ensures Valid(SheetStep(st, AddNext, thisYear))
  {
    assert SheetStep(st, AddNext, thisYear) == AddNextSheet(st, thisYear);
    AddNextSheetValid(st, thisYear);
  }

  lemma AdjacentStepValid(st: AppState, e: SheetEvent, thisYear: int, newYear: int)
    requires Valid(st)
    requires e == AddNextFor(newYear - 1) || e == AddPrevious(newYear + 1)
    ensures Valid(SheetStep(st, e, thisYear))
  {
    assert SheetStep(st, e, thisYear) == AddAdjacent(st, newYear);
    AddAdjacentValid(st, newYear);
  }

  lemma DeleteStepValid(st: AppState, id: int, thisYear: int)
    requires Valid(st)
    ensures Valid(SheetStep(st, Delete(id), thisYear))
  {
    assert SheetStep(st, Delete(id), thisYear) == DeleteSheet(st, id);
    DeleteSheetValid(st, id);
  }

  lemma GateStepValid(st: AppState, g: GateEvent, thisYear: int, lowerPath: bool)
    requires Valid(st)
    ensures Valid(GateStep(st, g, thisYear, lowerPath))
  {
    match g
    case Proceed(a) => ProceedValid(st, a, thisYear, lowerPath);
    case Cancel => if st.showModal { CancelValid(st); }
    case Confirm => if st.showModal { ConfirmValid(st, thisYear); }
    case Select(i) => SelectValid(st, i);
  }

  lemma CancelValid(st: AppState)
    requires Valid(st)
    ensures Valid(ModalCancel(st))
  {
    assert ModalCancel(st).companies == st.companies;
  }

  lemma SelectValid(st: AppState, i: nat)
    requires Valid(st)
    ensures Valid(SelectCompany(st, i))
  {
  }

  lemma ProceedValid(st: AppState, a: Action, thisYear: int, lowerPath: bool)
    requires Valid(st)
    ensures Valid(ValidateAndProceed(st, a, thisYear, lowerPath))
  {
    var ci := FindCompany(st.companies, st.currentId).value;
    if AllErrors(st.companies[ci].sheets, lowerPath) == [] {
      RunValid(st, a, thisYear);
    }
  }

  lemma ConfirmValid(st: AppState, thisYear: int)
    requires Valid(st)
    ensures Valid(ModalConfirm(st, thisYear))
  {
    if st.pending.Some? {
      RunValid(st.(showModal := false), st.pending.value, thisYear);
    }
  }

  function Replay(st: AppState, evs: seq<Event>, thisYear: int, lowerPath: bool): AppState {
    if |evs| == 0 then st
    else Step(Replay(st, evs[..|evs| - 1], thisYear, lowerPath), evs[|evs| - 1], thisYear, lowerPath)
  }

  /** Every state reachable from the start satisfies the invariant, with
      either scan behind the gate. */
  lemma {:induction false} ReachableValid(evs: seq<Event>, thisYear: int, lowerPath: bool)
    ensures Valid(Replay(Init(thisYear), evs, thisYear, lowerPath))
  {
    if |evs| == 0 {
      InitValid(thisYear);
    } else {
      ReachableValid(evs[..|evs| - 1], thisYear, lowerPath);
      StepValid(Replay(Init(thisYear), evs[..|evs| - 1], thisYear, lowerPath), evs[|evs| - 1], thisYear, lowerPath);
    }
  }
}
