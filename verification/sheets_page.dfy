/** The stand-alone page of sheet cards (src/components/BalanceSheetsPage.jsx):
    the fallback for no companies, the update and delete handlers that
    rewrite the company list, and the two add-sheet handlers that only
    log. The page as written throws on every non-empty render; the
    handlers are modelled on the intended page. */
module SheetsPage {
  import opened Common
  import opened Sheets
  import opened YearSort
  import opened Workspace

  /** `handleUpdateSheet(companyId, updatedSheet)`: the sheet with the same
      id is replaced in that company; no year check, no re-sort. */
  function HandleUpdateSheet(cs: seq<Company>, companyId: int, u: Sheet): (r: seq<Company>)
    ensures |r| == |cs|
    ensures forall i :: 0 <= i < |cs| && cs[i].id != companyId ==> r[i] == cs[i]
    ensures forall i :: 0 <= i < |cs| && cs[i].id == companyId ==>
              r[i].id == cs[i].id && r[i].name == cs[i].name
              && |r[i].sheets| == |cs[i].sheets|
              && forall j :: 0 <= j < |cs[i].sheets| ==>
                   r[i].sheets[j] == (if cs[i].sheets[j].id == u.id then u else cs[i].sheets[j])
  {
    MapCompany(cs, companyId, (s: seq<Sheet>) => ReplaceSheet(s, u))
  }

  /** `handleDeleteSheet(companyId, sheetId)`: exactly the sheets with that
      id leave that company. */
  function HandleDeleteSheet(cs: seq<Company>, companyId: int, sheetId: int): (r: seq<Company>)
    ensures |r| == |cs|
    ensures forall i :: 0 <= i < |cs| && cs[i].id != companyId ==> r[i] == cs[i]
    ensures forall i :: 0 <= i < |cs| && cs[i].id == companyId ==>
              r[i] == cs[i].(sheets := r[i].sheets)
              && forall x :: x in r[i].sheets <==> x in cs[i].sheets && x.id != sheetId
  {
    MapCompany(cs, companyId, (s: seq<Sheet>) => WithoutSheet(s, sheetId))
  }

  /** The events a card on this page can raise. */
  datatype PageEvent =
    | UpdateSheet(companyId: int, sheet: Sheet)
    | DeleteSheet(companyId: int, sheetId: int)
    | AddPreviousSheet(companyId: int, year: int)
    | AddNextSheet(companyId: int, year: int)

  /** What rendering the page yields: the fallback text, the cards of the
      given companies, or an exception instead of any output. */
  datatype View = NoCompanies | Cards(companies: seq<Company>) | Throws

  /** The page as written: past the fallback, the NEXT button's
      `onClick={handleNext}` reads a name declared nowhere in the module,
      so every render with at least one company throws a `ReferenceError`
      and shows nothing. */
  function RenderAsWritten(companies: Option<seq<Company>>): (v: View)
    ensures v.NoCompanies? <==> companies.None? || companies.value == []
    ensures v.Throws? <==> companies.Some? && companies.value != []
    ensures !v.Cards?
  {
    match companies
    case None => NoCompanies
    case Some(cs) => if cs == [] then NoCompanies else Throws
  }

  /** The page as intended, with the button wired to the `onNext` prop:
      `!companies || companies.length === 0` renders only the fallback,
      anything else the cards. */
  function Render(companies: Option<seq<Company>>): (v: View)
    ensures v.NoCompanies? <==> companies.None? || companies.value == []
    ensures v.Cards? ==> v.companies == companies.value
    ensures !v.Throws?
  {
    match companies
    case None => NoCompanies
    case Some(cs) => if cs == [] then NoCompanies else Cards(cs)
  }

  /** The list the page as written hands to `onUpdateCompanies`: a card
      event could only come from a rendered card, and the written page
      renders none, so no event reaches the callback. On the fallback it
      agrees with the intended page. */
  function HandleAsWritten(companies: Option<seq<Company>>, e: PageEvent): (r: Option<seq<Company>>)
    ensures r.None?
    ensures Render(companies).NoCompanies? ==> r == Handle(companies, e)
  {
    match RenderAsWritten(companies)
    case NoCompanies => None
    case Throws => None
    case Cards(cs) =>
      match e
      case UpdateSheet(cid, u) => Some(HandleUpdateSheet(cs, cid, u))
      case DeleteSheet(cid, sid) => Some(HandleDeleteSheet(cs, cid, sid))
      case AddPreviousSheet(_, _) => None
      case AddNextSheet(_, _) => None
  }

  /** The two versions agree on the fallback and part exactly on a page
      with companies: there the written one throws, and the intended one
      shows every company's cards. */
  lemma NonEmptyPageThrows(companies: Option<seq<Company>>)
    ensures RenderAsWritten(companies) == Render(companies) <==> companies.None? || companies.value == []
    ensures companies.Some? && companies.value != [] ==>
              RenderAsWritten(companies).Throws? && Render(companies) == Cards(companies.value)
  {
  }

  /** The list the intended page hands to `onUpdateCompanies`, if any: the
      fallback has no cards and so raises nothing, and the add-sheet
      handlers only log. */
  function Handle(companies: Option<seq<Company>>, e: PageEvent): (r: Option<seq<Company>>)
    ensures Render(companies).NoCompanies? ==> r.None?
    ensures (e.AddPreviousSheet? || e.AddNextSheet?) ==> r.None?
  {
    match Render(companies)
    case NoCompanies => None
    case Throws => None
    case Cards(cs) =>
      match e
      case UpdateSheet(cid, u) => Some(HandleUpdateSheet(cs, cid, u))
      case DeleteSheet(cid, sid) => Some(HandleDeleteSheet(cs, cid, sid))
      case AddPreviousSheet(_, _) => None
      case AddNextSheet(_, _) => None
  }

  /** Whatever the event, the page keeps the companies themselves: their
      number, order, ids and names. */
  lemma HandleKeepsCompanies(companies: Option<seq<Company>>, e: PageEvent)
    requires Handle(companies, e).Some?
    ensures var cs := companies.value;
            var r := Handle(companies, e).value;
            |r| == |cs| && forall i :: 0 <= i < |cs| ==> r[i].id == cs[i].id && r[i].name == cs[i].name
  {
  }

  /** Deleting keeps a company's sheet list valid. */
  lemma DeleteKeepsSheetsValid(cs: seq<Company>, companyId: int, sheetId: int)
    requires forall i :: 0 <= i < |cs| ==> SheetsValid(cs[i].sheets)
    ensures var r := HandleDeleteSheet(cs, companyId, sheetId);
            forall i :: 0 <= i < |r| ==> SheetsValid(r[i].sheets)
  {
    var r := HandleDeleteSheet(cs, companyId, sheetId);
    forall i | 0 <= i < |r| ensures SheetsValid(r[i].sheets) {
      if cs[i].id == companyId {
        WithoutSheetKeepsOrder(cs[i].sheets, sheetId, ById);
        WithoutSheetKeepsOrder(cs[i].sheets, sheetId, ByYear);
      }
    }
  }

  /** Unlike the workspace's own update, this path keeps neither the year
      order nor year uniqueness: moving the first of two sheets past the
      second leaves the list out of order, and moving it onto the second's
      year duplicates that year. */
  lemma UpdateCanBreakOrder()
    ensures var a := DefaultBalanceSheet(1, 2020);
            var b := DefaultBalanceSheet(2, 2021);
            var cs := [Company(1, "Company A", [a, b])];
            && SheetsValid(cs[0].sheets)
            && !SortedByYear(HandleUpdateSheet(cs, 1, a.(year := 2022))[0].sheets)
            && !UniqueBy(HandleUpdateSheet(cs, 1, a.(year := 2021))[0].sheets, ByYear)
  {
    var a := DefaultBalanceSheet(1, 2020);
    var b := DefaultBalanceSheet(2, 2021);
    var cs := [Company(1, "Company A", [a, b])];
    var r1 := HandleUpdateSheet(cs, 1, a.(year := 2022))[0].sheets;
    assert r1[0].year == 2022 && r1[1].year == 2021;
    var r2 := HandleUpdateSheet(cs, 1, a.(year := 2021))[0].sheets;
    assert r2[0].year == 2021 && r2[1].year == 2021;
  }
}
