/** `getAllBalanceSheets` (src/utils/sheetHelpers.js): every company's
    sheets in one list, company by company, each stamped with its owner. */
module SheetHelpers {
  import opened Common
  import opened Sheets
  import opened Workspace

  /** `{ ...sheet, companyId: company.id, companyName: company.name }`. */
  function Stamp(c: Company, x: Sheet): Sheet {
    x.(owner := Some(Owner(c.id, c.name)))
  }

  /** `company.sheets.map(...)`. */
  function Tagged(c: Company): (r: seq<Sheet>)
    ensures |r| == |c.sheets|
    ensures forall j :: 0 <= j < |r| ==> r[j] == Stamp(c, c.sheets[j])
  {
    seq(|c.sheets|, j requires 0 <= j < |c.sheets| => Stamp(c, c.sheets[j]))
  }

  /** `companies.flatMap(...)`. */
  function Flatten(cs: seq<Company>): seq<Sheet> {
    if |cs| == 0 then [] else Flatten(cs[..|cs| - 1]) + Tagged(cs[|cs| - 1])
  }

  /** The number of sheets over all companies. */
  function TotalSheets(cs: seq<Company>): nat {
    if |cs| == 0 then 0 else |cs[0].sheets| + TotalSheets(cs[1..])
  }

  /** Where company `k`'s sheets start in the flattened list. */
  function Offset(cs: seq<Company>, k: nat): nat
    requires k <= |cs|
  {
    TotalSheets(cs[..k])
  }

  lemma {:induction false} TotalSheetsSnoc(cs: seq<Company>, c: Company)
    ensures TotalSheets(cs + [c]) == TotalSheets(cs) + |c.sheets|
  {
    if |cs| > 0 {
      assert (cs + [c])[1..] == cs[1..] + [c];
      TotalSheetsSnoc(cs[1..], c);
    }
  }

  /** The output holds exactly as many records as there are sheets. */
  lemma {:induction false} FlattenLength(cs: seq<Company>)
    ensures |Flatten(cs)| == TotalSheets(cs)
  {
    if |cs| > 0 {
      FlattenLength(cs[..|cs| - 1]);
      TotalSheetsSnoc(cs[..|cs| - 1], cs[|cs| - 1]);
      assert cs[..|cs| - 1] + [cs[|cs| - 1]] == cs;
    }
  }

  /** Company-major, sheet-minor order: record `Offset(cs, k) + j` is
      company `k`'s sheet `j`, stamped with company `k`. */
  lemma {:induction false} FlattenAt(cs: seq<Company>, k: nat, j: nat)
    requires k < |cs| && j < |cs[k].sheets|
    ensures Offset(cs, k) + j < |Flatten(cs)|
    ensures Flatten(cs)[Offset(cs, k) + j] == Stamp(cs[k], cs[k].sheets[j])
  {
    var n := |cs| - 1;
    var pre := cs[..n];
    FlattenLength(pre);
    if k == n {
      assert Flatten(cs)[|Flatten(pre)| + j] == Tagged(cs[n])[j];
    } else {
      assert pre[..k] == cs[..k];
      assert pre[k] == cs[k];
      FlattenAt(pre, k, j);
    }
  }

  /** Stamping overrides only the owner: removing it again gives back the
      sheet as stored, and the owner is that company's id and name. */
  lemma StampKeepsSheet(c: Company, x: Sheet)
    ensures Stamp(c, x).(owner := x.owner) == x
    ensures Stamp(c, x).owner == Some(Owner(c.id, c.name))
  {
  }

  /** Every record comes from some company's sheet. */
  lemma {:induction false} FlattenFrom(cs: seq<Company>, i: nat)
    requires i < |Flatten(cs)|
    ensures exists k, j :: 0 <= k < |cs| && 0 <= j < |cs[k].sheets| && Flatten(cs)[i] == Stamp(cs[k], cs[k].sheets[j])
  {
    var n := |cs| - 1;
    var pre := cs[..n];
    if i < |Flatten(pre)| {
      FlattenFrom(pre, i);
      var k, j :| 0 <= k < |pre| && 0 <= j < |pre[k].sheets| && Flatten(pre)[i] == Stamp(pre[k], pre[k].sheets[j]);
      assert cs[k] == pre[k];
      assert Flatten(cs)[i] == Flatten(pre)[i];
    } else {
      var j := i - |Flatten(pre)|;
      assert Flatten(cs)[i] == Tagged(cs[n])[j];
    }
  }

  lemma FlattenEmpty(cs: seq<Company>)
    ensures |cs| == 0 ==> Flatten(cs) == []
    ensures (forall k :: 0 <= k < |cs| ==> cs[k].sheets == []) ==> Flatten(cs) == []
  {
    FlattenLength(cs);
    if forall k :: 0 <= k < |cs| ==> cs[k].sheets == [] {
      ZeroSheets(cs);
    }
  }

  lemma {:induction false} ZeroSheets(cs: seq<Company>)
    requires forall k :: 0 <= k < |cs| ==> cs[k].sheets == []
    ensures TotalSheets(cs) == 0
  {
    if |cs| > 0 {
      ZeroSheets(cs[1..]);
    }
  }
}
