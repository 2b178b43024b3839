/** Lists of sheets as the workspace keeps them (src/App.jsx): the stable
    `sort((a, b) => a.year - b.year)`, uniqueness of ids and years, the
    `Math.max(...) + 1` fresh id, and `filter` by id. */
module YearSort {
  import opened Common
  import opened Sheets

  predicate SortedByYear(s: seq<Sheet>) {
    forall i, j :: 0 <= i < j < |s| ==> s[i].year <= s[j].year
  }

  /** Inserting `x` after every element whose year is not greater, which is
      where a stable sort leaves an element that came last. */
  function InsertByYear(t: seq<Sheet>, x: Sheet): (r: seq<Sheet>)
    ensures multiset(r) == multiset(t) + multiset{x}
    ensures |r| == |t| + 1
  {
    if |t| == 0 then [x]
    else if t[|t| - 1].year <= x.year then t + [x]
    else
      assert t == t[..|t| - 1] + [t[|t| - 1]];
      InsertByYear(t[..|t| - 1], x) + [t[|t| - 1]]
  }

  lemma {:induction false} InsertByYearSorted(t: seq<Sheet>, x: Sheet)
    requires SortedByYear(t)
    ensures SortedByYear(InsertByYear(t, x))
  {
    if |t| > 0 && t[|t| - 1].year > x.year {
      var last := t[|t| - 1];
      var u := InsertByYear(t[..|t| - 1], x);
      InsertByYearSorted(t[..|t| - 1], x);
      forall k | 0 <= k < |u| ensures u[k].year <= last.year {
        assert u[k] in multiset(u);
        if u[k] != x {
          assert u[k] in t[..|t| - 1];
        }
      }
    }
  }

  /** `sheets.sort((a, b) => a.year - b.year)`: ascending years, the same
      sheets. */
  function SortByYear(s: seq<Sheet>): (r: seq<Sheet>)
    ensures multiset(r) == multiset(s)
    ensures |r| == |s|
    ensures SortedByYear(r)
  {
    if |s| == 0 then []
    else
      assert s == s[..|s| - 1] + [s[|s| - 1]];
      InsertByYearSorted(SortByYear(s[..|s| - 1]), s[|s| - 1]);
      InsertByYear(SortByYear(s[..|s| - 1]), s[|s| - 1])
  }

  /** The sort is stable: a list already in year order comes back as it
      was. */
  lemma {:induction false} SortOfSorted(s: seq<Sheet>)
    requires SortedByYear(s)
    ensures SortByYear(s) == s
  {
    if |s| > 0 {
      var pre, last := s[..|s| - 1], s[|s| - 1];
      SortedPrefix(s);
      SortOfSorted(pre);
      SortByYearSnoc(s);
      InsertAfterLast(pre, last);
      assert s == pre + [last];
    }
  }

  lemma SortedPrefix(s: seq<Sheet>)
    requires SortedByYear(s) && |s| > 0
    ensures SortedByYear(s[..|s| - 1])
    ensures |s| > 1 ==> s[|s| - 2].year <= s[|s| - 1].year
  {
  }

  lemma SortByYearSnoc(s: seq<Sheet>)
    requires |s| > 0
    ensures SortByYear(s) == InsertByYear(SortByYear(s[..|s| - 1]), s[|s| - 1])
  {
  }

  /** An element no earlier than the last one goes at the end. */
  lemma InsertAfterLast(t: seq<Sheet>, x: Sheet)
    requires |t| > 0 ==> t[|t| - 1].year <= x.year
    ensures InsertByYear(t, x) == t + [x]
  {
  }

  // ---------------------------------------------------------------------
  // Uniqueness
  // ---------------------------------------------------------------------

  datatype Key = ById | ByYear

  function KeyOf(x: Sheet, k: Key): int {
    match k
    case ById => x.id
    case ByYear => x.year
  }

  predicate UniqueBy(s: seq<Sheet>, k: Key) {
    forall i, j :: 0 <= i < j < |s| ==> KeyOf(s[i], k) != KeyOf(s[j], k)
  }

  predicate KeyFresh(s: seq<Sheet>, k: Key, v: int) {
    forall i :: 0 <= i < |s| ==> KeyOf(s[i], k) != v
  }

  lemma {:induction false} InsertByYearUnique(t: seq<Sheet>, x: Sheet, k: Key)
    requires UniqueBy(t, k) && KeyFresh(t, k, KeyOf(x, k))
    ensures UniqueBy(InsertByYear(t, x), k)
  {
    if |t| > 0 && t[|t| - 1].year > x.year {
      var last := t[|t| - 1];
      var u := InsertByYear(t[..|t| - 1], x);
      InsertByYearUnique(t[..|t| - 1], x, k);
      forall p | 0 <= p < |u| ensures KeyOf(u[p], k) != KeyOf(last, k) {
        assert u[p] in multiset(u);
        if u[p] != x {
          assert u[p] in t[..|t| - 1];
        }
      }
    }
  }

  /** Sorting keeps ids and years unique. */
  lemma {:induction false} SortByYearUnique(s: seq<Sheet>, k: Key)
    requires UniqueBy(s, k)
    ensures UniqueBy(SortByYear(s), k)
  {
    if |s| > 0 {
      var pre := s[..|s| - 1];
      var t := SortByYear(pre);
      SortByYearUnique(pre, k);
      forall p | 0 <= p < |t| ensures KeyOf(t[p], k) != KeyOf(s[|s| - 1], k) {
        assert t[p] in multiset(pre);
      }
      InsertByYearUnique(t, s[|s| - 1], k);
    }
  }

  /** A key absent from a list is absent from its sorted form. */
  lemma SortByYearFresh(s: seq<Sheet>, k: Key, v: int)
    requires KeyFresh(s, k, v)
    ensures KeyFresh(SortByYear(s), k, v)
  {
    var r := SortByYear(s);
    forall p | 0 <= p < |r| ensures KeyOf(r[p], k) != v {
      assert r[p] in multiset(s);
    }
  }

  // ---------------------------------------------------------------------
  // Fresh ids
  // ---------------------------------------------------------------------

  /** `Math.max(...sheets.map(s => s[key]))` on a non-empty list. */
  function MaxKey(s: seq<Sheet>, k: Key): (m: int)
    requires |s| > 0
    ensures forall i :: 0 <= i < |s| ==> KeyOf(s[i], k) <= m
    ensures exists i :: 0 <= i < |s| && KeyOf(s[i], k) == m
  {
    if |s| == 1 then KeyOf(s[0], k)
    else
      var m := MaxKey(s[..|s| - 1], k);
      assert forall i :: 0 <= i < |s| - 1 ==> s[..|s| - 1][i] == s[i];
      if KeyOf(s[|s| - 1], k) > m then KeyOf(s[|s| - 1], k) else m
  }

  /** `length ? Math.max(...ids) + 1 : 1`. */
  function NextSheetId(s: seq<Sheet>): (id: int)
    ensures KeyFresh(s, ById, id)
    ensures |s| == 0 ==> id == 1
    ensures |s| > 0 ==> forall i :: 0 <= i < |s| ==> KeyOf(s[i], ById) < id
    ensures |s| > 0 ==> exists i :: 0 <= i < |s| && KeyOf(s[i], ById) == id - 1
  {
    if |s| > 0 then MaxKey(s, ById) + 1 else 1
  }

  // ---------------------------------------------------------------------
  // Filtering and replacing by id
  // ---------------------------------------------------------------------

  /** `sheets.filter(sheet => sheet.id !== sheetId)`. */
  function WithoutSheet(s: seq<Sheet>, sheetId: int): (r: seq<Sheet>)
    ensures forall x :: x in r <==> x in s && x.id != sheetId
    ensures |r| <= |s|
  {
    if |s| == 0 then []
    else
      var t := WithoutSheet(s[..|s| - 1], sheetId);
      assert forall x :: x in s <==> x in s[..|s| - 1] || x == s[|s| - 1] by {
        assert s == s[..|s| - 1] + [s[|s| - 1]];
      }
      if s[|s| - 1].id != sheetId then t + [s[|s| - 1]] else t
  }

  /** Filtering keeps the year order and the uniqueness of keys. */
  lemma WithoutSheetKeepsOrder(s: seq<Sheet>, sheetId: int, k: Key)
    ensures SortedByYear(s) ==> SortedByYear(WithoutSheet(s, sheetId))
    ensures UniqueBy(s, k) ==> UniqueBy(WithoutSheet(s, sheetId), k)
  {
    if SortedByYear(s) {
      WithoutSheetSorted(s, sheetId);
    }
    if UniqueBy(s, k) {
      WithoutSheetUnique(s, sheetId, k);
    }
  }

  lemma {:induction false} WithoutSheetSorted(s: seq<Sheet>, sheetId: int)
    requires SortedByYear(s)
    ensures SortedByYear(WithoutSheet(s, sheetId))
  {
    if |s| > 0 {
      var pre, last := s[..|s| - 1], s[|s| - 1];
      assert SortedByYear(pre);
      WithoutSheetSorted(pre, sheetId);
      var t := WithoutSheet(pre, sheetId);
      forall p | 0 <= p < |t| ensures t[p].year <= last.year {
        assert t[p] in pre;
      }
    }
  }

  lemma {:induction false} WithoutSheetUnique(s: seq<Sheet>, sheetId: int, k: Key)
    requires UniqueBy(s, k)
    ensures UniqueBy(WithoutSheet(s, sheetId), k)
  {
    if |s| > 0 {
      var pre, last := s[..|s| - 1], s[|s| - 1];
      assert UniqueBy(pre, k);
      WithoutSheetUnique(pre, sheetId, k);
      var t := WithoutSheet(pre, sheetId);
      forall p | 0 <= p < |t| ensures KeyOf(t[p], k) != KeyOf(last, k) {
        assert t[p] in pre;
      }
    }
  }

  /** `sheets.map(sheet => sheet.id === u.id ? u : sheet)`. */
  function ReplaceSheet(s: seq<Sheet>, u: Sheet): (r: seq<Sheet>)
    ensures |r| == |s|
    ensures forall i :: 0 <= i < |s| ==> r[i] == (if s[i].id == u.id then u else s[i])
  {
    seq(|s|, i requires 0 <= i < |s| => if s[i].id == u.id then u else s[i])
  }

  /** Replacing by id keeps ids unique, and keeps years unique when no
      other sheet already has the new year. */
  lemma ReplaceSheetUnique(s: seq<Sheet>, u: Sheet)
    requires UniqueBy(s, ById) && UniqueBy(s, ByYear)
    requires forall i :: 0 <= i < |s| && s[i].id != u.id ==> s[i].year != u.year
    ensures UniqueBy(ReplaceSheet(s, u), ById) && UniqueBy(ReplaceSheet(s, u), ByYear)
  {
  }
}
