/** The integer parts of the comparison charts
    (src/components/VisualizationPage.jsx): label formatting, the EBITDA
    series, and the chart datasets with their colour cycle. */
module Charts {
  import opened Common
  import opened Text

  // ---------------------------------------------------------------------
  // formatLabel
  // ---------------------------------------------------------------------

  /** `.replace(/([A-Z])/g, " $1")`: a space before every capital. */
  function SpaceCaps(s: string): (r: string)
    ensures |r| >= |s|
  {
    if |s| == 0 then []
    else (if IsUpper(s[0]) then [' ', s[0]] else [s[0]]) + SpaceCaps(s[1..])
  }

  /** `.replace(/^./, str => str.toUpperCase())`. */
  function CapitalizeFirst(t: string): (r: string)
    ensures |r| == |t|
  {
    if |t| == 0 then t else [UpperChar(t[0])] + t[1..]
  }

  /** `formatLabel(label)`. */
  function FormatLabel(s: string): string {
    CapitalizeFirst(Trim(SpaceCaps(s)))
  }

  /** The text with its spaces removed. */
  function DropSpaces(t: string): string {
    if |t| == 0 then [] else (if t[0] == ' ' then [] else [t[0]]) + DropSpaces(t[1..])
  }

  predicate NoSpace(s: string) {
    forall i :: 0 <= i < |s| ==> !IsJsSpace(s[i])
  }

  lemma {:induction false} SpaceCapsAppend(a: string, b: string)
    ensures SpaceCaps(a + b) == SpaceCaps(a) + SpaceCaps(b)
  {
    if |a| > 0 {
      assert (a + b)[0] == a[0];
      assert (a + b)[1..] == a[1..] + b;
      SpaceCapsAppend(a[1..], b);
      var h := if IsUpper(a[0]) then [' ', a[0]] else [a[0]];
      assert SpaceCaps(a + b) == h + (SpaceCaps(a[1..]) + SpaceCaps(b));
      assert SpaceCaps(a) == h + SpaceCaps(a[1..]);
    } else {
      assert a + b == b;
    }
  }

  lemma {:induction false} SpaceCapsOfLower(s: string)
    requires forall i :: 0 <= i < |s| ==> !IsUpper(s[i])
    ensures SpaceCaps(s) == s
  {
    if |s| > 0 {
      SpaceCapsOfLower(s[1..]);
    }
  }

  /** Spacing a non-empty word keeps its last character last. */
  lemma {:induction false} SpaceCapsLast(s: string)
    requires |s| > 0
    ensures |SpaceCaps(s)| > 0 && SpaceCaps(s)[|SpaceCaps(s)| - 1] == s[|s| - 1]
  {
    if |s| > 1 {
      SpaceCapsLast(s[1..]);
    }
  }

  /** Removing the inserted spaces gives back a word without spaces. */
  lemma {:induction false} DropSpaceCaps(s: string)
    requires NoSpace(s)
    ensures DropSpaces(SpaceCaps(s)) == s
  {
    if |s| > 0 {
      var head := if IsUpper(s[0]) then [' ', s[0]] else [s[0]];
      DropSpacesAppend(head, SpaceCaps(s[1..]));
      DropSpaceCaps(s[1..]);
      if IsUpper(s[0]) {
        assert DropSpaces(head) == [s[0]] by {
          assert head[1..] == [s[0]];
        }
      }
    }
  }

  lemma {:induction false} DropSpacesAppend(a: string, b: string)
    ensures DropSpaces(a + b) == DropSpaces(a) + DropSpaces(b)
  {
    if |a| > 0 {
      assert (a + b)[0] == a[0];
      assert (a + b)[1..] == a[1..] + b;
      DropSpacesAppend(a[1..], b);
      var h := if a[0] == ' ' then [] else [a[0]];
      assert DropSpaces(a + b) == h + (DropSpaces(a[1..]) + DropSpaces(b));
      assert DropSpaces(a) == h + DropSpaces(a[1..]);
    } else {
      assert a + b == b;
    }
  }

  /** On a word without white space the trim only removes the space put
      before a leading capital. */
  lemma TrimSpaceCaps(s: string)
    requires |s| > 0 && NoSpace(s)
    ensures Trim(SpaceCaps(s)) == [s[0]] + SpaceCaps(s[1..])
  {
    var t, lead := [s[0]] + SpaceCaps(s[1..]), IsUpper(s[0]);
    SpacedEnds(s);
    assert |t| > 0 && !IsJsSpace(t[0]) && !IsJsSpace(t[|t| - 1]);
    TrimSpaced(t, lead);
    SpaceCapsCons(s);
    assert SpaceCaps(s) == (if lead then [' '] else []) + t;
  }

  lemma SpaceCapsCons(s: string)
    requires |s| > 0
    ensures SpaceCaps(s) == (if IsUpper(s[0]) then [' '] else []) + ([s[0]] + SpaceCaps(s[1..]))
  {
  }

  lemma TrimSpaced(t: string, lead: bool)
    requires |t| > 0 && !IsJsSpace(t[0]) && !IsJsSpace(t[|t| - 1])
    ensures Trim((if lead then [' '] else []) + t) == t
  {
    TrimOfTrimmed(t);
    if lead {
      TrimStartSkipsSpace(t);
    } else {
      assert [] + t == t;
    }
  }

  /** Without its leading space, a spaced word starts and ends with the
      word's own first and last characters. */
  lemma SpacedEnds(s: string)
    requires |s| > 0 && NoSpace(s)
    ensures var t := [s[0]] + SpaceCaps(s[1..]);
            !IsJsSpace(t[0]) && !IsJsSpace(t[|t| - 1])
  {
    var t := [s[0]] + SpaceCaps(s[1..]);
    if |s| > 1 {
      SpaceCapsLast(s[1..]);
      assert s[1..][|s[1..]| - 1] == s[|s| - 1];
      assert t[|t| - 1] == s[|s| - 1];
    }
  }

  lemma TrimStartSkipsSpace(t: string)
    ensures TrimStart([' '] + t) == TrimStart(t)
  {
    assert ([' '] + t)[1..] == t;
  }

  /** For a word without white space, `formatLabel` only inserts spaces and
      upper-cases the first letter: dropping the spaces again gives the
      word with its first letter capitalised. */
  lemma FormatLabelOnlyAddsSpaces(s: string)
    requires NoSpace(s)
    ensures DropSpaces(FormatLabel(s)) == CapitalizeFirst(s)
    ensures |s| > 0 ==> FormatLabel(s) == [UpperChar(s[0])] + SpaceCaps(s[1..])
  {
    if |s| > 0 {
      TrimSpaceCaps(s);
      var t := [s[0]] + SpaceCaps(s[1..]);
      assert CapitalizeFirst(t) == [UpperChar(s[0])] + SpaceCaps(s[1..]);
      DropSpacesAppend([UpperChar(s[0])], SpaceCaps(s[1..]));
      assert s[1..] == s[1..] && NoSpace(s[1..]);
      DropSpaceCaps(s[1..]);
    } else {
      assert SpaceCaps(s) == [];
      TrimOfTrimmed([]);
    }
  }

  predicate IsLetter(c: char) { 'a' <= c <= 'z' || 'A' <= c <= 'Z' }

  lemma LettersHaveNoSpace(s: string)
    requires forall i :: 0 <= i < |s| ==> IsLetter(s[i])
    ensures NoSpace(s)
  {
  }

  /** A lower-case head and tail joined by one capital. */
  lemma FormatTwoWords(h: char, a: string, c: char, b: string)
    requires 'a' <= h <= 'z' && 'A' <= c <= 'Z'
    requires forall i :: 0 <= i < |a| ==> 'a' <= a[i] <= 'z'
    requires forall i :: 0 <= i < |b| ==> 'a' <= b[i] <= 'z'
    ensures FormatLabel([h] + (a + ([c] + b))) == [UpperChar(h)] + (a + ([' ', c] + b))
  {
    var tail := a + ([c] + b);
    var s := [h] + tail;
    assert forall i :: 0 <= i < |s| ==> IsLetter(s[i]);
    LettersHaveNoSpace(s);
    FormatLabelOnlyAddsSpaces(s);
    assert s[1..] == tail;
    SpaceCapsAppend(a, [c] + b);
    SpaceCapsAppend([c], b);
    SpaceCapsOfLower(a);
    SpaceCapsOfLower(b);
    assert SpaceCaps([c]) == [' ', c] by {
      assert [c][1..] == [];
    }
  }

  lemma FormatOneWord(h: char, a: string)
    requires 'a' <= h <= 'z'
    requires forall i :: 0 <= i < |a| ==> 'a' <= a[i] <= 'z'
    ensures FormatLabel([h] + a) == [UpperChar(h)] + a
  {
    var s := [h] + a;
    assert forall i :: 0 <= i < |s| ==> IsLetter(s[i]);
    LettersHaveNoSpace(s);
    FormatLabelOnlyAddsSpaces(s);
    assert s[1..] == a;
    SpaceCapsOfLower(a);
  }

  // ---------------------------------------------------------------------
  // EBITDA
  // ---------------------------------------------------------------------

  /** One statement: its category list and the yearly series per name. */
  datatype Table = Table(categories: seq<string>, values: map<string, seq<int>>)

  datatype ChartCompany = ChartCompany(name: string, balanceSheet: Table, incomeStatement: Table)

  /** The series EBITDA adds up. */
  const EbitdaTerms: seq<string> :=
    ["Net Income", "Interest Expenses", "Income Taxes", "Depreciation", "Amortization"]

  /** The sum at year `i`, or `None` (NaN) when a series is too short. */
  function EbitdaAt(values: map<string, seq<int>>, i: nat): Option<int>
    requires forall t :: t in EbitdaTerms ==> t in values
  {
    var ni := values["Net Income"];
    var ie := values["Interest Expenses"];
    var it := values["Income Taxes"];
    var de := values["Depreciation"];
    var am := values["Amortization"];
    if i < |ni| && i < |ie| && i < |it| && i < |de| && i < |am|
    then Some(ni[i] + ie[i] + it[i] + de[i] + am[i])
    else None
  }

  /** `incomeStatement["Revenue"].map(...)`: `None` when the lookup throws
      (no Revenue series, or a missing term with at least one year). */
  function EbitdaSeries(values: map<string, seq<int>>): (r: Option<seq<Option<int>>>)
    ensures r.Some? <==> "Revenue" in values
                         && (|values["Revenue"]| == 0 || forall t :: t in EbitdaTerms ==> t in values)
    ensures r.Some? ==> |r.value| == |values["Revenue"]|
    ensures r.Some? ==> forall i :: 0 <= i < |r.value| ==> r.value[i] == EbitdaAt(values, i)
  {
    if "Revenue" !in values then None
    else if |values["Revenue"]| == 0 then Some([])
    else if exists t :: t in EbitdaTerms && t !in values then None
    else Some(seq(|values["Revenue"]|, i requires 0 <= i < |values["Revenue"]| => EbitdaAt(values, i)))
  }

  datatype EbitdaEntry = EbitdaEntry(name: string, ebitda: seq<Option<int>>)

  /** `calculateEbitda(companies)`: one entry per company, in order, or
      `None` when some company's lookup throws. */
  function CalculateEbitda(cs: seq<ChartCompany>): (r: Option<seq<EbitdaEntry>>)
    ensures r.Some? <==> forall k :: 0 <= k < |cs| ==> EbitdaSeries(cs[k].incomeStatement.values).Some?
    ensures r.Some? ==> |r.value| == |cs|
    ensures r.Some? ==> forall k :: 0 <= k < |cs| ==>
              r.value[k].name == cs[k].name
              && r.value[k].ebitda == EbitdaSeries(cs[k].incomeStatement.values).value
  {
    if |cs| == 0 then Some([])
    else
      match EbitdaSeries(cs[0].incomeStatement.values)
      case None => None
      case Some(e) =>
        match CalculateEbitda(cs[1..])
        case None => None
        case Some(rest) => Some([EbitdaEntry(cs[0].name, e)] + rest)
  }

  /** Where every series covers every year, each entry is the sum of the
      five terms, and the series is as long as the Revenue series. */
  lemma EbitdaIsTermSum(values: map<string, seq<int>>, i: nat)
    requires "Revenue" in values && forall t :: t in EbitdaTerms ==> t in values && |values[t]| > i
    requires i < |values["Revenue"]|
    ensures EbitdaSeries(values).Some?
    ensures EbitdaSeries(values).value[i]
            == Some(values["Net Income"][i] + values["Interest Expenses"][i] + values["Income Taxes"][i]
                    + values["Depreciation"][i] + values["Amortization"][i])
  {
    assert EbitdaTerms[0] == "Net Income" && EbitdaTerms[1] == "Interest Expenses";
    assert EbitdaTerms[2] == "Income Taxes" && EbitdaTerms[3] == "Depreciation";
    assert EbitdaTerms[4] == "Amortization";
  }

  // ---------------------------------------------------------------------
  // Datasets
  // ---------------------------------------------------------------------

  const Colors: seq<string> := [
    "rgba(75, 192, 192, 0.7)", "rgba(255, 99, 132, 0.7)", "rgba(54, 162, 235, 0.7)",
    "rgba(255, 206, 86, 0.7)", "rgba(153, 102, 255, 0.7)", "rgba(255, 159, 64, 0.7)",
    "rgba(144, 238, 144, 0.7)"]

  /** `colors[index % colors.length]`. */
  function ColorAt(i: nat): string {
    Colors[i % |Colors|]
  }

  datatype Statement = BalanceSheet | IncomeStatement

  function TableOf(c: ChartCompany, t: Statement): Table {
    match t
    case BalanceSheet => c.balanceSheet
    case IncomeStatement => c.incomeStatement
  }

  /** One chart series; `data` is `None` when the category has no series
      (`undefined`). */
  datatype Dataset = Dataset(legend: string, data: Option<seq<int>>, color: string)

  function SeriesOf(tbl: Table, category: string): Option<seq<int>> {
    if category in tbl.values then Some(tbl.values[category]) else None
  }

  /** Two datasets share a colour exactly when their positions are equal
      modulo seven: the seven colours are pairwise distinct. */
  lemma ColorAtEq(i: nat, j: nat)
    ensures ColorAt(i) == ColorAt(j) <==> i % 7 == j % 7
  {
    var a, b := i % 7, j % 7;
    if a != b {
      assert Colors[a] != Colors[b] by {
        assert Colors[a][5] != Colors[b][5] || Colors[a][7] != Colors[b][7] || Colors[a][11] != Colors[b][11];
      }
    }
  }

  /** `generateCompDatasets(companies, category, type)`: one dataset per
      company, in order, labelled "<name> - <category>", holding the
      company's series for that category when it has one, and coloured by
      position. */
  function CompDatasets(cs: seq<ChartCompany>, category: string, t: Statement): (r: seq<Dataset>)
    ensures |r| == |cs|
    ensures forall i :: 0 <= i < |cs| ==>
              && r[i].legend == cs[i].name + " - " + category
              && (r[i].data.Some? <==> category in TableOf(cs[i], t).values)
              && (r[i].data.Some? ==> r[i].data.value == TableOf(cs[i], t).values[category])
              && r[i].color == Colors[i % 7]
  {
    seq(|cs|, i requires 0 <= i < |cs| =>
      Dataset(cs[i].name + " - " + category, SeriesOf(TableOf(cs[i], t), category), ColorAt(i)))
  }

  /** `generateFinDatasets(company, type)`: one dataset per category of the
      statement, in order, labelled with the category, holding its series
      when it has one, and coloured by position. */
  function FinDatasets(c: ChartCompany, t: Statement): (r: seq<Dataset>)
    ensures |r| == |TableOf(c, t).categories|
    ensures forall i :: 0 <= i < |r| ==>
              && r[i].legend == TableOf(c, t).categories[i]
              && (r[i].data.Some? <==> r[i].legend in TableOf(c, t).values)
              && (r[i].data.Some? ==> r[i].data.value == TableOf(c, t).values[r[i].legend])
              && r[i].color == Colors[i % 7]
  {
    var cats := TableOf(c, t).categories;
    seq(|cats|, i requires 0 <= i < |cats| => Dataset(cats[i], SeriesOf(TableOf(c, t), cats[i]), ColorAt(i)))
  }

  /** Read back, a statement's datasets give its category list in order,
      carry data exactly for the categories that have a series, and two of
      them share a colour exactly when they are a multiple of seven apart. */
  lemma FinDatasetsReadBack(c: ChartCompany, t: Statement)
    ensures var r := FinDatasets(c, t);
            seq(|r|, i requires 0 <= i < |r| => r[i].legend) == TableOf(c, t).categories
    ensures var r := FinDatasets(c, t);
            forall i :: 0 <= i < |r| ==> (r[i].data.Some? <==> TableOf(c, t).categories[i] in TableOf(c, t).values)
    ensures var r := FinDatasets(c, t);
            forall i, j :: 0 <= i < j < |r| ==> (r[i].color == r[j].color <==> (j - i) % 7 == 0)
  {
    var r := FinDatasets(c, t);
    forall i, j | 0 <= i < j < |r| ensures r[i].color == r[j].color <==> (j - i) % 7 == 0 {
      ColorAtEq(i, j);
      ModDiff(i, j);
    }
  }

  /** Equal residues modulo seven are the same as a difference divisible
      by seven. */
  lemma ModDiff(i: nat, j: nat)
    requires i < j
    ensures i % 7 == j % 7 <==> (j - i) % 7 == 0
  {
    var q, r := i / 7, i % 7;
    var q2, r2 := j / 7, j % 7;
    assert j - i == 7 * (q2 - q) + (r2 - r);
    if (j - i) % 7 == 0 {
      var k := (j - i) / 7;
      assert 7 * (q2 - q - k) == r - r2;
    }
  }

  /** A company's dataset label starts with its name, so datasets of
      companies with different names (and the same category) carry
      different labels; two datasets share a colour exactly when they are
      a multiple of seven apart. */
  lemma CompDatasetsDistinguishCompanies(cs: seq<ChartCompany>, category: string, t: Statement, i: nat, j: nat)
    requires i < |cs| && j < |cs|
    ensures (CompDatasets(cs, category, t)[i].legend == CompDatasets(cs, category, t)[j].legend)
            <==> cs[i].name == cs[j].name
    ensures i < j ==>
              (CompDatasets(cs, category, t)[i].color == CompDatasets(cs, category, t)[j].color <==> (j - i) % 7 == 0)
  {
    var r := CompDatasets(cs, category, t);
    var suffix := " - " + category;
    assert r[i].legend == cs[i].name + suffix;
    assert r[j].legend == cs[j].name + suffix;
    if r[i].legend == r[j].legend {
      AppendCancel(cs[i].name, cs[j].name, suffix);
    }
    if i < j {
      ColorAtEq(i, j);
      ModDiff(i, j);
    }
  }

  lemma AppendCancel(a: string, b: string, c: string)
    requires a + c == b + c
    ensures a == b
  {
    assert a == (a + c)[..|a|];
    assert b == (b + c)[..|b|];
  }
}
