/** The day picker of the quiz (src/components/GameProgress.jsx): the days
    shown, which of them is disabled or the latest, and which click starts
    a fetch. */
module GameProgress {
  import opened Common

  /** `Array.from({ length: currentDate }, (_, i) => i + 1)`; a length of 0
      or less gives no days. */
  function DaysToShow(currentDate: int): (r: seq<int>)
    ensures |r| == if currentDate > 0 then currentDate else 0
    ensures forall i :: 0 <= i < |r| ==> r[i] == i + 1
  {
    if currentDate <= 0 then [] else seq(currentDate, i requires 0 <= i < currentDate => i + 1)
  }

  predicate IsDisabled(currentDate: int, day: int) { day < currentDate }

  predicate IsLatest(currentDate: int, day: int) { day == currentDate }

  /** `onClick={() => isLatest && handleDayClick(day)}`: the day whose
      problems are fetched, if any. */
  function Click(currentDate: int, day: int): (r: Option<int>)
    ensures r.Some? <==> IsLatest(currentDate, day)
    ensures r.Some? ==> r.value == day
  {
    if day == currentDate then Some(day) else None
  }

  /** The days are 1 up to the current day in ascending order; every
      shown day but the last is disabled, the last one is the only latest
      one, and no day is both. */
  lemma DaysFacts(currentDate: int)
    ensures var d := DaysToShow(currentDate);
            (forall i, j :: 0 <= i < j < |d| ==> d[i] < d[j])
            && (forall x :: x in d <==> 1 <= x <= currentDate)
            && (forall x :: x in d ==> !(IsDisabled(currentDate, x) && IsLatest(currentDate, x)))
            && (forall i :: 0 <= i < |d| - 1 ==> IsDisabled(currentDate, d[i]))
            && (currentDate >= 1 ==> IsLatest(currentDate, d[|d| - 1]))
  {
    var d := DaysToShow(currentDate);
    forall x | 1 <= x <= currentDate ensures x in d {
      assert d[x - 1] == x;
    }
  }

  /** The days of the picker whose click starts a fetch. */
  function Clickable(currentDate: int): (r: seq<int>)
    ensures |r| <= |DaysToShow(currentDate)|
    ensures forall x :: x in r <==> x in DaysToShow(currentDate) && Click(currentDate, x).Some?
  {
    ClickableOf(currentDate, DaysToShow(currentDate))
  }

  function ClickableOf(currentDate: int, days: seq<int>): (r: seq<int>)
    ensures |r| <= |days|
    ensures forall x :: x in r <==> x in days && Click(currentDate, x).Some?
  {
    if |days| == 0 then []
    else
      var rest := ClickableOf(currentDate, days[..|days| - 1]);
      assert forall x :: x in days <==> x in days[..|days| - 1] || x == days[|days| - 1] by {
        assert days == days[..|days| - 1] + [days[|days| - 1]];
      }
      if Click(currentDate, days[|days| - 1]).Some? then rest + [days[|days| - 1]] else rest
  }

  lemma {:induction false} ClickableOfDistinct(currentDate: int, days: seq<int>)
    requires forall i, j :: 0 <= i < j < |days| ==> days[i] != days[j]
    ensures ClickableOf(currentDate, days) == if currentDate in days then [currentDate] else []
  {
    if |days| > 0 {
      var pre := days[..|days| - 1];
      ClickableOfDistinct(currentDate, pre);
      assert days == pre + [days[|days| - 1]];
      if days[|days| - 1] == currentDate {
        assert currentDate !in pre by {
          forall k | 0 <= k < |pre| ensures pre[k] != currentDate {
            assert pre[k] == days[k];
          }
        }
      }
    }
  }

  /** Exactly the current day can be clicked when there is one; none when
      the current day is 0 or less. */
  lemma ClickableIsCurrentDay(currentDate: int)
    ensures currentDate >= 1 ==> Clickable(currentDate) == [currentDate]
    ensures currentDate < 1 ==> Clickable(currentDate) == []
  {
    var d := DaysToShow(currentDate);
    DaysFacts(currentDate);
    ClickableOfDistinct(currentDate, d);
    var r := Clickable(currentDate);
    if currentDate >= 1 {
      assert currentDate in d;
    }
  }
}
