/** What the quiz screens record per question, and the result screen that
    tallies them (src/components/GameEnd.jsx). */
module Quiz {
  import opened Common

  /** An answer as the screens store it: option text, a boolean, `null`
      (nothing selected), or `undefined` (an option index with no
      option). */
  datatype Value = Str(text: string) | Boolean(b: bool) | Null | Undefined

  /** One result entry. Entries of the option quiz carry no explanation. */
  datatype Entry = Entry(
    id: int,
    questionText: string,
    userAnswer: Value,
    correctAnswer: Value,
    isCorrect: bool,
    explanation: Option<string>)

  /** `options[k]`. */
  function OptionAt(options: seq<string>, k: int): (r: Value)
    ensures r.Undefined? <==> !(0 <= k < |options|)
    ensures 0 <= k < |options| ==> r == Str(options[k])
  {
    if 0 <= k < |options| then Str(options[k]) else Undefined
  }

  /** Where `handleNext` goes from question `index` of `total`: the next
      question, or game over with the index left where it was. */
  datatype Move = Continue(index: nat) | Finished

  function Advance(index: nat, total: nat): (m: Move)
    ensures m.Continue? <==> index + 1 < total
    ensures m.Continue? ==> m.index == index + 1
  {
    if index + 1 < total then Continue(index + 1) else Finished
  }

  /** `currentIndex < totalQuestions - 1 ? currentIndex + 1 : 0`. */
  function Wrap(index: int, total: int): (r: int)
    requires 0 <= index < total
    ensures 0 <= r < total
    ensures index + 1 < total ==> r == index + 1
    ensures index + 1 == total ==> r == 0
  {
    if index < total - 1 then index + 1 else 0
  }
}

module GameEnd {
  import opened Common
  import opened Quiz

  /** `formatAnswer`: booleans become "True"/"False"; anything else is
      shown as it is. */
  function FormatAnswer(v: Value): (r: Value)
    ensures !r.Boolean?
    ensures v.Boolean? ==> r == Str(if v.b then "True" else "False")
    ensures !v.Boolean? ==> r == v
  {
    match v
    case Boolean(b) => if b then Str("True") else Str("False")
    case _ => v
  }

  /** Formatting twice is formatting once, and distinct booleans stay
      distinct. */
  lemma FormatAnswerFacts(v: Value, w: Value)
    ensures FormatAnswer(FormatAnswer(v)) == FormatAnswer(v)
    ensures v.Boolean? && w.Boolean? ==> (FormatAnswer(v) == FormatAnswer(w) <==> v == w)
  {
  }

  /** `results.filter(r => r.isCorrect).length`. */
  function CorrectCount(rs: seq<Entry>): nat {
    if |rs| == 0 then 0
    else CorrectCount(rs[..|rs| - 1]) + (if rs[|rs| - 1].isCorrect then 1 else 0)
  }

  /** `results.filter(r => !r.isCorrect)`. */
  function WrongResults(rs: seq<Entry>): seq<Entry> {
    if |rs| == 0 then []
    else WrongResults(rs[..|rs| - 1]) + (if rs[|rs| - 1].isCorrect then [] else [rs[|rs| - 1]])
  }

  /** The positions of the wrong entries, ascending. */
  function WrongIndices(rs: seq<Entry>): (ix: seq<nat>)
    ensures |ix| == |WrongResults(rs)|
    ensures forall k :: 0 <= k < |ix| ==> ix[k] < |rs|
  {
    if |rs| == 0 then []
    else WrongIndices(rs[..|rs| - 1]) + (if rs[|rs| - 1].isCorrect then [] else [|rs| - 1])
  }

  /** Every entry is counted as correct or listed as wrong, never both. */
  lemma {:induction false} CountsAddUp(rs: seq<Entry>)
    ensures CorrectCount(rs) + |WrongResults(rs)| == |rs|
  {
    if |rs| > 0 {
      CountsAddUp(rs[..|rs| - 1]);
    }
  }

  /** Entry `k` of the wrong list is the entry at position
      `WrongIndices(rs)[k]` of the results. */
  lemma {:induction false} WrongPicks(rs: seq<Entry>)
    ensures forall k :: 0 <= k < |WrongIndices(rs)| ==> WrongResults(rs)[k] == rs[WrongIndices(rs)[k]]
  {
    if |rs| > 0 {
      var pre := rs[..|rs| - 1];
      WrongPicks(pre);
      var ix, ixp := WrongIndices(rs), WrongIndices(pre);
      var ws, wsp := WrongResults(rs), WrongResults(pre);
      forall k | 0 <= k < |ix| ensures ws[k] == rs[ix[k]] {
        if k < |ixp| {
          assert ws[k] == wsp[k] == pre[ixp[k]];
          assert ix[k] == ixp[k];
        }
      }
    }
  }

  /** The positions ascend. */
  lemma {:induction false} WrongAscending(rs: seq<Entry>)
    ensures forall k, l :: 0 <= k < l < |WrongIndices(rs)| ==> WrongIndices(rs)[k] < WrongIndices(rs)[l]
  {
    if |rs| > 0 {
      WrongAscending(rs[..|rs| - 1]);
    }
  }

  /** The positions are exactly those of the wrong entries. */
  lemma {:induction false} WrongExactly(rs: seq<Entry>)
    ensures forall i :: 0 <= i < |rs| ==> (!rs[i].isCorrect <==> i in WrongIndices(rs))
  {
    if |rs| > 0 {
      var pre := rs[..|rs| - 1];
      var last := |rs| - 1;
      WrongExactly(pre);
      var ix, ixp := WrongIndices(rs), WrongIndices(pre);
      assert last !in ixp;
      forall i | 0 <= i < |rs| ensures !rs[i].isCorrect <==> i in ix {
        if i < last {
          assert rs[i] == pre[i];
          assert i in ix <==> i in ixp;
        }
      }
    }
  }

  /** The wrong list is exactly the entries with `isCorrect` false, in
      their original order: entry `k` of it is entry `WrongIndices(rs)[k]`
      of the results, those positions ascend, and they are exactly the
      positions of wrong entries. */
  lemma WrongInOrder(rs: seq<Entry>)
    ensures |WrongIndices(rs)| == |WrongResults(rs)|
    ensures forall k :: 0 <= k < |WrongIndices(rs)| ==>
              WrongIndices(rs)[k] < |rs| && WrongResults(rs)[k] == rs[WrongIndices(rs)[k]]
    ensures forall k, l :: 0 <= k < l < |WrongIndices(rs)| ==> WrongIndices(rs)[k] < WrongIndices(rs)[l]
    ensures forall i :: 0 <= i < |rs| ==> (!rs[i].isCorrect <==> i in WrongIndices(rs))
  {
    WrongPicks(rs);
    WrongAscending(rs);
    WrongExactly(rs);
  }

  /** "All answers are correct" is shown exactly when nothing is wrong,
      that is when every entry is correct. */
  predicate ShowsAllCorrect(rs: seq<Entry>) {
    |WrongResults(rs)| == 0
  }

  lemma AllCorrectIff(rs: seq<Entry>)
    ensures ShowsAllCorrect(rs) <==> forall i :: 0 <= i < |rs| ==> rs[i].isCorrect
    ensures ShowsAllCorrect(rs) <==> CorrectCount(rs) == |rs|
  {
    WrongInOrder(rs);
    CountsAddUp(rs);
    if !ShowsAllCorrect(rs) {
      assert WrongIndices(rs)[0] in WrongIndices(rs);
    }
  }

  // ---------------------------------------------------------------------
  // Reviewing a wrong answer
  // ---------------------------------------------------------------------

  /** A button per wrong entry sets the review index; "Close Review"
      clears it. */
  datatype ReviewEvent = Review(idx: int) | CloseReview

  function ReviewStep(rs: seq<Entry>, review: Option<nat>, e: ReviewEvent): Option<nat> {
    match e
    case Review(k) => if 0 <= k < |WrongResults(rs)| then Some(k) else review
    case CloseReview => None
  }

  function ReviewReplay(rs: seq<Entry>, evs: seq<ReviewEvent>): Option<nat> {
    if |evs| == 0 then None
    else ReviewStep(rs, ReviewReplay(rs, evs[..|evs| - 1]), evs[|evs| - 1])
  }

  /** Starting from none, the review index only ever points into the wrong
      list, and is none right after "Close Review". */
  lemma {:induction false} ReviewInRange(rs: seq<Entry>, evs: seq<ReviewEvent>)
    ensures ReviewReplay(rs, evs).Some? ==> ReviewReplay(rs, evs).value < |WrongResults(rs)|
    ensures |evs| > 0 && evs[|evs| - 1].CloseReview? ==> ReviewReplay(rs, evs).None?
  {
    if |evs| > 0 {
      ReviewInRange(rs, evs[..|evs| - 1]);
    }
  }

  /** What the review panel shows: the entry's id in the heading, its
      question, both answers formatted, and the explanation when it is a
      non-empty string (an empty or missing one renders nothing). */
  datatype Panel = Panel(
    id: int,
    question: string,
    yours: Value,
    correct: Value,
    explanation: Option<string>)

  /** The panel for review index `k` describes the `k`-th wrong entry of
      the results, that is the entry at position `WrongIndices(rs)[k]`. */
  function ReviewPanel(rs: seq<Entry>, review: Option<nat>): (r: Option<Panel>)
    requires review.Some? ==> review.value < |WrongResults(rs)|
    ensures r.Some? <==> review.Some?
    ensures r.Some? ==>
              var e := rs[WrongIndices(rs)[review.value]];
              && !e.isCorrect
              && r.value.id == e.id
              && r.value.question == e.questionText
              && r.value.yours == FormatAnswer(e.userAnswer)
              && r.value.correct == FormatAnswer(e.correctAnswer)
              && (r.value.explanation.Some? <==> e.explanation.Some? && e.explanation.value != "")
              && (r.value.explanation.Some? ==> r.value.explanation == e.explanation)
  {
    match review
    case None => None
    case Some(k) =>
      WrongInOrder(rs);
      var e := WrongResults(rs)[k];
      assert !e.isCorrect by {
        assert WrongIndices(rs)[k] in WrongIndices(rs);
      }
      var shown := if e.explanation.Some? && e.explanation.value != "" then e.explanation else None;
      Some(Panel(e.id, e.questionText, FormatAnswer(e.userAnswer), FormatAnswer(e.correctAnswer), shown))
  }
}
