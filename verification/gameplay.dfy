/** The multiple-choice quiz (src/components/GamePlay1.jsx): one locked
    pick per question, a result entry per "Next", and the result screen at
    the end. */
module OptionQuiz {
  import opened Common
  import opened Quiz
  import opened GameEnd

  datatype Question = Question(id: int, text: string, options: seq<string>, correct: int)

  datatype State = State(index: nat, selected: Option<int>, results: seq<Entry>, gameOver: bool)

  const Init: State := State(0, None, [], false)

  /** The entry `handleNext` records for a pick of option `sel`. */
  function EntryFor(q: Question, sel: int): (e: Entry)
    ensures e.id == q.id && e.questionText == q.text
    ensures e.userAnswer == OptionAt(q.options, sel)
    ensures e.correctAnswer == OptionAt(q.options, q.correct)
    ensures e.isCorrect <==> sel == q.correct
    ensures e.explanation.None?
  {
    Entry(q.id, q.text, OptionAt(q.options, sel), OptionAt(q.options, q.correct), sel == q.correct, None)
  }

  /** `handleOptionClick`: the first pick sticks. Once the game is over the
      result screen replaces the options. */
  function ClickOption(st: State, k: int): (r: State)
    ensures st.gameOver || st.selected.Some? ==> r == st
    ensures !st.gameOver && st.selected.None? ==> r == st.(selected := Some(k))
  {
    if st.gameOver || st.selected.Some? then st else st.(selected := Some(k))
  }

  /** A second pick never changes the first. */
  lemma SelectionLocks(st: State, a: int, b: int)
    ensures ClickOption(ClickOption(st, a), b) == ClickOption(st, a)
  {
  }

  /** `handleNext`, whose button exists only once an option is picked. */
  function Next(qs: seq<Question>, st: State): State
    requires st.index < |qs|
  {
    if st.gameOver || st.selected.None? then st
    else
      var e := EntryFor(qs[st.index], st.selected.value);
      match Advance(st.index, |qs|)
      case Continue(i) => State(i, None, st.results + [e], false)
      case Finished => st.(selected := None, results := st.results + [e], gameOver := true)
  }

  /** Entry `i` of the results describes question `i`. */
  ghost predicate Records(e: Entry, q: Question) {
    exists sel :: e == EntryFor(q, sel)
  }

  /** While playing there is one entry per question passed; at game over
      there is one per question and the last question is still current. */
  ghost predicate Valid(qs: seq<Question>, st: State) {
    && st.index < |qs|
    && (!st.gameOver ==> |st.results| == st.index)
    && (st.gameOver ==> |st.results| == |qs| && st.index == |qs| - 1 && st.selected.None?)
    && forall i :: 0 <= i < |st.results| ==> Records(st.results[i], qs[i])
  }

  /** "Next" records exactly one entry for the current question and clears
      the pick; it moves to the next question, or ends the game on the
      last one. */
  lemma NextEffect(qs: seq<Question>, st: State)
    requires Valid(qs, st) && !st.gameOver && st.selected.Some?
    ensures var r := Next(qs, st);
            && r.results == st.results + [EntryFor(qs[st.index], st.selected.value)]
            && r.selected.None?
            && (st.index + 1 < |qs| ==> r.index == st.index + 1 && !r.gameOver)
            && (st.index + 1 == |qs| ==> r.index == st.index && r.gameOver)
  {
  }

  lemma NextValid(qs: seq<Question>, st: State)
    requires Valid(qs, st)
    ensures Valid(qs, Next(qs, st))
  {
    if !st.gameOver && st.selected.Some? {
      var r := Next(qs, st);
      var e := EntryFor(qs[st.index], st.selected.value);
      assert r.results == st.results + [e];
      forall i | 0 <= i < |r.results| ensures Records(r.results[i], qs[i]) {
        if i < |st.results| {
          assert r.results[i] == st.results[i];
        } else {
          assert r.results[i] == EntryFor(qs[i], st.selected.value);
        }
      }
    }
  }

  datatype Event = Click(option: int) | NextQuestion

  function Step(qs: seq<Question>, st: State, e: Event): State
    requires st.index < |qs|
  {
    match e
    case Click(k) => ClickOption(st, k)
    case NextQuestion => Next(qs, st)
  }

  /** The state after any run of clicks: always valid, so at game over the
      result screen gets one entry per question, question by question. */
  function Replay(qs: seq<Question>, evs: seq<Event>): (r: State)
    requires |qs| > 0
    ensures Valid(qs, r)
    ensures r.gameOver ==> |r.results| == |qs|
  {
    if |evs| == 0 then Init
    else
      var p := Replay(qs, evs[..|evs| - 1]);
      NextValid(qs, p);
      Step(qs, p, evs[|evs| - 1])
  }

  // ---------------------------------------------------------------------
  // Option colours
  // ---------------------------------------------------------------------

  datatype Style = Neutral | Blue | Red

  /** `getOptionStyle(optionIndex)`. */
  function OptionStyle(selected: Option<int>, correct: int, k: int): Style {
    if selected.None? then Neutral
    else if k == selected.value && k == correct then Blue
    else if k == selected.value then Red
    else if selected.value != correct && k == correct then Blue
    else Neutral
  }

  /** Nothing picked: all neutral. A right pick: only it is blue. A wrong
      pick: it is red, the right option is blue, the rest neutral. */
  lemma OptionStyleFacts(selected: Option<int>, correct: int, k: int)
    ensures selected.None? ==> OptionStyle(selected, correct, k) == Neutral
    ensures selected == Some(correct) ==>
              (OptionStyle(selected, correct, k) == Blue <==> k == correct)
              && OptionStyle(selected, correct, k) != Red
    ensures selected.Some? && selected.value != correct ==>
              (OptionStyle(selected, correct, k) == Red <==> k == selected.value)
              && (OptionStyle(selected, correct, k) == Blue <==> k == correct)
  {
  }
}

/** The practice loop (src/components/GamePlay.jsx): ten questions, a
    locked pick, "Next" that wraps back to the first question, and the
    settings modal's open flag. */
module PracticeLoop {
  import opened Common
  import opened Quiz

  const Total: int := 10

  datatype State = State(index: int, selected: Option<int>, modalOpen: bool)

  datatype Event = Click(option: int) | NextQuestion | OpenModal | CloseModal | EndSession

  /** A pick and "Next" leave the modal flag alone; the settings button
      opens the modal, and both its close and its end-session buttons
      close it without touching the question or the pick. */
  function Step(st: State, e: Event): (r: State)
    requires 0 <= st.index < Total
    ensures 0 <= r.index < Total
    ensures e.Click? ==> r.index == st.index && (st.selected.Some? ==> r == st)
    ensures e.NextQuestion? && st.selected.Some? ==> r.selected.None?
    ensures e.Click? || e.NextQuestion? ==> r.modalOpen == st.modalOpen
    ensures e.OpenModal? ==> r == st.(modalOpen := true)
    ensures e.CloseModal? || e.EndSession? ==> r == st.(modalOpen := false)
  {
    match e
    case Click(k) => if st.selected.Some? then st else st.(selected := Some(k))
    case NextQuestion =>
      // the button exists only once an option is picked
      if st.selected.None? then st else st.(index := Wrap(st.index, Total), selected := None)
    case OpenModal => st.(modalOpen := true)
    case CloseModal => st.(modalOpen := false)
    case EndSession => st.(modalOpen := false)
  }

  function Replay(evs: seq<Event>): (r: State)
    ensures 0 <= r.index < Total
  {
    if |evs| == 0 then State(0, None, false)
    else Step(Replay(evs[..|evs| - 1]), evs[|evs| - 1])
  }

  /** "Next" on a picked last question starts over at the first. */
  lemma NextWraps(st: State)
    requires st.index == Total - 1 && st.selected.Some?
    ensures Step(st, NextQuestion) == State(0, None, st.modalOpen)
  {
  }
}

/** The numeric-answer quiz (src/components/GamePlay2.jsx): typed answers,
    submit, "Next" with wrap-around, and the help and settings flags. */
module NumericQuiz {
  import opened Quiz

  datatype State = State(index: int, answer: string, submitted: bool, showHelp: bool, modalOpen: bool)

  const Init: State := State(0, "", false, false, false)

  datatype Event =
    | Type(text: string) | Submit | NextQuestion
    | ToggleHelp | OpenModal | CloseModal | EndSession

  /** The input and the submit button live in the form shown before
      submitting; "Next" lives in the feedback shown after. */
  function Step(total: int, st: State, e: Event): (r: State)
    requires 0 <= st.index < total
  {
    match e
    case Type(t) => if st.submitted then st else st.(answer := t)
    case Submit => if st.submitted || st.answer == "" then st else st.(submitted := true)
    case NextQuestion =>
      if !st.submitted then st
      else st.(submitted := false, answer := "", index := Wrap(st.index, total))
    case ToggleHelp => st.(showHelp := !st.showHelp)
    case OpenModal => st.(modalOpen := true)
    case CloseModal => st.(modalOpen := false)
    case EndSession => st.(modalOpen := false)
  }

  predicate Valid(total: int, st: State) {
    0 <= st.index < total && (st.submitted ==> st.answer != "")
  }

  /** An empty answer is never submitted; a non-empty one is; "Next"
      clears the answer and the submission; the help toggle flips; the
      modal buttons set the flag; and every step keeps the index in range
      and never leaves an empty answer submitted. */
  lemma StepFacts(total: int, st: State, e: Event)
    requires Valid(total, st)
    ensures Valid(total, Step(total, st, e))
    ensures e.Submit? && st.answer == "" ==> Step(total, st, e) == st
    ensures e.Submit? && st.answer != "" ==> Step(total, st, e).submitted
    ensures e.NextQuestion? && st.submitted ==>
              !Step(total, st, e).submitted && Step(total, st, e).answer == ""
    ensures e.ToggleHelp? ==> Step(total, st, e).showHelp == !st.showHelp
    ensures e.OpenModal? ==> Step(total, st, e).modalOpen
    ensures e.CloseModal? || e.EndSession? ==> !Step(total, st, e).modalOpen
  {
  }

  function Replay(total: int, evs: seq<Event>): (r: State)
    requires total > 0
    ensures Valid(total, r)
  {
    if |evs| == 0 then Init
    else
      var p := Replay(total, evs[..|evs| - 1]);
      StepFacts(total, p, evs[|evs| - 1]);
      Step(total, p, evs[|evs| - 1])
  }
}

/** The true/false quiz (src/components/GamePlay3.jsx): one answer per
    question, a result entry per "Next", and the result screen at the
    end. */
module TrueFalseQuiz {
  import opened Common
  import opened Quiz

  datatype Question = Question(id: int, text: string, answer: bool, explanation: string)

  datatype State = State(index: nat, selected: Option<bool>, submitted: bool, results: seq<Entry>, gameOver: bool)

  const Init: State := State(0, None, false, [], false)

  function AsValue(x: Option<bool>): Value {
    match x
    case Some(b) => Boolean(b)
    case None => Null
  }

  /** `checkAnswer`: `null` never equals a boolean. */
  predicate CheckAnswer(q: Question, selected: Option<bool>) {
    selected == Some(q.answer)
  }

  /** `handleAnswer`, whose buttons are shown only before submitting. */
  function Answer(st: State, b: bool): (r: State)
    ensures !st.gameOver && !st.submitted ==> r == st.(selected := Some(b), submitted := true)
    ensures st.gameOver || st.submitted ==> r == st
  {
    if st.gameOver || st.submitted then st else st.(selected := Some(b), submitted := true)
  }

  /** Once answered, a question's answer is locked: a second press
      changes nothing. */
  lemma AnswerLocks(st: State, a: bool, b: bool)
    ensures Answer(Answer(st, a), b) == Answer(st, a)
    ensures !st.gameOver && !st.submitted ==> Answer(st, a).selected == Some(a)
  {
  }

  function EntryFor(q: Question, selected: Option<bool>): (e: Entry)
    ensures e.id == q.id && e.questionText == q.text
    ensures e.userAnswer == AsValue(selected) && e.correctAnswer == Boolean(q.answer)
    ensures e.isCorrect <==> CheckAnswer(q, selected)
    ensures e.explanation == Some(q.explanation)
  {
    Entry(q.id, q.text, AsValue(selected), Boolean(q.answer), selected == Some(q.answer), Some(q.explanation))
  }

  /** `handleNext`, whose button is shown only after submitting. */
  function Next(qs: seq<Question>, st: State): State
    requires st.index < |qs|
  {
    if st.gameOver || !st.submitted then st
    else
      var e := EntryFor(qs[st.index], st.selected);
      match Advance(st.index, |qs|)
      case Continue(i) => State(i, None, false, st.results + [e], false)
      case Finished => st.(selected := None, submitted := false, results := st.results + [e], gameOver := true)
  }

  predicate Valid(qs: seq<Question>, st: State) {
    && st.index < |qs|
    && (st.submitted <==> st.selected.Some?)
    && (!st.gameOver ==> |st.results| == st.index)
    && (st.gameOver ==> |st.results| == |qs| && st.index == |qs| - 1 && !st.submitted)
    && forall i :: 0 <= i < |st.results| ==>
         exists b: bool :: st.results[i] == EntryFor(qs[i], Some(b))
  }

  datatype Event = Pick(answer: bool) | NextQuestion

  function Step(qs: seq<Question>, st: State, e: Event): State
    requires st.index < |qs|
  {
    match e
    case Pick(b) => Answer(st, b)
    case NextQuestion => Next(qs, st)
  }

  /** "Next" after answering records the answer given, the question's own
      answer and explanation, and whether they agree; then the
      submission and the pick are cleared. */
  lemma NextValid(qs: seq<Question>, st: State)
    requires Valid(qs, st)
    ensures Valid(qs, Next(qs, st))
    ensures !st.gameOver && st.submitted ==>
              var r := Next(qs, st);
              && r.results == st.results + [EntryFor(qs[st.index], st.selected)]
              && !r.submitted && r.selected.None?
  {
    if !st.gameOver && st.submitted {
      var r := Next(qs, st);
      var b := st.selected.value;
      var e := EntryFor(qs[st.index], Some(b));
      assert r.results == st.results + [e];
      forall i | 0 <= i < |r.results| ensures exists c: bool :: r.results[i] == EntryFor(qs[i], Some(c)) {
        if i < |st.results| {
          assert r.results[i] == st.results[i];
        } else {
          assert r.results[i] == EntryFor(qs[i], Some(b));
        }
      }
    }
  }

  function Replay(qs: seq<Question>, evs: seq<Event>): (r: State)
    requires |qs| > 0
    ensures Valid(qs, r)
    ensures r.gameOver ==> |r.results| == |qs|
  {
    if |evs| == 0 then Init
    else
      var p := Replay(qs, evs[..|evs| - 1]);
      NextValid(qs, p);
      Step(qs, p, evs[|evs| - 1])
  }
}
