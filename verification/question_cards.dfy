/** The single-question card for a definition problem
    (src/components/GamePlayDefinition.jsx): a locked pick among the
    options and its verdict. */
module DefinitionCard {
  import opened Common

  datatype Problem = Problem(text: string, options: seq<string>, correct: int)

  datatype State = State(selected: Option<int>, submitted: bool)

  const Init: State := State(None, false)

  /** What the card shows: the loading text for a missing problem, or the
      problem with the verdict line once an option is picked. */
  datatype View = Loading | Card(text: string, verdict: Option<string>)

  /** `handleOptionClick`: the first pick sets the selection and marks it
      submitted; later picks are ignored. */
  function Click(st: State, k: int): (r: State)
    ensures st.selected.Some? ==> r == st
    ensures st.selected.None? ==> r == State(Some(k), true)
  {
    if st.selected.Some? then st else State(Some(k), true)
  }

  function Replay(evs: seq<int>): State {
    if |evs| == 0 then Init else Click(Replay(evs[..|evs| - 1]), evs[|evs| - 1])
  }

  /** After any clicks the selection is the first click, and it is
      submitted exactly when there was one. */
  lemma {:induction false} FirstClickWins(evs: seq<int>)
    ensures |evs| == 0 ==> Replay(evs) == Init
    ensures |evs| > 0 ==> Replay(evs) == State(Some(evs[0]), true)
  {
    if |evs| > 1 {
      FirstClickWins(evs[..|evs| - 1]);
    }
  }

  /** `selectedOption === problem.correct_option`. */
  predicate IsCorrect(p: Problem, st: State) {
    st.selected == Some(p.correct)
  }

  /** `${problem.options[problem.correct_option]}`; an index with no option
      prints as "undefined". */
  function CorrectText(p: Problem): string {
    if 0 <= p.correct < |p.options| then p.options[p.correct] else "undefined"
  }

  function Verdict(p: Problem, st: State): string {
    if IsCorrect(p, st) then "✅ Correct!" else "❌ Incorrect! Answer: " + CorrectText(p)
  }

  function Render(p: Option<Problem>, st: State): (v: View)
    ensures v.Loading? <==> p.None?
    ensures v.Card? ==> (v.verdict.Some? <==> st.submitted)
  {
    match p
    case None => Loading
    case Some(q) => Card(q.text, if st.submitted then Some(Verdict(q, st)) else None)
  }

  /** The verdict is the success line exactly for the right pick; otherwise
      it names the right option's text. */
  lemma VerdictFacts(p: Problem, st: State)
    ensures Verdict(p, st) == "✅ Correct!" <==> IsCorrect(p, st)
    ensures !IsCorrect(p, st) ==> Verdict(p, st) == "❌ Incorrect! Answer: " + CorrectText(p)
    ensures 0 <= p.correct < |p.options| ==> CorrectText(p) == p.options[p.correct]
  {
    if !IsCorrect(p, st) {
      var w := "❌ Incorrect! Answer: " + CorrectText(p);
      assert w[0] == '❌';
    }
  }
}

/** The single-question card for a true/false problem
    (src/components/GamePlayTrueFalse.jsx): "True" answers 0, "False"
    answers 1, and a later answer replaces an earlier one. */
module TrueFalseCard {
  import opened Common

  datatype Problem = Problem(text: string, correct: int)

  datatype Choice = True | False

  /** The number each button passes to `handleAnswer`. */
  function Encode(c: Choice): (n: int)
    ensures n == 0 || n == 1
  {
    match c
    case True => 0
    case False => 1
  }

  function Label(n: int): string {
    if n == 0 then "True" else "False"
  }

  lemma EncodeFacts(c: Choice, d: Choice)
    ensures Encode(c) == Encode(d) <==> c == d
    ensures Label(Encode(c)) == (if c == True then "True" else "False")
  {
  }

  datatype State = State(selected: Option<int>, submitted: bool)

  /** `handleAnswer`: no lock, the last answer counts. */
  function Answer(st: State, c: Choice): (r: State)
    ensures r == State(Some(Encode(c)), true)
  {
    State(Some(Encode(c)), true)
  }

  /** `selectedAnswer === problem.correct_option`. */
  predicate CheckAnswer(p: Problem, st: State) {
    st.selected == Some(p.correct)
  }

  function Replay(st: State, cs: seq<Choice>): State {
    if |cs| == 0 then st else Answer(Replay(st, cs[..|cs| - 1]), cs[|cs| - 1])
  }

  /** After any non-empty run of answers only the last counts: the verdict
      is right exactly when its code is the problem's; a problem whose code
      is neither 0 nor 1 is never answered right. */
  lemma LastAnswerCounts(p: Problem, st: State, cs: seq<Choice>)
    requires |cs| > 0
    ensures CheckAnswer(p, Replay(st, cs)) <==> Encode(cs[|cs| - 1]) == p.correct
    ensures p.correct != 0 && p.correct != 1 ==> !CheckAnswer(p, Replay(st, cs))
  {
  }

  /** The wrong-answer line: "True" exactly when the right code is 0. */
  function WrongLine(p: Problem): string {
    "❌ Wrong! Correct Answer: " + Label(p.correct)
  }

  lemma WrongLineNamesTrueIffZero(p: Problem)
    ensures WrongLine(p) == "❌ Wrong! Correct Answer: True" <==> p.correct == 0
  {
    if p.correct != 0 {
      assert WrongLine(p)[|"❌ Wrong! Correct Answer: "|] == 'F';
    }
  }
}
