/** The two Redux slices of the quiz: the fetched problems with the
    recorded answers (src/store/problemSlice.js), and the current day
    (src/store/dateSlice.js). */
module ProblemStore {
  import opened Common

  /** `{ isCorrect, explanation }`. */
  datatype Answer = Answer(isCorrect: bool, explanation: string)

  /** The slice state; `P` is a fetched problem, `X` a failure payload.
      Object keys are strings, so `answers` is keyed by the problem id's
      text. */
  datatype State<P, X> = State(
    problems: seq<P>,
    answers: map<string, Answer>,
    loading: bool,
    error: Option<X>)

  datatype Action<P, X> =
    | Start
    | Success(problems: seq<P>)
    | Failure(error: Option<X>)
    | UpdateAnswer(problemId: string, isCorrect: bool, explanation: string)

  function Init<P, X>(): (st: State<P, X>)
    ensures st.problems == [] && st.answers == map[] && !st.loading && st.error.None?
  {
    State([], map[], false, None)
  }

  function Reduce<P, X>(st: State<P, X>, a: Action<P, X>): (r: State<P, X>)
    ensures a.Start? ==> r == st.(loading := true, error := None)
    ensures a.Success? ==> r == st.(loading := false, problems := a.problems, answers := map[])
    ensures a.Failure? ==> r == st.(loading := false, error := a.error)
    ensures a.UpdateAnswer? ==>
              r == st.(answers := r.answers)
              && a.problemId in r.answers
              && r.answers[a.problemId] == Answer(a.isCorrect, a.explanation)
              && r.answers.Keys == st.answers.Keys + {a.problemId}
              && forall k :: k in st.answers && k != a.problemId ==> r.answers[k] == st.answers[k]
  {
    match a
    case Start => st.(loading := true, error := None)
    case Success(ps) => st.(loading := false, problems := ps, answers := map[])
    case Failure(e) => st.(loading := false, error := e)
    case UpdateAnswer(id, ok, ex) => st.(answers := st.answers[id := Answer(ok, ex)])
  }

  /** A fetch that starts and then succeeds ends with no error, not
      loading, the new problems and no answers, whatever came before. */
  lemma StartThenSuccess<P, X>(st: State<P, X>, ps: seq<P>)
    ensures var r := Reduce(Reduce(st, Start), Success(ps));
            r.error.None? && !r.loading && r.problems == ps && r.answers == map[]
  {
  }

  /** Recording the same answer twice is recording it once. */
  lemma UpdateAnswerIdempotent<P, X>(st: State<P, X>, id: string, ok: bool, ex: string)
    ensures Reduce(Reduce(st, UpdateAnswer(id, ok, ex)), UpdateAnswer(id, ok, ex))
            == Reduce(st, UpdateAnswer(id, ok, ex))
  {
  }

  /** Answers for different problems commute. */
  lemma UpdateAnswersCommute<P, X>(st: State<P, X>, a: Action<P, X>, b: Action<P, X>)
    requires a.UpdateAnswer? && b.UpdateAnswer? && a.problemId != b.problemId
    ensures Reduce(Reduce(st, a), b) == Reduce(Reduce(st, b), a)
  {
  }

  /** The state after a sequence of dispatched actions. */
  function Replay<P, X>(st: State<P, X>, acts: seq<Action<P, X>>): State<P, X> {
    if |acts| == 0 then st else Reduce(Replay(st, acts[..|acts| - 1]), acts[|acts| - 1])
  }

  /** The problem ids answered since the last successful fetch. */
  function AnsweredSince<P, X>(acts: seq<Action<P, X>>): set<string> {
    if |acts| == 0 then {}
    else
      var a := acts[|acts| - 1];
      match a
      case Success(_) => {}
      case UpdateAnswer(id, _, _) => AnsweredSince(acts[..|acts| - 1]) + {id}
      case _ => AnsweredSince(acts[..|acts| - 1])
  }

  /** From the initial state, the recorded answers are exactly those given
      since the last successful fetch, and the store is loading exactly
      when the last fetch event was a start. */
  lemma {:induction false} ReplayAnswers<P, X>(acts: seq<Action<P, X>>)
    ensures Replay(Init<P, X>(), acts).answers.Keys == AnsweredSince(acts)
    ensures Replay(Init<P, X>(), acts).loading <==> LastFetchIsStart(acts)
  {
    if |acts| > 0 {
      ReplayAnswers(acts[..|acts| - 1]);
    }
  }

  predicate LastFetchIsStart<P, X>(acts: seq<Action<P, X>>) {
    if |acts| == 0 then false
    else if acts[|acts| - 1].UpdateAnswer? then LastFetchIsStart(acts[..|acts| - 1])
    else acts[|acts| - 1].Start?
  }
}

module DateStore {
  datatype Action = Increment | Reset

  const Initial: int := 1

  function Reduce(value: int, a: Action): (r: int)
    ensures a.Increment? ==> r == value + 1
    ensures a.Reset? ==> r == Initial
  {
    match a
    case Increment => value + 1
    case Reset => 1
  }

  lemma ResetIdempotent(value: int)
    ensures Reduce(Reduce(value, Reset), Reset) == Reduce(value, Reset) == 1
  {
  }

  function Replay(value: int, acts: seq<Action>): int {
    if |acts| == 0 then value else Reduce(Replay(value, acts[..|acts| - 1]), acts[|acts| - 1])
  }

  /** The increments since the last reset. */
  function IncrementsSinceReset(acts: seq<Action>): nat {
    if |acts| == 0 then 0
    else if acts[|acts| - 1].Reset? then 0
    else IncrementsSinceReset(acts[..|acts| - 1]) + 1
  }

  /** From the initial value the day is one plus the increments since the
      last reset; in particular it never drops below 1. */
  lemma {:induction false} ReplayValue(acts: seq<Action>)
    ensures Replay(Initial, acts) == 1 + IncrementsSinceReset(acts)
    ensures Replay(Initial, acts) >= 1
  {
    if |acts| > 0 {
      ReplayValue(acts[..|acts| - 1]);
    }
  }
}
