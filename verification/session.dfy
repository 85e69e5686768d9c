/**
  The quiz session: the component's state fields and the handlers that move
  it between the setup screen, an attempt in progress and the result screen.
*/
module Session {
  import opened Wrappers
  import opened Questions
  import opened Pool
  import opened Clock
  import Scoring

  /** `{ ...p, [qid]: value }`: a copy of the answers with one entry set. */
  function Record(p: map<string, string>, qid: string, value: string): (r: map<string, string>)
    ensures r.Keys == p.Keys + {qid}
    ensures qid in r && r[qid] == value
    ensures forall k :: k in p && k != qid ==> k in r && r[k] == p[k]
  {
    p[qid := value]
  }

  /** Answering the same question twice keeps only the later answer. */
  lemma RecordLastWins(p: map<string, string>, qid: string, v1: string, v2: string)
    ensures Record(Record(p, qid, v1), qid, v2) == Record(p, qid, v2)
  {
  }

  /** Answers to two different questions do not interfere: their order does not matter. */
  lemma RecordCommutes(p: map<string, string>, q1: string, v1: string, q2: string, v2: string)
    requires q1 != q2
    ensures Record(Record(p, q1, v1), q2, v2) == Record(Record(p, q2, v2), q1, v1)
  {
  }

  /** What the setup screen configures, and the pool drawn from it. */
  datatype Setup = Setup(
    questions: seq<Question>,
    quizLength: int,
    mixCode: bool,
    timeLimitMinutes: int,
    pool: seq<Question>)

  /** The fields of one attempt. */
  datatype Attempt = Attempt(
    currentIndex: int,
    picked: map<string, string>,
    started: bool,
    finished: bool,
    timeLeft: Option<int>,
    showExplain: bool)

  /**
    The component's state. `choices` records the random choices the pool was
    last shuffled with; every pool the session holds is `Select` of the
    current configuration under them.
  */
  class QuizSession {
    var questions: seq<Question>
    var quizLength: int
    var mixCode: bool
    var timeLimitMinutes: int
    var pool: seq<Question>
    ghost var choices: seq<nat>

    var currentIndex: int
    var picked: map<string, string>
    var started: bool
    var finished: bool
    var timeLeft: Option<int>
    var showExplain: bool

    function Config(): Setup
      reads this
    {
      Setup(questions, quizLength, mixCode, timeLimitMinutes, pool)
    }

    function State(): Attempt
      reads this
    {
      Attempt(currentIndex, picked, started, finished, timeLeft, showExplain)
    }

    /**
      The pool is the memo's value for the current configuration; the index
      never goes below 0 and stays on a pooled question during an attempt; a
      started session always has a countdown; only a started session can be
      finished.
    */
    ghost predicate Valid()
      reads this
    {
      && ChoicesFit(choices, |questions|)
      && pool == Select(questions, quizLength, mixCode, choices)
      && 0 <= currentIndex
      && (started && pool != [] ==> currentIndex < |pool|)
      && (started ==> timeLeft.Some?)
      && (finished ==> started)
    }

    /** The setup screen's phase: not started. */
    predicate InSetup()
      reads this
    {
      !started
    }

    /** An attempt in progress, on a pool that has a current question. */
    predicate InAttempt()
      reads this
    {
      started && !finished && pool != []
    }

    /** The result screen. */
    predicate InResult()
      reads this
    {
      started && finished
    }

    /** The initial `useState` values: an empty bank, 30 questions, code mixed in, 30 minutes, no countdown. */
    constructor ()
      ensures Valid()
      ensures Config() == Setup([], 30, true, 30, [])
      ensures State() == Attempt(0, map[], false, false, None, false)
    {
      questions, quizLength, mixCode, timeLimitMinutes, pool := [], 30, true, 30, [];
      choices := [];
      currentIndex, picked, started, finished, timeLeft, showExplain := 0, map[], false, false, None, false;
    }

    /** `setQuestions` with the loaded bank; the pool is drawn again from it with fresh choices. */
    method LoadQuestions(qs: seq<Question>, c: seq<nat>)
      requires Valid() && InSetup()
      requires ChoicesFit(c, |qs|)
      modifies this
      ensures Valid()
      ensures Config() == old(Config()).(questions := qs, pool := Select(qs, quizLength, mixCode, c))
      ensures choices == c
      ensures State() == old(State())
    {
      questions := qs;
      choices := c;
      pool := SelectPool(questions, quizLength, mixCode, c);
    }

    /**
      The length input. The memo only runs again when the value differs, so
      setting the same length keeps the pool and its order.
    */
    method SetQuizLength(n: int, c: seq<nat>)
      requires Valid() && InSetup()
      requires ChoicesFit(c, |questions|)
      modifies this
      ensures Valid()
      ensures n != old(quizLength) ==>
        Config() == old(Config()).(quizLength := n, pool := Select(old(questions), n, mixCode, c)) && choices == c
      ensures n == old(quizLength) ==> Config() == old(Config()) && choices == old(choices)
      ensures State() == old(State())
    {
      if n != quizLength {
        quizLength := n;
        choices := c;
        pool := SelectPool(questions, quizLength, mixCode, c);
      }
    }

    /** The "include code-output questions" checkbox; like the length, a change draws the pool again. */
    method SetMixCode(b: bool, c: seq<nat>)
      requires Valid() && InSetup()
      requires ChoicesFit(c, |questions|)
      modifies this
      ensures Valid()
      ensures b != old(mixCode) ==>
        Config() == old(Config()).(mixCode := b, pool := Select(old(questions), old(quizLength), b, c)) && choices == c
      ensures b == old(mixCode) ==> Config() == old(Config()) && choices == old(choices)
      ensures State() == old(State())
    {
      if b != mixCode {
        mixCode := b;
        choices := c;
        pool := SelectPool(questions, quizLength, mixCode, c);
      }
    }

    /** The time-limit input; the pool does not depend on it. */
    method SetTimeLimit(minutes: int)
      requires Valid() && InSetup()
      modifies this
      ensures Valid()
      ensures Config() == old(Config()).(timeLimitMinutes := minutes)
      ensures choices == old(choices)
      ensures State() == old(State())
    {
      timeLimitMinutes := minutes;
    }

    /**
      `startQuiz`: no answers, the first question, not finished, explanations
      hidden, started, and a countdown of the limit in seconds. The pool is
      not drawn again.
    */
    method StartQuiz()
      requires Valid() && InSetup()
      modifies this
      ensures Valid()
      ensures Config() == old(Config()) && choices == old(choices)
      ensures State() == Attempt(0, map[], true, false, Some(timeLimitMinutes * 60), false)
    {
      picked := map[];
      currentIndex := 0;
      finished := false;
      showExplain := false;
      started := true;
      timeLeft := Some(timeLimitMinutes * 60);
    }

    /** `selectAnswer`: record `value` for `qid`, leaving every other answer as it was. */
    method SelectAnswer(qid: string, value: string)
      requires Valid() && InAttempt()
      modifies this
      ensures Valid()
      ensures Config() == old(Config()) && choices == old(choices)
      ensures State() == old(State()).(picked := Record(old(picked), qid, value))
    {
      picked := picked[qid := value];
    }

    /** `submitQuiz`: finish the attempt and show explanations; the button takes Next's place at the last question. */
    method SubmitQuiz()
      requires Valid() && InAttempt()
      requires currentIndex + 1 >= |pool|
      modifies this
      ensures Valid()
      ensures Config() == old(Config()) && choices == old(choices)
      ensures State() == old(State()).(finished := true, showExplain := true)
    {
      finished := true;
      showExplain := true;
    }

    /** Prev: one question back, and nothing at the first question. */
    method Prev()
      requires Valid() && InAttempt()
      modifies this
      ensures Valid()
      ensures Config() == old(Config()) && choices == old(choices)
      ensures old(currentIndex) > 0 ==> State() == old(State()).(currentIndex := old(currentIndex) - 1)
      ensures old(currentIndex) == 0 ==> State() == old(State())
    {
      if currentIndex > 0 {
        currentIndex := currentIndex - 1;
      }
    }

    /** Next: one question on; the button is only there while a later question exists. */
    method Next()
      requires Valid() && InAttempt()
      requires currentIndex + 1 < |pool|
      modifies this
      ensures Valid()
      ensures Config() == old(Config()) && choices == old(choices)
      ensures State() == old(State()).(currentIndex := old(currentIndex) + 1)
    {
      currentIndex := currentIndex + 1;
    }

    /** Toggle Explanation. */
    method ToggleExplain()
      requires Valid() && InAttempt()
      modifies this
      ensures Valid()
      ensures Config() == old(Config()) && choices == old(choices)
      ensures State() == old(State()).(showExplain := !old(showExplain))
    {
      showExplain := !showExplain;
    }

    /** Back, on the result screen: to the setup screen, keeping answers, index and countdown. */
    method Back()
      requires Valid() && InResult()
      modifies this
      ensures Valid()
      ensures Config() == old(Config()) && choices == old(choices)
      ensures State() == old(State()).(started := false, finished := false)
    {
      started := false;
      finished := false;
    }

    /**
      Retake, on the result screen: answers cleared, a new countdown, the same
      pool; the index and the explanation toggle are kept as they were.
    */
    method Retake()
      requires Valid() && InResult()
      modifies this
      ensures Valid()
      ensures Config() == old(Config()) && choices == old(choices)
      ensures State() == old(State()).(picked := map[], finished := false, started := true,
                                       timeLeft := Some(timeLimitMinutes * 60))
    {
      picked := map[];
      finished := false;
      started := true;
      timeLeft := Some(timeLimitMinutes * 60);
    }

    /** Exit, during an attempt: back to setup with no answers and the first question; the countdown stays. */
    method Exit()
      requires Valid() && InAttempt()
      modifies this
      ensures Valid()
      ensures Config() == old(Config()) && choices == old(choices)
      ensures State() == old(State()).(started := false, picked := map[], currentIndex := 0)
    {
      started := false;
      picked := map[];
      currentIndex := 0;
    }

    /** Clear Answers, during an attempt: no answers and the first question. */
    method ClearAnswers()
      requires Valid() && InAttempt()
      modifies this
      ensures Valid()
      ensures Config() == old(Config()) && choices == old(choices)
      ensures State() == old(State()).(picked := map[], currentIndex := 0)
    {
      picked := map[];
      currentIndex := 0;
    }

    /**
      One tick of the running countdown: the seconds left follow `Tick`, and
      the tick that reaches 0 finishes the attempt.
    */
    method TimerTick()
      requires Valid() && started && !finished
      modifies this
      ensures Valid()
      ensures Config() == old(Config()) && choices == old(choices)
      ensures timeLeft.Some? && timeLeft.value >= 0
      ensures finished <==> old(timeLeft).value <= 1
      ensures State() == old(State()).(timeLeft := Tick(old(timeLeft)).next,
                                       finished := Tick(old(timeLeft)).finish)
    {
      var t := Tick(timeLeft);
      timeLeft := t.next;
      if t.finish {
        finished := true;
      }
    }

    /** The result screen's score for the pool and the recorded answers. */
    method Result() returns (score: Scoring.Score)
      requires Valid() && InResult()
      ensures score == Scoring.Tally(pool, picked)
      ensures score.total == |pool|
    {
      score := Scoring.ScoreResult(pool, picked);
    }
  }
}
