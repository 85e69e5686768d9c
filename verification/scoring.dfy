/** Scoring an attempt: every pooled question is correct, wrong or skipped. */
module Scoring {
  import opened JsValues
  import opened Questions
  import Pool

  datatype Verdict = Correct | Wrong | Skipped

  datatype Score = Score(total: nat, correct: nat, wrong: nat, skipped: nat)

  /**
    The text a recorded answer is compared with: the trimmed string form of
    `answer`, or of `expected_output` when `answer` is falsy, and the text
    "null" when that fallback is undefined too.
  */
  function CanonicalText(q: Question): string
  {
    if Truthy(q.answer) then Trim(ToStr(q.answer))
    else if q.expectedOutput != Undefined then Trim(ToStr(q.expectedOutput))
    else "null"
  }

  /** `picked[id]`: the recorded answer, or `undefined`. */
  function Lookup(picked: map<string, string>, id: string): JsValue
  {
    if id in picked then Str(picked[id]) else Undefined
  }

  /** One step of the scoring loop, in the code's own terms. */
  function Judge(q: Question, picked: map<string, string>): Verdict
  {
    var ans := Lookup(picked, q.id);
    var canonical := Or(q.answer, q.expectedOutput);
    var correct := if canonical != Undefined then Str(Trim(ToStr(canonical))) else Null;
    if !Truthy(ans) then Skipped
    else if Trim(ToStr(ans)) == Trim(ToStr(correct)) then Correct
    else Wrong
  }

  /**
    A missing or empty answer is skipped; any other answer is correct exactly
    when its trimmed text equals the canonical text, and wrong otherwise.
  */
  lemma JudgeMeaning(q: Question, picked: map<string, string>)
    ensures Judge(q, picked) == Skipped <==> q.id !in picked || picked[q.id] == ""
    ensures Judge(q, picked) == Correct
      <==> q.id in picked && picked[q.id] != "" && Trim(picked[q.id]) == CanonicalText(q)
  {
    CorrectText(q);
  }

  /** The code's `String(correct).trim()` is the canonical text. */
  lemma CorrectText(q: Question)
    ensures var canonical := Or(q.answer, q.expectedOutput);
      var correct := if canonical != Undefined then Str(Trim(ToStr(canonical))) else Null;
      Trim(ToStr(correct)) == CanonicalText(q)
  {
    var canonical := Or(q.answer, q.expectedOutput);
    if canonical != Undefined {
      var t := ToStr(canonical);
      TrimIdempotent(t);
      assert ToStr(Str(Trim(t))) == Trim(t);
      if Truthy(q.answer) {
        assert canonical == q.answer;
      } else {
        assert canonical == q.expectedOutput;
      }
    } else {
      assert ToStr(Null) == "null";
      TrimNull();
    }
  }

  /** Adds one judged question to the running counts. */
  function Add(s: Score, v: Verdict): Score
  {
    match v
    case Correct => s.(total := s.total + 1, correct := s.correct + 1)
    case Wrong => s.(total := s.total + 1, wrong := s.wrong + 1)
    case Skipped => s.(total := s.total + 1, skipped := s.skipped + 1)
  }

  /** The counts for a pool under a given way of judging one question; every question lands in exactly one bucket. */
  function TallyBy(pool: seq<Question>, judge: Question -> Verdict): (s: Score)
    ensures s.total == |pool|
    ensures s.correct + s.wrong + s.skipped == s.total
  {
    if pool == [] then Score(0, 0, 0, 0)
    else Add(TallyBy(pool[..|pool| - 1], judge), judge(pool[|pool| - 1]))
  }

  /** The counts `scoreResult` reports for a pool and the recorded answers. */
  function Tally(pool: seq<Question>, picked: map<string, string>): (s: Score)
    ensures s.total == |pool|
    ensures s.correct + s.wrong + s.skipped == s.total
  {
    TallyBy(pool, q => Judge(q, picked))
  }

  /** `scoreResult`: one pass over the pool incrementing the counters of `out`. */
  method ScoreResult(pool: seq<Question>, picked: map<string, string>) returns (out: Score)
    ensures out == Tally(pool, picked)
  {
    out := Score(0, 0, 0, 0);
    var k := 0;
    while k < |pool|
      invariant 0 <= k <= |pool|
      invariant out == Tally(pool[..k], picked)
    {
      var v := Judge(pool[k], picked);
      TallyStep(pool, k, picked);
      out := out.(total := out.total + 1);
      if v == Skipped {
        out := out.(skipped := out.skipped + 1);
      } else if v == Correct {
        out := out.(correct := out.correct + 1);
      } else {
        out := out.(wrong := out.wrong + 1);
      }
      k := k + 1;
    }
    assert pool[..k] == pool;
  }

  lemma TallyStep(pool: seq<Question>, k: nat, picked: map<string, string>)
    requires k < |pool|
    ensures Tally(pool[..k + 1], picked) == Add(Tally(pool[..k], picked), Judge(pool[k], picked))
  {
    assert pool[..k + 1][..k] == pool[..k];
  }

  // ---------------------------------------------------------------------------
  // Properties of the score

  /** With no answers recorded, every question is skipped. */
  lemma {:induction false} NothingPickedAllSkipped(pool: seq<Question>)
    ensures Tally(pool, map[]) == Score(|pool|, 0, 0, |pool|)
  {
    if pool != [] {
      NothingPickedAllSkipped(pool[..|pool| - 1]);
    }
  }

  /** When every question holds a non-empty answer matching its canonical text, all are correct. */
  lemma {:induction false} AllMatchingAllCorrect(pool: seq<Question>, picked: map<string, string>)
    requires forall i :: 0 <= i < |pool| ==>
      pool[i].id in picked && picked[pool[i].id] != "" && Trim(picked[pool[i].id]) == CanonicalText(pool[i])
    ensures Tally(pool, picked) == Score(|pool|, |pool|, 0, 0)
  {
    if pool != [] {
      AllMatchingAllCorrect(pool[..|pool| - 1], picked);
      JudgeMeaning(pool[|pool| - 1], picked);
    }
  }

  /** A question with neither field defined is scored correct for the answer "null". */
  lemma NullCanonicalMatches(q: Question, picked: map<string, string>)
    requires !Truthy(q.answer) && q.expectedOutput == Undefined
    requires q.id in picked && picked[q.id] == "null"
    ensures Judge(q, picked) == Correct
  {
    JudgeMeaning(q, picked);
    TrimNull();
  }

  lemma TrimNull()
    ensures Trim("null") == "null"
  {
    assert TrimStart("null") == "null";
    assert TrimEnd("null") == "null";
  }

  function Plus(a: Score, b: Score): Score
  {
    Score(a.total + b.total, a.correct + b.correct, a.wrong + b.wrong, a.skipped + b.skipped)
  }

  lemma AddPlus(a: Score, b: Score, v: Verdict)
    ensures Add(Plus(a, b), v) == Plus(a, Add(b, v))
  {
  }

  /** The counts of two pools laid end to end are the sums of their counts. */
  lemma {:induction false} TallyAppend(p: seq<Question>, r: seq<Question>, judge: Question -> Verdict)
    ensures TallyBy(p + r, judge) == Plus(TallyBy(p, judge), TallyBy(r, judge))
    decreases |r|
  {
    if r == [] {
      assert p + r == p;
      assert TallyBy(r, judge) == Score(0, 0, 0, 0);
      var t := TallyBy(p, judge);
      assert Plus(t, Score(0, 0, 0, 0)) == t;
    } else {
      var r' := r[..|r| - 1];
      var v := judge(r[|r| - 1]);
      assert (p + r)[..|p + r| - 1] == p + r';
      assert (p + r)[|p + r| - 1] == r[|r| - 1];
      assert TallyBy(p + r, judge) == Add(TallyBy(p + r', judge), v);
      assert TallyBy(r, judge) == Add(TallyBy(r', judge), v);
      TallyAppend(p, r', judge);
      AddPlus(TallyBy(p, judge), TallyBy(r', judge), v);
    }
  }

  /** The counts depend only on which questions the pool holds, not on their order. */
  lemma {:induction false} TallyOrderFree(p: seq<Question>, r: seq<Question>, judge: Question -> Verdict)
    requires multiset(p) == multiset(r)
    ensures TallyBy(p, judge) == TallyBy(r, judge)
    decreases |p|
  {
    if p == [] {
      assert |r| == |multiset(r)| == 0;
    } else {
      var x := p[|p| - 1];
      var p' := p[..|p| - 1];
      assert p == p' + [x];
      assert x in multiset(r);
      var k :| 0 <= k < |r| && r[k] == x;
      var a, b := r[..k], r[k + 1..];
      assert r == a + [x] + b;
      assert multiset(a + b) == multiset(r) - multiset{x};
      assert multiset(p') == multiset(p) - multiset{x};
      TallyOrderFree(p', a + b, judge);
      var v := judge(x);
      assert TallyBy(p, judge) == Add(TallyBy(p', judge), v);
      assert TallyBy([x], judge) == Add(Score(0, 0, 0, 0), v) by {
        assert [x][..0] == [];
      }
      TallyAppend(a, [x], judge);
      TallyAppend(a + [x], b, judge);
      TallyAppend(a, b, judge);
      SplitAt(TallyBy(a, judge), TallyBy(b, judge), v);
    }
  }

  lemma SplitAt(ta: Score, tb: Score, v: Verdict)
    ensures Add(Plus(ta, tb), v) == Plus(Plus(ta, Add(Score(0, 0, 0, 0), v)), tb)
  {
  }

  /**
    When the requested length covers all eligible questions, the score of an
    attempt does not depend on the random choices of the shuffle.
  */
  lemma ScoreIgnoresShuffle(questions: seq<Question>, quizLength: int, mixCode: bool,
                            choices1: seq<nat>, choices2: seq<nat>, picked: map<string, string>)
    requires Pool.ChoicesFit(choices1, |questions|) && Pool.ChoicesFit(choices2, |questions|)
    requires quizLength >= |Pool.Filter(questions, mixCode)|
    ensures Tally(Pool.Select(questions, quizLength, mixCode, choices1), picked)
         == Tally(Pool.Select(questions, quizLength, mixCode, choices2), picked)
  {
    Pool.SelectCoversEligible(questions, quizLength, mixCode, choices1);
    Pool.SelectCoversEligible(questions, quizLength, mixCode, choices2);
    TallyOrderFree(Pool.Select(questions, quizLength, mixCode, choices1),
                   Pool.Select(questions, quizLength, mixCode, choices2), q => Judge(q, picked));
  }
}
