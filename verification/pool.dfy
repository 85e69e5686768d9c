/**
  The pool of questions for one attempt: the eligible questions of the bank,
  shuffled by a Fisher-Yates pass and cut to the requested length.
  The randomness is injected: `choices[i]` is the index the pass swaps with
  position `i`, the value `Draw` computes from that step's `Math.random()`.
*/
module Pool {
  import opened Questions

  /** The filter predicate: aptitude questions, and code questions when they are mixed in. */
  predicate Eligible(q: Question, mixCode: bool)
  {
    q.kind == "aptitude" || (mixCode && q.kind == "code")
  }

  /** `questions.filter(...)`: the eligible questions, in bank order. */
  function Filter(qs: seq<Question>, mixCode: bool): (r: seq<Question>)
    ensures |r| <= |qs|
  {
    if qs == [] then []
    else
      var rest := Filter(qs[..|qs| - 1], mixCode);
      var last := qs[|qs| - 1];
      if Eligible(last, mixCode) then rest + [last] else rest
  }

  /** The filter keeps exactly the eligible questions, each as often as the bank holds it. */
  lemma {:induction false} FilterKeepsEligible(qs: seq<Question>, mixCode: bool)
    ensures var r := Filter(qs, mixCode);
      && (forall i :: 0 <= i < |r| ==> Eligible(r[i], mixCode))
      && (forall q :: multiset(r)[q] == if Eligible(q, mixCode) then multiset(qs)[q] else 0)
  {
    if qs != [] {
      var init := qs[..|qs| - 1];
      var last := qs[|qs| - 1];
      FilterKeepsEligible(init, mixCode);
      assert qs == init + [last];
    }
  }

  // ---------------------------------------------------------------------------
  // Fisher-Yates

  /** The swap indices cover a list of `n` elements and each `choices[i]` lies in [0, i]. */
  predicate ChoicesFit(choices: seq<nat>, n: nat)
  {
    n <= |choices| && forall i :: 0 <= i < |choices| ==> choices[i] <= i
  }

  /** `Math.floor(Math.random() * (i + 1))` for a draw `u` in [0, 1): a swap partner in [0, i]. */
  function Draw(u: real, i: nat): (j: nat)
    requires 0.0 <= u < 1.0
    ensures j <= i
  {
    var n := (i + 1) as real;
    assert 0.0 <= u * n < n by {
      assert u * n <= u * n + (1.0 - u) * n;
    }
    (u * n).Floor
  }

  /** The swap indices computed from one draw per position: they always fit. */
  function ChoicesOf(draws: seq<real>): (choices: seq<nat>)
    requires forall i :: 0 <= i < |draws| ==> 0.0 <= draws[i] < 1.0
    ensures ChoicesFit(choices, |draws|)
    ensures |choices| == |draws| && forall i :: 0 <= i < |draws| ==> choices[i] == Draw(draws[i], i)
  {
    seq(|draws|, i requires 0 <= i < |draws| => Draw(draws[i], i))
  }

  /** `[s[i], s[j]] = [s[j], s[i]]`. */
  function Swap<T>(s: seq<T>, i: nat, j: nat): (r: seq<T>)
    requires i < |s| && j < |s|
    ensures |r| == |s| && r[i] == s[j] && r[j] == s[i]
    ensures forall k :: 0 <= k < |s| && k != i && k != j ==> r[k] == s[k]
  {
    s[i := s[j]][j := s[i]]
  }

  /** What the shuffle loop does from position `i` down to 1 on the list `s`. */
  function ShuffleFrom<T>(s: seq<T>, choices: seq<nat>, i: int): (r: seq<T>)
    requires ChoicesFit(choices, |s|) && i < |s|
    ensures |r| == |s|
    decreases i
  {
    if i <= 0 then s
    else ShuffleFrom(Swap(s, i, choices[i]), choices, i - 1)
  }

  /** The list after the whole Fisher-Yates pass. */
  function Shuffled<T>(s: seq<T>, choices: seq<nat>): (r: seq<T>)
    requires ChoicesFit(choices, |s|)
  {
    ShuffleFrom(s, choices, |s| - 1)
  }

  lemma SwapPermutes<T>(s: seq<T>, i: nat, j: nat)
    requires i < |s| && j < |s|
    ensures multiset(Swap(s, i, j)) == multiset(s)
  {
    var t := s[i := s[j]];
    assert multiset(t) == multiset(s) - multiset{s[i]} + multiset{s[j]};
  }

  lemma {:induction false} ShuffleFromPermutes<T>(s: seq<T>, choices: seq<nat>, i: int)
    requires ChoicesFit(choices, |s|) && i < |s|
    ensures multiset(ShuffleFrom(s, choices, i)) == multiset(s)
    decreases i
  {
    if i > 0 {
      var j := choices[i];
      SwapPermutes(s, i, j);
      ShuffleFromPermutes(Swap(s, i, j), choices, i - 1);
    }
  }

  /** For every choice of swap indices, the shuffle is a permutation of its input. */
  lemma ShuffledIsPermutation<T>(s: seq<T>, choices: seq<nat>)
    requires ChoicesFit(choices, |s|)
    ensures |Shuffled(s, choices)| == |s|
    ensures multiset(Shuffled(s, choices)) == multiset(s)
  {
    ShuffleFromPermutes(s, choices, |s| - 1);
  }

  /** The Fisher-Yates loop, swapping in place from the last position down to position 1. */
  method Shuffle<T>(a: array<T>, choices: seq<nat>)
    requires ChoicesFit(choices, a.Length)
    modifies a
    ensures a[..] == Shuffled(old(a[..]), choices)
    ensures multiset(a[..]) == multiset(old(a[..]))
  {
    ShuffledIsPermutation(a[..], choices);
    var i := a.Length - 1;
    while i > 0
      invariant -1 <= i < a.Length
      invariant ShuffleFrom(a[..], choices, i) == Shuffled(old(a[..]), choices)
    {
      var j := choices[i];
      ghost var before := a[..];
      a[i], a[j] := a[j], a[i];
      assert a[..] == Swap(before, i, j);
      i := i - 1;
    }
  }

  // ---------------------------------------------------------------------------
  // Selection

  /** `Math.min`. */
  function Min(a: int, b: int): int
  {
    if a <= b then a else b
  }

  /** The end index `slice(0, end)` uses on a list of length `len`: a negative end counts from the back. */
  function SliceEnd(end: int, len: nat): (k: nat)
    ensures k <= len
    ensures end >= 0 ==> k == Min(end, len)
    ensures end < 0 ==> k == if len + end > 0 then len + end else 0
  {
    if end < 0 then (if len + end > 0 then len + end else 0)
    else Min(end, len)
  }

  /** The pool as a function of the bank, the configuration and the random choices. */
  function Select(questions: seq<Question>, quizLength: int, mixCode: bool, choices: seq<nat>): seq<Question>
    requires ChoicesFit(choices, |questions|)
  {
    if |questions| == 0 then []
    else
      var shuffled := Shuffled(Filter(questions, mixCode), choices);
      shuffled[..SliceEnd(Min(quizLength, |shuffled|), |shuffled|)]
  }

  /** The `pool` memo: filter, shuffle the filtered copy in place, keep a prefix. */
  method SelectPool(questions: seq<Question>, quizLength: int, mixCode: bool, choices: seq<nat>)
    returns (pool: seq<Question>)
    requires ChoicesFit(choices, |questions|)
    ensures pool == Select(questions, quizLength, mixCode, choices)
  {
    if |questions| == 0 {
      return [];
    }
    var filtered := Filter(questions, mixCode);
    var a := new Question[|filtered|](i requires 0 <= i < |filtered| => filtered[i]);
    assert a[..] == filtered;
    Shuffle(a, choices);
    pool := a[..SliceEnd(Min(quizLength, a.Length), a.Length)];
  }

  // ---------------------------------------------------------------------------
  // Properties of the pool

  /**
    Every pooled question is eligible and comes from the bank, with no more
    copies than the filtered bank holds; an empty bank gives an empty pool.
  */
  lemma SelectDrawsFromEligible(questions: seq<Question>, quizLength: int, mixCode: bool, choices: seq<nat>)
    requires ChoicesFit(choices, |questions|)
    ensures var pool := Select(questions, quizLength, mixCode, choices);
      && multiset(pool) <= multiset(Filter(questions, mixCode))
      && (forall i :: 0 <= i < |pool| ==> Eligible(pool[i], mixCode) && pool[i] in questions)
      && (questions == [] ==> pool == [])
  {
    var pool := Select(questions, quizLength, mixCode, choices);
    var filtered := Filter(questions, mixCode);
    FilterKeepsEligible(questions, mixCode);
    if |questions| > 0 {
      var shuffled := Shuffled(filtered, choices);
      ShuffledIsPermutation(filtered, choices);
      var k := |pool|;
      assert shuffled == pool + shuffled[k..];
      assert multiset(pool) <= multiset(shuffled);
      forall i | 0 <= i < |pool|
        ensures Eligible(pool[i], mixCode) && pool[i] in questions
      {
        var q := pool[i];
        assert multiset(filtered)[q] > 0;
        assert multiset(questions)[q] > 0;
      }
    }
  }

  /**
    The pool holds `min(quizLength, eligible count)` questions for a
    non-negative length; a negative length drops that many from the back.
  */
  lemma SelectLength(questions: seq<Question>, quizLength: int, mixCode: bool, choices: seq<nat>)
    requires ChoicesFit(choices, |questions|)
    ensures var n := |Filter(questions, mixCode)|;
      && (quizLength >= 0 ==> |Select(questions, quizLength, mixCode, choices)| == Min(quizLength, n))
      && (quizLength < 0 ==> |Select(questions, quizLength, mixCode, choices)| == if n + quizLength > 0 then n + quizLength else 0)
  {
    var n := |Filter(questions, mixCode)|;
    if |questions| == 0 {
      assert n == 0;
    } else {
      ShuffledIsPermutation(Filter(questions, mixCode), choices);
    }
  }

  /** The pool is a prefix of the shuffled eligible questions. */
  lemma SelectIsPrefix(questions: seq<Question>, quizLength: int, mixCode: bool, choices: seq<nat>)
    requires ChoicesFit(choices, |questions|)
    ensures var pool := Select(questions, quizLength, mixCode, choices);
      var shuffled := Shuffled(Filter(questions, mixCode), choices);
      |pool| <= |shuffled| && pool == shuffled[..|pool|]
  {
    if |questions| == 0 {
      assert Filter(questions, mixCode) == [];
    }
  }

  /** When the requested length covers them, the pool is a permutation of all eligible questions. */
  lemma SelectCoversEligible(questions: seq<Question>, quizLength: int, mixCode: bool, choices: seq<nat>)
    requires ChoicesFit(choices, |questions|)
    requires quizLength >= |Filter(questions, mixCode)|
    ensures multiset(Select(questions, quizLength, mixCode, choices)) == multiset(Filter(questions, mixCode))
  {
    var filtered := Filter(questions, mixCode);
    if |questions| == 0 {
      assert filtered == [];
    } else {
      ShuffledIsPermutation(filtered, choices);
      var shuffled := Shuffled(filtered, choices);
      assert shuffled[..|shuffled|] == shuffled;
    }
  }
}
