/** The countdown: one tick of the interval callback, and the `MM : SS` display. */
module Clock {
  import opened Wrappers
  import opened JsValues

  /** The new seconds left, and whether this tick ends the attempt. */
  datatype TickResult = TickResult(next: Option<int>, finish: bool)

  /**
    The state updater the interval passes to `setTimeLeft`: no countdown stays
    none; at one second or less the countdown lands on 0 and ends the attempt;
    otherwise one second goes by.
  */
  function Tick(s: Option<int>): (r: TickResult)
    ensures r.finish <==> s.Some? && s.value <= 1
    ensures s.None? <==> r.next.None?
    ensures s.Some? ==> r.next.value == if s.value > 1 then s.value - 1 else 0
  {
    match s
    case None => TickResult(None, false)
    case Some(v) => if v <= 1 then TickResult(Some(0), true) else TickResult(Some(v - 1), false)
  }

  /** The countdown after `k` ticks, and how many of those ticks ended the attempt. */
  datatype Countdown = Countdown(left: Option<int>, finishes: nat)

  function RunTicks(s: Option<int>, k: nat): Countdown
    decreases k
  {
    if k == 0 then Countdown(s, 0)
    else
      var t := Tick(s);
      var rest := RunTicks(t.next, k - 1);
      Countdown(rest.left, rest.finishes + if t.finish then 1 else 0)
  }

  /**
    From `n` seconds, each of the first `n - 1` ticks takes one second off
    without ending the attempt, and tick `n` reaches 0 and ends it: the
    attempt ends exactly once, after `n` ticks.
  */
  lemma {:induction false} CountdownEndsOnce(n: nat, k: nat)
    requires 1 <= n && k <= n
    ensures RunTicks(Some(n), k) == Countdown(Some(n - k), if k == n then 1 else 0)
  {
    if k > 0 {
      if n == 1 {
        assert RunTicks(Some(0), 0) == Countdown(Some(0), 0);
      } else {
        CountdownEndsOnce(n - 1, k - 1);
      }
    }
  }

  /** A start value of one second or less (a zero or negative limit) ends the attempt on the first tick. */
  lemma FirstTickEndsShortLimit(s: int)
    requires s <= 1
    ensures RunTicks(Some(s), 1) == Countdown(Some(0), 1)
  {
    assert RunTicks(Some(0), 0) == Countdown(Some(0), 0);
  }

  // ---------------------------------------------------------------------------
  // formatTime

  /** `Math.floor(a / b)` for a positive divisor: Dafny's `/` already rounds down then. */
  function FloorDiv(a: int, b: int): (q: int)
    requires b > 0
    ensures q * b <= a < q * b + b
  {
    a / b
  }

  /** The quotient of `a / b` truncated toward zero. */
  function TruncDiv(a: int, b: int): int
    requires b > 0
  {
    if a >= 0 then a / b else -((-a) / b)
  }

  /**
    JavaScript's `a % b` for a positive divisor: what is left of `a` after
    taking out the truncated quotient, smaller than `b` and of the sign of `a`.
  */
  function JsRem(a: int, b: int): (r: int)
    requires b > 0
    ensures a == b * TruncDiv(a, b) + r
    ensures a >= 0 ==> 0 <= r < b
    ensures a < 0 ==> -b < r <= 0
  {
    if a >= 0 then a % b
    else
      var q := (-a) / b;
      assert -a == b * q + (-a) % b;
      assert b * -q == -(b * q);
      -((-a) % b)
  }

  /** `String(x).padStart(2, "0")`. */
  function Field(x: int): string
  {
    PadStart(IntToString(x), 2, '0')
  }

  /** `formatTime`: `--:--` when no countdown runs, otherwise minutes and seconds joined by " : ". */
  function FormatTime(sec: Option<int>): string
  {
    match sec
    case None => "--:--"
    case Some(t) => Field(FloorDiv(t, 60)) + " : " + Field(JsRem(t, 60))
  }

  /** Reads a display `MM : SS` back into seconds: the text splits before its last five characters and before its last two. */
  function ParseClock(text: string): Option<int>
  {
    if |text| < 7 then None
    else ParseParts(text[..|text| - 5], text[|text| - 5..|text| - 2], text[|text| - 2..])
  }

  /** The minutes digits, the separator " : " and two seconds digits below 60. */
  function ParseParts(mins: string, sep: string, secs: string): Option<int>
  {
    if sep != " : " then None
    else
      match (ParseDigits(mins), ParseDigits(secs))
      case (Some(m), Some(s)) => if s < 60 then Some(m * 60 + s) else None
      case _ => None
  }

  /** Reads a string of decimal digits, from the last digit back; `None` at any other character. */
  function ParseDigits(s: string): Option<nat>
    decreases |s|
  {
    if s == [] then Some(0)
    else if !IsDigit(s[|s| - 1]) then None
    else
      match ParseDigits(s[..|s| - 1])
      case None => None
      case Some(v) => Some(v * 10 + (s[|s| - 1] as int - '0' as int))
  }

  /** A digit string parses to the number it denotes. */
  lemma {:induction false} ParseDigitsValue(s: string)
    requires AllDigits(s)
    ensures ParseDigits(s) == Some(DigitsValue(s))
    decreases |s|
  {
    if s != [] {
      ParseDigitsValue(s[..|s| - 1]);
    }
  }

  /** A padded field of a non-negative number is at least two digits and denotes the number. */
  lemma FieldDigits(x: nat)
    ensures |Field(x)| >= 2 && AllDigits(Field(x)) && DigitsValue(Field(x)) == x
    ensures x < 100 ==> |Field(x)| == 2
  {
    var d := IntToString(x);
    PadZeros(d, 2);
    if x < 100 && |d| > 2 {
      DigitsBound(d);
      assert false;
    }
  }

  /** A digit string of length three or more without a leading zero denotes at least 100. */
  lemma DigitsBound(d: string)
    requires |d| >= 3 && AllDigits(d) && d[0] != '0'
    ensures DigitsValue(d) >= 100
    decreases |d|
  {
    var p := d[..|d| - 1];
    if |p| >= 3 {
      DigitsBound(p);
    } else {
      assert p[..1] == [d[0]];
      assert DigitsValue(p[..1]) >= 1;
      assert p[..|p| - 1] == p[..1];
    }
  }

  /** `ParseClock` cuts a text of the form `a + " : " + b`, with a two-character `b`, back into its three parts. */
  lemma CutJoined(text: string, a: string, b: string)
    requires text == a + " : " + b && |a| >= 2 && |b| == 2
    ensures ParseClock(text) == ParseParts(a, " : ", b)
  {
    var n := |text|;
    assert text[..n - 5] == a;
    assert text[n - 5..n - 2] == " : ";
    assert text[n - 2..] == b;
  }

  /** The three parts of a display: digits, " : ", and two digits below 60 parse to minutes times 60 plus seconds. */
  lemma ParseJoined(a: string, b: string, m: nat, s: nat)
    requires AllDigits(a) && DigitsValue(a) == m
    requires AllDigits(b) && DigitsValue(b) == s && s < 60
    ensures ParseParts(a, " : ", b) == Some(m * 60 + s)
  {
    ParseDigitsValue(a);
    ParseDigitsValue(b);
  }

  /**
    For a non-negative number of seconds, the display is the minutes `sec / 60`
    in at least two digits, " : ", and the seconds `sec % 60` in exactly two
    digits.
  */
  lemma FormatTimeFields(sec: nat)
    ensures exists mins, secs ::
      && FormatTime(Some(sec)) == mins + " : " + secs
      && |mins| >= 2 && AllDigits(mins) && DigitsValue(mins) == sec / 60
      && |secs| == 2 && AllDigits(secs) && DigitsValue(secs) == sec % 60
  {
    var m, s := FloorDiv(sec, 60), JsRem(sec, 60);
    assert m == sec / 60;
    assert s == sec % 60;
    FieldDigits(m);
    FieldDigits(s);
    assert FormatTime(Some(sec)) == Field(m) + " : " + Field(s);
  }

  /** A text made of the two fields parses back to the seconds they stand for. */
  lemma ParseBack(text: string, sec: nat)
    requires exists mins, secs ::
      && text == mins + " : " + secs
      && |mins| >= 2 && AllDigits(mins) && DigitsValue(mins) == sec / 60
      && |secs| == 2 && AllDigits(secs) && DigitsValue(secs) == sec % 60
    ensures ParseClock(text) == Some(sec)
  {
    var mins, secs :| && text == mins + " : " + secs
      && |mins| >= 2 && AllDigits(mins) && DigitsValue(mins) == sec / 60
      && |secs| == 2 && AllDigits(secs) && DigitsValue(secs) == sec % 60;
    CutJoined(text, mins, secs);
    ParseJoined(mins, secs, sec / 60, sec % 60);
  }

  /** The display of a non-negative countdown loses nothing: parsing it gives the seconds back. */
  lemma ClockRoundTrip(sec: nat)
    ensures ParseClock(FormatTime(Some(sec))) == Some(sec)
  {
    FormatTimeFields(sec);
    ParseBack(FormatTime(Some(sec)), sec);
  }

  /**
    A negative countdown, which a negative time limit gives before the first
    tick, shows the minutes rounded down but the seconds truncated toward
    zero: -61 seconds reads "-2 : -1".
  */
  lemma NegativeDisplay()
    ensures FormatTime(Some(-61)) == "-2 : -1"
  {
    assert FloorDiv(-61, 60) == -2;
    assert JsRem(-61, 60) == -1;
  }
}
