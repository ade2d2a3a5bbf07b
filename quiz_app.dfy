/**
 * The quiz engine of assets/quizzes/app.js: the session state (current
 * subject, current question, the answers given), scoring, the percentage,
 * the mm:ss rendering of the elapsed time, the navigation affordances of the
 * question screen and the per-subject attempt history.
 *
 * The question bank is QuizData.Bank. The browser is not modelled: the
 * history item of the browser's storage is a field, the clock is a
 * parameter, and rendering is reduced to the values it shows.
 */
module QuizApp {
  import opened Wrappers
  import opened QuizData

  /** The answer recorded for one question; `None` is app.js's `null` (unanswered). */
  type Answer = Option<nat>

  /** One saved attempt; `date` is the locale-formatted date, kept opaque. */
  datatype Attempt = Attempt(date: string, score: nat, totalQuestions: nat, percentage: nat, timeTaken: string)

  /** The attempt history, keyed by subject id, each list in submission order. */
  type History = map<string, seq<Attempt>>

  // ---------------------------------------------------------------------
  // Scoring
  // ---------------------------------------------------------------------

  /** An answer scores when it is exactly the question's correct option; `None` never does. */
  predicate Matches(answer: Answer, q: Question)
  {
    answer == Some(q.correctAnswer)
  }

  /** Only a chosen option can score, and on a well-formed question it is one of the offered options. */
  lemma MatchesIsOfferedOption(answer: Answer, q: Question)
    ensures answer.None? ==> !Matches(answer, q)
    ensures Matches(answer, q) && WellFormedQuestion(q) ==> answer.value < q.optionCount
  {
  }

  /** The number of positions whose answer matches its question, counted left to right. */
  function Score(answers: seq<Answer>, questions: seq<Question>): (r: nat)
    requires |answers| == |questions|
    ensures r <= |answers|
  {
    if |answers| == 0 then 0
    else
      var n := |answers| - 1;
      Score(answers[..n], questions[..n]) + (if Matches(answers[n], questions[n]) then 1 else 0)
  }

  /** The positions whose answer is correct. */
  ghost function CorrectPositions(answers: seq<Answer>, questions: seq<Question>): set<nat>
    requires |answers| == |questions|
  {
    set i: nat | i < |answers| && Matches(answers[i], questions[i])
  }

  /** The score is the number of correctly answered positions. */
  lemma {:induction false} ScoreCountsCorrectPositions(answers: seq<Answer>, questions: seq<Question>)
    requires |answers| == |questions|
    ensures Score(answers, questions) == |CorrectPositions(answers, questions)|
  {
    if |answers| > 0 {
      var n := |answers| - 1;
      ScoreCountsCorrectPositions(answers[..n], questions[..n]);
      var before := CorrectPositions(answers[..n], questions[..n]);
      var last: set<nat> := if Matches(answers[n], questions[n]) then {n} else {};
      assert CorrectPositions(answers, questions) == before + last;
      assert n !in before;
    }
  }

  /** The score is zero exactly when no answer matches (in particular when none is given). */
  lemma {:induction false} ScoreZeroIff(answers: seq<Answer>, questions: seq<Question>)
    requires |answers| == |questions|
    ensures Score(answers, questions) == 0 <==>
            forall i :: 0 <= i < |answers| ==> !Matches(answers[i], questions[i])
  {
    if |answers| > 0 {
      var n := |answers| - 1;
      ScoreZeroIff(answers[..n], questions[..n]);
      assert forall i :: 0 <= i < n ==> answers[..n][i] == answers[i] && questions[..n][i] == questions[i];
    }
  }

  /** The score is the question count exactly when every answer matches. */
  lemma {:induction false} ScorePerfectIff(answers: seq<Answer>, questions: seq<Question>)
    requires |answers| == |questions|
    ensures Score(answers, questions) == |answers| <==>
            forall i :: 0 <= i < |answers| ==> Matches(answers[i], questions[i])
  {
    if |answers| > 0 {
      var n := |answers| - 1;
      ScorePerfectIff(answers[..n], questions[..n]);
      assert forall i :: 0 <= i < n ==> answers[..n][i] == answers[i] && questions[..n][i] == questions[i];
    }
  }

  /** A session with nothing answered scores zero. */
  lemma ScoreAllUnanswered(answers: seq<Answer>, questions: seq<Question>)
    requires |answers| == |questions|
    requires forall i :: 0 <= i < |answers| ==> answers[i] == None
    ensures Score(answers, questions) == 0
  {
    ScoreZeroIff(answers, questions);
  }

  /** Changing one answer changes the score only by what that position contributes. */
  lemma {:induction false} ScoreAfterUpdate(answers: seq<Answer>, questions: seq<Question>, k: nat, a: Answer)
    requires |answers| == |questions| && k < |answers|
    ensures Score(answers[k := a], questions) + (if Matches(answers[k], questions[k]) then 1 else 0)
         == Score(answers, questions) + (if Matches(a, questions[k]) then 1 else 0)
  {
    var n := |answers| - 1;
    var updated := answers[k := a];
    if k == n {
      assert updated[..n] == answers[..n];
    } else {
      assert updated[..n] == answers[..n][k := a];
      ScoreAfterUpdate(answers[..n], questions[..n], k, a);
    }
  }

  // ---------------------------------------------------------------------
  // Percentage
  // ---------------------------------------------------------------------

  /**
   * The score as a whole percentage of the question count, rounded to the
   * nearest integer with halves rounded up.
   */
  function Percentage(score: nat, total: nat): (p: nat)
    requires total > 0
    ensures (2 * p - 1) * total <= 200 * score < (2 * p + 1) * total
    ensures score <= total ==> p <= 100
    ensures score == 0 ==> p == 0
    ensures score == total ==> p == 100
  {
    PercentageRounds(score, total);
    (200 * score + total) / (2 * total)
  }

  /**
   * With ten questions the exact percentage is a whole number, so the
   * rounding never meets a tie and the result is ten points per correct answer.
   */
  lemma PercentageOfTen(score: nat)
    ensures Percentage(score, 10) == 10 * score
  {
    PercentageIsNearest(score, 10, 10 * score);
  }

  /** The arithmetic behind Percentage's contract, one step at a time. */
  lemma PercentageRounds(score: nat, total: nat)
    requires total > 0
    ensures var p := (200 * score + total) / (2 * total);
      && (2 * p - 1) * total <= 200 * score < (2 * p + 1) * total
      && (score <= total ==> p <= 100)
      && (score == 0 ==> p == 0)
      && (score == total ==> p == 100)
  {
    var x := 200 * score + total;
    var d := 2 * total;
    var p := x / d;
    assert d * p <= x < d * p + d;
    assert (2 * p - 1) * total == d * p - total;
    assert (2 * p + 1) * total == d * p + total;
    if score <= total && p > 100 {
      MonotoneProduct(101, p, d);
      assert false;
    }
    if score == 0 {
      HalfUnitUnique(p, 0, total, 0);
    }
    if score == total {
      HalfUnitUnique(p, 100, total, 200 * score);
    }
  }

  /** The rounding rule picks the only integer within half a unit of the exact percentage. */
  lemma PercentageIsNearest(score: nat, total: nat, p: int)
    requires total > 0
    requires (2 * p - 1) * total <= 200 * score < (2 * p + 1) * total
    ensures p == Percentage(score, total)
  {
    HalfUnitUnique(p, Percentage(score, total), total, 200 * score);
  }

  /** Two integers within half a unit of the same ratio are equal. */
  lemma HalfUnitUnique(p: int, q: int, t: nat, x: int)
    requires t > 0
    requires (2 * p - 1) * t <= x < (2 * p + 1) * t
    requires (2 * q - 1) * t <= x < (2 * q + 1) * t
    ensures p == q
  {
    if p < q {
      MonotoneProduct(2 * p + 1, 2 * q - 1, t);
      assert false;
    } else if p > q {
      MonotoneProduct(2 * q + 1, 2 * p - 1, t);
      assert false;
    }
  }

  lemma MonotoneProduct(a: int, b: int, c: nat)
    requires a <= b
    ensures a * c <= b * c
  {
  }

  // ---------------------------------------------------------------------
  // formatTime: whole seconds as mm:ss
  // ---------------------------------------------------------------------

  predicate IsDigit(c: char)
  {
    '0' <= c <= '9'
  }

  predicate AllDigits(s: string)
  {
    forall i :: 0 <= i < |s| ==> IsDigit(s[i])
  }

  function DigitChar(d: nat): (c: char)
    requires d < 10
    ensures IsDigit(c)
  {
    ('0' as int + d) as char
  }

  function DigitValue(c: char): (v: nat)
    requires IsDigit(c)
  {
    c as int - '0' as int
  }

  /** `n.toString()`: the decimal digits of `n`, without leading zeros. */
  function ToDecimal(n: nat): (s: string)
    ensures |s| >= 1 && AllDigits(s)
  {
    if n < 10 then [DigitChar(n)] else ToDecimal(n / 10) + [DigitChar(n % 10)]
  }

  /** Reads a string of decimal digits back as a number; the partner of ToDecimal. */
  function ParseDecimal(s: string): (v: nat)
    requires AllDigits(s)
  {
    if s == [] then 0 else 10 * ParseDecimal(s[..|s| - 1]) + DigitValue(s[|s| - 1])
  }

  /** `s.padStart(width, fill)`: fill characters in front until the string is `width` long. */
  function PadStart(s: string, width: nat, fill: char): (r: string)
    ensures |r| == if |s| < width then width else |s|
    ensures r[|r| - |s|..] == s
    ensures forall i :: 0 <= i < |r| - |s| ==> r[i] == fill
  {
    if |s| < width then seq(width - |s|, _ => fill) + s else s
  }

  /** `formatTime`: minutes and seconds, each padded with zeros to at least two digits. */
  function FormatTime(seconds: nat): (t: string)
  {
    PadStart(ToDecimal(seconds / 60), 2, '0') + ":" + PadStart(ToDecimal(seconds % 60), 2, '0')
  }

  lemma {:induction false} ParseToDecimal(n: nat)
    ensures ParseDecimal(ToDecimal(n)) == n
  {
    if n >= 10 {
      var s := ToDecimal(n);
      assert s[..|s| - 1] == ToDecimal(n / 10);
      ParseToDecimal(n / 10);
    }
  }

  /** `toString` is canonical: a leading zero only for zero itself, one digit exactly below ten. */
  lemma {:induction false} ToDecimalCanonical(n: nat)
    ensures ToDecimal(n)[0] == '0' <==> n == 0
    ensures |ToDecimal(n)| == 1 <==> n < 10
  {
    if n >= 10 {
      ToDecimalCanonical(n / 10);
      assert ToDecimal(n)[0] == ToDecimal(n / 10)[0];
    }
  }

  /** Below 100 minutes the rendered time is exactly `mm:ss`, five characters. */
  lemma FormatTimeLength(seconds: nat)
    ensures seconds < 6000 ==> |FormatTime(seconds)| == 5
  {
    ToDecimalShort(seconds / 60);
    ToDecimalShort(seconds % 60);
  }

  lemma ToDecimalShort(n: nat)
    ensures n < 100 ==> |ToDecimal(n)| <= 2
  {
    if 10 <= n < 100 {
      assert |ToDecimal(n / 10)| == 1;
    }
  }

  lemma {:induction false} ParseZeros(k: nat)
    ensures AllDigits(seq(k, _ => '0')) && ParseDecimal(seq(k, _ => '0')) == 0
  {
    if k > 0 {
      var z: string := seq(k, _ => '0');
      assert z[..k - 1] == seq(k - 1, _ => '0');
      ParseZeros(k - 1);
    }
  }

  /** Leading zeros do not change the value of a decimal string. */
  lemma {:induction false} ParseLeadingZeros(k: nat, s: string)
    requires AllDigits(s)
    ensures AllDigits(seq(k, _ => '0') + s)
    ensures ParseDecimal(seq(k, _ => '0') + s) == ParseDecimal(s)
  {
    var z: string := seq(k, _ => '0');
    ParseZeros(k);
    if s == [] {
      assert z + s == z;
    } else {
      var t := z + s;
      assert t[..|t| - 1] == z + s[..|s| - 1];
      ParseLeadingZeros(k, s[..|s| - 1]);
    }
  }

  /** Zero padding keeps the digits and their value. */
  lemma ParsePadded(s: string, width: nat)
    requires AllDigits(s)
    ensures AllDigits(PadStart(s, width, '0'))
    ensures ParseDecimal(PadStart(s, width, '0')) == ParseDecimal(s)
  {
    if |s| < width {
      ParseLeadingZeros(width - |s|, s);
    }
  }

  /**
   * The rendered time is a minutes field of at least two characters, a colon
   * and a seconds field of exactly two. A minutes field longer than two
   * digits has no leading zero.
   */
  lemma FormatTimeFields(seconds: nat)
    ensures var t := FormatTime(seconds);
      && |t| >= 5 && t[|t| - 3] == ':'
      && (|t| > 5 ==> t[0] != '0')
  {
    var m := ToDecimal(seconds / 60);
    var mm := PadStart(m, 2, '0');
    var ss := PadStart(ToDecimal(seconds % 60), 2, '0');
    ToDecimalShort(seconds % 60);
    var t := FormatTime(seconds);
    assert t == mm + ":" + ss;
    assert |ss| == 2;
    if |t| > 5 {
      ToDecimalCanonical(seconds / 60);
      assert mm == m;
      assert t[0] == m[0];
    }
  }

  /**
   * Reading the two fields of the rendered time back gives a seconds value
   * below 60 and, with the minutes, the seconds the time was made from.
   */
  lemma FormatTimeRoundTrip(seconds: nat)
    ensures var t := FormatTime(seconds);
      && |t| >= 5 && AllDigits(t[..|t| - 3]) && AllDigits(t[|t| - 2..])
      && ParseDecimal(t[|t| - 2..]) < 60
      && ParseDecimal(t[..|t| - 3]) * 60 + ParseDecimal(t[|t| - 2..]) == seconds
  {
    var m := ToDecimal(seconds / 60);
    var s := ToDecimal(seconds % 60);
    var mm := PadStart(m, 2, '0');
    var ss := PadStart(s, 2, '0');
    ToDecimalShort(seconds % 60);
    ParsePadded(m, 2);
    ParsePadded(s, 2);
    ParseToDecimal(seconds / 60);
    ParseToDecimal(seconds % 60);
    var t := FormatTime(seconds);
    assert t == mm + ":" + ss;
    assert |ss| == 2;
    assert t[..|t| - 3] == mm;
    assert t[|t| - 2..] == ss;
  }

  // ---------------------------------------------------------------------
  // Navigation and the affordances of the question screen
  // ---------------------------------------------------------------------

  /** `nextQuestion`: one step forward unless on the last question. */
  function NextIndex(index: nat, count: nat): (next: nat)
    ensures index < count ==> next < count
    ensures index <= next <= index + 1
    ensures index < count ==> (next == index <==> index == count - 1)
  {
    if index < count - 1 then index + 1 else index
  }

  /** `prevQuestion`: one step back unless on the first question. */
  function PrevIndex(index: nat): (prev: nat)
    ensures prev <= index <= prev + 1
    ensures prev == index <==> index == 0
  {
    if index > 0 then index - 1 else index
  }

  /** Which navigation controls the question screen offers. */
  datatype NavButtons = NavButtons(prevDisabled: bool, nextDisabled: bool, submitShown: bool)

  /**
   * The control state `displayQuestion` sets for the question at `index` of
   * `count`. A disabled control is exactly one whose command would do
   * nothing, and the submit control appears exactly where "next" is disabled.
   */
  function Buttons(index: nat, count: nat): (b: NavButtons)
    ensures b.prevDisabled <==> PrevIndex(index) == index
    ensures index < count ==> (b.nextDisabled <==> NextIndex(index, count) == index)
    ensures b.submitShown <==> b.nextDisabled
  {
    NavButtons(index == 0, index == count - 1, index == count - 1)
  }

  /** Stepping forward and back again (or back and forward) returns to the same question. */
  lemma NavigationInverse(index: nat, count: nat)
    requires index < count
    ensures index < count - 1 ==> PrevIndex(NextIndex(index, count)) == index
    ensures index > 0 ==> NextIndex(PrevIndex(index), count) == index
  {
  }

  // ---------------------------------------------------------------------
  // The attempt history
  // ---------------------------------------------------------------------

  /**
   * The attempts recorded for a subject; none when the subject has no entry.
   * It is empty exactly when the results screen shows "No previous attempts".
   */
  function AttemptsFor(h: History, subject: string): (r: seq<Attempt>)
    ensures r == [] <==> subject !in h || h[subject] == []
  {
    if subject in h then h[subject] else []
  }

  /** `saveAttempt`'s update: one record at the end of the subject's list, created empty if absent. */
  function AppendAttempt(h: History, subject: string, a: Attempt): (r: History)
    ensures r.Keys == h.Keys + {subject}
    ensures AttemptsFor(r, subject) == AttemptsFor(h, subject) + [a]
    ensures forall s :: s in h && s != subject ==> r[s] == h[s]
    ensures forall s :: s in h ==> s in r && h[s] <= r[s]
  {
    h[subject := AttemptsFor(h, subject) + [a]]
  }

  /** The history after saving the attempts `records`, in order, for one subject. */
  function AppendAll(h: History, subject: string, records: seq<Attempt>): (r: History)
  {
    if records == [] then h
    else AppendAttempt(AppendAll(h, subject, records[..|records| - 1]), subject, records[|records| - 1])
  }

  /**
   * After N submissions for a subject its list has grown by exactly those N
   * records in submission order, and every other subject's list is as before.
   */
  lemma {:induction false} AppendAllAccumulates(h: History, subject: string, records: seq<Attempt>, other: string)
    ensures AttemptsFor(AppendAll(h, subject, records), subject) == AttemptsFor(h, subject) + records
    ensures other != subject ==> AttemptsFor(AppendAll(h, subject, records), other) == AttemptsFor(h, other)
  {
    if records != [] {
      var n := |records| - 1;
      AppendAllAccumulates(h, subject, records[..n], other);
      assert records == records[..n] + [records[n]];
    }
  }

  /** `initializeQuizData`'s outcome: the stored history, or an empty one when none is stored. */
  function InitialHistory(stored: Option<History>): (h: History)
  {
    if stored.Some? then stored.value else map[]
  }

  /** Initialising an already initialised history changes nothing, so a reload keeps every record. */
  lemma ReloadKeepsHistory(stored: Option<History>)
    ensures InitialHistory(Some(InitialHistory(stored))) == InitialHistory(stored)
  {
  }

  // ---------------------------------------------------------------------
  // The session
  // ---------------------------------------------------------------------

  /** The quiz page: its three session variables and the stored attempt history. */
  class Quiz {
    var currentSubject: string
    var currentIndex: nat
    var answers: array<Answer>
    /** The history item of the browser's storage; `None` while it does not exist. */
    var stored: Option<History>

    /** After page initialisation the history item always exists. */
    ghost predicate Valid()
      reads this
    {
      stored.Some?
    }

    /** A quiz for a subject of the bank is running: one answer slot per question, index in range. */
    ghost predicate InProgress()
      reads this
    {
      currentSubject in Bank &&
      answers.Length == |Bank[currentSubject].questions| &&
      currentIndex < answers.Length
    }

    /** The questions of the running quiz. */
    function Questions(): (qs: seq<Question>)
      reads this
      requires currentSubject in Bank
    {
      Bank[currentSubject].questions
    }

    /** Page load: the session variables start empty and `initializeQuizData` runs. */
    constructor (persisted: Option<History>)
      ensures Valid() && !InProgress()
      ensures currentSubject == "" && currentIndex == 0 && answers.Length == 0
      ensures stored == Some(InitialHistory(persisted))
    {
      currentSubject := "";
      currentIndex := 0;
      answers := new Answer[0](_ => None);
      stored := persisted;
      new;
      InitializeQuizData();
    }

    /** `initializeQuizData`: create an empty history only if none is stored. */
    method InitializeQuizData()
      modifies this`stored
      ensures old(stored).None? ==> stored == Some(map[])
      ensures old(stored).Some? ==> stored == old(stored)
      ensures stored == Some(InitialHistory(old(stored)))
    {
      if stored.None? {
        stored := Some(map[]);
      }
    }

    /**
     * `startQuiz`: point the session at `subject`, at its first question, with
     * every answer unanswered. For a subject the bank does not have, app.js
     * has already written the subject and the index when the bank lookup fails;
     * `found` is false then and the answers are left as they were.
     */
    method StartQuiz(subject: string) returns (found: bool)
      requires Valid()
      modifies this
      ensures Valid() && stored == old(stored)
      ensures found <==> subject in Bank
      ensures currentSubject == subject && currentIndex == 0
      ensures found ==> InProgress() && fresh(answers)
      ensures found ==> forall i :: 0 <= i < answers.Length ==> answers[i] == None
      ensures !found ==> answers == old(answers)
    {
      currentSubject := subject;
      currentIndex := 0;
      if subject !in Bank {
        return false;
      }
      BankWellFormed();
      answers := new Answer[|Bank[subject].questions|](_ => None);
      found := true;
    }

    /**
     * `selectOption`: record `optionIndex` as the answer to the current
     * question, replacing any earlier one. app.js then looks up the
     * option's element, which exists only for an index below the option
     * count; `inRange` says whether it does.
     */
    method SelectOption(optionIndex: nat) returns (inRange: bool)
      requires Valid() && InProgress()
      modifies answers
      ensures Valid() && InProgress()
      ensures answers[..] == old(answers[..])[currentIndex := Some(optionIndex)]
      ensures inRange <==> optionIndex < Questions()[currentIndex].optionCount
    {
      answers[currentIndex] := Some(optionIndex);
      inRange := optionIndex < Questions()[currentIndex].optionCount;
    }

    /** `nextQuestion`: advance unless on the last question; the answers are untouched. */
    method NextQuestion()
      requires Valid() && InProgress()
      modifies this`currentIndex
      ensures Valid() && InProgress()
      ensures currentIndex == NextIndex(old(currentIndex), |Questions()|)
    {
      if currentIndex < |Questions()| - 1 {
        currentIndex := currentIndex + 1;
      }
    }

    /** `prevQuestion`: go back unless on the first question; the answers are untouched. */
    method PrevQuestion()
      requires Valid() && InProgress()
      modifies this`currentIndex
      ensures Valid() && InProgress()
      ensures currentIndex == PrevIndex(old(currentIndex))
    {
      if currentIndex > 0 {
        currentIndex := currentIndex - 1;
      }
    }

    /** `calculateScore`: the number of answers equal to their question's correct option. */
    method CalculateScore() returns (score: nat)
      requires InProgress()
      ensures score == Score(answers[..], Questions())
      ensures score <= answers.Length
    {
      var questions := Questions();
      score := 0;
      var i := 0;
      while i < answers.Length
        invariant 0 <= i <= answers.Length
        invariant score == Score(answers[..i], questions[..i])
      {
        if answers[i] == Some(questions[i].correctAnswer) {
          score := score + 1;
        }
        assert answers[..i + 1][..i] == answers[..i];
        assert questions[..i + 1][..i] == questions[..i];
        i := i + 1;
      }
      assert answers[..i] == answers[..];
      assert questions[..i] == questions;
    }

    /** `saveAttempt`: append one record for the current subject to the stored history. */
    method SaveAttempt(score: nat, totalQuestions: nat, timeTaken: nat, date: string)
      requires Valid() && totalQuestions > 0
      modifies this`stored
      ensures Valid()
      ensures stored == Some(AppendAttempt(old(stored).value, currentSubject,
        Attempt(date, score, totalQuestions, Percentage(score, totalQuestions), FormatTime(timeTaken))))
    {
      var attempts := stored.value;
      var record := Attempt(date, score, totalQuestions, Percentage(score, totalQuestions), FormatTime(timeTaken));
      stored := Some(AppendAttempt(attempts, currentSubject, record));
    }

    /**
     * `submitQuiz`: score the session, compute the percentage shown, and
     * save an attempt with the same figures. `elapsedSeconds` is the whole
     * number of seconds the timer reports; `date` is the rendered date.
     */
    method SubmitQuiz(date: string, elapsedSeconds: nat) returns (score: nat, totalQuestions: nat, percentage: nat)
      requires Valid() && InProgress()
      modifies this`stored
      ensures Valid() && InProgress()
      ensures totalQuestions == |Questions()| && score <= totalQuestions
      ensures score == Score(answers[..], Questions())
      ensures percentage == Percentage(score, totalQuestions) && percentage <= 100
      ensures stored == Some(AppendAttempt(old(stored).value, currentSubject,
        Attempt(date, score, totalQuestions, percentage, FormatTime(elapsedSeconds))))
    {
      totalQuestions := |Questions()|;
      score := CalculateScore();
      percentage := Percentage(score, totalQuestions);
      SaveAttempt(score, totalQuestions, elapsedSeconds, date);
    }
  }

  // ---------------------------------------------------------------------
  // Sessions driven through the commands
  // ---------------------------------------------------------------------

  /**
   * Answering only the first data-structures question, with its correct
   * option 1, scores 1 of 10, which is 10 percent, and adds that one record
   * to the subject's history.
   */
  method FirstAnswerOnlySession(persisted: Option<History>, date: string, elapsedSeconds: nat)
    returns (score: nat, percentage: nat, history: History)
    ensures score == 1 && percentage == 10
    ensures AttemptsFor(history, "dsa") ==
            AttemptsFor(InitialHistory(persisted), "dsa") + [Attempt(date, 1, 10, 10, FormatTime(elapsedSeconds))]
  {
    var quiz := new Quiz(persisted);
    var found := quiz.StartQuiz("dsa");
    FirstDsaAnswer();
    ghost var blank := quiz.answers[..];
    var inRange := quiz.SelectOption(1);
    ScoreAllUnanswered(blank, DsaQuestions);
    ScoreAfterUpdate(blank, DsaQuestions, 0, Some(1));
    var total;
    score, total, percentage := quiz.SubmitQuiz(date, elapsedSeconds);
    history := quiz.stored.value;
  }

  /** Starting a subject and submitting straight away scores 0, which is 0 percent. */
  method UnansweredSession(subject: string, persisted: Option<History>, date: string, elapsedSeconds: nat)
    returns (score: nat, percentage: nat, history: History)
    requires subject in Bank
    ensures score == 0 && percentage == 0
    ensures AttemptsFor(history, subject) ==
            AttemptsFor(InitialHistory(persisted), subject) + [Attempt(date, 0, |Bank[subject].questions|, 0, FormatTime(elapsedSeconds))]
  {
    var quiz := new Quiz(persisted);
    var found := quiz.StartQuiz(subject);
    ScoreAllUnanswered(quiz.answers[..], quiz.Questions());
    var total;
    score, total, percentage := quiz.SubmitQuiz(date, elapsedSeconds);
    history := quiz.stored.value;
  }

  /** Choosing option `first` and then option `second` for a question leaves only `second` scored. */
  method ChangedAnswerSession(first: nat, second: nat, persisted: Option<History>, date: string, elapsedSeconds: nat)
    returns (score: nat)
    ensures score == if second == 1 then 1 else 0
  {
    var quiz := new Quiz(persisted);
    var found := quiz.StartQuiz("dsa");
    FirstDsaAnswer();
    ghost var blank := quiz.answers[..];
    var inRange := quiz.SelectOption(first);
    inRange := quiz.SelectOption(second);
    assert quiz.answers[..] == blank[0 := Some(second)];
    ScoreAllUnanswered(blank, DsaQuestions);
    ScoreAfterUpdate(blank, DsaQuestions, 0, Some(second));
    var total, percentage;
    score, total, percentage := quiz.SubmitQuiz(date, elapsedSeconds);
  }

  /**
   * Reloading the page after a submission keeps the saved history: the new
   * page starts with exactly the history the old one stored, which has one
   * more record for the subject than before the quiz.
   */
  method ReloadAfterSubmit(subject: string, persisted: Option<History>, date: string, elapsedSeconds: nat)
    returns (saved: History, reloaded: History)
    requires subject in Bank
    ensures reloaded == saved
    ensures AttemptsFor(InitialHistory(persisted), subject) <= AttemptsFor(reloaded, subject)
    ensures |AttemptsFor(reloaded, subject)| == |AttemptsFor(InitialHistory(persisted), subject)| + 1
  {
    var quiz := new Quiz(persisted);
    var found := quiz.StartQuiz(subject);
    var score, total, percentage := quiz.SubmitQuiz(date, elapsedSeconds);
    saved := quiz.stored.value;
    var page := new Quiz(quiz.stored);
    reloaded := page.stored.value;
  }

  /** Starting an unknown subject starts no quiz and leaves the history as it was. */
  method UnknownSubjectSession(persisted: Option<History>) returns (found: bool, history: History)
    ensures !found && history == InitialHistory(persisted)
  {
    var quiz := new Quiz(persisted);
    found := quiz.StartQuiz("nonexistent");
    history := quiz.stored.value;
  }
}
