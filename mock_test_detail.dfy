/** The timed attempt at a mock test: a start screen, a test screen with a countdown
    clock and question navigation, and a result screen with the score and an answer
    review. The page keeps five pieces of state (started, submitted, the current
    question, the answer slots and the seconds left); `Attempt` holds them. */
module MockTestDetail {
  import opened Wrappers
  import opened Text
  import opened Scoring
  import MockTests

  /** A question as the page uses it: its options and the index of the right one. */
  datatype Question = Question(id: string, options: seq<string>, correctAnswer: int)

  /** The question set the page shows for every test. */
  const SampleQuestions: seq<Question> := [
    Question("q1", ["cos(x)", "-cos(x)", "sin(x)", "-sin(x)"], 0),
    Question("q2", ["F = ma", "Every action has an equal and opposite reaction",
                    "An object at rest stays at rest unless acted upon by a force",
                    "Energy cannot be created or destroyed"], 2),
    Question("q3", ["1757", "1857", "1947", "1764"], 0),
    Question("q4", ["Queue", "Stack", "Array", "Linked List"], 1),
    Question("q5", ["Charles Dickens", "William Shakespeare", "Jane Austen", "Mark Twain"], 1)
  ]

  // ---------------------------------------------------------------- finding the test

  /** `mockTests.find(t => t.id === id)`: the first test with that id, or `None`, in
      which case the page shows "Test not found". */
  function FindTest(tests: seq<MockTests.MockTest>, id: string): (r: Option<MockTests.MockTest>)
    ensures r.None? <==> forall i :: 0 <= i < |tests| ==> tests[i].id != id
    ensures r.Some? ==> exists i :: 0 <= i < |tests| && tests[i] == r.value && FirstWithId(tests, id, i)
  {
    if tests == [] then None
    else if tests[0].id == id then
      assert FirstWithId(tests, id, 0);
      Some(tests[0])
    else
      var r := FindTest(tests[1..], id);
      assert r.Some? ==> exists i :: 0 <= i < |tests| && tests[i] == r.value && FirstWithId(tests, id, i) by {
        if r.Some? {
          var i :| 0 <= i < |tests| - 1 && tests[1..][i] == r.value && FirstWithId(tests[1..], id, i);
          assert FirstWithId(tests, id, i + 1);
        }
      }
      r
  }

  /** Test `i` has the id and no earlier test has it. */
  predicate FirstWithId(tests: seq<MockTests.MockTest>, id: string, i: int)
  {
    0 <= i < |tests| && tests[i].id == id && forall j :: 0 <= j < i ==> tests[j].id != id
  }

  // ---------------------------------------------------------------- score

  /** Slot `i` holds the right answer to question `i`. An empty slot (`null`) never does,
      and neither does a slot with no question behind it (`undefined`). */
  predicate IsCorrectAt(answers: seq<Option<int>>, questions: seq<Question>, i: int)
  {
    0 <= i < |answers| && i < |questions| && answers[i] == Some(questions[i].correctAnswer)
  }

  /** The number of correct slots among the first `k`. */
  function CorrectUpTo(answers: seq<Option<int>>, questions: seq<Question>, k: nat): (n: nat)
    requires k <= |answers|
    ensures n <= k && n <= |questions|
  {
    if k == 0 then 0
    else CorrectUpTo(answers, questions, k - 1) + (if IsCorrectAt(answers, questions, k - 1) then 1 else 0)
  }

  /** The number of correct answers, at most the number of questions. */
  function CorrectCount(answers: seq<Option<int>>, questions: seq<Question>): (n: nat)
    ensures n <= |answers| && n <= |questions|
  {
    CorrectUpTo(answers, questions, |answers|)
  }

  /** The positions answered correctly. */
  function CorrectPositions(answers: seq<Option<int>>, questions: seq<Question>): set<int>
  {
    set i | 0 <= i < |answers| && IsCorrectAt(answers, questions, i)
  }

  lemma {:induction false} CorrectUpToIsSize(answers: seq<Option<int>>, questions: seq<Question>, k: nat)
    requires k <= |answers|
    ensures CorrectUpTo(answers, questions, k) == |set i | 0 <= i < k && IsCorrectAt(answers, questions, i)|
  {
    if k > 0 {
      CorrectUpToIsSize(answers, questions, k - 1);
      var before := set i | 0 <= i < k - 1 && IsCorrectAt(answers, questions, i);
      var now := set i | 0 <= i < k && IsCorrectAt(answers, questions, i);
      if IsCorrectAt(answers, questions, k - 1) {
        assert k - 1 !in before;
        assert now == before + {k - 1};
        assert |now| == |before| + 1;
      } else {
        assert now == before;
      }
    }
  }

  /** The count is the number of positions whose answer equals the question's key. */
  lemma CorrectCountIsSize(answers: seq<Option<int>>, questions: seq<Question>)
    ensures CorrectCount(answers, questions) == |CorrectPositions(answers, questions)|
  {
    CorrectUpToIsSize(answers, questions, |answers|);
  }

  /** What slot `i` adds to the count when it holds `a`. */
  function SlotScore(a: Option<int>, questions: seq<Question>, i: int): nat
  {
    if 0 <= i < |questions| && a == Some(questions[i].correctAnswer) then 1 else 0
  }

  lemma {:induction false} CorrectUpToUpdate(answers: seq<Option<int>>, questions: seq<Question>, i: nat, a: Option<int>, k: nat)
    requires i < |answers| && k <= |answers|
    ensures CorrectUpTo(answers[i := a], questions, k) + (if i < k then SlotScore(answers[i], questions, i) else 0)
         == CorrectUpTo(answers, questions, k) + (if i < k then SlotScore(a, questions, i) else 0)
  {
    if k > 0 {
      CorrectUpToUpdate(answers, questions, i, a, k - 1);
    }
  }

  /** Writing one slot moves the count only by what that slot contributes: every other
      answer keeps its effect on the score. */
  lemma CorrectCountUpdate(answers: seq<Option<int>>, questions: seq<Question>, i: nat, a: Option<int>)
    requires i < |answers|
    ensures CorrectCount(answers[i := a], questions) + SlotScore(answers[i], questions, i)
         == CorrectCount(answers, questions) + SlotScore(a, questions, i)
  {
    CorrectUpToUpdate(answers, questions, i, a, |answers|);
  }

  /** No answers, no score: an attempt submitted blank scores 0. */
  lemma {:induction false} BlankScoresZero(answers: seq<Option<int>>, questions: seq<Question>, k: nat)
    requires k <= |answers|
    requires forall i :: 0 <= i < |answers| ==> answers[i].None?
    ensures CorrectUpTo(answers, questions, k) == 0
  {
    if k > 0 {
      BlankScoresZero(answers, questions, k - 1);
    }
  }

  /** Answering every question with its key scores every question. */
  lemma {:induction false} KeyScoresAll(answers: seq<Option<int>>, questions: seq<Question>, k: nat)
    requires |answers| == |questions| && k <= |answers|
    requires forall i :: 0 <= i < |answers| ==> answers[i] == Some(questions[i].correctAnswer)
    ensures CorrectUpTo(answers, questions, k) == k
  {
    if k > 0 {
      KeyScoresAll(answers, questions, k - 1);
    }
  }

  /** The result card: correct, wrong (every question not answered correctly, so no
      negative marking), total and the rounded percentage. */
  datatype Score = Score(correct: nat, wrong: nat, total: nat, percentage: int)

  /** The review list's tick or cross for each question. */
  function ReviewMarks(answers: seq<Option<int>>, questions: seq<Question>): (marks: seq<bool>)
    ensures |marks| == |questions|
    ensures forall i :: 0 <= i < |questions| ==> (marks[i] <==> IsCorrectAt(answers, questions, i))
  {
    seq(|questions|, i requires 0 <= i < |questions| => i < |answers| && answers[i] == Some(questions[i].correctAnswer))
  }

  /** The review shows exactly as many ticks as the result card counts correct answers. */
  lemma ReviewAgreesWithScore(answers: seq<Option<int>>, questions: seq<Question>)
    ensures var marks := ReviewMarks(answers, questions);
      |set i | 0 <= i < |marks| && marks[i]| == CorrectCount(answers, questions)
  {
    var marks := ReviewMarks(answers, questions);
    CorrectCountIsSize(answers, questions);
    assert (set i | 0 <= i < |marks| && marks[i]) == CorrectPositions(answers, questions);
  }

  // ---------------------------------------------------------------- clock

  /** `formatTime`: minutes, a colon, and the seconds padded to two digits. */
  function FormatTime(seconds: nat): (r: string)
    ensures |r| >= 4 && r[|r| - 3] == ':'
  {
    NatToString(seconds / 60) + ":" + PadStart(NatToString(seconds % 60), 2, '0')
  }

  /** `s.padStart(width, fill)`: `fill` prepended until the length reaches `width`. */
  function PadStart(s: string, width: nat, fill: char): (r: string)
    ensures |r| == if |s| >= width then |s| else width
    ensures forall i :: 0 <= i < |r| - |s| ==> r[i] == fill
    ensures r[|r| - |s|..] == s
    decreases width - |s|
  {
    if |s| >= width then s else PadStart([fill] + s, width, fill)
  }

  /** Reading the clock back: the text splits at its one colon into the digits of the
      minutes and two digits of seconds below 60, and minutes * 60 + seconds is the time. */
  lemma FormatTimeReadsBack(seconds: nat)
    ensures var parts := Split(FormatTime(seconds), ':');
      && |parts| == 2 && AllDigits(parts[0]) && AllDigits(parts[1]) && |parts[1]| == 2
      && DecimalValue(parts[1]) < 60
      && DecimalValue(parts[0]) * 60 + DecimalValue(parts[1]) == seconds
  {
    var m := NatToString(seconds / 60);
    var ss := PadStart(NatToString(seconds % 60), 2, '0');
    NatToStringValue(seconds / 60);
    PaddedSeconds(seconds % 60);
    SplitAtColon(m, ss);
  }

  /** The seconds field: two digits that read back as the seconds. */
  lemma PaddedSeconds(n: nat)
    requires n < 60
    ensures var ss := PadStart(NatToString(n), 2, '0');
      |ss| == 2 && AllDigits(ss) && DecimalValue(ss) == n
  {
    var s := NatToString(n);
    var ss := PadStart(s, 2, '0');
    NatToStringValue(n);
    if |s| == 1 {
      assert ss == ['0'] + s;
      assert ss[..1] == "0";
    } else {
      assert ss == s;
    }
  }

  /** Two digit strings joined by a colon split back into the two. */
  lemma SplitAtColon(a: string, b: string)
    requires AllDigits(a) && AllDigits(b)
    ensures Split(a + ":" + b, ':') == [a, b]
  {
    assert ':' !in a by {
      assert forall i :: 0 <= i < |a| ==> IsDigit(a[i]);
    }
    assert ':' !in b by {
      assert forall i :: 0 <= i < |b| ==> IsDigit(b[i]);
    }
    assert Join([a, b], ':') == a + ":" + b;
    SplitJoin([a, b], ':');
  }

  /** One second of the interval callback, as the new (submitted, seconds left). It runs
      only while the test is on screen with time left; at one second or less it stops the
      clock at 0 and submits. */
  function TickStep(started: bool, submitted: bool, timeLeft: int): (bool, int)
  {
    if started && !submitted && timeLeft > 0 then
      if timeLeft <= 1 then (true, 0) else (false, timeLeft - 1)
    else (submitted, timeLeft)
  }

  /** `k` seconds of a started attempt. */
  function Ticks(k: nat, submitted: bool, timeLeft: int): (bool, int)
  {
    if k == 0 then (submitted, timeLeft)
    else
      var next := TickStep(true, submitted, timeLeft);
      Ticks(k - 1, next.0, next.1)
  }

  /** The countdown: `t` seconds after starting with `t` on the clock the attempt is
      submitted with 0 left, and before that it is running with exactly `t - k` left. */
  lemma {:induction false} Countdown(t: nat, k: nat)
    requires 0 < t && k <= t
    ensures Ticks(k, false, t) == if k < t then (false, t - k) else (true, 0)
  {
    if 0 < k {
      if t == 1 {
        assert TickStep(true, false, t) == (true, 0);
        AfterSubmitNothingMoves(k - 1, 0);
      } else {
        assert TickStep(true, false, t) == (false, t - 1);
        Countdown(t - 1, k - 1);
      }
    }
  }

  /** Once submitted the clock is stopped. */
  lemma {:induction false} AfterSubmitNothingMoves(k: nat, t: int)
    ensures Ticks(k, true, t) == (true, t)
  {
    if k > 0 {
      AfterSubmitNothingMoves(k - 1, t);
    }
  }

  // ---------------------------------------------------------------- navigation

  /** The Previous button: one back, never before the first question. */
  function PreviousIndex(q: int): (r: int)
    ensures r == q - 1 || (q <= 0 && r == 0)
    ensures r >= 0
  {
    if q - 1 > 0 then q - 1 else 0
  }

  /** The Next button: one on, never past the last question. */
  function NextIndex(q: int, n: nat): (r: int)
    requires n > 0 && q < n
    ensures r == q + 1 || (q == n - 1 && r == q)
    ensures r < n
  {
    if n - 1 < q + 1 then n - 1 else q + 1
  }

  /** `test.duration || 10`: a missing or zero duration means ten minutes. */
  function StartMinutes(duration: int): (m: int)
    ensures duration != 0 ==> m == duration
    ensures m > 0 <==> duration >= 0
  {
    if duration == 0 then 10 else duration
  }

  /** Which of the three screens (after the test was found) is shown. */
  datatype Screen = StartScreen | TestScreen | ResultScreen

  class Attempt {
    const questions: seq<Question>
    const duration: int
    var started: bool
    var submitted: bool
    var currentQuestion: int
    var answers: seq<Option<int>>
    var timeLeft: int

    /** The state the page can reach: the current question is a question (or 0 when there
        are none), there is one slot per question once started, nothing is left over before
        the start, and a running test always has time on the clock. */
    ghost predicate Valid()
      reads this
    {
      && duration >= 0
      && 0 <= currentQuestion && (currentQuestion < |questions| || currentQuestion == 0)
      && timeLeft >= 0
      && (started ==> |answers| == |questions|)
      && (!started ==> !submitted && answers == [] && timeLeft == 0 && currentQuestion == 0)
      && (started && !submitted ==> timeLeft > 0)
    }

    function CurrentScreen(): (s: Screen)
      reads this
      ensures s == ResultScreen <==> submitted
      ensures s == StartScreen <==> !submitted && !started
    {
      if submitted then ResultScreen else if !started then StartScreen else TestScreen
    }

    /** The test screen renders the current question, so it needs at least one. */
    predicate OnTestScreen()
      reads this
    {
      CurrentScreen() == TestScreen && |questions| > 0
    }

    constructor (questions: seq<Question>, duration: int)
      requires duration >= 0
      ensures Valid()
      ensures this.questions == questions && this.duration == duration
      ensures !started && !submitted && currentQuestion == 0 && answers == [] && timeLeft == 0
    {
      this.questions := questions;
      this.duration := duration;
      started := false;
      submitted := false;
      currentQuestion := 0;
      answers := [];
      timeLeft := 0;
    }

    /** `startTest`: the clock is set to the duration in seconds and every question gets an
        empty slot. */
    method StartTest()
      requires Valid() && CurrentScreen() == StartScreen
      modifies this
      ensures Valid() && CurrentScreen() == TestScreen
      ensures started && !submitted && currentQuestion == 0
      ensures timeLeft == StartMinutes(duration) * 60
      ensures |answers| == |questions| && forall i :: 0 <= i < |answers| ==> answers[i].None?
    {
      started := true;
      timeLeft := StartMinutes(duration) * 60;
      answers := seq(|questions|, _ => None);
    }

    /** `selectAnswer`: the current question's slot, and no other, now holds the choice. */
    method SelectAnswer(optionIndex: int)
      requires Valid() && OnTestScreen()
      modifies this`answers
      ensures Valid()
      ensures currentQuestion < |old(answers)|
      ensures answers == old(answers)[currentQuestion := Some(optionIndex)]
    {
      answers := answers[currentQuestion := Some(optionIndex)];
    }

    /** `submitTest`: shows the results; calling it again changes nothing. */
    method SubmitTest()
      requires Valid() && started
      modifies this`submitted
      ensures Valid() && submitted && CurrentScreen() == ResultScreen
    {
      submitted := true;
    }

    /** `retakeTest`: back to the start screen with nothing kept. */
    method RetakeTest()
      requires Valid()
      modifies this
      ensures Valid() && CurrentScreen() == StartScreen
      ensures !started && !submitted && currentQuestion == 0 && answers == [] && timeLeft == 0
    {
      started := false;
      submitted := false;
      currentQuestion := 0;
      answers := [];
      timeLeft := 0;
    }

    /** One second of the interval timer. */
    method Tick()
      requires Valid()
      modifies this`submitted, this`timeLeft
      ensures Valid()
      ensures (submitted, timeLeft) == TickStep(started, old(submitted), old(timeLeft))
    {
      if started && !submitted && timeLeft > 0 {
        if timeLeft <= 1 {
          submitted := true;
          timeLeft := 0;
        } else {
          timeLeft := timeLeft - 1;
        }
      }
    }

    method Previous()
      requires Valid() && OnTestScreen()
      modifies this`currentQuestion
      ensures Valid() && currentQuestion == PreviousIndex(old(currentQuestion))
    {
      currentQuestion := PreviousIndex(currentQuestion);
    }

    method Next()
      requires Valid() && OnTestScreen()
      modifies this`currentQuestion
      ensures Valid() && currentQuestion == NextIndex(old(currentQuestion), |questions|)
    {
      currentQuestion := NextIndex(currentQuestion, |questions|);
    }

    /** A button of the question navigator. */
    method Jump(index: int)
      requires Valid() && OnTestScreen() && 0 <= index < |questions|
      modifies this`currentQuestion
      ensures Valid() && currentQuestion == index
    {
      currentQuestion := index;
    }

    /** `calculateScore`: a pass over the answer slots counting those equal to the key. */
    method CalculateScore() returns (score: Score)
      requires |questions| > 0
      ensures score.correct == CorrectCount(answers, questions)
      ensures score.total == |questions| && score.correct + score.wrong == score.total
      ensures score.percentage == RoundedPercent(score.correct, score.total)
    {
      var correct := 0;
      var index := 0;
      while index < |answers|
        invariant 0 <= index <= |answers|
        invariant correct == CorrectUpTo(answers, questions, index)
      {
        if index < |questions| && answers[index] == Some(questions[index].correctAnswer) {
          correct := correct + 1;
        }
        index := index + 1;
      }
      score := Score(correct, |questions| - correct, |questions|, RoundedPercent(correct, |questions|));
    }
  }
}
