/** The student dashboard: statistics over the signed-in user's recent test attempts
    (newest first, as the query orders them), a study streak over the last 30 days, a
    score trend, a per-subject summary and the list of recent tests. Days are whole day
    numbers and percentages exact reals. */
module Dashboard {
  import opened Wrappers
  import opened Seqs
  import opened Text
  import opened Scoring

  /** The joined mock test of an attempt; either part may be missing. */
  datatype TestInfo = TestInfo(title: Option<string>, subject: Option<string>)

  datatype TestAttempt = TestAttempt(
    id: string, score: nat, totalQuestions: nat, day: int, timeTaken: Option<nat>, test: Option<TestInfo>)

  /** Every attempt has at least one question, so its percentage is finite. */
  predicate WellFormed(attempts: seq<TestAttempt>)
  {
    forall i :: 0 <= i < |attempts| ==> attempts[i].totalQuestions > 0
  }

  /** No attempt scored more than its number of questions. */
  predicate ScoresWithinTotals(attempts: seq<TestAttempt>)
  {
    forall i :: 0 <= i < |attempts| ==> attempts[i].score <= attempts[i].totalQuestions
  }

  /** `score / total_questions * 100` of an attempt with questions. */
  function AttemptPercent(a: TestAttempt): real
    requires a.totalQuestions > 0
  {
    Percent(a.score, a.totalQuestions)
  }

  /** `score / total_questions * 100` as JavaScript computes it for any attempt: `NaN`
      for no questions and no score, `Infinity` for a score over no questions. */
  function AttemptValue(a: TestAttempt): (r: JsNum)
    ensures a.totalQuestions > 0 ==> r == Finite(AttemptPercent(a))
    ensures r == NaN <==> a.totalQuestions == 0 && a.score == 0
    ensures r == Infinity <==> a.totalQuestions == 0 && a.score > 0
  {
    JsPercent(a.score, a.totalQuestions)
  }

  /** Some attempt's percentage is `NaN`. */
  predicate HasNaN(attempts: seq<TestAttempt>)
  {
    exists i :: 0 <= i < |attempts| && AttemptValue(attempts[i]) == NaN
  }

  /** Some attempt's percentage is `Infinity`. */
  predicate HasInfinity(attempts: seq<TestAttempt>)
  {
    exists i :: 0 <= i < |attempts| && AttemptValue(attempts[i]) == Infinity
  }

  /** All percentages are finite exactly when neither `NaN` nor `Infinity` occurs. */
  lemma WellFormedIffFinite(attempts: seq<TestAttempt>)
    ensures WellFormed(attempts) <==> !HasNaN(attempts) && !HasInfinity(attempts)
  {
    if !WellFormed(attempts) {
      var i :| 0 <= i < |attempts| && attempts[i].totalQuestions == 0;
      assert AttemptValue(attempts[i]) == NaN || AttemptValue(attempts[i]) == Infinity;
    }
  }

  /** The `NaN` and `Infinity` of a list: those of all but its last attempt, or the last. */
  lemma UndefinedOfLast(attempts: seq<TestAttempt>)
    requires attempts != []
    ensures var init, last := attempts[..|attempts| - 1], AttemptValue(attempts[|attempts| - 1]);
      && (HasNaN(attempts) <==> HasNaN(init) || last == NaN)
      && (HasInfinity(attempts) <==> HasInfinity(init) || last == Infinity)
  {
    var init := attempts[..|attempts| - 1];
    assert forall i :: 0 <= i < |init| ==> init[i] == attempts[i];
    assert attempts[|attempts| - 1] == attempts[|init|];
  }

  // ---------------------------------------------------------------- average and best

  /** The `reduce` of the percentages from 0, left to right. */
  function PercentSum(attempts: seq<TestAttempt>): JsNum
  {
    if attempts == [] then Finite(0.0)
    else JsAdd(PercentSum(attempts[..|attempts| - 1]), AttemptValue(attempts[|attempts| - 1]))
  }

  /** The sum is `NaN` as soon as one attempt is `NaN`, otherwise `Infinity` as soon as
      one is, otherwise finite. */
  lemma {:induction false} PercentSumUndefined(attempts: seq<TestAttempt>)
    ensures PercentSum(attempts) == NaN <==> HasNaN(attempts)
    ensures PercentSum(attempts) == Infinity <==> !HasNaN(attempts) && HasInfinity(attempts)
  {
    if attempts != [] {
      PercentSumUndefined(attempts[..|attempts| - 1]);
      UndefinedOfLast(attempts);
    }
  }

  /** `Math.max(...percentages)` of a non-empty list: when finite, one of the percentages,
      all of which are finite and none larger. */
  function PercentMax(attempts: seq<TestAttempt>): (m: JsNum)
    requires attempts != []
    ensures m.Finite? ==> forall i :: 0 <= i < |attempts| ==>
      AttemptValue(attempts[i]).Finite? && AttemptValue(attempts[i]).v <= m.v
    ensures m.Finite? ==> exists i :: 0 <= i < |attempts| && AttemptValue(attempts[i]) == m
  {
    var last := AttemptValue(attempts[|attempts| - 1]);
    if |attempts| == 1 then
      assert attempts[0] == attempts[|attempts| - 1];
      last
    else
      var init := attempts[..|attempts| - 1];
      assert forall i :: 0 <= i < |init| ==> init[i] == attempts[i];
      JsMax(PercentMax(init), last)
  }

  /** The maximum is `NaN` as soon as one percentage is, otherwise `Infinity` as soon as
      one is. */
  lemma {:induction false} PercentMaxUndefined(attempts: seq<TestAttempt>)
    requires attempts != []
    ensures PercentMax(attempts) == NaN <==> HasNaN(attempts)
    ensures PercentMax(attempts) == Infinity <==> !HasNaN(attempts) && HasInfinity(attempts)
  {
    UndefinedOfLast(attempts);
    if |attempts| == 1 {
      assert attempts[0] == attempts[|attempts| - 1];
    } else {
      PercentMaxUndefined(attempts[..|attempts| - 1]);
    }
  }

  /** Tests Taken. */
  function TotalTests(attempts: seq<TestAttempt>): nat
  {
    |attempts|
  }

  /** Avg Score: the rounded mean of the percentages, 0 without attempts. */
  function AvgScore(attempts: seq<TestAttempt>): JsNum
  {
    if |attempts| > 0 then JsRound(JsDivide(PercentSum(attempts), |attempts|)) else Finite(0.0)
  }

  /** Best Score: the rounded largest percentage, 0 without attempts. */
  function BestScore(attempts: seq<TestAttempt>): JsNum
  {
    if |attempts| > 0 then JsRound(PercentMax(attempts)) else Finite(0.0)
  }

  /** Both cards show `NaN%` as soon as one attempt is `0 / 0`, otherwise `Infinity%` as
      soon as one is a score over no questions. */
  lemma ScoresUndefined(attempts: seq<TestAttempt>)
    ensures AvgScore(attempts) == NaN <==> HasNaN(attempts)
    ensures AvgScore(attempts) == Infinity <==> !HasNaN(attempts) && HasInfinity(attempts)
    ensures BestScore(attempts) == NaN <==> HasNaN(attempts)
    ensures BestScore(attempts) == Infinity <==> !HasNaN(attempts) && HasInfinity(attempts)
  {
    PercentSumUndefined(attempts);
    if attempts != [] {
      PercentMaxUndefined(attempts);
    }
  }

  /** One attempt without questions spoils both cards the same way: both show `NaN%`, or
      both `Infinity%`. */
  lemma UndefinedScoresAgree(attempts: seq<TestAttempt>)
    requires !WellFormed(attempts)
    ensures !AvgScore(attempts).Finite? && AvgScore(attempts) == BestScore(attempts)
  {
    WellFormedIffFinite(attempts);
    ScoresUndefined(attempts);
  }

  /** A sum of finite percentages is finite and at most the count times any bound of them. */
  lemma {:induction false} PercentSumBounded(attempts: seq<TestAttempt>, bound: real)
    requires WellFormed(attempts)
    requires forall i :: 0 <= i < |attempts| ==> AttemptPercent(attempts[i]) <= bound
    ensures PercentSum(attempts).Finite? && PercentSum(attempts).v <= |attempts| as real * bound
  {
    if attempts != [] {
      var init := attempts[..|attempts| - 1];
      assert forall i :: 0 <= i < |init| ==> init[i] == attempts[i];
      PercentSumBounded(init, bound);
      assert |attempts| as real * bound == |init| as real * bound + bound;
    }
  }

  /** Each percentage is at least 0, so a finite sum is too. */
  lemma {:induction false} PercentSumNonNegative(attempts: seq<TestAttempt>)
    requires WellFormed(attempts)
    ensures PercentSum(attempts).Finite? && PercentSum(attempts).v >= 0.0
  {
    if attempts != [] {
      var init := attempts[..|attempts| - 1];
      assert forall i :: 0 <= i < |init| ==> init[i] == attempts[i];
      PercentSumNonNegative(init);
      var last := attempts[|attempts| - 1];
      assert last.score as real / last.totalQuestions as real >= 0.0;
    }
  }

  /** With every attempt having questions the sum and the maximum are finite. */
  lemma FiniteStats(attempts: seq<TestAttempt>)
    requires WellFormed(attempts) && attempts != []
    ensures PercentSum(attempts).Finite? && PercentMax(attempts).Finite?
  {
    WellFormedIffFinite(attempts);
    PercentSumUndefined(attempts);
    PercentMaxUndefined(attempts);
  }

  /** A mean of finite percentages is at most any bound of them. */
  lemma MeanAtMostBound(attempts: seq<TestAttempt>, bound: real)
    requires WellFormed(attempts) && attempts != []
    requires forall i :: 0 <= i < |attempts| ==> AttemptPercent(attempts[i]) <= bound
    ensures PercentSum(attempts).Finite? && PercentSum(attempts).v / |attempts| as real <= bound
  {
    PercentSumBounded(attempts, bound);
    MeanAtMost(PercentSum(attempts).v, |attempts|, bound);
  }

  /** With every attempt having questions the mean is at most the maximum. */
  lemma MeanAtMostMax(attempts: seq<TestAttempt>)
    requires WellFormed(attempts) && attempts != []
    ensures PercentSum(attempts).Finite? && PercentMax(attempts).Finite?
    ensures PercentSum(attempts).v / |attempts| as real <= PercentMax(attempts).v
  {
    FiniteStats(attempts);
    var m := PercentMax(attempts).v;
    assert forall i :: 0 <= i < |attempts| ==> AttemptPercent(attempts[i]) <= m;
    MeanAtMostBound(attempts, m);
  }

  /** With every attempt having questions, the average is finite and never exceeds the
      best score. */
  lemma AvgAtMostBest(attempts: seq<TestAttempt>)
    requires WellFormed(attempts)
    ensures AvgScore(attempts).Finite? && BestScore(attempts).Finite?
    ensures AvgScore(attempts).v <= BestScore(attempts).v
  {
    if attempts != [] {
      MeanAtMostMax(attempts);
      RoundMonotone(PercentSum(attempts).v / |attempts| as real, PercentMax(attempts).v);
    }
  }

  /** With scores within their totals both statistics are whole percentages in [0, 100]. */
  lemma ScoresArePercentages(attempts: seq<TestAttempt>)
    requires WellFormed(attempts) && ScoresWithinTotals(attempts)
    ensures AvgScore(attempts).Finite? && BestScore(attempts).Finite?
    ensures 0.0 <= AvgScore(attempts).v <= BestScore(attempts).v <= 100.0
    ensures AvgScore(attempts).v.Floor as real == AvgScore(attempts).v
    ensures BestScore(attempts).v.Floor as real == BestScore(attempts).v
  {
    AvgAtMostBest(attempts);
    if attempts != [] {
      FiniteStats(attempts);
      var k :| 0 <= k < |attempts| && AttemptValue(attempts[k]) == PercentMax(attempts);
      PercentBounds(attempts[k].score, attempts[k].totalQuestions);
      RoundMonotone(PercentMax(attempts).v, 100.0);
      PercentSumNonNegative(attempts);
      MeanAtLeastZero(PercentSum(attempts).v, |attempts|);
      RoundMonotone(0.0, PercentSum(attempts).v / |attempts| as real);
    }
  }

  /** A user with no attempts sees 0 tests, 0% average, 0% best and a 0-day streak. */
  lemma NoAttemptsAllZero(today: int)
    ensures TotalTests([]) == 0 && AvgScore([]) == Finite(0.0) && BestScore([]) == Finite(0.0)
    ensures StreakOf([], today) == 0
  {
  }

  // ---------------------------------------------------------------- time

  /** `time_taken || 0`, summed. */
  function TotalTime(attempts: seq<TestAttempt>): nat
  {
    if attempts == [] then 0
    else TotalTime(attempts[..|attempts| - 1]) + attempts[|attempts| - 1].timeTaken.GetOr(0)
  }

  /** Total time adds up over any split of the attempt list. */
  lemma {:induction false} TotalTimeAppend(xs: seq<TestAttempt>, ys: seq<TestAttempt>)
    ensures TotalTime(xs + ys) == TotalTime(xs) + TotalTime(ys)
    decreases |ys|
  {
    if ys == [] {
      assert xs + ys == xs;
    } else {
      var init := ys[..|ys| - 1];
      TotalTimeAppend(xs, init);
      assert (xs + ys)[..|xs + ys| - 1] == xs + init;
    }
  }

  /** An attempt with no recorded time counts as zero wherever it sits in the list. */
  lemma MissingTimeAddsNothing(xs: seq<TestAttempt>, a: TestAttempt, ys: seq<TestAttempt>)
    requires a.timeTaken.None?
    ensures TotalTime(xs + [a] + ys) == TotalTime(xs + ys)
  {
    TotalTimeAppend(xs + [a], ys);
    TotalTimeAppend(xs, ys);
    assert (xs + [a])[..|xs|] == xs;
  }

  /** `Math.round(totalTime / 3600 * 10) / 10`: hours to one decimal. */
  function HoursStudied(totalTime: nat): (h: real)
    ensures (h * 10.0).Floor as real == h * 10.0
    ensures totalTime as real / 3600.0 - 0.05 < h <= totalTime as real / 3600.0 + 0.05
  {
    var tenths := Round(totalTime as real / 3600.0 * 10.0);
    tenths as real / 10.0
  }

  // ---------------------------------------------------------------- streak

  /** Days counted from `k` days ago on: a present day adds one and goes on; a missing day
      ends the count, except today, which is only skipped. The window is 30 days. */
  function StreakFrom(days: seq<int>, today: int, k: nat): (n: nat)
    requires k <= 30
    ensures n <= 30 - k
    decreases 30 - k
  {
    if k == 30 then 0
    else if today - k in days then 1 + StreakFrom(days, today, k + 1)
    else if k > 0 then 0
    else StreakFrom(days, today, k + 1)
  }

  function AttemptDays(attempts: seq<TestAttempt>): (r: seq<int>)
    ensures |r| == |attempts| && forall i :: 0 <= i < |r| ==> r[i] == attempts[i].day
  {
    seq(|attempts|, i requires 0 <= i < |attempts| => attempts[i].day)
  }

  /** The streak the page shows. */
  function StreakOf(attempts: seq<TestAttempt>, today: int): nat
  {
    if attempts == [] then 0 else StreakFrom(AttemptDays(attempts), today, 0)
  }

  /** `getStreak`: the distinct attempt days, then a pass over the last 30 days with a
      `break` at the first gap after today. */
  method GetStreak(attempts: seq<TestAttempt>, today: int) returns (streak: nat)
    ensures streak == StreakOf(attempts, today)
  {
    if |attempts| == 0 {
      return 0;
    }
    var dates := Dedupe(AttemptDays(attempts));
    streak := 0;
    var i := 0;
    while i < 30
      invariant 0 <= i <= 30
      invariant streak + StreakFrom(AttemptDays(attempts), today, i) == StreakFrom(AttemptDays(attempts), today, 0)
    {
      if today - i in dates {
        streak := streak + 1;
      } else if i > 0 {
        break;
      }
      i := i + 1;
    }
  }

  /** There is an attempt `j` days before today. */
  predicate StudiedDaysAgo(days: seq<int>, today: int, j: int)
  {
    today - j in days
  }

  lemma {:induction false} StreakFromIsRun(days: seq<int>, today: int, k: nat)
    requires 0 < k <= 30
    ensures var n := StreakFrom(days, today, k);
      && (forall j :: k <= j < k + n ==> StudiedDaysAgo(days, today, j))
      && (k + n < 30 ==> !StudiedDaysAgo(days, today, k + n))
    decreases 30 - k
  {
    if k < 30 && today - k in days {
      StreakFromIsRun(days, today, k + 1);
    }
  }

  /** The streak is the run of consecutive attempt days ending today, or ending yesterday
      when there was no attempt today; it is cut at 30 days and never exceeds 30. */
  lemma StreakIsRun(days: seq<int>, today: int)
    ensures var start := if today in days then 0 else 1;
      var n := StreakFrom(days, today, 0);
      && n <= 30 - start
      && (forall j :: start <= j < start + n ==> StudiedDaysAgo(days, today, j))
      && (start + n < 30 ==> !StudiedDaysAgo(days, today, start + n))
  {
    StreakFromIsRun(days, today, 1);
    if today in days {
      assert StreakFrom(days, today, 0) == 1 + StreakFrom(days, today, 1);
    } else {
      assert StreakFrom(days, today, 0) == StreakFrom(days, today, 1);
    }
  }

  // ---------------------------------------------------------------- trend

  datatype TrendPoint = TrendPoint(test: nat, score: JsNum, name: string)

  /** `a.mock_tests?.title?.substring(0, 15) || 'Test <n>'`. */
  function TrendName(a: TestAttempt, n: nat): (name: string)
    ensures a.test.Some? && a.test.value.title.Some? && a.test.value.title.value != [] ==>
      name == Take(a.test.value.title.value, 15)
    ensures !(a.test.Some? && a.test.value.title.Some? && a.test.value.title.value != []) ==>
      name == "Test " + NatToString(n)
  {
    if a.test.Some? && a.test.value.title.Some? && Take(a.test.value.title.value, 15) != [] then
      Take(a.test.value.title.value, 15)
    else "Test " + NatToString(n)
  }

  /** `[...attempts].reverse().slice(-10).map(...)`: the ten most recent attempts, oldest
      first, numbered from 1, each with its rounded percentage (a whole number for an
      attempt with questions, `NaN` or `Infinity` for one without). */
  function ScoreTrend(attempts: seq<TestAttempt>): (r: seq<TrendPoint>)
    ensures |r| == if |attempts| < 10 then |attempts| else 10
    ensures forall i :: 0 <= i < |r| ==>
      var a := attempts[|r| - 1 - i];
      && r[i].test == i + 1 && r[i].name == TrendName(a, i + 1)
      && r[i].score == JsRound(AttemptValue(a))
      && (a.totalQuestions > 0 ==> r[i].score == Finite(Round(AttemptPercent(a)) as real))
  {
    var recent := TakeLast(Reverse(attempts), 10);
    seq(|recent|, i requires 0 <= i < |recent| =>
      TrendPoint(i + 1, JsRound(AttemptValue(recent[i])), TrendName(recent[i], i + 1)))
  }

  // ---------------------------------------------------------------- subjects

  /** `a.mock_tests?.subject || 'Unknown'`. */
  function SubjectName(a: TestAttempt): (s: string)
    ensures s != ""
  {
    if a.test.Some? && a.test.value.subject.Some? && a.test.value.subject.value != "" then
      a.test.value.subject.value
    else "Unknown"
  }

  function SubjectNames(attempts: seq<TestAttempt>): (r: seq<string>)
    ensures |r| == |attempts| && forall i :: 0 <= i < |r| ==> r[i] == SubjectName(attempts[i])
  {
    seq(|attempts|, i requires 0 <= i < |attempts| => SubjectName(attempts[i]))
  }

  datatype SubjectStats = SubjectStats(total: nat, score: nat, count: nat)

  /** `existing.total += ...; existing.score += ...; existing.count += 1`. */
  function Bump(s: SubjectStats, a: TestAttempt): SubjectStats
  {
    SubjectStats(s.total + a.totalQuestions, s.score + a.score, s.count + 1)
  }

  /** The totals of the attempts filed under `subject`. */
  function StatsFor(attempts: seq<TestAttempt>, subject: string): SubjectStats
  {
    if attempts == [] then SubjectStats(0, 0, 0)
    else
      var s := StatsFor(attempts[..|attempts| - 1], subject);
      var a := attempts[|attempts| - 1];
      if SubjectName(a) == subject then Bump(s, a) else s
  }

  /** The count kept for a subject is the number of attempts filed under it. */
  lemma {:induction false} StatsCountIsCount(attempts: seq<TestAttempt>, subject: string)
    ensures StatsFor(attempts, subject).count == Count(SubjectNames(attempts), subject)
  {
    if attempts != [] {
      var init := attempts[..|attempts| - 1];
      StatsCountIsCount(init, subject);
      assert SubjectNames(attempts)[..|attempts| - 1] == SubjectNames(init);
    }
  }

  /** Sum of the attempt counts of the given subjects. */
  function CountSum(keys: seq<string>, attempts: seq<TestAttempt>): nat
  {
    if keys == [] then 0 else CountSum(keys[..|keys| - 1], attempts) + StatsFor(attempts, keys[|keys| - 1]).count
  }

  lemma {:induction false} CountSumIsSumOfCounts(keys: seq<string>, attempts: seq<TestAttempt>)
    ensures CountSum(keys, attempts) == SumOfCounts(keys, SubjectNames(attempts))
  {
    if keys != [] {
      CountSumIsSumOfCounts(keys[..|keys| - 1], attempts);
      StatsCountIsCount(attempts, keys[|keys| - 1]);
    }
  }

  /** Every attempt is filed under exactly one subject: the per-subject counts add up to
      the number of attempts. */
  lemma SubjectCountsSum(attempts: seq<TestAttempt>)
    ensures CountSum(Dedupe(SubjectNames(attempts)), attempts) == |attempts|
  {
    CountSumIsSumOfCounts(Dedupe(SubjectNames(attempts)), attempts);
    DedupeCountsSum(SubjectNames(attempts));
  }

  /** The names of a non-empty prefix: those of all but its last attempt, then the last. */
  lemma SubjectNamesLast(prefix: seq<TestAttempt>)
    requires prefix != []
    ensures SubjectNames(prefix) == SubjectNames(prefix[..|prefix| - 1]) + [SubjectName(prefix[|prefix| - 1])]
  {
  }

  /** What the loop keeps about the map built from `prefix`: the key order, and the
      entries, which are the sums of the attempts filed under each key (no key, no
      attempt). */
  ghost predicate SubjectMapOf(prefix: seq<TestAttempt>, keys: seq<string>, stats: map<string, SubjectStats>)
  {
    && keys == Dedupe(SubjectNames(prefix))
    && (forall s :: s in stats <==> s in keys)
    && EntriesOf(prefix, stats)
  }

  ghost predicate EntriesOf(prefix: seq<TestAttempt>, stats: map<string, SubjectStats>)
  {
    forall s :: StatsFor(prefix, s) == if s in stats then stats[s] else SubjectStats(0, 0, 0)
  }

  lemma EntriesStep(prefix: seq<TestAttempt>, stats: map<string, SubjectStats>)
    requires prefix != [] && EntriesOf(prefix[..|prefix| - 1], stats)
    ensures var init, subject := prefix[..|prefix| - 1], SubjectName(prefix[|prefix| - 1]);
      EntriesOf(prefix, stats[subject := Bump(StatsFor(init, subject), prefix[|prefix| - 1])])
  {
  }

  /** The JavaScript `Map` after the attempts of `prefix`, as its key order (a `Map`
      iterates in insertion order, and `set` on a present key keeps its place) and its
      entries. */
  function SubjectMap(prefix: seq<TestAttempt>): (seq<string>, map<string, SubjectStats>)
  {
    if prefix == [] then ([], map[])
    else MapStep(SubjectMap(prefix[..|prefix| - 1]), prefix[|prefix| - 1])
  }

  /** One pass of the loop body: the attempt is added to its subject's entry, which is
      created (and its key appended) when missing. */
  function MapStep(m: (seq<string>, map<string, SubjectStats>), a: TestAttempt): (seq<string>, map<string, SubjectStats>)
  {
    var subject := SubjectName(a);
    var existing := if subject in m.1 then m.1[subject] else SubjectStats(0, 0, 0);
    (if subject in m.1 then m.0 else m.0 + [subject], m.1[subject := Bump(existing, a)])
  }

  /** One more attempt keeps the map in step with the attempts seen. */
  lemma SubjectMapStep(prefix: seq<TestAttempt>, m: (seq<string>, map<string, SubjectStats>))
    requires prefix != [] && SubjectMapOf(prefix[..|prefix| - 1], m.0, m.1)
    ensures SubjectMapOf(prefix, MapStep(m, prefix[|prefix| - 1]).0, MapStep(m, prefix[|prefix| - 1]).1)
  {
    var init, subject := prefix[..|prefix| - 1], SubjectName(prefix[|prefix| - 1]);
    assert StatsFor(init, subject) == if subject in m.1 then m.1[subject] else SubjectStats(0, 0, 0);
    KeysStep(prefix, m);
    EntriesStep(prefix, m.1);
  }

  /** The key order after one more attempt. */
  lemma KeysStep(prefix: seq<TestAttempt>, m: (seq<string>, map<string, SubjectStats>))
    requires prefix != [] && m.0 == Dedupe(SubjectNames(prefix[..|prefix| - 1]))
    requires forall s :: s in m.1 <==> s in m.0
    ensures var next := MapStep(m, prefix[|prefix| - 1]);
      next.0 == Dedupe(SubjectNames(prefix)) && forall s :: s in next.1 <==> s in next.0
  {
    SubjectNamesLast(prefix);
    DedupeSnoc(SubjectNames(prefix[..|prefix| - 1]), SubjectName(prefix[|prefix| - 1]));
  }

  /** The map holds each subject once, in order of first appearance, with the totals of
      the attempts filed under it. */
  lemma {:induction false} SubjectMapMeaning(prefix: seq<TestAttempt>)
    ensures SubjectMapOf(prefix, SubjectMap(prefix).0, SubjectMap(prefix).1)
  {
    if prefix != [] {
      SubjectMapMeaning(prefix[..|prefix| - 1]);
      SubjectMapStep(prefix, SubjectMap(prefix[..|prefix| - 1]));
    }
  }

  /** The `subjectMap` loop: each subject once, in order of first appearance, with the
      sums of its attempts. */
  method BuildSubjectMap(attempts: seq<TestAttempt>) returns (keys: seq<string>, stats: map<string, SubjectStats>)
    ensures keys == Dedupe(SubjectNames(attempts))
    ensures forall s :: s in stats <==> s in keys
    ensures forall s :: s in stats ==> stats[s] == StatsFor(attempts, s)
  {
    keys, stats := [], map[];
    var i := 0;
    while i < |attempts|
      invariant 0 <= i <= |attempts|
      invariant (keys, stats) == SubjectMap(attempts[..i])
    {
      var a := attempts[i];
      var subject := SubjectName(a);
      var existing := if subject in stats then stats[subject] else SubjectStats(0, 0, 0);
      if subject !in stats {
        keys := keys + [subject];
      }
      stats := stats[subject := Bump(existing, a)];
      assert attempts[..i + 1][..i] == attempts[..i];
      i := i + 1;
    }
    assert attempts[..i] == attempts;
    SubjectMapMeaning(attempts);
  }

  /** A subject with an attempt has questions, so its average is defined. */
  lemma {:induction false} StatsTotalCoversCount(attempts: seq<TestAttempt>, subject: string)
    requires WellFormed(attempts)
    ensures StatsFor(attempts, subject).total >= StatsFor(attempts, subject).count
  {
    if attempts != [] {
      var init := attempts[..|attempts| - 1];
      assert WellFormed(init) by {
        assert forall i :: 0 <= i < |init| ==> init[i] == attempts[i];
      }
      StatsTotalCoversCount(init, subject);
    }
  }

  datatype SubjectRow = SubjectRow(subject: string, avg: JsNum, tests: nat)

  /** `subjectData`: one bar per map entry, in the map's order, with the subject cut to 12
      characters, `Math.round(score / total * 100)` and the number of tests. */
  function SubjectData(keys: seq<string>, stats: map<string, SubjectStats>): (rows: seq<SubjectRow>)
    requires forall i :: 0 <= i < |keys| ==> keys[i] in stats
    ensures |rows| == |keys|
    ensures forall i :: 0 <= i < |keys| ==>
      && rows[i].subject == Take(keys[i], 12)
      && rows[i].avg == JsRound(JsPercent(stats[keys[i]].score, stats[keys[i]].total))
      && rows[i].tests == stats[keys[i]].count
  {
    seq(|keys|, i requires 0 <= i < |keys| =>
      SubjectRow(Take(keys[i], 12), JsRound(JsPercent(stats[keys[i]].score, stats[keys[i]].total)), stats[keys[i]].count))
  }

  /** The tests column of the bars, summed. */
  function TestsColumn(rows: seq<SubjectRow>): nat
  {
    if rows == [] then 0 else TestsColumn(rows[..|rows| - 1]) + rows[|rows| - 1].tests
  }

  /** Bars whose entries are the attempts' totals have a tests column summing to the
      attempt counts of their subjects. */
  lemma {:induction false} TestsColumnIsCountSum(keys: seq<string>, stats: map<string, SubjectStats>, attempts: seq<TestAttempt>)
    requires forall i :: 0 <= i < |keys| ==> keys[i] in stats && stats[keys[i]] == StatsFor(attempts, keys[i])
    ensures TestsColumn(SubjectData(keys, stats)) == CountSum(keys, attempts)
  {
    if keys != [] {
      var init := keys[..|keys| - 1];
      assert forall i :: 0 <= i < |init| ==> init[i] == keys[i];
      TestsColumnIsCountSum(init, stats, attempts);
      var rows := SubjectData(keys, stats);
      assert rows[..|rows| - 1] == SubjectData(init, stats);
    }
  }

  /** No subject scored more than its questions when no attempt did. */
  lemma {:induction false} StatsScoreWithinTotal(attempts: seq<TestAttempt>, subject: string)
    requires ScoresWithinTotals(attempts)
    ensures StatsFor(attempts, subject).score <= StatsFor(attempts, subject).total
  {
    if attempts != [] {
      var init := attempts[..|attempts| - 1];
      assert ScoresWithinTotals(init) by {
        assert forall i :: 0 <= i < |init| ==> init[i] == attempts[i];
      }
      StatsScoreWithinTotal(init, subject);
    }
  }

  /** The pooled average of a subject with attempts, when every attempt has questions and
      no score exceeds its total, is a whole percentage in [0, 100]. */
  lemma SubjectAvgIsPercentage(attempts: seq<TestAttempt>, subject: string)
    requires WellFormed(attempts) && ScoresWithinTotals(attempts) && subject in SubjectNames(attempts)
    ensures var s := StatsFor(attempts, subject); var avg := JsRound(JsPercent(s.score, s.total));
      avg.Finite? && 0.0 <= avg.v <= 100.0 && avg.v.Floor as real == avg.v
  {
    StatsCountIsCount(attempts, subject);
    StatsTotalCoversCount(attempts, subject);
    StatsScoreWithinTotal(attempts, subject);
    var s := StatsFor(attempts, subject);
    var p := RoundedPercent(s.score, s.total);
    assert JsRound(JsPercent(s.score, s.total)) == Finite(p as real);
  }

  /** The map's keys are the subjects in order of first appearance, each with the totals
      of its attempts. */
  lemma SubjectEntries(attempts: seq<TestAttempt>)
    ensures var m := SubjectMap(attempts);
      && m.0 == Dedupe(SubjectNames(attempts))
      && forall i :: 0 <= i < |m.0| ==> m.0[i] in m.1 && m.1[m.0[i]] == StatsFor(attempts, m.0[i])
  {
    SubjectMapMeaning(attempts);
  }

  /** The bars drawn from the attempts: one per subject, in order of first appearance,
      each with the number of attempts filed under it and the rounded pooled percentage
      of their scores over their questions. The tests column adds up to the number of
      attempts, and when every attempt has questions and no score exceeds its total every
      bar's average is a whole percentage in [0, 100]. */
  lemma SubjectRowsMeaning(attempts: seq<TestAttempt>)
    ensures var m := SubjectMap(attempts);
      && m.0 == Dedupe(SubjectNames(attempts))
      && (forall i :: 0 <= i < |m.0| ==> m.0[i] in m.1)
      && var rows := SubjectData(m.0, m.1);
      && (forall i :: 0 <= i < |rows| ==> SubjectRowOf(attempts, m.0[i], rows[i]))
      && TestsColumn(rows) == |attempts|
      && (WellFormed(attempts) && ScoresWithinTotals(attempts) ==>
            forall i :: 0 <= i < |rows| ==> rows[i].avg.Finite? && 0.0 <= rows[i].avg.v <= 100.0)
  {
    SubjectEntries(attempts);
    var m := SubjectMap(attempts);
    SubjectRowFields(attempts, m.0, m.1);
    TestsColumnIsCountSum(m.0, m.1, attempts);
    SubjectCountsSum(attempts);
    if WellFormed(attempts) && ScoresWithinTotals(attempts) {
      SubjectRowAverages(attempts, m.0, m.1);
    }
  }

  /** The bar of `subject`: its name cut to 12 characters, the number of attempts filed
      under it, and the rounded pooled percentage of those attempts. */
  predicate SubjectRowOf(attempts: seq<TestAttempt>, subject: string, row: SubjectRow)
  {
    var s := StatsFor(attempts, subject);
    row == SubjectRow(Take(subject, 12), JsRound(JsPercent(s.score, s.total)), Count(SubjectNames(attempts), subject))
  }

  /** Bars over the attempts' entries are the bars of their subjects. */
  lemma SubjectRowFields(attempts: seq<TestAttempt>, keys: seq<string>, stats: map<string, SubjectStats>)
    requires forall i :: 0 <= i < |keys| ==> keys[i] in stats && stats[keys[i]] == StatsFor(attempts, keys[i])
    ensures var rows := SubjectData(keys, stats);
      forall i :: 0 <= i < |rows| ==> SubjectRowOf(attempts, keys[i], rows[i])
  {
    forall i | 0 <= i < |keys| ensures StatsFor(attempts, keys[i]).count == Count(SubjectNames(attempts), keys[i]) {
      StatsCountIsCount(attempts, keys[i]);
    }
  }

  /** Bars over the subjects of attempts that all have questions and scores within their
      totals show whole percentages in [0, 100]. */
  lemma SubjectRowAverages(attempts: seq<TestAttempt>, keys: seq<string>, stats: map<string, SubjectStats>)
    requires WellFormed(attempts) && ScoresWithinTotals(attempts) && keys == Dedupe(SubjectNames(attempts))
    requires forall i :: 0 <= i < |keys| ==> keys[i] in stats && stats[keys[i]] == StatsFor(attempts, keys[i])
    ensures var rows := SubjectData(keys, stats);
      forall i :: 0 <= i < |rows| ==> rows[i].avg.Finite? && 0.0 <= rows[i].avg.v <= 100.0
  {
    forall i | 0 <= i < |keys|
      ensures var s := StatsFor(attempts, keys[i]); var avg := JsRound(JsPercent(s.score, s.total));
        avg.Finite? && 0.0 <= avg.v <= 100.0
    {
      assert keys[i] in SubjectNames(attempts);
      SubjectAvgIsPercentage(attempts, keys[i]);
    }
  }

  // ---------------------------------------------------------------- recent tests

  datatype RecentRow = RecentRow(title: Option<string>, percentage: JsNum, band: Band)

  /** `attempts.slice(0, 5)` with each rounded percentage and its colour band: the band of
      the percentage for an attempt with questions, destructive for `NaN` (both
      comparisons fail) and success for `Infinity`. */
  function RecentTests(attempts: seq<TestAttempt>): (rows: seq<RecentRow>)
    ensures |rows| == if |attempts| < 5 then |attempts| else 5
    ensures forall i :: 0 <= i < |rows| ==>
      && rows[i].percentage == JsRound(AttemptValue(attempts[i]))
      && (attempts[i].totalQuestions > 0 ==>
            rows[i].band == BandOf(Round(AttemptPercent(attempts[i])) as real))
      && (attempts[i].totalQuestions == 0 ==>
            rows[i].band == if attempts[i].score == 0 then Destructive else Success)
      && rows[i].title == (if attempts[i].test.Some? then attempts[i].test.value.title else None)
  {
    var shown := Take(attempts, 5);
    seq(|shown|, i requires 0 <= i < |shown| =>
      var pct := JsRound(AttemptValue(shown[i]));
      RecentRow(if shown[i].test.Some? then shown[i].test.value.title else None, pct, JsBandOf(pct)))
  }
}
