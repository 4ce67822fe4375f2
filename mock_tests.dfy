/** The mock-test catalogue page: subject tabs taken from the tests, a search box and a
    tab filter over the catalogue, and an empty-state message. */
module MockTests {
  import opened Text
  import opened Seqs

  datatype Difficulty = Easy | Medium | Hard

  datatype MockTest = MockTest(
    id: string, title: string, subject: string, chapter: string,
    questions: nat, duration: int, difficulty: Difficulty, attempts: nat)

  /** The catalogue the page lists. */
  const Catalog: seq<MockTest> := [
    MockTest("mt1", "Calculus Fundamentals", "Mathematics", "Differential Calculus", 25, 30, Medium, 2340),
    MockTest("mt2", "Mechanics Basics", "Physics", "Classical Mechanics", 20, 25, Easy, 1890),
    MockTest("mt3", "Organic Chemistry", "Chemistry", "Hydrocarbons", 30, 40, Hard, 1456),
    MockTest("mt4", "English Literature", "English", "Shakespeare", 15, 20, Medium, 987),
    MockTest("mt5", "Indian History", "History", "Modern India", 25, 30, Medium, 2156),
    MockTest("mt6", "Data Structures", "Computer Science", "Arrays & Linked Lists", 20, 30, Hard, 1678)
  ]

  /** The tabs after "All Subjects": each subject of the tests once, in order of first
      appearance. */
  function SubjectTabs(tests: seq<MockTest>): (tabs: seq<string>)
    ensures NoDuplicates(tabs)
    ensures forall i :: 0 <= i < |tests| ==> tests[i].subject in tabs
    ensures forall s :: s in tabs ==> exists i :: 0 <= i < |tests| && tests[i].subject == s
    ensures forall s :: s in tabs <==> s in Subjects(tests)
    ensures forall i, j :: 0 <= i < j < |tabs| ==>
      IndexOf(Subjects(tests), tabs[i]) < IndexOf(Subjects(tests), tabs[j])
  {
    var subjects := Subjects(tests);
    DedupeFirstAppearance(subjects);
    assert forall i :: 0 <= i < |tests| ==> subjects[i] == tests[i].subject;
    Dedupe(subjects)
  }

  /** `tests.map(t => t.subject)`. */
  function Subjects(tests: seq<MockTest>): (r: seq<string>)
    ensures |r| == |tests| && forall i :: 0 <= i < |tests| ==> r[i] == tests[i].subject
  {
    seq(|tests|, i requires 0 <= i < |tests| => tests[i].subject)
  }

  /** The search box matches the title or the subject, case-insensitively; the tab is
      "all" or the test's subject. */
  predicate TestMatches(t: MockTest, query: string, tab: string)
  {
    var q := LowerStr(query);
    && (Contains(LowerStr(t.title), q) || Contains(LowerStr(t.subject), q))
    && (tab == "all" || t.subject == tab)
  }

  /** `filteredTests`: the matching tests, an order-preserving subsequence of the catalogue
      holding every matching test and nothing else. */
  function FilteredTests(tests: seq<MockTest>, query: string, tab: string): (r: seq<MockTest>)
    ensures IsSubsequence(r, tests)
    ensures forall i :: 0 <= i < |r| ==> r[i] in tests && TestMatches(r[i], query, tab)
    ensures forall i :: 0 <= i < |tests| && TestMatches(tests[i], query, tab) ==> tests[i] in r
    ensures forall t :: multiset(r)[t] == if TestMatches(t, query, tab) then multiset(tests)[t] else 0
  {
    FilterIsSubsequence(t => TestMatches(t, query, tab), tests);
    FilterMultiset(t => TestMatches(t, query, tab), tests);
    Filter(t => TestMatches(t, query, tab), tests)
  }

  /** With the "All Subjects" tab and an empty search every test is listed. */
  lemma AllTabEmptyQueryShowsAll(tests: seq<MockTest>)
    ensures FilteredTests(tests, "", "all") == tests
  {
    forall i | 0 <= i < |tests|
      ensures TestMatches(tests[i], "", "all")
    {
      ContainsEmpty(LowerStr(tests[i].title));
    }
    FilterAll(t => TestMatches(t, "", "all"), tests);
  }

  /** "No mock tests found" is shown exactly when no test matches. */
  lemma EmptyStateIff(tests: seq<MockTest>, query: string, tab: string)
    ensures FilteredTests(tests, query, tab) == [] <==>
      forall i :: 0 <= i < |tests| ==> !TestMatches(tests[i], query, tab)
  {
    var r := FilteredTests(tests, query, tab);
    if r != [] {
      assert r[0] in tests && TestMatches(r[0], query, tab);
    }
  }
}
