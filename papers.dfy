/** The question-paper browser: a search box over subject, university and course, five
    exact-match filters, clearing them, and whether any is set. */
module Papers {
  import opened Seqs
  import opened Text

  datatype Paper = Paper(
    id: string, universityId: string, university: string, course: string, subject: string,
    semester: string, year: int, pdfUrl: string, downloads: nat)

  /** The filter panel; the empty string means "all". */
  datatype Filters = Filters(university: string, course: string, subject: string, semester: string, year: string)

  /** The search matches the subject, the university's display name or the course,
      case-insensitively. */
  predicate MatchesSearch(p: Paper, query: string)
  {
    var q := LowerStr(query);
    Contains(LowerStr(p.subject), q) || Contains(LowerStr(p.university), q) || Contains(LowerStr(p.course), q)
  }

  /** Every filter that is set equals the paper's field: the university filter holds a
      university id, the year filter the decimal text of the year. */
  predicate MatchesFilters(p: Paper, f: Filters)
  {
    && (f.university == "" || p.universityId == f.university)
    && (f.course == "" || p.course == f.course)
    && (f.subject == "" || p.subject == f.subject)
    && (f.semester == "" || p.semester == f.semester)
    && (f.year == "" || IntToString(p.year) == f.year)
  }

  predicate PaperMatches(p: Paper, query: string, f: Filters)
  {
    MatchesSearch(p, query) && MatchesFilters(p, f)
  }

  /** `filteredPapers`: an order-preserving subsequence of the papers that holds exactly the
      matching ones. */
  function FilteredPapers(papers: seq<Paper>, query: string, f: Filters): (r: seq<Paper>)
    ensures IsSubsequence(r, papers)
    ensures forall i :: 0 <= i < |r| ==> r[i] in papers && PaperMatches(r[i], query, f)
    ensures forall i :: 0 <= i < |papers| && PaperMatches(papers[i], query, f) ==> papers[i] in r
    ensures forall p :: multiset(r)[p] == if PaperMatches(p, query, f) then multiset(papers)[p] else 0
  {
    FilterIsSubsequence(p => PaperMatches(p, query, f), papers);
    FilterMultiset(p => PaperMatches(p, query, f), papers);
    Filter(p => PaperMatches(p, query, f), papers)
  }

  /** `Object.values(filters).some(Boolean)`. */
  function HasActiveFilters(f: Filters): (active: bool)
    ensures active <==> f != ClearedFilters()
  {
    f.university != "" || f.course != "" || f.subject != "" || f.semester != "" || f.year != ""
  }

  /** `clearFilters`: every filter back to "all". */
  function ClearedFilters(): (f: Filters)
    ensures f.university == "" && f.course == "" && f.subject == "" && f.semester == "" && f.year == ""
  {
    Filters("", "", "", "", "")
  }

  /** After clearing, no filter is active and only the search decides. */
  lemma ClearedFiltersInactive(p: Paper, query: string)
    ensures !HasActiveFilters(ClearedFilters())
    ensures PaperMatches(p, query, ClearedFilters()) <==> MatchesSearch(p, query)
  {
  }

  /** With an empty search and no filter set, every paper is listed. */
  lemma EmptySearchShowsAll(papers: seq<Paper>)
    ensures FilteredPapers(papers, "", ClearedFilters()) == papers
  {
    forall i | 0 <= i < |papers|
      ensures PaperMatches(papers[i], "", ClearedFilters())
    {
      ContainsEmpty(LowerStr(papers[i].subject));
    }
    FilterAll(p => PaperMatches(p, "", ClearedFilters()), papers);
  }

  /** `g` keeps every filter `f` sets and may set more. */
  predicate Narrows(g: Filters, f: Filters)
  {
    && (f.university == "" || g.university == f.university)
    && (f.course == "" || g.course == f.course)
    && (f.subject == "" || g.subject == f.subject)
    && (f.semester == "" || g.semester == f.semester)
    && (f.year == "" || g.year == f.year)
  }

  /** Setting more filters can only remove papers from the list, keeping the order. */
  lemma NarrowingOnlyRemoves(papers: seq<Paper>, query: string, f: Filters, g: Filters)
    requires Narrows(g, f)
    ensures IsSubsequence(FilteredPapers(papers, query, g), FilteredPapers(papers, query, f))
  {
    FilterMonotone(p => PaperMatches(p, query, g), p => PaperMatches(p, query, f), papers);
  }

  /** Choosing one filter value, starting from any panel, narrows it. */
  lemma SetUniversityNarrows(f: Filters, university: string)
    requires f.university == ""
    ensures Narrows(f.(university := university), f)
  {
  }

  /** The year filter selects by the printed year: a paper of 2023 passes the filter "2023"
      and fails "2024". */
  lemma YearFilterByText(p: Paper)
    requires p.year == 2023
    ensures MatchesFilters(p, Filters("", "", "", "", "2023"))
    ensures !MatchesFilters(p, Filters("", "", "", "", "2024"))
  {
    assert NatToString(2023) == NatToString(202) + ['3'];
    assert NatToString(202) == NatToString(20) + ['2'];
    assert NatToString(20) == NatToString(2) + ['0'];
  }
}
