/** The leaderboard: subject tabs taken from the active tests, the parameters of the ranking
    query, the three-place podium and the rank column of the full list. */
module Leaderboard {
  import opened Wrappers
  import opened Seqs
  import opened Text

  datatype Entry = Entry(
    userId: string, fullName: Option<string>, avatarUrl: Option<string>, university: Option<string>,
    totalTests: nat, avgScore: int, totalScore: int)

  /** `[...new Set(subjects)]` after a successful query, in first-appearance order; a failed
      query keeps the tabs already shown. */
  function SubjectTabs(current: seq<string>, data: Option<seq<string>>): (tabs: seq<string>)
    ensures data.None? ==> tabs == current
    ensures data.Some? ==> (
      && NoDuplicates(tabs)
      && (forall s :: s in tabs <==> s in data.value)
      && (forall i, j :: 0 <= i < j < |tabs| ==> IndexOf(data.value, tabs[i]) < IndexOf(data.value, tabs[j])))
  {
    match data
    case None => current
    case Some(subjects) =>
      DedupeFirstAppearance(subjects);
      Dedupe(subjects)
  }

  /** The ranking query's arguments. */
  datatype Params = Params(limit: int, subject: Option<string>)

  /** At most 50 rows; the "all" tab asks for no subject, any other tab for its own. */
  function ParamsFor(tab: string): (p: Params)
    ensures p.limit == 50
    ensures p.subject.None? <==> tab == "all"
    ensures p.subject.Some? ==> p.subject.value == tab
  {
    Params(50, if tab == "all" then None else Some(tab))
  }

  /** The tab a query's subject argument belongs to. */
  function TabOf(p: Params): string
  {
    match p.subject
    case None => "all"
    case Some(s) => s
  }

  /** The subject argument determines the tab: two tabs never share a query. */
  lemma ParamsDetermineTab(tab: string, other: string)
    ensures TabOf(ParamsFor(tab)) == tab
    ensures ParamsFor(tab) == ParamsFor(other) ==> tab == other
  {
  }

  /** The entries shown after a query: its rows, or the previous ones when it gave none. */
  function EntriesAfterFetch(current: seq<Entry>, data: Option<seq<Entry>>): (r: seq<Entry>)
    ensures data.Some? ==> r == data.value
    ensures data.None? ==> r == current
  {
    data.GetOr(current)
  }

  /** The podium, left to right: second place, first place, third place; only drawn when
      there are at least three entries. */
  function Podium(entries: seq<Entry>): (podium: Option<seq<Entry>>)
    ensures podium.None? <==> |entries| < 3
    ensures podium.Some? ==> (
      && |podium.value| == 3
      && podium.value[0] == entries[1] && podium.value[1] == entries[0] && podium.value[2] == entries[2])
  {
    if |entries| >= 3 then Some([entries[1], entries[0], entries[2]]) else None
  }

  /** The podium shows the top three, each once: the same entries as the list's first
      three, with the winner in the middle. */
  lemma PodiumIsTopThree(entries: seq<Entry>)
    requires |entries| >= 3
    ensures multiset(Podium(entries).value) == multiset(entries[..3])
    ensures Podium(entries).value[1] == entries[0]
  {
    assert entries[..3] == [entries[0], entries[1], entries[2]];
    SwapFirstTwo(entries[0], entries[1], entries[2]);
  }

  /** Swapping the first two of three keeps the same elements. */
  lemma SwapFirstTwo<T>(a: T, b: T, c: T)
    ensures multiset([b, a, c]) == multiset([a, b, c])
  {
    assert multiset([b, a]) == multiset([a, b]);
    assert [b, a, c] == [b, a] + [c] && [a, b, c] == [a, b] + [c];
  }

  /** The rank column: a crown, medal or trophy for the first three rows, `#n` after. */
  datatype RankMark = RankIcon(place: nat) | RankNumber(text: string)

  function RankLabel(index: nat): (m: RankMark)
    ensures m.RankIcon? <==> index < 3
    ensures m.RankIcon? ==> m.place == index
    ensures m.RankNumber? ==> (
      && |m.text| >= 2 && m.text[0] == '#' && AllDigits(m.text[1..])
      && DecimalValue(m.text[1..]) == index + 1)
  {
    if index < 3 then RankIcon(index)
    else
      var digits := NatToString(index + 1);
      NatToStringValue(index + 1);
      assert ("#" + digits)[1..] == digits;
      RankNumber("#" + digits)
  }

  /** Different rows never carry the same rank mark. */
  lemma RankLabelsDistinct(i: nat, j: nat)
    requires i != j
    ensures RankLabel(i) != RankLabel(j)
  {
    if i >= 3 && j >= 3 {
      assert DecimalValue(RankLabel(i).text[1..]) != DecimalValue(RankLabel(j).text[1..]);
    }
  }

  /** The name on a row, `full_name || 'Anonymous'`. */
  function DisplayName(e: Entry): (name: string)
    ensures name != ""
    ensures e.fullName.Some? && e.fullName.value != "" ==> name == e.fullName.value
    ensures e.fullName.None? || e.fullName.value == "" ==> name == "Anonymous"
  {
    match e.fullName
    case Some(n) => if n != "" then n else "Anonymous"
    case None => "Anonymous"
  }
}
