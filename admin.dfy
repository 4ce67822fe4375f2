/** The admin panel: who may open it, how the add-paper, add-test and add-question forms
    are checked and turned into rows, the join of profiles with their roles, the statistics
    defaults, the messages of a role assignment, and the form and dialog state that a
    successful insert resets. Every backend answer is a parameter. */
module Admin {
  import opened Wrappers
  import opened Seqs
  import opened Text

  // ---------------------------------------------------------------- access

  /** What the authentication hook reports about the visitor. */
  datatype Auth = Auth(loading: bool, signedIn: bool, isAdmin: bool, isModerator: bool)

  /** The page sends the visitor home once loading is over and they are not staff. */
  predicate Redirects(a: Auth)
  {
    !a.loading && (!a.signedIn || (!a.isAdmin && !a.isModerator))
  }

  /** The page data is fetched for a signed-in admin or moderator. */
  predicate FetchesData(a: Auth)
  {
    a.signedIn && (a.isAdmin || a.isModerator)
  }

  /** The user list is fetched as part of the page data, and only for admins; the Users tab
      is shown to admins. */
  predicate FetchesUsers(a: Auth)
  {
    FetchesData(a) && a.isAdmin
  }

  /** Once loading is over a visitor is either sent away or served, never both and never
      neither; the user list goes only to signed-in admins, and a moderator never gets it. */
  lemma AccessGate(a: Auth)
    ensures !a.loading ==> (Redirects(a) <==> !FetchesData(a))
    ensures FetchesUsers(a) <==> a.signedIn && a.isAdmin
    ensures a.signedIn && a.isModerator && !a.isAdmin ==> FetchesData(a) && !FetchesUsers(a)
    ensures !a.signedIn ==> !FetchesData(a) && !FetchesUsers(a)
  {
  }

  // ---------------------------------------------------------------- papers

  datatype PaperForm = PaperForm(
    universityId: string, course: string, subject: string, semester: string,
    year: int, pdfUrl: string, isExternalLink: bool)

  /** The form as the dialog opens, and as a successful insert leaves it. */
  function EmptyPaperForm(year: int): PaperForm
  {
    PaperForm("", "", "", "", year, "", true)
  }

  datatype PaperRow = PaperRow(
    universityId: string, course: string, subject: string, semester: string,
    year: int, pdfUrl: Option<string>, isExternalLink: bool, uploadedBy: Option<string>)

  /** `handleAddPaper`'s check and row: refused unless university, subject and course are
      all filled in; otherwise the form's fields are copied, with an empty URL stored as
      null, and the row is credited to the signed-in user. */
  function NewPaper(form: PaperForm, user: Option<string>): (r: Option<PaperRow>)
    ensures r.None? <==> form.universityId == "" || form.subject == "" || form.course == ""
    ensures r.Some? ==> (
      && r.value.universityId == form.universityId && r.value.course == form.course
      && r.value.subject == form.subject && r.value.semester == form.semester
      && r.value.year == form.year && r.value.isExternalLink == form.isExternalLink
      && r.value.uploadedBy == user
      && (r.value.pdfUrl.None? <==> form.pdfUrl == "")
      && (r.value.pdfUrl.Some? ==> r.value.pdfUrl.value == form.pdfUrl))
  {
    if form.universityId == "" || form.subject == "" || form.course == "" then None
    else Some(PaperRow(form.universityId, form.course, form.subject, form.semester, form.year,
                       NullIfEmpty(form.pdfUrl), form.isExternalLink, user))
  }

  /** `value || null` on a string. */
  function NullIfEmpty(s: string): (r: Option<string>)
    ensures r.None? <==> s == ""
    ensures r.Some? ==> r.value == s
  {
    if s == "" then None else Some(s)
  }

  /** A freshly reset paper form can never be submitted. */
  lemma EmptyPaperFormRefused(year: int, user: Option<string>)
    ensures NewPaper(EmptyPaperForm(year), user).None?
  {
  }

  // ---------------------------------------------------------------- tests

  datatype TestForm = TestForm(title: string, subject: string, chapter: string, duration: int, difficulty: string)

  const EmptyTestForm: TestForm := TestForm("", "", "", 30, "Medium")

  datatype TestRow = TestRow(
    title: string, subject: string, chapter: Option<string>, duration: int,
    difficulty: string, createdBy: Option<string>)

  /** `handleAddTest`'s check and row: refused unless title and subject are filled in; an
      empty chapter is stored as null, everything else is copied. */
  function NewTest(form: TestForm, user: Option<string>): (r: Option<TestRow>)
    ensures r.None? <==> form.title == "" || form.subject == ""
    ensures r.Some? ==> (
      && r.value.title == form.title && r.value.subject == form.subject
      && r.value.duration == form.duration && r.value.difficulty == form.difficulty
      && r.value.createdBy == user
      && (r.value.chapter.None? <==> form.chapter == "")
      && (r.value.chapter.Some? ==> r.value.chapter.value == form.chapter))
  {
    if form.title == "" || form.subject == "" then None
    else Some(TestRow(form.title, form.subject, NullIfEmpty(form.chapter), form.duration, form.difficulty, user))
  }

  // ---------------------------------------------------------------- questions

  datatype QuestionForm = QuestionForm(
    questionText: string, optionA: string, optionB: string, optionC: string, optionD: string,
    correctAnswer: int, explanation: string)

  const EmptyQuestionForm: QuestionForm := QuestionForm("", "", "", "", "", 0, "")

  datatype QuestionRow = QuestionRow(
    mockTestId: string, questionText: string, options: seq<string>, correctAnswer: int,
    explanation: Option<string>)

  datatype QuestionError = MissingQuestion | TooFewOptions

  /** The four option boxes with the empty ones dropped, in order. */
  function OptionsOf(form: QuestionForm): (r: seq<string>)
    ensures |r| <= 4 && IsSubsequence(r, [form.optionA, form.optionB, form.optionC, form.optionD])
    ensures forall i :: 0 <= i < |r| ==> r[i] != ""
    ensures forall o :: o in [form.optionA, form.optionB, form.optionC, form.optionD] && o != "" ==> o in r
    ensures forall o :: multiset(r)[o] == if o != "" then multiset([form.optionA, form.optionB, form.optionC, form.optionD])[o] else 0
  {
    var boxes := [form.optionA, form.optionB, form.optionC, form.optionD];
    var r := KeepNonEmpty(boxes);
    assert forall o :: o in boxes ==> exists i :: 0 <= i < 4 && boxes[i] == o;
    r
  }

  /** `handleAddQuestion`'s checks and row. An absent or empty selected test, or an empty
      question text, is refused first; then fewer than two non-empty options is refused.
      Otherwise the row holds the selected test, the text, the non-empty options, the
      chosen answer index exactly as picked, and the explanation or null. */
  function NewQuestion(selectedTestId: Option<string>, form: QuestionForm): (r: Result<QuestionRow, QuestionError>)
    ensures r == Err(MissingQuestion) <==>
      selectedTestId.None? || selectedTestId.value == "" || form.questionText == ""
    ensures r == Err(TooFewOptions) <==>
      selectedTestId.Some? && selectedTestId.value != "" && form.questionText != "" && |OptionsOf(form)| < 2
    ensures r.Ok? ==> (
      && selectedTestId.Some? && r.value.mockTestId == selectedTestId.value
      && r.value.questionText == form.questionText
      && r.value.options == OptionsOf(form) && 2 <= |r.value.options| <= 4
      && r.value.correctAnswer == form.correctAnswer
      && r.value.explanation == NullIfEmpty(form.explanation))
  {
    if selectedTestId.None? || selectedTestId.value == "" || form.questionText == "" then Err(MissingQuestion)
    else
      var options := OptionsOf(form);
      if |options| < 2 then Err(TooFewOptions)
      else Ok(QuestionRow(selectedTestId.value, form.questionText, options, form.correctAnswer,
                          NullIfEmpty(form.explanation)))
  }

  /** The answer index is not shifted when an earlier option box is left empty: with box A
      empty and box B chosen (index 1), the stored index points at the text of box C. */
  lemma AnswerIndexNotShifted()
    ensures var form := QuestionForm("Q", "", "b", "c", "d", 1, "");
      && NewQuestion(Some("t"), form) == Ok(QuestionRow("t", "Q", ["b", "c", "d"], 1, None))
      && NewQuestion(Some("t"), form).value.options[1] == form.optionC
  {
    var form := QuestionForm("Q", "", "b", "c", "d", 1, "");
    assert [form.optionA, form.optionB, form.optionC, form.optionD] == ["", "b", "c", "d"];
    OptionsAllButFirst(form);
  }

  lemma OptionsAllButFirst(form: QuestionForm)
    requires form.optionA == "" && form.optionB != "" && form.optionC != "" && form.optionD != ""
    ensures OptionsOf(form) == [form.optionB, form.optionC, form.optionD]
  {
    KeepNonEmptyLastThree(form.optionA, form.optionB, form.optionC, form.optionD);
  }

  // ---------------------------------------------------------------- users and roles

  datatype Profile = Profile(id: string, email: string, fullName: Option<string>, createdAt: string, userId: string)

  datatype RoleRow = RoleRow(userId: string, role: string)

  datatype UserWithRoles = UserWithRoles(profile: Profile, roles: seq<RoleRow>)

  /** The role rows of one user, in the order the query returned them. */
  function RolesOf(userId: string, rows: seq<RoleRow>): (r: seq<RoleRow>)
    ensures IsSubsequence(r, rows)
    ensures forall i :: 0 <= i < |r| ==> r[i] in rows && r[i].userId == userId
    ensures forall i :: 0 <= i < |rows| && rows[i].userId == userId ==> rows[i] in r
  {
    FilterIsSubsequence((row: RoleRow) => row.userId == userId, rows);
    Filter((row: RoleRow) => row.userId == userId, rows)
  }

  /** `fetchUsers`' join: one entry per profile, in order, holding exactly the role rows
      whose user id is the profile's `user_id`; no role rows at all (a failed query) gives
      every user an empty list. */
  function JoinRoles(profiles: seq<Profile>, rolesData: Option<seq<RoleRow>>): (r: seq<UserWithRoles>)
    ensures |r| == |profiles|
    ensures forall i :: 0 <= i < |r| ==> r[i].profile == profiles[i]
    ensures forall i :: 0 <= i < |r| && rolesData.None? ==> r[i].roles == []
    ensures forall i :: 0 <= i < |r| && rolesData.Some? ==> (
      && IsSubsequence(r[i].roles, rolesData.value)
      && (forall k :: 0 <= k < |r[i].roles| ==> r[i].roles[k].userId == profiles[i].userId)
      && (forall k :: 0 <= k < |rolesData.value| && rolesData.value[k].userId == profiles[i].userId ==>
            rolesData.value[k] in r[i].roles))
  {
    seq(|profiles|, i requires 0 <= i < |profiles| =>
      UserWithRoles(profiles[i], if rolesData.Some? then RolesOf(profiles[i].userId, rolesData.value) else []))
  }

  /** Two profiles of the same user see the same roles. */
  lemma JoinDependsOnlyOnUserId(profiles: seq<Profile>, rolesData: Option<seq<RoleRow>>, i: int, j: int)
    requires 0 <= i < |profiles| && 0 <= j < |profiles| && profiles[i].userId == profiles[j].userId
    ensures JoinRoles(profiles, rolesData)[i].roles == JoinRoles(profiles, rolesData)[j].roles
  {
  }

  /** The row `handleAssignRole` inserts for a user card, AS WRITTEN: the buttons pass the
      profile's own row id, not its `user_id`. */
  function AssignRoleAsWritten(p: Profile, role: string): (row: RoleRow)
    ensures row.role == role && row.userId == p.id
  {
    RoleRow(p.id, role)
  }

  /** The row the buttons evidently mean to insert: keyed by the profile's `user_id`, the
      key the join reads. */
  function AssignRoleCorrected(p: Profile, role: string): (row: RoleRow)
    ensures row.role == role && row.userId == p.userId
  {
    RoleRow(p.userId, role)
  }

  /** As written, a granted role does not show on the card whenever the profile's row id
      differs from its user id, which is the normal case for a profile table. */
  lemma AssignedRoleInvisibleAsWritten()
    ensures var p := Profile("p1", "a@b.c", None, "2024-01-01", "u1");
      JoinRoles([p], Some([AssignRoleAsWritten(p, "admin")]))[0].roles == []
  {
    var p := Profile("p1", "a@b.c", None, "2024-01-01", "u1");
    var rows := [AssignRoleAsWritten(p, "admin")];
    assert rows[1..] == [];
  }

  /** Corrected, the granted role always shows on that user's card after the reload, next
      to the roles they had. */
  lemma AssignedRoleVisibleCorrected(profiles: seq<Profile>, rows: seq<RoleRow>, i: int, role: string)
    requires 0 <= i < |profiles|
    ensures var after := rows + [AssignRoleCorrected(profiles[i], role)];
      && RoleRow(profiles[i].userId, role) in JoinRoles(profiles, Some(after))[i].roles
      && forall k :: 0 <= k < |JoinRoles(profiles, Some(rows))[i].roles| ==>
           JoinRoles(profiles, Some(rows))[i].roles[k] in JoinRoles(profiles, Some(after))[i].roles
  {
    var after := rows + [AssignRoleCorrected(profiles[i], role)];
    assert after[|rows|] == RoleRow(profiles[i].userId, role);
    var before := JoinRoles(profiles, Some(rows))[i].roles;
    forall k | 0 <= k < |before|
      ensures before[k] in JoinRoles(profiles, Some(after))[i].roles
    {
      var j :| 0 <= j < |rows| && rows[j] == before[k];
      assert after[j] == rows[j];
    }
  }

  datatype InsertError = InsertError(code: string)

  /** The toast after a role insert: success names the role, the unique-violation code
      23505 means the user already had it, any other error is a generic failure. */
  function AssignRoleMessage(role: string, error: Option<InsertError>): (msg: string)
    ensures error.None? ==> msg == role + " role assigned"
    ensures error.Some? && error.value.code == "23505" ==> msg == "User already has this role"
    ensures error.Some? && error.value.code != "23505" ==> msg == "Failed to assign role"
  {
    match error
    case None => role + " role assigned"
    case Some(e) => if e.code == "23505" then "User already has this role" else "Failed to assign role"
  }

  /** The three messages are distinct, so the toast tells the outcomes apart. */
  lemma AssignRoleMessagesDistinct(role: string, e: InsertError, f: InsertError)
    requires e.code == "23505" && f.code != "23505"
    ensures AssignRoleMessage(role, Some(e)) != AssignRoleMessage(role, Some(f))
    ensures AssignRoleMessage(role, Some(f)) != AssignRoleMessage(role, None)
    ensures AssignRoleMessage(role, Some(e)) != AssignRoleMessage(role, None)
  {
    var ok := role + " role assigned";
    assert ok[|ok| - 1] == 'd';
    assert AssignRoleMessage(role, Some(e))[|"User already has this role"| - 1] == 'e';
    assert AssignRoleMessage(role, Some(f))[|"Failed to assign role"| - 1] == 'e';
  }

  // ---------------------------------------------------------------- statistics

  datatype Stats = Stats(users: nat, papers: nat, tests: nat, attempts: nat)

  /** `count || 0` for each of the four head-only count queries. */
  function StatsOf(users: Option<nat>, papers: Option<nat>, tests: Option<nat>, attempts: Option<nat>): (s: Stats)
    ensures users.None? ==> s.users == 0
    ensures papers.None? ==> s.papers == 0
    ensures tests.None? ==> s.tests == 0
    ensures attempts.None? ==> s.attempts == 0
    ensures users.Some? ==> s.users == users.value
    ensures papers.Some? ==> s.papers == papers.value
    ensures tests.Some? ==> s.tests == tests.value
    ensures attempts.Some? ==> s.attempts == attempts.value
  {
    Stats(users.GetOr(0), papers.GetOr(0), tests.GetOr(0), attempts.GetOr(0))
  }

  // ---------------------------------------------------------------- form and dialog state

  class AdminPage {
    var paperDialogOpen: bool
    var testDialogOpen: bool
    var questionDialogOpen: bool
    var selectedTestId: Option<string>
    var paperForm: PaperForm
    var testForm: TestForm
    var questionForm: QuestionForm

    /** Dialogs closed, no test selected, every form empty. */
    constructor (year: int)
      ensures !paperDialogOpen && !testDialogOpen && !questionDialogOpen && selectedTestId.None?
      ensures paperForm == EmptyPaperForm(year) && testForm == EmptyTestForm && questionForm == EmptyQuestionForm
    {
      paperDialogOpen, testDialogOpen, questionDialogOpen := false, false, false;
      selectedTestId := None;
      paperForm, testForm, questionForm := EmptyPaperForm(year), EmptyTestForm, EmptyQuestionForm;
    }

    /** `handleAddPaper`. `inserted` is the backend's answer, `year` the current year. The
        row sent is returned (None when the form is refused and nothing is sent); only a
        successful insert closes the dialog and resets the form. */
    method AddPaper(user: Option<string>, inserted: bool, year: int) returns (sent: Option<PaperRow>)
      modifies this`paperDialogOpen, this`paperForm
      ensures sent == NewPaper(old(paperForm), user)
      ensures sent.Some? && inserted ==> !paperDialogOpen && paperForm == EmptyPaperForm(year)
      ensures sent.None? || !inserted ==> paperDialogOpen == old(paperDialogOpen) && paperForm == old(paperForm)
    {
      sent := NewPaper(paperForm, user);
      if sent.Some? && inserted {
        paperDialogOpen := false;
        paperForm := EmptyPaperForm(year);
      }
    }

    /** `handleAddTest`. `newId` is the id of the inserted test, or None when the insert
        failed. Success closes the test dialog, selects the new test, opens the question
        dialog for it and resets the test form. */
    method AddTest(user: Option<string>, newId: Option<string>) returns (sent: Option<TestRow>)
      modifies this`testDialogOpen, this`questionDialogOpen, this`selectedTestId, this`testForm
      ensures sent == NewTest(old(testForm), user)
      ensures sent.Some? && newId.Some? ==> (
        && !testDialogOpen && questionDialogOpen && selectedTestId == newId && testForm == EmptyTestForm)
      ensures sent.None? || newId.None? ==> (
        && testDialogOpen == old(testDialogOpen) && questionDialogOpen == old(questionDialogOpen)
        && selectedTestId == old(selectedTestId) && testForm == old(testForm))
    {
      sent := NewTest(testForm, user);
      if sent.Some? && newId.Some? {
        testDialogOpen := false;
        selectedTestId := newId;
        questionDialogOpen := true;
        testForm := EmptyTestForm;
      }
    }

    /** `handleAddQuestion`. Success resets the question form and leaves the dialog open
        for the next question of the same test. */
    method AddQuestion(inserted: bool) returns (sent: Result<QuestionRow, QuestionError>)
      modifies this`questionForm
      ensures sent == NewQuestion(selectedTestId, old(questionForm))
      ensures sent.Ok? && inserted ==> questionForm == EmptyQuestionForm
      ensures sent.Err? || !inserted ==> questionForm == old(questionForm)
    {
      sent := NewQuestion(selectedTestId, questionForm);
      if sent.Ok? && inserted {
        questionForm := EmptyQuestionForm;
      }
    }
  }

  /** After a successful test insert the question dialog can submit straight away: the
      selected test is the new one, so only the question text and options are checked. */
  lemma QuestionAfterNewTest(id: string, form: QuestionForm)
    requires id != "" && form.questionText != "" && |OptionsOf(form)| >= 2
    ensures NewQuestion(Some(id), form).Ok? && NewQuestion(Some(id), form).value.mockTestId == id
  {
  }
}
