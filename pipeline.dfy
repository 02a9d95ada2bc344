/** The request flow of the Flask application. `/recommendation` collects the
    posted form, asks the language model for a report, stores the submission
    and redirects; `/result` looks the submission up by the nickname kept in
    the session and shows the report with its PDF. The model call, the
    database's own failures and the PDF writer's failures are parameters. */
module Pipeline {
  import opened Text
  import opened Wrappers
  import opened Store
  import opened Report

  /** The texts that stand in for a report the model did not give. */
  const EmptyReply: string := "AI 응답이 비어있습니다."
  const GenerationFailed: string := "응답 생성 중 오류 발생"

  /** What the chat-completion call produced: it raised, or it returned its
      choices, each given by its message's `content` (None when that is not a
      string, so that `.strip()` on it raises). */
  datatype Completion = Raised | Returned(contents: seq<Option<string>>)

  /** The report text `generate_ai_response` returns: never empty, never with
      whitespace around it; the error placeholder when the call or the
      extraction raised, the empty-reply placeholder when there is no choice or
      the first one is blank, and the first choice stripped otherwise. */
  function AiText(c: Completion): (text: string)
    ensures text != [] && !IsSpace(text[0]) && !IsSpace(text[|text| - 1])
    ensures c.Raised? ==> text == GenerationFailed
    ensures c.Returned? && c.contents == [] ==> text == EmptyReply
    ensures c.Returned? && c.contents != [] && c.contents[0].None? ==> text == GenerationFailed
    ensures c.Returned? && c.contents != [] && c.contents[0].Some? ==>
      if IsBlank(c.contents[0].value) then text == EmptyReply else text == Strip(c.contents[0].value)
  {
    match c
    case Raised => GenerationFailed
    case Returned(contents) =>
      if contents == [] then EmptyReply
      else match contents[0]
        case None => GenerationFailed
        case Some(content) =>
          var stripped := Strip(content);
          if stripped != [] then stripped else EmptyReply
  }

  /** The report text is already stripped: stripping it again changes nothing. */
  lemma AiTextIsStripped(c: Completion)
    ensures Strip(AiText(c)) == AiText(c)
  {
    StripFixesTrimmed(AiText(c));
  }

  /** The posted form: every field name with the values posted under it, in
      order; a name that was not posted is absent. */
  type PostedForm = map<string, seq<string>>

  /** `request.form.get(name, '')`: the first value posted under the name, or "". */
  function FormGet(form: PostedForm, name: string): (v: string)
    ensures name !in form ==> v == ""
    ensures name in form && form[name] != [] ==> v == form[name][0]
  {
    if name in form && form[name] != [] then form[name][0] else ""
  }

  /** `request.form.getlist(name)`: every value posted under the name, or none. */
  function FormGetList(form: PostedForm, name: string): (vs: seq<string>)
    ensures name !in form ==> vs == []
    ensures name in form ==> vs == form[name]
  {
    if name in form then form[name] else []
  }

  /** The fields read with `get`: every column but the two lists and the report. */
  const ScalarFields: set<string> := Columns - {Industries, Jobs, "ai_response"}

  /** `form_data` as `recommendation` first builds it: one entry per column;
      a field that was not posted is "" (or the empty list for the two lists),
      and the report starts out as "". */
  function CollectForm(form: PostedForm): (fields: Fields)
    ensures fields.Keys == Columns
    ensures forall name :: name in fields && name != Industries && name != Jobs ==> fields[name].Str?
    ensures forall name :: name in ScalarFields ==> fields[name] == Str(FormGet(form, name))
    ensures forall name :: name in ScalarFields && name !in form ==> fields[name] == Str("")
    ensures fields[Industries] == Strs(FormGetList(form, Industries))
    ensures fields[Jobs] == Strs(FormGetList(form, Jobs))
    ensures Industries !in form ==> fields[Industries] == Strs([])
    ensures Jobs !in form ==> fields[Jobs] == Strs([])
    ensures fields["ai_response"] == Str("")
  {
    map name | name in Columns ::
      if name == Industries || name == Jobs then Strs(FormGetList(form, name))
      else if name == "ai_response" then Str("")
      else Str(FormGet(form, name))
  }

  /** The keyword arguments `recommendation` hands to `save_response`: the
      collected form with the report filled in. */
  function Submission(form: PostedForm, completion: Completion): Fields {
    CollectForm(form)["ai_response" := Str(AiText(completion))]
  }

  /** The row a submission becomes when the database accepts it: every column
      is set (the nickname to the posted one, even when that is ""), the lists
      are comma-joined, and the report is the model's text. */
  function SubmittedColumns(form: PostedForm, completion: Completion): (cols: map<string, string>)
    ensures cols.Keys == Columns
    ensures cols["nickname"] == FormGet(form, "nickname")
    ensures forall name :: name in ScalarFields ==> cols[name] == FormGet(form, name)
    ensures cols[Industries] == Join(FormGetList(form, Industries), ',')
    ensures cols[Jobs] == Join(FormGetList(form, Jobs), ',')
    ensures cols["ai_response"] == AiText(completion)
  {
    var report := AiText(completion);
    CollectedFormIsInsertable(form, report);
    PreparedValues(form, report);
    ColumnValues(PrepareRow(CollectForm(form)["ai_response" := Str(report)]))
  }

  /** The values of the collected form with a report filled in, once its lists
      are joined: each the posted value, and the report as given. */
  lemma PreparedValues(form: PostedForm, report: string)
    ensures var prepared := PrepareRow(CollectForm(form)["ai_response" := Str(report)]);
      && (forall name :: name in ScalarFields ==> name in prepared && prepared[name] == Str(FormGet(form, name)))
      && prepared["nickname"] == Str(FormGet(form, "nickname"))
      && prepared[Industries] == Str(Join(FormGetList(form, Industries), ','))
      && prepared[Jobs] == Str(Join(FormGetList(form, Jobs), ','))
      && prepared["ai_response"] == Str(report)
  {
    NicknameIsScalar();
  }

  /** The nickname is read with `get`, like every column but the lists and the
      report; stated on its own so that the proofs using it do not have to
      compare the column names themselves. */
  lemma NicknameIsScalar()
    ensures "nickname" in ScalarFields
  {
  }

  /** Nothing in a collected submission can make the insert fail: the keys are
      the table's columns, the nickname is always there and every value is a
      string once the lists are joined. Only the database itself can refuse it. */
  lemma SubmissionIsInsertable(form: PostedForm, completion: Completion)
    ensures Insertable(PrepareRow(Submission(form, completion)))
  {
    CollectedFormIsInsertable(form, AiText(completion));
  }

  /** The same for any report text: what makes the submission insertable is
      the shape of the collected form, not the report. */
  lemma CollectedFormIsInsertable(form: PostedForm, report: string)
    ensures var prepared := PrepareRow(CollectForm(form)["ai_response" := Str(report)]);
      Insertable(prepared) && prepared.Keys == Columns
  {
    var submission := CollectForm(form)["ai_response" := Str(report)];
    assert "ai_response" in Columns;
    CompleteFieldsInsertable(submission);
  }

  /** The part of the Flask session the two routes use. */
  class Session {
    var nickname: Option<string>
    var aiResponse: Option<string>

    constructor ()
      ensures nickname == None && aiResponse == None
    {
      nickname := None;
      aiResponse := None;
    }
  }

  /** What a POST to `/recommendation` answers: a redirect to `/result`, or the
      save-error message of its `except` branch. */
  datatype RecommendPage = RedirectToResult | SaveErrorMessage

  /** A POST to `/recommendation`. `completion` is what the model call produced
      and `commitSucceeds` whether the database accepts the write. The nickname
      goes into the session before anything else, the submission is stored when
      the database accepts it, and the route always redirects: `save_response`
      never raises, so the save-error message is never returned. */
  method Recommend(db: Database, session: Session, form: PostedForm, completion: Completion, commitSucceeds: bool)
    returns (page: RecommendPage)
    requires db.Valid()
    modifies db, session
    ensures db.Valid()
    ensures page == RedirectToResult
    ensures session.nickname == Some(FormGet(form, "nickname"))
    ensures session.aiResponse == Some(AiText(completion))
    ensures db.rows == old(db.rows) + (if commitSucceeds
                                       then [Row(NextId(old(db.rows)), SubmittedColumns(form, completion))]
                                       else [])
  {
    var formData := CollectForm(form);
    session.nickname := Some(formData["nickname"].s);
    var aiResponse := AiText(completion);
    formData := formData["ai_response" := Str(aiResponse)];
    SubmissionIsInsertable(form, completion);
    db.SaveResponse(formData, commitSucceeds);
    session.aiResponse := Some(aiResponse);
    page := RedirectToResult;
  }

  /** The messages `/result` answers with instead of a report. */
  const NoIdentifierMessage: string := "사용자 식별 정보가 없습니다."
  const NotFoundMessage: string := "결과를 찾을 수 없습니다."
  const QueryErrorMessage: string := "데이터 조회 중 오류가 발생했습니다."

  /** What `/result` answers: a message, or the report page with the report
      text and the blocks of its PDF. */
  datatype ResultPage = Message(text: string) | ReportPage(aiResponse: string, pdf: seq<Block>)

  /** A nickname that Python's truth test accepts. */
  predicate HasIdentifier(nickname: Option<string>) {
    nickname.Some? && nickname.value != ""
  }

  /** The answer of `/result` for the session's nickname and the table.
      `queryFails` is whether the query raises and `renderFails` whether the PDF
      writer or the template raises. Without a nickname the answer is the
      no-identifier message; otherwise a failed query is the query-error message,
      no matching row is the not-found message, and a found row is shown with
      its report, unless its report is NULL or rendering fails, which is again
      the query-error message. The three messages are different texts. */
  function ResultFor(nickname: Option<string>, rows: seq<Row>, queryFails: bool, renderFails: bool): (page: ResultPage)
    ensures page == Message(NoIdentifierMessage) <==> !HasIdentifier(nickname)
    ensures page == Message(NotFoundMessage)
        <==> HasIdentifier(nickname) && !queryFails
             && forall i :: 0 <= i < |rows| ==> !Matches(rows[i], nickname.value)
    ensures page.ReportPage? ==>
      && HasIdentifier(nickname) && !queryFails && !renderFails
      && exists i :: 0 <= i < |rows| && Matches(rows[i], nickname.value)
           && "ai_response" in rows[i].columns && page.aiResponse == rows[i].columns["ai_response"]
           && forall j :: 0 <= j < |rows| && Matches(rows[j], nickname.value) ==> rows[j].id <= rows[i].id
    ensures page.ReportPage? ==> page.pdf == ReportBlocks(page.aiResponse, FlaskPdfPrefixes)
    ensures HasIdentifier(nickname) && !queryFails && !renderFails
            && MostRecent(rows, nickname.value).Some?
            && "ai_response" in MostRecent(rows, nickname.value).value.columns
            ==> page.ReportPage?
    ensures page == Message(QueryErrorMessage)
        <==> HasIdentifier(nickname)
             && (|| queryFails
                 || (&& MostRecent(rows, nickname.value).Some?
                     && (renderFails || "ai_response" !in MostRecent(rows, nickname.value).value.columns)))
  {
    if !HasIdentifier(nickname) then Message(NoIdentifierMessage)
    else if queryFails then Message(QueryErrorMessage)
    else match MostRecent(rows, nickname.value)
      case None => Message(NotFoundMessage)
      case Some(row) =>
        if "ai_response" !in row.columns || renderFails then Message(QueryErrorMessage)
        else
          assert row in rows;
          ReportPage(row.columns["ai_response"], ReportBlocks(row.columns["ai_response"], FlaskPdfPrefixes))
  }

  /** A GET of `/result`: reads the session and the table and changes neither. */
  method ShowResult(db: Database, session: Session, queryFails: bool, renderFails: bool) returns (page: ResultPage)
    ensures page == ResultFor(session.nickname, db.rows, queryFails, renderFails)
  {
    var nickname := session.nickname;
    if nickname.None? || nickname.value == "" {
      return Message(NoIdentifierMessage);
    }
    if queryFails {
      return Message(QueryErrorMessage);
    }
    var userResponse := MostRecent(db.rows, nickname.value);
    if userResponse.None? {
      return Message(NotFoundMessage);
    }
    var row := userResponse.value;
    if "ai_response" !in row.columns || renderFails {
      // `create_downloadable_pdf(None)` raises, as do the PDF writer and the template.
      return Message(QueryErrorMessage);
    }
    var aiResponse := row.columns["ai_response"];
    var pdf := CreateDownloadablePdf(aiResponse, FlaskPdfPrefixes);
    page := ReportPage(aiResponse, pdf);
  }

  /** A submission the database accepted is what `/result` shows next, with the
      model's text as the report, when the nickname is not empty. */
  lemma SubmissionIsShown(rows: seq<Row>, form: PostedForm, completion: Completion)
    requires WellFormed(rows) && FormGet(form, "nickname") != ""
    ensures var stored := rows + [Row(NextId(rows), SubmittedColumns(form, completion))];
      ResultFor(Some(FormGet(form, "nickname")), stored, false, false)
        == ReportPage(AiText(completion), ReportBlocks(AiText(completion), FlaskPdfPrefixes))
  {
    SavedRowIsFound(rows, SubmittedColumns(form, completion));
  }

  /** A submission with an empty nickname is still stored when the database
      accepts it, but `/result` answers that there is no identifier. */
  lemma EmptyNicknameIsStoredButNotShown(rows: seq<Row>, form: PostedForm, completion: Completion)
    requires FormGet(form, "nickname") == ""
    ensures Insertable(PrepareRow(Submission(form, completion)))
    ensures ResultFor(Some(FormGet(form, "nickname")), rows, false, false) == Message(NoIdentifierMessage)
  {
    SubmissionIsInsertable(form, completion);
  }

  /** A submission followed by a visit to `/result` in the same session. */
  method SubmitThenShow(db: Database, session: Session, form: PostedForm, completion: Completion,
                        commitSucceeds: bool, queryFails: bool, renderFails: bool)
    returns (page: ResultPage)
    requires db.Valid()
    modifies db, session
    ensures db.Valid()
    ensures FormGet(form, "nickname") == "" ==> page == Message(NoIdentifierMessage)
    ensures FormGet(form, "nickname") != "" && commitSucceeds && !queryFails && !renderFails ==>
      page == ReportPage(AiText(completion), ReportBlocks(AiText(completion), FlaskPdfPrefixes))
    ensures !commitSucceeds ==> page == ResultFor(Some(FormGet(form, "nickname")), old(db.rows), queryFails, renderFails)
  {
    ghost var before := db.rows;
    var redirect := Recommend(db, session, form, completion, commitSucceeds);
    assert !commitSucceeds ==> db.rows == before;
    page := ShowResult(db, session, queryFails, renderFails);
    if FormGet(form, "nickname") != "" && commitSucceeds && !queryFails && !renderFails {
      SubmissionIsShown(before, form, completion);
    }
  }
}
