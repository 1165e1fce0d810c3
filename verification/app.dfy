/**
 * The request handlers of app.py: `start_load` (GET shows the empty form,
 * POST validates the form and inserts an active session) and `session_page`.
 * Responses are tagged outcomes instead of rendered pages.
 */
module App {
  import opened Wrappers
  import opened Helpers
  import opened PyStr
  import opened Db

  const InvalidMachineMessage := "Invalid machine ID."
  const FirstNameRequired := "First name is required."
  const LastNameRequired := "Last name is required."
  const PhoneNotTenDigits := "Phone number must be exactly 10 digits."
  const SessionNotFoundMessage := "Session not found."

  /** The fixed order in which `start_load` reports field errors. */
  const ErrorOrder := [FirstNameRequired, LastNameRequired, PhoneNotTenDigits]

  /** The three posted form fields; `None` when the field is absent. */
  datatype Form = Form(firstName: Option<string>, lastName: Option<string>, phoneNumber: Option<string>)

  datatype Request = Get | Post(form: Form)

  /** The values echoed back into `machine_start.html`. */
  datatype FormValues = FormValues(firstName: string, lastName: string, phoneNumber: string)

  datatype StartOutcome =
    | InvalidMachine(message: string, statusCode: int)    // the 400 response
    | StartForm(errors: seq<string>, values: FormValues)  // machine_start.html, empty or with errors
    | RedirectToSession(sessionId: int)                   // redirect to session_page

  /** The columns `session_page` selects. */
  datatype SessionView = SessionView(sessionId: int, machineId: string, firstName: string, lastName: string,
                                     phoneNumber: string, timeIn: string, status: string)

  datatype PageOutcome =
    | SessionNotFound(message: string, statusCode: int)   // the 404 response
    | SessionStarted(session: SessionView)                // session_started.html

  /** `request.form.get(name) or ""`. */
  function FieldOrEmpty(field: Option<string>): (r: string)
    ensures field.None? ==> r == ""
    ensures field.Some? ==> r == field.value
  {
    field.GetOr("")
  }

  /** What a POST carries after reading: stripped names and the raw phone text. */
  function Submitted(form: Form): (values: FormValues)
    ensures values.firstName == Strip(FieldOrEmpty(form.firstName))
    ensures values.lastName == Strip(FieldOrEmpty(form.lastName))
    ensures values.phoneNumber == FieldOrEmpty(form.phoneNumber)
  {
    FormValues(Strip(FieldOrEmpty(form.firstName)), Strip(FieldOrEmpty(form.lastName)), FieldOrEmpty(form.phoneNumber))
  }

  /** Position of a message in `ErrorOrder`. */
  function Rank(error: string): int
  {
    if error == FirstNameRequired then 0 else if error == LastNameRequired then 1 else 2
  }

  /**
   * The errors `start_load` collects, in the order it checks: an empty first
   * name, an empty last name, a cleaned phone that is not 10 digits long.
   */
  function ValidationErrors(firstName: string, lastName: string, phoneClean: string): (errors: seq<string>)
    ensures FirstNameRequired in errors <==> firstName == ""
    ensures LastNameRequired in errors <==> lastName == ""
    ensures PhoneNotTenDigits in errors <==> |phoneClean| != 10
    ensures forall i :: 0 <= i < |errors| ==> errors[i] in ErrorOrder
    ensures forall i, j :: 0 <= i < j < |errors| ==> Rank(errors[i]) < Rank(errors[j])
    ensures errors == [] <==> firstName != "" && lastName != "" && |phoneClean| == 10
  {
    (if firstName == "" then [FirstNameRequired] else [])
    + (if lastName == "" then [LastNameRequired] else [])
    + (if |phoneClean| != 10 then [PhoneNotTenDigits] else [])
  }

  /** Strictly increasing ranks mean no message is reported twice. */
  lemma ValidationErrorsDistinct(firstName: string, lastName: string, phoneClean: string)
    ensures var errors := ValidationErrors(firstName, lastName, phoneClean);
      forall i, j :: 0 <= i < j < |errors| ==> errors[i] != errors[j]
  {
  }

  /** The row a successful POST inserts. */
  function StartedRow(sessionId: int, machineId: string, values: FormValues, timeIn: string): (r: Row)
    ensures r.status == Active && r.machineId == machineId && r.sessionId == sessionId
    ensures r.phoneNumber == DigitsOf(values.phoneNumber)
  {
    NewRow(sessionId, machineId, values.firstName, values.lastName, DigitsOf(values.phoneNumber), timeIn, Active)
  }

  /** What a POST to `start_load` leaves behind once the machine id has been accepted. */
  ghost predicate PostHandled(rows: Table, rows': Table, machineId: string, form: Form, timeIn: string, outcome: StartOutcome)
  {
    var values := Submitted(form);
    var errors := ValidationErrors(values.firstName, values.lastName, DigitsOf(values.phoneNumber));
    if errors != [] then
      outcome == StartForm(errors, values) && rows' == rows
    else
      && outcome.RedirectToSession?
      && (forall id :: id in rows ==> id < outcome.sessionId)
      && rows' == rows[outcome.sessionId := StartedRow(outcome.sessionId, machineId, values, timeIn)]
  }

  /**
   * `start_load`: reject a malformed machine id with 400, show the empty form
   * on GET, and hand a POST to `StartFromForm`. `timeIn` is the clock reading
   * the handler takes.
   */
  method StartLoad(db: SessionTable, machineId: string, request: Request, timeIn: string)
    returns (outcome: StartOutcome)
    requires db.Valid()
    modifies db
    ensures db.Valid()
    ensures !IsValidMachineId(Some(machineId)) ==>
      outcome == InvalidMachine(InvalidMachineMessage, 400) && unchanged(db)
    ensures IsValidMachineId(Some(machineId)) && request.Get? ==>
      outcome == StartForm([], FormValues("", "", "")) && unchanged(db)
    ensures IsValidMachineId(Some(machineId)) && request.Post? ==>
      && PostHandled(old(db.rows), db.rows, machineId, request.form, timeIn, outcome)
      && (outcome.StartForm? ==> unchanged(db))
  {
    if !IsValidMachineId(Some(machineId)) {
      return InvalidMachine(InvalidMachineMessage, 400);
    }
    if request.Get? {
      return StartForm([], FormValues("", "", ""));
    }
    outcome := StartFromForm(db, machineId, request.form, timeIn);
  }

  /**
   * The POST branch of `start_load`: strip the names, clean the phone, collect
   * the field errors one after the other, and insert an active session only
   * when there are none. No existing active session is looked for.
   */
  method StartFromForm(db: SessionTable, machineId: string, form: Form, timeIn: string)
    returns (outcome: StartOutcome)
    requires db.Valid()
    modifies db
    ensures db.Valid()
    ensures outcome.StartForm? ==> unchanged(db)
    ensures PostHandled(old(db.rows), db.rows, machineId, form, timeIn, outcome)
  {
    var errors: seq<string> := [];
    var firstName := Strip(FieldOrEmpty(form.firstName));
    var lastName := Strip(FieldOrEmpty(form.lastName));
    var phoneRaw := FieldOrEmpty(form.phoneNumber);
    var values := FormValues(firstName, lastName, phoneRaw);
    assert values == Submitted(form);
    var phoneClean := KeepDigitsOnly(Some(phoneRaw));
    if firstName == "" {
      errors := errors + [FirstNameRequired];
    }
    assert errors == (if firstName == "" then [FirstNameRequired] else []);
    if lastName == "" {
      errors := errors + [LastNameRequired];
    }
    assert errors == (if firstName == "" then [FirstNameRequired] else [])
                     + (if lastName == "" then [LastNameRequired] else []);
    if |phoneClean| != 10 {
      errors := errors + [PhoneNotTenDigits];
    }
    assert errors == ValidationErrors(firstName, lastName, phoneClean);
    if |errors| > 0 {
      FormShownAgain(old(db.rows), machineId, form, timeIn);
      return StartForm(errors, values);
    }
    var sessionId := db.InsertSession(machineId, firstName, lastName, phoneClean, timeIn, Active);
    assert db.rows == old(db.rows)[sessionId := StartedRow(sessionId, machineId, values, timeIn)];
    SessionInserted(old(db.rows), sessionId, machineId, form, timeIn);
    outcome := RedirectToSession(sessionId);
  }

  /** A POST with field errors: the form comes back with those errors and the rows stay as they were. */
  lemma FormShownAgain(rows: Table, machineId: string, form: Form, timeIn: string)
    requires var values := Submitted(form);
      ValidationErrors(values.firstName, values.lastName, DigitsOf(values.phoneNumber)) != []
    ensures var values := Submitted(form);
      PostHandled(rows, rows, machineId, form, timeIn,
                  StartForm(ValidationErrors(values.firstName, values.lastName, DigitsOf(values.phoneNumber)), values))
  {
  }

  /** A POST without field errors: one started row goes in under an id above all others. */
  lemma SessionInserted(rows: Table, sessionId: int, machineId: string, form: Form, timeIn: string)
    requires var values := Submitted(form);
      ValidationErrors(values.firstName, values.lastName, DigitsOf(values.phoneNumber)) == []
    requires forall id :: id in rows ==> id < sessionId
    ensures PostHandled(rows, rows[sessionId := StartedRow(sessionId, machineId, Submitted(form), timeIn)],
                        machineId, form, timeIn, RedirectToSession(sessionId))
  {
  }

  /** An accepted form gives a row with non-empty stripped names and a phone of exactly ten digits. */
  lemma AcceptedFormRow(sessionId: int, machineId: string, form: Form, timeIn: string)
    requires var values := Submitted(form);
      ValidationErrors(values.firstName, values.lastName, DigitsOf(values.phoneNumber)) == []
    ensures var row := StartedRow(sessionId, machineId, Submitted(form), timeIn);
      && row.status == Active
      && row.firstName == Strip(FieldOrEmpty(form.firstName)) != ""
      && row.lastName == Strip(FieldOrEmpty(form.lastName)) != ""
      && row.phoneNumber == DigitsOf(FieldOrEmpty(form.phoneNumber))
      && |row.phoneNumber| == 10
      && forall i :: 0 <= i < 10 ==> IsDigit(row.phoneNumber[i])
  {
  }

  /** The row a successful start inserts is the most recent active session of its machine. */
  lemma StartedRowIsActive(rows: Table, sessionId: int, machineId: string, values: FormValues, timeIn: string)
    requires forall id :: id in rows ==> id < sessionId
    ensures var after := rows[sessionId := StartedRow(sessionId, machineId, values, timeIn)];
      && ActiveIds(after, machineId) == ActiveIds(rows, machineId) + {sessionId}
      && MostRecentActive(after, machineId) == Some(sessionId)
  {
    InsertFreshRow(rows, sessionId, StartedRow(sessionId, machineId, values, timeIn), machineId);
  }

  /**
   * Two successful starts for the same machine, with no pickup between them,
   * leave two active rows; the active-session lookup then answers the later one.
   */
  lemma RepeatedStartLeavesTwoActive(rows: Table, first: int, second: int, machineId: string,
                                     values1: FormValues, values2: FormValues, time1: string, time2: string)
    requires forall id :: id in rows ==> id < first
    requires first < second
    ensures var after := rows[first := StartedRow(first, machineId, values1, time1)]
                             [second := StartedRow(second, machineId, values2, time2)];
      && {first, second} <= ActiveIds(after, machineId)
      && MostRecentActive(after, machineId) == Some(second)
  {
    var middle := rows[first := StartedRow(first, machineId, values1, time1)];
    StartedRowIsActive(rows, first, machineId, values1, time1);
    StartedRowIsActive(middle, second, machineId, values2, time2);
  }

  /** The columns of a row that `session_page` shows. */
  function ViewOf(row: Row): (v: SessionView)
    ensures v.sessionId == row.sessionId && v.machineId == row.machineId && v.status == row.status
    ensures v.firstName == row.firstName && v.lastName == row.lastName
    ensures v.phoneNumber == row.phoneNumber && v.timeIn == row.timeIn
  {
    SessionView(row.sessionId, row.machineId, row.firstName, row.lastName, row.phoneNumber, row.timeIn, row.status)
  }

  /** `session_page`: 404 exactly when no row has that SESSIONID; the table is only read. */
  method SessionPage(db: SessionTable, sessionId: int) returns (page: PageOutcome)
    requires db.Valid()
    ensures page.SessionNotFound? <==> sessionId !in db.rows
    ensures page.SessionNotFound? ==> page == SessionNotFound(SessionNotFoundMessage, 404)
    ensures page.SessionStarted? ==> page.session == ViewOf(db.rows[sessionId]) && page.session.sessionId == sessionId
  {
    var row := db.GetSessionById(sessionId);
    if row.None? {
      return SessionNotFound(SessionNotFoundMessage, 404);
    }
    page := SessionStarted(ViewOf(row.value));
  }
}
