# Dormitory laundry sessions — a Dafny model

This project models the core of a dormitory laundry web app. A student scans
a machine's QR code, which opens `/machine/<id>/start`, and fills in a form.
The app then stores an *active* laundry session in a `sessions` table. When
the load is done, a text message tells the student which machine to empty.

The model covers four pieces:

- **Validators** (`helpers.dfy`, module `Helpers`). The machine-id check
  `ISVALIDMACHINEID` is a whole-string match of the pattern `^[MF][A-D][1-8]$`,
  modelled as a sequence of character classes. The phone cleaner
  `KEEPDIGITSONLY` is a loop, proved equal to the recursive filter `DigitsOf`.
- **Sessions table** (`db.dfy`, module `Db`). The table is a class
  `SessionTable` holding a `map<int, Row>` and the next SESSIONID. Each SQL
  statement of db.py is a method that changes the map in place. Pure functions
  on the map give each statement its meaning: the SELECT with
  `ORDER BY SESSIONID DESC LIMIT 1` is `MostRecentActive`, and the three
  UPDATEs are `WithFinishSms`, `WithVerificationCode` and `WithPickedUp`.
- **Request handlers** (`app.dfy`, module `App`). `start_load` and
  `session_page` are methods over the table that return tagged outcomes
  (400, form with errors, redirect, 404) instead of rendered pages.
- **Finish message and send decision** (`sms_service.dfy`, module `Sms`).
  These are the message builders and the decision part of `send_finish_sms`.
  The SMS provider is a function parameter from the prepared request to the
  provider's outcome.

`pystr.dfy` (module `PyStr`) models Python's `str.strip()`. `wrappers.dfy`
holds `Option`, which stands for Python's `None` and SQL NULL.

The system is meant to keep at most one active session per machine and to
allow a pickup only while a session is active. The code does neither, and the
model follows the code:

- `start_load` does not look for an existing active session before it
  inserts. Two starts on one machine leave two active rows, and the lookup
  answers the later one (`App.RepeatedStartLeavesTwoActive`).
- `mark_picked_up` has no guard on the current STATUS. A second pickup just
  overwrites TIMEOUT (`Db.PickedUpTwice`). It records no delay.
- helpers.py, db.py, app.py and sms_service.py have no machine occupancy or
  condition, no verification-code gate, no delay or grace accounting and no
  "already SENT" guard for notifications. None of these is modelled.

## Model

| member | source | states |
|---|---|---|
| Helpers.FullMatchIff | helpers.py:7 | an anchored match of a character-class pattern holds iff the string has the pattern's length and each character is in its class |
| Helpers.IsValidMachineId | helpers.py:4-7 | `None` is rejected; a string is accepted iff it has length 3, its first char is M or F, its second is A–D and its third is 1–8 |
| Helpers.MachineIdRejections | helpers.py:2-7 | wrong lengths, the empty string, lower-case letters and the digits 0 and 9 are rejected; MA1 and FD8 are accepted |
| Helpers.DigitsOf | helpers.py:16-21 | the cleaned text is no longer than the input and holds only digits |
| Helpers.DigitsOfAppend | helpers.py:17-19 | the filter distributes over concatenation, so digits keep their relative order |
| Helpers.DigitsOfCounts | helpers.py:17-19 | each digit is kept exactly as often as it occurs in the input, and no other character is kept |
| Helpers.AllDigitsFixedPoint | helpers.py:16-21 | a string made only of digits is returned unchanged |
| Helpers.DigitsOfIdempotent | helpers.py:9-21 | cleaning twice gives the same result as cleaning once |
| Helpers.KeepDigitsOnly | helpers.py:9-21 | `None` gives `""`; otherwise the loop's result equals the filter `DigitsOf` of the text, only digits, no longer than the text |
| PyStr.Strip | app.py:35-36 | the stripped text is the contiguous piece of the input between its leading and trailing whitespace, and it neither starts nor ends with whitespace |
| PyStr.StripEmptyIff | app.py:45-48 | a name strips to `""` iff it consists only of whitespace |
| PyStr.StripIdempotent | app.py:35-36 | stripping twice gives the same result as stripping once |
| Db.NewRow | db.py:27-30 | an inserted row has FINISH_SMS_STATUS, FINISH_SMS_SENT_AT, VERIFICATION_CODE and TIMEOUT unset |
| Db.Max | db.py:79-80 | the chosen id is in the set and at least every other member |
| Db.MostRecentActive | db.py:72-83 | `None` iff no row of the machine is active; otherwise an active row of that machine whose SESSIONID is the largest among them |
| Db.WithFinishSms | db.py:57-64 | only FINISH_SMS_STATUS and FINISH_SMS_SENT_AT of the named row change; other rows and the key set are unchanged; no-op when the id is absent |
| Db.WithVerificationCode | db.py:90-97 | only VERIFICATION_CODE of the named row changes; no-op when the id is absent |
| Db.WithPickedUp | db.py:104-111 | only STATUS (set to 'picked_up') and TIMEOUT of the named row change; no-op when the id is absent |
| Db.UpdatesKeepWellKeyed | db.py:57-61 | no UPDATE changes a row's SESSIONID |
| Db.PickedUpIsNeverActive | db.py:104-111 | after pickup the row is never returned as a machine's active session, and the answer for other machines is unchanged |
| Db.PickedUpTwice | db.py:104-107 | two pickups of the same row equal a single pickup with the second TIMEOUT |
| Db.InsertFreshRow | db.py:27-34 | a row added under an id above all others becomes its machine's most recent active session if it is active; the answer for other machines is unchanged |
| Db.SessionTable.InsertSession | db.py:15-34 | returns an id greater than every existing one; the table gains exactly that row and every other row stays as it was |
| Db.SessionTable.GetSessionById | db.py:37-50 | returns the row with that SESSIONID iff one exists, without changing the table |
| Db.SessionTable.UpdateFinishSms | db.py:53-64 | the new table is `WithFinishSms` of the old one |
| Db.SessionTable.GetActiveSessionByMachine | db.py:67-83 | `None` iff the machine has no active row; otherwise its active row with the largest SESSIONID |
| Db.SessionTable.SetVerificationCode | db.py:86-97 | the new table is `WithVerificationCode` of the old one |
| Db.SessionTable.MarkPickedUp | db.py:100-111 | the new table is `WithPickedUp` of the old one; the row is no longer active for any machine |
| App.FieldOrEmpty | app.py:35-37 | a missing form field reads as `""` |
| App.Submitted | app.py:35-39 | the echoed form values are the stripped names and the raw phone text |
| App.ValidationErrors | app.py:44-50 | each of the three messages appears iff its condition holds; messages come in the fixed order first name, last name, phone; the list is empty iff all fields are acceptable |
| App.ValidationErrorsDistinct | app.py:44-50 | no message is reported twice |
| App.StartedRow | app.py:56-67 | the inserted row is 'active', belongs to the scanned machine and stores the cleaned phone |
| App.StartLoad | app.py:21-69 | an invalid id gives 400 and changes nothing; GET gives the empty form and changes nothing; POST behaves as `StartFromForm`, and a form shown again changes nothing |
| App.StartFromForm | app.py:34-69 | with any error, the form is shown again with those errors and the table is unchanged; otherwise exactly one active row is inserted under a fresh id, and the outcome is a redirect to that id |
| App.AcceptedFormRow | app.py:42-67 | an accepted form yields a row with non-empty stripped names and a phone of exactly ten digits |
| App.StartedRowIsActive | app.py:56-67 | after a successful start, its row is the most recent active session of the machine |
| App.RepeatedStartLeavesTwoActive | app.py:56-67 | two successful starts on one machine leave both rows active, and the lookup answers the later one |
| App.ViewOf | app.py:74-75 | the page shows the row's own SESSIONID, MACHINEID, FIRSTNAME, LASTNAME, PHONENUMBER, TIMEIN and STATUS |
| App.SessionPage | app.py:71-82 | 404 iff no row has that SESSIONID; otherwise the row's columns are shown; the table is only read |
| Sms.ToE164Us | sms_service.py:4-5 | the result is "+1" followed by the given number |
| Sms.E164OfCleanPhone | sms_service.py:4-5 | a ten-digit number becomes twelve characters: "+1", then the ten digits |
| Sms.DigitValue | sms_service.py:10 | `int` of a digit character is the number n from 0 to 9 whose decimal digit is that character |
| Sms.DigitChar | sms_service.py:15 | a number n from 0 to 9 prints as the n-th decimal digit, which `int` reads back as n |
| Sms.FloorText | sms_service.py:12 | "third floor (Boys)" iff the floor code is M, "second floor (Girls)" otherwise |
| Sms.MachineType | sms_service.py:13 | "washing machine" iff the number is 1–4, "drying machine" otherwise |
| Sms.FormatMachineLocation | sms_service.py:7-15 | for any id of length at least 3 with a digit in position 2, the text ends with the Boys floor iff the id starts with M, and with the Girls floor otherwise; it starts with "washing machine" iff the digit is 1–4 and with "drying machine" otherwise (0 and 9 included) |
| Sms.LocationLayout | sms_service.py:7-15 | the text is type, space, the id's digit, " in hallway ", the id's hall letter, ", ", floor text |
| Sms.LocationOfNumberNine | sms_service.py:7-15 | MA9 fails the validator, yet its location is formatted as a drying machine 9 in hallway A on the Boys floor |
| Sms.LocationOfLongId | sms_service.py:7-15 | XA1X fails the validator, yet its location is formatted from its first three characters: washing machine 1 in hallway A on the Girls floor |
| Sms.LocationPositions | sms_service.py:15 | the id's digit stands right after the type text and its hall letter 13 characters later |
| Sms.SameLocationSameType | sms_service.py:13-15 | two ids with one location text have one machine type |
| Sms.SameLocationSameFloor | sms_service.py:12-15 | two valid ids with one location text have one floor code |
| Sms.SameLocationSameHallAndNumber | sms_service.py:8-15 | two ids with one location text and one type have the same hall letter and digit |
| Sms.LocationInjective | sms_service.py:7-15 | two valid ids with the same location text are the same id |
| Sms.BuildFinishMessage | sms_service.py:17-23 | the message is the fixed prefix, then the location text, then the fixed suffix |
| Sms.FinishMessageInjective | sms_service.py:17-23 | two valid ids with the same message are the same id |
| Sms.FinishSmsRequest | sms_service.py:42-54 | the request is posted to the provider's Messages.json URL for the stripped account sid, goes to "+1" plus the phone, carries the finish message, and uses the stripped sender and credentials |
| Sms.ClassifyOutcome | sms_service.py:56-76 | success iff an HTTP reply has a status in [200, 300); a success carries the reply's sid, or "SM_UNKNOWN" when it has none; a failure carries the outcome's error type and details |
| Sms.SendFinishSms | sms_service.py:25-76 | a blank credential gives the MISSING_CONFIG failure; otherwise the result is the classification of the provider's outcome for the prepared request |
| Sms.MissingConfigIgnoresProvider | sms_service.py:35-40 | without configuration the result does not depend on the provider, so no call is made, and it is a failure |
| Sms.BlankCredentialIsMissing | sms_service.py:31-35 | if any of the account sid, auth token or sender number is made only of whitespace, the account counts as not configured |

## Left out

- `get_connection`, `DB_PATH`, SQLite connections and transactions are persistence plumbing. The table is an in-memory map.
- The schema file is not part of this model. The model assumes ids start at 1 and each new id exceeds every stored one.
- Db.NewRow: takes FINISH_SMS_STATUS, FINISH_SMS_SENT_AT, VERIFICATION_CODE and TIMEOUT as NULL. The INSERT at db.py:27-30 does not set them, so this assumes the schema gives them no defaults.
- `init_db` (app.py:10-19) only reads a file and runs a script, which is I/O.
- Flask routing, `render_template`, `redirect` and `url_for` are HTTP and UI glue. Responses are the `StartOutcome` and `PageOutcome` datatypes.
- `datetime.now()` is a clock read. The start time is the parameter `timeIn`. The time stamps for pickup and SMS are opaque strings.
- `os.environ` reads are not modelled. The three credentials are parameters, and an unset variable is passed as `""`.
- `requests.post`, its timeout, and JSON parsing are foreign library behaviour. The provider is a function parameter.
- Sms.ClassifyOutcome: how the `TWILIO_<code>`, `HTTP_<status>`, `TIMEOUT` and `UNKNOWN_<exception>` error types and their details are built from a failed reply or an exception is not modelled. They arrive as fields of `ProviderOutcome`.
- Sms.ClassifyOutcome: a 2xx reply whose body is not JSON is not modelled. In Python it would raise and land in the generic exception handler.
- Sms.ClassifyOutcome: a 2xx JSON body whose `sid` is `null` is not told apart from one without `sid`. Python would return `None` as the sid instead of "SM_UNKNOWN".
- Helpers.IsDigit: Python's `str.isdigit` also accepts non-ASCII digits. The model accepts only '0'..'9'.
- PyStr.Strip: Python's `str.strip` also removes non-ASCII whitespace such as U+00A0 and U+2028. The model removes only the ASCII whitespace of `str.isspace`.
- Sms.FormatMachineLocation: its precondition `Formattable` asks for length at least 3 and an ASCII digit in position 2. This covers every id the source formats except one with a non-ASCII Unicode digit in position 2, which Python's `int` also accepts. The ids it excludes are the ones where the source raises: `IndexError` below length 3, `ValueError` for a non-digit in position 2.
- Sms.BuildFinishMessage: inherits the precondition `Formattable`, because it calls `format_machine_location`.
- Sms.FinishSmsRequest: inherits the precondition `Formattable`, because it builds the message body.
- Sms.SendFinishSms: requires `Formattable` when the credentials are set. In that case an id that makes `format_machine_location` raise makes `send_finish_sms` raise too, out of the function, instead of returning a failure dictionary: sms_service.py:42-44 run before the `try` at sms_service.py:48. That exception path is not modelled. With a credential missing, any id gives the MISSING_CONFIG result.
- Concurrent requests racing on insert are not modelled. Each operation runs to completion.
