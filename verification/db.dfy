/**
 * The `sessions` table of db.py, held in memory: a map from SESSIONID to the
 * row, and the next SESSIONID the store hands out. The pure functions below
 * state what each SQL statement means; the class `SessionTable` performs the
 * statements in place and is specified by them.
 */
module Db {
  import opened Wrappers

  /** STATUS values written by the application. */
  const Active := "active"
  const PickedUp := "picked_up"

  /** One row of `sessions`; the four trailing columns are NULL until an UPDATE sets them. */
  datatype Row = Row(
    sessionId: int,
    machineId: string,
    firstName: string,
    lastName: string,
    phoneNumber: string,
    timeIn: string,
    status: string,
    finishSmsStatus: Option<string>,
    finishSmsSentAt: Option<string>,
    verificationCode: Option<string>,
    timeOut: Option<string>)

  type Table = map<int, Row>

  /** Every row is stored under its own SESSIONID. */
  ghost predicate WellKeyed(rows: Table)
  {
    forall id :: id in rows ==> rows[id].sessionId == id
  }

  /** The row `INSERT INTO sessions (MACHINEID, ..., STATUS)` creates: the six given columns, the rest NULL. */
  function NewRow(sessionId: int, machineId: string, firstName: string, lastName: string,
                  phoneNumber: string, timeIn: string, status: string): (r: Row)
    ensures r.finishSmsStatus.None? && r.finishSmsSentAt.None? && r.verificationCode.None? && r.timeOut.None?
  {
    Row(sessionId, machineId, firstName, lastName, phoneNumber, timeIn, status, None, None, None, None)
  }

  /** `WHERE MACHINEID = ? AND STATUS = 'active'`. */
  function ActiveIds(rows: Table, machineId: string): set<int>
  {
    set id | id in rows && rows[id].machineId == machineId && rows[id].status == Active
  }

  lemma {:induction false} MaxExists(s: set<int>)
    requires s != {}
    ensures exists m :: m in s && forall x :: x in s ==> x <= m
  {
    // a non-empty set has an element
    if forall x :: x !in s {
      assert false;
    }
    var y :| y in s;
    if s == {y} {
      assert forall x :: x in s ==> x <= y;
    } else {
      var rest := s - {y};
      MaxExists(rest);
      var m :| m in rest && forall x :: x in rest ==> x <= m;
      var top := if y <= m then m else y;
      forall x | x in s ensures x <= top {
        if x != y {
          assert x in rest;
        }
      }
      assert top in s;
    }
  }

  /** The largest element of a non-empty set of ids. */
  function Max(s: set<int>): (m: int)
    requires s != {}
    ensures m in s
    ensures forall x :: x in s ==> x <= m
  {
    MaxExists(s);
    var m :| m in s && forall x :: x in s ==> x <= m;
    m
  }

  /** `... ORDER BY SESSIONID DESC LIMIT 1`: the id of the most recent active row for the machine. */
  function MostRecentActive(rows: Table, machineId: string): (r: Option<int>)
    ensures r.None? <==> ActiveIds(rows, machineId) == {}
    ensures r.Some? ==> r.value in rows && rows[r.value].machineId == machineId && rows[r.value].status == Active
    ensures r.Some? ==> forall id :: id in ActiveIds(rows, machineId) ==> id <= r.value
  {
    var ids := ActiveIds(rows, machineId);
    if ids == {} then None else Some(Max(ids))
  }

  /** `UPDATE sessions SET FINISH_SMS_STATUS = ?, FINISH_SMS_SENT_AT = ? WHERE SESSIONID = ?`. */
  function WithFinishSms(rows: Table, sessionId: int, statusText: string, sentAt: string): (r: Table)
    ensures r.Keys == rows.Keys
    ensures forall id :: id in rows && id != sessionId ==> r[id] == rows[id]
    ensures sessionId in rows ==>
      && r[sessionId].finishSmsStatus == Some(statusText)
      && r[sessionId].finishSmsSentAt == Some(sentAt)
      && r[sessionId].(finishSmsStatus := rows[sessionId].finishSmsStatus,
                       finishSmsSentAt := rows[sessionId].finishSmsSentAt) == rows[sessionId]
    ensures sessionId !in rows ==> r == rows
  {
    if sessionId in rows then
      rows[sessionId := rows[sessionId].(finishSmsStatus := Some(statusText), finishSmsSentAt := Some(sentAt))]
    else
      rows
  }

  /** `UPDATE sessions SET VERIFICATION_CODE = ? WHERE SESSIONID = ?`. */
  function WithVerificationCode(rows: Table, sessionId: int, code: string): (r: Table)
    ensures r.Keys == rows.Keys
    ensures forall id :: id in rows && id != sessionId ==> r[id] == rows[id]
    ensures sessionId in rows ==>
      && r[sessionId].verificationCode == Some(code)
      && r[sessionId].(verificationCode := rows[sessionId].verificationCode) == rows[sessionId]
    ensures sessionId !in rows ==> r == rows
  {
    if sessionId in rows then rows[sessionId := rows[sessionId].(verificationCode := Some(code))] else rows
  }

  /** `UPDATE sessions SET STATUS = 'picked_up', TIMEOUT = ? WHERE SESSIONID = ?`, with no guard on the old STATUS. */
  function WithPickedUp(rows: Table, sessionId: int, timeOut: string): (r: Table)
    ensures r.Keys == rows.Keys
    ensures forall id :: id in rows && id != sessionId ==> r[id] == rows[id]
    ensures sessionId in rows ==>
      && r[sessionId].status == PickedUp
      && r[sessionId].timeOut == Some(timeOut)
      && r[sessionId].(status := rows[sessionId].status, timeOut := rows[sessionId].timeOut) == rows[sessionId]
    ensures sessionId !in rows ==> r == rows
  {
    if sessionId in rows then rows[sessionId := rows[sessionId].(status := PickedUp, timeOut := Some(timeOut))] else rows
  }

  /** None of the three updates touches SESSIONID, so the table stays well keyed. */
  lemma UpdatesKeepWellKeyed(rows: Table, sessionId: int, text: string, at: string)
    requires WellKeyed(rows)
    ensures WellKeyed(WithFinishSms(rows, sessionId, text, at))
    ensures WellKeyed(WithVerificationCode(rows, sessionId, text))
    ensures WellKeyed(WithPickedUp(rows, sessionId, at))
  {
  }

  /** After pickup, the row is never the active session of any machine; every other machine's answer is unchanged. */
  lemma PickedUpIsNeverActive(rows: Table, sessionId: int, timeOut: string, machineId: string)
    requires sessionId in rows
    ensures sessionId !in ActiveIds(WithPickedUp(rows, sessionId, timeOut), machineId)
    ensures MostRecentActive(WithPickedUp(rows, sessionId, timeOut), machineId) != Some(sessionId)
    ensures machineId != rows[sessionId].machineId ==>
      MostRecentActive(WithPickedUp(rows, sessionId, timeOut), machineId) == MostRecentActive(rows, machineId)
  {
    var after := WithPickedUp(rows, sessionId, timeOut);
    if machineId != rows[sessionId].machineId {
      assert ActiveIds(after, machineId) == ActiveIds(rows, machineId);
    }
  }

  /** A second pickup overwrites TIMEOUT with its own argument and leaves STATUS 'picked_up'. */
  lemma PickedUpTwice(rows: Table, sessionId: int, first: string, second: string)
    ensures WithPickedUp(WithPickedUp(rows, sessionId, first), sessionId, second) == WithPickedUp(rows, sessionId, second)
  {
  }

  /**
   * A row stored under a fresh id above all others becomes the most recent
   * active session of its machine when its STATUS is 'active'; the other
   * machines' answers do not change.
   */
  lemma InsertFreshRow(rows: Table, id: int, row: Row, machineId: string)
    requires forall k :: k in rows ==> k < id
    ensures row.machineId == machineId && row.status == Active ==>
      && ActiveIds(rows[id := row], machineId) == ActiveIds(rows, machineId) + {id}
      && MostRecentActive(rows[id := row], machineId) == Some(id)
    ensures !(row.machineId == machineId && row.status == Active) ==>
      && ActiveIds(rows[id := row], machineId) == ActiveIds(rows, machineId)
      && MostRecentActive(rows[id := row], machineId) == MostRecentActive(rows, machineId)
  {
    var after := rows[id := row];
    if row.machineId == machineId && row.status == Active {
      assert ActiveIds(after, machineId) == ActiveIds(rows, machineId) + {id};
    } else {
      assert ActiveIds(after, machineId) == ActiveIds(rows, machineId);
    }
  }

  /** The sessions table of one SQLite file, updated in place by the statements of db.py. */
  class SessionTable {
    var rows: Table
    /** The SESSIONID the next INSERT receives; it exceeds every stored id. */
    var nextId: int

    ghost predicate Valid()
      reads this
    {
      && 1 <= nextId
      && WellKeyed(rows)
      && forall id :: id in rows ==> 1 <= id < nextId
    }

    /** An empty table, as the schema creates it. */
    constructor ()
      ensures Valid()
      ensures rows == map[] && nextId == 1
    {
      rows := map[];
      nextId := 1;
    }

    /** `insert_session`: stores a new row under a fresh id and returns that id. */
    method InsertSession(machineId: string, firstName: string, lastName: string,
                         phoneNumber: string, timeIn: string, status: string) returns (sessionId: int)
      requires Valid()
      modifies this
      ensures Valid()
      ensures sessionId !in old(rows)
      ensures forall id :: id in old(rows) ==> id < sessionId
      ensures rows == old(rows)[sessionId := NewRow(sessionId, machineId, firstName, lastName, phoneNumber, timeIn, status)]
      ensures nextId == sessionId + 1
    {
      sessionId := nextId;
      rows := rows[sessionId := NewRow(sessionId, machineId, firstName, lastName, phoneNumber, timeIn, status)];
      nextId := nextId + 1;
    }

    /** `get_session_by_id`: the row with that SESSIONID, or `None`. */
    method GetSessionById(sessionId: int) returns (row: Option<Row>)
      requires Valid()
      ensures row.Some? <==> sessionId in rows
      ensures row.Some? ==> row.value == rows[sessionId] && row.value.sessionId == sessionId
    {
      row := if sessionId in rows then Some(rows[sessionId]) else None;
    }

    /** `update_finish_sms`: records the finish-SMS outcome of one session. */
    method UpdateFinishSms(sessionId: int, statusText: string, sentAt: string)
      requires Valid()
      modifies this
      ensures Valid()
      ensures rows == WithFinishSms(old(rows), sessionId, statusText, sentAt)
      ensures nextId == old(nextId)
    {
      UpdatesKeepWellKeyed(rows, sessionId, statusText, sentAt);
      rows := WithFinishSms(rows, sessionId, statusText, sentAt);
    }

    /** `get_active_session_by_machine`: the active row of the machine with the highest SESSIONID, or `None`. */
    method GetActiveSessionByMachine(machineId: string) returns (row: Option<Row>)
      requires Valid()
      ensures row.None? <==> ActiveIds(rows, machineId) == {}
      ensures row.Some? ==>
        && row.value.sessionId in rows
        && rows[row.value.sessionId] == row.value
        && row.value.machineId == machineId
        && row.value.status == Active
        && forall id :: id in ActiveIds(rows, machineId) ==> id <= row.value.sessionId
    {
      var id := MostRecentActive(rows, machineId);
      row := if id.Some? then Some(rows[id.value]) else None;
    }

    /** `set_verification_code`: stores the code of one session. */
    method SetVerificationCode(sessionId: int, code: string)
      requires Valid()
      modifies this
      ensures Valid()
      ensures rows == WithVerificationCode(old(rows), sessionId, code)
      ensures nextId == old(nextId)
    {
      UpdatesKeepWellKeyed(rows, sessionId, code, "");
      rows := WithVerificationCode(rows, sessionId, code);
    }

    /** `mark_picked_up`: ends a session, whatever its STATUS was. */
    method MarkPickedUp(sessionId: int, timeOut: string)
      requires Valid()
      modifies this
      ensures Valid()
      ensures rows == WithPickedUp(old(rows), sessionId, timeOut)
      ensures nextId == old(nextId)
      ensures sessionId in old(rows) ==> forall m :: sessionId !in ActiveIds(rows, m)
    {
      UpdatesKeepWellKeyed(rows, sessionId, "", timeOut);
      rows := WithPickedUp(rows, sessionId, timeOut);
    }
  }
}
