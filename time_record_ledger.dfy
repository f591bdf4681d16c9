/**
 * server/src/controllers/timeRecordController.ts: the attendance ledger whose
 * records carry one notes string, filled with a default ('Clock in',
 * 'Clock out', 'Rejected by manager') when the request gives none.
 *
 * The module-level `timeRecords` array is the field of the same name; `push`
 * and slot assignment become reassignments of that field. The clock readings
 * (`getCurrentDate`, `getCurrentTime`) and the account list
 * (`req.app.locals.users`) are parameters.
 */
module TimeRecordLedger {
  import opened Js
  import opened Http
  import opened Accounts
  import opened Ledger

  type Record = TimeRecord<string>

  /** Every record this controller writes carries non-empty notes. */
  ghost predicate NotesPresent(rs: seq<Record>) {
    forall i :: 0 <= i < |rs| ==> rs[i].notes != ""
  }

  class TimeRecordLedger {
    var timeRecords: seq<Record>

    /** At most one open record per user, distinct ids, and notes on every record. */
    ghost predicate Valid()
      reads this
    {
      LedgerInvariant(timeRecords) && NotesPresent(timeRecords)
    }

    /** `let timeRecords: TimeRecord[] = []`. */
    constructor ()
      ensures Valid() && timeRecords == []
    {
      timeRecords := [];
    }

    /**
     * `clockIn`: on every failure of the guard chain the ledger is unchanged;
     * on success exactly one record is appended (a fresh id, pending, open,
     * the user's manager, the given notes or else 'Clock in') and
     * the user is then clocked in with that record.
     */
    method ClockIn(userId: int, notes: Option<string>, users: seq<User>, date: string, time: string)
      returns (r: Reply<Record>)
      requires Valid()
      modifies this
      ensures Valid()
      ensures ClockInCheck(old(timeRecords), users, userId).Deny? ==>
        r == Failure(ClockInCheck(old(timeRecords), users, userId).status,
                     ClockInCheck(old(timeRecords), users, userId).message) &&
        timeRecords == old(timeRecords)
      ensures ClockInCheck(old(timeRecords), users, userId).Pass? ==>
        var rec := Opened(old(timeRecords), userId, ClockInCheck(old(timeRecords), users, userId).value,
                          date, time, Or(notes, "Clock in"));
        timeRecords == old(timeRecords) + [rec] && r == Success(201, rec)
      ensures r.Success? ==> CheckClockStatus(userId) == ClockStatus(true, Some(r.body))
    {
      match ClockInCheck(timeRecords, users, userId)
      case Deny(status, message) =>
        r := Failure(status, message);
      case Pass(managerId) =>
        var rec := Opened(timeRecords, userId, managerId, date, time, Or(notes, "Clock in"));
        AppendKeepsInvariant(timeRecords, rec);
        ClockInThenClockedIn(timeRecords, rec);
        timeRecords := timeRecords + [rec];
        r := Success(201, rec);
    }

    /**
     * `clockOut`: without an open record, 400 and no change. Otherwise only
     * the open record's slot changes: it gets the end time and the given
     * notes, else its previous notes, else 'Clock out'. In a valid ledger the
     * previous notes are never empty, so the last default is never used.
     * With a non-empty end time the user is clocked out after.
     */
    method ClockOut(userId: int, notes: Option<string>, time: string) returns (r: Reply<Record>)
      requires Valid()
      modifies this
      ensures Valid()
      ensures FindOpen(old(timeRecords), userId).None? ==>
        r == Failure(400, "User is not clocked in") && timeRecords == old(timeRecords)
      ensures FindOpen(old(timeRecords), userId).Some? ==>
        var k := FindOpen(old(timeRecords), userId).value;
        var prev := old(timeRecords)[k];
        timeRecords == old(timeRecords)[k := prev.(endTime := Some(time),
                                                    notes := Or(notes, Or(Some(prev.notes), "Clock out")))] &&
        r == Success(200, timeRecords[k]) && timeRecords[k].notes == Or(notes, prev.notes)
      ensures time != "" ==> CheckClockStatus(userId) == ClockStatus(false, None)
    {
      match FindOpen(timeRecords, userId)
      case None =>
        r := Failure(400, "User is not clocked in");
      case Some(k) =>
        var prev := timeRecords[k];
        var rec := prev.(endTime := Some(time),
                         notes := Or(notes, Or(Some(prev.notes), "Clock out")));
        ReplaceKeepsInvariant(timeRecords, k, rec);
        if time != "" {
          ClockOutThenClockedOut(timeRecords, userId, rec);
        }
        timeRecords := timeRecords[k := rec];
        r := Success(200, rec);
    }

    /**
     * `approveTimeRecord`: the 404 / 403 / 400 guard chain leaves the ledger
     * unchanged; on success only the record's status becomes approved, whatever
     * it was before.
     */
    method ApproveTimeRecord(recordId: Option<int>, callerId: int) returns (r: Reply<Record>)
      requires Valid()
      modifies this
      ensures Valid()
      ensures ReviewCheck(old(timeRecords), recordId, callerId, "approve").Deny? ==>
        r == Failure(ReviewCheck(old(timeRecords), recordId, callerId, "approve").status,
                     ReviewCheck(old(timeRecords), recordId, callerId, "approve").message) &&
        timeRecords == old(timeRecords)
      ensures ReviewCheck(old(timeRecords), recordId, callerId, "approve").Pass? ==>
        var k := ReviewCheck(old(timeRecords), recordId, callerId, "approve").value;
        timeRecords == old(timeRecords)[k := old(timeRecords)[k].(status := Approved)] &&
        r == Success(200, timeRecords[k])
    {
      match ReviewCheck(timeRecords, recordId, callerId, "approve")
      case Deny(status, message) =>
        r := Failure(status, message);
      case Pass(k) =>
        var rec := timeRecords[k].(status := Approved);
        ReplaceKeepsInvariant(timeRecords, k, rec);
        timeRecords := timeRecords[k := rec];
        r := Success(200, rec);
    }

    /**
     * `rejectTimeRecord`: the same guard chain with "reject"; on success the
     * status becomes rejected and the notes become the given ones, else
     * 'Rejected by manager', whatever the status was before.
     */
    method RejectTimeRecord(recordId: Option<int>, callerId: int, notes: Option<string>) returns (r: Reply<Record>)
      requires Valid()
      modifies this
      ensures Valid()
      ensures ReviewCheck(old(timeRecords), recordId, callerId, "reject").Deny? ==>
        r == Failure(ReviewCheck(old(timeRecords), recordId, callerId, "reject").status,
                     ReviewCheck(old(timeRecords), recordId, callerId, "reject").message) &&
        timeRecords == old(timeRecords)
      ensures ReviewCheck(old(timeRecords), recordId, callerId, "reject").Pass? ==>
        var k := ReviewCheck(old(timeRecords), recordId, callerId, "reject").value;
        var prev := old(timeRecords)[k];
        timeRecords == old(timeRecords)[k := prev.(status := Rejected,
                                                    notes := Or(notes, "Rejected by manager"))] &&
        r == Success(200, timeRecords[k])
    {
      match ReviewCheck(timeRecords, recordId, callerId, "reject")
      case Deny(status, message) =>
        r := Failure(status, message);
      case Pass(k) =>
        var prev := timeRecords[k];
        var rec := prev.(status := Rejected,
                         notes := Or(notes, "Rejected by manager"));
        ReplaceKeepsInvariant(timeRecords, k, rec);
        timeRecords := timeRecords[k := rec];
        r := Success(200, rec);
    }

    /**
     * `checkClockStatus`: clocked in exactly when the user has an open record;
     * that record is returned, and in a valid ledger it is the user's only
     * open record.
     */
    function CheckClockStatus(userId: int): (s: ClockStatus<string>)
      reads this
      ensures s.clockedIn <==> exists i :: 0 <= i < |timeRecords| && OpenFor(timeRecords[i], userId)
      ensures s.clockedIn <==> s.activeRecord.Some?
      ensures s.activeRecord.Some? ==> s.activeRecord.value in timeRecords && OpenFor(s.activeRecord.value, userId)
      ensures Valid() && s.activeRecord.Some? ==>
        forall i :: 0 <= i < |timeRecords| && OpenFor(timeRecords[i], userId) ==> timeRecords[i] == s.activeRecord.value
    {
      ClockStatusIn(timeRecords, userId)
    }

    /** `getUserTimeRecords`: exactly the caller's records, each as often as in the ledger. */
    function UserTimeRecords(userId: int): (r: seq<Record>)
      reads this
      ensures forall x :: x in r <==> x in timeRecords && x.userId == userId
      ensures forall x :: multiset(r)[x] == if x.userId == userId then multiset(timeRecords)[x] else 0
    {
      RecordsOfUser(timeRecords, userId)
    }

    /** `getEmployeeTimeRecords`: one enriched entry per record assigned to the caller, in ledger order, and only those. */
    function EmployeeTimeRecords(users: seq<User>, managerId: int): (r: seq<Enriched<string>>)
      reads this
      ensures forall e :: e in r ==> e.record in timeRecords && e.record.managerId == managerId
      ensures forall x :: x in timeRecords && x.managerId == managerId ==> exists e :: e in r && e.record == x
      ensures forall e :: e in r ==> e == Enrich(e.record, users)
      ensures |r| == |RecordsOfManager(timeRecords, managerId)|
      ensures forall i :: 0 <= i < |r| ==> r[i] == Enrich(RecordsOfManager(timeRecords, managerId)[i], users)
    {
      ManagerRecordsExact(timeRecords, users, managerId);
      ManagerRecords(timeRecords, users, managerId)
    }
  }
}
