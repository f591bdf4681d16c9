/**
 * server/src/controllers/employeeController.ts: the attendance ledger whose
 * records carry a pair of notes, one written at clock-in and one at
 * clock-out, plus this controller's own `getManagers`.
 *
 * The module-level `timeRecords` array is the field of the same name; `push`
 * and slot assignment become reassignments of that field. The clock readings
 * (`getCurrentDate`, `getCurrentTime`) and the account list
 * (`req.app.locals.users`) are parameters.
 */
module EmployeeLedger {
  import opened Js
  import opened Http
  import opened Accounts
  import opened Ledger

  /** `{ startTimeNote, endTimeNote }`; the start note is whatever the clock-in body carried, possibly undefined. */
  datatype NotePair = NotePair(startTimeNote: Option<string>, endTimeNote: string)

  type Record = TimeRecord<NotePair>

  class EmployeeLedger {
    var timeRecords: seq<Record>

    /** At most one open record per user, and distinct ids. */
    ghost predicate Valid()
      reads this
    {
      LedgerInvariant(timeRecords)
    }

    /** `let timeRecords: TimeRecord[] = []`. */
    constructor ()
      ensures Valid() && timeRecords == []
    {
      timeRecords := [];
    }

    /**
     * `clockIn`: on every failure of the guard chain the ledger is unchanged;
     * on success exactly one record is appended (a fresh id, pending, open,
     * the user's manager, notes `{startTimeNote: notes, endTimeNote: ''}`) and
     * the user is then clocked in with that record.
     */
    method ClockIn(userId: int, notes: Option<string>, users: seq<User>, date: string, time: string)
      returns (r: Reply<Record>)
      requires Valid()
      modifies this
      ensures Valid()
      ensures ClockInCheck(old(timeRecords), users, userId).Deny? ==>
        r == Failure(ClockInCheck(old(timeRecords), users, userId).status,
                     ClockInCheck(old(timeRecords), users, userId).message) &&
        timeRecords == old(timeRecords)
      ensures ClockInCheck(old(timeRecords), users, userId).Pass? ==>
        var rec := Opened(old(timeRecords), userId, ClockInCheck(old(timeRecords), users, userId).value,
                          date, time, NotePair(notes, ""));
        timeRecords == old(timeRecords) + [rec] && r == Success(201, rec)
      ensures r.Success? ==> CheckClockStatus(userId) == ClockStatus(true, Some(r.body))
    {
      match ClockInCheck(timeRecords, users, userId)
      case Deny(status, message) =>
        r := Failure(status, message);
      case Pass(managerId) =>
        var rec := Opened(timeRecords, userId, managerId, date, time, NotePair(notes, ""));
        AppendKeepsInvariant(timeRecords, rec);
        ClockInThenClockedIn(timeRecords, rec);
        timeRecords := timeRecords + [rec];
        r := Success(201, rec);
    }

    /**
     * `clockOut`: without an open record, 400 and no change. Otherwise only
     * the open record's slot changes: it gets the end time, keeps its start
     * note (or '' when that was falsy) and takes the given notes (or '') as
     * its end note. With a non-empty end time the user is clocked out after.
     */
    method ClockOut(userId: int, notes: Option<string>, time: string) returns (r: Reply<Record>)
      requires Valid()
      modifies this
      ensures Valid()
      ensures FindOpen(old(timeRecords), userId).None? ==>
        r == Failure(400, "User is not clocked in") && timeRecords == old(timeRecords)
      ensures FindOpen(old(timeRecords), userId).Some? ==>
        var k := FindOpen(old(timeRecords), userId).value;
        var prev := old(timeRecords)[k];
        timeRecords == old(timeRecords)[k := prev.(endTime := Some(time),
                                                    notes := NotePair(Some(Or(prev.notes.startTimeNote, "")),
                                                                      Or(notes, "")))] &&
        r == Success(200, timeRecords[k])
      ensures time != "" ==> CheckClockStatus(userId) == ClockStatus(false, None)
    {
      match FindOpen(timeRecords, userId)
      case None =>
        r := Failure(400, "User is not clocked in");
      case Some(k) =>
        var prev := timeRecords[k];
        var rec := prev.(endTime := Some(time),
                         notes := NotePair(Some(Or(prev.notes.startTimeNote, "")), Or(notes, "")));
        ReplaceKeepsInvariant(timeRecords, k, rec);
        if time != "" {
          ClockOutThenClockedOut(timeRecords, userId, rec);
        }
        timeRecords := timeRecords[k := rec];
        r := Success(200, rec);
    }

    /**
     * `approveTimeRecord`: the 404 / 403 / 400 guard chain leaves the ledger
     * unchanged; on success only the record's status becomes approved, whatever
     * it was before.
     */
    method ApproveTimeRecord(recordId: Option<int>, callerId: int) returns (r: Reply<Record>)
      requires Valid()
      modifies this
      ensures Valid()
      ensures ReviewCheck(old(timeRecords), recordId, callerId, "approve").Deny? ==>
        r == Failure(ReviewCheck(old(timeRecords), recordId, callerId, "approve").status,
                     ReviewCheck(old(timeRecords), recordId, callerId, "approve").message) &&
        timeRecords == old(timeRecords)
      ensures ReviewCheck(old(timeRecords), recordId, callerId, "approve").Pass? ==>
        var k := ReviewCheck(old(timeRecords), recordId, callerId, "approve").value;
        timeRecords == old(timeRecords)[k := old(timeRecords)[k].(status := Approved)] &&
        r == Success(200, timeRecords[k])
    {
      match ReviewCheck(timeRecords, recordId, callerId, "approve")
      case Deny(status, message) =>
        r := Failure(status, message);
      case Pass(k) =>
        var rec := timeRecords[k].(status := Approved);
        ReplaceKeepsInvariant(timeRecords, k, rec);
        timeRecords := timeRecords[k := rec];
        r := Success(200, rec);
    }

    /**
     * `rejectTimeRecord`: the same guard chain with "reject"; on success the
     * status becomes rejected and both notes become strings (a falsy start
     * note becomes ''), whatever the status was before. The request body is
     * not read.
     */
    method RejectTimeRecord(recordId: Option<int>, callerId: int) returns (r: Reply<Record>)
      requires Valid()
      modifies this
      ensures Valid()
      ensures ReviewCheck(old(timeRecords), recordId, callerId, "reject").Deny? ==>
        r == Failure(ReviewCheck(old(timeRecords), recordId, callerId, "reject").status,
                     ReviewCheck(old(timeRecords), recordId, callerId, "reject").message) &&
        timeRecords == old(timeRecords)
      ensures ReviewCheck(old(timeRecords), recordId, callerId, "reject").Pass? ==>
        var k := ReviewCheck(old(timeRecords), recordId, callerId, "reject").value;
        var prev := old(timeRecords)[k];
        timeRecords == old(timeRecords)[k := prev.(status := Rejected,
                                                    notes := NotePair(Some(Or(prev.notes.startTimeNote, "")),
                                                                      prev.notes.endTimeNote))] &&
        r == Success(200, timeRecords[k])
    {
      match ReviewCheck(timeRecords, recordId, callerId, "reject")
      case Deny(status, message) =>
        r := Failure(status, message);
      case Pass(k) =>
        var prev := timeRecords[k];
        var rec := prev.(status := Rejected,
                         notes := NotePair(Some(Or(prev.notes.startTimeNote, "")), prev.notes.endTimeNote));
        ReplaceKeepsInvariant(timeRecords, k, rec);
        timeRecords := timeRecords[k := rec];
        r := Success(200, rec);
    }

    /**
     * `checkClockStatus`: clocked in exactly when the user has an open record;
     * that record is returned, and in a valid ledger it is the user's only
     * open record.
     */
    function CheckClockStatus(userId: int): (s: ClockStatus<NotePair>)
      reads this
      ensures s.clockedIn <==> exists i :: 0 <= i < |timeRecords| && OpenFor(timeRecords[i], userId)
      ensures s.clockedIn <==> s.activeRecord.Some?
      ensures s.activeRecord.Some? ==> s.activeRecord.value in timeRecords && OpenFor(s.activeRecord.value, userId)
      ensures Valid() && s.activeRecord.Some? ==>
        forall i :: 0 <= i < |timeRecords| && OpenFor(timeRecords[i], userId) ==> timeRecords[i] == s.activeRecord.value
    {
      ClockStatusIn(timeRecords, userId)
    }

    /** `getUserTimeRecords`: exactly the caller's records, each as often as in the ledger. */
    function UserTimeRecords(userId: int): (r: seq<Record>)
      reads this
      ensures forall x :: x in r <==> x in timeRecords && x.userId == userId
      ensures forall x :: multiset(r)[x] == if x.userId == userId then multiset(timeRecords)[x] else 0
    {
      RecordsOfUser(timeRecords, userId)
    }

    /** `getEmployeeTimeRecords`: one enriched entry per record assigned to the caller, in ledger order, and only those. */
    function EmployeeTimeRecords(users: seq<User>, managerId: int): (r: seq<Enriched<NotePair>>)
      reads this
      ensures forall e :: e in r ==> e.record in timeRecords && e.record.managerId == managerId
      ensures forall x :: x in timeRecords && x.managerId == managerId ==> exists e :: e in r && e.record == x
      ensures forall e :: e in r ==> e == Enrich(e.record, users)
      ensures |r| == |RecordsOfManager(timeRecords, managerId)|
      ensures forall i :: 0 <= i < |r| ==> r[i] == Enrich(RecordsOfManager(timeRecords, managerId)[i], users)
    {
      ManagerRecordsExact(timeRecords, users, managerId);
      ManagerRecords(timeRecords, users, managerId)
    }
  }

  /** A manager entry as this controller builds it: `${firstName} ${lastName}`, with no trimming and no fallback. */
  function RawManagerEntry(u: User): (e: ManagerEntry)
    ensures e.id == u.id && e.email == u.email
    ensures ' ' in e.name
    ensures u.firstName.Some? && u.lastName.Some? ==> e.name == u.firstName.value + " " + u.lastName.value
    ensures u.firstName.None? ==> e.name == "undefined " + Interpolate(u.lastName)
    ensures u.lastName.None? ==> e.name == Interpolate(u.firstName) + " undefined"
  {
    var name := Interpolate(u.firstName) + " " + Interpolate(u.lastName);
    assert name[|Interpolate(u.firstName)|] == ' ';
    ManagerEntry(u.id, name, u.email)
  }

  /** `getManagers` of this controller: the accounts flagged `isManager`, in order. */
  function GetManagers(users: seq<User>): (r: seq<ManagerEntry>)
    ensures |r| <= |users|
    ensures r == [] <==> forall j :: 0 <= j < |users| ==> !users[j].isManager
  {
    var ms := Filter(users, IsManagerAccount);
    NoManagersIffEmpty(users);
    seq(|ms|, i requires 0 <= i < |ms| => RawManagerEntry(ms[i]))
  }

  /**
   * This controller's `getManagers` and the one in authController.ts list
   * the same accounts in the same order. When both name parts are present,
   * authController's name is this one trimmed, or the email when that trims
   * to nothing; the names agree outright when both parts are non-empty and
   * have no white space at their ends. A missing part reads "undefined" here.
   */
  lemma {:induction false} ManagerListsAgree(users: seq<User>)
    ensures |GetManagers(users)| == |Accounts.GetManagers(users)|
    ensures forall i :: 0 <= i < |GetManagers(users)| ==>
      GetManagers(users)[i].id == Accounts.GetManagers(users)[i].id &&
      GetManagers(users)[i].email == Accounts.GetManagers(users)[i].email
    ensures forall i :: 0 <= i < |GetManagers(users)| && NeatName(Filter(users, IsManagerAccount)[i]) ==>
      GetManagers(users)[i].name == Accounts.GetManagers(users)[i].name
    ensures forall i :: 0 <= i < |GetManagers(users)| && BothNameParts(Filter(users, IsManagerAccount)[i]) ==>
      Accounts.GetManagers(users)[i].name ==
        if Trim(GetManagers(users)[i].name) != "" then Trim(GetManagers(users)[i].name) else GetManagers(users)[i].email
  {
    var ms := Filter(users, IsManagerAccount);
    forall i | 0 <= i < |ms|
      ensures GetManagers(users)[i] == RawManagerEntry(ms[i])
      ensures Accounts.GetManagers(users)[i] == ManagerEntryOf(ms[i])
    {
    }
    forall i | 0 <= i < |ms| && NeatName(ms[i])
      ensures GetManagers(users)[i].name == Accounts.GetManagers(users)[i].name
    {
      NeatNameAgrees(ms[i]);
    }
    forall i | 0 <= i < |ms| && BothNameParts(ms[i])
      ensures Accounts.GetManagers(users)[i].name ==
        if Trim(GetManagers(users)[i].name) != "" then Trim(GetManagers(users)[i].name) else GetManagers(users)[i].email
    {
      RawNameTrimmed(ms[i]);
    }
  }

  /** Both name parts present, possibly empty or padded. */
  predicate BothNameParts(u: User) {
    u.firstName.Some? && u.lastName.Some?
  }

  /**
   * With both name parts present, authController's name is this controller's
   * name trimmed, or the email when the trimmed name is empty.
   */
  lemma RawNameTrimmed(u: User)
    requires BothNameParts(u)
    ensures var raw := RawManagerEntry(u).name;
      ManagerEntryOf(u).name == if Trim(raw) != "" then Trim(raw) else u.email
  {
    assert Or(u.firstName, "") == u.firstName.value;
    assert Or(u.lastName, "") == u.lastName.value;
  }

  /** For a neatly named account the two controllers build the same name. */
  lemma NeatNameAgrees(u: User)
    requires NeatName(u)
    ensures RawManagerEntry(u).name == ManagerEntryOf(u).name
  {
    var full := u.firstName.value + " " + u.lastName.value;
    assert Or(u.firstName, "") + " " + Or(u.lastName, "") == full;
    assert full[0] == u.firstName.value[0];
    assert full[|full| - 1] == u.lastName.value[|u.lastName.value| - 1];
    TrimUnchanged(full);
  }

  /** Both name parts present, non-empty and without white space at their ends. */
  predicate NeatName(u: User) {
    Truthy(u.firstName) && Truthy(u.lastName) &&
    !IsSpace(u.firstName.value[0]) && !IsSpace(u.lastName.value[|u.lastName.value| - 1])
  }
}
