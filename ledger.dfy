/**
 * What the two attendance controllers (server/src/controllers/employeeController.ts
 * and server/src/controllers/timeRecordController.ts) have in common: the record
 * shape, the "open record" notion, the guard chains of clock-in and of
 * approve/reject, the queries over `timeRecords`, and the invariant that at
 * most one record per user is open and that ids are distinct. The two
 * controllers differ only in the type of `notes`, the parameter N here.
 */
module Ledger {
  import opened Js
  import opened Accounts

  datatype Status = Pending | Approved | Rejected

  /** One entry of `timeRecords`; `createdAt` and `updatedAt` are not modelled. */
  datatype TimeRecord<N> = TimeRecord(
    id: int,
    userId: int,
    date: string,
    startTime: string,
    endTime: Option<string>,
    status: Status,
    managerId: int,
    notes: N)

  /** The outcome of a guard chain: go on with a value, or answer with an error status. */
  datatype Check<+T> = Pass(value: T) | Deny(status: int, message: string)

  /** `!record.endTime`: a record whose end time is unset (or empty) is open. */
  predicate IsOpen<N>(r: TimeRecord<N>) {
    !Truthy(r.endTime)
  }

  predicate OpenFor<N>(r: TimeRecord<N>, userId: int) {
    r.userId == userId && IsOpen(r)
  }

  /** The ids of the records, as Accounts.Ids gives those of the accounts (a different element type). */
  function RecordIds<N>(rs: seq<TimeRecord<N>>): (ids: seq<int>)
    ensures |ids| == |rs| && forall i :: 0 <= i < |rs| ==> ids[i] == rs[i].id
  {
    seq(|rs|, i requires 0 <= i < |rs| => rs[i].id)
  }

  /** `timeRecords.findIndex(r => r.userId === userId && !r.endTime)`. */
  function FindOpen<N>(rs: seq<TimeRecord<N>>, userId: int): (k: Option<nat>)
    ensures k.Some? ==> k.value < |rs| && OpenFor(rs[k.value], userId)
    ensures k.Some? ==> forall j :: 0 <= j < k.value ==> !OpenFor(rs[j], userId)
    ensures k.None? <==> forall i :: 0 <= i < |rs| ==> !OpenFor(rs[i], userId)
  {
    FindIndex(rs, (r: TimeRecord<N>) => OpenFor(r, userId))
  }

  /** `timeRecords.findIndex(r => r.id === recordId)`; an unparsable id (NaN) is None and matches nothing. */
  function FindById<N>(rs: seq<TimeRecord<N>>, recordId: Option<int>): (k: Option<nat>)
    ensures k.Some? ==> recordId.Some? && k.value < |rs| && rs[k.value].id == recordId.value
    ensures k.Some? ==> forall j :: 0 <= j < k.value ==> rs[j].id != recordId.value
    ensures k.None? <==> recordId.None? || forall i :: 0 <= i < |rs| ==> rs[i].id != recordId.value
  {
    match recordId
    case None => None
    case Some(id) => FindIndex(rs, (r: TimeRecord<N>) => r.id == id)
  }

  ghost predicate SingleOpen<N>(rs: seq<TimeRecord<N>>) {
    forall i, j :: 0 <= i < j < |rs| && IsOpen(rs[i]) && IsOpen(rs[j]) ==> rs[i].userId != rs[j].userId
  }

  ghost predicate DistinctIds<N>(rs: seq<TimeRecord<N>>) {
    forall i, j :: 0 <= i < j < |rs| ==> rs[i].id != rs[j].id
  }

  /** What every ledger operation preserves: one open record per user at most, and distinct ids. */
  ghost predicate LedgerInvariant<N>(rs: seq<TimeRecord<N>>) {
    SingleOpen(rs) && DistinctIds(rs)
  }

  /**
   * The clock-in guard chain: unknown user (404), then a user without a
   * manager (400), then a user who already has an open record (400). On
   * success it yields the manager id the new record is assigned to.
   */
  function ClockInCheck<N>(rs: seq<TimeRecord<N>>, users: seq<User>, userId: int): (g: Check<int>)
    ensures g == Deny(404, "User not found") <==> forall j :: 0 <= j < |users| ==> users[j].id != userId
    ensures g.Pass? ==> FindOpen(rs, userId).None? && g.value != 0
    ensures g.Pass? ==> exists j :: 0 <= j < |users| && users[j].id == userId && users[j].managerId == Some(g.value)
    ensures (IndexOfId(users, userId).Some? && !TruthyId(users[IndexOfId(users, userId).value].managerId)) ==>
            g == Deny(400, "User does not have a manager assigned")
    ensures (IndexOfId(users, userId).Some? && TruthyId(users[IndexOfId(users, userId).value].managerId) &&
             FindOpen(rs, userId).Some?) ==>
            g == Deny(400, "User is already clocked in")
    ensures (IndexOfId(users, userId).Some? && TruthyId(users[IndexOfId(users, userId).value].managerId) &&
             FindOpen(rs, userId).None?) ==>
            g == Pass(users[IndexOfId(users, userId).value].managerId.value)
  {
    match IndexOfId(users, userId)
    case None => Deny(404, "User not found")
    case Some(k) =>
      if !TruthyId(users[k].managerId) then Deny(400, "User does not have a manager assigned")
      else if FindOpen(rs, userId).Some? then Deny(400, "User is already clocked in")
      else Pass(users[k].managerId.value)
  }

  /** The record clock-in appends: a fresh id, open, pending, assigned to the user's manager. */
  function Opened<N>(rs: seq<TimeRecord<N>>, userId: int, managerId: int, date: string, time: string, notes: N)
    : (r: TimeRecord<N>)
    ensures r.id == NextId(RecordIds(rs))
    ensures forall i :: 0 <= i < |rs| ==> rs[i].id < r.id
    ensures |rs| == 0 ==> r.id == 1
    ensures r.userId == userId && r.managerId == managerId && r.notes == notes
    ensures r.date == date && r.startTime == time
    ensures r.endTime == None && r.status == Pending && OpenFor(r, userId)
  {
    TimeRecord(NextId(RecordIds(rs)), userId, date, time, None, Pending, managerId, notes)
  }

  /**
   * The approve/reject guard chain (`verb` is "approve" or "reject"): unknown
   * id (404), then a caller who is not the record's manager (403), then an
   * open record (400). The record's status plays no part.
   */
  function ReviewCheck<N>(rs: seq<TimeRecord<N>>, recordId: Option<int>, callerId: int, verb: string): (g: Check<nat>)
    ensures FindById(rs, recordId).None? <==> g == Deny(404, "Time record not found")
    ensures (FindById(rs, recordId).Some? && rs[FindById(rs, recordId).value].managerId != callerId) <==>
            g == Deny(403, "Not authorized to " + verb + " this record")
    ensures (FindById(rs, recordId).Some? && rs[FindById(rs, recordId).value].managerId == callerId &&
             IsOpen(rs[FindById(rs, recordId).value])) <==>
            g == Deny(400, "Cannot " + verb + " an active time record")
    ensures g.Pass? ==> FindById(rs, recordId) == Some(g.value) && g.value < |rs|
    ensures g.Pass? ==> rs[g.value].managerId == callerId && !IsOpen(rs[g.value])
    ensures (FindById(rs, recordId).Some? && rs[FindById(rs, recordId).value].managerId == callerId &&
             !IsOpen(rs[FindById(rs, recordId).value])) ==>
            g == Pass(FindById(rs, recordId).value)
  {
    match FindById(rs, recordId)
    case None => Deny(404, "Time record not found")
    case Some(k) =>
      if rs[k].managerId != callerId then Deny(403, "Not authorized to " + verb + " this record")
      else if IsOpen(rs[k]) then Deny(400, "Cannot " + verb + " an active time record")
      else Pass(k)
  }

  /** Appending a record built by Opened after a passed clock-in check keeps the invariant. */
  lemma AppendKeepsInvariant<N>(rs: seq<TimeRecord<N>>, rec: TimeRecord<N>)
    requires LedgerInvariant(rs)
    requires FindOpen(rs, rec.userId).None?
    requires forall i :: 0 <= i < |rs| ==> rs[i].id < rec.id
    ensures LedgerInvariant(rs + [rec])
  {
    var s := rs + [rec];
    forall i, j | 0 <= i < j < |s| && IsOpen(s[i]) && IsOpen(s[j])
      ensures s[i].userId != s[j].userId
    {
      if j == |rs| {
        assert !OpenFor(rs[i], rec.userId);
      }
    }
  }

  /** Overwriting one slot with a record of the same id and user that is not "more open" keeps the invariant. */
  lemma ReplaceKeepsInvariant<N>(rs: seq<TimeRecord<N>>, k: nat, rec: TimeRecord<N>)
    requires LedgerInvariant(rs)
    requires k < |rs| && rec.id == rs[k].id && rec.userId == rs[k].userId
    requires IsOpen(rec) ==> IsOpen(rs[k])
    ensures LedgerInvariant(rs[k := rec])
  {
  }

  /** The approve/reject guard ignores the status: an approved or rejected record can be reviewed again. */
  lemma ReviewIgnoresStatus<N>(rs: seq<TimeRecord<N>>, k: nat, s: Status, recordId: Option<int>,
                               callerId: int, verb: string)
    requires k < |rs|
    ensures ReviewCheck(rs[k := rs[k].(status := s)], recordId, callerId, verb) == ReviewCheck(rs, recordId, callerId, verb)
  {
    var rs' := rs[k := rs[k].(status := s)];
    assert forall i :: 0 <= i < |rs| ==> rs'[i].id == rs[i].id && rs'[i].managerId == rs[i].managerId &&
                                          rs'[i].endTime == rs[i].endTime;
    assert FindById(rs', recordId) == FindById(rs, recordId);
  }

  /** `checkClockStatus`'s body: `{ clockedIn: !!activeRecord, activeRecord: activeRecord || null }`. */
  datatype ClockStatus<N> = ClockStatus(clockedIn: bool, activeRecord: Option<TimeRecord<N>>)

  /** `checkClockStatus`: clocked in exactly when the user has an open record; the first such record is returned. */
  function ClockStatusIn<N>(rs: seq<TimeRecord<N>>, userId: int): (s: ClockStatus<N>)
    ensures s.clockedIn <==> exists i :: 0 <= i < |rs| && OpenFor(rs[i], userId)
    ensures s.clockedIn <==> s.activeRecord.Some?
    ensures s.activeRecord.Some? ==> OpenFor(s.activeRecord.value, userId) &&
                                     exists i :: 0 <= i < |rs| && rs[i] == s.activeRecord.value
    ensures s.activeRecord.Some? ==> FindOpen(rs, userId).Some? && s.activeRecord.value == rs[FindOpen(rs, userId).value]
  {
    match FindOpen(rs, userId)
    case None => ClockStatus(false, None)
    case Some(k) => ClockStatus(true, Some(rs[k]))
  }

  /** After a clock-in appended an open record for the user, the status query reports the user clocked in. */
  lemma ClockInThenClockedIn<N>(rs: seq<TimeRecord<N>>, rec: TimeRecord<N>)
    requires OpenFor(rec, rec.userId)
    ensures ClockStatusIn(rs + [rec], rec.userId) == ClockStatus(true, Some(rec)) ||
            ClockStatusIn(rs, rec.userId).clockedIn
  {
    if !ClockStatusIn(rs, rec.userId).clockedIn {
      var s := rs + [rec];
      assert OpenFor(s[|rs|], rec.userId);
      assert forall i :: 0 <= i < |rs| ==> s[i] == rs[i];
    }
  }

  /** Closing the user's open record with a non-empty end time leaves the user clocked out, given the invariant. */
  lemma ClockOutThenClockedOut<N>(rs: seq<TimeRecord<N>>, userId: int, rec: TimeRecord<N>)
    requires LedgerInvariant(rs)
    requires FindOpen(rs, userId).Some?
    requires rec.userId == userId && Truthy(rec.endTime)
    ensures ClockStatusIn(rs[FindOpen(rs, userId).value := rec], userId) == ClockStatus(false, None)
  {
    var k := FindOpen(rs, userId).value;
    var s := rs[k := rec];
    forall i | 0 <= i < |s| ensures !OpenFor(s[i], userId) {
      if i != k {
        assert s[i] == rs[i];
      }
    }
  }

  /** `getUserTimeRecords`: the user's own records, each as often as in the ledger, in ledger order. */
  function RecordsOfUser<N(==,!new)>(rs: seq<TimeRecord<N>>, userId: int): (r: seq<TimeRecord<N>>)
    ensures forall x :: x in r <==> x in rs && x.userId == userId
    ensures forall x :: multiset(r)[x] == if x.userId == userId then multiset(rs)[x] else 0
  {
    Filter(rs, (x: TimeRecord<N>) => x.userId == userId)
  }

  /** The records assigned to a manager, each as often as in the ledger, in ledger order. */
  function RecordsOfManager<N(==,!new)>(rs: seq<TimeRecord<N>>, managerId: int): (r: seq<TimeRecord<N>>)
    ensures forall x :: x in r <==> x in rs && x.managerId == managerId
    ensures forall x :: multiset(r)[x] == if x.managerId == managerId then multiset(rs)[x] else 0
  {
    Filter(rs, (x: TimeRecord<N>) => x.managerId == managerId)
  }

  /** A record of `getEmployeeTimeRecords`, with the employee's name and email joined in. */
  datatype Enriched<N> = Enriched(record: TimeRecord<N>, employeeName: string, employeeEmail: string)

  /** The join: the first account with the record's user id names the record, else both fields are 'Unknown'. */
  function Enrich<N>(rec: TimeRecord<N>, users: seq<User>): (e: Enriched<N>)
    ensures e.record == rec
    ensures (forall j :: 0 <= j < |users| ==> users[j].id != rec.userId) ==>
            e.employeeName == "Unknown" && e.employeeEmail == "Unknown"
    ensures IndexOfId(users, rec.userId).Some? ==>
            var j := IndexOfId(users, rec.userId).value;
            e.employeeEmail == users[j].email &&
            e.employeeName == Interpolate(users[j].firstName) + " " + Interpolate(users[j].lastName)
  {
    match IndexOfId(users, rec.userId)
    case None => Enriched(rec, "Unknown", "Unknown")
    case Some(k) =>
      Enriched(rec, Interpolate(users[k].firstName) + " " + Interpolate(users[k].lastName), users[k].email)
  }

  /** `records.map(enrich)`. */
  function EnrichAll<N>(records: seq<TimeRecord<N>>, users: seq<User>): (r: seq<Enriched<N>>)
    ensures |r| == |records| && forall i :: 0 <= i < |records| ==> r[i] == Enrich(records[i], users)
  {
    seq(|records|, i requires 0 <= i < |records| => Enrich(records[i], users))
  }

  /** `getEmployeeTimeRecords`: the manager's records in ledger order, each enriched. */
  function ManagerRecords<N(==,!new)>(rs: seq<TimeRecord<N>>, users: seq<User>, managerId: int): (r: seq<Enriched<N>>)
    ensures |r| <= |rs|
    ensures forall i :: 0 <= i < |r| ==> r[i].record.managerId == managerId
  {
    var mine := RecordsOfManager(rs, managerId);
    assert forall i :: 0 <= i < |mine| ==> mine[i] in mine;
    EnrichAll(mine, users)
  }

  /**
   * `getEmployeeTimeRecords` returns the records assigned to the manager, in
   * ledger order and each once per occurrence, every one enriched.
   */
  lemma ManagerRecordsExact<N(!new)>(rs: seq<TimeRecord<N>>, users: seq<User>, managerId: int)
    ensures |ManagerRecords(rs, users, managerId)| == |RecordsOfManager(rs, managerId)|
    ensures forall i :: 0 <= i < |ManagerRecords(rs, users, managerId)| ==>
      ManagerRecords(rs, users, managerId)[i] == Enrich(RecordsOfManager(rs, managerId)[i], users)
    ensures forall e :: e in ManagerRecords(rs, users, managerId) ==> e.record in rs && e.record.managerId == managerId
    ensures forall x :: x in rs && x.managerId == managerId ==>
      exists e :: e in ManagerRecords(rs, users, managerId) && e.record == x
  {
    var mine := RecordsOfManager(rs, managerId);
    var r := ManagerRecords(rs, users, managerId);
    forall e | e in r ensures e.record in rs && e.record.managerId == managerId {
      var i :| 0 <= i < |r| && r[i] == e;
      assert e.record == mine[i] && mine[i] in mine;
    }
    forall x | x in rs && x.managerId == managerId ensures exists e :: e in r && e.record == x {
      assert x in mine;
      var i :| 0 <= i < |mine| && mine[i] == x;
      assert r[i] in r && r[i].record == x;
    }
  }

  /** A record appended to the ledger joins the end of its manager's records and no one else's. */
  lemma RecordsOfManagerAppend<N(!new)>(rs: seq<TimeRecord<N>>, managerId: int, rec: TimeRecord<N>)
    ensures RecordsOfManager(rs + [rec], managerId) ==
      RecordsOfManager(rs, managerId) + (if rec.managerId == managerId then [rec] else [])
  {
    var p := (x: TimeRecord<N>) => x.managerId == managerId;
    FilterAppend(rs, [rec], p);
    assert Filter([rec], p) == (if rec.managerId == managerId then [rec] else []) by {
      assert [rec][1..] == [];
    }
  }

  /**
   * A record appended to the ledger shows up at the end of a manager's list
   * when it is assigned to that manager, and nowhere otherwise.
   */
  lemma {:induction false} ManagerRecordsAppend<N(!new)>(rs: seq<TimeRecord<N>>, users: seq<User>, managerId: int,
                                                        rec: TimeRecord<N>)
    ensures ManagerRecords(rs + [rec], users, managerId) ==
      ManagerRecords(rs, users, managerId) + (if rec.managerId == managerId then [Enrich(rec, users)] else [])
  {
    RecordsOfManagerAppend(rs, managerId, rec);
    if rec.managerId == managerId {
      EnrichAllSnoc(RecordsOfManager(rs, managerId), rec, users);
    } else {
      assert RecordsOfManager(rs, managerId) + [] == RecordsOfManager(rs, managerId);
    }
  }

  /** Enriching a list with one more record at its end adds that record's enrichment at the end. */
  lemma {:induction false} EnrichAllSnoc<N>(a: seq<TimeRecord<N>>, rec: TimeRecord<N>, users: seq<User>)
    ensures EnrichAll(a + [rec], users) == EnrichAll(a, users) + [Enrich(rec, users)]
  {
    EnrichAllAppend(a, [rec], users);
    assert EnrichAll([rec], users) == [Enrich(rec, users)];
  }

  /** `map` distributes over concatenation. */
  lemma {:induction false} EnrichAllAppend<N>(a: seq<TimeRecord<N>>, b: seq<TimeRecord<N>>, users: seq<User>)
    ensures EnrichAll(a + b, users) == EnrichAll(a, users) + EnrichAll(b, users)
  {
    var l := EnrichAll(a + b, users);
    var r := EnrichAll(a, users) + EnrichAll(b, users);
    forall i | 0 <= i < |l| ensures l[i] == r[i] {
      if i < |a| {
        assert (a + b)[i] == a[i];
      } else {
        assert (a + b)[i] == b[i - |a|];
      }
    }
  }

  /** A clock-in adds exactly the new record to the end of the user's own records. */
  lemma RecordsOfUserAppend<N(!new)>(rs: seq<TimeRecord<N>>, rec: TimeRecord<N>)
    ensures RecordsOfUser(rs + [rec], rec.userId) == RecordsOfUser(rs, rec.userId) + [rec]
  {
    var p := (x: TimeRecord<N>) => x.userId == rec.userId;
    FilterAppend(rs, [rec], p);
    assert Filter([rec], p) == [rec] by {
      assert [rec][1..] == [];
    }
  }
}
