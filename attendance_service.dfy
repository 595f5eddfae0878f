/** Attendance lifecycle: marking copies the trainee's name and the batch's course
    name when those rows exist, then saves the row; the update endpoint is the
    same call with the path id set. */
module AttendanceService {
  import opened Common
  import opened Model
  import opened Tables
  import opened Store

  /** The two denormalised copies marking makes. A reference that is null or names
      no row leaves the supplied name as it was. */
  function WithNames(db: Db, a: Attendance): (r: Attendance)
    ensures r.traineeName ==
              (if db.TraineeOf(a.traineeId).Some? then db.TraineeOf(a.traineeId).value.name else a.traineeName)
    ensures r.batchName ==
              (if db.BatchOf(a.batchId).Some? then db.BatchOf(a.batchId).value.courseName else a.batchName)
    ensures r.(traineeName := a.traineeName, batchName := a.batchName) == a
  {
    var a1 := match db.TraineeOf(a.traineeId)
              case Some(t) => a.(traineeName := t.name)
              case None => a;
    match db.BatchOf(a.batchId)
    case Some(b) => a1.(batchName := b.courseName)
    case None => a1
  }

  /** `markAttendance`, as a change of the store: exactly one attendance row is
      written (a fresh one, or the one the id names), and no other table changes.
      Nothing checks for an existing row with the same trainee, batch and date. */
  function Mark(db: Db, a: Attendance): (s: Step<Attendance>)
    requires db.Valid()
    ensures s.db.Valid()
    ensures s.db.trainees == db.trainees && s.db.batches == db.batches && s.db.trainers == db.trainers
    ensures s.result.Err? <==> !a.HasRequiredFields()
    ensures s.result.Err? ==> s == Step(db, Err(NotNullViolation))
    ensures s.result.Ok? ==>
              var k := db.attendance.KeyFor(a.id);
              && s.result.value == WithNames(db, a).(id := Some(k))
              && s.db.attendance.rows == db.attendance.rows[k := s.result.value]
  {
    db.SaveAttendance(WithNames(db, a))
  }

  /** `deleteAttendance`: only that row goes. */
  function Delete(db: Db, id: int): (r: Db)
    requires db.Valid()
    ensures r.Valid()
    ensures r.attendance.rows.Keys == db.attendance.rows.Keys - {id}
    ensures forall k :: k in r.attendance.rows ==> r.attendance.rows[k] == db.attendance.rows[k]
    ensures r.trainees == db.trainees && r.batches == db.batches && r.trainers == db.trainers
  {
    db.(attendance := db.attendance.DeleteById(id))
  }

  /** `getAttendanceByTrainee`: exactly the rows naming that trainee. */
  function GetAttendanceByTrainee(db: Db, traineeId: int): (r: map<int, Attendance>)
    ensures forall k :: k in r <==> k in db.attendance.rows && db.attendance.rows[k].traineeId == Some(traineeId)
    ensures forall k :: k in r ==> r[k] == db.attendance.rows[k]
  {
    db.attendance.Where((a: Attendance) => a.traineeId == Some(traineeId))
  }

  /** `getAttendanceByBatch`: exactly the rows naming that batch. */
  function GetAttendanceByBatch(db: Db, batchId: int): (r: map<int, Attendance>)
    ensures forall k :: k in r <==> k in db.attendance.rows && db.attendance.rows[k].batchId == Some(batchId)
    ensures forall k :: k in r ==> r[k] == db.attendance.rows[k]
  {
    db.attendance.Where((a: Attendance) => a.batchId == Some(batchId))
  }

  /** `getAttendanceByDate`: exactly the rows on that date; no range matching. */
  function GetAttendanceByDate(db: Db, date: Date): (r: map<int, Attendance>)
    ensures forall k :: k in r <==> k in db.attendance.rows && db.attendance.rows[k].date == Some(date)
    ensures forall k :: k in r ==> r[k] == db.attendance.rows[k]
  {
    db.attendance.Where((a: Attendance) => a.date == Some(date))
  }

  // ---------------------------------------------------------------------------
  // Properties

  /** The update endpoint (`PUT /{id}`: set the id from the path, then mark)
      overwrites the row under that id and leaves every other row as it was. */
  lemma UpdateOverwritesRow(db: Db, id: int, a: Attendance)
    requires db.Valid() && a.HasRequiredFields()
    ensures var s := Mark(db, a.(id := Some(id)));
            && s.result.Ok? && s.result.value.id == Some(id)
            && s.db.attendance.rows.Keys == db.attendance.rows.Keys + {id}
            && s.db.attendance.rows[id] == s.result.value
            && forall k :: k in db.attendance.rows && k != id ==> s.db.attendance.rows[k] == db.attendance.rows[k]
  {
  }

  /** Marking the same attendance twice without an id stores two distinct rows for
      the same trainee, batch and date. */
  lemma NoDuplicateCheck(db: Db, a: Attendance)
    requires db.Valid() && a.HasRequiredFields() && a.id.None?
    ensures var s1 := Mark(db, a);
            var s2 := Mark(s1.db, a);
            && s1.result.Ok? && s2.result.Ok?
            && s1.result.value.id != s2.result.value.id
            && s1.result.value.id.value in s2.db.attendance.rows
            && s2.result.value.id.value in s2.db.attendance.rows
            && var r1 := s2.db.attendance.rows[s1.result.value.id.value];
               var r2 := s2.db.attendance.rows[s2.result.value.id.value];
               r1.traineeId == r2.traineeId && r1.batchId == r2.batchId && r1.date == r2.date
  {
  }

  /** A marked row is found again by each of the three queries. */
  lemma MarkedRowIsListed(db: Db, a: Attendance)
    requires db.Valid() && a.HasRequiredFields()
    ensures var s := Mark(db, a);
            var k := s.result.value.id.value;
            && s.result.Ok?
            && k in GetAttendanceByTrainee(s.db, a.traineeId.value)
            && k in GetAttendanceByBatch(s.db, a.batchId.value)
            && k in GetAttendanceByDate(s.db, a.date.value)
  {
  }

  // ---------------------------------------------------------------------------
  // The service as it runs against the store object

  method MarkAttendance(store: Database, attendance: Attendance) returns (r: Result<Attendance>)
    requires store.Valid()
    modifies store
    ensures store.Valid()
    ensures Step(store.State(), r) == Mark(old(store.State()), attendance)
  {
    var a := attendance;
    if a.traineeId.Some? {
      var trainee := store.trainees.FindById(a.traineeId.value);
      if trainee.Some? {
        a := a.(traineeName := trainee.value.name);
      }
    }
    if a.batchId.Some? {
      var batch := store.batches.FindById(a.batchId.value);
      if batch.Some? {
        a := a.(batchName := batch.value.courseName);
      }
    }
    r := store.SaveAttendance(a);
  }

  method DeleteAttendance(store: Database, id: int)
    requires store.Valid()
    modifies store
    ensures store.Valid()
    ensures store.State() == Delete(old(store.State()), id)
  {
    store.attendance := store.attendance.DeleteById(id);
  }
}
