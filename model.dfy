/** The four persisted record shapes of the service layer, with the defaults the
    Java field initialisers give a freshly constructed record and the columns the
    schema declares `nullable = false`. Every field is nullable on the Java side,
    so every field is an `Option` here; the store, not the type, refuses nulls in
    required columns. */
module Model {
  import opened Common

  /** A calendar date (`LocalDate`); the core only ever compares dates for equality. */
  datatype Date = Date(epochDay: int)

  /** Trainee: only the fields the services read or write. */
  datatype Trainee = Trainee(
    id: Option<int>,
    name: Option<string>,
    batchId: Option<int>,
    batchName: Option<string>,   // copy of the batch's course name at the last enrol/update
    location: Option<string>)    // copy of the batch's location at the last enrol/update

  datatype Batch = Batch(
    id: Option<int>,
    courseName: Option<string>,  // required
    location: Option<string>,    // required
    startDate: Option<Date>,
    endDate: Option<Date>,
    trainerId: Option<int>,
    trainerName: Option<string>, // copy of the trainer's name at the last create/update
    maxCapacity: Option<Int32>,
    enrolledCount: Option<Int32>,
    status: Option<string>)      // free text, not an enumeration
  {
    /** The `nullable = false` columns are set: a null course name or location is
        refused, and no other column is required. */
    predicate HasRequiredFields(): (r: bool)
      ensures courseName.None? || location.None? ==> !r
      ensures courseName.Some? && location.Some? ==> r
    {
      courseName.Some? && location.Some?
    }
  }

  /** `new Batch()`: capacity 30, nobody enrolled, status "Active", every other
      field null, so it cannot be stored before its required columns are set. */
  function NewBatch(): (b: Batch)
    ensures b.maxCapacity == Some(30) && b.enrolledCount == Some(0) && b.status == Some("Active")
    ensures b.id.None? && b.courseName.None? && b.location.None? && b.startDate.None? && b.endDate.None?
    ensures b.trainerId.None? && b.trainerName.None?
    ensures !b.HasRequiredFields()
  {
    Batch(None, None, None, None, None, None, None, Some(30), Some(0), Some("Active"))
  }

  datatype Trainer = Trainer(
    id: Option<int>,
    name: Option<string>,        // required
    location: Option<string>,    // required
    availableDate: Option<Date>,
    timeSlot: Option<string>,
    isAssigned: Option<bool>,    // the Java field `assigned`
    batchId: Option<int>)        // optional, and not tied to `assigned`
  {
    /** The `nullable = false` columns are set: a null name or location is
        refused, and no other column is required. */
    predicate HasRequiredFields(): (r: bool)
      ensures name.None? || location.None? ==> !r
      ensures name.Some? && location.Some? ==> r
    {
      name.Some? && location.Some?
    }
  }

  /** `new Trainer()`: `assigned` is false and every other field null, so it
      cannot be stored before its required columns are set. */
  function NewTrainer(): (t: Trainer)
    ensures t.isAssigned == Some(false)
    ensures t.id.None? && t.name.None? && t.location.None? && t.availableDate.None? && t.timeSlot.None? && t.batchId.None?
    ensures !t.HasRequiredFields()
  {
    Trainer(None, None, None, None, None, Some(false), None)
  }

  /** The closed set of attendance states. */
  datatype AttendanceStatus = PRESENT | ABSENT | LATE

  datatype Attendance = Attendance(
    id: Option<int>,
    traineeId: Option<int>,      // required
    traineeName: Option<string>, // copy of the trainee's name at marking time
    batchId: Option<int>,        // required
    batchName: Option<string>,   // copy of the batch's course name at marking time
    date: Option<Date>,          // required
    status: Option<AttendanceStatus>) // required
  {
    /** The `nullable = false` columns are set: a null trainee, batch, date or
        status is refused, and neither copied name is required. */
    predicate HasRequiredFields(): (r: bool)
      ensures traineeId.None? || batchId.None? || date.None? || status.None? ==> !r
      ensures traineeId.Some? && batchId.Some? && date.Some? && status.Some? ==> r
    {
      traineeId.Some? && batchId.Some? && date.Some? && status.Some?
    }
  }

  /** The text an `EnumType.STRING` column holds for a status: the constant's name. */
  function StatusName(s: AttendanceStatus): string {
    match s
    case PRESENT => "PRESENT"
    case ABSENT => "ABSENT"
    case LATE => "LATE"
  }

  /** Reading the column back (`Enum.valueOf`): only the three exact names are accepted. */
  function StatusFromName(n: string): (r: Option<AttendanceStatus>)
    ensures r.Some? <==> n == "PRESENT" || n == "ABSENT" || n == "LATE"
    ensures r.Some? ==> StatusName(r.value) == n
  {
    if n == "PRESENT" then Some(PRESENT)
    else if n == "ABSENT" then Some(ABSENT)
    else if n == "LATE" then Some(LATE)
    else None
  }

  /** Storing a status and reading it back gives the same status. */
  lemma StatusRoundTrip(s: AttendanceStatus)
    ensures StatusFromName(StatusName(s)) == Some(s)
  {
  }
}
