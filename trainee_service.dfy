/** Trainee lifecycle: enrolment copies the batch's display fields onto the
    trainee and bumps the batch's enrolment counter; update copies the same
    fields and leaves the counter alone. */
module TraineeService {
  import opened Common
  import opened Model
  import opened Tables
  import opened Store

  /** The denormalised copy enrol and update make from the trainee's batch. */
  function WithBatchDetails(t: Trainee, b: Batch): (r: Trainee)
    ensures r.batchName == b.courseName && r.location == b.location
    ensures r.(batchName := t.batchName, location := t.location) == t
  {
    t.(batchName := b.courseName, location := b.location)
  }

  /** `enrollTrainee`, as a change of the store. */
  function Enroll(db: Db, trainee: Trainee): (s: Step<Trainee>)
    requires db.Valid()
    ensures s.db.Valid()
    ensures s.db.trainers == db.trainers && s.db.attendance == db.attendance
    // no batch to copy from: no batch changes, and the trainee is saved as supplied
    ensures db.BatchOf(trainee.batchId).None? ==>
              var k := db.trainees.KeyFor(trainee.id);
              && s.result == Ok(trainee.(id := Some(k)))
              && s.db.trainees.rows == db.trainees.rows[k := s.result.value]
              && s.db.batches == db.batches
    // the batch exists but its counter is null: the increment throws before any write
    ensures db.BatchOf(trainee.batchId).Some? && db.BatchOf(trainee.batchId).value.enrolledCount.None? ==>
              s == Step(db, Err(NullUnboxing))
    // the batch exists: the trainee is saved carrying the batch's course name and
    // location, and that batch's counter (nothing else of it, and no other batch)
    // moves on by one
    ensures db.BatchOf(trainee.batchId).Some? && db.BatchOf(trainee.batchId).value.enrolledCount.Some? ==>
              var b := db.BatchOf(trainee.batchId).value;
              var k := db.trainees.KeyFor(trainee.id);
              && s.result == Ok(WithBatchDetails(trainee, b).(id := Some(k)))
              && s.db.trainees.rows == db.trainees.rows[k := s.result.value]
              && s.db.batches.rows ==
                   db.batches.rows[trainee.batchId.value :=
                                   b.(enrolledCount := Some(Increment(b.enrolledCount.value)))]
  {
    match db.BatchOf(trainee.batchId)
    case None => db.SaveTrainee(trainee)
    case Some(b) =>
      match b.enrolledCount
      case None => Step(db, Err(NullUnboxing))
      case Some(n) =>
        // saving a row read from the table writes it back under its own key
        var bumped := b.(enrolledCount := Some(Increment(n)));
        var db1 := db.(batches := db.batches.Put(trainee.batchId.value, bumped));
        db1.SaveTrainee(WithBatchDetails(trainee, b))
  }

  /** `updateTrainee`, as a change of the store: the same copy as enrolment, and
      the batch table is left exactly as it was. */
  function Update(db: Db, trainee: Trainee): (s: Step<Trainee>)
    requires db.Valid()
    ensures s.db.Valid()
    ensures s.db.batches == db.batches && s.db.trainers == db.trainers && s.db.attendance == db.attendance
    ensures s.result.Ok?
    ensures s.db.trainees.rows == db.trainees.rows[db.trainees.KeyFor(trainee.id) := s.result.value]
    ensures db.BatchOf(trainee.batchId).None? ==>
              s.result.value == trainee.(id := Some(db.trainees.KeyFor(trainee.id)))
    ensures db.BatchOf(trainee.batchId).Some? ==>
              s.result.value == WithBatchDetails(trainee, db.BatchOf(trainee.batchId).value)
                                  .(id := Some(db.trainees.KeyFor(trainee.id)))
  {
    match db.BatchOf(trainee.batchId)
    case None => db.SaveTrainee(trainee)
    case Some(b) => db.SaveTrainee(WithBatchDetails(trainee, b))
  }

  /** `deleteTrainee`: only that trainee row goes; batch counters are not lowered. */
  function Delete(db: Db, id: int): (r: Db)
    requires db.Valid()
    ensures r.Valid()
    ensures r.trainees.rows.Keys == db.trainees.rows.Keys - {id}
    ensures forall k :: k in r.trainees.rows ==> r.trainees.rows[k] == db.trainees.rows[k]
    ensures r.batches == db.batches && r.trainers == db.trainers && r.attendance == db.attendance
  {
    db.(trainees := db.trainees.DeleteById(id))
  }

  /** `getTraineeById`: present exactly when the id is stored. */
  function GetTraineeById(db: Db, id: int): (r: Option<Trainee>)
    ensures r.Some? <==> id in db.trainees.rows
    ensures r.Some? ==> r.value == db.trainees.rows[id]
  {
    db.trainees.FindById(id)
  }

  /** `getTraineesByBatch`: exactly the trainees whose batch reference is `batchId`. */
  function GetTraineesByBatch(db: Db, batchId: int): (r: map<int, Trainee>)
    ensures forall k :: k in r <==> k in db.trainees.rows && db.trainees.rows[k].batchId == Some(batchId)
    ensures forall k :: k in r ==> r[k] == db.trainees.rows[k]
  {
    db.trainees.Where((t: Trainee) => t.batchId == Some(batchId))
  }

  /** Enrolling a sequence of trainees one call after another. */
  function EnrollAll(db: Db, ts: seq<Trainee>): (r: Db)
    requires db.Valid()
    ensures r.Valid()
    decreases |ts|
  {
    if ts == [] then db else EnrollAll(Enroll(db, ts[0]).db, ts[1..])
  }

  /** Updating a sequence of trainees one call after another. */
  function UpdateAll(db: Db, ts: seq<Trainee>): (r: Db)
    requires db.Valid()
    ensures r.Valid()
    decreases |ts|
  {
    if ts == [] then db else UpdateAll(Update(db, ts[0]).db, ts[1..])
  }

  // ---------------------------------------------------------------------------
  // Properties

  /** An enrolment whose batch exists raises its count by exactly one (below the
      `int` limit), succeeds, and copies the batch's course name and location. */
  lemma EnrollIntoExistingBatch(db: Db, trainee: Trainee)
    requires db.Valid()
    requires trainee.batchId.Some? && trainee.batchId.value in db.batches.rows
    requires db.batches.rows[trainee.batchId.value].enrolledCount.Some?
    requires db.batches.rows[trainee.batchId.value].enrolledCount.value < INT_MAX
    ensures var s := Enroll(db, trainee);
            var bid := trainee.batchId.value;
            var b := db.batches.rows[bid];
            && s.result.Ok?
            && s.result.value.batchName == b.courseName
            && s.result.value.location == b.location
            && s.db.batches.rows[bid].enrolledCount == Some(b.enrolledCount.value + 1)
            && s.db.batches.rows[bid].(enrolledCount := b.enrolledCount) == b
            && s.result.value.id.value in s.db.trainees.rows
            && s.db.trainees.rows[s.result.value.id.value] == s.result.value
  {
  }

  /** Enrolment never looks at `maxCapacity`: a batch that is full still takes the
      trainee, and its count then exceeds its capacity. */
  lemma EnrollIgnoresCapacity(db: Db, trainee: Trainee)
    requires db.Valid()
    requires trainee.batchId.Some? && trainee.batchId.value in db.batches.rows
    requires var b := db.batches.rows[trainee.batchId.value];
             b.enrolledCount.Some? && b.maxCapacity.Some? &&
             b.maxCapacity.value <= b.enrolledCount.value < INT_MAX
    ensures var s := Enroll(db, trainee);
            var after := s.db.batches.rows[trainee.batchId.value];
            s.result.Ok? && after.enrolledCount.value > after.maxCapacity.value
  {
  }

  /** Enrolling `ts`, all into batch `bid`, raises its count by `|ts|`, changes no
      other field of it and no other batch. */
  lemma {:induction false} EnrollAllCounts(db: Db, bid: int, ts: seq<Trainee>)
    requires db.Valid() && bid in db.batches.rows
    requires db.batches.rows[bid].enrolledCount.Some?
    requires db.batches.rows[bid].enrolledCount.value + |ts| <= INT_MAX
    requires forall i :: 0 <= i < |ts| ==> ts[i].batchId == Some(bid)
    ensures var r := EnrollAll(db, ts);
            var b := db.batches.rows[bid];
            && r.batches.rows.Keys == db.batches.rows.Keys
            && r.batches.rows[bid] == b.(enrolledCount := Some(b.enrolledCount.value + |ts|))
            && forall k :: k in db.batches.rows && k != bid ==> r.batches.rows[k] == db.batches.rows[k]
    decreases |ts|
  {
    if ts != [] {
      var db1 := Enroll(db, ts[0]).db;
      EnrollIntoExistingBatch(db, ts[0]);
      EnrollAllCounts(db1, bid, ts[1..]);
    }
  }

  /** A batch created from the defaults (count 0) and then enrolled into `n` times
      has count `n`: enrolment counts up from the default. */
  lemma CountStartsFromDefault(db: Db, bid: int, ts: seq<Trainee>)
    requires db.Valid() && bid in db.batches.rows
    requires db.batches.rows[bid].enrolledCount == NewBatch().enrolledCount
    requires |ts| <= INT_MAX
    requires forall i :: 0 <= i < |ts| ==> ts[i].batchId == Some(bid)
    ensures var r := EnrollAll(db, ts);
            bid in r.batches.rows && r.batches.rows[bid].enrolledCount == Some(|ts|)
  {
    EnrollAllCounts(db, bid, ts);
  }

  /** Any number of updates leaves the batch table, and so every count, as it was. */
  lemma {:induction false} UpdatesNeverCount(db: Db, ts: seq<Trainee>)
    requires db.Valid()
    ensures UpdateAll(db, ts).batches == db.batches
    decreases |ts|
  {
    if ts != [] {
      UpdatesNeverCount(Update(db, ts[0]).db, ts[1..]);
    }
  }

  /** Updating the same trainee twice (an update carries its id) gives the store
      and the answer of updating it once. */
  lemma UpdateIdempotent(db: Db, trainee: Trainee)
    requires db.Valid() && trainee.id.Some?
    ensures var s := Update(db, trainee);
            Update(s.db, trainee) == s
  {
  }

  /** A trainee enrolled into an existing batch is listed among that batch's trainees. */
  lemma EnrolledTraineeIsListed(db: Db, trainee: Trainee)
    requires db.Valid()
    requires trainee.batchId.Some? && trainee.batchId.value in db.batches.rows
    requires db.batches.rows[trainee.batchId.value].enrolledCount.Some?
    ensures var s := Enroll(db, trainee);
            s.result.Ok? && s.result.value.id.value in GetTraineesByBatch(s.db, trainee.batchId.value)
  {
  }

  /** Withdrawing (deleting) an enrolled trainee does not give the place back: the
      batch keeps the count enrolment gave it. */
  lemma DeleteKeepsCount(db: Db, trainee: Trainee)
    requires db.Valid()
    requires trainee.batchId.Some? && trainee.batchId.value in db.batches.rows
    requires db.batches.rows[trainee.batchId.value].enrolledCount.Some?
    ensures var s := Enroll(db, trainee);
            s.result.Ok? &&
            Delete(s.db, s.result.value.id.value).batches == s.db.batches
  {
  }

  // ---------------------------------------------------------------------------
  // The service as it runs against the store object

  method EnrollTrainee(store: Database, trainee: Trainee) returns (r: Result<Trainee>)
    requires store.Valid()
    modifies store
    ensures store.Valid()
    ensures Step(store.State(), r) == Enroll(old(store.State()), trainee)
  {
    var t := trainee;
    if t.batchId.Some? {
      var found := store.batches.FindById(t.batchId.value);
      if found.Some? {
        var b := found.value;
        t := t.(batchName := b.courseName, location := b.location);
        if b.enrolledCount.None? {
          return Err(NullUnboxing);
        }
        b := b.(enrolledCount := Some(Increment(b.enrolledCount.value)));
        var savedBatch := store.SaveBatch(b);
      }
    }
    r := store.SaveTrainee(t);
  }

  method UpdateTrainee(store: Database, trainee: Trainee) returns (r: Result<Trainee>)
    requires store.Valid()
    modifies store
    ensures store.Valid()
    ensures Step(store.State(), r) == Update(old(store.State()), trainee)
  {
    var t := trainee;
    if t.batchId.Some? {
      var found := store.batches.FindById(t.batchId.value);
      if found.Some? {
        var b := found.value;
        t := t.(batchName := b.courseName, location := b.location);
      }
    }
    r := store.SaveTrainee(t);
  }

  method DeleteTrainee(store: Database, id: int)
    requires store.Valid()
    modifies store
    ensures store.Valid()
    ensures store.State() == Delete(old(store.State()), id)
  {
    store.trainees := store.trainees.DeleteById(id);
  }
}
