/** The relational store the four services share: one table per entity. `Db` is
    its value, on which the services' effects are specified; `Database` is the
    store as a mutable object, whose tables the service methods reassign. */
module Store {
  import opened Common
  import opened Model
  import opened Tables

  /** The outcome of a service call: the store afterwards and what the call returned. */
  datatype Step<T> = Step(db: Db, result: Result<T>)

  datatype Db = Db(
    trainees: Table<Trainee>,
    batches: Table<Batch>,
    trainers: Table<Trainer>,
    attendance: Table<Attendance>)
  {
    /** The store's invariant: every table's identity counter is ahead of its keys,
        every row carries its own key as its id, and no row has a null in a
        required column. */
    predicate Valid() {
      && trainees.Valid() && batches.Valid() && trainers.Valid() && attendance.Valid()
      && (forall k :: k in trainees.rows ==> trainees.rows[k].id == Some(k))
      && (forall k :: k in batches.rows ==>
            batches.rows[k].id == Some(k) && batches.rows[k].HasRequiredFields())
      && (forall k :: k in trainers.rows ==>
            trainers.rows[k].id == Some(k) && trainers.rows[k].HasRequiredFields())
      && (forall k :: k in attendance.rows ==>
            attendance.rows[k].id == Some(k) && attendance.rows[k].HasRequiredFields())
    }

    /** The batch a nullable reference names: `if (id != null) findById(id)`. */
    function BatchOf(id: Option<int>): (r: Option<Batch>)
      ensures r.Some? <==> id.Some? && id.value in batches.rows
      ensures r.Some? ==> r.value == batches.rows[id.value]
    {
      if id.Some? then batches.FindById(id.value) else None
    }

    /** The trainer a nullable reference names. */
    function TrainerOf(id: Option<int>): (r: Option<Trainer>)
      ensures r.Some? <==> id.Some? && id.value in trainers.rows
      ensures r.Some? ==> r.value == trainers.rows[id.value]
    {
      if id.Some? then trainers.FindById(id.value) else None
    }

    /** The trainee a nullable reference names. */
    function TraineeOf(id: Option<int>): (r: Option<Trainee>)
      ensures r.Some? <==> id.Some? && id.value in trainees.rows
      ensures r.Some? ==> r.value == trainees.rows[id.value]
    {
      if id.Some? then trainees.FindById(id.value) else None
    }

    /** `traineeRepository.save`: writes the trainee under its own id, or under a
        fresh key when it has none, and returns it with that id; no other table
        changes. No trainee column is known to be required, so it never fails. */
    function SaveTrainee(t: Trainee): (s: Step<Trainee>)
      requires Valid()
      ensures s.db.Valid()
      ensures s.db.batches == batches && s.db.trainers == trainers && s.db.attendance == attendance
      ensures s.result.Ok? && s.result.value == t.(id := Some(trainees.KeyFor(t.id)))
      ensures s.db.trainees.rows == trainees.rows[trainees.KeyFor(t.id) := s.result.value]
    {
      var k := trainees.KeyFor(t.id);
      var saved := t.(id := Some(k));
      Step(this.(trainees := trainees.Put(k, saved)), Ok(saved))
    }

    /** `batchRepository.save`: as for trainees, but a batch without its course
        name or location is refused and nothing changes. */
    function SaveBatch(b: Batch): (s: Step<Batch>)
      requires Valid()
      ensures s.db.Valid()
      ensures s.db.trainees == trainees && s.db.trainers == trainers && s.db.attendance == attendance
      ensures !b.HasRequiredFields() ==> s == Step(this, Err(NotNullViolation))
      ensures b.HasRequiredFields() ==>
                s.result.Ok? && s.result.value == b.(id := Some(batches.KeyFor(b.id)))
                && s.db.batches.rows == batches.rows[batches.KeyFor(b.id) := s.result.value]
    {
      if !b.HasRequiredFields() then Step(this, Err(NotNullViolation))
      else
        var k := batches.KeyFor(b.id);
        var saved := b.(id := Some(k));
        Step(this.(batches := batches.Put(k, saved)), Ok(saved))
    }

    /** `trainerRepository.save`: a trainer without name or location is refused. */
    function SaveTrainer(t: Trainer): (s: Step<Trainer>)
      requires Valid()
      ensures s.db.Valid()
      ensures s.db.trainees == trainees && s.db.batches == batches && s.db.attendance == attendance
      ensures !t.HasRequiredFields() ==> s == Step(this, Err(NotNullViolation))
      ensures t.HasRequiredFields() ==>
                s.result.Ok? && s.result.value == t.(id := Some(trainers.KeyFor(t.id)))
                && s.db.trainers.rows == trainers.rows[trainers.KeyFor(t.id) := s.result.value]
    {
      if !t.HasRequiredFields() then Step(this, Err(NotNullViolation))
      else
        var k := trainers.KeyFor(t.id);
        var saved := t.(id := Some(k));
        Step(this.(trainers := trainers.Put(k, saved)), Ok(saved))
    }

    /** `attendanceRepository.save`: a row without trainee id, batch id, date or
        status is refused. */
    function SaveAttendance(a: Attendance): (s: Step<Attendance>)
      requires Valid()
      ensures s.db.Valid()
      ensures s.db.trainees == trainees && s.db.batches == batches && s.db.trainers == trainers
      ensures !a.HasRequiredFields() ==> s == Step(this, Err(NotNullViolation))
      ensures a.HasRequiredFields() ==>
                s.result.Ok? && s.result.value == a.(id := Some(attendance.KeyFor(a.id)))
                && s.db.attendance.rows == attendance.rows[attendance.KeyFor(a.id) := s.result.value]
    {
      if !a.HasRequiredFields() then Step(this, Err(NotNullViolation))
      else
        var k := attendance.KeyFor(a.id);
        var saved := a.(id := Some(k));
        Step(this.(attendance := attendance.Put(k, saved)), Ok(saved))
    }
  }

  /** The store with four empty tables. */
  function EmptyDb(): (db: Db)
    ensures db.Valid()
  {
    Db(EmptyTable(), EmptyTable(), EmptyTable(), EmptyTable())
  }

  /** The store as the services see it: four repositories whose tables change in place. */
  class Database {
    var trainees: Table<Trainee>
    var batches: Table<Batch>
    var trainers: Table<Trainer>
    var attendance: Table<Attendance>

    /** The store's current value. */
    function State(): Db
      reads this
    {
      Db(trainees, batches, trainers, attendance)
    }

    predicate Valid()
      reads this
    {
      State().Valid()
    }

    constructor ()
      ensures Valid() && State() == EmptyDb()
    {
      trainees, batches, trainers, attendance := EmptyTable(), EmptyTable(), EmptyTable(), EmptyTable();
    }

    method SaveTrainee(t: Trainee) returns (r: Result<Trainee>)
      requires Valid()
      modifies this
      ensures Valid()
      ensures Step(State(), r) == old(State()).SaveTrainee(t)
    {
      var k := trainees.KeyFor(t.id);
      var saved := t.(id := Some(k));
      trainees := trainees.Put(k, saved);
      r := Ok(saved);
    }

    method SaveBatch(b: Batch) returns (r: Result<Batch>)
      requires Valid()
      modifies this
      ensures Valid()
      ensures Step(State(), r) == old(State()).SaveBatch(b)
    {
      if !b.HasRequiredFields() {
        return Err(NotNullViolation);
      }
      var k := batches.KeyFor(b.id);
      var saved := b.(id := Some(k));
      batches := batches.Put(k, saved);
      r := Ok(saved);
    }

    method SaveTrainer(t: Trainer) returns (r: Result<Trainer>)
      requires Valid()
      modifies this
      ensures Valid()
      ensures Step(State(), r) == old(State()).SaveTrainer(t)
    {
      if !t.HasRequiredFields() {
        return Err(NotNullViolation);
      }
      var k := trainers.KeyFor(t.id);
      var saved := t.(id := Some(k));
      trainers := trainers.Put(k, saved);
      r := Ok(saved);
    }

    method SaveAttendance(a: Attendance) returns (r: Result<Attendance>)
      requires Valid()
      modifies this
      ensures Valid()
      ensures Step(State(), r) == old(State()).SaveAttendance(a)
    {
      if !a.HasRequiredFields() {
        return Err(NotNullViolation);
      }
      var k := attendance.KeyFor(a.id);
      var saved := a.(id := Some(k));
      attendance := attendance.Put(k, saved);
      r := Ok(saved);
    }
  }
}
