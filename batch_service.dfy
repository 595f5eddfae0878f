/** Batch lifecycle: creation copies the trainer's name onto the batch and marks
    the trainer assigned; update copies the name only. */
module BatchService {
  import opened Common
  import opened Model
  import opened Tables
  import opened Store
  import TrainerService

  /** `createBatch`, as a change of the store. When the trainer exists it is
      written first, with `assigned` set and `batchId` taken from the batch as
      passed in; then the batch is saved. The two writes are separate, so a batch
      the store refuses still leaves the trainer assigned. */
  function Create(db: Db, batch: Batch): (s: Step<Batch>)
    requires db.Valid()
    ensures s.db.Valid()
    ensures s.db.trainees == db.trainees && s.db.attendance == db.attendance
    ensures s.result.Err? <==> !batch.HasRequiredFields()
    ensures s.result.Err? ==> s.result.error == NotNullViolation && s.db.batches == db.batches
    // no trainer to copy from: the trainer table is untouched, the batch saved as supplied
    ensures db.TrainerOf(batch.trainerId).None? ==>
              && s.db.trainers == db.trainers
              && (s.result.Ok? ==>
                    var k := db.batches.KeyFor(batch.id);
                    && s.result.value == batch.(id := Some(k))
                    && s.db.batches.rows == db.batches.rows[k := s.result.value])
    // the trainer exists: only its `assigned` and `batchId` change, whatever
    // becomes of the batch, and the batch is saved carrying the trainer's name
    ensures db.TrainerOf(batch.trainerId).Some? ==>
              var t := db.TrainerOf(batch.trainerId).value;
              && s.db.trainers.rows ==
                   db.trainers.rows[batch.trainerId.value := t.(isAssigned := Some(true), batchId := batch.id)]
              && (s.result.Ok? ==>
                    var k := db.batches.KeyFor(batch.id);
                    && s.result.value == batch.(id := Some(k), trainerName := t.name)
                    && s.db.batches.rows == db.batches.rows[k := s.result.value])
  {
    match db.TrainerOf(batch.trainerId)
    case None => db.SaveBatch(batch)
    case Some(t) =>
      // saving a row read from the table writes it back under its own key
      var linked := t.(isAssigned := Some(true), batchId := batch.id);
      var db1 := db.(trainers := db.trainers.Put(batch.trainerId.value, linked));
      db1.SaveBatch(batch.(trainerName := t.name))
  }

  /** `updateBatch`: the trainer's name is copied again, and no trainer row
      changes, so a trainer the batch no longer names stays assigned. */
  function Update(db: Db, batch: Batch): (s: Step<Batch>)
    requires db.Valid()
    ensures s.db.Valid()
    ensures s.db.trainees == db.trainees && s.db.trainers == db.trainers && s.db.attendance == db.attendance
    ensures s.result.Err? <==> !batch.HasRequiredFields()
    ensures s.result.Err? ==> s == Step(db, Err(NotNullViolation))
    ensures s.result.Ok? ==>
              var k := db.batches.KeyFor(batch.id);
              && s.db.batches.rows == db.batches.rows[k := s.result.value]
              && s.result.value ==
                   (match db.TrainerOf(batch.trainerId)
                    case None => batch.(id := Some(k))
                    case Some(t) => batch.(id := Some(k), trainerName := t.name))
  {
    match db.TrainerOf(batch.trainerId)
    case None => db.SaveBatch(batch)
    case Some(t) => db.SaveBatch(batch.(trainerName := t.name))
  }

  /** `deleteBatch`: only that batch goes; no trainer is released, no trainee or
      attendance row that names it changes. */
  function Delete(db: Db, id: int): (r: Db)
    requires db.Valid()
    ensures r.Valid()
    ensures r.batches.rows.Keys == db.batches.rows.Keys - {id}
    ensures forall k :: k in r.batches.rows ==> r.batches.rows[k] == db.batches.rows[k]
    ensures r.trainees == db.trainees && r.trainers == db.trainers && r.attendance == db.attendance
  {
    db.(batches := db.batches.DeleteById(id))
  }

  /** `getBatchById`: present exactly when the id is stored. */
  function GetBatchById(db: Db, id: int): (r: Option<Batch>)
    ensures r.Some? <==> id in db.batches.rows
    ensures r.Some? ==> r.value == db.batches.rows[id]
  {
    db.batches.FindById(id)
  }

  /** `getBatchesByLocation`: exactly the batches at that location, compared exactly. */
  function GetBatchesByLocation(db: Db, location: string): (r: map<int, Batch>)
    ensures forall k :: k in r <==> k in db.batches.rows && db.batches.rows[k].location == Some(location)
    ensures forall k :: k in r ==> r[k] == db.batches.rows[k]
  {
    db.batches.Where((b: Batch) => b.location == Some(location))
  }

  // ---------------------------------------------------------------------------
  // Properties

  /** The trainer a new batch names is no longer listed as available. */
  lemma CreatedBatchTakesTrainer(db: Db, batch: Batch)
    requires db.Valid()
    requires batch.trainerId.Some? && batch.trainerId.value in db.trainers.rows
    ensures var s := Create(db, batch);
            && batch.trainerId.value !in TrainerService.GetAvailableTrainers(s.db)
            && s.db.trainers.rows[batch.trainerId.value].isAssigned == Some(true)
  {
  }

  /** A batch built from the defaults with only its required fields set is
      stored with capacity 30, count 0 and status "Active", and, naming no
      trainer, changes no trainer. */
  lemma DefaultBatchIsStoredWithDefaults(db: Db, courseName: string, location: string)
    requires db.Valid()
    ensures var s := Create(db, NewBatch().(courseName := Some(courseName), location := Some(location)));
            var k := s.result.value.id.value;
            && s.result.Ok? && k in s.db.batches.rows
            && s.db.batches.rows[k].maxCapacity == Some(30)
            && s.db.batches.rows[k].enrolledCount == Some(0)
            && s.db.batches.rows[k].status == Some("Active")
            && s.db.batches.rows[k].trainerName.None?
            && s.db.trainers == db.trainers
  {
  }

  /** A genuine create (the batch carries no id yet) succeeds and the batch gets a
      fresh id, but the trainer's back-reference is written as null: it was read
      from the batch before the store assigned one. */
  lemma GenuineCreateLeavesBackReferenceNull(db: Db, batch: Batch)
    requires db.Valid() && batch.HasRequiredFields() && batch.id.None?
    requires batch.trainerId.Some? && batch.trainerId.value in db.trainers.rows
    ensures var s := Create(db, batch);
            var t := s.db.trainers.rows[batch.trainerId.value];
            && s.result.Ok? && s.result.value.id.Some?
            && s.result.value.id.value !in db.batches.rows
            && t.isAssigned == Some(true)
            && t.batchId.None? && t.batchId != s.result.value.id
  {
  }

  /** A batch the store refuses (no course name or location) still costs the
      trainer its availability: the trainer was written before the failing save. */
  lemma RefusedCreateStillAssigns(db: Db, batch: Batch)
    requires db.Valid() && !batch.HasRequiredFields()
    requires batch.trainerId.Some? && batch.trainerId.value in db.trainers.rows
    ensures var s := Create(db, batch);
            && s.result == Err(NotNullViolation)
            && s.db.batches == db.batches
            && s.db.trainers.rows[batch.trainerId.value].isAssigned == Some(true)
  {
  }

  /** Creation with the back-reference written after the batch is saved, so that
      the trainer names the batch's generated id, and with no trainer write when
      the store refuses the batch. */
  function CreateLinked(db: Db, batch: Batch): (s: Step<Batch>)
    requires db.Valid()
    ensures s.db.Valid()
    ensures s.db.trainees == db.trainees && s.db.attendance == db.attendance
    ensures s.result.Err? <==> !batch.HasRequiredFields()
    ensures s.result.Err? ==> s == Step(db, Err(NotNullViolation))
    ensures db.TrainerOf(batch.trainerId).None? ==> s.db.trainers == db.trainers
    // the batch is written under its own or a fresh key, carrying the trainer's name
    ensures s.result.Ok? ==>
              var k := db.batches.KeyFor(batch.id);
              && s.result.value ==
                   (match db.TrainerOf(batch.trainerId)
                    case None => batch.(id := Some(k))
                    case Some(t) => batch.(id := Some(k), trainerName := t.name))
              && s.db.batches.rows == db.batches.rows[k := s.result.value]
    // then the trainer, and its back-reference is that key
    ensures s.result.Ok? && db.TrainerOf(batch.trainerId).Some? ==>
              var t := db.TrainerOf(batch.trainerId).value;
              var k := db.batches.KeyFor(batch.id);
              s.db.trainers.rows ==
                db.trainers.rows[batch.trainerId.value := t.(isAssigned := Some(true), batchId := Some(k))]
  {
    match db.TrainerOf(batch.trainerId)
    case None => db.SaveBatch(batch)
    case Some(t) =>
      var s := db.SaveBatch(batch.(trainerName := t.name));
      if s.result.Err? then s
      else
        var linked := t.(isAssigned := Some(true), batchId := s.result.value.id);
        Step(s.db.(trainers := s.db.trainers.Put(batch.trainerId.value, linked)), s.result)
  }

  /** With the corrected order, a trainer assigned by a creation names a stored
      batch, and that batch names the trainer back. */
  lemma LinkedCreateNamesStoredBatch(db: Db, batch: Batch)
    requires db.Valid() && batch.HasRequiredFields()
    requires batch.trainerId.Some? && batch.trainerId.value in db.trainers.rows
    ensures var s := CreateLinked(db, batch);
            var tid := batch.trainerId.value;
            var t := s.db.trainers.rows[tid];
            && t.isAssigned == Some(true) && t.batchId.Some?
            && t.batchId.value in s.db.batches.rows
            && s.db.batches.rows[t.batchId.value].trainerId == Some(tid)
  {
  }

  /** On a genuine create the as-written and the corrected creation store the
      same batch and differ only in the trainer's back-reference. */
  lemma LinkedCreateDiffersOnlyInBackReference(db: Db, batch: Batch)
    requires db.Valid() && batch.HasRequiredFields() && batch.id.None?
    requires batch.trainerId.Some? && batch.trainerId.value in db.trainers.rows
    ensures var written := Create(db, batch);
            var linked := CreateLinked(db, batch);
            var tid := batch.trainerId.value;
            && written.result == linked.result
            && written.db.batches.rows == linked.db.batches.rows
            && written.db.trainers.rows == linked.db.trainers.rows[tid := linked.db.trainers.rows[tid].(batchId := None)]
  {
  }

  // ---------------------------------------------------------------------------
  // The service as it runs against the store object

  method CreateBatch(store: Database, batch: Batch) returns (r: Result<Batch>)
    requires store.Valid()
    modifies store
    ensures store.Valid()
    ensures Step(store.State(), r) == Create(old(store.State()), batch)
  {
    var b := batch;
    if b.trainerId.Some? {
      var found := store.trainers.FindById(b.trainerId.value);
      if found.Some? {
        var t := found.value;
        b := b.(trainerName := t.name);
        t := t.(isAssigned := Some(true), batchId := b.id);
        var savedTrainer := store.SaveTrainer(t);
      }
    }
    r := store.SaveBatch(b);
  }

  method UpdateBatch(store: Database, batch: Batch) returns (r: Result<Batch>)
    requires store.Valid()
    modifies store
    ensures store.Valid()
    ensures Step(store.State(), r) == Update(old(store.State()), batch)
  {
    var b := batch;
    if b.trainerId.Some? {
      var found := store.trainers.FindById(b.trainerId.value);
      if found.Some? {
        b := b.(trainerName := found.value.name);
      }
    }
    r := store.SaveBatch(b);
  }

  method DeleteBatch(store: Database, id: int)
    requires store.Valid()
    modifies store
    ensures store.Valid()
    ensures store.State() == Delete(old(store.State()), id)
  {
    store.batches := store.batches.DeleteById(id);
  }
}
