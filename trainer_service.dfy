/** Trainer lifecycle: plain saves and deletes with no effect on other tables,
    and the two listing queries. */
module TrainerService {
  import opened Common
  import opened Model
  import opened Tables
  import opened Store

  /** `addTrainerAvailability` and `updateTrainer` (the same call, `save`): the
      trainer is stored exactly as supplied, under its id or a fresh key, and no
      other table is touched. Nothing ties `assigned` to `batchId`. */
  function Save(db: Db, trainer: Trainer): (s: Step<Trainer>)
    requires db.Valid()
    ensures s.db.Valid()
    ensures s.db.trainees == db.trainees && s.db.batches == db.batches && s.db.attendance == db.attendance
    ensures s.result.Err? <==> !trainer.HasRequiredFields()
    ensures s.result.Err? ==> s == Step(db, Err(NotNullViolation))
    ensures s.result.Ok? ==>
              var k := db.trainers.KeyFor(trainer.id);
              && s.result.value == trainer.(id := Some(k))
              && s.db.trainers.rows == db.trainers.rows[k := s.result.value]
  {
    db.SaveTrainer(trainer)
  }

  /** `deleteTrainer`: only that trainer goes; batches naming it keep their
      `trainerId` and `trainerName`. */
  function Delete(db: Db, id: int): (r: Db)
    requires db.Valid()
    ensures r.Valid()
    ensures r.trainers.rows.Keys == db.trainers.rows.Keys - {id}
    ensures forall k :: k in r.trainers.rows ==> r.trainers.rows[k] == db.trainers.rows[k]
    ensures r.trainees == db.trainees && r.batches == db.batches && r.attendance == db.attendance
  {
    db.(trainers := db.trainers.DeleteById(id))
  }

  /** `getTrainerById`: present exactly when the id is stored. */
  function GetTrainerById(db: Db, id: int): (r: Option<Trainer>)
    ensures r.Some? <==> id in db.trainers.rows
    ensures r.Some? ==> r.value == db.trainers.rows[id]
  {
    db.trainers.FindById(id)
  }

  /** `getAvailableTrainers` (`findByAssignedFalse`): exactly the trainers whose
      flag is false; a null flag is neither available nor assigned. */
  function GetAvailableTrainers(db: Db): (r: map<int, Trainer>)
    ensures forall k :: k in r <==> k in db.trainers.rows && db.trainers.rows[k].isAssigned == Some(false)
    ensures forall k :: k in r ==> r[k] == db.trainers.rows[k]
  {
    db.trainers.Where((t: Trainer) => t.isAssigned == Some(false))
  }

  /** `getTrainersByLocation`: exactly the trainers at that location, compared exactly. */
  function GetTrainersByLocation(db: Db, location: string): (r: map<int, Trainer>)
    ensures forall k :: k in r <==> k in db.trainers.rows && db.trainers.rows[k].location == Some(location)
    ensures forall k :: k in r ==> r[k] == db.trainers.rows[k]
  {
    db.trainers.Where((t: Trainer) => t.location == Some(location))
  }

  // ---------------------------------------------------------------------------
  // Properties

  /** A trainer built from the defaults (`assigned` false) with its required
      fields set is saved and then listed as available. */
  lemma NewTrainerIsAvailable(db: Db, name: string, location: string)
    requires db.Valid()
    ensures var s := Save(db, NewTrainer().(name := Some(name), location := Some(location)));
            && s.result.Ok?
            && s.result.value.id.value in GetAvailableTrainers(s.db)
            && s.result.value.id.value in GetTrainersByLocation(s.db, location)
  {
  }

  /** Updating a trainer to "assigned" with no batch is accepted and stored as is:
      the flag and the back-reference are independent fields. */
  lemma AssignedWithoutBatchIsStored(db: Db, trainer: Trainer)
    requires db.Valid() && trainer.HasRequiredFields()
    requires trainer.isAssigned == Some(true) && trainer.batchId.None?
    ensures var s := Save(db, trainer);
            var k := s.result.value.id.value;
            && s.result.Ok?
            && s.db.trainers.rows[k].isAssigned == Some(true)
            && s.db.trainers.rows[k].batchId.None?
            && k !in GetAvailableTrainers(s.db)
  {
  }

  // ---------------------------------------------------------------------------
  // The service as it runs against the store object

  method AddTrainerAvailability(store: Database, trainer: Trainer) returns (r: Result<Trainer>)
    requires store.Valid()
    modifies store
    ensures store.Valid()
    ensures Step(store.State(), r) == Save(old(store.State()), trainer)
  {
    r := store.SaveTrainer(trainer);
  }

  method UpdateTrainer(store: Database, trainer: Trainer) returns (r: Result<Trainer>)
    requires store.Valid()
    modifies store
    ensures store.Valid()
    ensures Step(store.State(), r) == Save(old(store.State()), trainer)
  {
    r := store.SaveTrainer(trainer);
  }

  method DeleteTrainer(store: Database, id: int)
    requires store.Valid()
    modifies store
    ensures store.Valid()
    ensures store.State() == Delete(old(store.State()), id)
  {
    store.trainers := store.trainers.DeleteById(id);
  }
}
