# Training management service layer, in Dafny

This project models the service layer of a training-programme administration
backend. Four services keep four record tables consistent: Trainee, Batch (a
course offering), Trainer and Attendance. They do it by copying display
fields across tables ("denormalisation") and by changing a counter and a flag
on a sibling row:

- enrolling a trainee copies its batch's course name and location onto it and
  raises the batch's `enrolledCount` by one; updating copies the same fields
  and leaves the count alone;
- creating a batch copies its trainer's name onto it, sets the trainer's
  `assigned` flag, and points the trainer's `batchId` at the batch as passed
  in; updating copies the name only;
- marking attendance copies the trainee's name and the batch's course name
  when those rows exist, and otherwise keeps the supplied names;
- trainers are saved and deleted plainly, and "available" means `assigned`
  is false.

## Layout

- `common.dfy` (`Common`): nullable references as `Option`, the two failures a
  call can end in (`NotNullViolation`, `NullUnboxing`), and Java `int`
  arithmetic (`Int32`, wrapping `Increment`).
- `model.dfy` (`Model`): the record shapes with their defaults (`NewBatch`:
  capacity 30, count 0, status `"Active"`; `NewTrainer`: not assigned), the
  `nullable = false` columns (`HasRequiredFields`), and the closed
  `AttendanceStatus` enumeration with its string column encoding.
- `tables.dfy` (`Tables`): one table as a value: rows by key plus an identity
  counter, with save-by-key, `findById`, `deleteById` and exact-match finders.
- `store.dfy` (`Store`): `Db`, the value of the four tables together, with its
  invariant, the four repository saves, and `Database`, the store as an object
  whose four table fields the services reassign.
- `trainee_service.dfy`, `batch_service.dfy`, `trainer_service.dfy`,
  `attendance_service.dfy`: one module per service. Each operation that
  changes the store is a pure function over `Db` (its contract says which rows
  change, how, and that everything else is unchanged) and a method over
  `Database` that runs the code's steps in order. The method's `ensures` ties
  the new store and the answer to the function. Each query is a function of
  the store's value. The lemmas relate the operations to each other.

Modelling choices:

- Every Java field is nullable, so every field is an `Option`. A store save
  of a record with null in a `nullable = false` column fails with
  `NotNullViolation` and changes nothing. `Db.Valid` says that no stored row
  has such a null and that every row carries its own key as its id.
- Each table has its own identity counter, as `GenerationType.IDENTITY` does.
  A save with no id inserts under the counter's value. A save with an id
  writes that key and moves the counter past it.
- `enrolledCount` is an `Integer`. If it is null, `+ 1` throws before any
  write (`NullUnboxing`). Otherwise it wraps at `Integer.MAX_VALUE`.
- `assigned` is a nullable `Boolean`, written `isAssigned` here because
  `assigned` is a Dafny keyword. The available-trainer query matches only
  false, so a null flag is neither available nor assigned.
- The services are not transactional. `createBatch` saves the trainer before
  the batch, so a batch refused by the store still leaves its trainer
  assigned. The model keeps this.
- Marking attendance with a trainee id that names no row keeps whatever
  trainee name the request carried. The name is blank only if the request
  had none.

## Model

| member | source | states |
|---|---|---|
| Common.Increment | management/src/main/java/com/training/management/service/TraineeService.java:38 | Java `int` successor: congruent to x+1 modulo 2^32, equal to x+1 below `Integer.MAX_VALUE`, wrapping below x at it |
| Model.Batch.HasRequiredFields | management/src/main/java/com/training/management/model/Batch.java:21-25 | a batch is storable iff course name and location are both set; no other column is required |
| Model.NewBatch | management/src/main/java/com/training/management/model/Batch.java:39-46 | a fresh batch has capacity 30, count 0, status "Active", every other field null, and is not storable until its required columns are set |
| Model.Trainer.HasRequiredFields | management/src/main/java/com/training/management/model/Trainer.java:21-25 | a trainer is storable iff name and location are both set; no other column is required |
| Model.NewTrainer | management/src/main/java/com/training/management/model/Trainer.java:33-34 | a fresh trainer has `assigned` false, every other field null, and is not storable until its required columns are set |
| Model.Attendance.HasRequiredFields | management/src/main/java/com/training/management/model/Attendance.java:21-38 | an attendance row is storable iff trainee id, batch id, date and status are all set; neither copied name is required |
| Model.StatusFromName | management/src/main/java/com/training/management/model/Attendance.java:36-42 | the status column accepts exactly the names PRESENT, ABSENT, LATE, and a decoded status has the name it was read from |
| Model.StatusRoundTrip | management/src/main/java/com/training/management/model/Attendance.java:36-42 | storing a status by name and reading it back gives the same status |
| Tables.Table.KeyFor | management/src/main/java/com/training/management/model/Batch.java:17-19 | a save writes under the record's own id when it has one, otherwise under a generated key that no row holds |
| Tables.Table.Put | management/src/main/java/com/training/management/repository/BatchRepository.java:10 | writing key k replaces exactly that row and keeps every key below the identity counter |
| Tables.Table.FindById | management/src/main/java/com/training/management/repository/BatchRepository.java:10 | `findById` is present iff the key is stored, and then gives that row |
| Tables.Table.DeleteById | management/src/main/java/com/training/management/repository/BatchRepository.java:10 | `deleteById` removes exactly that key (a no-op when absent) and leaves every other row |
| Tables.Table.Where | management/src/main/java/com/training/management/repository/BatchRepository.java:11 | a derived finder returns exactly the rows satisfying its condition, under their own keys |
| Store.Db.BatchOf | management/src/main/java/com/training/management/service/TraineeService.java:30-32 | a non-null batch reference resolves iff that batch row exists; else nothing |
| Store.Db.TrainerOf | management/src/main/java/com/training/management/service/BatchService.java:30-32 | a non-null trainer reference resolves iff that trainer row exists; else nothing |
| Store.Db.TraineeOf | management/src/main/java/com/training/management/service/AttendanceService.java:30-32 | a non-null trainee reference resolves iff that trainee row exists; else nothing |
| Store.Db.SaveTrainee | management/src/main/java/com/training/management/service/TraineeService.java:43 | saving a trainee always succeeds, writes exactly one trainee row under its id or a fresh key, returns it with that id, and leaves other tables alone |
| Store.Db.SaveBatch | management/src/main/java/com/training/management/model/Batch.java:17-25 | a batch lacking course name or location is refused with nothing changed; otherwise exactly one batch row is written and returned with its id |
| Store.Db.SaveTrainer | management/src/main/java/com/training/management/model/Trainer.java:17-25 | a trainer lacking name or location is refused with nothing changed; otherwise exactly one trainer row is written and returned with its id |
| Store.Db.SaveAttendance | management/src/main/java/com/training/management/model/Attendance.java:17-38 | a row lacking trainee id, batch id, date or status is refused with nothing changed; otherwise exactly one attendance row is written |
| Store.Database.SaveTrainee | management/src/main/java/com/training/management/service/TraineeService.java:43 | the store object ends in the state and gives the answer of `Db.SaveTrainee`, keeping the invariant |
| Store.Database.SaveBatch | management/src/main/java/com/training/management/service/BatchService.java:43 | the store object ends in the state and gives the answer of `Db.SaveBatch`, keeping the invariant |
| Store.Database.SaveTrainer | management/src/main/java/com/training/management/service/BatchService.java:39 | the store object ends in the state and gives the answer of `Db.SaveTrainer`, keeping the invariant |
| Store.Database.SaveAttendance | management/src/main/java/com/training/management/service/AttendanceService.java:40 | the store object ends in the state and gives the answer of `Db.SaveAttendance`, keeping the invariant |
| TraineeService.WithBatchDetails | management/src/main/java/com/training/management/service/TraineeService.java:34-35 | the copy sets batch name to the course name and location to the batch's, and no other field |
| TraineeService.Enroll | management/src/main/java/com/training/management/service/TraineeService.java:28-44 | with no resolvable batch: no batch changes and the trainee is saved as supplied; with a batch whose count is null: nothing changes, NPE; otherwise the trainee is saved with the batch's course name and location and only that batch's count moves on by one; trainers and attendance never change |
| TraineeService.Update | management/src/main/java/com/training/management/service/TraineeService.java:54-65 | the same copy as enrolment and one trainee row written, with the batch table (every count) unchanged |
| TraineeService.Delete | management/src/main/java/com/training/management/service/TraineeService.java:50-52 | only that trainee key goes; batches, trainers, attendance unchanged |
| TraineeService.GetTraineeById | management/src/main/java/com/training/management/service/TraineeService.java:24-26 | present iff the id is stored |
| TraineeService.GetTraineesByBatch | management/src/main/java/com/training/management/service/TraineeService.java:46-48 | exactly the trainees whose `batchId` equals the argument |
| TraineeService.EnrollAll | management/src/main/java/com/training/management/service/TraineeService.java:28-44 | successive enrolments keep the store invariant |
| TraineeService.UpdateAll | management/src/main/java/com/training/management/service/TraineeService.java:54-65 | successive updates keep the store invariant |
| TraineeService.EnrollIntoExistingBatch | management/src/main/java/com/training/management/service/TraineeService.java:30-39 | enrolling into an existing batch (count below the `int` limit) succeeds, copies course name and location, raises the count by exactly 1, changes no other batch field, and stores the trainee |
| TraineeService.EnrollIgnoresCapacity | management/src/main/java/com/training/management/service/TraineeService.java:37-39 | a full batch still accepts the trainee and its count then exceeds `maxCapacity` |
| TraineeService.EnrollAllCounts | management/src/main/java/com/training/management/service/TraineeService.java:37-39 | n enrolments into one batch raise its count by n and change no other field of it and no other batch |
| TraineeService.CountStartsFromDefault | management/src/main/java/com/training/management/model/Batch.java:42-43 | a batch with the default count 0 has count n after n enrolments |
| TraineeService.UpdatesNeverCount | management/src/main/java/com/training/management/service/TraineeService.java:54-65 | any number of updates leaves the batch table, and so every count, unchanged |
| TraineeService.UpdateIdempotent | management/src/main/java/com/training/management/service/TraineeService.java:54-65 | updating a trainee (with its id) twice gives the store and answer of updating it once |
| TraineeService.EnrolledTraineeIsListed | management/src/main/java/com/training/management/service/TraineeService.java:43-48 | a trainee enrolled into an existing batch is returned by that batch's trainee query |
| TraineeService.DeleteKeepsCount | management/src/main/java/com/training/management/service/TraineeService.java:50-52 | deleting an enrolled trainee leaves the batch (its count) as enrolment left it |
| TraineeService.EnrollTrainee | management/src/main/java/com/training/management/service/TraineeService.java:28-44 | the service steps (copy, increment, save batch, save trainee) end in `Enroll`'s store and answer |
| TraineeService.UpdateTrainee | management/src/main/java/com/training/management/service/TraineeService.java:54-65 | the service steps end in `Update`'s store and answer |
| TraineeService.DeleteTrainee | management/src/main/java/com/training/management/service/TraineeService.java:50-52 | the store object ends in `Delete`'s store |
| BatchService.Create | management/src/main/java/com/training/management/service/BatchService.java:28-44 | fails iff the batch lacks a required field; with no resolvable trainer the trainer table is unchanged and the batch saved as supplied; with one, exactly that trainer row changes, only in `assigned` (true) and `batchId` (the id as passed in), even when the batch save fails, and the batch is saved carrying the trainer's name; trainees and attendance never change |
| BatchService.Update | management/src/main/java/com/training/management/service/BatchService.java:54-64 | the trainer's name is copied when the trainer exists, one batch row is written, and no trainer row changes |
| BatchService.Delete | management/src/main/java/com/training/management/service/BatchService.java:50-52 | only that batch key goes; no trainer's `assigned` or `batchId`, and no trainee or attendance row, changes |
| BatchService.GetBatchById | management/src/main/java/com/training/management/service/BatchService.java:24-26 | present iff the id is stored |
| BatchService.GetBatchesByLocation | management/src/main/java/com/training/management/service/BatchService.java:46-48 | exactly the batches whose location equals the argument |
| BatchService.CreatedBatchTakesTrainer | management/src/main/java/com/training/management/service/BatchService.java:36-39 | after a create naming an existing trainer, that trainer is assigned and no longer available |
| BatchService.DefaultBatchIsStoredWithDefaults | management/src/main/java/com/training/management/model/Batch.java:39-46 | a batch built from the defaults is stored with capacity 30, count 0, status "Active", and changes no trainer |
| BatchService.GenuineCreateLeavesBackReferenceNull | management/src/main/java/com/training/management/service/BatchService.java:36-43 | a create with no id gets a fresh id, yet the trainer is left assigned with a null `batchId` |
| BatchService.RefusedCreateStillAssigns | management/src/main/java/com/training/management/service/BatchService.java:36-43 | a batch the store refuses leaves no batch written but its trainer assigned |
| BatchService.CreateLinked | management/src/main/java/com/training/management/service/BatchService.java:28-44 | corrected order: fails iff the batch lacks a required field, and then nothing changes; otherwise exactly one batch row is written under its own or a fresh key, carrying the trainer's name when the trainer exists, and that trainer's row then changes only to `assigned` true and `batchId` naming that key |
| BatchService.LinkedCreateNamesStoredBatch | management/src/main/java/com/training/management/service/BatchService.java:36-39 | with the corrected order, an assigned trainer names a stored batch that names it back |
| BatchService.LinkedCreateDiffersOnlyInBackReference | management/src/main/java/com/training/management/service/BatchService.java:36-43 | on a genuine create the two orders store the same batch and differ only in the trainer's `batchId` |
| BatchService.CreateBatch | management/src/main/java/com/training/management/service/BatchService.java:28-44 | the service steps (copy, flag, save trainer, save batch) end in `Create`'s store and answer |
| BatchService.UpdateBatch | management/src/main/java/com/training/management/service/BatchService.java:54-64 | the service steps end in `Update`'s store and answer |
| BatchService.DeleteBatch | management/src/main/java/com/training/management/service/BatchService.java:50-52 | the store object ends in `Delete`'s store |
| TrainerService.Save | management/src/main/java/com/training/management/service/TrainerService.java:25-27 | fails iff name or location is missing (then nothing changes); otherwise one trainer row holds exactly the supplied record with its id, and no other table changes |
| TrainerService.Delete | management/src/main/java/com/training/management/service/TrainerService.java:37-39 | only that trainer key goes; batches naming it are unchanged |
| TrainerService.GetTrainerById | management/src/main/java/com/training/management/service/TrainerService.java:21-23 | present iff the id is stored |
| TrainerService.GetAvailableTrainers | management/src/main/java/com/training/management/repository/TrainerRepository.java:12 | exactly the trainers whose `assigned` is false |
| TrainerService.GetTrainersByLocation | management/src/main/java/com/training/management/service/TrainerService.java:33-35 | exactly the trainers whose location equals the argument |
| TrainerService.NewTrainerIsAvailable | management/src/main/java/com/training/management/model/Trainer.java:33-34 | a default trainer with name and location is saved and then listed as available (and at its location) |
| TrainerService.AssignedWithoutBatchIsStored | management/src/main/java/com/training/management/service/TrainerService.java:41-43 | a trainer marked assigned with no batch is stored as is, and is not available |
| TrainerService.AddTrainerAvailability | management/src/main/java/com/training/management/service/TrainerService.java:25-27 | the store object ends in `Save`'s store and answer |
| TrainerService.UpdateTrainer | management/src/main/java/com/training/management/service/TrainerService.java:41-43 | the store object ends in `Save`'s store and answer |
| TrainerService.DeleteTrainer | management/src/main/java/com/training/management/service/TrainerService.java:37-39 | the store object ends in `Delete`'s store |
| AttendanceService.WithNames | management/src/main/java/com/training/management/service/AttendanceService.java:30-38 | the trainee name is the trainee's when that row exists, the batch name the batch's course name when that row exists, each otherwise as supplied; no other field changes |
| AttendanceService.Mark | management/src/main/java/com/training/management/service/AttendanceService.java:28-41 | fails iff a required field is missing (then nothing changes); otherwise exactly one attendance row is written, fresh or under the supplied id, holding the named copy; trainees, batches and trainers never change |
| AttendanceService.Delete | management/src/main/java/com/training/management/service/AttendanceService.java:55-57 | only that attendance key goes |
| AttendanceService.GetAttendanceByTrainee | management/src/main/java/com/training/management/service/AttendanceService.java:43-45 | exactly the rows whose `traineeId` equals the argument |
| AttendanceService.GetAttendanceByBatch | management/src/main/java/com/training/management/service/AttendanceService.java:47-49 | exactly the rows whose `batchId` equals the argument |
| AttendanceService.GetAttendanceByDate | management/src/main/java/com/training/management/service/AttendanceService.java:51-53 | exactly the rows whose date equals the argument, no range |
| AttendanceService.UpdateOverwritesRow | management/src/main/java/com/training/management/controller/AttendanceController.java:54-58 | marking with the path id writes that key and leaves every other row |
| AttendanceService.NoDuplicateCheck | management/src/main/java/com/training/management/service/AttendanceService.java:40 | marking the same attendance twice without an id stores two distinct rows with the same trainee, batch and date |
| AttendanceService.MarkedRowIsListed | management/src/main/java/com/training/management/service/AttendanceService.java:43-53 | a marked row is returned by the by-trainee, by-batch and by-date queries |
| AttendanceService.MarkAttendance | management/src/main/java/com/training/management/service/AttendanceService.java:28-41 | the service steps (two conditional copies, save) end in `Mark`'s store and answer |
| AttendanceService.DeleteAttendance | management/src/main/java/com/training/management/service/AttendanceService.java:55-57 | the store object ends in `Delete`'s store |

## Findings

| source | as written | input that shows it | evidently intended | confidence | as-written member | corrected member |
|---|---|---|---|---|---|---|
| management/src/main/java/com/training/management/service/BatchService.java:36-43 | the trainer's `batchId` is set from `batch.getId()` before `batchRepository.save(batch)` assigns the id | a new batch with no id whose `trainerId` names an existing trainer: the batch gets a fresh id, the trainer is assigned with `batchId` null | the trainer's back-reference names the saved batch's generated id | high; not executed | BatchService.GenuineCreateLeavesBackReferenceNull | BatchService.CreateLinked |

The services and their methods model the code as written. `CreateLinked`
gives the intended order beside it. `LinkedCreateNamesStoredBatch` proves
that under this order an assigned trainer names a stored batch that names it
back. `LinkedCreateDiffersOnlyInBackReference` proves that this
back-reference is the only difference.

## Left out

- Controllers: HTTP routing and status codes. Their one piece of logic is
  that an update sets the id from the path and calls the service. The model
  states this for attendance (`UpdateOverwritesRow`); for the other entities
  the update functions take the record with its id already set.
- `getAllTrainees`, `getAllBatches`, `getAllTrainers`, `getAllAttendance`:
  each returns the whole table, which is the table's `rows` in this model.
  No separate member is given.
- Finders return the matching rows as a map by key. The order of the Java
  `List` is not modelled.
- The repository implementation is not modelled. Its contract (insert under a
  generated key, overwrite by key, `findById`, `deleteById`, exact-match
  finders) is assumed. Three details are fixed here. A save whose id names no
  row writes under that id. This is an assumption, not the store's real
  behaviour: Spring Data's `save` with an id calls `merge`, which in Hibernate
  before 6.6 inserts under a freshly generated key and from 6.6 on throws. The
  absent-id case of `UpdateOverwritesRow` and the counter bump in
  `Tables.Table.Put` rest on it. `deleteById` of a missing id is a no-op. A
  failed insert uses up no identity value.
- Store failures other than the `nullable = false` checks are left out:
  connection loss, and the unique course name. The Course entity and its
  table are out entirely, because no modelled operation uses them.
- The `Trainee` record's source file is not part of this model. Its fields
  (`id`, `name`, `batchId`, `batchName`, `location`) are those the services
  use, and none is taken to be required. If a Trainee column were in fact
  `nullable = false`, `enrollTrainee` would show the hazard proved for
  `createBatch`: the batch is saved with its count raised before the trainee
  save fails, so the count would move on for a trainee that was never stored.
- Ids (`Long`) are unbounded integers. Dates are opaque values compared only
  for equality, and `LocalDate.parse` in the attendance controller is left
  out.
- `BatchRepository.findByTrainerId` and `TrainerRepository.findByBatchId`:
  no service calls them.
- `Model.StatusFromName` and `Model.StatusRoundTrip` stand alone: the model
  holds a status as the enumeration value, and the name encoding only states
  the column format, which no service operation reads.
- Concurrency: each operation runs atomically and alone, so the lost-update
  races on `enrolledCount` and `assigned` are not represented.
- The report endpoints (fixed mock figures), the frontend and the
  application bootstrap are presentation or framework code.
