/** The task handlers: `createTask`, `getTasks`, `updateTask` and
    `deleteTask`. Every handler acts for the authenticated user whose id the
    session token carried, and every lookup is `{ _id: id, userId }`, so a
    user only ever sees or touches their own tasks. */
module TaskController {
  import opened Wrappers
  import opened TaskModel

  /** The `:id` route parameter: a well-formed ObjectId, or text Mongoose
      cannot cast (a `CastError` is thrown). */
  datatype PathId = ObjectId(id: TaskId) | NotAnObjectId

  /** The task collection and the next fresh id. */
  datatype TaskDb = TaskDb(tasks: map<TaskId, TaskRecord>, nextId: TaskId)

  predicate WellFormed(db: TaskDb)
  {
    forall id :: id in db.tasks ==> id < db.nextId && RecordValid(db.tasks[id])
  }

  /** `task.find({ userId })`: the tasks owned by `owner`. */
  function OwnedBy(tasks: map<TaskId, TaskRecord>, owner: OwnerId): map<TaskId, TaskRecord>
  {
    map id | id in tasks && tasks[id].userId == owner :: tasks[id]
  }

  /** `task.findOne({ _id: id, userId })` finds a task. */
  predicate Owns(db: TaskDb, owner: OwnerId, pid: PathId)
  {
    pid.ObjectId? && pid.id in db.tasks && db.tasks[pid.id].userId == owner
  }

  datatype CreateOutcome = TaskCreated(taskId: TaskId, task: TaskRecord) | CreateInvalid(fields: set<TaskField>)
  datatype UpdateOutcome = TaskUpdated(task: TaskRecord) | UpdateNotFound | UpdateInvalid(fields: set<TaskField>) | UpdateBadId
  datatype DeleteOutcome = TaskDeleted | DeleteNotFound | DeleteBadId

  function CreateStatus(o: CreateOutcome): nat
  {
    if o.TaskCreated? then 201 else 400
  }

  /** A cast error and a validation error both land in the catch (400). */
  function UpdateStatus(o: UpdateOutcome): nat
  {
    match o
    case TaskUpdated(_) => 200
    case UpdateNotFound => 404
    case UpdateInvalid(_) => 400
    case UpdateBadId => 400
  }

  /** A cast error lands in the catch, which answers 500 here. */
  function DeleteStatus(o: DeleteOutcome): nat
  {
    match o
    case TaskDeleted => 200
    case DeleteNotFound => 404
    case DeleteBadId => 500
  }

  /** `createTask`: the owner is the requester, whatever the body says; a
      task that fails validation is not stored (400). */
  function CreateSpec(db: TaskDb, owner: OwnerId, body: TaskBody, todayStart: int): (r: (TaskDb, CreateOutcome))
    requires WellFormed(db)
    ensures WellFormed(r.0)
    ensures r.1.CreateInvalid? ==> r.0 == db && r.1.fields != {}
    ensures r.1.TaskCreated? <==> NewTask(body, Some(owner), todayStart).Success?
    ensures r.1.CreateInvalid? ==> r.1.fields == NewTask(body, Some(owner), todayStart).error
    ensures r.1.TaskCreated? ==>
              && r.1.taskId == db.nextId && r.1.taskId !in db.tasks
              && r.0.tasks == db.tasks[r.1.taskId := r.1.task]
              && r.1.task.userId == owner
              && NewTask(body, Some(owner), todayStart) == Success(r.1.task)
  {
    match NewTask(body, Some(owner), todayStart)
    case Failure(f) => (db, CreateInvalid(f))
    case Success(t) => (Insert(db, t), TaskCreated(db.nextId, t))
  }

  /** Stores a task under a fresh id. */
  function Insert(db: TaskDb, t: TaskRecord): (r: TaskDb)
    requires WellFormed(db) && RecordValid(t)
    ensures WellFormed(r) && db.nextId !in db.tasks
    ensures r.tasks == db.tasks[db.nextId := t]
  {
    TaskDb(db.tasks[db.nextId := t], db.nextId + 1)
  }

  /** `CreateSpec` in terms of `NewTask`: a body that fails validation
      changes nothing, and one that makes a valid task is stored under the
      next id. */
  lemma {:induction false} CreateOutcomeOf(db: TaskDb, owner: OwnerId, body: TaskBody, todayStart: int)
    requires WellFormed(db)
    ensures var made := NewTask(body, Some(owner), todayStart);
            CreateSpec(db, owner, body, todayStart) ==
              if made.Failure? then (db, CreateInvalid(made.error))
              else (Insert(db, made.value), TaskCreated(db.nextId, made.value))
  {
  }

  /** `updateTask`: a task the requester does not own is 404 and nothing
      changes; otherwise the present paths are validated and set, and the
      owner is kept. */
  function UpdateSpec(db: TaskDb, owner: OwnerId, pid: PathId, body: TaskBody, todayStart: int)
    : (r: (TaskDb, UpdateOutcome))
    requires WellFormed(db)
    ensures WellFormed(r.0)
    ensures !r.1.TaskUpdated? ==> r.0 == db
    ensures r.1 == UpdateBadId <==> pid.NotAnObjectId?
    ensures r.1 == UpdateNotFound <==> pid.ObjectId? && !Owns(db, owner, pid)
    ensures Owns(db, owner, pid) ==>
              (r.1.TaskUpdated? <==> ApplyUpdate(db.tasks[pid.id], body, todayStart).Success?)
    ensures r.1.UpdateInvalid? ==>
              Owns(db, owner, pid) && r.1.fields == ApplyUpdate(db.tasks[pid.id], body, todayStart).error
    ensures r.1.TaskUpdated? ==>
              && Owns(db, owner, pid)
              && r.0.tasks == db.tasks[pid.id := r.1.task]
              && ApplyUpdate(db.tasks[pid.id], body, todayStart) == Success(r.1.task)
              && r.1.task.userId == owner
  {
    if pid.NotAnObjectId? then (db, UpdateBadId)
    else if !Owns(db, owner, pid) then (db, UpdateNotFound)
    else
      match ApplyUpdate(db.tasks[pid.id], body, todayStart)
      case Failure(f) => (db, UpdateInvalid(f))
      case Success(t) => (db.(tasks := db.tasks[pid.id := t]), TaskUpdated(t))
  }

  /** `deleteTask`: a task the requester does not own is 404 and nothing is
      removed; otherwise exactly that task is removed. */
  function DeleteSpec(db: TaskDb, owner: OwnerId, pid: PathId): (r: (TaskDb, DeleteOutcome))
    requires WellFormed(db)
    ensures WellFormed(r.0)
    ensures r.1 != TaskDeleted ==> r.0 == db
    ensures r.1 == DeleteBadId <==> pid.NotAnObjectId?
    ensures r.1 == TaskDeleted <==> Owns(db, owner, pid)
    ensures r.1 == TaskDeleted ==> r.0.tasks == db.tasks - {pid.id}
  {
    if pid.NotAnObjectId? then (db, DeleteBadId)
    else if !Owns(db, owner, pid) then (db, DeleteNotFound)
    else (db.(tasks := db.tasks - {pid.id}), TaskDeleted)
  }

  /** A request a user can make on the task routes. */
  datatype TaskRequest =
    | Create(body: TaskBody)
    | List
    | Update(pid: PathId, body: TaskBody)
    | Delete(pid: PathId)

  /** The collection after `owner`'s request. */
  function After(db: TaskDb, owner: OwnerId, req: TaskRequest, todayStart: int): (r: TaskDb)
    requires WellFormed(db)
    ensures WellFormed(r)
  {
    match req
    case Create(body) => CreateSpec(db, owner, body, todayStart).0
    case List => db
    case Update(pid, body) => UpdateSpec(db, owner, pid, body, todayStart).0
    case Delete(pid) => DeleteSpec(db, owner, pid).0
  }

  /** Storing a task under `id` changes only that entry of its owner's list,
      and takes the entry off any other owner's list. */
  lemma {:induction false} OwnedByStore(tasks: map<TaskId, TaskRecord>, id: TaskId, t: TaskRecord, o: OwnerId)
    ensures OwnedBy(tasks[id := t], o) ==
              if t.userId == o then OwnedBy(tasks, o)[id := t] else OwnedBy(tasks, o) - {id}
  {
  }

  /** Removing a task takes it off its owner's list and nothing else. */
  lemma {:induction false} OwnedByRemove(tasks: map<TaskId, TaskRecord>, id: TaskId, o: OwnerId)
    ensures OwnedBy(tasks - {id}, o) == OwnedBy(tasks, o) - {id}
  {
  }

  /** A create by `owner` leaves every other user's list as it was. */
  lemma {:induction false} CreateLeavesOthers(db: TaskDb, owner: OwnerId, body: TaskBody, todayStart: int, other: OwnerId)
    requires WellFormed(db) && other != owner
    ensures OwnedBy(CreateSpec(db, owner, body, todayStart).0.tasks, other) == OwnedBy(db.tasks, other)
  {
    var r := CreateSpec(db, owner, body, todayStart);
    if r.1.TaskCreated? {
      OwnedByStore(db.tasks, r.1.taskId, r.1.task, other);
      assert r.1.taskId !in OwnedBy(db.tasks, other);
      assert OwnedBy(db.tasks, other) - {r.1.taskId} == OwnedBy(db.tasks, other);
    }
  }

  /** An update by `owner` leaves every other user's list as it was. */
  lemma {:induction false} UpdateLeavesOthers(db: TaskDb, owner: OwnerId, pid: PathId, body: TaskBody, todayStart: int,
                           other: OwnerId)
    requires WellFormed(db) && other != owner
    ensures OwnedBy(UpdateSpec(db, owner, pid, body, todayStart).0.tasks, other) == OwnedBy(db.tasks, other)
  {
    var r := UpdateSpec(db, owner, pid, body, todayStart);
    if r.1.TaskUpdated? {
      OwnedByStore(db.tasks, pid.id, r.1.task, other);
      assert pid.id !in OwnedBy(db.tasks, other);
      assert OwnedBy(db.tasks, other) - {pid.id} == OwnedBy(db.tasks, other);
    }
  }

  /** A delete by `owner` leaves every other user's list as it was. */
  lemma {:induction false} DeleteLeavesOthers(db: TaskDb, owner: OwnerId, pid: PathId, other: OwnerId)
    requires WellFormed(db) && other != owner
    ensures OwnedBy(DeleteSpec(db, owner, pid).0.tasks, other) == OwnedBy(db.tasks, other)
  {
    var r := DeleteSpec(db, owner, pid);
    if r.1 == TaskDeleted {
      OwnedByRemove(db.tasks, pid.id, other);
      assert pid.id !in OwnedBy(db.tasks, other);
      assert OwnedBy(db.tasks, other) - {pid.id} == OwnedBy(db.tasks, other);
    }
  }

  /** No request by one user changes what another user's `getTasks` returns. */
  lemma {:induction false} OthersUnaffected(db: TaskDb, owner: OwnerId, req: TaskRequest,
                                            todayStart: int, other: OwnerId)
    requires WellFormed(db) && other != owner
    ensures OwnedBy(After(db, owner, req, todayStart).tasks, other) == OwnedBy(db.tasks, other)
  {
    match req
    case Create(body) => CreateLeavesOthers(db, owner, body, todayStart, other);
    case List =>
    case Update(pid, body) => UpdateLeavesOthers(db, owner, pid, body, todayStart, other);
    case Delete(pid) => DeleteLeavesOthers(db, owner, pid, other);
  }

  /** A created task is listed for its owner from then on, with everything
      the owner had before. */
  lemma {:induction false} CreatedIsListed(db: TaskDb, owner: OwnerId, body: TaskBody, todayStart: int)
    requires WellFormed(db)
    requires CreateSpec(db, owner, body, todayStart).1.TaskCreated?
    ensures var r := CreateSpec(db, owner, body, todayStart);
            OwnedBy(r.0.tasks, owner) == OwnedBy(db.tasks, owner)[r.1.taskId := r.1.task]
  {
    var r := CreateSpec(db, owner, body, todayStart);
    OwnedByStore(db.tasks, r.1.taskId, r.1.task, owner);
  }

  /** A deleted task is no longer listed for its owner; the rest of their
      list stays. */
  lemma {:induction false} DeletedIsUnlisted(db: TaskDb, owner: OwnerId, pid: PathId)
    requires WellFormed(db) && Owns(db, owner, pid)
    ensures OwnedBy(DeleteSpec(db, owner, pid).0.tasks, owner) == OwnedBy(db.tasks, owner) - {pid.id}
  {
    OwnedByRemove(db.tasks, pid.id, owner);
  }

  /** The collection, changed in place by the handlers. */
  class TaskStore {
    var tasks: map<TaskId, TaskRecord>
    var nextId: TaskId

    function Value(): TaskDb
      reads this
    {
      TaskDb(tasks, nextId)
    }

    predicate Valid()
      reads this
    {
      WellFormed(Value())
    }

    constructor()
      ensures Valid() && tasks == map[]
    {
      tasks := map[];
      nextId := 0;
    }

    /** `createTask` for the requester `userId`. */
    method CreateTask(userId: OwnerId, body: TaskBody, todayStart: int) returns (outcome: CreateOutcome)
      requires Valid()
      modifies this
      ensures Valid()
      ensures (Value(), outcome) == CreateSpec(old(Value()), userId, body, todayStart)
    {
      ghost var before := Value();
      var created := NewTask(body, Some(userId), todayStart);
      CreateOutcomeOf(before, userId, body, todayStart);
      if created.Failure? {
        return CreateInvalid(created.error);
      }
      tasks := tasks[nextId := created.value];
      outcome := TaskCreated(nextId, created.value);
      nextId := nextId + 1;
      assert Value() == Insert(before, created.value);
    }

    /** `getTasks`: exactly the requester's tasks. */
    method GetTasks(userId: OwnerId) returns (result: map<TaskId, TaskRecord>)
      ensures forall id :: id in result <==> id in tasks && tasks[id].userId == userId
      ensures forall id :: id in result ==> result[id] == tasks[id]
    {
      result := map id | id in tasks && tasks[id].userId == userId :: tasks[id];
    }

    /** `updateTask` */
    method UpdateTask(userId: OwnerId, pid: PathId, body: TaskBody, todayStart: int)
      returns (outcome: UpdateOutcome)
      requires Valid()
      modifies this
      ensures Valid()
      ensures (Value(), outcome) == UpdateSpec(old(Value()), userId, pid, body, todayStart)
    {
      if pid.NotAnObjectId? {
        return UpdateBadId;
      }
      if !(pid.id in tasks && tasks[pid.id].userId == userId) {
        return UpdateNotFound;
      }
      var updated := ApplyUpdate(tasks[pid.id], body, todayStart);
      if updated.Failure? {
        return UpdateInvalid(updated.error);
      }
      tasks := tasks[pid.id := updated.value];
      outcome := TaskUpdated(updated.value);
    }

    /** `deleteTask` */
    method DeleteTask(userId: OwnerId, pid: PathId) returns (outcome: DeleteOutcome)
      requires Valid()
      modifies this
      ensures Valid()
      ensures (Value(), outcome) == DeleteSpec(old(Value()), userId, pid)
    {
      if pid.NotAnObjectId? {
        return DeleteBadId;
      }
      if !(pid.id in tasks && tasks[pid.id].userId == userId) {
        return DeleteNotFound;
      }
      tasks := tasks - {pid.id};
      outcome := TaskDeleted;
    }
  }
}
