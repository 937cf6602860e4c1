/** Conversion tasks, kept in memory and in a database at the same time. */
module Tasks {
  import opened Wrappers

  datatype Status = Processing | Completed | Failed

  /** Sizes are those of the source and of the target image; `finished` means nothing yet while a
      task is being processed. */
  datatype Task = Task(id: string, created: int, finished: int, source: string, sourceSize: nat, targetSize: nat,
                       status: Status, reason: string)

  datatype Metric = Metric(sourceSize: nat, targetSize: nat)

  /** A day, in nanoseconds. */
  const KEEP_PERIOD := 24 * 3600 * 1_000_000_000

  type Table = map<string, Task>

  predicate Expired(t: Task, now: int) {
    !t.status.Processing? && now > t.finished + KEEP_PERIOD
  }

  predicate KeyedById(table: Table) {
    forall id | id in table :: table[id].id == id
  }

  function NewTask(id: string, source: string, now: int): Task {
    Task(id, now, 0, source, 0, 0, Processing, "")
  }

  function Ended(t: Task, metric: Option<Metric>, error: Option<string>, now: int): Task {
    Task(t.id, t.created, now, t.source,
         if metric.Some? then metric.value.sourceSize else t.sourceSize,
         if metric.Some? then metric.value.targetSize else t.targetSize,
         if error.Some? then Failed else Completed,
         if error.Some? then error.value else t.reason)
  }

  /** What the end of a conversion writes into its task, and that the rest stays. */
  predicate Ends(t: Task, metric: Option<Metric>, error: Option<string>, now: int, t': Task) {
    && t'.id == t.id && t'.created == t.created && t'.source == t.source && t'.finished == now
    && (error.None? ==> t'.status == Completed && t'.reason == t.reason)
    && (error.Some? ==> t'.status == Failed && t'.reason == error.value)
    && (metric.None? ==> t'.sourceSize == t.sourceSize && t'.targetSize == t.targetSize)
    && (metric.Some? ==> t'.sourceSize == metric.value.sourceSize && t'.targetSize == metric.value.targetSize)
  }

  /** The tasks that are not expired. */
  function Kept(table: Table, now: int): Table {
    map id | id in table && !Expired(table[id], now) :: table[id]
  }

  /** The tasks that ended. */
  function Terminal(table: Table): Table {
    map id | id in table && !table[id].status.Processing? :: table[id]
  }

  class Manager {
    var tasks: Table
    var stored: Table

    ghost predicate Valid()
      reads this
    {
      tasks == stored && KeyedById(tasks)
    }

    /** Opens the database: what was being processed when it was last open is deleted, and the rest
        is loaded, whatever it is. */
    constructor Init(db: Table)
      requires KeyedById(db)
      ensures Valid() && tasks == Terminal(db)
    {
      tasks, stored := map[], db;
      new;
      var todo := db.Keys;
      while todo != {}
        invariant todo <= db.Keys
        invariant tasks == map id | id in db && id !in todo && !db[id].status.Processing? :: db[id]
        invariant stored == map id | id in db && (id in todo || !db[id].status.Processing?) :: db[id]
      {
        var id :| id in todo;
        todo := todo - {id};
        var task := db[id];
        if task.status.Processing? {
          stored := stored - {task.id};
        } else {
          tasks := tasks[task.id := task];
        }
      }
    }

    method UpdateBucket(task: Task)
      modifies this`stored
      ensures stored == old(stored)[task.id := task]
    {
      stored := stored[task.id := task];
    }

    method DeleteBucket(id: string)
      modifies this`stored
      ensures stored == old(stored) - {id}
    {
      stored := stored - {id};
    }

    /** Adds a task under a fresh id. */
    method Create(id: string, source: string, now: int)
      requires Valid()
      modifies this
      ensures Valid() && tasks == old(tasks)[id := NewTask(id, source, now)]
      ensures tasks[id].status == Processing && tasks[id].created == now && tasks[id].source == source
      ensures tasks[id].sourceSize == tasks[id].targetSize == 0 && tasks[id].reason == ""
    {
      var task := Task(id, now, 0, source, 0, 0, Processing, "");
      tasks := tasks[id := task];
      UpdateBucket(task);
      tasks := tasks[id := task];
    }

    /** Ends a task and evicts what has expired. An id that is not there panics in the write. */
    method Finish(id: string, metric: Option<Metric>, error: Option<string>, now: int, later: int)
      returns (panicked: bool)
      requires Valid()
      modifies this
      ensures Valid()
      ensures panicked <==> id !in old(tasks)
      ensures tasks == if panicked then old(tasks)
                       else Kept(old(tasks)[id := Ended(old(tasks)[id], metric, error, now)], later)
      ensures id in old(tasks) && id in tasks ==> Ends(old(tasks)[id], metric, error, now, tasks[id])
    {
      if id !in tasks {
        return true;
      }
      var task := tasks[id];
      if error.Some? {
        task := task.(status := Failed, reason := error.value);
      } else {
        task := task.(status := Completed);
      }
      if metric.Some? {
        task := task.(sourceSize := metric.value.sourceSize, targetSize := metric.value.targetSize);
      }
      task := task.(finished := now);
      tasks := tasks[id := task];
      UpdateBucket(task);
      Evict(later);
      return false;
    }

    /** The loop that evicts expired tasks, from memory and from the database. */
    method Evict(now: int)
      requires Valid()
      modifies this
      ensures Valid() && tasks == Kept(old(tasks), now)
    {
      ghost var all := tasks;
      var todo := tasks.Keys;
      while todo != {}
        invariant todo <= all.Keys && tasks == stored
        invariant tasks == map id | id in all && (id in todo || !Expired(all[id], now)) :: all[id]
      {
        var id :| id in todo;
        todo := todo - {id};
        if Expired(tasks[id], now) {
          tasks := tasks - {id};
          DeleteBucket(id);
        }
      }
    }
  }
}
