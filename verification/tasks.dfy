/** State transitions of the ledger: creating a task, stamping it, and the
    guarded start/stop transitions. Every transition is a pure function from
    the store (and the wall-clock second `now`) to its outcome and the new
    store.
 */
module Tasks {
  import opened Store
  import opened TaskUtils

  /** `TASK_STATE` of tasks.h: the outcome of a start or stop request. */
  datatype TaskState = TaskOk | TaskNotExist | TaskWrongState

  /** The C enumerator value of each outcome. */
  function Code(s: TaskState): int {
    match s
    case TaskOk => 0
    case TaskNotExist => 1
    case TaskWrongState => 2
  }

  /** The result of a start or stop request: its outcome and the new store. */
  datatype Transition = Transition(state: TaskState, ledger: Ledger)

  /** The result of creating a task: its id and the new store. */
  datatype Created = Created(id: int, ledger: Ledger)

  /** `stamp_task`: append one `task_ts` row for `id` at second `now`. */
  function StampTask(l: Ledger, id: int, now: int): (l': Ledger)
    ensures l'.tasks == l.tasks
    ensures |l'.stamps| == |l.stamps| + 1 && l'.stamps[..|l.stamps|] == l.stamps
    ensures TimesOf(l'.stamps, id) == TimesOf(l.stamps, id) + [now]
    ensures NumTimestamps(l', id) == NumTimestamps(l, id) + 1
    ensures TaskIsOpen(l', id) <==> !TaskIsOpen(l, id)
    ensures forall other :: other != id ==> TimesOf(l'.stamps, other) == TimesOf(l.stamps, other)
    ensures forall other :: other != id ==> NumTimestamps(l', other) == NumTimestamps(l, other)
    ensures forall other :: other != id ==> (TaskIsOpen(l', other) <==> TaskIsOpen(l, other))
  {
    var s := Stamp(id, now);
    TimesOfSnoc(l.stamps, s);
    assert (l.stamps + [s])[..|l.stamps|] == l.stamps;
    Ledger(l.tasks, l.stamps + [s])
  }

  /** A stamp for `id` leaves the elapsed time of every other task unchanged. */
  lemma StampFrame(l: Ledger, id: int, now: int, other: int, at: int)
    requires other != id
    ensures ElapsedTime(StampTask(l, id, now), other, at) == ElapsedTime(l, other, at)
  {
  }

  /** `start_task`: fails if the task does not exist, then if it is open;
      otherwise stamps it, which opens it. */
  function StartTask(l: Ledger, id: int, now: int): (r: Transition)
    ensures TaskExists(l, id) != 1 ==> r.state == TaskNotExist
    ensures TaskExists(l, id) == 1 && TaskIsOpen(l, id) ==> r.state == TaskWrongState
    ensures r.state == TaskOk <==> TaskExists(l, id) == 1 && !TaskIsOpen(l, id)
    ensures r.state != TaskOk ==> r.ledger == l
    ensures r.state == TaskOk ==>
              && r.ledger.tasks == l.tasks
              && r.ledger.stamps == l.stamps + [Stamp(id, now)]
              && NumTimestamps(r.ledger, id) == NumTimestamps(l, id) + 1
              && TaskIsOpen(r.ledger, id)
    ensures Valid(l) ==> (r.state == TaskNotExist <==> !HasTask(l, id))
    ensures Valid(l) ==> Valid(r.ledger)
  {
    if TaskExists(l, id) != 1 then Transition(TaskNotExist, l)
    else if TaskIsOpen(l, id) then Transition(TaskWrongState, l)
    else Transition(TaskOk, StampTask(l, id, now))
  }

  /** `end_task`: fails if the task does not exist, then if it is not open
      (including a task with no timestamps); otherwise stamps it, which closes
      it. */
  function EndTask(l: Ledger, id: int, now: int): (r: Transition)
    ensures TaskExists(l, id) != 1 ==> r.state == TaskNotExist
    ensures TaskExists(l, id) == 1 && !TaskIsOpen(l, id) ==> r.state == TaskWrongState
    ensures r.state == TaskOk <==> TaskExists(l, id) == 1 && TaskIsOpen(l, id)
    ensures r.state != TaskOk ==> r.ledger == l
    ensures r.state == TaskOk ==>
              && r.ledger.tasks == l.tasks
              && r.ledger.stamps == l.stamps + [Stamp(id, now)]
              && NumTimestamps(r.ledger, id) == NumTimestamps(l, id) + 1
              && NumTimestamps(r.ledger, id) % 2 == 0
              && !TaskIsOpen(r.ledger, id)
    ensures Valid(l) ==> (r.state == TaskNotExist <==> !HasTask(l, id))
    ensures Valid(l) ==> Valid(r.ledger)
  {
    if TaskExists(l, id) != 1 then Transition(TaskNotExist, l)
    else if !TaskIsOpen(l, id) then Transition(TaskWrongState, l)
    else Transition(TaskOk, StampTask(l, id, now))
  }

  /** `create_task`: a new record with id one more than the largest id (1 on
      an empty registry), the given name and description, and no timestamps. */
  function CreateTask(l: Ledger, name: string, description: string): (r: Created)
    ensures r.id == MaxId(l) + 1
    ensures |l.tasks| == 0 ==> r.id == 1
    ensures forall i :: 0 <= i < |l.tasks| ==> l.tasks[i].id < r.id
    ensures r.ledger.tasks == l.tasks + [TaskRecord(r.id, name, description)]
    ensures r.ledger.stamps == l.stamps
    ensures HasTask(r.ledger, r.id)
    ensures Valid(l) ==>
              && Valid(r.ledger)
              && TaskExists(r.ledger, r.id) == 1
              && NumTimestamps(r.ledger, r.id) == 0
              && !TaskIsOpen(r.ledger, r.id)
  {
    var id := MaxId(l) + 1;
    var l' := Ledger(l.tasks + [TaskRecord(id, name, description)], l.stamps);
    assert l'.tasks[|l.tasks|].id == id;
    AppendKeepsTasks(l, TaskRecord(id, name, description));
    Created(id, l')
  }

  /** Appending a task record keeps every existing task, and every existing
      id is at most the largest one. */
  lemma AppendKeepsTasks(l: Ledger, rec: TaskRecord)
    ensures forall x :: HasTask(l, x) ==>
              HasTask(Ledger(l.tasks + [rec], l.stamps), x) && x <= MaxId(l)
  {
    forall x | HasTask(l, x)
      ensures HasTask(Ledger(l.tasks + [rec], l.stamps), x) && x <= MaxId(l)
    {
      var i :| 0 <= i < |l.tasks| && l.tasks[i].id == x;
      assert (l.tasks + [rec])[i].id == x;
    }
  }

  /** A successful start, as the scenarios below chain it: the task still
      exists, it is open, and its timestamps gain `t`. */
  lemma StartStep(l: Ledger, id: int, t: int)
    requires TaskExists(l, id) == 1 && !TaskIsOpen(l, id)
    ensures var r := StartTask(l, id, t);
            && r.state == TaskOk && TaskExists(r.ledger, id) == 1
            && TaskIsOpen(r.ledger, id)
            && TimesOf(r.ledger.stamps, id) == TimesOf(l.stamps, id) + [t]
  {
  }

  /** A successful stop, as the scenarios below chain it: the task still
      exists, it is closed, and its timestamps gain `t`. */
  lemma EndStep(l: Ledger, id: int, t: int)
    requires TaskExists(l, id) == 1 && TaskIsOpen(l, id)
    ensures var r := EndTask(l, id, t);
            && r.state == TaskOk && TaskExists(r.ledger, id) == 1
            && !TaskIsOpen(r.ledger, id)
            && TimesOf(r.ledger.stamps, id) == TimesOf(l.stamps, id) + [t]
  {
  }

  /** Starting and then stopping a closed task succeeds twice, adds exactly
      two timestamps and leaves it closed. */
  lemma StartEndRoundTrip(l: Ledger, id: int, t1: int, t2: int)
    requires TaskExists(l, id) == 1 && !TaskIsOpen(l, id)
    ensures var s := StartTask(l, id, t1);
            var e := EndTask(s.ledger, id, t2);
            && s.state == TaskOk && e.state == TaskOk
            && NumTimestamps(e.ledger, id) == NumTimestamps(l, id) + 2
            && !TaskIsOpen(e.ledger, id)
  {
  }

  /** A task with no timestamps, started at `t1` and stopped at `t2`, has
      been active for `t2 - t1` seconds. */
  lemma OneSession(l: Ledger, id: int, t1: int, t2: int, now: int)
    requires TaskExists(l, id) == 1 && TimesOf(l.stamps, id) == []
    ensures var s := StartTask(l, id, t1);
            var e := EndTask(s.ledger, id, t2);
            && s.state == TaskOk && e.state == TaskOk
            && TaskExists(e.ledger, id) == 1
            && |TimesOf(e.ledger.stamps, id)| == 2 && !TaskIsOpen(e.ledger, id)
            && TimesOf(e.ledger.stamps, id)[0] == t1
            && TimesOf(e.ledger.stamps, id)[1] == t2
            && ElapsedTime(e.ledger, id, now) == t2 - t1
  {
    StartStep(l, id, t1);
    var s := StartTask(l, id, t1);
    EndStep(s.ledger, id, t2);
    var e := EndTask(s.ledger, id, t2);
    ElapsedOneSession(e.ledger, id, now);
  }

  /** A freshly created task started at `t1` and stopped at `t2` has been
      active for `t2 - t1` seconds; in particular 0 when both happen in the
      same second. */
  lemma FreshPairElapsed(l: Ledger, name: string, description: string, t1: int, t2: int, now: int)
    requires Valid(l)
    ensures var c := CreateTask(l, name, description);
            var s := StartTask(c.ledger, c.id, t1);
            var e := EndTask(s.ledger, c.id, t2);
            && s.state == TaskOk && e.state == TaskOk
            && ElapsedTime(e.ledger, c.id, now) == t2 - t1
  {
    var c := CreateTask(l, name, description);
    assert TimesOf(c.ledger.stamps, c.id) == [];
    OneSession(c.ledger, c.id, t1, t2, now);
  }

  /** A task with no timestamps, started at `t1`, stopped at `t2` and started
      again at `t3`: the elapsed time at `now` is the first session plus the
      running one. */
  lemma SessionThenRunning(l: Ledger, id: int, t1: int, t2: int, t3: int, now: int)
    requires TaskExists(l, id) == 1 && TimesOf(l.stamps, id) == []
    ensures var s1 := StartTask(l, id, t1);
            var e1 := EndTask(s1.ledger, id, t2);
            var s2 := StartTask(e1.ledger, id, t3);
            && s2.state == TaskOk
            && ElapsedTime(s2.ledger, id, now) == (t2 - t1) + (now - t3)
  {
    OneSession(l, id, t1, t2, now);
    var e1 := EndTask(StartTask(l, id, t1).ledger, id, t2);
    StartStep(e1.ledger, id, t3);
    var s2 := StartTask(e1.ledger, id, t3);
    ElapsedSessionThenRunning(s2.ledger, id, now);
  }

  /** Create, start at `t1`, stop at `t2`, start again at `t3`: the elapsed
      time at `now` is the first session plus the running one. */
  lemma OpenTaskElapsed(l: Ledger, name: string, description: string, t1: int, t2: int, t3: int, now: int)
    requires Valid(l)
    ensures var c := CreateTask(l, name, description);
            var s1 := StartTask(c.ledger, c.id, t1);
            var e1 := EndTask(s1.ledger, c.id, t2);
            var s2 := StartTask(e1.ledger, c.id, t3);
            && s2.state == TaskOk
            && ElapsedTime(s2.ledger, c.id, now) == (t2 - t1) + (now - t3)
  {
    var c := CreateTask(l, name, description);
    assert TimesOf(c.ledger.stamps, c.id) == [];
    SessionThenRunning(c.ledger, c.id, t1, t2, t3, now);
  }

  /** The integer `start_task` returns as written: 1 from both failure
      branches, and `stamp_task`'s SQLITE_OK (0) on success. It agrees with
      the `TASK_STATE` code of the outcome except in the wrong-state case. */
  function StartTaskReturnCode(l: Ledger, id: int, now: int): (code: int)
    ensures code == 0 <==> StartTask(l, id, now).state == TaskOk
    ensures code == Code(StartTask(l, id, now).state) <==>
            StartTask(l, id, now).state != TaskWrongState
    ensures StartTask(l, id, now).state != TaskOk ==> code == Code(TaskNotExist)
  {
    if TaskExists(l, id) != 1 then 1
    else if TaskIsOpen(l, id) then 1
    else 0
  }

  /** The integer `end_task` returns as written; see `StartTaskReturnCode`. */
  function EndTaskReturnCode(l: Ledger, id: int, now: int): (code: int)
    ensures code == 0 <==> EndTask(l, id, now).state == TaskOk
    ensures code == Code(EndTask(l, id, now).state) <==>
            EndTask(l, id, now).state != TaskWrongState
    ensures EndTask(l, id, now).state != TaskOk ==> code == Code(TaskNotExist)
  {
    if TaskExists(l, id) != 1 then 1
    else if !TaskIsOpen(l, id) then 1
    else 0
  }

  /** The test suite's start/stop sequence up to its first session: on a
      cleared store, one task is created, which gets id 1, then started at
      `t1` and stopped at `t2`. Both succeed, the task exists with two
      timestamps and is closed, and no task has the id -1. */
  lemma TestSessionStore(l: Ledger, name: string, description: string, t1: int, t2: int)
    requires l.tasks == [] && l.stamps == []
    ensures var c := CreateTask(l, name, description);
            var s := StartTask(c.ledger, 1, t1);
            var e := EndTask(s.ledger, 1, t2);
            && c.id == 1 && s.state == TaskOk && e.state == TaskOk
            && TaskExists(e.ledger, 1) == 1 && NumTimestamps(e.ledger, 1) == 2
            && !TaskIsOpen(e.ledger, 1) && !HasTask(e.ledger, -1)
  {
  }

  /** The wrong-state requests of the test suite's start/stop sequence,
      replayed on the store `TestSessionStore` describes: a start and a stop
      of the unknown id -1 fail with TASK_NOT_EXIST; stopping task 1 again
      (it has two timestamps) and, after one more start at `t4`, starting it
      again (it has three) are wrong-state requests. As written both return
      1, the code of TASK_NOT_EXIST, where TASK_WRONG_STATE (2) is expected;
      the outcome of `EndTask` and `StartTask` carries the intended code. */
  lemma CollapsedFailureCodes(l: Ledger, name: string, description: string,
                              t1: int, t2: int, t3: int, t4: int, t5: int)
    requires l.tasks == [] && l.stamps == []
    ensures var c := CreateTask(l, name, description);
            var e := EndTask(StartTask(c.ledger, 1, t1).ledger, 1, t2);
            && StartTask(e.ledger, -1, t3).state == TaskNotExist
            && EndTask(e.ledger, -1, t3).state == TaskNotExist
            && EndTaskReturnCode(e.ledger, 1, t3) == Code(TaskNotExist)
            && EndTask(e.ledger, 1, t3).state == TaskWrongState
            && Code(TaskWrongState) == 2
    ensures var c := CreateTask(l, name, description);
            var e := EndTask(StartTask(c.ledger, 1, t1).ledger, 1, t2);
            var s := StartTask(e.ledger, 1, t4);
            && s.state == TaskOk && NumTimestamps(s.ledger, 1) == 3
            && StartTaskReturnCode(s.ledger, 1, t5) == Code(TaskNotExist)
            && StartTask(s.ledger, 1, t5).state == TaskWrongState
  {
  }
}
