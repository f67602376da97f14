/** The two tables of one project store, reduced to immutable values.

    `task_info` holds one record per task and `task_ts` one row per clock-in or
    clock-out event. Both are kept in insertion (rowid) order, which is the order
    in which `SELECT` returns them. Storage itself is abstract and infallible.
 */
module Store {

  /** One row of `task_info`. */
  datatype TaskRecord = TaskRecord(id: int, name: string, description: string)

  /** One row of `task_ts`: an event for task `id` at unix second `timestamp`. */
  datatype Stamp = Stamp(id: int, timestamp: int)

  /** The whole store: both tables, in insertion order. */
  datatype Ledger = Ledger(tasks: seq<TaskRecord>, stamps: seq<Stamp>)

  /** A freshly created project: both tables empty. */
  const Empty: Ledger := Ledger([], [])

  /** The id column of `task_info`. */
  function TaskIds(tasks: seq<TaskRecord>): seq<int> {
    seq(|tasks|, i requires 0 <= i < |tasks| => tasks[i].id)
  }

  /** The id column of `task_ts`. */
  function StampIds(stamps: seq<Stamp>): seq<int> {
    seq(|stamps|, i requires 0 <= i < |stamps| => stamps[i].id)
  }

  /** The row positions at which `x` occurs in `xs`. */
  function Positions(xs: seq<int>, x: int): set<int> {
    set i | 0 <= i < |xs| && xs[i] == x
  }

  /** How many rows of a column equal `x`: what `SELECT COUNT(*) ... WHERE id=x` yields. */
  function Occurrences(xs: seq<int>, x: int): (n: nat)
    ensures n == |Positions(xs, x)|
    decreases |xs|
  {
    if |xs| == 0 then 0
    else
      PositionsOfPrefix(xs, x);
      Occurrences(xs[..|xs| - 1], x) + (if xs[|xs| - 1] == x then 1 else 0)
  }

  /** The positions of `x` in `xs` are those in its prefix, plus the last
      position when the last element is `x`. */
  lemma PositionsOfPrefix(xs: seq<int>, x: int)
    requires |xs| > 0
    ensures |Positions(xs, x)| ==
            |Positions(xs[..|xs| - 1], x)| + (if xs[|xs| - 1] == x then 1 else 0)
  {
    var pre := xs[..|xs| - 1];
    var last := |xs| - 1;
    assert last !in Positions(pre, x);
    if xs[last] == x {
      assert Positions(xs, x) == Positions(pre, x) + {last};
    } else {
      assert Positions(xs, x) == Positions(pre, x);
    }
  }

  /** True iff some task record carries `id`. */
  predicate HasTask(l: Ledger, id: int) {
    exists i :: 0 <= i < |l.tasks| && l.tasks[i].id == id
  }

  /** The store invariant: task ids are distinct (`id INTEGER PRIMARY KEY`),
      and every timestamp row refers to an existing task (the foreign key of
      `task_ts`, which sqlite does not enforce by default; the transitions keep
      it by checking existence before stamping). */
  ghost predicate Valid(l: Ledger) {
    && (forall i, j :: 0 <= i < j < |l.tasks| ==> l.tasks[i].id != l.tasks[j].id)
    && (forall k :: 0 <= k < |l.stamps| ==> HasTask(l, l.stamps[k].id))
  }

  /** The timestamps of task `id`, in insertion order: the rows of
      `SELECT * FROM task_ts WHERE id=@id`. */
  function TimesOf(stamps: seq<Stamp>, id: int): seq<int>
    decreases |stamps|
  {
    if |stamps| == 0 then []
    else
      var last := stamps[|stamps| - 1];
      TimesOf(stamps[..|stamps| - 1], id) + (if last.id == id then [last.timestamp] else [])
  }

  /** Appending a row extends the timestamps of its own id by its timestamp
      and leaves every other id's timestamps as they were. */
  lemma TimesOfSnoc(stamps: seq<Stamp>, s: Stamp)
    ensures forall id {:trigger TimesOf(stamps + [s], id)} ::
              TimesOf(stamps + [s], id) ==
              TimesOf(stamps, id) + (if s.id == id then [s.timestamp] else [])
  {
  }

  /** The number of timestamps of `id` is the number of rows carrying `id`. */
  lemma {:induction false} TimesOfCount(stamps: seq<Stamp>, id: int)
    ensures |TimesOf(stamps, id)| == Occurrences(StampIds(stamps), id)
    decreases |stamps|
  {
    if |stamps| > 0 {
      var pre := stamps[..|stamps| - 1];
      assert StampIds(pre) == StampIds(stamps)[..|stamps| - 1];
      TimesOfCount(pre, id);
    }
  }
}
