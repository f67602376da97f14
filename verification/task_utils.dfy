/** Read-only queries over the store: timestamp counts, the open/closed state
    derived from their parity, task existence, the largest task id, the list of
    open tasks, and the elapsed-time reduction.
 */
module TaskUtils {
  import opened Store

  /** `get_num_timestamps`: the number of `task_ts` rows for `id`, which is
      the number of timestamps the task has. */
  function NumTimestamps(l: Ledger, id: int): (n: nat)
    ensures n == |TimesOf(l.stamps, id)|
    ensures n == 0 <==> forall k :: 0 <= k < |l.stamps| ==> l.stamps[k].id != id
  {
    NumTimestampsCountsRows(l, id);
    Occurrences(StampIds(l.stamps), id)
  }

  /** The timestamp count is the number of row positions whose id is `id`,
      so it is 0 exactly when no row carries `id`. */
  lemma NumTimestampsCountsRows(l: Ledger, id: int)
    ensures Occurrences(StampIds(l.stamps), id) == |TimesOf(l.stamps, id)|
    ensures Occurrences(StampIds(l.stamps), id) == 0 <==>
            forall k :: 0 <= k < |l.stamps| ==> l.stamps[k].id != id
  {
    TimesOfCount(l.stamps, id);
    var ids := StampIds(l.stamps);
    if exists k :: 0 <= k < |l.stamps| && l.stamps[k].id == id {
      var k :| 0 <= k < |l.stamps| && l.stamps[k].id == id;
      assert k in Positions(ids, id);
    } else {
      assert Positions(ids, id) == {};
    }
  }

  /** `task_is_open`: a task is open exactly when it has an odd number of
      timestamps; with none at all it is closed. */
  function TaskIsOpen(l: Ledger, id: int): (open: bool)
    ensures open <==> |TimesOf(l.stamps, id)| % 2 == 1
    ensures (forall k :: 0 <= k < |l.stamps| ==> l.stamps[k].id != id) ==> !open
  {
    NumTimestamps(l, id) % 2 != 0
  }

  /** `task_exists`: the number of `task_info` records for `id`. The callers
      treat exactly one as "exists"; since ids are a primary key, the count is
      never more than one. */
  function TaskExists(l: Ledger, id: int): (n: nat)
    ensures n == 0 <==> !HasTask(l, id)
    ensures Valid(l) ==> n <= 1
    ensures Valid(l) ==> (n == 1 <==> HasTask(l, id))
  {
    TaskExistsCountsRecords(l, id);
    Occurrences(TaskIds(l.tasks), id)
  }

  /** The existence count is the number of record positions whose id is
      `id`: none when no record has it, and exactly one under the primary-key
      invariant when one does. */
  lemma TaskExistsCountsRecords(l: Ledger, id: int)
    ensures Occurrences(TaskIds(l.tasks), id) == 0 <==> !HasTask(l, id)
    ensures Valid(l) && HasTask(l, id) ==> Occurrences(TaskIds(l.tasks), id) == 1
  {
    var ids := TaskIds(l.tasks);
    if HasTask(l, id) {
      var i :| 0 <= i < |l.tasks| && l.tasks[i].id == id;
      assert i in Positions(ids, id);
      if Valid(l) {
        assert Positions(ids, id) == {i};
      }
    } else {
      assert Positions(ids, id) == {};
    }
  }

  /** `get_max_id`: `SELECT MAX(id)` over `task_info`. On an empty table MAX is
      NULL, which `sqlite3_column_int` reads as 0. */
  function MaxId(l: Ledger): (m: int)
    ensures |l.tasks| == 0 ==> m == 0
    ensures |l.tasks| > 0 ==> HasTask(l, m)
    ensures forall i :: 0 <= i < |l.tasks| ==> l.tasks[i].id <= m
    decreases |l.tasks|
  {
    if |l.tasks| == 0 then 0
    else
      var last := l.tasks[|l.tasks| - 1].id;
      var pre := Ledger(l.tasks[..|l.tasks| - 1], l.stamps);
      if |pre.tasks| == 0 then last
      else
        var m := MaxId(pre);
        if m < last then last else m
  }

  /** `print_open_tasks`: the ids from 0 to the largest task id, in ascending
      order, whose task is open. */
  method OpenTasks(l: Ledger) returns (open: seq<int>)
    ensures forall a, b :: 0 <= a < b < |open| ==> open[a] < open[b]
    ensures forall id :: id in open <==> 0 <= id <= MaxId(l) && TaskIsOpen(l, id)
    ensures (forall id :: !TaskIsOpen(l, id)) ==> open == []
  {
    var max := MaxId(l);
    open := [];
    var id := 0;
    while id <= max
      invariant 0 <= id && (id == 0 || id <= max + 1)
      invariant forall a, b :: 0 <= a < b < |open| ==> open[a] < open[b]
      invariant forall k :: 0 <= k < |open| ==> open[k] < id
      invariant forall x :: x in open <==> 0 <= x < id && TaskIsOpen(l, x)
    {
      if TaskIsOpen(l, id) {
        open := open + [id];
      }
      id := id + 1;
    }
    if open != [] {
      assert TaskIsOpen(l, open[0]);
    }
  }

  /** Timestamp `t` at 0-based row position `k`, multiplied by the sign
      `get_elapsed_time` holds at that row: the sign starts at -1 and flips
      after every row, so even positions (starts) count negatively. */
  function Signed(k: nat, t: int): int {
    if k % 2 == 0 then -t else t
  }

  /** The row-by-row accumulation of `get_elapsed_time` over the first `n`
      rows of `ts`: each timestamp is added with the sign of its row. */
  function AlternatingSum(ts: seq<int>, n: nat): int
    requires n <= |ts|
  {
    if n == 0 then 0 else AlternatingSum(ts, n - 1) + Signed(n - 1, ts[n - 1])
  }

  /** Reference definition: the total of stop minus start over the first `k`
      start/stop pairs (t0, t1), (t2, t3), ..., that is, the sum of
      `t(2i+1) - t(2i)` for `i < k`. */
  function PairSum(ts: seq<int>, k: nat): int
    requires 2 * k <= |ts|
  {
    if k == 0 then 0 else PairSum(ts, k - 1) + (ts[2 * k - 1] - ts[2 * k - 2])
  }

  /** The alternating fold over the first `n` rows equals the sum over the
      complete pairs among them, less the trailing unmatched start when `n` is
      odd. */
  lemma {:induction false} AlternatingSumClosedForm(ts: seq<int>, n: nat)
    requires n <= |ts|
    ensures AlternatingSum(ts, n) ==
            PairSum(ts, n / 2) - (if n % 2 == 1 then ts[n - 1] else 0)
  {
    if n > 0 {
      AlternatingSumClosedForm(ts, n - 1);
      if n % 2 == 1 {
        assert (n - 1) / 2 == n / 2;
      } else {
        assert (n - 1) / 2 == n / 2 - 1;
        assert 2 * (n / 2) == n;
      }
    }
  }

  /** `get_elapsed_time`: the alternating fold over all of the task's
      timestamps, plus the current time `now` when the task is open. The
      existence of the task is not checked, so an id without rows yields 0. */
  function ElapsedTime(l: Ledger, id: int, now: int): (t: int)
    ensures var ts := TimesOf(l.stamps, id);
            && (|ts| % 2 == 0 ==> t == PairSum(ts, |ts| / 2))
            && (|ts| % 2 == 1 ==> t == PairSum(ts, |ts| / 2) + (now - ts[|ts| - 1]))
    ensures NumTimestamps(l, id) == 0 ==> t == 0
  {
    var ts := TimesOf(l.stamps, id);
    AlternatingSumClosedForm(ts, |ts|);
    AlternatingSum(ts, |ts|) + (if TaskIsOpen(l, id) then now else 0)
  }

  /** One complete session: the elapsed time is its stop minus its start. */
  lemma ElapsedOneSession(l: Ledger, id: int, now: int)
    requires |TimesOf(l.stamps, id)| == 2
    ensures var ts := TimesOf(l.stamps, id);
            ElapsedTime(l, id, now) == ts[1] - ts[0]
  {
    var ts := TimesOf(l.stamps, id);
    assert PairSum(ts, 1) == ts[1] - ts[0];
  }

  /** One complete session followed by a running one: the first session's
      duration plus the time since the running one started. */
  lemma ElapsedSessionThenRunning(l: Ledger, id: int, now: int)
    requires |TimesOf(l.stamps, id)| == 3
    ensures var ts := TimesOf(l.stamps, id);
            ElapsedTime(l, id, now) == (ts[1] - ts[0]) + (now - ts[2])
  {
    var ts := TimesOf(l.stamps, id);
    assert PairSum(ts, 1) == ts[1] - ts[0];
  }

  /** Over nondecreasing timestamps every pair contributes a non-negative
      duration. */
  lemma {:induction false} PairSumNonNegative(ts: seq<int>, k: nat)
    requires 2 * k <= |ts|
    requires forall i, j :: 0 <= i < j < |ts| ==> ts[i] <= ts[j]
    ensures PairSum(ts, k) >= 0
  {
    if k > 0 {
      PairSumNonNegative(ts, k - 1);
      assert ts[2 * k - 2] <= ts[2 * k - 1];
    }
  }

  /** For a well-formed log (timestamps never decrease, and `now` is not
      before the last one) the elapsed time is never negative. */
  lemma ElapsedNonNegative(l: Ledger, id: int, now: int)
    requires var ts := TimesOf(l.stamps, id);
             forall i, j :: 0 <= i < j < |ts| ==> ts[i] <= ts[j]
    requires var ts := TimesOf(l.stamps, id);
             |ts| > 0 ==> ts[|ts| - 1] <= now
    ensures ElapsedTime(l, id, now) >= 0
  {
    var ts := TimesOf(l.stamps, id);
    PairSumNonNegative(ts, |ts| / 2);
  }
}
