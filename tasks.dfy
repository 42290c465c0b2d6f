/** The task record of the to-do list and the look-ups every store operation
    starts with (`tasks.findIndex(task => task.id === taskId)`). */
module Tasks {

  datatype Option<T> = None | Some(value: T)

  datatype Priority = High | Medium | Low

  /** The value of the priority selects, which the search also matches. */
  function PriorityName(p: Priority): string {
    match p
    case High => "high"
    case Medium => "medium"
    case Low => "low"
  }

  /** `priorityOrder` of the list's sort: high first, low last. */
  function Rank(p: Priority): nat {
    match p
    case High => 0
    case Medium => 1
    case Low => 2
  }

  /** One to-do item. `id` comes from `Date.now()` at creation, `dueDate` is a
      day number, `createdAt` the creation timestamp as text. */
  datatype Task = Task(
    id: int,
    text: string,
    completed: bool,
    dueDate: int,
    priority: Priority,
    category: string,
    createdAt: string)

  /** The four values an add form or the edit dialog holds. */
  datatype Fields = Fields(text: string, dueDate: int, priority: Priority, category: string)

  /** `findIndex` by id: the position of the first task carrying `id`, or -1. */
  function FindIndex(s: seq<Task>, id: int): (r: int)
    ensures -1 <= r < |s|
    ensures r >= 0 ==> s[r].id == id && forall j :: 0 <= j < r ==> s[j].id != id
    ensures r == -1 <==> forall j :: 0 <= j < |s| ==> s[j].id != id
  {
    if s == [] then -1
    else if s[0].id == id then 0
    else
      var k := FindIndex(s[1..], id);
      assert forall j :: 1 <= j < |s| ==> s[j] == s[1..][j - 1];
      if k < 0 then -1 else k + 1
  }

  function IdsOf(s: seq<Task>): (ids: seq<int>)
    ensures |ids| == |s|
  {
    seq(|s|, i requires 0 <= i < |s| => s[i].id)
  }

  predicate UniqueIds(s: seq<Task>) {
    forall i, j :: 0 <= i < j < |s| ==> s[i].id != s[j].id
  }

  predicate Distinct(ids: seq<int>) {
    forall i, j :: 0 <= i < j < |ids| ==> ids[i] != ids[j]
  }

  /** With unique ids, looking up a task's own id finds that task. */
  lemma FindOwnId(s: seq<Task>, k: nat)
    requires UniqueIds(s) && k < |s|
    ensures FindIndex(s, s[k].id) == k
  {
  }

  /** The look-up depends on the ids alone, position by position. */
  lemma FindIndexSameIds(a: seq<Task>, b: seq<Task>, id: int)
    requires |a| == |b| && forall k :: 0 <= k < |a| ==> a[k].id == b[k].id
    ensures FindIndex(a, id) == FindIndex(b, id)
  {
  }
}
