/** Worked cases of the list's behaviour on three concrete tasks. */
module Examples {
  import opened Text
  import opened Tasks
  import opened Mutations
  import opened View

  /** High priority, incomplete, due on day 5. */
  function TaskA(): Task { Task(1, "Bank", false, 5, High, "work", "") }
  /** Low priority, incomplete, due on day 1. */
  function TaskB(): Task { Task(2, "Jog", false, 1, Low, "work", "") }
  /** High priority, completed, due on day 1. */
  function TaskC(): Task { Task(3, "Rent", true, 1, High, "personal", "") }

  /** Incomplete before completed; among the incomplete, high before low. */
  lemma SortExample()
    ensures Sort([TaskB(), TaskC(), TaskA()]) == [TaskA(), TaskB(), TaskC()]
  {
    var a, b, c := TaskA(), TaskB(), TaskC();
    SortCons(a, []);
    SortCons(c, [a]);
    SortCons(b, [c, a]);
    InsertExample();
  }

  lemma InsertExample()
    ensures Insert(TaskC(), [TaskA()]) == [TaskA(), TaskC()]
    ensures Insert(TaskB(), [TaskA(), TaskC()]) == [TaskA(), TaskB(), TaskC()]
  {
    var a, b, c := TaskA(), TaskB(), TaskC();
    assert Compare(c, a) > 0 && Compare(b, a) > 0 && Compare(b, c) <= 0;
    assert [a, c][1..] == [c];
    assert Insert(b, [c]) == [b, c];
  }

  /** Sorting a list puts its first task into the sorted rest. */
  lemma SortCons(x: Task, l: seq<Task>)
    ensures Sort([x] + l) == Insert(x, Sort(l))
  {
    assert ([x] + l)[1..] == l;
  }

  /** With no filter and no search the page shows that order. */
  lemma ShowAllExample()
    ensures Project([TaskB(), TaskC(), TaskA()], All, []) == [TaskA(), TaskB(), TaskC()]
  {
    SortExample();
    EmptySearchShowsAll([TaskB(), TaskC(), TaskA()]);
  }

  /** The `active` filter shows A and B. */
  lemma ActiveExample()
    ensures Project([TaskB(), TaskC(), TaskA()], Active, []) == [TaskA(), TaskB()]
  {
    var a, b, c := TaskA(), TaskB(), TaskC();
    ProjectExample(Active, []);
    NoSearch(a, Active);
    NoSearch(b, Active);
    NoSearch(c, Active);
    Pair(a, b);
  }

  /** The `completed` filter shows C. */
  lemma CompletedExample()
    ensures Project([TaskB(), TaskC(), TaskA()], Completed, []) == [TaskC()]
  {
    var a, b, c := TaskA(), TaskB(), TaskC();
    ProjectExample(Completed, []);
    NoSearch(a, Completed);
    NoSearch(b, Completed);
    NoSearch(c, Completed);
  }

  lemma Pair(x: Task, y: Task)
    ensures [x] + [y] + [] == [x, y]
  {
  }

  /** With an empty search box only the filter decides. */
  lemma NoSearch(t: Task, mode: FilterMode)
    ensures Shown(t, mode, []) == PassesMode(t, mode)
  {
    assert ToLower([]) == [];
  }

  /** "HIGH" matches A and C through their priority and nothing of B. */
  lemma SearchMatches()
    ensures Shown(TaskA(), All, "HIGH") && Shown(TaskC(), All, "HIGH")
    ensures !Shown(TaskB(), All, "HIGH")
  {
    var a, b, c := TaskA(), TaskB(), TaskC();
    assert ToLower("HIGH") == "high";
    assert ToLower("high") == "high";
    assert Contains("high", "high") by {
      assert "high"[..|"high"|] == "high";
    }
    assert |ToLower(b.text)| < 4 && |ToLower(PriorityName(b.priority))| < 4;
    assert !Contains(ToLower(b.category), "high") by {
      assert ToLower(b.category) == "work";
      assert "work"[..4] != "high" by { assert "work"[..4][0] != "high"[0]; }
      assert "work"[1..] == "ork";
      assert !Contains("ork", "high");
    }
  }

  /** Searching "HIGH" shows both high-priority tasks, in sorted order. */
  lemma SearchExample()
    ensures Project([TaskB(), TaskC(), TaskA()], All, "HIGH") == [TaskA(), TaskC()]
  {
    ProjectExample(All, "HIGH");
    SearchMatches();
  }

  /** Any filter and search on the three tasks filters their sorted order. */
  lemma ProjectExample(mode: FilterMode, search: string)
    ensures Project([TaskB(), TaskC(), TaskA()], mode, search)
      == (if Shown(TaskA(), mode, search) then [TaskA()] else [])
       + (if Shown(TaskB(), mode, search) then [TaskB()] else [])
       + (if Shown(TaskC(), mode, search) then [TaskC()] else [])
  {
    SortExample();
    VisibleOfThree(TaskA(), TaskB(), TaskC(), mode, search);
  }

  /** Filtering three tasks decides each of them in turn. */
  lemma VisibleOfThree(x: Task, y: Task, z: Task, mode: FilterMode, search: string)
    ensures Visible([x, y, z], mode, search)
      == (if Shown(x, mode, search) then [x] else [])
       + (if Shown(y, mode, search) then [y] else [])
       + (if Shown(z, mode, search) then [z] else [])
  {
    VisibleCons(z, [], mode, search);
    VisibleCons(y, [z], mode, search);
    VisibleCons(x, [y, z], mode, search);
  }

  /** A text of spaces, tabs and line breaks adds nothing. */
  lemma BlankAddExample(s: seq<Task>)
    ensures Added(s, Fields(" \t\n", 7, Medium, "personal"), 9, "") == s
  {
    assert AllSpace(" \t\n");
  }

  /** Dragging under the active filter: only the incomplete task is on the
      page, so the new order names it alone and the completed task is dropped
      from the list, while the counters drawn before the drag still show it. */
  lemma ReorderDropsHidden()
    ensures Project([TaskA(), TaskC()], Active, []) == [TaskA()]
    ensures Reordered([TaskA(), TaskC()], [1]) == [TaskA()]
    ensures ComputeStats([TaskA(), TaskC()]) == Stats(2, 1, 1)
    ensures ComputeStats([TaskA()]) == Stats(1, 0, 1)
  {
    ActiveOfTwo();
    ReorderOfOne();
    StatsOfTwo();
  }

  lemma ActiveOfTwo()
    ensures Project([TaskA(), TaskC()], Active, []) == [TaskA()]
  {
    var a, c := TaskA(), TaskC();
    SortOfTwo();
    assert Project([a, c], Active, []) == Visible([a, c], Active, []);
    NoSearch(a, Active);
    NoSearch(c, Active);
    VisibleCons(c, [], Active, []);
    VisibleCons(a, [c], Active, []);
  }

  lemma SortOfTwo()
    ensures Sort([TaskA(), TaskC()]) == [TaskA(), TaskC()]
  {
    var a, c := TaskA(), TaskC();
    SortCons(c, []);
    SortCons(a, [c]);
    assert Compare(a, c) <= 0;
  }

  lemma ReorderOfOne()
    ensures Reordered([TaskA(), TaskC()], [1]) == [TaskA()]
  {
    assert [1][..0] == [];
    assert FindIndex([TaskA(), TaskC()], 1) == 0;
  }

  lemma StatsOfTwo()
    ensures ComputeStats([TaskA(), TaskC()]) == Stats(2, 1, 1)
    ensures ComputeStats([TaskA()]) == Stats(1, 0, 1)
  {
    var a, c := TaskA(), TaskC();
    assert [a, c][1..] == [c] && [c][1..] == [] && [a][1..] == [];
  }
}
