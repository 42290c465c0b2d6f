/** What `renderAllTasks`, `updateStats` and `checkEmptyState` compute from the
    task list: the sorted and filtered list the page shows, the counters and
    whether the empty-state message is visible. */
module View {
  import opened Text
  import opened Tasks

  /** The value of the pressed filter button. */
  datatype FilterMode = All | Active | Completed

  // ---------------------------------------------------------------- order

  /** The comparator handed to `sort`: negative when `a` goes first. */
  function Compare(a: Task, b: Task): int {
    if a.completed != b.completed then (if a.completed then 1 else -1)
    else if a.priority != b.priority then Rank(a.priority) - Rank(b.priority)
    else a.dueDate - b.dueDate
  }

  /** The intended order, key by key: incomplete before completed, then by
      priority rank, then by ascending due date. */
  predicate InOrder(a: Task, b: Task) {
    if a.completed != b.completed then !a.completed
    else if Rank(a.priority) != Rank(b.priority) then Rank(a.priority) < Rank(b.priority)
    else a.dueDate <= b.dueDate
  }

  /** Two tasks the comparator cannot tell apart. */
  predicate SameKeys(a: Task, b: Task) {
    a.completed == b.completed && a.priority == b.priority && a.dueDate == b.dueDate
  }

  /** The comparator is consistent: it orders by the three keys in turn, it is
      antisymmetric, and it reports 0 exactly for equal keys. */
  lemma CompareMeansKeyOrder(a: Task, b: Task)
    ensures Compare(a, b) <= 0 <==> InOrder(a, b)
    ensures Compare(a, b) == 0 <==> SameKeys(a, b)
    ensures Compare(a, b) == -Compare(b, a)
  {
  }

  /** The key order is a total preorder. */
  lemma InOrderTotalPreorder(a: Task, b: Task, c: Task)
    ensures InOrder(a, b) || InOrder(b, a)
    ensures InOrder(a, b) && InOrder(b, c) ==> InOrder(a, c)
  {
  }

  predicate Sorted(s: seq<Task>) {
    forall i, j :: 0 <= i < j < |s| ==> InOrder(s[i], s[j])
  }

  /** One step of a stable insertion sort: `x` goes before the first task it
      does not compare after. */
  function Insert(x: Task, l: seq<Task>): seq<Task> {
    if l == [] then [x]
    else if Compare(x, l[0]) <= 0 then [x] + l
    else [l[0]] + Insert(x, l[1..])
  }

  /** Inserting adds `x` and loses nothing. */
  lemma {:induction false} InsertMultiset(x: Task, l: seq<Task>)
    ensures multiset(Insert(x, l)) == multiset(l) + multiset{x}
  {
    if l != [] && Compare(x, l[0]) > 0 {
      InsertMultiset(x, l[1..]);
      assert l == [l[0]] + l[1..];
    }
  }

  lemma {:induction false} InsertSorted(x: Task, l: seq<Task>)
    requires Sorted(l)
    ensures Sorted(Insert(x, l))
  {
    if l != [] {
      CompareMeansKeyOrder(x, l[0]);
      if Compare(x, l[0]) <= 0 {
        forall j | 0 <= j < |l| ensures InOrder(x, l[j]) {
          InOrderTotalPreorder(x, l[0], l[j]);
        }
        SortedCons(x, l);
      } else {
        var rest := Insert(x, l[1..]);
        InsertSorted(x, l[1..]);
        InsertMultiset(x, l[1..]);
        forall e | e in rest ensures InOrder(l[0], e) {
          assert e in multiset(rest);
          if e != x {
            var j :| 0 <= j < |l[1..]| && l[1..][j] == e;
            assert l[j + 1] == e;
          }
        }
        forall j | 0 <= j < |rest| ensures InOrder(l[0], rest[j]) {
          assert rest[j] in rest;
        }
        SortedCons(l[0], rest);
      }
    }
  }

  /** A task in order with every task of a sorted list may lead it. */
  lemma SortedCons(x: Task, l: seq<Task>)
    requires Sorted(l) && forall j :: 0 <= j < |l| ==> InOrder(x, l[j])
    ensures Sorted([x] + l)
  {
    var r := [x] + l;
    forall i, j | 0 <= i < j < |r| ensures InOrder(r[i], r[j]) {
      if i == 0 { assert r[j] == l[j - 1]; } else { assert r[i] == l[i - 1] && r[j] == l[j - 1]; }
    }
  }

  /** `[...tasks].sort(Compare)`: the tasks rearranged into key order. */
  function Sort(s: seq<Task>): (r: seq<Task>)
    ensures multiset(r) == multiset(s)
    ensures Sorted(r)
  {
    if s == [] then []
    else
      var rest := Sort(s[1..]);
      InsertSorted(s[0], rest);
      InsertMultiset(s[0], rest);
      assert s == [s[0]] + s[1..];
      Insert(s[0], rest)
  }

  /** The tasks of `s` whose keys equal those of `t`, in their order in `s`. */
  function WithKeysOf(s: seq<Task>, t: Task): seq<Task> {
    if s == [] then []
    else (if SameKeys(s[0], t) then [s[0]] else []) + WithKeysOf(s[1..], t)
  }

  /** Inserting `x` puts it after every task it compares after, so among the
      tasks with the keys of `t` it comes first. */
  lemma {:induction false} InsertStable(x: Task, l: seq<Task>, t: Task)
    ensures WithKeysOf(Insert(x, l), t) == WithKeysOf([x], t) + WithKeysOf(l, t)
  {
    if l == [] {
      WithKeysCons(x, [], t);
    } else if Compare(x, l[0]) <= 0 {
      WithKeysCons(x, l, t);
    } else {
      InsertStable(x, l[1..], t);
      InsertStableStep(x, l, t);
    }
  }

  /** The step of `InsertStable` where `x` goes past the head of `l`: the head
      and `x` cannot both have the keys of `t`, so their order does not matter. */
  lemma InsertStableStep(x: Task, l: seq<Task>, t: Task)
    requires l != [] && Compare(x, l[0]) > 0
    requires WithKeysOf(Insert(x, l[1..]), t) == WithKeysOf([x], t) + WithKeysOf(l[1..], t)
    ensures WithKeysOf(Insert(x, l), t) == WithKeysOf([x], t) + WithKeysOf(l, t)
  {
    var rest := Insert(x, l[1..]);
    assert Insert(x, l) == [l[0]] + rest;
    assert l == [l[0]] + l[1..];
    WithKeysCons(l[0], rest, t);
    WithKeysCons(l[0], l[1..], t);
    WithKeysCons(x, [], t);
    CompareMeansKeyOrder(x, l[0]);
    assert !(SameKeys(x, t) && SameKeys(l[0], t));
    SwapAroundEmpty(WithKeysOf([l[0]], t), WithKeysOf([x], t), WithKeysOf(l[1..], t));
  }

  lemma SwapAroundEmpty(h: seq<Task>, a: seq<Task>, r: seq<Task>)
    requires h == [] || a == []
    ensures h + (a + r) == a + (h + r)
  {
    if h == [] {
      assert h + (a + r) == a + r == a + (h + r);
    } else {
      assert h + (a + r) == h + r == a + (h + r);
    }
  }

  /** Picking by keys decides the first task, then picks from the rest. */
  lemma WithKeysCons(x: Task, l: seq<Task>, t: Task)
    ensures WithKeysOf([x] + l, t) == WithKeysOf([x], t) + WithKeysOf(l, t)
    ensures WithKeysOf([x], t) == if SameKeys(x, t) then [x] else []
  {
    assert ([x] + l)[1..] == l;
    assert [x][1..] == [];
  }

  /** The sort is stable: tasks with equal keys keep their relative order. */
  lemma {:induction false} SortStable(s: seq<Task>, t: Task)
    ensures WithKeysOf(Sort(s), t) == WithKeysOf(s, t)
  {
    if s != [] {
      SortStable(s[1..], t);
      assert Sort(s) == Insert(s[0], Sort(s[1..]));
      InsertStable(s[0], Sort(s[1..]), t);
      assert WithKeysOf([s[0]], t) == if SameKeys(s[0], t) then [s[0]] else [];
    }
  }

  // ---------------------------------------------------------------- filter

  predicate PassesMode(t: Task, mode: FilterMode) {
    match mode
    case All => true
    case Active => !t.completed
    case Completed => t.completed
  }

  /** A search term that lower-cases to nothing keeps everything; otherwise the
      lower-cased text, category or priority name must contain it. */
  predicate MatchesSearch(t: Task, search: string) {
    var term := ToLower(search);
    || term == []
    || Contains(ToLower(t.text), term)
    || Contains(ToLower(t.category), term)
    || Contains(ToLower(PriorityName(t.priority)), term)
  }

  /** The predicate given to `filter` in `renderAllTasks` and `checkEmptyState`. */
  predicate Shown(t: Task, mode: FilterMode, search: string) {
    PassesMode(t, mode) && MatchesSearch(t, search)
  }

  /** The tasks of `s` that pass the filter, in their order in `s`. */
  function Visible(s: seq<Task>, mode: FilterMode, search: string): (r: seq<Task>)
    ensures |r| <= |s|
    ensures forall k :: 0 <= k < |r| ==> Shown(r[k], mode, search)
  {
    if s == [] then []
    else
      var rest := Visible(s[1..], mode, search);
      (if Shown(s[0], mode, search) then [s[0]] else []) + rest
  }

  /** What the filter keeps was in the list. */
  lemma VisibleFrom(s: seq<Task>, mode: FilterMode, search: string, t: Task)
    requires t in Visible(s, mode, search)
    ensures t in s
  {
    VisibleMultiset(s, mode, search, t);
    assert t in multiset(Visible(s, mode, search));
  }

  /** Filtering keeps each passing task as often as it occurs and drops the rest. */
  lemma {:induction false} VisibleMultiset(s: seq<Task>, mode: FilterMode, search: string, t: Task)
    ensures multiset(Visible(s, mode, search))[t] == if Shown(t, mode, search) then multiset(s)[t] else 0
  {
    if s != [] {
      VisibleMultiset(s[1..], mode, search, t);
      var rest := Visible(s[1..], mode, search);
      assert multiset(s) == multiset{s[0]} + multiset(s[1..]) by {
        assert s == [s[0]] + s[1..];
      }
      if Shown(s[0], mode, search) {
        assert multiset(Visible(s, mode, search)) == multiset{s[0]} + multiset(rest);
        if !Shown(t, mode, search) { assert t != s[0]; }
      } else {
        assert Visible(s, mode, search) == rest;
        if Shown(t, mode, search) { assert t != s[0]; }
      }
    }
  }

  /** Filters of two permutations of each other are permutations of each other. */
  lemma VisiblePermutation(a: seq<Task>, b: seq<Task>, mode: FilterMode, search: string)
    requires multiset(a) == multiset(b)
    ensures multiset(Visible(a, mode, search)) == multiset(Visible(b, mode, search))
  {
    forall t ensures multiset(Visible(a, mode, search))[t] == multiset(Visible(b, mode, search))[t] {
      VisibleMultiset(a, mode, search, t);
      VisibleMultiset(b, mode, search, t);
    }
  }

  /** Filtering a sorted list leaves it sorted. */
  lemma {:induction false} VisibleSorted(s: seq<Task>, mode: FilterMode, search: string)
    requires Sorted(s)
    ensures Sorted(Visible(s, mode, search))
  {
    if s != [] {
      var rest := Visible(s[1..], mode, search);
      VisibleSorted(s[1..], mode, search);
      if Shown(s[0], mode, search) {
        forall j | 0 <= j < |rest| ensures InOrder(s[0], rest[j]) {
          VisibleFrom(s[1..], mode, search, rest[j]);
          var i :| 0 <= i < |s[1..]| && s[1..][i] == rest[j];
          assert s[i + 1] == rest[j];
        }
        SortedCons(s[0], rest);
      }
    }
  }

  /** What the filter keeps of one task. */
  function Kept(x: Task, mode: FilterMode, search: string): seq<Task> {
    if Shown(x, mode, search) then [x] else []
  }

  /** Filtering a list decides its first task, then filters the rest. */
  lemma VisibleCons(x: Task, l: seq<Task>, mode: FilterMode, search: string)
    ensures Visible([x] + l, mode, search) == Kept(x, mode, search) + Visible(l, mode, search)
  {
    assert ([x] + l)[1..] == l;
  }

  lemma Assoc(h: seq<Task>, a: seq<Task>, b: seq<Task>)
    ensures h + (a + b) == (h + a) + b
  {
  }

  /** Filtering works piece by piece, so the kept tasks keep their relative order. */
  lemma {:induction false} VisibleConcat(a: seq<Task>, b: seq<Task>, mode: FilterMode, search: string)
    ensures Visible(a + b, mode, search) == Visible(a, mode, search) + Visible(b, mode, search)
  {
    if a == [] {
      assert a + b == b;
    } else {
      var x, l := a[0], a[1..];
      assert a == [x] + l;
      assert a + b == [x] + (l + b);
      VisibleConcat(l, b, mode, search);
      VisibleCons(x, l + b, mode, search);
      VisibleCons(x, l, mode, search);
      Assoc(Kept(x, mode, search), Visible(l, mode, search), Visible(b, mode, search));
    }
  }

  /** Picking the tasks with the keys of `t` and filtering commute. */
  lemma {:induction false} VisibleWithKeys(s: seq<Task>, mode: FilterMode, search: string, t: Task)
    ensures WithKeysOf(Visible(s, mode, search), t) == Visible(WithKeysOf(s, t), mode, search)
  {
    if s != [] {
      var x, rest := s[0], s[1..];
      assert s == [x] + rest;
      VisibleWithKeys(rest, mode, search, t);
      VisibleCons(x, rest, mode, search);
      WithKeysCons(x, rest, t);
      var v, w := Visible(rest, mode, search), WithKeysOf(rest, t);
      if Shown(x, mode, search) {
        assert Visible(s, mode, search) == [x] + v;
        WithKeysCons(x, v, t);
        if SameKeys(x, t) {
          VisibleCons(x, w, mode, search);
        } else {
          assert WithKeysOf(s, t) == w;
        }
      } else {
        assert Visible(s, mode, search) == v;
        if SameKeys(x, t) {
          VisibleCons(x, w, mode, search);
        } else {
          assert WithKeysOf(s, t) == w;
        }
      }
    }
  }

  /** The drawn list keeps tasks with equal keys in their order in the list:
      among the tasks with the keys of `t`, it shows those that pass the filter,
      in list order. */
  lemma ProjectStable(s: seq<Task>, mode: FilterMode, search: string, t: Task)
    ensures WithKeysOf(Project(s, mode, search), t) == Visible(WithKeysOf(s, t), mode, search)
  {
    assert Project(s, mode, search) == Visible(Sort(s), mode, search);
    VisibleWithKeys(Sort(s), mode, search, t);
    SortStable(s, t);
  }

  /** `renderAllTasks`: the whole list sorted, then filtered. The result is in
      key order, holds exactly the tasks that pass the filter, and holds each as
      often as the list does. */
  function Project(s: seq<Task>, mode: FilterMode, search: string): (r: seq<Task>)
    ensures Sorted(r)
    ensures multiset(r) == multiset(Visible(s, mode, search))
    ensures forall t :: t in r <==> t in s && Shown(t, mode, search)
  {
    var sorted := Sort(s);
    VisibleSorted(sorted, mode, search);
    VisiblePermutation(sorted, s, mode, search);
    var r := Visible(sorted, mode, search);
    assert forall t :: t in r <==> t in s && Shown(t, mode, search) by {
      forall t ensures t in r <==> t in s && Shown(t, mode, search) {
        VisibleMultiset(s, mode, search, t);
        assert t in r <==> t in multiset(r);
        assert t in s <==> t in multiset(s);
      }
    }
    r
  }

  /** With the `all` filter and no search term, the page shows every task, sorted. */
  lemma EmptySearchShowsAll(s: seq<Task>)
    ensures Project(s, All, []) == Sort(s)
  {
    VisibleKeepsAll(Sort(s));
  }

  lemma {:induction false} VisibleKeepsAll(s: seq<Task>)
    ensures Visible(s, All, []) == s
  {
    if s != [] {
      VisibleKeepsAll(s[1..]);
      assert s == [s[0]] + s[1..];
    }
  }

  /** The search is case-insensitive: a term and its lower-case form show the same list. */
  lemma SearchIgnoresCase(s: seq<Task>, mode: FilterMode, search: string)
    ensures Project(s, mode, search) == Project(s, mode, ToLower(search))
  {
    ToLowerIdempotent(search);
    VisibleSameFilter(Sort(s), mode, search, ToLower(search));
  }

  lemma {:induction false} VisibleSameFilter(s: seq<Task>, mode: FilterMode, q1: string, q2: string)
    requires ToLower(q1) == ToLower(q2)
    ensures Visible(s, mode, q1) == Visible(s, mode, q2)
  {
    if s != [] {
      VisibleSameFilter(s[1..], mode, q1, q2);
    }
  }

  // ---------------------------------------------------------------- counters

  datatype Stats = Stats(total: int, completed: int, pending: int)

  function CompletedCount(s: seq<Task>): (n: nat)
    ensures n <= |s|
  {
    if s == [] then 0 else (if s[0].completed then 1 else 0) + CompletedCount(s[1..])
  }

  /** `updateStats`: counted over the whole list, whatever the filter and search. */
  function ComputeStats(s: seq<Task>): (r: Stats)
    ensures r.total == |s|
    ensures 0 <= r.completed <= r.total && r.pending == r.total - r.completed
  {
    var completed := CompletedCount(s);
    Stats(|s|, completed, |s| - completed)
  }

  /** The counters agree with the filter buttons: `completed` is the number of
      tasks the `completed` filter shows and `pending` the number the `active`
      filter shows, without a search term. */
  lemma {:induction false} StatsMatchFilters(s: seq<Task>)
    ensures ComputeStats(s).completed == |Visible(s, Completed, [])|
    ensures ComputeStats(s).pending == |Visible(s, Active, [])|
  {
    if s != [] {
      StatsMatchFilters(s[1..]);
    }
  }

  /** Reordering the list does not change the counters. */
  lemma StatsIgnoreOrder(a: seq<Task>, b: seq<Task>)
    requires multiset(a) == multiset(b)
    ensures ComputeStats(a) == ComputeStats(b)
  {
    StatsMatchFilters(a);
    StatsMatchFilters(b);
    VisiblePermutation(a, b, Completed, []);
    VisiblePermutation(a, b, Active, []);
    assert |a| == |multiset(a)| == |multiset(b)| == |b|;
    assert |Visible(a, Completed, [])| == |multiset(Visible(a, Completed, []))|;
    assert |Visible(b, Completed, [])| == |multiset(Visible(b, Completed, []))|;
  }

  // ---------------------------------------------------------------- empty state

  /** `checkEmptyState`: the message shows when no task of the (unsorted) list
      passes the filter. */
  function EmptyStateShown(s: seq<Task>, mode: FilterMode, search: string): (shown: bool)
    ensures shown <==> forall t :: t in s ==> !Shown(t, mode, search)
  {
    var r := Visible(s, mode, search);
    assert |r| == 0 <==> forall t :: t in s ==> !Shown(t, mode, search) by {
      if |r| > 0 { VisibleFrom(s, mode, search, r[0]); }
      forall t | t in s && Shown(t, mode, search) ensures |r| > 0 {
        VisibleMultiset(s, mode, search, t);
        assert t in multiset(s);
      }
    }
    |r| == 0
  }

  /** The message shows exactly when the rendered list is empty. */
  lemma EmptyStateMatchesProjection(s: seq<Task>, mode: FilterMode, search: string)
    ensures EmptyStateShown(s, mode, search) <==> Project(s, mode, search) == []
  {
    var r := Project(s, mode, search);
    assert |r| == |multiset(r)|;
    assert |Visible(s, mode, search)| == |multiset(Visible(s, mode, search))|;
  }
}
