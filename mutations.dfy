/** What each store operation does to the list of tasks, as functions on
    `seq<Task>`, with the properties the to-do list relies on. The class in
    store.dfy performs these changes in place and is proved to agree with them. */
module Mutations {
  import opened Text
  import opened Tasks

  /** What adding and editing establish: ids are unique and every text is
      non-empty and already trimmed. */
  predicate WellFormed(s: seq<Task>) {
    && UniqueIds(s)
    && forall k :: 0 <= k < |s| ==> TrimmedText(s[k].text)
  }

  /** A text `trim` leaves as it is and does not empty. */
  predicate TrimmedText(t: string) {
    t != [] && !IsSpace(t[0]) && !IsSpace(t[|t| - 1])
  }

  // ---------------------------------------------------------------- add

  /** `addTask`: a text that trims to nothing is refused; otherwise one new,
      incomplete task carrying the trimmed text goes at the end. */
  function Added(s: seq<Task>, f: Fields, id: int, createdAt: string): (r: seq<Task>)
    ensures AllSpace(f.text) ==> r == s
    ensures !AllSpace(f.text) ==>
      && |r| == |s| + 1 && r[..|s|] == s
      && r[|s|] == Task(id, Trim(f.text), false, f.dueDate, f.priority, f.category, createdAt)
  {
    var text := Trim(f.text);
    if text == [] then s
    else
      var r := s + [Task(id, text, false, f.dueDate, f.priority, f.category, createdAt)];
      assert r[..|s|] == s;
      r
  }

  /** Adding keeps the list well formed when the new id is not in use. */
  lemma AddPreservesWellFormed(s: seq<Task>, f: Fields, id: int, createdAt: string)
    requires WellFormed(s) && id !in IdsOf(s)
    ensures WellFormed(Added(s, f, id, createdAt))
  {
    var r := Added(s, f, id, createdAt);
    if !AllSpace(f.text) {
      forall k | 0 <= k < |s| ensures s[k].id != id {
        assert IdsOf(s)[k] == s[k].id;
      }
      forall k | 0 <= k < |s| ensures r[k] == s[k] {
        assert r[..|s|][k] == r[k];
      }
    }
  }

  // ---------------------------------------------------------------- toggle

  /** `toggleTaskCompletion`: the first task with `id` changes completion;
      nothing else changes, and an unknown id changes nothing. */
  function Toggled(s: seq<Task>, id: int): (r: seq<Task>)
    ensures |r| == |s|
    ensures var i := FindIndex(s, id);
      forall k :: 0 <= k < |s| ==>
        r[k] == if k == i then s[k].(completed := !s[k].completed) else s[k]
  {
    var i := FindIndex(s, id);
    if i < 0 then s else s[i := s[i].(completed := !s[i].completed)]
  }

  /** Toggling the same task twice restores the list. */
  lemma {:induction false} ToggleTwice(s: seq<Task>, id: int)
    ensures Toggled(Toggled(s, id), id) == s
  {
    var t := Toggled(s, id);
    FindIndexSameIds(s, t, id);
    assert Toggled(t, id) == s;
  }

  lemma TogglePreservesWellFormed(s: seq<Task>, id: int)
    requires WellFormed(s)
    ensures WellFormed(Toggled(s, id))
  {
  }

  // ---------------------------------------------------------------- edit

  /** Whether `saveEditTask` changes anything: an edit id is recorded and is
      truthy (not 0), a task carries it, and the entered text does not trim to
      nothing. */
  predicate EditApplies(s: seq<Task>, editId: Option<int>, f: Fields) {
    editId.Some? && editId.value != 0 && FindIndex(s, editId.value) >= 0 && !AllSpace(f.text)
  }

  /** `saveEditTask` on the list: the first task with `id` gets the trimmed text,
      the due date, the priority and the category entered; its id, completion
      and creation time stay, and so do all other tasks. */
  function Edited(s: seq<Task>, id: int, f: Fields): (r: seq<Task>)
    ensures |r| == |s|
    ensures var i := FindIndex(s, id);
      forall k :: 0 <= k < |s| ==>
        r[k] == if k == i && !AllSpace(f.text)
                then s[k].(text := Trim(f.text), dueDate := f.dueDate,
                           priority := f.priority, category := f.category)
                else s[k]
  {
    var i := FindIndex(s, id);
    var text := Trim(f.text);
    if i < 0 || text == [] then s
    else s[i := s[i].(text := text, dueDate := f.dueDate, priority := f.priority, category := f.category)]
  }

  /** Saving the same dialog contents twice is saving them once. */
  lemma {:induction false} EditIdempotent(s: seq<Task>, id: int, f: Fields)
    ensures Edited(Edited(s, id, f), id, f) == Edited(s, id, f)
  {
    var t := Edited(s, id, f);
    FindIndexSameIds(s, t, id);
    assert Edited(t, id, f) == t;
  }

  lemma EditPreservesWellFormed(s: seq<Task>, id: int, f: Fields)
    requires WellFormed(s)
    ensures WellFormed(Edited(s, id, f))
  {
  }

  // ---------------------------------------------------------------- delete

  /** `tasks.filter(task => task.id !== taskId)`: the tasks of `s` that do not
      carry `id`. */
  function Deleted(s: seq<Task>, id: int): (r: seq<Task>)
    ensures |r| <= |s|
    ensures forall k :: 0 <= k < |r| ==> r[k].id != id
  {
    if s == [] then []
    else
      var rest := Deleted(s[1..], id);
      if s[0].id == id then rest else [s[0]] + rest
  }

  /** Every task with `id` goes; every other task stays, as often as it was there. */
  lemma {:induction false} DeletedMultiset(s: seq<Task>, id: int, t: Task)
    ensures multiset(Deleted(s, id))[t] == if t.id == id then 0 else multiset(s)[t]
  {
    if s != [] {
      DeletedMultiset(s[1..], id, t);
      var rest := Deleted(s[1..], id);
      assert multiset(s) == multiset{s[0]} + multiset(s[1..]) by {
        assert s == [s[0]] + s[1..];
      }
      if s[0].id == id {
        assert Deleted(s, id) == rest;
        if t.id != id { assert t != s[0]; }
      } else {
        assert Deleted(s, id) == [s[0]] + rest;
        assert multiset(Deleted(s, id)) == multiset{s[0]} + multiset(rest);
        if t.id == id { assert t != s[0]; }
      }
    }
  }

  /** Deleting works piece by piece, so the survivors keep their relative order. */
  lemma {:induction false} DeleteConcat(a: seq<Task>, b: seq<Task>, id: int)
    ensures Deleted(a + b, id) == Deleted(a, id) + Deleted(b, id)
  {
    if a != [] {
      DeleteConcat(a[1..], b, id);
      assert (a + b)[1..] == a[1..] + b;
    } else {
      assert a + b == b;
    }
  }

  /** Deleting an id no task carries changes nothing. */
  lemma {:induction false} DeleteAbsent(s: seq<Task>, id: int)
    requires forall k :: 0 <= k < |s| ==> s[k].id != id
    ensures Deleted(s, id) == s
  {
    if s != [] {
      DeleteAbsent(s[1..], id);
      assert s == [s[0]] + s[1..];
    }
  }

  /** Deleting the same id again is a no-op. */
  lemma DeleteIdempotent(s: seq<Task>, id: int)
    ensures Deleted(Deleted(s, id), id) == Deleted(s, id)
  {
    DeleteAbsent(Deleted(s, id), id);
  }

  /** With unique ids, deleting a present id removes exactly that one task. */
  lemma DeleteUnique(s: seq<Task>, id: int)
    requires UniqueIds(s) && FindIndex(s, id) >= 0
    ensures var i := FindIndex(s, id); Deleted(s, id) == s[..i] + s[i + 1..]
    ensures |Deleted(s, id)| == |s| - 1
  {
    var i := FindIndex(s, id);
    var pre, post := s[..i], s[i + 1..];
    assert s == pre + [s[i]] + post;
    forall k | 0 <= k < |pre| ensures pre[k].id != id {
      assert pre[k] == s[k];
    }
    forall k | 0 <= k < |post| ensures post[k].id != id {
      assert post[k] == s[i + 1 + k];
    }
    DeleteAround(pre, s[i], post, id);
  }

  /** Deleting the id of the one task between two runs without it leaves the runs. */
  lemma DeleteAround(pre: seq<Task>, x: Task, post: seq<Task>, id: int)
    requires x.id == id
    requires forall k :: 0 <= k < |pre| ==> pre[k].id != id
    requires forall k :: 0 <= k < |post| ==> post[k].id != id
    ensures Deleted(pre + [x] + post, id) == pre + post
  {
    DeleteConcat(pre + [x], post, id);
    DeleteConcat(pre, [x], id);
    DeleteAbsent(pre, id);
    DeleteAbsent(post, id);
    assert Deleted([x], id) == [] by {
      assert [x][1..] == [];
    }
  }

  lemma {:induction false} DeletePreservesWellFormed(s: seq<Task>, id: int)
    requires WellFormed(s)
    ensures WellFormed(Deleted(s, id))
  {
    if s != [] {
      var rest := Deleted(s[1..], id);
      WellFormedTail(s);
      DeletePreservesWellFormed(s[1..], id);
      if s[0].id != id {
        forall k | 0 <= k < |rest| ensures rest[k].id != s[0].id {
          DeletedFrom(s[1..], id, rest[k]);
          var j :| 0 <= j < |s[1..]| && s[1..][j] == rest[k];
          assert s[j + 1] == rest[k];
        }
        WellFormedCons(s[0], rest);
      }
    }
  }

  /** What survives a deletion was in the list. */
  lemma DeletedFrom(s: seq<Task>, id: int, t: Task)
    requires t in Deleted(s, id)
    ensures t in s
  {
    DeletedMultiset(s, id, t);
    assert t in multiset(Deleted(s, id));
  }

  lemma WellFormedTail(s: seq<Task>)
    requires WellFormed(s) && s != []
    ensures WellFormed(s[1..])
  {
    forall i, j | 0 <= i < j < |s| - 1 ensures s[1..][i].id != s[1..][j].id {
      assert s[1..][i] == s[i + 1] && s[1..][j] == s[j + 1];
    }
  }

  /** A trimmed task whose id the rest does not carry may lead a well-formed list. */
  lemma WellFormedCons(x: Task, rest: seq<Task>)
    requires WellFormed(rest) && TrimmedText(x.text)
    requires forall k :: 0 <= k < |rest| ==> rest[k].id != x.id
    ensures WellFormed([x] + rest)
  {
    var r := [x] + rest;
    assert forall k :: 1 <= k < |r| ==> r[k] == rest[k - 1];
  }

  // ---------------------------------------------------------------- reorder

  /** `updateTaskOrder`: for each id of the list's DOM order, in that order, the
      task `tasks.find` gives for it; an id no task carries adds nothing, and a
      task whose id is not listed is not kept. */
  function Reordered(s: seq<Task>, ids: seq<int>): (r: seq<Task>)
    ensures |r| <= |ids|
  {
    if ids == [] then []
    else
      var n := |ids| - 1;
      var front := Reordered(s, ids[..n]);
      var i := FindIndex(s, ids[n]);
      if i < 0 then front else front + [s[i]]
  }

  /** Every task gathered is a task of the list with a listed id; so a task
      whose id is not listed is dropped. */
  lemma {:induction false} ReorderMembers(s: seq<Task>, ids: seq<int>)
    ensures forall t :: t in Reordered(s, ids) ==> t in s && t.id in ids
  {
    if ids != [] {
      var n := |ids| - 1;
      ReorderMembers(s, ids[..n]);
      assert forall x :: x in ids[..n] ==> x in ids;
    }
  }

  /** Reordering by a concatenation of id lists concatenates the results. */
  lemma {:induction false} ReorderConcat(s: seq<Task>, a: seq<int>, b: seq<int>)
    ensures Reordered(s, a + b) == Reordered(s, a) + Reordered(s, b)
  {
    if b == [] {
      assert a + b == a;
    } else {
      var n := |b| - 1;
      ReorderConcat(s, a, b[..n]);
      assert (a + b)[..|a + b| - 1] == a + b[..n];
      assert (a + b)[|a + b| - 1] == b[n];
      var ra, rb := Reordered(s, a), Reordered(s, b[..n]);
      var i := FindIndex(s, b[n]);
      if i >= 0 {
        assert (ra + rb) + [s[i]] == ra + (rb + [s[i]]);
      }
    }
  }

  /** When every listed id is in use, the result follows the list exactly:
      position `k` holds the first task carrying `ids[k]`. */
  lemma {:induction false} ReorderListed(s: seq<Task>, ids: seq<int>)
    requires forall k :: 0 <= k < |ids| ==> FindIndex(s, ids[k]) >= 0
    ensures var r := Reordered(s, ids);
      |r| == |ids| && forall k :: 0 <= k < |ids| ==> r[k] == s[FindIndex(s, ids[k])]
  {
    if ids != [] {
      var n := |ids| - 1;
      var front := ids[..n];
      assert forall k :: 0 <= k < n ==> front[k] == ids[k];
      ReorderListed(s, front);
      var r := Reordered(s, ids);
      var rf := Reordered(s, front);
      assert r == rf + [s[FindIndex(s, ids[n])]];
      forall k | 0 <= k < |ids| ensures r[k] == s[FindIndex(s, ids[k])] {
        if k < n { assert r[k] == rf[k]; }
      }
    }
  }

  /** When every listed id is in use, the reordered list carries exactly the
      listed ids, in the listed order. */
  lemma ReorderFollowsIds(s: seq<Task>, ids: seq<int>)
    requires forall k :: 0 <= k < |ids| ==> FindIndex(s, ids[k]) >= 0
    ensures IdsOf(Reordered(s, ids)) == ids
  {
    ReorderListed(s, ids);
  }

  /** With unique ids, reordering by the list's own ids gives the list back. */
  lemma ReorderOwnIds(s: seq<Task>)
    requires UniqueIds(s)
    ensures Reordered(s, IdsOf(s)) == s
  {
    var ids := IdsOf(s);
    forall k | 0 <= k < |ids| ensures FindIndex(s, ids[k]) == k {
      FindOwnId(s, k);
    }
    ReorderListed(s, ids);
  }

  /** The tasks gathered depend only on how often each id is listed. */
  lemma {:induction false} ReorderMultiset(s: seq<Task>, a: seq<int>, b: seq<int>)
    requires multiset(a) == multiset(b)
    ensures multiset(Reordered(s, a)) == multiset(Reordered(s, b))
    decreases |a|
  {
    if a != [] {
      var x := a[0];
      var j := MatchFirst(a, b);
      var pre, post := b[..j], b[j + 1..];
      ReorderMultiset(s, a[1..], pre + post);
      assert a == [x] + a[1..];
      assert b == pre + [x] + post;
      ReorderConcat(s, [x], a[1..]);
      ReorderConcat(s, pre, post);
      ReorderConcat(s, pre + [x], post);
      ReorderConcat(s, pre, [x]);
      Regroup(Reordered(s, [x]), Reordered(s, a[1..]), Reordered(s, pre), Reordered(s, post),
              Reordered(s, pre + post));
    } else {
      assert b == [];
    }
  }

  /** The multiset step of `ReorderMultiset`: `x + rest` against `pre + x + post`
      where `rest` has the elements of `pre + post`. */
  lemma Regroup(rx: seq<Task>, rest: seq<Task>, rpre: seq<Task>, rpost: seq<Task>, rboth: seq<Task>)
    requires rboth == rpre + rpost && multiset(rest) == multiset(rboth)
    ensures multiset(rx + rest) == multiset(rpre + rx + rpost)
  {
    assert multiset(rpre + rx + rpost) == multiset(rpre) + multiset(rx) + multiset(rpost);
  }

  /** Two lists with the same elements: the first element of one occurs at some
      position `j` of the other, and removing both leaves the same elements. */
  lemma MatchFirst(a: seq<int>, b: seq<int>) returns (j: nat)
    requires a != [] && multiset(a) == multiset(b)
    ensures j < |b| && b[j] == a[0]
    ensures multiset(a[1..]) == multiset(b[..j] + b[j + 1..])
  {
    var x := a[0];
    assert a == [x] + a[1..];
    assert x in multiset(b);
    j :| 0 <= j < |b| && b[j] == x;
    assert b == b[..j] + [x] + b[j + 1..];
    assert multiset(b) == multiset(b[..j]) + multiset{x} + multiset(b[j + 1..]);
    assert multiset(a[1..]) == multiset(a) - multiset{x};
  }

  /** Dropping a whole permutation of the ids of a list with unique ids yields
      a permutation of the list: no task is lost or duplicated. */
  lemma ReorderPermutation(s: seq<Task>, ids: seq<int>)
    requires UniqueIds(s) && multiset(ids) == multiset(IdsOf(s))
    ensures multiset(Reordered(s, ids)) == multiset(s)
  {
    ReorderMultiset(s, ids, IdsOf(s));
    ReorderOwnIds(s);
  }

  /** With distinct listed ids the result is again well formed. */
  lemma {:induction false} ReorderPreservesWellFormed(s: seq<Task>, ids: seq<int>)
    requires WellFormed(s) && Distinct(ids)
    ensures WellFormed(Reordered(s, ids))
  {
    if ids != [] {
      var n := |ids| - 1;
      var front := Reordered(s, ids[..n]);
      ReorderPreservesWellFormed(s, ids[..n]);
      var i := FindIndex(s, ids[n]);
      if i >= 0 {
        ReorderMembers(s, ids[..n]);
        forall k | 0 <= k < |front| ensures front[k].id != ids[n] {
          assert front[k] in front;
          var j :| 0 <= j < n && ids[..n][j] == front[k].id;
          assert ids[j] == front[k].id;
        }
        WellFormedSnoc(front, s[i]);
      }
    }
  }

  /** A trimmed task whose id a well-formed list does not carry may follow it. */
  lemma WellFormedSnoc(front: seq<Task>, x: Task)
    requires WellFormed(front) && TrimmedText(x.text)
    requires forall k :: 0 <= k < |front| ==> front[k].id != x.id
    ensures WellFormed(front + [x])
  {
    var r := front + [x];
    assert forall k :: 0 <= k < |front| ==> r[k] == front[k];
  }
}
