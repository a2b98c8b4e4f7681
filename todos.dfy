/** The task list the controller keeps in memory, and the pure computations
    over it: lookup by id, the merge of an edited record, the completion
    toggle, deletion, the filter views and the counters. */
module Todos {
  import opened Sequences

  datatype Option<+T> = None | Some(value: T)

  /** A task record as the service returns it. */
  datatype Todo = Todo(id: int, title: string, description: string, isCompleted: bool)

  predicate IsCompleted(t: Todo) { t.isCompleted }
  predicate IsPending(t: Todo) { !t.isCompleted }

  /** No two records of `s` share an id. The service assigns the ids; the
      controller never checks this. */
  ghost predicate UniqueIds(s: seq<Todo>) {
    forall i, j :: 0 <= i < |s| && 0 <= j < |s| && s[i].id == s[j].id ==> i == j
  }

  /** `s.findIndex(t => t.id === id)`: the first index holding `id`, or
      None when no record has it (JavaScript's -1). */
  function IndexOf(s: seq<Todo>, id: int): (r: Option<nat>)
    ensures r.Some? ==> r.value < |s| && s[r.value].id == id
    ensures r.Some? ==> forall k :: 0 <= k < r.value ==> s[k].id != id
    ensures r.None? <==> forall k :: 0 <= k < |s| ==> s[k].id != id
  {
    if s == [] then None
    else if s[0].id == id then Some(0)
    else match IndexOf(s[1..], id)
      case None => None
      case Some(i) => Some(i + 1)
  }

  /** Two lists whose ids agree index by index find the same first index. */
  lemma IndexOfSameIds(s: seq<Todo>, r: seq<Todo>, id: int)
    requires |r| == |s|
    requires forall k :: 0 <= k < |s| ==> r[k].id == s[k].id
    ensures IndexOf(r, id) == IndexOf(s, id)
  {
  }

  /** Reference definition of "overwrite the first record with `t.id` by
      `t`": walk the list, replace at the first match, keep the rest. */
  function ReplaceFirst(s: seq<Todo>, t: Todo): (r: seq<Todo>)
    ensures |r| == |s|
    ensures forall k :: 0 <= k < |s| ==> r[k].id == s[k].id
  {
    if s == [] then []
    else if s[0].id == t.id then [t] + s[1..]
    else [s[0]] + ReplaceFirst(s[1..], t)
  }

  /** What the edit and toggle handlers do in place (findIndex, then
      assignment at that index) is ReplaceFirst. */
  lemma {:induction false} ReplaceFirstAtIndex(s: seq<Todo>, t: Todo)
    ensures IndexOf(s, t.id).None? ==> ReplaceFirst(s, t) == s
    ensures IndexOf(s, t.id).Some? ==> ReplaceFirst(s, t) == s[IndexOf(s, t.id).value := t]
  {
    if s != [] && s[0].id != t.id {
      ReplaceFirstAtIndex(s[1..], t);
      assert s == [s[0]] + s[1..];
    }
  }

  /** Only the first record with `t.id` changes; it becomes `t`. */
  lemma ReplaceFirstOnlyFirst(s: seq<Todo>, t: Todo, i: int)
    requires 0 <= i < |s| && s[i].id == t.id
    requires forall k :: 0 <= k < i ==> s[k].id != t.id
    ensures ReplaceFirst(s, t)[i] == t
    ensures forall k :: 0 <= k < |s| && k != i ==> ReplaceFirst(s, t)[k] == s[k]
  {
    ReplaceFirstAtIndex(s, t);
    assert IndexOf(s, t.id) == Some(i);
  }

  /** Merging the same record twice is merging it once. */
  lemma {:induction false} ReplaceFirstIdempotent(s: seq<Todo>, t: Todo)
    ensures ReplaceFirst(ReplaceFirst(s, t), t) == ReplaceFirst(s, t)
  {
    var r := ReplaceFirst(s, t);
    ReplaceFirstAtIndex(s, t);
    ReplaceFirstAtIndex(r, t);
    IndexOfSameIds(s, r, t.id);
  }

  /** Replacing keeps every id where it was, so it keeps ids unique. */
  lemma ReplaceFirstKeepsUniqueIds(s: seq<Todo>, t: Todo)
    requires UniqueIds(s)
    ensures UniqueIds(ReplaceFirst(s, t))
  {
  }

  /** `{...todo, isCompleted: !todo.isCompleted}`. */
  function Flipped(t: Todo): (r: Todo)
    ensures r.id == t.id && r.title == t.title && r.description == t.description
    ensures r.isCompleted != t.isCompleted
  {
    t.(isCompleted := !t.isCompleted)
  }

  /** The list after a successful toggle of `id`: the first record with that
      id is replaced by its flipped copy; nothing happens when none has it. */
  function Toggled(s: seq<Todo>, id: int): (r: seq<Todo>)
    ensures |r| == |s|
    ensures forall k :: 0 <= k < |s| ==> r[k].id == s[k].id
    ensures IndexOf(s, id).None? ==> r == s
  {
    match IndexOf(s, id)
    case None => s
    case Some(i) => ReplaceFirst(s, Flipped(s[i]))
  }

  /** A toggle changes only the completion flag of the first record with the
      id, and leaves the list alone when the id is absent. */
  lemma {:induction false} ToggledChanges(s: seq<Todo>, id: int)
    ensures |Toggled(s, id)| == |s|
    ensures IndexOf(s, id).None? ==> Toggled(s, id) == s
    ensures IndexOf(s, id).Some? ==>
      var i := IndexOf(s, id).value;
      Toggled(s, id) == s[i := s[i].(isCompleted := !s[i].isCompleted)]
  {
    match IndexOf(s, id)
    case None =>
    case Some(i) => ReplaceFirstAtIndex(s, Flipped(s[i]));
  }

  /** A toggle keeps ids unique when they were unique before. */
  lemma ToggledKeepsUniqueIds(s: seq<Todo>, id: int)
    requires UniqueIds(s)
    ensures UniqueIds(Toggled(s, id))
  {
  }

  /** Toggling the same id twice restores the list. */
  lemma ToggledTwice(s: seq<Todo>, id: int)
    ensures Toggled(Toggled(s, id), id) == s
  {
    match IndexOf(s, id)
    case None =>
    case Some(i) =>
      var f := Flipped(s[i]);
      var r := ReplaceFirst(s, f);
      ReplaceFirstAtIndex(s, f);
      IndexOfSameIds(s, r, id);
      assert r[i] == f;
      ReplaceFirstAtIndex(r, Flipped(f));
      assert Flipped(f) == s[i];
      assert r[i := s[i]] == s;
  }

  /** Predicate of `todo => todo.id !== id`. */
  function IdIsNot(id: int): Todo -> bool {
    (t: Todo) => t.id != id
  }

  /** Predicate of `todo => todo.id === id`. */
  function IdIs(id: int): Todo -> bool {
    (t: Todo) => t.id == id
  }

  /** `s.filter(todo => todo.id !== id)`: no record with `id` remains, every
      other record stays with its multiplicity and in its order, and an
      absent id changes nothing. */
  function Without(s: seq<Todo>, id: int): (r: seq<Todo>)
    ensures forall t :: t in r <==> t in s && t.id != id
    ensures multiset(r) + multiset(Filter(s, IdIs(id))) == multiset(s)
    ensures IsSubsequence(r, s)
    ensures (forall k :: 0 <= k < |s| ==> s[k].id != id) ==> r == s
  {
    FilterIsSubsequence(s, IdIsNot(id));
    FilterSplit(s, IdIsNot(id), IdIs(id));
    if forall k :: 0 <= k < |s| ==> s[k].id != id then
      FilterKeepsAll(s, IdIsNot(id));
      Filter(s, IdIsNot(id))
    else
      Filter(s, IdIsNot(id))
  }

  /** Deleting an id twice is deleting it once. */
  lemma WithoutIdempotent(s: seq<Todo>, id: int)
    ensures Without(Without(s, id), id) == Without(s, id)
  {
  }

  /** Deleting the id of a record just appended, when no other record had it,
      gives back the list as it was before the append. */
  lemma WithoutUndoesAppend(s: seq<Todo>, t: Todo)
    requires forall k :: 0 <= k < |s| ==> s[k].id != t.id
    ensures Without(s + [t], t.id) == s
  {
    FilterAppend(s, [t], IdIsNot(t.id));
    FilterKeepsAll(s, IdIsNot(t.id));
    assert Filter([t], IdIsNot(t.id)) == [];
  }

  /** Filtering keeps ids unique. */
  lemma {:induction false} FilterKeepsUniqueIds(s: seq<Todo>, p: Todo -> bool)
    requires UniqueIds(s)
    ensures UniqueIds(Filter(s, p))
  {
    if s != [] {
      var rest := Filter(s[1..], p);
      assert UniqueIds(s[1..]) by {
        forall i, j | 0 <= i < |s| - 1 && 0 <= j < |s| - 1 && s[1..][i].id == s[1..][j].id
          ensures i == j
        {
          assert s[i + 1].id == s[j + 1].id;
        }
      }
      FilterKeepsUniqueIds(s[1..], p);
      if p(s[0]) {
        forall k | 0 <= k < |rest| ensures rest[k].id != s[0].id {
          assert rest[k] in s[1..];
          var m :| 0 <= m < |s| - 1 && s[1..][m] == rest[k];
          assert s[m + 1] == rest[k];
        }
        var r := [s[0]] + rest;
        forall i, j | 0 <= i < |r| && 0 <= j < |r| && r[i].id == r[j].id ensures i == j {
          if i > 0 && j > 0 {
            assert rest[i - 1].id == rest[j - 1].id;
          }
        }
      }
    }
  }

  /** Deleting keeps ids unique. */
  lemma WithoutKeepsUniqueIds(s: seq<Todo>, id: int)
    requires UniqueIds(s)
    ensures UniqueIds(Without(s, id))
  {
    FilterKeepsUniqueIds(s, IdIsNot(id));
  }

  /** Appending keeps ids unique exactly when the new record's id is fresh. */
  lemma AppendKeepsUniqueIds(s: seq<Todo>, t: Todo)
    requires UniqueIds(s)
    ensures UniqueIds(s + [t]) <==> forall k :: 0 <= k < |s| ==> s[k].id != t.id
  {
    var r := s + [t];
    if forall k :: 0 <= k < |s| ==> s[k].id != t.id {
      forall i, j | 0 <= i < |r| && 0 <= j < |r| && r[i].id == r[j].id ensures i == j {
        if i < |s| && j < |s| {
          assert s[i].id == s[j].id;
        }
      }
    } else {
      var k :| 0 <= k < |s| && s[k].id == t.id;
      assert r[k].id == r[|s|].id;
    }
  }

  /** `getFilteredTodos`: the `switch` on the current filter, whose
      `default` branch returns the list itself. */
  function Filtered(s: seq<Todo>, filter: string): (r: seq<Todo>)
    ensures |r| <= |s|
    ensures forall t :: t in r <==> t in s && Shows(filter, t)
  {
    if filter == "completed" then Filter(s, IsCompleted)
    else if filter == "pending" then Filter(s, IsPending)
    else s
  }

  /** Whether a record belongs to the view selected by `filter`. */
  predicate Shows(filter: string, t: Todo) {
    if filter == "completed" then t.isCompleted
    else if filter == "pending" then !t.isCompleted
    else true
  }

  /** Every view is a subsequence of the list holding exactly the records the
      filter selects; the "completed" and "pending" views together hold every
      record of the list once. */
  lemma FilteredSelects(s: seq<Todo>, filter: string)
    ensures IsSubsequence(Filtered(s, filter), s)
    ensures forall t :: t in Filtered(s, filter) <==> t in s && Shows(filter, t)
    ensures filter != "completed" && filter != "pending" ==> Filtered(s, filter) == s
    ensures multiset(Filtered(s, "completed")) + multiset(Filtered(s, "pending")) == multiset(s)
  {
    FilterSplit(s, IsCompleted, IsPending);
    if filter == "completed" {
      FilterIsSubsequence(s, IsCompleted);
    } else if filter == "pending" {
      FilterIsSubsequence(s, IsPending);
    } else {
      SubsequenceOfItself(s);
    }
  }

  /** The three counters `updateStats` shows. */
  datatype Counts = Counts(total: int, completed: int, pending: int)

  /** `updateStats`: total is the list length, completed the length of the
      completed filter, pending their difference; pending is then exactly
      the number of records not completed. */
  function CountStats(s: seq<Todo>): (c: Counts)
    ensures c.total == |s|
    ensures 0 <= c.completed <= c.total
    ensures c.pending == |Filter(s, IsPending)|
    ensures c.completed + c.pending == c.total
  {
    FilterSplit(s, IsCompleted, IsPending);
    var total := |s|;
    var completed := |Filter(s, IsCompleted)|;
    Counts(total, completed, total - completed)
  }

  /** An appended record adds one to the total and one to the completed or
      the pending counter, according to its flag. */
  lemma CountStatsAppend(s: seq<Todo>, t: Todo)
    ensures CountStats(s + [t]).total == CountStats(s).total + 1
    ensures CountStats(s + [t]).completed == CountStats(s).completed + (if t.isCompleted then 1 else 0)
    ensures CountStats(s + [t]).pending == CountStats(s).pending + (if t.isCompleted then 0 else 1)
  {
    FilterAppend(s, [t], IsCompleted);
    FilterAppend(s, [t], IsPending);
  }
}
