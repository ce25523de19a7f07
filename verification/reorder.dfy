/**
 * The optimistic updaters of the board cache (the `onMutate` callbacks of
 * `modifyColumnMutation` and `modifyTaskMutation` in
 * src/views/Board/components/Columns.tsx). Each one takes the cached board,
 * `None` when nothing is cached, and returns the board the user sees until
 * the server answers.
 */
module Reorder {
  import opened Wrappers
  import opened OrderModel
  import opened Entities

  /** `columns.find(column => column.id == id)`, as a position. */
  function ColumnIndex(cs: seq<Column>, id: Id): (r: Option<nat>)
    ensures r.Some? ==> r.value < |cs| && cs[r.value].id == id
    ensures r.Some? ==> forall j :: 0 <= j < r.value ==> cs[j].id != id
    ensures r.None? ==> forall j :: 0 <= j < |cs| ==> cs[j].id != id
  {
    if cs == [] then None
    else if cs[0].id == id then Some(0)
    else match ColumnIndex(cs[1..], id)
      case None => None
      case Some(k) => Some(k + 1)
  }

  /** `tasks.find(task => task.id === id)`, as a position. */
  function TaskIndex(ts: seq<Task>, id: Id): (r: Option<nat>)
    ensures r.Some? ==> r.value < |ts| && ts[r.value].id == id
    ensures r.Some? ==> forall j :: 0 <= j < r.value ==> ts[j].id != id
    ensures r.None? ==> forall j :: 0 <= j < |ts| ==> ts[j].id != id
  {
    if ts == [] then None
    else if ts[0].id == id then Some(0)
    else match TaskIndex(ts[1..], id)
      case None => None
      case Some(k) => Some(k + 1)
  }

  /**
   * The directional shift over sibling columns: the dragged column (by id)
   * takes `hoverOrder`; when it moves to a lower order the others in
   * [hoverOrder, dragOrder) rise by one, otherwise those in
   * (dragOrder, hoverOrder] drop by one; nothing else changes.
   */
  function ReorderColumns(cs: seq<Column>, dragId: Id, dragOrder: int, hoverOrder: int): (r: seq<Column>)
    ensures |r| == |cs|
    ensures forall i :: 0 <= i < |cs| ==> r[i] == cs[i].(order := r[i].order)
    ensures forall i :: 0 <= i < |cs| && cs[i].id == dragId ==> r[i].order == hoverOrder
    ensures forall i :: 0 <= i < |cs| && cs[i].id != dragId && dragOrder > hoverOrder ==>
      r[i].order == (if hoverOrder <= cs[i].order < dragOrder then cs[i].order + 1 else cs[i].order)
    ensures forall i :: 0 <= i < |cs| && cs[i].id != dragId && dragOrder <= hoverOrder ==>
      r[i].order == (if dragOrder < cs[i].order <= hoverOrder then cs[i].order - 1 else cs[i].order)
  {
    seq(|cs|, i requires 0 <= i < |cs| =>
      if cs[i].id == dragId then cs[i].(order := hoverOrder)
      else cs[i].(order := ShiftOrder(cs[i].order, dragOrder, hoverOrder)))
  }

  /** The same directional shift over the tasks of one column. */
  function ReorderTasks(ts: seq<Task>, dragId: Id, dragOrder: int, hoverOrder: int): (r: seq<Task>)
    ensures |r| == |ts|
    ensures forall i :: 0 <= i < |ts| ==> r[i] == ts[i].(order := r[i].order)
    ensures forall i :: 0 <= i < |ts| && ts[i].id == dragId ==> r[i].order == hoverOrder
    ensures forall i :: 0 <= i < |ts| && ts[i].id != dragId && dragOrder > hoverOrder ==>
      r[i].order == (if hoverOrder <= ts[i].order < dragOrder then ts[i].order + 1 else ts[i].order)
    ensures forall i :: 0 <= i < |ts| && ts[i].id != dragId && dragOrder <= hoverOrder ==>
      r[i].order == (if dragOrder < ts[i].order <= hoverOrder then ts[i].order - 1 else ts[i].order)
  {
    seq(|ts|, i requires 0 <= i < |ts| =>
      if ts[i].id == dragId then ts[i].(order := hoverOrder)
      else ts[i].(order := ShiftOrder(ts[i].order, dragOrder, hoverOrder)))
  }

  /** The column updater: new board after column `edit.id` is given order `edit.order`. */
  function MoveColumn(cache: Option<Board>, edit: ColumnEdit): (r: Option<Board>)
    ensures cache.None? ==> r.None?
    ensures cache.Some? ==> r.Some? && r.value.(columns := cache.value.columns) == cache.value
    ensures cache.Some? ==> |r.value.columns| == |cache.value.columns|
    ensures cache.Some? ==> forall i :: 0 <= i < |r.value.columns| ==>
      r.value.columns[i] == cache.value.columns[i].(order := r.value.columns[i].order)
    ensures cache.Some? && (forall i :: 0 <= i < |cache.value.columns| ==> cache.value.columns[i].id != edit.id) ==> r == cache
    ensures cache.Some? && ColumnIndex(cache.value.columns, edit.id).Some? ==>
      var cs := cache.value.columns;
      var drag := cs[ColumnIndex(cs, edit.id).value].order;
      forall i :: 0 <= i < |cs| ==>
        r.value.columns[i].order == (
          if cs[i].id == edit.id then edit.order
          else if drag > edit.order then (if edit.order <= cs[i].order < drag then cs[i].order + 1 else cs[i].order)
          else (if drag < cs[i].order <= edit.order then cs[i].order - 1 else cs[i].order))
  {
    match cache
    case None => None
    case Some(prev) =>
      match ColumnIndex(prev.columns, edit.id)
      case None => cache
      case Some(k) =>
        Some(prev.(columns := ReorderColumns(prev.columns, edit.id, prev.columns[k].order, edit.order)))
  }

  /** A task leaving a column with order `dragOrder`: the tasks above it close the gap. */
  function Lowered(t: Task, dragOrder: int): Task {
    t.(order := if t.order > dragOrder then t.order - 1 else t.order)
  }

  /** A task of the column a task arrives in with order `hoverOrder`. */
  function Raised(t: Task, hoverOrder: int): Task {
    if t.order >= hoverOrder then t.(order := t.order + 1) else t
  }

  /** The `reduce` over the source column: drop the dragged task, lower the ones above it. */
  function RemoveTask(ts: seq<Task>, dragId: Id, dragOrder: int): (r: seq<Task>)
    ensures |r| <= |ts|
    ensures forall i :: 0 <= i < |r| ==> r[i].id != dragId
  {
    if ts == [] then []
    else (if ts[0].id != dragId then [Lowered(ts[0], dragOrder)] else []) + RemoveTask(ts[1..], dragId, dragOrder)
  }

  /** The destination column: raise the tasks at or above the target, append the moved task with it. */
  function InsertTask(ts: seq<Task>, dragged: Task, hoverOrder: int): (r: seq<Task>)
    ensures |r| == |ts| + 1 && r[|ts|] == dragged.(order := hoverOrder)
    ensures forall i :: 0 <= i < |ts| ==> r[i] == ts[i].(order := r[i].order)
    ensures forall i :: 0 <= i < |ts| ==> r[i].order == if ts[i].order >= hoverOrder then ts[i].order + 1 else ts[i].order
  {
    seq(|ts|, i requires 0 <= i < |ts| => Raised(ts[i], hoverOrder)) + [dragged.(order := hoverOrder)]
  }

  /** The same-column branch of `modifyTaskMutation`'s `onMutate`: only the columns whose id is `columnId` are touched. */
  function MoveTaskWithinColumn(cs: seq<Column>, columnId: Id, dragged: Task, hoverOrder: int): (r: seq<Column>)
    ensures |r| == |cs|
    ensures forall i :: 0 <= i < |cs| && cs[i].id != columnId ==> r[i] == cs[i]
    ensures forall i :: 0 <= i < |cs| && cs[i].id == columnId ==>
      r[i] == cs[i].(tasks := ReorderTasks(cs[i].tasks, dragged.id, dragged.order, hoverOrder))
  {
    seq(|cs|, i requires 0 <= i < |cs| =>
      if cs[i].id != columnId then cs[i]
      else cs[i].(tasks := ReorderTasks(cs[i].tasks, dragged.id, dragged.order, hoverOrder)))
  }

  /** The cross-column branch of `modifyTaskMutation`'s `onMutate`: the source column loses the task, the destination gains it. */
  function TransferTask(cs: seq<Column>, fromId: Id, toId: Id, dragged: Task, hoverOrder: int): (r: seq<Column>)
    ensures |r| == |cs|
    ensures forall i :: 0 <= i < |cs| ==> r[i].(tasks := cs[i].tasks) == cs[i]
    ensures forall i :: 0 <= i < |cs| && cs[i].id != fromId && cs[i].id != toId ==> r[i] == cs[i]
    ensures forall i :: 0 <= i < |cs| && cs[i].id == fromId ==> r[i].tasks == RemoveTask(cs[i].tasks, dragged.id, dragged.order)
    ensures forall i :: 0 <= i < |cs| && cs[i].id != fromId && cs[i].id == toId ==> r[i].tasks == InsertTask(cs[i].tasks, dragged, hoverOrder)
  {
    seq(|cs|, i requires 0 <= i < |cs| =>
      if cs[i].id == fromId then cs[i].(tasks := RemoveTask(cs[i].tasks, dragged.id, dragged.order))
      else if cs[i].id == toId then cs[i].(tasks := InsertTask(cs[i].tasks, dragged, hoverOrder))
      else cs[i])
  }

  /**
   * The task updater: the task `edit.id` of column `edit.selfColumnId` goes to
   * column `edit.columnId` with order `edit.order`.
   */
  function MoveTask(cache: Option<Board>, edit: TaskEdit): (r: Option<Board>)
    ensures cache.None? ==> r.None?
    ensures cache.Some? ==> r.Some? && r.value.(columns := cache.value.columns) == cache.value
    ensures cache.Some? ==> |r.value.columns| == |cache.value.columns|
    ensures cache.Some? ==> forall i :: 0 <= i < |r.value.columns| ==>
      r.value.columns[i].(tasks := cache.value.columns[i].tasks) == cache.value.columns[i]
    ensures cache.Some? && (forall i :: 0 <= i < |cache.value.columns| ==> cache.value.columns[i].id != edit.selfColumnId) ==> r == cache
    ensures (cache.Some? && ColumnIndex(cache.value.columns, edit.selfColumnId).Some? &&
      TaskIndex(cache.value.columns[ColumnIndex(cache.value.columns, edit.selfColumnId).value].tasks, edit.id).None?)
      ==> r == cache
  {
    match cache
    case None => None
    case Some(prev) =>
      match ColumnIndex(prev.columns, edit.selfColumnId)
      case None => cache
      case Some(ci) =>
        match TaskIndex(prev.columns[ci].tasks, edit.id)
        case None => cache
        case Some(ti) =>
          var dragged := prev.columns[ci].tasks[ti];
          if edit.selfColumnId == edit.columnId then
            Some(prev.(columns := MoveTaskWithinColumn(prev.columns, edit.columnId, dragged, edit.order)))
          else
            Some(prev.(columns := TransferTask(prev.columns, edit.selfColumnId, edit.columnId, dragged, edit.order)))
  }

  // ---------------------------------------------------------------------
  // Column moves

  /** With unique ids, the column shift is the order model's `Moved`. */
  lemma {:induction false} ReorderColumnsIsMoved(cs: seq<Column>, k: nat, hoverOrder: int)
    requires UniqueColumnIds(cs) && k < |cs|
    ensures ColumnOrders(ReorderColumns(cs, cs[k].id, cs[k].order, hoverOrder)) == Moved(ColumnOrders(cs), k, hoverOrder)
  {
    var r := ReorderColumns(cs, cs[k].id, cs[k].order, hoverOrder);
    forall i | 0 <= i < |cs| ensures ColumnOrders(r)[i] == Moved(ColumnOrders(cs), k, hoverOrder)[i] {
      if i < k { assert cs[i].id != cs[k].id; }
      if i > k { assert cs[k].id != cs[i].id; }
    }
  }

  /**
   * With unique column ids, the column updater is the directional shift
   * keyed on the dragged column's old order: the column with `edit.id`
   * takes `edit.order` and its siblings between the two orders move by one.
   */
  lemma {:induction false} MoveColumnShape(b: Board, edit: ColumnEdit, k: nat)
    requires UniqueColumnIds(b.columns) && k < |b.columns| && b.columns[k].id == edit.id
    ensures MoveColumn(Some(b), edit) == Some(b.(columns := ReorderColumns(b.columns, edit.id, b.columns[k].order, edit.order)))
    ensures Moved(ColumnOrders(b.columns), k, edit.order) == ColumnOrders(MoveColumn(Some(b), edit).value.columns)
  {
    ColumnIndexOfUnique(b.columns, k);
    ReorderColumnsIsMoved(b.columns, k, edit.order);
  }

  /**
   * A column move to an order inside the board's range keeps the column
   * orders dense, with the same set of values.
   */
  lemma {:induction false} MoveColumnKeepsDense(b: Board, edit: ColumnEdit, lo: int)
    requires UniqueColumnIds(b.columns) && Dense(ColumnOrders(b.columns), lo)
    requires lo <= edit.order < lo + |b.columns|
    ensures MoveColumn(Some(b), edit).Some?
    ensures Dense(ColumnOrders(MoveColumn(Some(b), edit).value.columns), lo)
    ensures forall v :: v in ColumnOrders(MoveColumn(Some(b), edit).value.columns) <==> v in ColumnOrders(b.columns)
  {
    var r := MoveColumn(Some(b), edit).value;
    match ColumnIndex(b.columns, edit.id)
    case None =>
    case Some(k) =>
      ReorderColumnsIsMoved(b.columns, k, edit.order);
      MoveKeepsDense(ColumnOrders(b.columns), k, edit.order, lo);
    DenseSameValues(ColumnOrders(r.columns), ColumnOrders(b.columns), lo);
  }

  /** Moving a column to the order it already has changes nothing. */
  lemma {:induction false} MoveColumnToOwnOrder(b: Board, edit: ColumnEdit, k: nat)
    requires UniqueColumnIds(b.columns) && k < |b.columns|
    requires b.columns[k].id == edit.id && b.columns[k].order == edit.order
    ensures MoveColumn(Some(b), edit) == Some(b)
  {
    ColumnIndexOfUnique(b.columns, k);
    var r := ReorderColumns(b.columns, edit.id, edit.order, edit.order);
    assert r == b.columns;
  }

  /** Moving a column away and then back to its old order restores the board. */
  lemma {:induction false} MoveColumnThenBack(b: Board, edit: ColumnEdit, k: nat)
    requires UniqueColumnIds(b.columns) && Distinct(ColumnOrders(b.columns))
    requires k < |b.columns| && b.columns[k].id == edit.id
    ensures MoveColumn(MoveColumn(Some(b), edit), edit.(order := b.columns[k].order)) == Some(b)
  {
    var cs := b.columns;
    ColumnIndexOfUnique(cs, k);
    var mid := ReorderColumns(cs, edit.id, cs[k].order, edit.order);
    assert MoveColumn(Some(b), edit) == Some(b.(columns := mid));
    assert UniqueColumnIds(mid);
    ColumnIndexOfUnique(mid, k);
    var back := ReorderColumns(mid, edit.id, edit.order, cs[k].order);
    assert MoveColumn(Some(b.(columns := mid)), edit.(order := cs[k].order)) == Some(b.(columns := back));
    ReorderColumnsIsMoved(cs, k, edit.order);
    ReorderColumnsIsMoved(mid, k, cs[k].order);
    MoveThenMoveBack(ColumnOrders(cs), k, edit.order);
    forall i | 0 <= i < |cs| ensures back[i] == cs[i] {
      assert ColumnOrders(back)[i] == ColumnOrders(cs)[i];
    }
    assert back == cs;
  }

  // ---------------------------------------------------------------------
  // Task moves within one column

  /** With unique ids, the task shift is the order model's `Moved`. */
  lemma {:induction false} ReorderTasksIsMoved(ts: seq<Task>, k: nat, hoverOrder: int)
    requires UniqueTaskIds(ts) && k < |ts|
    ensures TaskOrders(ReorderTasks(ts, ts[k].id, ts[k].order, hoverOrder)) == Moved(TaskOrders(ts), k, hoverOrder)
  {
    var r := ReorderTasks(ts, ts[k].id, ts[k].order, hoverOrder);
    forall i | 0 <= i < |ts| ensures TaskOrders(r)[i] == Moved(TaskOrders(ts), k, hoverOrder)[i] {
      if i < k { assert ts[i].id != ts[k].id; }
      if i > k { assert ts[k].id != ts[i].id; }
    }
  }

  /** The position a unique id is found at. */
  lemma {:induction false} TaskIndexOfUnique(ts: seq<Task>, k: nat)
    requires UniqueTaskIds(ts) && k < |ts|
    ensures TaskIndex(ts, ts[k].id) == Some(k)
  {
  }

  /** With unique ids, two positions hold the same id exactly when they are one position. */
  lemma {:induction false} ColumnIdsIdentify(cs: seq<Column>, c: nat, d: nat)
    requires UniqueColumnIds(cs) && c < |cs| && d < |cs|
    ensures cs[c].id == cs[d].id <==> c == d
  {
    if c < d {
      assert cs[c].id != cs[d].id;
    } else if d < c {
      assert cs[d].id != cs[c].id;
    }
  }

  lemma {:induction false} ColumnIndexOfUnique(cs: seq<Column>, k: nat)
    requires UniqueColumnIds(cs) && k < |cs|
    ensures ColumnIndex(cs, cs[k].id) == Some(k)
  {
  }

  /**
   * A task move inside column c keeps that column's task orders dense with
   * the same values, and every other column comes back unchanged.
   */
  lemma {:induction false} MoveTaskWithinColumnKeepsDense(b: Board, edit: TaskEdit, c: nat, lo: int)
    requires UniqueColumnIds(b.columns) && c < |b.columns|
    requires edit.selfColumnId == edit.columnId == b.columns[c].id
    requires UniqueTaskIds(b.columns[c].tasks) && Dense(TaskOrders(b.columns[c].tasks), lo)
    requires lo <= edit.order < lo + |b.columns[c].tasks|
    ensures MoveTask(Some(b), edit).Some?
    ensures forall i :: 0 <= i < |b.columns| && i != c ==> MoveTask(Some(b), edit).value.columns[i] == b.columns[i]
    ensures MoveTask(Some(b), edit).value.columns[c].(tasks := b.columns[c].tasks) == b.columns[c]
    ensures Dense(TaskOrders(MoveTask(Some(b), edit).value.columns[c].tasks), lo)
    ensures forall v :: v in TaskOrders(MoveTask(Some(b), edit).value.columns[c].tasks) <==> v in TaskOrders(b.columns[c].tasks)
  {
    var cs := b.columns;
    ColumnIndexOfUnique(cs, c);
    var r := MoveTask(Some(b), edit).value;
    forall i | 0 <= i < |cs| && i != c ensures r.columns[i] == cs[i] {
      assert cs[i].id != cs[c].id by { if i < c { } else { } }
    }
    match TaskIndex(cs[c].tasks, edit.id)
    case None =>
    case Some(t) =>
      ReorderTasksIsMoved(cs[c].tasks, t, edit.order);
      MoveKeepsDense(TaskOrders(cs[c].tasks), t, edit.order, lo);
    DenseSameValues(TaskOrders(r.columns[c].tasks), TaskOrders(cs[c].tasks), lo);
  }

  /**
   * With unique ids, a same-column move of task t of column c replaces
   * exactly that column, whose tasks are shifted.
   */
  lemma {:induction false} WithinColumnShape(b: Board, edit: TaskEdit, c: nat, t: nat)
    requires UniqueColumnIds(b.columns) && c < |b.columns|
    requires edit.selfColumnId == edit.columnId == b.columns[c].id
    requires UniqueTaskIds(b.columns[c].tasks) && t < |b.columns[c].tasks| && b.columns[c].tasks[t].id == edit.id
    ensures MoveTask(Some(b), edit) == Some(b.(columns := b.columns
      [c := b.columns[c].(tasks := ReorderTasks(b.columns[c].tasks, edit.id, b.columns[c].tasks[t].order, edit.order))]))
  {
    var cs := b.columns;
    ColumnIndexOfUnique(cs, c);
    TaskIndexOfUnique(cs[c].tasks, t);
    var r := MoveTaskWithinColumn(cs, edit.columnId, cs[c].tasks[t], edit.order);
    var expected := cs[c := cs[c].(tasks := ReorderTasks(cs[c].tasks, edit.id, cs[c].tasks[t].order, edit.order))];
    forall i | 0 <= i < |cs| ensures r[i] == expected[i] {
      ColumnIdsIdentify(cs, i, c);
    }
    assert r == expected;
  }

  /** Dropping a task onto the order it already has changes nothing. */
  lemma {:induction false} MoveTaskToOwnOrder(b: Board, edit: TaskEdit, c: nat, t: nat)
    requires UniqueColumnIds(b.columns) && c < |b.columns|
    requires edit.selfColumnId == edit.columnId == b.columns[c].id
    requires UniqueTaskIds(b.columns[c].tasks) && t < |b.columns[c].tasks|
    requires b.columns[c].tasks[t].id == edit.id && b.columns[c].tasks[t].order == edit.order
    ensures MoveTask(Some(b), edit) == Some(b)
  {
    var cs := b.columns;
    WithinColumnShape(b, edit, c, t);
    assert ReorderTasks(cs[c].tasks, edit.id, edit.order, edit.order) == cs[c].tasks;
    assert cs[c := cs[c].(tasks := cs[c].tasks)] == cs;
  }

  // ---------------------------------------------------------------------
  // Task moves across columns

  /**
   * Removing the task at position k: every other task keeps its relative
   * array position and only the orders above the removed one drop by one.
   */
  lemma {:induction false} RemoveTaskAt(ts: seq<Task>, k: nat)
    requires UniqueTaskIds(ts) && k < |ts|
    ensures |RemoveTask(ts, ts[k].id, ts[k].order)| == |ts| - 1
    ensures forall i :: 0 <= i < k ==> RemoveTask(ts, ts[k].id, ts[k].order)[i] == Lowered(ts[i], ts[k].order)
    ensures forall i :: k <= i < |ts| - 1 ==> RemoveTask(ts, ts[k].id, ts[k].order)[i] == Lowered(ts[i + 1], ts[k].order)
  {
    var id, d := ts[k].id, ts[k].order;
    if k == 0 {
      RemoveAbsent(ts[1..], id, d);
    } else {
      assert ts[1..][k - 1] == ts[k];
      assert UniqueTaskIds(ts[1..]);
      RemoveTaskAt(ts[1..], k - 1);
      assert ts[0].id != id;
    }
  }

  /** No task with the id: every task stays, lowered. */
  lemma {:induction false} RemoveAbsent(ts: seq<Task>, id: Id, d: int)
    requires forall i :: 0 <= i < |ts| ==> ts[i].id != id
    ensures |RemoveTask(ts, id, d)| == |ts|
    ensures forall i :: 0 <= i < |ts| ==> RemoveTask(ts, id, d)[i] == Lowered(ts[i], d)
  {
    if ts != [] {
      RemoveAbsent(ts[1..], id, d);
    }
  }

  /**
   * For any ids, the source column after removal holds exactly the lowered
   * copies of the tasks whose id differs from the dragged one: each is one
   * of them, and each of them is there.
   */
  lemma {:induction false} RemoveTaskKeepsOthers(ts: seq<Task>, dragId: Id, dragOrder: int)
    ensures forall i :: 0 <= i < |RemoveTask(ts, dragId, dragOrder)| ==>
      exists j :: 0 <= j < |ts| && ts[j].id != dragId && RemoveTask(ts, dragId, dragOrder)[i] == Lowered(ts[j], dragOrder)
    ensures forall j :: 0 <= j < |ts| && ts[j].id != dragId ==> Lowered(ts[j], dragOrder) in RemoveTask(ts, dragId, dragOrder)
  {
    if ts != [] {
      RemoveTaskKeepsOthers(ts[1..], dragId, dragOrder);
      var head := if ts[0].id != dragId then [Lowered(ts[0], dragOrder)] else [];
      var rest := RemoveTask(ts[1..], dragId, dragOrder);
      var r := RemoveTask(ts, dragId, dragOrder);
      assert r == head + rest;
      forall i | 0 <= i < |r|
        ensures exists j :: 0 <= j < |ts| && ts[j].id != dragId && r[i] == Lowered(ts[j], dragOrder)
      {
        if i < |head| {
          assert ts[0].id != dragId && r[i] == head[0] == Lowered(ts[0], dragOrder);
        } else {
          var j :| 0 <= j < |ts[1..]| && ts[1..][j].id != dragId && rest[i - |head|] == Lowered(ts[1..][j], dragOrder);
          assert r[i] == rest[i - |head|];
          assert ts[j + 1] == ts[1..][j];
          assert ts[j + 1].id != dragId && r[i] == Lowered(ts[j + 1], dragOrder);
        }
      }
      forall j | 0 <= j < |ts| && ts[j].id != dragId ensures Lowered(ts[j], dragOrder) in r {
        if j > 0 {
          assert ts[j] == ts[1..][j - 1];
        }
      }
    } else {
      assert RemoveTask(ts, dragId, dragOrder) == [];
    }
  }

  /** The order list left in the source column is the order model's `Closed`. */
  lemma {:induction false} RemoveTaskIsClosed(ts: seq<Task>, k: nat)
    requires UniqueTaskIds(ts) && k < |ts|
    ensures TaskOrders(RemoveTask(ts, ts[k].id, ts[k].order)) == Closed(TaskOrders(ts), k)
  {
    var rest := RemoveTask(ts, ts[k].id, ts[k].order);
    RemoveTaskAt(ts, k);
    var os := TaskOrders(ts);
    var r := TaskOrders(rest);
    var c := Closed(os, k);
    assert |r| == |c|;
    forall i | 0 <= i < |r| ensures r[i] == c[i] {
      if i < k {
        assert rest[i] == Lowered(ts[i], ts[k].order);
      } else {
        assert rest[i] == Lowered(ts[i + 1], ts[k].order);
      }
    }
  }

  /**
   * With unique column ids, a cross-column move of task t from column c to
   * column d replaces exactly those two columns: c without the task and
   * lowered above its order, d raised and with the task appended.
   */
  lemma {:induction false} TransferColumns(b: Board, edit: TaskEdit, c: nat, t: nat, d: nat)
    requires UniqueColumnIds(b.columns) && c < |b.columns| && d < |b.columns| && c != d
    requires edit.selfColumnId == b.columns[c].id && edit.columnId == b.columns[d].id
    requires UniqueTaskIds(b.columns[c].tasks) && t < |b.columns[c].tasks| && b.columns[c].tasks[t].id == edit.id
    ensures MoveTask(Some(b), edit) == Some(b.(columns := b.columns
      [c := b.columns[c].(tasks := RemoveTask(b.columns[c].tasks, edit.id, b.columns[c].tasks[t].order))]
      [d := b.columns[d].(tasks := InsertTask(b.columns[d].tasks, b.columns[c].tasks[t], edit.order))]))
  {
    var cs := b.columns;
    ColumnIndexOfUnique(cs, c);
    TaskIndexOfUnique(cs[c].tasks, t);
    ColumnIdsIdentify(cs, c, d);
    var r := TransferTask(cs, edit.selfColumnId, edit.columnId, cs[c].tasks[t], edit.order);
    var expected := cs
      [c := cs[c].(tasks := RemoveTask(cs[c].tasks, edit.id, cs[c].tasks[t].order))]
      [d := cs[d].(tasks := InsertTask(cs[d].tasks, cs[c].tasks[t], edit.order))];
    forall i | 0 <= i < |cs| ensures r[i] == expected[i] {
      if i != c && i != d {
        ColumnIdsIdentify(cs, i, c);
        ColumnIdsIdentify(cs, i, d);
      }
    }
    assert r == expected;
  }

  /**
   * A cross-column move: the source column c keeps dense orders with one
   * value fewer, the destination column d keeps dense orders with one value
   * more when the target lies in its range or one past its end, every other
   * column comes back unchanged, and the board holds as many tasks as before.
   */
  lemma {:induction false} TransferKeepsDense(b: Board, edit: TaskEdit, c: nat, t: nat, d: nat, loFrom: int, loTo: int)
    requires UniqueColumnIds(b.columns) && c < |b.columns| && d < |b.columns| && c != d
    requires edit.selfColumnId == b.columns[c].id && edit.columnId == b.columns[d].id
    requires UniqueTaskIds(b.columns[c].tasks) && t < |b.columns[c].tasks| && b.columns[c].tasks[t].id == edit.id
    requires Dense(TaskOrders(b.columns[c].tasks), loFrom) && Dense(TaskOrders(b.columns[d].tasks), loTo)
    requires loTo <= edit.order <= loTo + |b.columns[d].tasks|
    ensures MoveTask(Some(b), edit).Some?
    ensures forall i :: 0 <= i < |b.columns| && i != c && i != d ==> MoveTask(Some(b), edit).value.columns[i] == b.columns[i]
    ensures |MoveTask(Some(b), edit).value.columns[c].tasks| == |b.columns[c].tasks| - 1
    ensures Dense(TaskOrders(MoveTask(Some(b), edit).value.columns[c].tasks), loFrom)
    ensures |MoveTask(Some(b), edit).value.columns[d].tasks| == |b.columns[d].tasks| + 1
    ensures Dense(TaskOrders(MoveTask(Some(b), edit).value.columns[d].tasks), loTo)
    ensures TotalTasks(MoveTask(Some(b), edit).value.columns) == TotalTasks(b.columns)
  {
    var cs := b.columns;
    TransferColumns(b, edit, c, t, d);
    var removed := RemoveTask(cs[c].tasks, edit.id, cs[c].tasks[t].order);
    var inserted := InsertTask(cs[d].tasks, cs[c].tasks[t], edit.order);
    RemoveKeepsDense(cs[c].tasks, t, loFrom);
    InsertKeepsDense(cs[d].tasks, cs[c].tasks[t], edit.order, loTo);
    TotalTasksUpdate(cs, c, cs[c].(tasks := removed));
    TotalTasksUpdate(cs[c := cs[c].(tasks := removed)], d, cs[d].(tasks := inserted));
  }

  /** The source column after removal: one task fewer, dense from the same base. */
  lemma {:induction false} RemoveKeepsDense(ts: seq<Task>, t: nat, lo: int)
    requires UniqueTaskIds(ts) && t < |ts| && Dense(TaskOrders(ts), lo)
    ensures |RemoveTask(ts, ts[t].id, ts[t].order)| == |ts| - 1
    ensures Dense(TaskOrders(RemoveTask(ts, ts[t].id, ts[t].order)), lo)
  {
    RemoveTaskAt(ts, t);
    RemoveTaskIsClosed(ts, t);
    CloseKeepsDense(TaskOrders(ts), t, lo);
  }

  /** The destination column after insertion: one task more, dense from the same base. */
  lemma {:induction false} InsertKeepsDense(ts: seq<Task>, x: Task, h: int, lo: int)
    requires Dense(TaskOrders(ts), lo) && lo <= h <= lo + |ts|
    ensures Dense(TaskOrders(InsertTask(ts, x, h)), lo)
  {
    assert TaskOrders(InsertTask(ts, x, h)) == Opened(TaskOrders(ts), h);
    OpenKeepsDense(TaskOrders(ts), h, lo);
  }

  /**
   * Any task move, within a column or across columns, whose target order
   * lies in the destination's range keeps the column orders and every
   * column's task orders dense from the same base.
   */
  lemma {:induction false} MoveTaskKeepsOrdersDense(b: Board, edit: TaskEdit, c: nat, t: nat, d: nat, lo: int)
    requires UniqueColumnIds(b.columns) && forall i :: 0 <= i < |b.columns| ==> UniqueTaskIds(b.columns[i].tasks)
    requires OrdersDense(b.columns, lo)
    requires c < |b.columns| && b.columns[c].id == edit.selfColumnId
    requires t < |b.columns[c].tasks| && b.columns[c].tasks[t].id == edit.id
    requires d < |b.columns| && b.columns[d].id == edit.columnId
    requires lo <= edit.order <= lo + |b.columns[d].tasks|
    requires edit.selfColumnId == edit.columnId ==> edit.order < lo + |b.columns[d].tasks|
    ensures OrdersDense(MoveTask(Some(b), edit).value.columns, lo)
  {
    var cs := b.columns;
    var x := cs[c].tasks[t];
    if edit.selfColumnId == edit.columnId {
      ColumnIdsIdentify(cs, c, d);
      WithinColumnShape(b, edit, c, t);
      ReorderTasksIsMoved(cs[c].tasks, t, edit.order);
      MoveKeepsDense(TaskOrders(cs[c].tasks), t, edit.order, lo);
      ReplaceTasksKeepsDense(cs, c, ReorderTasks(cs[c].tasks, x.id, x.order, edit.order), lo);
    } else {
      ColumnIdsIdentify(cs, c, d);
      TransferColumns(b, edit, c, t, d);
      var removed := RemoveTask(cs[c].tasks, x.id, x.order);
      RemoveKeepsDense(cs[c].tasks, t, lo);
      ReplaceTasksKeepsDense(cs, c, removed, lo);
      InsertKeepsDense(cs[d].tasks, x, edit.order, lo);
      ReplaceTasksKeepsDense(cs[c := cs[c].(tasks := removed)], d, InsertTask(cs[d].tasks, x, edit.order), lo);
    }
  }

  /** The source column loses exactly the dragged task's id. */
  lemma {:induction false} RemoveTaskIds(ts: seq<Task>, t: nat)
    requires UniqueTaskIds(ts) && t < |ts|
    ensures multiset(TaskIds(RemoveTask(ts, ts[t].id, ts[t].order))) + multiset{ts[t].id} == multiset(TaskIds(ts))
  {
    RemoveTaskAt(ts, t);
    var ids := TaskIds(ts);
    assert TaskIds(RemoveTask(ts, ts[t].id, ts[t].order)) == ids[..t] + ids[t + 1..];
    assert ids == ids[..t] + [ids[t]] + ids[t + 1..];
  }

  /**
   * A task move whose source and destination columns exist keeps the
   * multiset of task ids on the board: no task is lost or duplicated.
   */
  lemma {:induction false} MoveTaskKeepsTaskIds(b: Board, edit: TaskEdit, c: nat, t: nat, d: nat)
    requires UniqueColumnIds(b.columns) && c < |b.columns| && d < |b.columns|
    requires b.columns[c].id == edit.selfColumnId && b.columns[d].id == edit.columnId
    requires UniqueTaskIds(b.columns[c].tasks) && t < |b.columns[c].tasks| && b.columns[c].tasks[t].id == edit.id
    ensures BoardTaskIds(MoveTask(Some(b), edit).value.columns) == BoardTaskIds(b.columns)
  {
    ColumnIdsIdentify(b.columns, c, d);
    if edit.selfColumnId == edit.columnId {
      WithinColumnKeepsTaskIds(b, edit, c, t);
    } else {
      TransferKeepsTaskIds(b, edit, c, t, d);
    }
  }

  lemma {:induction false} WithinColumnKeepsTaskIds(b: Board, edit: TaskEdit, c: nat, t: nat)
    requires UniqueColumnIds(b.columns) && c < |b.columns|
    requires edit.selfColumnId == edit.columnId == b.columns[c].id
    requires UniqueTaskIds(b.columns[c].tasks) && t < |b.columns[c].tasks| && b.columns[c].tasks[t].id == edit.id
    ensures BoardTaskIds(MoveTask(Some(b), edit).value.columns) == BoardTaskIds(b.columns)
  {
    var cs := b.columns;
    var x := cs[c].tasks[t];
    WithinColumnShape(b, edit, c, t);
    var reordered := ReorderTasks(cs[c].tasks, x.id, x.order, edit.order);
    assert TaskIds(reordered) == TaskIds(cs[c].tasks);
    BoardTaskIdsUpdate(cs, c, cs[c].(tasks := reordered));
    Cancel(BoardTaskIds(cs[c := cs[c].(tasks := reordered)]), BoardTaskIds(cs), multiset(TaskIds(cs[c].tasks)));
  }

  lemma {:induction false} TransferKeepsTaskIds(b: Board, edit: TaskEdit, c: nat, t: nat, d: nat)
    requires UniqueColumnIds(b.columns) && c < |b.columns| && d < |b.columns| && c != d
    requires edit.selfColumnId == b.columns[c].id && edit.columnId == b.columns[d].id
    requires UniqueTaskIds(b.columns[c].tasks) && t < |b.columns[c].tasks| && b.columns[c].tasks[t].id == edit.id
    ensures BoardTaskIds(MoveTask(Some(b), edit).value.columns) == BoardTaskIds(b.columns)
  {
    var cs := b.columns;
    var x := cs[c].tasks[t];
    TransferColumns(b, edit, c, t, d);
    var cs1 := cs[c := cs[c].(tasks := RemoveTask(cs[c].tasks, x.id, x.order))];
    LeaveRemovesId(cs, c, t);
    assert cs1[d] == cs[d];
    ArriveAddsId(cs1, d, x, edit.order);
  }

  /** The board after task t leaves column c holds its id once less. */
  lemma {:induction false} LeaveRemovesId(cs: seq<Column>, c: nat, t: nat)
    requires c < |cs| && UniqueTaskIds(cs[c].tasks) && t < |cs[c].tasks|
    ensures BoardTaskIds(cs[c := cs[c].(tasks := RemoveTask(cs[c].tasks, cs[c].tasks[t].id, cs[c].tasks[t].order))]) + multiset{cs[c].tasks[t].id} ==
      BoardTaskIds(cs)
  {
    var x := cs[c].tasks[t];
    var removed := RemoveTask(cs[c].tasks, x.id, x.order);
    RemoveTaskIds(cs[c].tasks, t);
    BoardTaskIdsUpdate(cs, c, cs[c].(tasks := removed));
    Swap(BoardTaskIds(cs[c := cs[c].(tasks := removed)]), BoardTaskIds(cs),
      multiset(TaskIds(cs[c].tasks)), multiset(TaskIds(removed)), multiset{x.id});
  }

  /** The board after task x arrives in column d holds its id once more. */
  lemma {:induction false} ArriveAddsId(cs: seq<Column>, d: nat, x: Task, h: int)
    requires d < |cs|
    ensures BoardTaskIds(cs[d := cs[d].(tasks := InsertTask(cs[d].tasks, x, h))]) == BoardTaskIds(cs) + multiset{x.id}
  {
    var inserted := InsertTask(cs[d].tasks, x, h);
    assert TaskIds(inserted) == TaskIds(cs[d].tasks) + [x.id];
    BoardTaskIdsUpdate(cs, d, cs[d].(tasks := inserted));
    Swap(BoardTaskIds(cs), BoardTaskIds(cs[d := cs[d].(tasks := inserted)]),
      multiset(TaskIds(inserted)), multiset(TaskIds(cs[d].tasks)), multiset{x.id});
  }

  /**
   * The updater does not check the destination: an edit naming a column
   * that is not on the board takes the task out of its source column and
   * puts it nowhere, so the board holds one task fewer.
   */
  lemma {:induction false} TransferToMissingColumnLosesTask(b: Board, edit: TaskEdit, c: nat, t: nat)
    requires UniqueColumnIds(b.columns) && c < |b.columns| && b.columns[c].id == edit.selfColumnId
    requires UniqueTaskIds(b.columns[c].tasks) && t < |b.columns[c].tasks| && b.columns[c].tasks[t].id == edit.id
    requires forall i :: 0 <= i < |b.columns| ==> b.columns[i].id != edit.columnId
    ensures BoardTaskIds(MoveTask(Some(b), edit).value.columns) + multiset{edit.id} == BoardTaskIds(b.columns)
    ensures TotalTasks(MoveTask(Some(b), edit).value.columns) == TotalTasks(b.columns) - 1
  {
    var cs := b.columns;
    var x := cs[c].tasks[t];
    ColumnIndexOfUnique(cs, c);
    TaskIndexOfUnique(cs[c].tasks, t);
    var removed := RemoveTask(cs[c].tasks, x.id, x.order);
    var r := TransferTask(cs, edit.selfColumnId, edit.columnId, x, edit.order);
    var expected := cs[c := cs[c].(tasks := removed)];
    forall i | 0 <= i < |cs| ensures r[i] == expected[i] {
      if i != c {
        ColumnIdsIdentify(cs, i, c);
      }
    }
    assert r == expected;
    LeaveRemovesId(cs, c, t);
    RemoveTaskAt(cs[c].tasks, t);
    TotalTasksUpdate(cs, c, cs[c].(tasks := removed));
  }

  // Proof helpers: multiset arithmetic over plain variables, which keeps the
  // solver away from the sequence terms the id lemmas above mention.

  lemma Cancel(n: multiset<Id>, m: multiset<Id>, a: multiset<Id>)
    requires n + a == m + a
    ensures n == m
  {
    assert forall y :: n[y] == (n + a)[y] - a[y] == (m + a)[y] - a[y];
  }

  /** If n + big == m + small and big == small + s then n + s == m. */
  lemma Swap(n: multiset<Id>, m: multiset<Id>, big: multiset<Id>, small: multiset<Id>, s: multiset<Id>)
    requires n + big == m + small && small + s == big
    ensures n + s == m
  {
    assert forall y :: (n + s)[y] == (n + big)[y] - small[y] == (m + small)[y] - small[y];
  }

  /**
   * A column move to an order in [1, 1 + n) keeps the board consistent:
   * ids are untouched, column orders stay dense and no task list changes.
   */
  lemma {:induction false} MoveColumnKeepsConsistent(b: Board, edit: ColumnEdit)
    requires Consistent(b) && 1 <= edit.order < 1 + |b.columns|
    ensures Consistent(MoveColumn(Some(b), edit).value)
  {
    MoveColumnKeepsDense(b, edit, 1);
    var r := MoveColumn(Some(b), edit).value.columns;
    SameTasksSameIds(r, b.columns);
    forall i | 0 <= i < |r| ensures Dense(TaskOrders(r[i].tasks), 1) {
      assert r[i].tasks == b.columns[i].tasks;
    }
    forall i, j | 0 <= i < j < |r| ensures r[i].id != r[j].id {
      assert r[i].id == b.columns[i].id && r[j].id == b.columns[j].id;
    }
  }

  /**
   * A task move from an existing column to an existing column, to an order
   * inside the destination's range, keeps the board consistent.
   */
  lemma {:induction false} MoveTaskKeepsConsistent(b: Board, edit: TaskEdit, c: nat, t: nat, d: nat)
    requires Consistent(b)
    requires c < |b.columns| && b.columns[c].id == edit.selfColumnId
    requires t < |b.columns[c].tasks| && b.columns[c].tasks[t].id == edit.id
    requires d < |b.columns| && b.columns[d].id == edit.columnId
    requires 1 <= edit.order <= 1 + |b.columns[d].tasks|
    requires edit.selfColumnId == edit.columnId ==> edit.order < 1 + |b.columns[d].tasks|
    ensures Consistent(MoveTask(Some(b), edit).value)
  {
    BoardUniqueIdsPerColumn(b.columns);
    MoveTaskKeepsOrdersDense(b, edit, c, t, d, 1);
    MoveTaskKeepsTaskIds(b, edit, c, t, d);
    var r := MoveTask(Some(b), edit).value.columns;
    forall i, j | 0 <= i < j < |r| ensures r[i].id != r[j].id {
      assert r[i].id == b.columns[i].id && r[j].id == b.columns[j].id;
    }
  }

  /** Boards whose columns hold the same task lists hold the same task ids. */
  lemma {:induction false} SameTasksSameIds(rs: seq<Column>, cs: seq<Column>)
    requires |rs| == |cs| && forall i :: 0 <= i < |cs| ==> rs[i].tasks == cs[i].tasks
    ensures BoardTaskIds(rs) == BoardTaskIds(cs)
  {
    if cs != [] {
      SameTasksSameIds(rs[1..], cs[1..]);
    }
  }

  /** Giving one column a dense task list keeps the whole board dense. */
  lemma {:induction false} ReplaceTasksKeepsDense(cs: seq<Column>, i: nat, ts: seq<Task>, lo: int)
    requires OrdersDense(cs, lo) && i < |cs| && Dense(TaskOrders(ts), lo)
    ensures OrdersDense(cs[i := cs[i].(tasks := ts)], lo)
  {
    assert ColumnOrders(cs[i := cs[i].(tasks := ts)]) == ColumnOrders(cs);
  }

  /** Replacing one column changes the task total by the difference in its size. */
  lemma {:induction false} TotalTasksUpdate(cs: seq<Column>, i: nat, col: Column)
    requires i < |cs|
    ensures TotalTasks(cs[i := col]) == TotalTasks(cs) - |cs[i].tasks| + |col.tasks|
  {
    if i == 0 {
      assert cs[i := col][1..] == cs[1..];
    } else {
      assert cs[i := col][1..] == cs[1..][i - 1 := col];
      TotalTasksUpdate(cs[1..], i - 1, col);
    }
  }
}
