/**
 * The drop handlers of the board (`onDragEnd`, `onBoardDragEnd` and
 * `onColumnDragEnd` in src/views/Board/components/Columns.tsx). They read
 * the board as rendered (the output of `Select`) and turn a finished drag
 * into the payload of one mutation.
 */
module DragDrop {
  import opened Wrappers
  import opened OrderModel
  import opened Entities
  import opened Reorder
  import opened Normalise

  /** `result.type`: columns are dragged in the 'BOARD' droppable, tasks between 'COLUMN' droppables. */
  datatype DroppableType = BoardDroppable | ColumnDroppable

  /** A `DraggableLocation`: the droppable's id and the position inside it. */
  datatype Location = Location(droppableId: Id, index: nat)

  /** A `DropResult`; `destination` is absent when the item is dropped outside every droppable. */
  datatype DropResult = DropResult(kind: DroppableType, source: Location, destination: Option<Location>)

  /** What a drop leads to. */
  datatype Mutation =
    | NoMutation
    | ModifyColumn(columnEdit: ColumnEdit)
    | ModifyTask(taskEdit: TaskEdit)
    | Fault  // the handler reads a property of `undefined` and throws a TypeError

  /**
   * `onBoardDragEnd`, over `Object.values(columnsLocal)`: a column dropped at
   * its own index sends nothing; otherwise the column at the source index
   * asks for the order of the column at the destination index, and an index
   * past the last column reads `undefined` and throws.
   */
  function OnBoardDragEnd(columns: seq<Column>, source: Location, destination: Location): (m: Mutation)
    ensures m == NoMutation <==> source.index == destination.index
    ensures m == Fault <==> source.index != destination.index && (source.index >= |columns| || destination.index >= |columns|)
    ensures m.ModifyColumn? <==> source.index != destination.index && source.index < |columns| && destination.index < |columns|
    ensures m.ModifyColumn? ==>
      m.columnEdit.id == columns[source.index].id &&
      m.columnEdit.title == columns[source.index].title &&
      m.columnEdit.order == columns[destination.index].order
  {
    if source.index == destination.index then NoMutation
    else if source.index >= |columns| || destination.index >= |columns| then Fault
    else
      ModifyColumn(ColumnEdit(columns[source.index].id, columns[source.index].title, columns[destination.index].order))
  }

  /**
   * `onColumnDragEnd`; `columnsLocal[id]` is the rendered column with that id.
   * It throws when either column is missing or, within one column, when the
   * destination index has no task; a dragged task the source column does not
   * have is treated as a fault too. Otherwise the dragged task is sent with
   * the order of the task at the drop position, or `index + 1` past the end
   * of another column, naming the source and the destination column.
   */
  function OnColumnDragEnd(columns: seq<Column>, boardId: Id, source: Location, destination: Location): (m: Mutation)
    ensures m != NoMutation
    ensures m.Fault? <==>
      ColumnIndex(columns, source.droppableId).None? || ColumnIndex(columns, destination.droppableId).None? ||
      source.index >= |columns[ColumnIndex(columns, source.droppableId).value].tasks| ||
      (source.droppableId == destination.droppableId &&
       destination.index >= |columns[ColumnIndex(columns, source.droppableId).value].tasks|)
    ensures m.ModifyTask? ==>
      var src := columns[ColumnIndex(columns, source.droppableId).value].tasks;
      var dst := columns[ColumnIndex(columns, destination.droppableId).value].tasks;
      var i := destination.index;
      source.index < |src| &&
      m.taskEdit == TaskEdit(src[source.index].id, src[source.index].title, src[source.index].description,
        src[source.index].userId, if i < |dst| then dst[i].order else i + 1,
        destination.droppableId, source.droppableId, boardId)
  {
    var s := ColumnIndex(columns, source.droppableId);
    var d := ColumnIndex(columns, destination.droppableId);
    if s.None? || d.None? then Fault
    else
      var srcTasks := columns[s.value].tasks;
      var dstTasks := columns[d.value].tasks;
      var sameColumn := source.droppableId == destination.droppableId;
      var moveOrder := if destination.index < |dstTasks| then dstTasks[destination.index].order else destination.index + 1;
      if source.index >= |srcTasks| then Fault
      else if sameColumn && destination.index >= |srcTasks| then Fault
      else
        var edited := srcTasks[source.index];
        ModifyTask(TaskEdit(
          edited.id, edited.title, edited.description, edited.userId,
          if sameColumn then srcTasks[destination.index].order else moveOrder,
          if sameColumn then source.droppableId else destination.droppableId,
          source.droppableId, boardId))
  }

  /**
   * `onDragEnd` on the rendered columns. Nothing is sent only for a drop
   * outside every droppable or a column dropped where it started; a task
   * drop always yields a mutation or a fault. A moved column asks for the
   * order of the column it lands on. A moved task asks for the order of the
   * task at its drop position, or for `index + 1` past the end of another
   * column, and names both columns.
   */
  function OnDragEnd(columns: seq<Column>, boardId: Id, result: DropResult): (m: Mutation)
    ensures m == NoMutation <==>
      result.destination.None? ||
      (result.kind.BoardDroppable? && result.source.index == result.destination.value.index)
    ensures m.ModifyColumn? ==>
      result.kind.BoardDroppable? && result.destination.Some? &&
      result.source.index < |columns| && result.destination.value.index < |columns| &&
      m.columnEdit.id == columns[result.source.index].id &&
      m.columnEdit.title == columns[result.source.index].title &&
      m.columnEdit.order == columns[result.destination.value.index].order
    ensures m.ModifyTask? ==>
      result.kind.ColumnDroppable? && result.destination.Some? &&
      ColumnIndex(columns, result.source.droppableId).Some? &&
      ColumnIndex(columns, result.destination.value.droppableId).Some?
    ensures m.ModifyTask? ==>
      var src := columns[ColumnIndex(columns, result.source.droppableId).value].tasks;
      result.source.index < |src| && m.taskEdit.id == src[result.source.index].id &&
      m.taskEdit.title == src[result.source.index].title &&
      m.taskEdit.description == src[result.source.index].description &&
      m.taskEdit.userId == src[result.source.index].userId
    ensures m.ModifyTask? ==> m.taskEdit.columnId == result.destination.value.droppableId
    ensures m.ModifyTask? ==> m.taskEdit.selfColumnId == result.source.droppableId && m.taskEdit.boardId == boardId
    ensures m.ModifyTask? ==>
      var dst := columns[ColumnIndex(columns, result.destination.value.droppableId).value].tasks;
      var i := result.destination.value.index;
      (result.source.droppableId == result.destination.value.droppableId ==> i < |dst|) &&
      m.taskEdit.order == if i < |dst| then dst[i].order else i + 1
  {
    match result.destination
    case None => NoMutation
    case Some(destination) =>
      match result.kind
      case BoardDroppable => OnBoardDragEnd(columns, result.source, destination)
      case ColumnDroppable => OnColumnDragEnd(columns, boardId, result.source, destination)
  }

  /**
   * What the drag library guarantees about a drop on the rendered columns:
   * the source position holds an item, the destination droppable exists,
   * and the destination index is at most the length of the destination list
   * (less than it when the item stays in its own list).
   */
  predicate LibraryDrop(columns: seq<Column>, result: DropResult) {
    match result.kind
    case BoardDroppable =>
      result.source.index < |columns| &&
      (result.destination.Some? ==> result.destination.value.index < |columns|)
    case ColumnDroppable =>
      ColumnIndex(columns, result.source.droppableId).Some? &&
      result.source.index < |columns[ColumnIndex(columns, result.source.droppableId).value].tasks| &&
      (result.destination.Some? ==>
        ColumnIndex(columns, result.destination.value.droppableId).Some? &&
        var n := |columns[ColumnIndex(columns, result.destination.value.droppableId).value].tasks|;
        if result.source.droppableId == result.destination.value.droppableId
        then result.destination.value.index < n
        else result.destination.value.index <= n)
  }

  /** A drop the library can report never makes a handler throw. */
  lemma {:induction false} LibraryDropNeverFaults(columns: seq<Column>, boardId: Id, result: DropResult)
    requires LibraryDrop(columns, result)
    ensures OnDragEnd(columns, boardId, result) != Fault
  {
  }

  /**
   * A column drop on the rendered board asks for an order inside the cached
   * board's range, so its optimistic update keeps the board consistent.
   */
  lemma {:induction false} ColumnDropKeepsConsistent(b: Board, boardId: Id, result: DropResult)
    requires Consistent(b)
    requires OnDragEnd(Select(b).columns, boardId, result).ModifyColumn?
    ensures Consistent(MoveColumn(Some(b), OnDragEnd(Select(b).columns, boardId, result).columnEdit).value)
  {
    var v := Select(b).columns;
    var e := OnDragEnd(v, boardId, result).columnEdit;
    var d := result.destination.value.index;
    SelectColumnOrigin(b, d);
    var j :| 0 <= j < |b.columns| && v[d] == WithSortedTasks(b.columns[j]);
    assert ColumnOrders(b.columns)[j] == e.order;
    MoveColumnKeepsConsistent(b, e);
  }

  /** The task a drop on the rendered board names is a task of the cached source column. */
  lemma {:induction false} DraggedTaskIsCached(b: Board, boardId: Id, result: DropResult) returns (c: nat, t: nat)
    requires OnDragEnd(Select(b).columns, boardId, result).ModifyTask?
    ensures c < |b.columns| && b.columns[c].id == OnDragEnd(Select(b).columns, boardId, result).taskEdit.selfColumnId
    ensures t < |b.columns[c].tasks| && b.columns[c].tasks[t].id == OnDragEnd(Select(b).columns, boardId, result).taskEdit.id
  {
    var v := Select(b).columns;
    var s' := ColumnIndex(v, result.source.droppableId).value;
    SelectColumnOrigin(b, s');
    c :| 0 <= c < |b.columns| && v[s'] == WithSortedTasks(b.columns[c]);
    var x := v[s'].tasks[result.source.index];
    assert x in multiset(b.columns[c].tasks);
    t :| 0 <= t < |b.columns[c].tasks| && b.columns[c].tasks[t] == x;
  }

  /**
   * A task drop on the rendered board asks for an order inside the range of
   * the cached destination column: below 1 + n within one column, at most
   * 1 + n (one past the end) when the task comes from another column.
   */
  lemma {:induction false} TaskDropOrderInRange(b: Board, boardId: Id, result: DropResult) returns (d: nat)
    requires OrdersDense(b.columns, 1)
    requires LibraryDrop(Select(b).columns, result)
    requires OnDragEnd(Select(b).columns, boardId, result).ModifyTask?
    ensures d < |b.columns| && b.columns[d].id == OnDragEnd(Select(b).columns, boardId, result).taskEdit.columnId
    ensures var e := OnDragEnd(Select(b).columns, boardId, result).taskEdit;
      1 <= e.order <= 1 + |b.columns[d].tasks| &&
      (e.selfColumnId == e.columnId ==> e.order < 1 + |b.columns[d].tasks|)
  {
    var v := Select(b).columns;
    var e := OnDragEnd(v, boardId, result).taskEdit;
    var dest := result.destination.value;
    var d' := ColumnIndex(v, dest.droppableId).value;
    var dst := v[d'].tasks;
    assert e.order == if dest.index < |dst| then dst[dest.index].order else dest.index + 1;
    assert e.selfColumnId == e.columnId ==> dest.index < |dst|;
    assert dest.index <= |dst|;
    assert v[d'].id == e.columnId;
    SelectColumnOrigin(b, d');
    d :| 0 <= d < |b.columns| && v[d'] == WithSortedTasks(b.columns[d]);
    ViewOrderInRange(b.columns[d], dest.index);
  }

  /** The order at a position of a column's sorted tasks is one of its dense orders. */
  lemma {:induction false} ViewOrderInRange(c: Column, i: nat)
    requires Dense(TaskOrders(c.tasks), 1) && i <= |c.tasks|
    ensures var dst := WithSortedTasks(c).tasks;
      |dst| == |c.tasks| &&
      1 <= (if i < |dst| then dst[i].order else i + 1) <= 1 + |c.tasks| &&
      (i < |dst| ==> dst[i].order < 1 + |c.tasks|)
  {
    var dst := WithSortedTasks(c).tasks;
    assert |multiset(dst)| == |c.tasks|;
    if i < |dst| {
      assert dst[i] in multiset(c.tasks);
      var u :| 0 <= u < |c.tasks| && c.tasks[u] == dst[i];
      assert TaskOrders(c.tasks)[u] == dst[i].order;
    }
  }

  /** A task drop on the rendered board keeps the cached board consistent. */
  lemma {:induction false} TaskDropKeepsConsistent(b: Board, boardId: Id, result: DropResult)
    requires Consistent(b)
    requires LibraryDrop(Select(b).columns, result)
    requires OnDragEnd(Select(b).columns, boardId, result).ModifyTask?
    ensures Consistent(MoveTask(Some(b), OnDragEnd(Select(b).columns, boardId, result).taskEdit).value)
  {
    var e := OnDragEnd(Select(b).columns, boardId, result).taskEdit;
    var c, t := DraggedTaskIsCached(b, boardId, result);
    var d := TaskDropOrderInRange(b, boardId, result);
    MoveTaskKeepsConsistent(b, e, c, t, d);
  }

  /**
   * The whole pipeline keeps the board consistent: when the cached board has
   * unique column and task ids and 1-based dense orders, any drop the
   * library can report on the rendered board sends an edit whose optimistic
   * update leaves ids unique and every order list dense from 1 again, so
   * this holds after any sequence of drops.
   */
  lemma {:induction false} DropKeepsConsistent(b: Board, boardId: Id, result: DropResult)
    requires Consistent(b)
    requires LibraryDrop(Select(b).columns, result)
    ensures OnDragEnd(Select(b).columns, boardId, result) != Fault
    ensures OnDragEnd(Select(b).columns, boardId, result).ModifyColumn? ==>
      Consistent(MoveColumn(Some(b), OnDragEnd(Select(b).columns, boardId, result).columnEdit).value)
    ensures OnDragEnd(Select(b).columns, boardId, result).ModifyTask? ==>
      Consistent(MoveTask(Some(b), OnDragEnd(Select(b).columns, boardId, result).taskEdit).value)
  {
    var m := OnDragEnd(Select(b).columns, boardId, result);
    LibraryDropNeverFaults(Select(b).columns, boardId, result);
    if m.ModifyColumn? {
      ColumnDropKeepsConsistent(b, boardId, result);
    } else if m.ModifyTask? {
      TaskDropKeepsConsistent(b, boardId, result);
    }
  }

  /**
   * With 0-based orders the past-the-end rule would leave a gap: a task
   * dropped after the last task of another column, whose orders are
   * 0, ..., n - 1, asks for n + 1, so the column is no longer dense from 0.
   */
  lemma {:induction false} ZeroBasedPastEndLeavesGap(columns: seq<Column>, boardId: Id, result: DropResult, d: nat)
    requires UniqueColumnIds(columns) && d < |columns|
    requires result.kind.ColumnDroppable? && result.destination.Some?
    requires result.destination.value.droppableId == columns[d].id != result.source.droppableId
    requires result.destination.value.index == |columns[d].tasks|
    requires Dense(TaskOrders(columns[d].tasks), 0)
    requires OnDragEnd(columns, boardId, result).ModifyTask?
    ensures OnDragEnd(columns, boardId, result).taskEdit.order == |columns[d].tasks| + 1
    ensures !Dense(Opened(TaskOrders(columns[d].tasks), OnDragEnd(columns, boardId, result).taskEdit.order), 0)
  {
    ColumnIndexOfUnique(columns, d);
  }
}
