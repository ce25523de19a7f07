/**
 * The query-cache entry `boards/{boardId}` and the optimistic-update
 * protocol of the two modify mutations in
 * src/views/Board/components/Columns.tsx: `onMutate` takes a snapshot of
 * the entry and writes the optimistic board, and `onError` writes the
 * snapshot back. The server's answer is a parameter: `true` when the
 * request succeeds.
 */
module Cache {
  import opened Wrappers
  import opened Entities
  import opened Reorder
  import opened Normalise
  import opened DragDrop

  class BoardCache {
    /** The raw board as fetched (the query's `select` applies on read), or nothing before the first fetch. */
    var data: Option<Board>

    constructor(initial: Option<Board>)
      ensures data == initial
    {
      data := initial;
    }

    /** What the board page renders: the selected board. */
    function View(): (r: Option<Board>)
      reads this
      ensures r.None? <==> data.None?
      ensures r.Some? ==> Normalised(r.value) && |r.value.columns| == |data.value.columns|
      ensures r.Some? ==> r.value == Select(data.value)
    {
      match data
      case None => None
      case Some(b) => Some(Select(b))
    }

    /** `onMutate` of the column mutation: returns the snapshot and writes the moved board. */
    method ApplyColumnEdit(edit: ColumnEdit) returns (previous: Option<Board>)
      modifies this
      ensures previous == old(data)
      ensures data == MoveColumn(old(data), edit)
    {
      previous := data;
      data := MoveColumn(data, edit);
    }

    /** `onMutate` of the task mutation: returns the snapshot and writes the moved board. */
    method ApplyTaskEdit(edit: TaskEdit) returns (previous: Option<Board>)
      modifies this
      ensures previous == old(data)
      ensures data == MoveTask(old(data), edit)
    {
      previous := data;
      data := MoveTask(data, edit);
    }

    /** `onError` of either mutation: the snapshot goes back into the cache. */
    method Restore(previous: Option<Board>)
      modifies this
      ensures data == previous
    {
      data := previous;
    }

    /**
     * One column mutation from `mutate` to settlement: the optimistic board
     * stays when the server accepts, and a rejection rolls the cache back to
     * exactly the board it held before.
     */
    method EditColumn(edit: ColumnEdit, serverAccepts: bool)
      modifies this
      ensures data == if serverAccepts then MoveColumn(old(data), edit) else old(data)
    {
      var previous := ApplyColumnEdit(edit);
      if !serverAccepts {
        Restore(previous);
      }
    }

    /** One task mutation from `mutate` to settlement, with the same rollback. */
    method EditTask(edit: TaskEdit, serverAccepts: bool)
      modifies this
      ensures data == if serverAccepts then MoveTask(old(data), edit) else old(data)
    {
      var previous := ApplyTaskEdit(edit);
      if !serverAccepts {
        Restore(previous);
      }
    }

    /**
     * A finished drag on the rendered board: the handler builds its payload
     * from the view, the matching mutation runs, and a drop that sends
     * nothing or throws leaves the cache alone. When the cached board is
     * consistent (unique ids, 1-based dense orders) and the drop is one the
     * library can report, the cache is consistent afterwards whatever the
     * server answers, so consistency holds across any sequence of drops.
     */
    method Drop(boardId: Id, result: DropResult, serverAccepts: bool) returns (m: Mutation)
      requires data.Some?
      modifies this
      ensures m == OnDragEnd(Select(old(data).value).columns, boardId, result)
      ensures m.ModifyColumn? ==> data == if serverAccepts then MoveColumn(old(data), m.columnEdit) else old(data)
      ensures m.ModifyTask? ==> data == if serverAccepts then MoveTask(old(data), m.taskEdit) else old(data)
      ensures m.NoMutation? || m.Fault? ==> data == old(data)
      ensures data.Some?
      ensures Consistent(old(data).value) && LibraryDrop(Select(old(data).value).columns, result)
        ==> m != Fault && Consistent(data.value)
    {
      var b := data.value;
      m := OnDragEnd(View().value.columns, boardId, result);
      if Consistent(b) && LibraryDrop(Select(b).columns, result) {
        DropKeepsConsistent(b, boardId, result);
      }
      match m {
        case ModifyColumn(e) => EditColumn(e, serverAccepts);
        case ModifyTask(e) => EditTask(e, serverAccepts);
        case NoMutation =>
        case Fault =>
      }
    }
  }
}
