/**
 * The board records the client caches and the payloads it sends when a
 * column or a task is moved (src/interfaces/index.ts).
 */
module Entities {
  import opened OrderModel

  type Id = string

  datatype Task = Task(id: Id, title: string, order: int, description: string, userId: Id, files: seq<string>)

  datatype Column = Column(id: Id, title: string, order: int, tasks: seq<Task>)

  datatype Board = Board(id: Id, title: string, description: string, columns: seq<Column>)

  /** Body of `PUT boards/{board}/columns/{id}`: the column's new order. */
  datatype ColumnEdit = ColumnEdit(id: Id, title: string, order: int)

  /**
   * Body of `PUT boards/{board}/columns/{selfColumnId}/tasks/{id}`: the task
   * moves from column `selfColumnId` to column `columnId` with order `order`.
   */
  datatype TaskEdit = TaskEdit(
    id: Id, title: string, description: string, userId: Id,
    order: int, columnId: Id, selfColumnId: Id, boardId: Id)

  function ColumnOrders(cs: seq<Column>): (os: seq<int>)
    ensures |os| == |cs| && forall i :: 0 <= i < |cs| ==> os[i] == cs[i].order
  {
    seq(|cs|, i requires 0 <= i < |cs| => cs[i].order)
  }

  function TaskOrders(ts: seq<Task>): (os: seq<int>)
    ensures |os| == |ts| && forall i :: 0 <= i < |ts| ==> os[i] == ts[i].order
  {
    seq(|ts|, i requires 0 <= i < |ts| => ts[i].order)
  }

  predicate UniqueColumnIds(cs: seq<Column>) {
    forall i, j :: 0 <= i < j < |cs| ==> cs[i].id != cs[j].id
  }

  predicate UniqueTaskIds(ts: seq<Task>) {
    forall i, j :: 0 <= i < j < |ts| ==> ts[i].id != ts[j].id
  }

  /** The column orders, and the task orders of every column, are dense from `lo`. */
  predicate OrdersDense(cs: seq<Column>, lo: int) {
    Dense(ColumnOrders(cs), lo) && forall i :: 0 <= i < |cs| ==> Dense(TaskOrders(cs[i].tasks), lo)
  }

  function TaskIds(ts: seq<Task>): (ids: seq<Id>)
    ensures |ids| == |ts| && forall i :: 0 <= i < |ts| ==> ids[i] == ts[i].id
  {
    seq(|ts|, i requires 0 <= i < |ts| => ts[i].id)
  }

  /** The ids of every task on the board, with their multiplicities. */
  function BoardTaskIds(cs: seq<Column>): multiset<Id> {
    if cs == [] then multiset{} else multiset(TaskIds(cs[0].tasks)) + BoardTaskIds(cs[1..])
  }

  /** No task id occurs twice anywhere on the board. */
  ghost predicate UniqueBoardTaskIds(cs: seq<Column>) {
    forall x :: BoardTaskIds(cs)[x] <= 1
  }

  /**
   * The board the client can keep consistent: unique column ids, unique task
   * ids and orders dense from 1 among the columns and within every column.
   */
  ghost predicate Consistent(b: Board) {
    UniqueColumnIds(b.columns) && UniqueBoardTaskIds(b.columns) && OrdersDense(b.columns, 1)
  }

  /** A column's task ids are among the board's. */
  lemma {:induction false} ColumnTaskIdsOnBoard(cs: seq<Column>, i: nat)
    requires i < |cs|
    ensures multiset(TaskIds(cs[i].tasks)) <= BoardTaskIds(cs)
  {
    if i > 0 {
      ColumnTaskIdsOnBoard(cs[1..], i - 1);
    }
  }

  /** An id held by two tasks of a list is counted twice. */
  lemma {:induction false} RepeatedIdCountedTwice(ts: seq<Task>, a: nat, b: nat)
    requires a < b < |ts| && ts[a].id == ts[b].id
    ensures multiset(TaskIds(ts))[ts[a].id] >= 2
  {
    var ids := TaskIds(ts);
    assert ids == ids[..a] + [ids[a]] + ids[a + 1..b] + [ids[b]] + ids[b + 1..];
  }

  /** Ids unique on the board are unique within every column. */
  lemma {:induction false} BoardUniqueIdsPerColumn(cs: seq<Column>)
    requires UniqueBoardTaskIds(cs)
    ensures forall i :: 0 <= i < |cs| ==> UniqueTaskIds(cs[i].tasks)
  {
    forall i, a, b | 0 <= i < |cs| && 0 <= a < b < |cs[i].tasks|
      ensures cs[i].tasks[a].id != cs[i].tasks[b].id
    {
      if cs[i].tasks[a].id == cs[i].tasks[b].id {
        RepeatedIdCountedTwice(cs[i].tasks, a, b);
        ColumnTaskIdsOnBoard(cs, i);
      }
    }
  }

  /** Replacing one column swaps its task ids for the new column's on the board. */
  lemma {:induction false} BoardTaskIdsUpdate(cs: seq<Column>, i: nat, col: Column)
    requires i < |cs|
    ensures BoardTaskIds(cs[i := col]) + multiset(TaskIds(cs[i].tasks)) == BoardTaskIds(cs) + multiset(TaskIds(col.tasks))
  {
    var u := cs[i := col];
    assert BoardTaskIds(cs) == multiset(TaskIds(cs[0].tasks)) + BoardTaskIds(cs[1..]);
    assert BoardTaskIds(u) == multiset(TaskIds(u[0].tasks)) + BoardTaskIds(u[1..]);
    if i == 0 {
      assert u[1..] == cs[1..];
      SwapFirst(multiset(TaskIds(col.tasks)), multiset(TaskIds(cs[0].tasks)), BoardTaskIds(cs[1..]));
    } else {
      assert u[1..] == cs[1..][i - 1 := col];
      assert u[0] == cs[0] && cs[1..][i - 1] == cs[i];
      BoardTaskIdsUpdate(cs[1..], i - 1, col);
      KeepFirst(multiset(TaskIds(cs[0].tasks)), BoardTaskIds(u[1..]), BoardTaskIds(cs[1..]),
        multiset(TaskIds(cs[i].tasks)), multiset(TaskIds(col.tasks)));
    }
  }

  // Proof helpers: multiset arithmetic over plain variables, used by
  // BoardTaskIdsUpdate.

  lemma SwapFirst(n: multiset<Id>, o: multiset<Id>, r: multiset<Id>)
    ensures n + r + o == o + r + n
  {
  }

  lemma KeepFirst(h: multiset<Id>, a: multiset<Id>, b: multiset<Id>, o: multiset<Id>, n: multiset<Id>)
    requires a + o == b + n
    ensures h + a + o == h + b + n
  {
    assert forall y :: (h + a + o)[y] == h[y] + (a + o)[y];
  }

  /** Number of tasks on all the given columns. */
  function TotalTasks(cs: seq<Column>): nat {
    if cs == [] then 0 else |cs[0].tasks| + TotalTasks(cs[1..])
  }
}
