/**
 * The to-do challenge: the next free id is one more than the largest id in
 * use (or 1 for none), and adding an item appends a fresh `Todo` item to the
 * module-level list.
 */
module TodoApp {
  import opened JsValues

  datatype TodoStatus = Todo | InProgress | Done

  datatype TodoItem = TodoItem(id: int, title: string, status: TodoStatus, completedOn: Option<Date>)

  /**
   * `items.reduce((max, x) => (x.id > max ? x.id : max), acc)`: the largest of
   * `acc` and the ids.
   */
  function MaxIdFrom(items: seq<TodoItem>, acc: int): (m: int)
    ensures acc <= m
    ensures forall i :: 0 <= i < |items| ==> items[i].id <= m
    ensures m == acc || exists i :: 0 <= i < |items| && items[i].id == m
  {
    if items == [] then acc
    else MaxIdFrom(items[1..], if items[0].id > acc then items[0].id else acc)
  }

  /**
   * `getNextId(items)`: one more than the largest of 0 and the ids, so above
   * every id in use and at least 1.
   */
  function NextId(items: seq<TodoItem>): (n: int)
    ensures n >= 1
    ensures forall i :: 0 <= i < |items| ==> items[i].id < n
    ensures n == 1 || exists i :: 0 <= i < |items| && items[i].id == n - 1
  {
    MaxIdFrom(items, 0) + 1
  }

  lemma NextIdOfEmpty()
    ensures NextId([]) == 1
  {
  }

  /** No two items share an id. */
  predicate DistinctIds(items: seq<TodoItem>)
  {
    forall i, j :: 0 <= i < j < |items| ==> items[i].id != items[j].id
  }

  /** Appending an item with the next id keeps the ids distinct. */
  lemma AppendNextIdKeepsIdsDistinct(items: seq<TodoItem>, todo: string)
    requires DistinctIds(items)
    ensures DistinctIds(items + [TodoItem(NextId(items), todo, Todo, None)])
  {
  }

  /** The three items the list starts with. */
  function InitialTodoItems(): seq<TodoItem>
  {
    [ TodoItem(1, "Learn HTML", Done, Some(Date("2021-09-11"))),
      TodoItem(2, "Learn TypeScript", InProgress, None),
      TodoItem(3, "Write the best app in the world", Done, None) ]
  }

  lemma InitialNextIdIsFour()
    ensures DistinctIds(InitialTodoItems())
    ensures NextId(InitialTodoItems()) == 4
  {
  }

  /** The module-level `todoItems` array. */
  class TodoList {
    var items: seq<TodoItem>

    constructor ()
      ensures items == InitialTodoItems()
    {
      items := InitialTodoItems();
    }

    /**
     * `addTodoItem(todo)`: push a new `Todo` item titled `todo` with the next
     * id, and return it.
     */
    method AddTodoItem(todo: string) returns (item: TodoItem)
      modifies this
      ensures item == TodoItem(NextId(old(items)), todo, Todo, None)
      ensures items == old(items) + [item]
      ensures forall i :: 0 <= i < |old(items)| ==> old(items)[i].id != item.id
      ensures DistinctIds(old(items)) ==> DistinctIds(items)
    {
      var id := NextId(items);
      item := TodoItem(id, todo, Todo, None);
      assert DistinctIds(items) ==> DistinctIds(items + [item]) by {
        if DistinctIds(items) {
          AppendNextIdKeepsIdsDistinct(items, todo);
        }
      }
      items := items + [item];
    }
  }

  /** The sample call: the first item added to the initial list gets id 4. */
  method AddFirstTodo() returns (item: TodoItem)
    ensures item == TodoItem(4, "Buy lots of stuff with all the money we make from the app", Todo, None)
  {
    var list := new TodoList();
    InitialNextIdIsFour();
    item := list.AddTodoItem("Buy lots of stuff with all the money we make from the app");
  }
}
