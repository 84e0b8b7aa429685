/**
 * The to-do items and the two list operations the screen builds new lists
 * with: a map that flips the completion flag of the items with a given id,
 * and a filter that drops them. Ids are plain strings and nothing makes them
 * unique, so both operations act on every item whose id matches.
 */
module Todos {
  import opened Text

  /** One to-do item: its id, its text and whether it is done. */
  datatype TodoItem = TodoItem(id: string, text: string, completed: bool)

  /** The text an item may carry: non-empty and already trimmed. */
  predicate ValidText(text: string) {
    text != [] && Trim(text) == text
  }

  /** Every item of the list carries a valid text. */
  predicate ValidItems(todos: seq<TodoItem>) {
    forall i :: 0 <= i < |todos| ==> ValidText(todos[i].text)
  }

  /** Some item of the list has this id. */
  predicate HasId(todos: seq<TodoItem>, id: string) {
    exists i :: 0 <= i < |todos| && todos[i].id == id
  }

  /** The number of items with this id. */
  function CountId(todos: seq<TodoItem>, id: string): (n: nat)
    ensures n <= |todos|
    ensures n == 0 <==> !HasId(todos, id)
  {
    if todos == [] then 0
    else (if todos[0].id == id then 1 else 0) + CountId(todos[1..], id)
  }

  /** a is a subsequence of b: a is b with some items left out, in b's order. */
  predicate IsSubsequence(a: seq<TodoItem>, b: seq<TodoItem>)
    decreases |b|
  {
    if a == [] then true
    else if b == [] then false
    else if a[0] == b[0] then IsSubsequence(a[1..], b[1..])
    else IsSubsequence(a, b[1..])
  }

  /** The item as the toggle map leaves it. */
  function ToggleItem(t: TodoItem, id: string): TodoItem {
    if t.id == id then t.(completed := !t.completed) else t
  }

  /** The toggle handler's new list: flips `completed` on every item whose id
      is `id` and keeps every other item as it is. */
  function Toggled(todos: seq<TodoItem>, id: string): (r: seq<TodoItem>)
    ensures |r| == |todos|
    ensures forall i :: 0 <= i < |r| ==> r[i].id == todos[i].id && r[i].text == todos[i].text
    ensures forall i :: 0 <= i < |r| ==> r[i].completed == (todos[i].completed != (todos[i].id == id))
    ensures forall i :: 0 <= i < |r| && todos[i].id != id ==> r[i] == todos[i]
  {
    if todos == [] then [] else [ToggleItem(todos[0], id)] + Toggled(todos[1..], id)
  }

  /** The delete handler's new list: keeps, in order, the items whose id
      differs from `id`. */
  function Deleted(todos: seq<TodoItem>, id: string): (r: seq<TodoItem>)
    ensures |r| <= |todos|
    ensures forall i :: 0 <= i < |r| ==> r[i].id != id
  {
    if todos == [] then []
    else if todos[0].id == id then Deleted(todos[1..], id)
    else [todos[0]] + Deleted(todos[1..], id)
  }

  /** Toggling the same id twice gives back the original list. */
  lemma ToggledTwice(todos: seq<TodoItem>, id: string)
    ensures Toggled(Toggled(todos, id), id) == todos
  {
  }

  /** Toggling an id no item has leaves the list as it is. */
  lemma ToggledAbsent(todos: seq<TodoItem>, id: string)
    requires !HasId(todos, id)
    ensures Toggled(todos, id) == todos
  {
  }

  /** Toggling keeps every item's text, so it keeps the text invariant. */
  lemma ToggledValid(todos: seq<TodoItem>, id: string)
    requires ValidItems(todos)
    ensures ValidItems(Toggled(todos, id))
  {
  }

  /** The filter keeps exactly the items whose id differs. */
  lemma {:induction false} DeletedMembers(todos: seq<TodoItem>, id: string, t: TodoItem)
    ensures t in Deleted(todos, id) <==> t in todos && t.id != id
  {
    if todos != [] {
      DeletedMembers(todos[1..], id, t);
      assert todos == [todos[0]] + todos[1..];
    }
  }

  /** The filter keeps the surviving items in their original order. */
  lemma {:induction false} DeletedIsSubsequence(todos: seq<TodoItem>, id: string)
    ensures IsSubsequence(Deleted(todos, id), todos)
  {
    if todos != [] {
      DeletedIsSubsequence(todos[1..], id);
      var r := Deleted(todos, id);
      if todos[0].id != id {
        assert r[0] == todos[0] && r[1..] == Deleted(todos[1..], id);
      } else if r != [] {
        assert r[0] != todos[0];
      }
    }
  }

  /** The filter removes one item per occurrence of the id. */
  lemma {:induction false} DeletedLength(todos: seq<TodoItem>, id: string)
    ensures |Deleted(todos, id)| == |todos| - CountId(todos, id)
  {
    if todos != [] {
      DeletedLength(todos[1..], id);
    }
  }

  /** With a unique id, deleting removes exactly one item. */
  lemma DeletedUnique(todos: seq<TodoItem>, id: string)
    requires CountId(todos, id) == 1
    ensures |Deleted(todos, id)| == |todos| - 1
  {
    DeletedLength(todos, id);
  }

  /** Deleting an id no item has leaves the list as it is. */
  lemma {:induction false} DeletedAbsent(todos: seq<TodoItem>, id: string)
    requires !HasId(todos, id)
    ensures Deleted(todos, id) == todos
  {
    if todos != [] {
      assert todos[0].id != id;
      assert !HasId(todos[1..], id) by {
        forall i | 0 <= i < |todos| - 1 ensures todos[1..][i].id != id {
          assert todos[1..][i] == todos[i + 1];
        }
      }
      DeletedAbsent(todos[1..], id);
    }
  }

  /** Deleting the same id again changes nothing. */
  lemma DeletedIdempotent(todos: seq<TodoItem>, id: string)
    ensures Deleted(Deleted(todos, id), id) == Deleted(todos, id)
  {
  }

  /** The filter works item by item, so it distributes over concatenation. */
  lemma {:induction false} DeletedAppend(a: seq<TodoItem>, b: seq<TodoItem>, id: string)
    ensures Deleted(a + b, id) == Deleted(a, id) + Deleted(b, id)
  {
    if a != [] {
      DeletedAppend(a[1..], b, id);
      assert (a + b)[1..] == a[1..] + b;
    } else {
      assert a + b == b;
    }
  }

  /** Deleting after toggling the same id is the same as deleting alone. */
  lemma {:induction false} DeletedAfterToggled(todos: seq<TodoItem>, id: string)
    ensures Deleted(Toggled(todos, id), id) == Deleted(todos, id)
  {
    if todos != [] {
      DeletedAfterToggled(todos[1..], id);
      assert Toggled(todos, id)[1..] == Toggled(todos[1..], id);
    }
  }

  /** Deleting keeps a subset of the items, so it keeps the text invariant. */
  lemma DeletedValid(todos: seq<TodoItem>, id: string)
    requires ValidItems(todos)
    ensures ValidItems(Deleted(todos, id))
  {
  }
}
