/**
 * The to-do list screen: the list of items and the pending input text it
 * owns, and the handlers that change them. Each handler is one atomic
 * transition; the id of a new item, which the screen takes from the clock, is
 * an argument here.
 */
module TodoList {
  import opened Text
  import opened Todos

  /** The two pieces of state the screen owns. */
  datatype Screen = Screen(todos: seq<TodoItem>, newTodo: string)

  /** The state at mount: no items, empty input. */
  const Initial: Screen := Screen([], "")

  /** The screen's invariant: every item's text is non-empty and trimmed. */
  predicate Valid(s: Screen) {
    ValidItems(s.todos)
  }

  /** addTodo: ignored when the trimmed input is empty; otherwise a new
      uncompleted item with the trimmed input goes in front and the input is
      cleared. */
  function Add(s: Screen, id: string): Screen {
    var text := Trim(s.newTodo);
    if text == [] then s
    else Screen([TodoItem(id, text, false)] + s.todos, "")
  }

  /** toggleTodo(id). */
  function Toggle(s: Screen, id: string): Screen {
    s.(todos := Toggled(s.todos, id))
  }

  /** deleteTodo(id). */
  function Delete(s: Screen, id: string): Screen {
    s.(todos := Deleted(s.todos, id))
  }

  /** setNewTodo(text), as wired to the input's onChangeText. */
  function SetText(s: Screen, text: string): Screen {
    s.(newTodo := text)
  }

  /** An add with blank input changes nothing at all. */
  lemma AddBlankIsNoOp(s: Screen, id: string)
    requires AllWhitespace(s.newTodo)
    ensures Add(s, id) == s
  {
    TrimEmptyIff(s.newTodo);
  }

  /** An add with non-blank input puts one new, valid, uncompleted item in
      front of the old items, kept in order, and clears the input. */
  lemma AddPrepends(s: Screen, id: string)
    requires !AllWhitespace(s.newTodo)
    ensures var r := Add(s, id);
      && |r.todos| == |s.todos| + 1
      && r.todos[0].id == id
      && r.todos[0].text == Trim(s.newTodo)
      && ValidText(r.todos[0].text)
      && !r.todos[0].completed
      && r.todos[1..] == s.todos
      && r.newTodo == ""
  {
    var text := Trim(s.newTodo);
    TrimEmptyIff(s.newTodo);
    TrimIdempotent(s.newTodo);
    assert text != [] && Trim(text) == text;
    assert Add(s, id) == Screen([TodoItem(id, text, false)] + s.todos, "");
  }

  /** An add keeps the screen's invariant: the new text is the trimmed input. */
  lemma AddValid(s: Screen, id: string)
    requires Valid(s)
    ensures Valid(Add(s, id))
  {
    TrimIdempotent(s.newTodo);
  }

  /** setNewTodo stores the text as typed and never touches the items. */
  lemma SetTextKeepsItems(s: Screen, text: string)
    ensures SetText(s, text).newTodo == text
    ensures SetText(s, text).todos == s.todos
    ensures Valid(s) ==> Valid(SetText(s, text))
  {
  }

  /** The user events that reach the screen's handlers: typing into the input,
      submitting it (the keyboard's submit or the add button), and the toggle
      and delete controls of an item row. */
  datatype Event =
    | ChangeText(text: string)
    | Submit(id: string)
    | ToggleItem(id: string)
    | DeleteItem(id: string)

  /** The transition one event causes. */
  function Step(s: Screen, e: Event): Screen {
    match e
    case ChangeText(text) => SetText(s, text)
    case Submit(id) => Add(s, id)
    case ToggleItem(id) => Toggle(s, id)
    case DeleteItem(id) => Delete(s, id)
  }

  /** The state after handling the events one at a time, in order. */
  function Run(s: Screen, events: seq<Event>): Screen
    decreases |events|
  {
    if events == [] then s else Run(Step(s, events[0]), events[1..])
  }

  /** The invariant holds after any sequence of events. */
  lemma {:induction false} RunValid(s: Screen, events: seq<Event>)
    requires Valid(s)
    ensures Valid(Run(s, events))
    decreases |events|
  {
    if events != [] {
      var e := events[0];
      match e {
        case ChangeText(text) => SetTextKeepsItems(s, text);
        case Submit(id) => AddValid(s, id);
        case ToggleItem(id) => ToggledValid(s.todos, id);
        case DeleteItem(id) => DeletedValid(s.todos, id);
      }
      RunValid(Step(s, e), events[1..]);
    }
  }

  /** An entry the user types and submits: the clock value that becomes the
      id, and the raw text. */
  datatype Entry = Entry(id: string, raw: string)

  /** The events of typing and submitting each entry in turn. */
  function TypeAndSubmit(entries: seq<Entry>): seq<Event> {
    if entries == [] then []
    else [ChangeText(entries[0].raw), Submit(entries[0].id)] + TypeAndSubmit(entries[1..])
  }

  /** The items that entries become, newest first. */
  function NewestFirst(entries: seq<Entry>): seq<TodoItem> {
    if entries == [] then []
    else NewestFirst(entries[1..]) + [TodoItem(entries[0].id, Trim(entries[0].raw), false)]
  }

  /** Typing then submitting is the add applied to the typed text. */
  lemma RunTypeAndSubmit(s: Screen, e: Entry, rest: seq<Entry>)
    ensures Run(s, TypeAndSubmit([e] + rest))
         == Run(Add(SetText(s, e.raw), e.id), TypeAndSubmit(rest))
  {
  }

  /** Typing and submitting non-blank entries adds one item per entry, the
      most recent one first, in front of the items already there, and leaves
      the input empty. */
  lemma {:induction false} SubmitsAreNewestFirst(s: Screen, entries: seq<Entry>)
    requires forall k :: 0 <= k < |entries| ==> !AllWhitespace(entries[k].raw)
    ensures Run(s, TypeAndSubmit(entries)).todos == NewestFirst(entries) + s.todos
    ensures entries != [] ==> Run(s, TypeAndSubmit(entries)).newTodo == ""
    decreases |entries|
  {
    if entries != [] {
      var e, rest := entries[0], entries[1..];
      assert entries == [e] + rest;
      RunTypeAndSubmit(s, e, rest);
      var typed := SetText(s, e.raw);
      var s' := Add(typed, e.id);
      AddPrepends(typed, e.id);
      assert s'.todos == [TodoItem(e.id, Trim(e.raw), false)] + s.todos by {
        assert s'.todos[1..] == s.todos;
      }
      assert forall k :: 0 <= k < |rest| ==> !AllWhitespace(rest[k].raw) by {
        forall k | 0 <= k < |rest| ensures !AllWhitespace(rest[k].raw) {
          assert rest[k] == entries[k + 1];
        }
      }
      SubmitsAreNewestFirst(s', rest);
      if rest == [] {
        assert TypeAndSubmit(rest) == [];
      }
      var item := TodoItem(e.id, Trim(e.raw), false);
      assert NewestFirst(entries) == NewestFirst(rest) + [item] by {
        assert entries[0] == e && entries[1..] == rest;
      }
    }
  }

  /** The screen object. Its two fields are the screen's two state cells; each
      handler replaces their values. */
  class TodoListScreen {
    var todos: seq<TodoItem>
    var newTodo: string

    /** The state as a value. */
    function State(): Screen
      reads this
    {
      Screen(todos, newTodo)
    }

    /** The screen's invariant on its current state. */
    predicate Invariant()
      reads this
    {
      Valid(State())
    }

    /** Mounting the screen: no items and an empty input. */
    constructor ()
      ensures State() == Initial
      ensures Invariant()
    {
      todos := [];
      newTodo := "";
    }

    /** addTodo, with the id the clock would supply. */
    method AddTodo(id: string)
      requires Invariant()
      modifies this
      ensures State() == Add(old(State()), id)
      ensures Invariant()
    {
      AddValid(State(), id);
      var text := Trim(newTodo);
      if text == [] {
        return;
      }
      var todo := TodoItem(id, text, false);
      todos := [todo] + todos;
      newTodo := "";
    }

    /** toggleTodo(id). */
    method ToggleTodo(id: string)
      requires Invariant()
      modifies this
      ensures State() == Toggle(old(State()), id)
      ensures Invariant()
    {
      ToggledValid(todos, id);
      todos := Toggled(todos, id);
    }

    /** deleteTodo(id). */
    method DeleteTodo(id: string)
      requires Invariant()
      modifies this
      ensures State() == Delete(old(State()), id)
      ensures Invariant()
    {
      DeletedValid(todos, id);
      todos := Deleted(todos, id);
    }

    /** setNewTodo(text): the raw text, untrimmed. */
    method SetNewTodo(text: string)
      requires Invariant()
      modifies this
      ensures State() == SetText(old(State()), text)
      ensures Invariant()
    {
      newTodo := text;
    }

    /** Handles one user event. */
    method Handle(e: Event)
      requires Invariant()
      modifies this
      ensures State() == Step(old(State()), e)
      ensures Invariant()
    {
      match e
      case ChangeText(text) => SetNewTodo(text);
      case Submit(id) => AddTodo(id);
      case ToggleItem(id) => ToggleTodo(id);
      case DeleteItem(id) => DeleteTodo(id);
    }
  }

  /** A session on a fresh screen: type and add a first entry, then a second
      whose raw text trims to its item text, toggle the first, delete the
      second, then submit blank input. Newest items come first, the toggle and
      the delete touch only the item they name, and the blank submit changes
      nothing. */
  method Session(first: string, secondRaw: string, blank: string)
    requires ValidText(first) && !AllWhitespace(secondRaw) && AllWhitespace(blank)
  {
    var screen := new TodoListScreen();
    screen.SetNewTodo(first);
    TrimFixpoint(first);
    screen.AddTodo("1");
    assert screen.todos == [TodoItem("1", first, false)];
    assert screen.newTodo == "";

    var second := Trim(secondRaw);
    screen.SetNewTodo(secondRaw);
    TrimEmptyIff(secondRaw);
    screen.AddTodo("2");
    assert screen.todos == [TodoItem("2", second, false), TodoItem("1", first, false)];

    screen.ToggleTodo("1");
    assert screen.todos == [TodoItem("2", second, false), TodoItem("1", first, true)];

    ghost var kept := [TodoItem("1", first, true)];
    assert screen.todos[1..] == kept;
    assert Deleted(kept, "2") == kept;
    screen.DeleteTodo("2");
    assert screen.todos == [TodoItem("1", first, true)];

    screen.SetNewTodo(blank);
    TrimEmptyIff(blank);
    screen.AddTodo("3");
    assert screen.todos == [TodoItem("1", first, true)] && screen.newTodo == blank;
  }
}
