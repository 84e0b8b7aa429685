# To-do list screen, modelled in Dafny

This project models the state logic of a small mobile to-do list screen. The
screen owns two state cells: the list of to-do items `todos` and the pending
input text `newTodo`. Four handlers change them:

- `addTodo` ignores input that is blank after trimming. Otherwise it puts a new
  uncompleted item, carrying the trimmed input, in front of the list and
  clears the input.
- `toggleTodo(id)` flips `completed` on every item with that id.
- `deleteTodo(id)` drops every item with that id.
- `setNewTodo(text)` stores the typed text as it is.

The project has three modules:

- `Text` (`text.dfy`) models ECMAScript's `String.prototype.trim`, using the
  whitespace and line-terminator set of ECMA-262 (sections 12.2 and 12.3).
  Lemmas characterise what it produces.
- `Todos` (`todos.dfy`) holds the item record and the two functions the
  handlers build new lists with: `Toggled` (the `map`) and `Deleted` (the
  `filter`). Lemmas cover length, order, kept fields, involution, membership,
  no-op cases and the text invariant.
- `TodoList` (`todo_list.dfy`) holds the screen state as a value (`Screen`)
  and the handlers as transition functions. It has an event log (`Event`,
  `Run`) for sequences of user actions. The class `TodoListScreen` has the
  two mutable fields. Each of its methods is specified by the matching
  transition function and keeps the invariant that every item's text is
  non-empty and trimmed.

The id of a new item comes from the clock (`Date.now().toString()`), so the
model takes it as an argument. The code never makes ids unique, and the model
does not assume they are. Toggle and delete therefore act on every item whose
id matches. `DeletedUnique` shows that delete removes exactly one item when the
id occurs once.

Data model (app/index.tsx:6-14):

- `Todos.TodoItem` is the `TodoItem` record of app/index.tsx:6-10: a string
  id, a string text and a `completed` flag.
- `TodoList.Screen` holds the screen's two state cells of
  app/index.tsx:13-14, `todos` and `newTodo`. `TodoList.Initial` is their
  initial value: an empty list and an empty string.
- `TodoList.Event` lists the user actions the render tree wires to the
  handlers (app/index.tsx:48, 51, 55, 69, 70). `TodoList.Entry` is one typed
  entry: its id and its raw text.
- `TodoList.TodoListScreen` is the screen as an object whose two fields the
  handlers overwrite.

## Model

| member | source | states |
|---|---|---|
| Text.IsWhitespace | app/index.tsx:17 | the characters `trim()` removes: ECMAScript WhiteSpace and LineTerminator (tab, line feed, vertical tab, form feed, carriage return, space, no-break space, byte-order mark, every Unicode Zs space, line and paragraph separators) |
| Text.TrimStart | app/index.tsx:17 | drops the leading whitespace of a string; its meaning is proved in `TrimStartSuffix` |
| Text.TrimEnd | app/index.tsx:17 | drops the trailing whitespace of a string; its meaning is proved in `TrimEndPrefix` |
| Text.Trim | app/index.tsx:17-21 | `trim()`, both ends stripped; characterised by `TrimIsInfix`, `TrimEmptyIff`, `TrimFixpoint` and `TrimIdempotent` |
| Text.TrimStartSuffix | app/index.tsx:17 | trimming the front keeps a suffix of the input; everything dropped is whitespace and the kept part does not start with whitespace |
| Text.TrimEndPrefix | app/index.tsx:17 | trimming the end keeps a prefix of the input; everything dropped is whitespace and the kept part does not end with whitespace |
| Text.TrimIsInfix | app/index.tsx:21 | `trim()` returns one contiguous block of the input with only whitespace removed on either side, and the block neither starts nor ends with whitespace |
| Text.TrimIsTrimmed | app/index.tsx:21 | the trimmed text has no leading or trailing whitespace and is no longer than the input |
| Text.TrimEmptyIff | app/index.tsx:17 | `trim() === ''` holds exactly when every character of the input is whitespace |
| Text.TrimFixpoint | app/index.tsx:21 | trim leaves a string unchanged exactly when it has no leading or trailing whitespace |
| Text.TrimIdempotent | app/index.tsx:21 | trimming twice equals trimming once |
| Todos.ToggleItem | app/index.tsx:31 | one item as the toggle leaves it: `completed` negated when its id matches, the item unchanged otherwise |
| Todos.Toggled | app/index.tsx:30-32 | the mapped list has the same length, and every item keeps its id and text; `completed` flips exactly on items whose id matches; every other item is unchanged |
| Todos.Deleted | app/index.tsx:36 | the filtered list is no longer than the input and contains no item with the deleted id |
| Todos.ToggledTwice | app/index.tsx:31 | toggling the same id twice restores the original list |
| Todos.ToggledAbsent | app/index.tsx:30-32 | toggling an id that no item has leaves the list unchanged |
| Todos.ToggledValid | app/index.tsx:30-32 | toggling keeps every item's text non-empty and trimmed |
| Todos.DeletedMembers | app/index.tsx:36 | an item is in the filtered list exactly when it is in the original list and its id differs |
| Todos.DeletedIsSubsequence | app/index.tsx:36 | the filtered list is a subsequence of the original, so the surviving items keep their original order |
| Todos.DeletedLength | app/index.tsx:36 | the filter removes exactly as many items as carry the id |
| Todos.DeletedUnique | app/index.tsx:36 | when the id occurs exactly once, delete removes exactly one item |
| Todos.DeletedAbsent | app/index.tsx:36 | deleting an id that no item has leaves the list unchanged |
| Todos.DeletedIdempotent | app/index.tsx:36 | deleting the same id a second time changes nothing |
| Todos.DeletedAppend | app/index.tsx:36 | the filter distributes over concatenation, so it acts item by item |
| Todos.DeletedAfterToggled | app/index.tsx:30-36 | deleting an id after toggling it gives the same list as deleting it directly |
| Todos.DeletedValid | app/index.tsx:36 | deleting keeps every item's text non-empty and trimmed |
| TodoList.Add | app/index.tsx:16-27 | the addTodo transition on the state value: blank trimmed input leaves the state as it is; otherwise the trimmed input becomes a new uncompleted item in front and the input is cleared; proved in `AddBlankIsNoOp` and `AddPrepends` |
| TodoList.Toggle | app/index.tsx:29-33 | the toggleTodo transition: the list becomes `Toggled` of the list and the input is kept |
| TodoList.Delete | app/index.tsx:35-37 | the deleteTodo transition: the list becomes `Deleted` of the list and the input is kept |
| TodoList.SetText | app/index.tsx:48 | the setNewTodo transition: the input becomes the raw text and the list is kept; proved in `SetTextKeepsItems` |
| TodoList.Step | app/index.tsx:48-70 | dispatches one user event to its handler: text change to setNewTodo, submit or add button to addTodo, a row's toggle and delete controls to toggleTodo and deleteTodo |
| TodoList.Run | app/index.tsx:48-70 | handles a sequence of user events one at a time, in order; its properties are `RunValid` and `SubmitsAreNewestFirst` |
| TodoList.AddBlankIsNoOp | app/index.tsx:17 | adding with blank input leaves both the list and the input unchanged |
| TodoList.AddPrepends | app/index.tsx:19-26 | adding with non-blank input makes the list one longer; the new item is at index 0 with the given id, the trimmed input as text (non-empty and trimmed) and `completed == false`; the old items follow in their order; the input becomes empty |
| TodoList.AddValid | app/index.tsx:16-27 | an add keeps every item's text non-empty and trimmed |
| TodoList.SetTextKeepsItems | app/index.tsx:48 | `setNewTodo` stores its argument untrimmed, never touches the list, and keeps the invariant |
| TodoList.RunValid | app/index.tsx:16-37 | after any sequence of typing, submit, toggle and delete events, every item's text is non-empty and trimmed |
| TodoList.RunTypeAndSubmit | app/index.tsx:48-55 | typing a text and then submitting is the add applied to that text |
| TodoList.SubmitsAreNewestFirst | app/index.tsx:25 | typing and submitting n non-blank entries adds n items, newest first, in front of the existing items, and leaves the input empty |
| TodoList.TodoListScreen.constructor | app/index.tsx:13-14 | a mounted screen has no items and an empty input, and satisfies the invariant |
| TodoList.TodoListScreen.AddTodo | app/index.tsx:16-27 | the new state is the add transition of the old state, and the invariant is kept |
| TodoList.TodoListScreen.ToggleTodo | app/index.tsx:29-33 | the list becomes `Toggled` of the old list, the input is unchanged, and the invariant is kept |
| TodoList.TodoListScreen.DeleteTodo | app/index.tsx:35-37 | the list becomes `Deleted` of the old list, the input is unchanged, and the invariant is kept |
| TodoList.TodoListScreen.SetNewTodo | app/index.tsx:48 | the input becomes the raw text, the list is unchanged, and the invariant is kept |
| TodoList.TodoListScreen.Handle | app/index.tsx:48-70 | a user event (text change, submit or add button, row toggle, row delete) moves the state by that event's transition |
| TodoList.Session | app/index.tsx:16-37 | on a fresh screen: adding two entries puts the newer first; toggling the older entry's id flips only that item; deleting the newer entry's id leaves only the older item; a blank submit changes neither the list nor the input |

## Left out

- Rendering and layout are not modelled: `KeyboardAvoidingView` and its `Platform.OS` branch, `TextInput`, `TouchableOpacity`, `FlatList`, the icons and the style sheets (app/index.tsx:39-117). They are framework calls with no state logic.
- The item row component (app/components/Todo.tsx) is not modelled. It is stateless and only forwards `onToggle(id)` and `onDelete(id)`. Those calls appear in the model as the `ToggleItem` and `DeleteItem` events.
- The clock behind `Date.now().toString()` is not modelled. The id is an argument of `AddTodo`, and ids are not assumed unique.
- React's state mechanics are not modelled: batched or asynchronous `setState`, re-rendering and stale closures. Each handler is one atomic step, and `addTodo`'s two updates land together.
- Strings are modelled as sequences of characters, not UTF-16 code units. Every character that trim removes is a single code unit, so trimming is the same under both views.
