# To-do list widget: a Dafny model

The repository's one piece of logic is the state of its to-do list page
(`todo-app/src/App.jsx`). The state is a list of items plus the current value of
the text field. Each item is `(id, text, completed)`. Four handlers change it:

- submitting the form appends a new item unless the field is blank;
- a checkbox flips the `completed` flag of the items with its id;
- a delete button removes the items with its id;
- typing stores the field's value.

This project lifts those handlers out of React as pure functions over an
immutable `State(todos, input)`, and proves what each one promises.

Files:

- `jsstring.dfy` (module `JsString`): `String.prototype.trim` from ECMAScript, and
  the blank test the submit handler performs with it. Trimming strips the
  ECMAScript WhiteSpace and LineTerminator code points. These are TAB, VT, FF,
  U+FEFF, the Unicode Zs code points (U+0020, U+00A0, U+1680, U+2000 to U+200A,
  U+202F, U+205F, U+3000), LF, CR, U+2028 and U+2029.
- `todos.dfy` (module `Todos`): the `Todo` and `State` datatypes and the four
  transitions `Submit`, `Toggle`, `Delete` and `SetInput`, with the list
  functions `ToggleAll` (the `map`) and `RemoveAll` (the `filter`).
- `todo_props.dfy` (module `TodoProperties`): lemmas relating the transitions.
  Toggling twice restores the list. Removal is exactly the order-preserving
  filter. Unknown ids change nothing. Distinct ids stay distinct.
- `session.dfy` (module `Session`): user events, a run of events, the invariant
  every reached state keeps, and the example scenarios.

The new item's id comes from `Date.now()` in the code. Here it is a parameter
of `Submit`, and of the `Submitted` event. The code follows these rules, and so
does the model:

- The stored text is the raw field value (`todo-app/src/App.jsx:14`). It is
  trimmed only for the blank test. `ScenarioRawTextKept` pins this down.
- Toggle and delete act on every item whose id matches, not just the first one
  (`todo-app/src/App.jsx:24`, `todo-app/src/App.jsx:29`).
- Nothing makes ids unique. Uniqueness is proved only for runs whose submitted
  ids are fresh. `SubmitWithTakenIdCollides` shows what happens otherwise.

The page starts with an empty list and an empty field
(`todo-app/src/App.jsx:5-6`). That is `Todos.Initial`, where every scenario in
`session.dfy` begins. `Session.Step` sends each user event to its handler: the
form's `onSubmit`, the field's `onChange`, a checkbox's `onChange` and a delete
button's `onClick`.

## Model

| member | source | states |
|---|---|---|
| Todos.Submit | todo-app/src/App.jsx:8-20 | A blank field leaves the state unchanged. Otherwise the list grows by exactly one, the old list is an unchanged prefix, the new last item is `(newId, raw input, false)`, and the field becomes empty. |
| Todos.SetInput | todo-app/src/App.jsx:39 | The field holds exactly the typed value, untrimmed, and the list is untouched. |
| Todos.ToggleAll | todo-app/src/App.jsx:23-25 | Same length, ids and texts at every position; `completed` is negated exactly at the positions whose id matches and kept everywhere else. |
| Todos.Toggle | todo-app/src/App.jsx:22-26 | Every item whose id matches is replaced by its flipped copy and every other item is kept exactly, so the length and the sequence of ids are unchanged; the field is untouched. |
| Todos.RemoveAll | todo-app/src/App.jsx:29 | The result is shorter by exactly the number of items carrying the id. It holds an item iff the input holds it with a different id. |
| Todos.Delete | todo-app/src/App.jsx:28-30 | The list shrinks by exactly the number of items carrying the id, and holds an item iff the old list held it with a different id, so no item with the id remains; the field is untouched. |
| Todos.Count | todo-app/src/App.jsx:29 | The number of items carrying an id is at most the length, and is zero iff no item carries it. |
| TodoProperties.ToggleAllPointwise | todo-app/src/App.jsx:24 | Each item is replaced by its flipped copy when its id matches and is otherwise left exactly as it was. |
| TodoProperties.ToggleTwiceRestores | todo-app/src/App.jsx:23-24 | Toggling the same id twice gives back the original list. |
| TodoProperties.ToggleStateTwiceRestores | todo-app/src/App.jsx:22-26 | Two clicks on the same checkbox give back the original state. |
| TodoProperties.ToggleUnknownIdUnchanged | todo-app/src/App.jsx:23-24 | Toggling an id that no item carries leaves the list unchanged. |
| TodoProperties.ToggleKeepsUniqueIds | todo-app/src/App.jsx:23-24 | Pairwise-distinct ids stay pairwise distinct after a toggle. |
| TodoProperties.RemoveAllAppend | todo-app/src/App.jsx:29 | Removal distributes over concatenation, so the kept items keep their relative order. |
| TodoProperties.RemoveAllIsSubsequence | todo-app/src/App.jsx:29 | The kept items form a subsequence of the original list, in the original order. |
| TodoProperties.RemoveAllIsUniqueFilter | todo-app/src/App.jsx:29 | Any list that is an order-preserving subsequence of the input, holds no item with the id, and is as long as the items without it, equals `RemoveAll`. |
| TodoProperties.RemoveUnknownIdUnchanged | todo-app/src/App.jsx:29 | Deleting an id that no item carries leaves the list unchanged. |
| TodoProperties.RemoveAllIdempotent | todo-app/src/App.jsx:29 | Deleting the same id a second time changes nothing further. |
| TodoProperties.RemoveWithUniqueIds | todo-app/src/App.jsx:28-30 | With pairwise-distinct ids, deleting a present id removes exactly one item, and deleting an absent one returns the list unchanged. |
| TodoProperties.RemoveKeepsUniqueIds | todo-app/src/App.jsx:29 | Pairwise-distinct ids stay pairwise distinct after a delete. |
| TodoProperties.RemoveAfterToggle | todo-app/src/App.jsx:22-30 | Deleting an id after toggling it gives the same list as deleting it straight away. |
| TodoProperties.SubmitKeepsUniqueIds | todo-app/src/App.jsx:12-18 | If the ids are pairwise distinct and the new id is fresh, they stay pairwise distinct after a submit. |
| TodoProperties.SubmitWithTakenIdCollides | todo-app/src/App.jsx:13 | A non-blank submit with an id already in the list leaves two items sharing that id. |
| JsString.TrimStartSpec | todo-app/src/App.jsx:10 | The leading part `trim` drops is all trimmable, and what it keeps is an empty suffix or one that starts with a non-trimmable character. |
| JsString.TrimEndSpec | todo-app/src/App.jsx:10 | The trailing part `trim` drops is all trimmable, and what it keeps is an empty prefix or one that ends with a non-trimmable character. |
| JsString.TrimIsInnerSlice | todo-app/src/App.jsx:10 | `trim` returns a contiguous slice of its input. Everything before and after the slice is trimmable, and a non-empty slice starts and ends with non-trimmable characters. |
| JsString.Trim | todo-app/src/App.jsx:10 | `trim` never lengthens its input, and what it returns is empty or starts and ends with a character that is neither ECMAScript whitespace nor a line terminator. |
| JsString.IsBlank | todo-app/src/App.jsx:10 | The test `!input.trim()` holds iff every character of the field is ECMAScript whitespace or a line terminator. |
| JsString.TrimEmptyIffAllTrimmable | todo-app/src/App.jsx:10 | Trimming leaves the empty string iff every character of the input is trimmable. |
| JsString.VisibleCharNotBlank | todo-app/src/App.jsx:10 | A single non-whitespace character makes the field non-blank. |
| Session.Step | todo-app/src/App.jsx:35-55 | Typing sets the field and keeps the list. A submit of a blank field changes nothing; any other submit keeps the old list as a prefix, appends `(stamp, input, false)` and clears the field. A checkbox keeps the field and the length and flips exactly the items with its id. A delete keeps the field, drops exactly the items with its id and keeps every other one. Only a submit can lengthen the list. |
| Session.StepIdsFromBefore | todo-app/src/App.jsx:8-30 | After one event, every id in the list was there before or is the id that event submitted. |
| Session.StepKeepsValid | todo-app/src/App.jsx:8-30 | One event keeps ids distinct and texts non-blank, provided that a submit of a non-blank field brings an id the list does not hold; a blank submit needs no such id. |
| Session.FreshStampsAfterStep | todo-app/src/App.jsx:13 | Once the first event is handled, the ids the later submits bring are still fresh. |
| Session.RunKeepsValid | todo-app/src/App.jsx:8-39 | Every run from a valid state whose submitted ids are fresh ends in a state where ids are pairwise distinct and no text is blank. |
| Session.TypeAndSubmit | todo-app/src/App.jsx:8-20 | Typing a non-blank text and submitting it appends `(id, text, false)` and clears the field. |
| Session.AddingNonBlankTexts | todo-app/src/App.jsx:8-20 | Adding n non-blank texts appends exactly n unchecked items, in order, with their raw texts and ids, and leaves the field empty. Adding none leaves the state as it was. |
| Session.AddOneThenCheck | todo-app/src/App.jsx:8-26 | Adding one text to the empty list gives that one unchecked item, and checking it gives the same item completed. |
| Session.ScenarioBuyMilk | todo-app/src/App.jsx:8-26 | Adding "Buy milk" gives `[(t, "Buy milk", false)]` with an empty field. Checking it gives `[(t, "Buy milk", true)]`. |
| Session.AddTwoDeleteFirst | todo-app/src/App.jsx:8-30 | Adding two texts with different ids and deleting the first leaves only the second. |
| Session.ScenarioDeleteFirst | todo-app/src/App.jsx:8-30 | Adding "A" and "B" and deleting "A" leaves exactly `[(b, "B", false)]`. |
| Session.ScenarioRawTextKept | todo-app/src/App.jsx:14 | Submitting " A " stores " A ", surrounding spaces included. |
| Session.AddBlankIgnored | todo-app/src/App.jsx:10 | Submitting a whitespace-only field on the empty list leaves the list empty and the field as typed. |
| Session.ScenarioTwoSpaces | todo-app/src/App.jsx:10 | Submitting two spaces on the empty list adds nothing. |

## Left out

- Rendering: the JSX tree, the stylesheet import, the strikethrough style and the fixed Japanese labels (`todo-app/src/App.jsx:2`, `32-60`). They only project the state to the screen.
- React plumbing: the `useState` setters, re-render scheduling and `e.preventDefault()` (`todo-app/src/App.jsx:5-9`). The state is passed in and returned explicitly instead, and only the hooks' initial values are kept, as `Todos.Initial`.
- The clock: `Date.now()` (`todo-app/src/App.jsx:13`) is a nondeterministic host call. It is replaced by an integer id parameter. No bound or monotonicity is assumed for it.
- JavaScript numbers: ids are unbounded integers. The code compares doubles with `===`, which agrees for the millisecond timestamps the clock produces.
- UTF-16: strings are sequences of Unicode scalar values. Lone surrogates cannot be represented, and none of them is whitespace, so the blank test is unaffected.
- `tests/test_env.py` and `tests/test_black_format.py`: an environment smoke test (library versions, random floats, a plot file) and a code-formatter fixture. Neither exercises the widget.
