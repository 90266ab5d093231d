/**
 The to-do list widget's state and its four transitions, lifted out of the view
 layer as pure functions: each takes the current state (the list and the text
 field's value) and returns the next one. The timestamp that names a new item
 is a parameter of `Submit`.
 */
module Todos {
  import opened JsString

  datatype Todo = Todo(id: int, text: string, completed: bool)

  /** `todos` is the list in display order; `input` is the text field's value. */
  datatype State = State(todos: seq<Todo>, input: string)

  const Initial := State([], "")

  /** The ids of a list, position by position. */
  function Ids(xs: seq<Todo>): (r: seq<int>)
    ensures |r| == |xs|
    ensures forall i :: 0 <= i < |xs| ==> r[i] == xs[i].id
  {
    seq(|xs|, i requires 0 <= i < |xs| => xs[i].id)
  }

  predicate HasId(xs: seq<Todo>, id: int) {
    exists i :: 0 <= i < |xs| && xs[i].id == id
  }

  /** No value occurs twice. */
  predicate Distinct(xs: seq<int>) {
    forall i, j :: 0 <= i < j < |xs| ==> xs[i] != xs[j]
  }

  /** No two items share an id. */
  predicate UniqueIds(xs: seq<Todo>) {
    Distinct(Ids(xs))
  }

  /** How many items of the list carry the id. */
  function Count(xs: seq<Todo>, id: int): (n: nat)
    ensures n <= |xs|
    ensures n == 0 <==> !HasId(xs, id)
  {
    if xs == [] then 0
    else (if xs[0].id == id then 1 else 0) + Count(xs[1..], id)
  }

  /** The item after one click on its checkbox. */
  function Flip(t: Todo): Todo {
    t.(completed := !t.completed)
  }

  /** `toggleTodo`'s map: every item whose id matches has its flag flipped. */
  function ToggleAll(xs: seq<Todo>, id: int): (r: seq<Todo>)
    ensures |r| == |xs|
    ensures forall i :: 0 <= i < |xs| ==>
      && r[i].id == xs[i].id
      && r[i].text == xs[i].text
      && r[i].completed == (if xs[i].id == id then !xs[i].completed else xs[i].completed)
  {
    if xs == [] then []
    else [if xs[0].id == id then Flip(xs[0]) else xs[0]] + ToggleAll(xs[1..], id)
  }

  /** `deleteTodo`'s filter: the items whose id differs, in their original order. */
  function RemoveAll(xs: seq<Todo>, id: int): (r: seq<Todo>)
    ensures |r| == |xs| - Count(xs, id)
    ensures forall t :: t in r <==> t in xs && t.id != id
  {
    if xs == [] then []
    else if xs[0].id == id then RemoveAll(xs[1..], id)
    else [xs[0]] + RemoveAll(xs[1..], id)
  }

  /** `handleSubmit`: a blank field changes nothing; otherwise the raw, untrimmed
      text becomes a new unchecked item at the end and the field is cleared. */
  function Submit(s: State, newId: int): (r: State)
    ensures IsBlank(s.input) ==> r == s
    ensures !IsBlank(s.input) ==>
      && |r.todos| == |s.todos| + 1
      && r.todos[..|s.todos|] == s.todos
      && r.todos[|s.todos|] == Todo(newId, s.input, false)
      && r.input == ""
  {
    if IsBlank(s.input) then s
    else State(s.todos + [Todo(newId, s.input, false)], "")
  }

  /** The checkbox handler: the items with the id are flipped, every other item is
      kept as it was, and the text field is untouched. */
  function Toggle(s: State, id: int): (r: State)
    ensures r.input == s.input
    ensures |r.todos| == |s.todos|
    ensures Ids(r.todos) == Ids(s.todos)
    ensures forall i :: 0 <= i < |s.todos| ==>
      r.todos[i] == (if s.todos[i].id == id then Flip(s.todos[i]) else s.todos[i])
  {
    State(ToggleAll(s.todos, id), s.input)
  }

  /** The delete button's handler: exactly the items with the id go, every other
      item stays, and the text field is untouched. */
  function Delete(s: State, id: int): (r: State)
    ensures r.input == s.input
    ensures !HasId(r.todos, id)
    ensures |r.todos| == |s.todos| - Count(s.todos, id)
    ensures forall t :: t in r.todos <==> t in s.todos && t.id != id
  {
    State(RemoveAll(s.todos, id), s.input)
  }

  /** The text field's change handler: the value is stored exactly as typed. */
  function SetInput(s: State, value: string): (r: State)
    ensures r.input == value
    ensures r.todos == s.todos
  {
    s.(input := value)
  }
}
