/**
 A session of the widget: the user events the page delivers, one transition per
 event, and what holds of every state a run of events reaches.
 */
module Session {
  import opened JsString
  import opened Todos
  import opened TodoProperties

  /** One user interaction. `Submitted` carries the clock reading the new item
      would take as its id. */
  datatype Event =
    | Typed(value: string)
    | Submitted(stamp: int)
    | Checked(id: int)
    | Removed(id: int)

  /** The handler an event triggers. Typing only sets the field. A submit of a
      blank field changes nothing; any other submit appends one unchecked item with
      the raw text and clears the field. A checkbox flips exactly the items with
      its id, and a delete button drops exactly those items and keeps the rest.
      Both leave the field alone, and only a submit can make the list longer. */
  function Step(s: State, e: Event): (r: State)
    ensures e.Typed? ==> r.input == e.value && r.todos == s.todos
    ensures e.Submitted? && IsBlank(s.input) ==> r == s
    ensures e.Submitted? && !IsBlank(s.input) ==>
      && |r.todos| == |s.todos| + 1
      && r.todos[..|s.todos|] == s.todos
      && r.todos[|s.todos|] == Todo(e.stamp, s.input, false)
      && r.input == ""
    ensures e.Checked? ==>
      && r.input == s.input
      && |r.todos| == |s.todos|
      && forall i :: 0 <= i < |s.todos| ==>
        r.todos[i] == (if s.todos[i].id == e.id then Flip(s.todos[i]) else s.todos[i])
    ensures e.Removed? ==>
      && r.input == s.input
      && |r.todos| == |s.todos| - Count(s.todos, e.id)
      && forall t :: t in r.todos <==> t in s.todos && t.id != e.id
    ensures !e.Submitted? ==> |r.todos| <= |s.todos|
  {
    match e
    case Typed(v) => SetInput(s, v)
    case Submitted(t) => Submit(s, t)
    case Checked(id) => Toggle(s, id)
    case Removed(id) => Delete(s, id)
  }

  /** The state after handling the events in order, each to completion. */
  function Run(s: State, evs: seq<Event>): State
    decreases |evs|
  {
    if evs == [] then s else Run(Step(s, evs[0]), evs[1..])
  }

  /** The clock readings of the submit events, in order. */
  function Stamps(evs: seq<Event>): seq<int> {
    if evs == [] then []
    else (if evs[0].Submitted? then [evs[0].stamp] else []) + Stamps(evs[1..])
  }

  /** No item holds blank text. */
  predicate NoBlankTexts(xs: seq<Todo>) {
    forall i :: 0 <= i < |xs| ==> !IsBlank(xs[i].text)
  }

  /** What every reachable state satisfies, given fresh ids. */
  predicate Valid(s: State) {
    UniqueIds(s.todos) && NoBlankTexts(s.todos)
  }

  /** Every submit event of `evs` brings an id that neither the list of `s` nor an
      earlier submit already uses. This is sufficient for `Valid` to survive the
      run but not necessary: a delete can free an id for a later submit, and a
      submit of a blank field adds nothing, yet this condition rejects both.
      `StepKeepsValid` states the one-step requirement: only a submit of a
      non-blank field needs an id the list does not hold. */
  predicate FreshStamps(s: State, evs: seq<Event>) {
    && Distinct(Stamps(evs))
    && forall t :: t in Stamps(evs) ==> !HasId(s.todos, t)
  }

  /** An id present after one event was present before, or is the submitted one. */
  lemma StepIdsFromBefore(s: State, e: Event, id: int)
    requires HasId(Step(s, e).todos, id)
    ensures HasId(s.todos, id) || e == Submitted(id)
  {
  }

  /** One transition keeps the invariant when a submitted id is fresh. */
  lemma StepKeepsValid(s: State, e: Event)
    requires Valid(s)
    requires e.Submitted? && !IsBlank(s.input) ==> !HasId(s.todos, e.stamp)
    ensures Valid(Step(s, e))
  {
    var r := Step(s, e).todos;
    match e
    case Typed(_) =>
    case Checked(id) =>
      ToggleKeepsUniqueIds(s.todos, id);
      forall i | 0 <= i < |r|
        ensures !IsBlank(r[i].text)
      {
        assert r[i].text == s.todos[i].text;
      }
    case Removed(id) =>
      RemoveKeepsUniqueIds(s.todos, id);
      forall i | 0 <= i < |r|
        ensures !IsBlank(r[i].text)
      {
        assert r[i] in s.todos;
      }
    case Submitted(t) =>
      if !IsBlank(s.input) {
        SubmitKeepsUniqueIds(s, t);
      }
      forall i | 0 <= i < |r|
        ensures !IsBlank(r[i].text)
      {
        if i < |s.todos| {
          assert r[i] == s.todos[i];
        }
      }
  }

  /** The submit stamps of a run with one event in front. */
  lemma StampsCons(e: Event, rest: seq<Event>)
    ensures Stamps([e] + rest) == (if e.Submitted? then [e.stamp] else []) + Stamps(rest)
  {
  }

  /** The submits after the first event still bring fresh ids to the state that
      event produced. */
  lemma FreshStampsAfterStep(s: State, evs: seq<Event>)
    requires evs != []
    requires FreshStamps(s, evs)
    ensures FreshStamps(Step(s, evs[0]), evs[1..])
  {
    var e := evs[0];
    var rest := evs[1..];
    var head := if e.Submitted? then [e.stamp] else [];
    assert evs == [e] + rest;
    StampsCons(e, rest);
    var all := Stamps(evs);
    var tail := Stamps(rest);
    assert all == head + tail;
    forall i, j | 0 <= i < j < |tail|
      ensures tail[i] != tail[j]
    {
      assert tail[i] == all[i + |head|];
      assert tail[j] == all[j + |head|];
    }
    forall t | t in tail
      ensures !HasId(Step(s, e).todos, t)
    {
      var k :| 0 <= k < |tail| && tail[k] == t;
      assert all[k + |head|] == t;
      assert !HasId(s.todos, t);
      assert e != Submitted(t) by {
        if e.Submitted? {
          assert all[0] == e.stamp;
        }
      }
      if HasId(Step(s, e).todos, t) {
        StepIdsFromBefore(s, e, t);
      }
    }
  }

  /** Starting from a valid state, a run whose submitted ids are fresh reaches only
      valid states: ids stay pairwise distinct and no item has blank text. */
  lemma {:induction false} RunKeepsValid(s: State, evs: seq<Event>)
    requires Valid(s)
    requires FreshStamps(s, evs)
    ensures Valid(Run(s, evs))
    decreases |evs|
  {
    if evs != [] {
      assert evs == [evs[0]] + evs[1..];
      StampsCons(evs[0], evs[1..]);
      assert evs[0].Submitted? ==> evs[0].stamp in Stamps(evs);
      StepKeepsValid(s, evs[0]);
      FreshStampsAfterStep(s, evs);
      RunKeepsValid(Step(s, evs[0]), evs[1..]);
    }
  }

  /** Typing each text and submitting it with its id. */
  function Entries(texts: seq<string>, stamps: seq<int>): (r: seq<Event>)
    requires |texts| == |stamps|
    ensures |r| == 2 * |texts|
  {
    if texts == [] then []
    else [Typed(texts[0]), Submitted(stamps[0])] + Entries(texts[1..], stamps[1..])
  }

  /** Typing and submitting one non-blank text. */
  lemma TypeAndSubmit(s: State, text: string, stamp: int, rest: seq<Event>)
    requires !IsBlank(text)
    ensures Run(s, [Typed(text), Submitted(stamp)] + rest)
      == Run(State(s.todos + [Todo(stamp, text, false)], ""), rest)
  {
  }

  /** The items that adding `texts` with `stamps` creates, in order. */
  function NewItems(texts: seq<string>, stamps: seq<int>): (r: seq<Todo>)
    requires |texts| == |stamps|
    ensures |r| == |texts|
  {
    seq(|texts|, i requires 0 <= i < |texts| => Todo(stamps[i], texts[i], false))
  }

  lemma NewItemsCons(texts: seq<string>, stamps: seq<int>)
    requires |texts| == |stamps| && texts != []
    ensures NewItems(texts, stamps) == [Todo(stamps[0], texts[0], false)] + NewItems(texts[1..], stamps[1..])
  {
  }

  /** Adding non-blank texts one after another appends one unchecked item per text,
      in order, with its raw text and its id, and leaves the field empty. */
  lemma {:induction false} AddingNonBlankTexts(s: State, texts: seq<string>, stamps: seq<int>)
    requires |texts| == |stamps|
    requires forall i :: 0 <= i < |texts| ==> !IsBlank(texts[i])
    ensures texts == [] ==> Run(s, Entries(texts, stamps)) == s
    ensures texts != [] ==> Run(s, Entries(texts, stamps)) == State(s.todos + NewItems(texts, stamps), "")
    decreases |texts|
  {
    if texts != [] {
      var item := Todo(stamps[0], texts[0], false);
      var s1 := State(s.todos + [item], "");
      var tail := Entries(texts[1..], stamps[1..]);
      var later := NewItems(texts[1..], stamps[1..]);
      TypeAndSubmit(s, texts[0], stamps[0], tail);
      AddingNonBlankTexts(s1, texts[1..], stamps[1..]);
      NewItemsCons(texts, stamps);
      assert s1.todos + later == s.todos + ([item] + later);
    }
  }

  // ---------------------------------------------------------------- scenarios

  /** Adding one item to the empty list, then checking it off. */
  lemma AddOneThenCheck(x: string, t: int)
    requires !IsBlank(x)
    ensures Run(Initial, [Typed(x), Submitted(t)]) == State([Todo(t, x, false)], "")
    ensures Run(Initial, [Typed(x), Submitted(t), Checked(t)]) == State([Todo(t, x, true)], "")
  {
    var item := Todo(t, x, false);
    var s1 := State([item], "");
    assert [] + [item] == s1.todos;
    assert Run(Initial, [Typed(x), Submitted(t)]) == s1 by {
      TypeAndSubmit(Initial, x, t, []);
      assert [Typed(x), Submitted(t)] + [] == [Typed(x), Submitted(t)];
    }
    assert Run(Initial, [Typed(x), Submitted(t), Checked(t)]) == Run(s1, [Checked(t)]) by {
      TypeAndSubmit(Initial, x, t, [Checked(t)]);
      assert [Typed(x), Submitted(t)] + [Checked(t)] == [Typed(x), Submitted(t), Checked(t)];
    }
    assert Run(s1, [Checked(t)]) == Toggle(s1, t) by {
      assert [Checked(t)][1..] == [];
    }
    assert ToggleAll(s1.todos, t)[0] == Todo(t, x, true);
  }

  /** Adding "Buy milk" to the empty list, then checking it off. */
  lemma ScenarioBuyMilk(t: int)
    ensures Run(Initial, [Typed("Buy milk"), Submitted(t)]) == State([Todo(t, "Buy milk", false)], "")
    ensures Run(Initial, [Typed("Buy milk"), Submitted(t), Checked(t)]) == State([Todo(t, "Buy milk", true)], "")
  {
    VisibleCharNotBlank("Buy milk", 0);
    AddOneThenCheck("Buy milk", t);
  }

  /** Adding two items and deleting the first leaves only the second. */
  lemma AddTwoDeleteFirst(x: string, y: string, a: int, b: int)
    requires !IsBlank(x) && !IsBlank(y)
    requires a != b
    ensures Run(Initial, [Typed(x), Submitted(a), Typed(y), Submitted(b), Removed(a)])
      == State([Todo(b, y, false)], "")
  {
    var first := Todo(a, x, false);
    var second := Todo(b, y, false);
    var s1 := State([first], "");
    var s2 := State([first, second], "");
    assert Run(Initial, [Typed(x), Submitted(a), Typed(y), Submitted(b), Removed(a)])
      == Run(s1, [Typed(y), Submitted(b), Removed(a)]) by {
      TypeAndSubmit(Initial, x, a, [Typed(y), Submitted(b), Removed(a)]);
      assert [Typed(x), Submitted(a)] + [Typed(y), Submitted(b), Removed(a)]
        == [Typed(x), Submitted(a), Typed(y), Submitted(b), Removed(a)];
      assert [] + [first] == s1.todos;
    }
    assert Run(s1, [Typed(y), Submitted(b), Removed(a)]) == Run(s2, [Removed(a)]) by {
      TypeAndSubmit(s1, y, b, [Removed(a)]);
      assert [Typed(y), Submitted(b)] + [Removed(a)] == [Typed(y), Submitted(b), Removed(a)];
      assert s1.todos + [second] == s2.todos;
    }
    assert Run(s2, [Removed(a)]) == State([second], "") by {
      assert [Removed(a)][1..] == [];
      assert s2.todos == [first] + [second];
      RemoveAllAppend([first], [second], a);
    }
  }

  /** Adding "A" and "B" and deleting "A" leaves only "B". */
  lemma ScenarioDeleteFirst(a: int, b: int)
    requires a != b
    ensures Run(Initial, [Typed("A"), Submitted(a), Typed("B"), Submitted(b), Removed(a)])
      == State([Todo(b, "B", false)], "")
  {
    VisibleCharNotBlank("A", 0);
    VisibleCharNotBlank("B", 0);
    AddTwoDeleteFirst("A", "B", a, b);
  }

  /** The stored text is the field's raw value: surrounding spaces are kept. */
  lemma ScenarioRawTextKept(t: int)
    ensures Run(Initial, [Typed(" A "), Submitted(t)]) == State([Todo(t, " A ", false)], "")
  {
    VisibleCharNotBlank(" A ", 1);
    AddOneThenCheck(" A ", t);
  }

  /** Submitting whitespace on the empty list adds nothing and keeps the field. */
  lemma AddBlankIgnored(x: string, t: int)
    requires AllTrimmable(x)
    ensures Run(Initial, [Typed(x), Submitted(t)]) == State([], x)
  {
    var evs := [Typed(x), Submitted(t)];
    var s1 := SetInput(Initial, x);
    assert Run(Initial, evs) == Run(s1, [Submitted(t)]) by {
      assert evs[1..] == [Submitted(t)];
    }
    assert Run(s1, [Submitted(t)]) == Submit(s1, t) by {
      assert [Submitted(t)][1..] == [];
    }
  }

  /** Submitting two spaces on the empty list adds nothing. */
  lemma ScenarioTwoSpaces(t: int)
    ensures Run(Initial, [Typed("  "), Submitted(t)]).todos == []
  {
    AddBlankIgnored("  ", t);
  }
}
