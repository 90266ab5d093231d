/**
 Properties of the list transitions: toggling is an involution, removal is the
 order-preserving filter and nothing but it, ids that are not in the list leave
 it alone, and distinct ids stay distinct.
 */
module TodoProperties {
  import opened JsString
  import opened Todos

  /** `a` can be obtained from `b` by dropping elements, keeping the order. */
  predicate IsSubsequence<T(==)>(a: seq<T>, b: seq<T>)
    decreases |b|
  {
    if a == [] then true
    else if b == [] then false
    else if a[0] == b[0] then IsSubsequence(a[1..], b[1..])
    else IsSubsequence(a, b[1..])
  }

  // ---------------------------------------------------------------- toggle

  /** An item whose id differs is left exactly as it was; a matching one is flipped. */
  lemma ToggleAllPointwise(xs: seq<Todo>, id: int)
    ensures forall i :: 0 <= i < |xs| ==>
      ToggleAll(xs, id)[i] == (if xs[i].id == id then Flip(xs[i]) else xs[i])
  {
  }

  /** Clicking the same checkbox twice gives back the original list. */
  lemma ToggleTwiceRestores(xs: seq<Todo>, id: int)
    ensures ToggleAll(ToggleAll(xs, id), id) == xs
  {
  }

  /** The same on the whole state: the text field is untouched by both clicks. */
  lemma ToggleStateTwiceRestores(s: State, id: int)
    ensures Toggle(Toggle(s, id), id) == s
  {
  }

  /** An id that no item carries leaves the list unchanged. */
  lemma ToggleUnknownIdUnchanged(xs: seq<Todo>, id: int)
    requires !HasId(xs, id)
    ensures ToggleAll(xs, id) == xs
  {
  }

  /** Toggling changes no id, so distinct ids stay distinct. */
  lemma ToggleKeepsUniqueIds(xs: seq<Todo>, id: int)
    requires UniqueIds(xs)
    ensures UniqueIds(ToggleAll(xs, id))
  {
  }

  // ---------------------------------------------------------------- delete

  /** Removal distributes over concatenation: each part is filtered in place, which
      is what keeping the remaining items in their original order means. */
  lemma {:induction false} RemoveAllAppend(a: seq<Todo>, b: seq<Todo>, id: int)
    ensures RemoveAll(a + b, id) == RemoveAll(a, id) + RemoveAll(b, id)
  {
    if a == [] {
      assert a + b == b;
    } else {
      var ab := a + b;
      assert ab[0] == a[0];
      assert ab[1..] == a[1..] + b;
      RemoveAllAppend(a[1..], b, id);
      if a[0].id == id {
        assert RemoveAll(ab, id) == RemoveAll(a[1..] + b, id);
      } else {
        assert RemoveAll(ab, id) == [a[0]] + RemoveAll(a[1..] + b, id);
        assert RemoveAll(a, id) == [a[0]] + RemoveAll(a[1..], id);
      }
    }
  }

  /** The surviving items form a subsequence of the original list. */
  lemma {:induction false} RemoveAllIsSubsequence(xs: seq<Todo>, id: int)
    ensures IsSubsequence(RemoveAll(xs, id), xs)
  {
    if xs != [] {
      RemoveAllIsSubsequence(xs[1..], id);
      var r := RemoveAll(xs, id);
      if xs[0].id != id {
        assert r[1..] == RemoveAll(xs[1..], id);
      }
    }
  }

  /** A subsequence that avoids the id cannot be longer than the items without it. */
  lemma {:induction false} AvoidingSubsequenceBound(a: seq<Todo>, b: seq<Todo>, id: int)
    requires IsSubsequence(a, b)
    requires !HasId(a, id)
    ensures |a| <= |b| - Count(b, id)
    decreases |b|
  {
    if a != [] {
      if a[0] == b[0] {
        assert !HasId(a[1..], id);
        AvoidingSubsequenceBound(a[1..], b[1..], id);
        assert b[0].id != id by {
          assert a[0].id != id;
        }
      } else {
        AvoidingSubsequenceBound(a, b[1..], id);
      }
    }
  }

  /** `RemoveAll` is the only list that keeps the order of `xs`, holds no item with
      the id, and drops nothing else: any list with those three properties is it. */
  lemma {:induction false} RemoveAllIsUniqueFilter(xs: seq<Todo>, id: int, r: seq<Todo>)
    requires IsSubsequence(r, xs)
    requires !HasId(r, id)
    requires |r| == |xs| - Count(xs, id)
    ensures r == RemoveAll(xs, id)
    decreases |xs|
  {
    if xs == [] {
    } else if xs[0].id == id {
      assert r == [] || r[0] != xs[0] by {
        if r != [] {
          assert r[0].id != id;
        }
      }
      RemoveAllIsUniqueFilter(xs[1..], id, r);
    } else if r != [] && r[0] == xs[0] {
      assert !HasId(r[1..], id);
      RemoveAllIsUniqueFilter(xs[1..], id, r[1..]);
      assert r == [r[0]] + r[1..];
    } else {
      assert |r| > |xs[1..]| - Count(xs[1..], id);
      assert IsSubsequence(r, xs[1..]);
      AvoidingSubsequenceBound(r, xs[1..], id);
      assert false;
    }
  }

  /** An id that no item carries leaves the list unchanged. */
  lemma {:induction false} RemoveUnknownIdUnchanged(xs: seq<Todo>, id: int)
    requires !HasId(xs, id)
    ensures RemoveAll(xs, id) == xs
  {
    if xs != [] {
      assert !HasId(xs[1..], id);
      RemoveUnknownIdUnchanged(xs[1..], id);
    }
  }

  /** Pressing the same delete button again has no further effect. */
  lemma RemoveAllIdempotent(xs: seq<Todo>, id: int)
    ensures RemoveAll(RemoveAll(xs, id), id) == RemoveAll(xs, id)
  {
    RemoveUnknownIdUnchanged(RemoveAll(xs, id), id);
  }

  /** Among pairwise-distinct ids at most one item matches. */
  lemma {:induction false} UniqueIdsCountAtMostOne(xs: seq<Todo>, id: int)
    requires UniqueIds(xs)
    ensures Count(xs, id) <= 1
  {
    if xs != [] {
      UniqueIdsCountAtMostOne(xs[1..], id);
    }
  }

  /** With pairwise-distinct ids, deleting a present id removes exactly one item and
      deleting an absent one removes none. */
  lemma RemoveWithUniqueIds(xs: seq<Todo>, id: int)
    requires UniqueIds(xs)
    ensures HasId(xs, id) ==> |RemoveAll(xs, id)| == |xs| - 1
    ensures !HasId(xs, id) ==> RemoveAll(xs, id) == xs
  {
    UniqueIdsCountAtMostOne(xs, id);
    if !HasId(xs, id) {
      RemoveUnknownIdUnchanged(xs, id);
    }
  }

  /** Dropping items cannot make two ids equal. */
  lemma {:induction false} SubsequenceKeepsUniqueIds(a: seq<Todo>, b: seq<Todo>)
    requires IsSubsequence(a, b)
    requires UniqueIds(b)
    ensures UniqueIds(a)
    decreases |b|
  {
    if a != [] {
      assert UniqueIds(b[1..]);
      if a[0] == b[0] {
        SubsequenceKeepsUniqueIds(a[1..], b[1..]);
        forall j | 0 < j < |a|
          ensures a[0].id != a[j].id
        {
          SubsequenceMembers(a[1..], b[1..]);
          assert a[j] == a[1..][j - 1];
          assert a[j] in b[1..];
          var k :| 0 <= k < |b[1..]| && b[1..][k] == a[j];
          assert b[k + 1] == a[j];
        }
      } else {
        SubsequenceKeepsUniqueIds(a, b[1..]);
      }
    }
  }

  /** Every element of a subsequence occurs in the whole. */
  lemma {:induction false} SubsequenceMembers<T>(a: seq<T>, b: seq<T>)
    requires IsSubsequence(a, b)
    ensures forall x :: x in a ==> x in b
    decreases |b|
  {
    if a != [] {
      if a[0] == b[0] {
        SubsequenceMembers(a[1..], b[1..]);
        assert a == [a[0]] + a[1..];
      } else {
        SubsequenceMembers(a, b[1..]);
      }
    }
  }

  /** Deleting keeps distinct ids distinct. */
  lemma RemoveKeepsUniqueIds(xs: seq<Todo>, id: int)
    requires UniqueIds(xs)
    ensures UniqueIds(RemoveAll(xs, id))
  {
    RemoveAllIsSubsequence(xs, id);
    SubsequenceKeepsUniqueIds(RemoveAll(xs, id), xs);
  }

  /** Deleting after toggling the same id is the same as deleting straight away. */
  lemma {:induction false} RemoveAfterToggle(xs: seq<Todo>, id: int)
    ensures RemoveAll(ToggleAll(xs, id), id) == RemoveAll(xs, id)
  {
    if xs != [] {
      var t := ToggleAll(xs, id);
      assert t[1..] == ToggleAll(xs[1..], id);
      RemoveAfterToggle(xs[1..], id);
    }
  }

  // ---------------------------------------------------------------- submit

  /** A fresh id keeps the ids pairwise distinct. */
  lemma SubmitKeepsUniqueIds(s: State, newId: int)
    requires UniqueIds(s.todos)
    requires !HasId(s.todos, newId)
    ensures UniqueIds(Submit(s, newId).todos)
  {
  }

  /** Submitting with an id already in the list makes two items share it: a clock
      reading used as an id is not unique by construction. */
  lemma SubmitWithTakenIdCollides(s: State, newId: int)
    requires HasId(s.todos, newId)
    requires !IsBlank(s.input)
    ensures !UniqueIds(Submit(s, newId).todos)
  {
  }

}
