/**
 * The tag logic of AppNavigation.kt: which exercise types the selection screen offers,
 * and which type "new exercise" on a solution's screen asks for.
 */
module Navigation {
  import opened Common
  import opened PayloadFormat

  /** The name a tag has in the payload and in the app. */
  function TagName(t: Tag): string
  {
    match t
    case Minus => "MINUS"
    case MoreOperands => "MORE_OPERANDS"
    case Plus => "PLUS"
    case Star => "STAR"
  }

  /** String.compareTo(...) < 0: lexicographic order on characters, a prefix first. */
  predicate NameBefore(a: string, b: string)
    decreases |a|
  {
    if a == [] then b != []
    else if b == [] then false
    else if a[0] != b[0] then a[0] < b[0]
    else NameBefore(a[1..], b[1..])
  }

  /** A tag's position among the four names in sorted order. */
  function Rank(t: Tag): nat
  {
    match t
    case Minus => 0
    case MoreOperands => 1
    case Plus => 2
    case Star => 3
  }

  /** Ranks order the tags as sorted() orders their names. */
  lemma {:induction false} RankIsNameOrder(a: Tag, b: Tag)
    ensures Rank(a) < Rank(b) <==> NameBefore(TagName(a), TagName(b))
  {
    var x, y := TagName(a), TagName(b);
    if x != y {
      assert x[0] != y[0] || x[1] != y[1];
      if x[0] == y[0] {
        assert NameBefore(x, y) == NameBefore(x[1..], y[1..]);
      }
    } else {
      NameIrreflexive(x);
    }
  }

  lemma {:induction false} NameIrreflexive(a: string)
    ensures !NameBefore(a, a)
    decreases |a|
  {
    if a != [] {
      NameIrreflexive(a[1..]);
    }
  }

  function TagSet(tags: seq<Tag>): set<Tag> { set t | t in tags }

  /** Every tag some solution carries. */
  function SolutionTags(solutions: seq<Solution>): set<Tag>
    decreases |solutions|
  {
    if solutions == [] then {}
    else
      var n := |solutions| - 1;
      SolutionTags(solutions[..n]) + TagSet(solutions[n].tags)
  }

  /** The tag set getAllAvailableTags builds before sorting. */
  function AvailableSet(solutions: seq<Solution>): set<Tag>
  {
    var all := SolutionTags(solutions) + {Plus, Minus};
    if |all| > 2 then all + {MoreOperands} else all
  }

  /** A tag is in SolutionTags exactly when some solution carries it. */
  lemma {:induction false} SolutionTagsMembers(solutions: seq<Solution>, t: Tag)
    ensures t in SolutionTags(solutions) <==> exists i :: 0 <= i < |solutions| && t in solutions[i].tags
    decreases |solutions|
  {
    if solutions != [] {
      var n := |solutions| - 1;
      SolutionTagsMembers(solutions[..n], t);
      if t in SolutionTags(solutions[..n]) {
        var i :| 0 <= i < n && t in solutions[..n][i].tags;
        assert solutions[i] == solutions[..n][i];
      } else if t in solutions[n].tags {
      } else {
        forall i | 0 <= i < |solutions|
          ensures t !in solutions[i].tags
        {
          if i < n {
            assert solutions[i] == solutions[..n][i];
          }
        }
      }
    }
  }

  /**
   * The offered types always include PLUS and MINUS; MORE_OPERANDS is added exactly when
   * a solution carries STAR or MORE_OPERANDS; STAR is there exactly when a solution has it.
   */
  lemma {:induction false} AvailableMembers(solutions: seq<Solution>)
    ensures Plus in AvailableSet(solutions) && Minus in AvailableSet(solutions)
    ensures MoreOperands in AvailableSet(solutions) <==>
      Star in SolutionTags(solutions) || MoreOperands in SolutionTags(solutions)
    ensures Star in AvailableSet(solutions) <==> Star in SolutionTags(solutions)
  {
    var all := SolutionTags(solutions) + {Plus, Minus};
    if Star in SolutionTags(solutions) || MoreOperands in SolutionTags(solutions) {
      var extra := if Star in all then Star else MoreOperands;
      assert {Plus, Minus, extra} <= all;
      assert |{Plus, Minus, extra}| == 3;
      SubsetSize({Plus, Minus, extra}, all);
    } else {
      assert all == {Plus, Minus} by {
        forall t | t in all
          ensures t == Plus || t == Minus
        {
        }
      }
    }
  }

  lemma {:induction false} SubsetSize(a: set<Tag>, b: set<Tag>)
    requires a <= b
    ensures |a| <= |b|
  {
    assert b == a + (b - a);
  }

  /** Sorted by name without repeats, as toList().sorted() of a set. */
  predicate StrictlySorted(tags: seq<Tag>)
  {
    forall i, j :: 0 <= i < j < |tags| ==> Rank(tags[i]) < Rank(tags[j])
  }

  /** getAllAvailableTags: every solution's tags, PLUS and MINUS, MORE_OPERANDS beyond two, sorted. */
  method AllAvailableTags(solutions: seq<Solution>) returns (tags: seq<Tag>)
    ensures StrictlySorted(tags)
    ensures forall t :: t in tags <==> t in AvailableSet(solutions)
  {
    var all: set<Tag> := {};
    for k := 0 to |solutions|
      invariant all == SolutionTags(solutions[..k])
    {
      assert solutions[..k + 1][..k] == solutions[..k];
      all := all + TagSet(solutions[k].tags);
    }
    assert solutions[..|solutions|] == solutions;
    all := all + {Plus, Minus};
    if |all| > 2 {
      all := all + {MoreOperands};
    }
    tags := SortedTags(all);
  }

  /** The members of a tag set in name order. */
  method SortedTags(all: set<Tag>) returns (tags: seq<Tag>)
    ensures StrictlySorted(tags)
    ensures forall t :: t in tags <==> t in all
  {
    var order := [Minus, MoreOperands, Plus, Star];
    tags := [];
    for k := 0 to 4
      invariant StrictlySorted(tags)
      invariant forall t :: t in tags <==> t in all && Rank(t) < k
    {
      if order[k] in all {
        tags := tags + [order[k]];
      }
    }
  }

  /** The selection screen hides STAR: the offered tags without it, order kept. */
  function Selectable(tags: seq<Tag>): (r: seq<Tag>)
    ensures forall t :: t in r <==> t in tags && t != Star
    ensures StrictlySorted(tags) ==> StrictlySorted(r)
    decreases |tags|
  {
    if tags == [] then []
    else
      var n := |tags| - 1;
      var init := Selectable(tags[..n]);
      assert StrictlySorted(tags) ==> StrictlySorted(tags[..n]);
      if tags[n] == Star then init
      else
        SortedAppend(init, tags[n]);
        init + [tags[n]]
  }

  lemma {:induction false} SortedAppend(tags: seq<Tag>, last: Tag)
    ensures StrictlySorted(tags) && (forall t :: t in tags ==> Rank(t) < Rank(last)) ==>
      StrictlySorted(tags + [last])
  {
    if StrictlySorted(tags) && (forall t :: t in tags ==> Rank(t) < Rank(last)) {
      var s := tags + [last];
      forall i, j | 0 <= i < j < |s|
        ensures Rank(s[i]) < Rank(s[j])
      {
        assert s[i] == tags[i];
        if j < |tags| {
          assert s[j] == tags[j];
        }
      }
    }
  }

  /** The operator tags of a list, repeats included: tags.filter { it in listOf(PLUS, MINUS, STAR) }. */
  function OperatorCount(tags: seq<Tag>): nat
    decreases |tags|
  {
    if tags == [] then 0
    else
      var n := |tags| - 1;
      OperatorCount(tags[..n]) + (if tags[n] == MoreOperands then 0 else 1)
  }

  /** The exercise type "new exercise" asks for on a solution's screen (PLUS without a solution). */
  function SolutionExerciseType(tags: Option<seq<Tag>>): (r: Tag)
    ensures tags.None? ==> r == Plus
    ensures tags.Some? ==> (r == MoreOperands <==> OperatorCount(tags.value) >= 2 || MoreOperands in tags.value)
    ensures tags.Some? && r == Star ==> Star in tags.value
    ensures tags.Some? && r == Minus ==> Minus in tags.value && Star !in tags.value
    ensures tags.Some? && r == Plus ==> Star !in tags.value && Minus !in tags.value
    ensures tags.Some? && r != MoreOperands ==>
      (r == Star <==> Star in tags.value) && (r == Minus <==> Minus in tags.value && Star !in tags.value)
  {
    match tags
    case None => Plus
    case Some(ts) =>
      if OperatorCount(ts) >= 2 then MoreOperands
      else if MoreOperands in ts then MoreOperands
      else if Star in ts then Star
      else if Minus in ts then Minus
      else Plus
  }

  /** A lone operator tag names its own type. */
  lemma {:induction false} SingleOperator(t: Tag)
    ensures SolutionExerciseType(Some([t])) == t
  {
    assert [t][..0] == [];
    assert OperatorCount([t]) == if t == MoreOperands then 0 else 1;
  }

  /** The count keeps repeats, so PLUS twice is read as mixed operations. */
  lemma {:induction false} RepeatedPlusIsMixed()
    ensures SolutionExerciseType(Some([Plus, Plus])) == MoreOperands
  {
    assert [Plus, Plus][..1] == [Plus];
    assert [Plus][..0] == [];
  }

  /** Two different operators are mixed operations whatever else is tagged. */
  lemma {:induction false} TwoOperatorsAreMixed(tags: seq<Tag>, i: nat, j: nat)
    requires i < j < |tags| && tags[i] != MoreOperands && tags[j] != MoreOperands
    ensures SolutionExerciseType(Some(tags)) == MoreOperands
  {
    OperatorsCounted(tags, i, j);
  }

  lemma {:induction false} OperatorsCounted(tags: seq<Tag>, i: nat, j: nat)
    requires i < j < |tags| && tags[i] != MoreOperands && tags[j] != MoreOperands
    ensures OperatorCount(tags) >= 2
    decreases |tags|
  {
    var n := |tags| - 1;
    var init := tags[..n];
    if j < n {
      OperatorsCounted(init, i, j);
    } else {
      OperatorCounted(init, i);
    }
  }

  lemma {:induction false} OperatorCounted(tags: seq<Tag>, i: nat)
    requires i < |tags| && tags[i] != MoreOperands
    ensures OperatorCount(tags) >= 1
    decreases |tags|
  {
    var n := |tags| - 1;
    if i < n {
      OperatorCounted(tags[..n], i);
    }
  }
}
