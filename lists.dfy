/** The array operations the React components build their new state with:
    `filter` by inequality, the spread-append `[...xs, x]`, membership toggling,
    and `filter` by a predicate. */
module Lists {

  predicate NoDuplicates<T(==)>(xs: seq<T>) {
    forall i, j :: 0 <= i < j < |xs| ==> xs[i] != xs[j]
  }

  /** `xs.filter(y => y !== x)`: every occurrence of `x` goes, the rest keep their order. */
  function Remove<T(==)>(xs: seq<T>, x: T): (r: seq<T>)
    ensures x !in r
    ensures forall i :: 0 <= i < |r| ==> r[i] in xs
    ensures forall i :: 0 <= i < |xs| && xs[i] != x ==> xs[i] in r
    ensures |r| <= |xs|
    ensures x !in xs ==> r == xs
  {
    if xs == [] then []
    else if xs[0] == x then Remove(xs[1..], x)
    else [xs[0]] + Remove(xs[1..], x)
  }

  /** Removing keeps the other elements in their order, each as often as it occurs. */
  lemma {:induction false} RemoveKeepsOrder<T>(xs: seq<T>, x: T)
    ensures IsSubsequence(Remove(xs, x), xs)
    ensures forall y :: y != x ==> multiset(Remove(xs, x))[y] == multiset(xs)[y]
  {
    if xs != [] {
      RemoveKeepsOrder(xs[1..], x);
      var rest := Remove(xs[1..], x);
      assert xs == [xs[0]] + xs[1..];
      assert multiset(xs) == multiset([xs[0]]) + multiset(xs[1..]);
      if xs[0] != x {
        assert Remove(xs, x) == [xs[0]] + rest;
        assert ([xs[0]] + rest)[1..] == rest;
        assert multiset(Remove(xs, x)) == multiset([xs[0]]) + multiset(rest);
      }
    }
  }

  /** Removing an element keeps a duplicate-free list duplicate-free, and removes exactly one entry. */
  lemma {:induction false} RemoveNoDuplicates<T>(xs: seq<T>, x: T)
    requires NoDuplicates(xs)
    ensures NoDuplicates(Remove(xs, x))
    ensures x in xs ==> |Remove(xs, x)| == |xs| - 1
  {
    if xs != [] {
      assert NoDuplicates(xs[1..]);
      RemoveNoDuplicates(xs[1..], x);
      if xs[0] == x {
        assert x !in xs[1..];
      } else {
        var r := [xs[0]] + Remove(xs[1..], x);
        assert xs[0] !in Remove(xs[1..], x);
        assert NoDuplicates(r) by {
          forall i, j | 0 <= i < j < |r| ensures r[i] != r[j] {
            if i == 0 {
              assert r[j] in Remove(xs[1..], x);
            } else {
              assert r[i] == Remove(xs[1..], x)[i - 1];
            }
          }
        }
      }
    }
  }

  /** Appending an absent element and then removing it gives back the list. */
  lemma {:induction false} RemoveAppendAbsent<T>(xs: seq<T>, x: T)
    requires x !in xs
    ensures Remove(xs + [x], x) == xs
  {
    if xs == [] {
      assert Remove([x], x) == Remove([], x);
    } else {
      assert (xs + [x])[1..] == xs[1..] + [x];
      RemoveAppendAbsent(xs[1..], x);
    }
  }

  /** `xs.includes(x) ? xs.filter(y => y !== x) : [...xs, x]`: the membership of `x` flips
      and nothing else about membership changes. */
  function Toggle<T(==)>(xs: seq<T>, x: T): (r: seq<T>)
    ensures x in r <==> x !in xs
    ensures forall i :: 0 <= i < |r| && r[i] != x ==> r[i] in xs
    ensures forall i :: 0 <= i < |xs| && xs[i] != x ==> xs[i] in r
  {
    if x in xs then Remove(xs, x) else xs + [x]
  }

  /** Toggling twice restores membership of every element. */
  lemma ToggleTwiceMembership<T>(xs: seq<T>, x: T, y: T)
    ensures y in Toggle(Toggle(xs, x), x) <==> y in xs
  {
  }

  /** Toggling an absent element twice restores the list exactly. */
  lemma ToggleTwiceAbsent<T>(xs: seq<T>, x: T)
    requires x !in xs
    ensures Toggle(Toggle(xs, x), x) == xs
  {
    RemoveAppendAbsent(xs, x);
  }

  /** Toggling a present element twice moves it to the end of the list. */
  lemma ToggleTwicePresent<T>(xs: seq<T>, x: T)
    requires x in xs
    ensures Toggle(Toggle(xs, x), x) == Remove(xs, x) + [x]
  {
  }

  /** Toggling never introduces a duplicate. */
  lemma ToggleNoDuplicates<T>(xs: seq<T>, x: T)
    requires NoDuplicates(xs)
    ensures NoDuplicates(Toggle(xs, x))
  {
    if x in xs {
      RemoveNoDuplicates(xs, x);
    } else {
      AppendNoDuplicates(xs, x);
    }
  }

  lemma AppendNoDuplicates<T>(xs: seq<T>, x: T)
    requires NoDuplicates(xs) && x !in xs
    ensures NoDuplicates(xs + [x])
  {
    var r := xs + [x];
    forall i, j | 0 <= i < j < |r| ensures r[i] != r[j] {
      if j == |xs| {
        assert r[i] == xs[i];
      }
    }
  }

  /** `a` is `b` with some elements left out, the rest in their order. */
  predicate IsSubsequence<T(==)>(a: seq<T>, b: seq<T>)
    decreases |b|
  {
    a == [] || (b != [] && ((a[0] == b[0] && IsSubsequence(a[1..], b[1..])) || IsSubsequence(a, b[1..])))
  }

  /** Every list is a subsequence of itself. */
  lemma {:induction false} SubsequenceReflexive<T>(a: seq<T>)
    ensures IsSubsequence(a, a)
  {
    if a != [] {
      SubsequenceReflexive(a[1..]);
    }
  }

  /** `xs.filter(keep)`: the elements satisfying `keep`, in their original order. */
  function Filter<T>(xs: seq<T>, keep: T -> bool): (r: seq<T>)
    ensures IsSubsequence(r, xs)
    ensures forall y :: y in r ==> y in xs && keep(y)
    ensures forall i :: 0 <= i < |xs| && keep(xs[i]) ==> xs[i] in r
  {
    if xs == [] then []
    else
      var rest := Filter(xs[1..], keep);
      if keep(xs[0]) then
        assert ([xs[0]] + rest)[1..] == rest;
        assert forall i :: 1 <= i < |xs| ==> xs[i] == xs[1..][i - 1];
        [xs[0]] + rest
      else
        assert forall i :: 1 <= i < |xs| ==> xs[i] == xs[1..][i - 1];
        rest
  }

  /** Filtering keeps every copy of a kept element and none of a dropped one. */
  lemma {:induction false} FilterCounts<T>(xs: seq<T>, keep: T -> bool)
    ensures forall y :: multiset(Filter(xs, keep))[y] == if keep(y) then multiset(xs)[y] else 0
  {
    if xs != [] {
      FilterCounts(xs[1..], keep);
      assert xs == [xs[0]] + xs[1..];
      assert multiset(xs) == multiset([xs[0]]) + multiset(xs[1..]);
      if keep(xs[0]) {
        assert Filter(xs, keep) == [xs[0]] + Filter(xs[1..], keep);
        assert multiset(Filter(xs, keep)) == multiset([xs[0]]) + multiset(Filter(xs[1..], keep));
      } else {
        assert Filter(xs, keep) == Filter(xs[1..], keep);
      }
    }
  }

  /** When every element is kept, filtering returns the list itself. */
  lemma {:induction false} FilterAll<T>(xs: seq<T>, keep: T -> bool)
    requires forall i :: 0 <= i < |xs| ==> keep(xs[i])
    ensures Filter(xs, keep) == xs
  {
    if xs != [] {
      assert forall i :: 0 <= i < |xs[1..]| ==> keep(xs[1..][i]) by {
        forall i | 0 <= i < |xs[1..]| ensures keep(xs[1..][i]) {
          assert xs[1..][i] == xs[i + 1];
        }
      }
      FilterAll(xs[1..], keep);
    }
  }
}
