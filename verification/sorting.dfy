/** Python's `sorted(entities, key=start)` and `sorted(..., reverse=True)`:
    a stable sort by start offset, ascending or descending. A reverse sort
    keeps entities with equal starts in their original order, so both
    directions are a stable sort on a signed key. */
module Ordering {
  import opened Base
  import opened Types

  /** The sort key: the start offset, negated for a reverse sort. */
  function Key(e: Entity, reverse: bool): int {
    if reverse then -e.start else e.start
  }

  predicate SortedBy(s: seq<Entity>, reverse: bool) {
    forall i, j :: 0 <= i < j < |s| ==> Key(s[i], reverse) <= Key(s[j], reverse)
  }

  /** Starts ascending (descending when `reverse`). */
  lemma SortedByStarts(s: seq<Entity>, reverse: bool, i: int, j: int)
    requires SortedBy(s, reverse) && 0 <= i < j < |s|
    ensures reverse ==> s[i].start >= s[j].start
    ensures !reverse ==> s[i].start <= s[j].start
  {
  }

  /** The entities of `s` whose key is `k`, in their order in `s`. */
  function KeyRun(s: seq<Entity>, k: int, reverse: bool): seq<Entity> {
    if |s| == 0 then []
    else KeyRun(s[..|s| - 1], k, reverse) + (if Key(s[|s| - 1], reverse) == k then [s[|s| - 1]] else [])
  }

  lemma KeyRunSnoc(s: seq<Entity>, x: Entity, k: int, reverse: bool)
    ensures KeyRun(s + [x], k, reverse) == KeyRun(s, k, reverse) + (if Key(x, reverse) == k then [x] else [])
  {
    assert (s + [x])[..|s|] == s;
  }

  /** Inserts `x` after every element whose key is not greater than its own. */
  function Insert(x: Entity, r: seq<Entity>, reverse: bool): (q: seq<Entity>)
    ensures |q| == |r| + 1
  {
    if |r| == 0 then [x]
    else if Key(r[|r| - 1], reverse) <= Key(x, reverse) then r + [x]
    else Insert(x, r[..|r| - 1], reverse) + [r[|r| - 1]]
  }

  /** The sort, adding the elements one by one from the left. */
  function SortByStart(s: seq<Entity>, reverse: bool): (r: seq<Entity>)
    ensures |r| == |s|
  {
    if |s| == 0 then []
    else Insert(s[|s| - 1], SortByStart(s[..|s| - 1], reverse), reverse)
  }

  lemma {:induction false} InsertPermutes(x: Entity, r: seq<Entity>, reverse: bool)
    ensures multiset(Insert(x, r, reverse)) == multiset(r) + multiset{x}
  {
    if |r| > 0 && Key(r[|r| - 1], reverse) > Key(x, reverse) {
      var init := r[..|r| - 1];
      InsertPermutes(x, init, reverse);
      assert r == init + [r[|r| - 1]];
    }
  }

  lemma {:induction false} InsertSorted(x: Entity, r: seq<Entity>, reverse: bool)
    requires SortedBy(r, reverse)
    ensures SortedBy(Insert(x, r, reverse), reverse)
  {
    if |r| > 0 && Key(r[|r| - 1], reverse) > Key(x, reverse) {
      var init := r[..|r| - 1];
      var last := r[|r| - 1];
      var b := Key(last, reverse);
      assert SortedBy(init, reverse);
      InsertSorted(x, init, reverse);
      InsertBounded(x, init, reverse, b);
      assert Insert(x, r, reverse) == Insert(x, init, reverse) + [last];
    }
  }

  /** Inserting below a bound keeps every key below it. */
  lemma {:induction false} InsertBounded(x: Entity, r: seq<Entity>, reverse: bool, b: int)
    requires Key(x, reverse) <= b
    requires forall i :: 0 <= i < |r| ==> Key(r[i], reverse) <= b
    ensures forall i :: 0 <= i < |r| + 1 ==> Key(Insert(x, r, reverse)[i], reverse) <= b
  {
    if |r| > 0 && Key(r[|r| - 1], reverse) > Key(x, reverse) {
      var init := r[..|r| - 1];
      InsertBounded(x, init, reverse, b);
      assert Insert(x, r, reverse) == Insert(x, init, reverse) + [r[|r| - 1]];
    }
  }

  /** Inserting keeps the elements of each key in order, with `x` last. */
  lemma {:induction false} InsertStable(x: Entity, r: seq<Entity>, reverse: bool, k: int)
    requires SortedBy(r, reverse)
    ensures KeyRun(Insert(x, r, reverse), k, reverse) ==
            KeyRun(r, k, reverse) + (if Key(x, reverse) == k then [x] else [])
  {
    if |r| == 0 {
      KeyRunSnoc([], x, k, reverse);
    } else if Key(r[|r| - 1], reverse) <= Key(x, reverse) {
      KeyRunSnoc(r, x, k, reverse);
    } else {
      var init := r[..|r| - 1];
      assert SortedBy(init, reverse);
      InsertStable(x, init, reverse, k);
      InsertStableStep(x, r, reverse, k);
    }
  }

  /** The step of `InsertStable` past an element with a greater key. */
  lemma InsertStableStep(x: Entity, r: seq<Entity>, reverse: bool, k: int)
    requires |r| > 0 && Key(r[|r| - 1], reverse) > Key(x, reverse)
    requires KeyRun(Insert(x, r[..|r| - 1], reverse), k, reverse) ==
             KeyRun(r[..|r| - 1], k, reverse) + (if Key(x, reverse) == k then [x] else [])
    ensures KeyRun(Insert(x, r, reverse), k, reverse) ==
            KeyRun(r, k, reverse) + (if Key(x, reverse) == k then [x] else [])
  {
    var init := r[..|r| - 1];
    var last := r[|r| - 1];
    var q := Insert(x, init, reverse);
    var xs: seq<Entity> := if Key(x, reverse) == k then [x] else [];
    var ls: seq<Entity> := if Key(last, reverse) == k then [last] else [];
    assert KeyRun(Insert(x, r, reverse), k, reverse) == KeyRun(q, k, reverse) + ls by {
      assert Insert(x, r, reverse) == q + [last];
      KeyRunSnoc(q, last, k, reverse);
    }
    assert KeyRun(r, k, reverse) == KeyRun(init, k, reverse) + ls by {
      assert r == init + [last];
      KeyRunSnoc(init, last, k, reverse);
    }
    RunsAgree(KeyRun(init, k, reverse), xs, ls, KeyRun(Insert(x, r, reverse), k, reverse), KeyRun(r, k, reverse));
  }

  lemma RunsAgree(run: seq<Entity>, xs: seq<Entity>, ls: seq<Entity>, a: seq<Entity>, b: seq<Entity>)
    requires a == run + xs + ls && b == run + ls
    requires xs == [] || ls == []
    ensures a == b + xs
  {
    if xs == [] {
      assert a == run + ls;
    } else {
      assert a == run + xs;
    }
  }

  /** The sort returns a permutation of its input. */
  lemma {:induction false} SortPermutes(s: seq<Entity>, reverse: bool)
    ensures multiset(SortByStart(s, reverse)) == multiset(s)
  {
    if |s| > 0 {
      var init, x := s[..|s| - 1], s[|s| - 1];
      var r := SortByStart(init, reverse);
      assert multiset(r) == multiset(init) by {
        SortPermutes(init, reverse);
      }
      assert multiset(Insert(x, r, reverse)) == multiset(r) + multiset{x} by {
        InsertPermutes(x, r, reverse);
      }
      assert multiset(s) == multiset(init) + multiset{x} by {
        assert s == init + [x];
      }
      assert SortByStart(s, reverse) == Insert(x, r, reverse);
    }
  }

  /** The sort returns its input ordered by start. */
  lemma {:induction false} SortSorts(s: seq<Entity>, reverse: bool)
    ensures SortedBy(SortByStart(s, reverse), reverse)
  {
    if |s| > 0 {
      SortSorts(s[..|s| - 1], reverse);
      InsertSorted(s[|s| - 1], SortByStart(s[..|s| - 1], reverse), reverse);
    }
  }

  /** The sort is stable: entities with the same start keep their relative
      order, in both directions. */
  lemma {:induction false} SortStable(s: seq<Entity>, reverse: bool, k: int)
    ensures KeyRun(SortByStart(s, reverse), k, reverse) == KeyRun(s, k, reverse)
  {
    if |s| > 0 {
      var init, x := s[..|s| - 1], s[|s| - 1];
      var sorted := SortByStart(init, reverse);
      var xs: seq<Entity> := if Key(x, reverse) == k then [x] else [];
      assert SortByStart(s, reverse) == Insert(x, sorted, reverse);
      assert KeyRun(sorted, k, reverse) == KeyRun(init, k, reverse) by {
        SortStable(init, reverse, k);
      }
      assert KeyRun(Insert(x, sorted, reverse), k, reverse) == KeyRun(sorted, k, reverse) + xs by {
        SortSorts(init, reverse);
        InsertStable(x, sorted, reverse, k);
      }
      assert KeyRun(s, k, reverse) == KeyRun(init, k, reverse) + xs by {
        assert s == init + [x];
        KeyRunSnoc(init, x, k, reverse);
      }
    }
  }

  /** A sorted input is returned unchanged. */
  lemma {:induction false} SortKeepsSorted(s: seq<Entity>, reverse: bool)
    requires SortedBy(s, reverse)
    ensures SortByStart(s, reverse) == s
  {
    if |s| > 0 {
      var init := s[..|s| - 1];
      assert SortedBy(init, reverse);
      SortKeepsSorted(init, reverse);
      if |init| > 0 {
        assert Key(init[|init| - 1], reverse) <= Key(s[|s| - 1], reverse);
      }
      assert s == init + [s[|s| - 1]];
    }
  }
}
