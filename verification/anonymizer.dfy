/** `Anonymizer.replace_entities_from_indexes`: every entity of the chosen
    categories has its span replaced by "[category]", working from the last
    entity to the first so that each splice still uses the original offsets. */
module Anonymizer {
  import opened Base
  import opened Types
  import opened Ordering

  /** The placeholder written in place of an entity. */
  function Tag(e: Entity): string {
    "[" + CategoryValue(e.category) + "]"
  }

  /** `text[:start] + "[label]" + text[end:]`. */
  function Splice(text: string, e: Entity): string {
    PySlice(text, 0, e.start) + Tag(e) + PySlice(text, e.End(), |text|)
  }

  /** The loop over the entities in the given order, splicing those whose
      category is chosen. */
  function SpliceChosen(text: string, ordered: seq<Entity>, chosen: seq<Category>): string
    decreases |ordered|
  {
    if |ordered| == 0 then text
    else
      var text' := if ordered[0].category in chosen then Splice(text, ordered[0]) else text;
      SpliceChosen(text', ordered[1..], chosen)
  }

  /** `_ordered_entities(reverse)`. */
  function OrderedEntities(es: seq<Entity>, reverse: bool): (r: seq<Entity>)
    ensures multiset(r) == multiset(es)
    ensures SortedBy(r, reverse)
  {
    SortPermutes(es, reverse);
    SortSorts(es, reverse);
    SortByStart(es, reverse)
  }

  /** `replace_entities_from_indexes(category)`. */
  function ReplaceFromIndexes(text: string, es: seq<Entity>, chosen: seq<Category>): string {
    SpliceChosen(text, OrderedEntities(es, true), chosen)
  }

  /** The chosen entities of `s`, in order. */
  function Chosen(s: seq<Entity>, chosen: seq<Category>): (r: seq<Entity>)
    ensures |r| <= |s|
    ensures forall i :: 0 <= i < |r| ==> r[i].category in chosen
    ensures multiset(r) <= multiset(s)
  {
    if |s| == 0 then []
    else
      assert s == [s[0]] + s[1..];
      (if s[0].category in chosen then [s[0]] else []) + Chosen(s[1..], chosen)
  }

  /** Skipped entities play no part: the loop is the splices of the chosen
      entities, one after the other. */
  function SpliceAll(text: string, ds: seq<Entity>): string
    decreases |ds|
  {
    if |ds| == 0 then text else SpliceAll(Splice(text, ds[0]), ds[1..])
  }

  lemma {:induction false} SpliceChosenIsSpliceAll(text: string, ordered: seq<Entity>, chosen: seq<Category>)
    ensures SpliceChosen(text, ordered, chosen) == SpliceAll(text, Chosen(ordered, chosen))
    decreases |ordered|
  {
    if |ordered| > 0 {
      var rest := Chosen(ordered[1..], chosen);
      if ordered[0].category in chosen {
        SpliceChosenIsSpliceAll(Splice(text, ordered[0]), ordered[1..], chosen);
        assert ([ordered[0]] + rest)[1..] == rest;
      } else {
        SpliceChosenIsSpliceAll(text, ordered[1..], chosen);
        assert [] + rest == rest;
      }
    }
  }

  /** With no entity of a chosen category, the text comes back unchanged. */
  lemma {:induction false} NothingChosenUnchanged(text: string, ordered: seq<Entity>, chosen: seq<Category>)
    requires forall i :: 0 <= i < |ordered| ==> ordered[i].category !in chosen
    ensures SpliceChosen(text, ordered, chosen) == text
    decreases |ordered|
  {
    if |ordered| > 0 {
      NothingChosenUnchanged(text, ordered[1..], chosen);
    }
  }

  lemma NoChosenEntityUnchanged(text: string, es: seq<Entity>, chosen: seq<Category>)
    requires forall i :: 0 <= i < |es| ==> es[i].category !in chosen
    ensures ReplaceFromIndexes(text, es, chosen) == text
  {
    var ordered := OrderedEntities(es, true);
    forall i | 0 <= i < |ordered| ensures ordered[i].category !in chosen {
      assert ordered[i] in multiset(es);
    }
    NothingChosenUnchanged(text, ordered, chosen);
  }

  /** The reference reading: walk the text left to right from `pos`, copy
      what lies between the ascending spans `asc`, and write each span's tag
      in its place. */
  function Render(text: string, asc: seq<Entity>, pos: int): string
    decreases |asc|
  {
    if |asc| == 0 then PySlice(text, pos, |text|)
    else PySlice(text, pos, asc[0].start) + Tag(asc[0]) + Render(text, asc[1..], asc[0].End())
  }

  /** Spans inside `[lo, hi)`, each ending at or before the next one starts. */
  predicate AscendingChain(asc: seq<Entity>, lo: int, hi: int) {
    && (forall i :: 0 <= i < |asc| ==> lo <= asc[i].start && asc[i].End() <= hi)
    && (forall i, j :: 0 <= i < j < |asc| ==> asc[i].End() <= asc[j].start)
  }

  /** Spans inside `[0, hi)`, each ending at or before the previous one starts. */
  predicate DescendingChain(ds: seq<Entity>, hi: int) {
    && (forall i :: 0 <= i < |ds| ==> 0 <= ds[i].start && ds[i].End() <= hi)
    && (forall i, j :: 0 <= i < j < |ds| ==> ds[j].End() <= ds[i].start)
  }

  function Reverse<T>(s: seq<T>): (r: seq<T>)
    ensures |r| == |s|
    ensures forall i :: 0 <= i < |s| ==> r[i] == s[|s| - 1 - i]
  {
    if |s| == 0 then [] else Reverse(s[1..]) + [s[0]]
  }

  /** A splice inside the prefix leaves the suffix alone. */
  lemma SpliceInPrefix(a: string, b: string, e: Entity)
    requires 0 <= e.start && e.End() <= |a|
    ensures Splice(a + b, e) == Splice(a, e) + b
  {
    assert (a + b)[..e.start] == a[..e.start];
    assert (a + b)[e.End()..] == a[e.End()..] + b;
  }

  /** Splices that all lie inside the prefix leave the suffix alone. */
  lemma {:induction false} SpliceAllInPrefix(a: string, b: string, ds: seq<Entity>)
    requires DescendingChain(ds, |a|)
    ensures SpliceAll(a + b, ds) == SpliceAll(a, ds) + b
    decreases |ds|
  {
    if |ds| > 0 {
      var d := ds[0];
      SpliceInPrefix(a, b, d);
      var a' := Splice(a, d);
      assert |a'| >= d.start;
      assert DescendingChain(ds[1..], |a'|) by {
        forall i | 0 <= i < |ds[1..]| ensures ds[1..][i].End() <= d.start {
          assert ds[1..][i] == ds[i + 1];
        }
      }
      SpliceAllInPrefix(a', b, ds[1..]);
    }
  }

  lemma Associate<T>(x: seq<T>, y: seq<T>, z: seq<T>)
    ensures x + (y + z) == (x + y) + z
  {
  }

  /** Rendering past a first span. */
  lemma RenderCons(text: string, a: Entity, tail: seq<Entity>, pos: int)
    requires 0 <= pos <= a.start <= |text|
    ensures Render(text, [a] + tail, pos) == text[pos..a.start] + Tag(a) + Render(text, tail, a.End())
  {
    assert ([a] + tail)[1..] == tail;
  }

  /** One step of `RenderSnoc`: rendering past a first span `a`. */
  lemma RenderSnocStep(text: string, a: Entity, tail: seq<Entity>, d: Entity, pos: int)
    requires 0 <= pos <= a.start <= a.End() <= d.start <= d.End() <= |text|
    requires Render(text, tail + [d], a.End()) ==
             Render(text[..d.start], tail, a.End()) + (Tag(d) + text[d.End()..])
    ensures Render(text, [a] + (tail + [d]), pos) ==
            Render(text[..d.start], [a] + tail, pos) + (Tag(d) + text[d.End()..])
  {
    var prefix := text[..d.start];
    var g := text[pos..a.start] + Tag(a);
    var x := Render(prefix, tail, a.End());
    var w := Tag(d) + text[d.End()..];
    assert prefix[pos..a.start] == text[pos..a.start] by {
      SliceOfSlice(text, 0, d.start, pos, a.start);
    }
    calc {
      Render(text, [a] + (tail + [d]), pos);
    == { RenderCons(text, a, tail + [d], pos); }
      g + Render(text, tail + [d], a.End());
    == g + (x + w);
    == { Associate(g, x, w); }
      (g + x) + w;
    == { RenderCons(prefix, a, tail, pos); }
      Render(prefix, [a] + tail, pos) + w;
    }
  }

  lemma AscendingTail(asc: seq<Entity>, lo: int, hi: int)
    requires |asc| > 0 && AscendingChain(asc, lo, hi)
    ensures AscendingChain(asc[1..], asc[0].End(), hi)
  {
    var tail := asc[1..];
    forall i | 0 <= i < |tail| ensures asc[0].End() <= tail[i].start && tail[i].End() <= hi {
      assert tail[i] == asc[i + 1];
    }
    forall i, j | 0 <= i < j < |tail| ensures tail[i].End() <= tail[j].start {
      assert tail[i] == asc[i + 1] && tail[j] == asc[j + 1];
    }
  }

  /** Rendering a last span at the end of an ascending chain. */
  lemma {:induction false} RenderSnoc(text: string, asc: seq<Entity>, d: Entity, pos: int)
    requires 0 <= pos <= d.start <= d.End() <= |text|
    requires AscendingChain(asc, pos, d.start)
    ensures Render(text, asc + [d], pos) ==
            Render(text[..d.start], asc, pos) + (Tag(d) + text[d.End()..])
    decreases |asc|
  {
    if |asc| == 0 {
      assert asc + [d] == [d] + [];
      RenderCons(text, d, [], pos);
    } else {
      var a := asc[0];
      var tail := asc[1..];
      assert asc == [a] + tail;
      assert asc + [d] == [a] + (tail + [d]);
      AscendingTail(asc, pos, d.start);
      RenderSnoc(text, tail, d, a.End());
      RenderSnocStep(text, a, tail, d, pos);
    }
  }

  /** The reverse of a descending chain, less its first span, ascends below
      that span's start. */
  lemma ReverseTailAscends(ds: seq<Entity>)
    requires |ds| > 0 && DescendingChain(ds, ds[0].End())
    ensures AscendingChain(Reverse(ds[1..]), 0, ds[0].start)
  {
    var rest := ds[1..];
    var asc := Reverse(rest);
    forall i | 0 <= i < |asc| ensures 0 <= asc[i].start && asc[i].End() <= ds[0].start {
      assert asc[i] == ds[|rest| - i];
    }
    forall i, j | 0 <= i < j < |asc| ensures asc[i].End() <= asc[j].start {
      assert asc[i] == ds[|rest| - i];
      assert asc[j] == ds[|rest| - j];
    }
  }

  /** Splicing a descending chain, last span first, is the left-to-right
      rendering of the same spans in ascending order. */
  lemma {:induction false} SpliceAllRenders(text: string, ds: seq<Entity>)
    requires DescendingChain(ds, |text|)
    ensures SpliceAll(text, ds) == Render(text, Reverse(ds), 0)
    decreases |ds|
  {
    if |ds| > 0 {
      var d := ds[0];
      var rest := ds[1..];
      var prefix := text[..d.start];
      var suffix := Tag(d) + text[d.End()..];
      assert 0 <= d.start <= d.End() <= |text|;
      Associate(prefix, Tag(d), text[d.End()..]);
      assert Splice(text, d) == prefix + suffix;
      assert DescendingChain(rest, |prefix|) by {
        forall i | 0 <= i < |rest| ensures 0 <= rest[i].start && rest[i].End() <= d.start {
          assert rest[i] == ds[i + 1];
        }
        forall i, j | 0 <= i < j < |rest| ensures rest[j].End() <= rest[i].start {
          assert rest[i] == ds[i + 1] && rest[j] == ds[j + 1];
        }
      }
      SpliceAllInPrefix(prefix, suffix, rest);
      SpliceAllRenders(prefix, rest);
      assert DescendingChain(ds, d.End()) by {
        forall i | 0 <= i < |ds| ensures ds[i].End() <= d.End() {
          if i > 0 { assert ds[i].End() <= d.start; }
        }
      }
      ReverseTailAscends(ds);
      RenderSnoc(text, Reverse(rest), d, 0);
      assert Reverse(ds) == Reverse(rest) + [d];
    }
  }

  /** Entities with non-empty texts inside the document, no two equal and
      no two overlapping. */
  ghost predicate Separate(es: seq<Entity>, n: int) {
    && (forall x | x in es :: Valid(x) && 0 <= x.start && x.End() <= n)
    && (forall x, y | x in es && y in es && x != y :: !Overlaps(x, y))
    && (forall x :: multiset(es)[x] <= 1)
  }

  /** A sub-multiset of separate entities is separate. */
  lemma SeparateSub(s: seq<Entity>, t: seq<Entity>, n: int)
    requires Separate(s, n) && multiset(t) <= multiset(s)
    ensures Separate(t, n)
  {
    forall x | x in t ensures x in s {
      assert x in multiset(t);
    }
  }

  /** Two positions holding the same entity make two copies of it. */
  lemma TwoCopies(s: seq<Entity>, i: int, j: int)
    requires 0 <= i < j < |s| && s[i] == s[j]
    ensures multiset(s)[s[i]] >= 2
  {
    var m := s[..j];
    assert s == m + s[j..];
    assert s[i] in m;
    assert s[j] in s[j..];
  }

  /** Sorted by descending start, separate spans form a descending chain. */
  lemma SortedSeparateIsChain(ds: seq<Entity>, n: int)
    requires SortedBy(ds, true) && Separate(ds, n)
    ensures DescendingChain(ds, n)
  {
    forall i | 0 <= i < |ds| ensures 0 <= ds[i].start && ds[i].End() <= n {
      assert ds[i] in ds;
    }
    forall i, j | 0 <= i < j < |ds| ensures ds[j].End() <= ds[i].start {
      assert ds[i] in ds && ds[j] in ds;
      if ds[i] == ds[j] {
        TwoCopies(ds, i, j);
        assert false;
      }
      assert !Overlaps(ds[i], ds[j]);
      assert Valid(ds[i]) && Valid(ds[j]);
    }
  }

  /** An entity no later than every entity of a sorted list can be put in front of it. */
  lemma SortedCons(x: Entity, r: seq<Entity>)
    requires SortedBy(r, true)
    requires forall y | y in r :: Key(x, true) <= Key(y, true)
    ensures SortedBy([x] + r, true)
  {
    var l := [x] + r;
    forall i, j | 0 <= i < j < |l| ensures Key(l[i], true) <= Key(l[j], true) {
      assert l[j] == r[j - 1];
      if i > 0 {
        assert l[i] == r[i - 1];
      } else {
        assert r[j - 1] in r;
      }
    }
  }

  /** The chosen entities of a sorted list are sorted. */
  lemma {:induction false} ChosenSorted(s: seq<Entity>, chosen: seq<Category>)
    requires SortedBy(s, true)
    ensures SortedBy(Chosen(s, chosen), true)
    decreases |s|
  {
    if |s| > 0 {
      var tail := s[1..];
      assert SortedBy(tail, true);
      ChosenSorted(tail, chosen);
      var rest := Chosen(tail, chosen);
      if s[0].category in chosen {
        forall y | y in rest ensures Key(s[0], true) <= Key(y, true) {
          assert y in multiset(tail);
          var k :| 0 <= k < |tail| && tail[k] == y;
          assert s[k + 1] == y;
        }
        SortedCons(s[0], rest);
      } else {
        assert Chosen(s, chosen) == [] + rest;
      }
    }
  }

  /** When the entities are separate and lie inside the text, the result is
      the text with each chosen span replaced by its tag and every other
      character kept, in order. */
  lemma ReplaceRendersChosen(text: string, es: seq<Entity>, chosen: seq<Category>)
    requires Separate(es, |text|)
    ensures ReplaceFromIndexes(text, es, chosen) ==
            Render(text, Reverse(Chosen(OrderedEntities(es, true), chosen)), 0)
  {
    var ordered := OrderedEntities(es, true);
    var ds := Chosen(ordered, chosen);
    SeparateSub(es, ds, |text|);
    ChosenSorted(ordered, chosen);
    SortedSeparateIsChain(ds, |text|);
    SpliceChosenIsSpliceAll(text, ordered, chosen);
    SpliceAllRenders(text, ds);
  }
}
