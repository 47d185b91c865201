/** The `PostProcess` base class: the entity list, the boundary lists that
    guard insertions against overlap, the checklist of audit messages,
    ordering, and the legacy camel-case label table. */
module Guard {
  import opened Base
  import opened Types
  import opened Ordering

  /** One recorded pair of `start_ents[i]`, `end_ents[i]`. The two lists are
      only ever extended together, so they are kept as one list of pairs. */
  datatype Interval = Interval(start: int, end: int)

  function Span(e: Entity): Interval {
    Interval(e.start, e.End())
  }

  /** The boundary lists as the constructor records them: one pair per entity. */
  function Boundaries(es: seq<Entity>): (bs: seq<Interval>)
    ensures |bs| == |es|
    ensures forall i :: 0 <= i < |es| ==> bs[i] == Span(es[i])
  {
    if |es| == 0 then [] else Boundaries(es[..|es| - 1]) + [Span(es[|es| - 1])]
  }

  /** The rule state: the entities, the boundary lists and the checklist. */
  datatype State = State(entities: seq<Entity>, bounds: seq<Interval>, checklist: seq<string>)

  /** `PostProcess.__init__`: the boundary lists are a snapshot of the
      entities' spans at construction. */
  function Init(entities: seq<Entity>, checklist: seq<string>): (st: State)
    ensures st.entities == entities && st.checklist == checklist
    ensures |st.bounds| == |entities|
    ensures forall i :: 0 <= i < |entities| ==> st.bounds[i] == Span(entities[i])
  {
    State(entities, Boundaries(entities), checklist)
  }

  /** One clause of the `any(...)` in `check_overlap_entities`. */
  predicate Clashes(b: Interval, s: int, e: int) {
    || b.start <= s < b.end
    || b.start < e <= b.end
    || s <= b.start <= e
  }

  predicate StartRecorded(bs: seq<Interval>, s: int) {
    exists i | 0 <= i < |bs| :: bs[i].start == s
  }

  predicate EndRecorded(bs: seq<Interval>, e: int) {
    exists i | 0 <= i < |bs| :: bs[i].end == e
  }

  predicate AnyClash(bs: seq<Interval>, s: int, e: int) {
    exists i | 0 <= i < |bs| :: Clashes(bs[i], s, e)
  }

  /** `check_overlap_entities(s, e)`: the verdict and the boundary lists
      afterwards. An accepted candidate is recorded; a rejected one leaves the
      lists as they were. */
  function CheckOverlap(bs: seq<Interval>, s: int, e: int): (r: (bool, seq<Interval>))
    ensures r.0 ==> r.1 == bs + [Interval(s, e)]
    ensures !r.0 ==> r.1 == bs
    ensures StartRecorded(bs, s) || EndRecorded(bs, e) ==> !r.0
  {
    if StartRecorded(bs, s) || EndRecorded(bs, e) then (false, bs)
    else if AnyClash(bs, s, e) then (false, bs)
    else (true, bs + [Interval(s, e)])
  }

  /** Every recorded interval is non-empty, as entity spans are. */
  predicate Proper(bs: seq<Interval>) {
    forall i :: 0 <= i < |bs| ==> bs[i].start < bs[i].end
  }

  /** The candidate lies wholly before or wholly after the interval, and
      does not end exactly where it starts. */
  predicate Clear(b: Interval, s: int, e: int) {
    e < b.start || b.end <= s
  }

  /** For a non-empty candidate and non-empty recorded intervals, the guard
      accepts exactly when the candidate is clear of every interval: the
      coincident-boundary tests are subsumed by the clash tests. */
  lemma {:induction false} CheckOverlapIffClear(bs: seq<Interval>, s: int, e: int)
    requires Proper(bs) && s < e
    ensures CheckOverlap(bs, s, e).0 <==> forall i :: 0 <= i < |bs| ==> Clear(bs[i], s, e)
  {
    if CheckOverlap(bs, s, e).0 {
      forall i | 0 <= i < |bs| ensures Clear(bs[i], s, e) {
        assert !Clashes(bs[i], s, e);
      }
    }
    if forall i :: 0 <= i < |bs| ==> Clear(bs[i], s, e) {
      forall i | 0 <= i < |bs|
        ensures !Clashes(bs[i], s, e) && bs[i].start != s && bs[i].end != e
      {
        assert Clear(bs[i], s, e);
      }
    }
  }

  /** An accepted candidate shares no offset with any recorded interval. */
  lemma AcceptedIsDisjoint(bs: seq<Interval>, s: int, e: int, i: int, p: int)
    requires Proper(bs) && s < e
    requires CheckOverlap(bs, s, e).0
    requires 0 <= i < |bs| && s <= p < e
    ensures !(bs[i].start <= p < bs[i].end)
  {
    CheckOverlapIffClear(bs, s, e);
    assert Clear(bs[i], s, e);
  }

  /** Adjacency is asymmetric: a candidate ending exactly where a recorded
      interval starts is rejected, one starting exactly where it ends is
      accepted (when nothing else clashes). */
  lemma AdjacencyAsymmetric(a: int, b: int)
    requires a < b
    ensures !CheckOverlap([Interval(b, b + 1)], a, b).0
    ensures CheckOverlap([Interval(a, b)], b, b + 1).0
  {
    var after := [Interval(b, b + 1)];
    assert Clashes(after[0], a, b);
    assert AnyClash(after, a, b);
    var before := [Interval(a, b)];
    assert !Clashes(before[0], b, b + 1);
  }

  /** `check_overlap_entities` followed by the append of the new entity:
      the entity is added, and its span recorded, exactly when the guard
      accepts its span. */
  function TryInsert(st: State, e: Entity): (r: State)
    ensures r.checklist == st.checklist
    ensures CheckOverlap(st.bounds, e.start, e.End()).0 ==>
      r.entities == st.entities + [e] && r.bounds == st.bounds + [Span(e)]
    ensures !CheckOverlap(st.bounds, e.start, e.End()).0 ==> r == st
  {
    var (ok, bounds) := CheckOverlap(st.bounds, e.start, e.End());
    if ok then State(st.entities + [e], bounds, st.checklist) else st
  }

  /** The entities added to `before` to reach `after`, with `after` keeping
      `before` as its prefix and its boundary lists. */
  predicate Extends(before: State, after: State) {
    && |before.entities| <= |after.entities|
    && after.entities[..|before.entities|] == before.entities
    && |before.bounds| <= |after.bounds|
    && after.bounds[..|before.bounds|] == before.bounds
    && after.checklist == before.checklist
  }

  lemma ExtendsTransitive(a: State, b: State, c: State)
    requires Extends(a, b) && Extends(b, c)
    ensures Extends(a, c)
  {
    assert c.entities[..|a.entities|] == c.entities[..|b.entities|][..|a.entities|];
    assert c.bounds[..|a.bounds|] == c.bounds[..|b.bounds|][..|a.bounds|];
  }

  lemma TryInsertExtends(st: State, e: Entity)
    ensures Extends(st, TryInsert(st, e))
  {
    var r := TryInsert(st, e);
    if r != st {
      assert r.entities[..|st.entities|] == st.entities;
      assert r.bounds[..|st.bounds|] == st.bounds;
    }
  }

  /** The entities a matcher proposes are inserted in order, each one only
      if the guard accepts it against everything recorded before it. */
  function InsertAll(st: State, candidates: seq<Entity>): State
    decreases |candidates|
  {
    if |candidates| == 0 then st
    else InsertAll(TryInsert(st, candidates[0]), candidates[1..])
  }

  /** Inserting never removes or changes an entity, a recorded boundary or
      a message, and adds only candidates. */
  lemma {:induction false} InsertAllExtends(st: State, candidates: seq<Entity>)
    ensures Extends(st, InsertAll(st, candidates))
    ensures forall k :: |st.entities| <= k < |InsertAll(st, candidates).entities| ==>
      InsertAll(st, candidates).entities[k] in candidates
    decreases |candidates|
  {
    if |candidates| > 0 {
      var mid := TryInsert(st, candidates[0]);
      TryInsertExtends(st, candidates[0]);
      InsertAllExtends(mid, candidates[1..]);
      ExtendsTransitive(st, mid, InsertAll(mid, candidates[1..]));
      var r := InsertAll(st, candidates);
      forall k | |st.entities| <= k < |r.entities| ensures r.entities[k] in candidates {
        if k < |mid.entities| {
          assert mid.entities == st.entities + [candidates[0]];
        } else {
          assert r.entities[k] in candidates[1..];
        }
      }
    }
  }

  /** `ordered_entities(reverse)`: the entities sorted by start, stable,
      descending when `reverse` is set. */
  function OrderedEntities(st: State, reverse: bool): (r: seq<Entity>)
    ensures multiset(r) == multiset(st.entities)
    ensures SortedBy(r, reverse)
    ensures forall k :: KeyRun(r, k, reverse) == KeyRun(st.entities, k, reverse)
  {
    SortPermutes(st.entities, reverse);
    SortSorts(st.entities, reverse);
    forall k ensures KeyRun(SortByStart(st.entities, reverse), k, reverse) == KeyRun(st.entities, k, reverse) {
      SortStable(st.entities, reverse, k);
    }
    SortByStart(st.entities, reverse)
  }
}
