/** What the external matchers (tokenizer, keyword gazetteer, regular
    expressions) report, and the overlap-guarded insertion of the entities
    they propose. */
module Matching {
  import opened Base
  import opened Types
  import opened Accents
  import opened Guard

  /** A token of a tokenized text, at its offset in that text. */
  datatype Token = Token(text: string, start: int)

  /** A keyword occurrence: the keyword's text and its span in the searched text. */
  datatype KeywordMatch = KeywordMatch(keyword: string, start: int, end: int)

  /** Every token is the text at its own offsets. */
  predicate TokensInText(toks: seq<Token>, s: string) {
    forall k :: 0 <= k < |toks| ==>
      0 <= toks[k].start && toks[k].start + |toks[k].text| <= |s|
      && s[toks[k].start..toks[k].start + |toks[k].text|] == toks[k].text
  }

  /** Every keyword match is the searched text at its span. */
  predicate MatchesInText(ms: seq<KeywordMatch>, s: string) {
    forall k :: 0 <= k < |ms| ==>
      0 <= ms[k].start && ms[k].start + |ms[k].keyword| == ms[k].end <= |s|
      && s[ms[k].start..ms[k].end] == ms[k].keyword
  }

  /** A proposed entity: its text, the span handed to the overlap guard,
      and its category. */
  datatype Candidate = Candidate(text: string, start: int, end: int, category: Category)

  function ToEntity(c: Candidate): Entity {
    Entity(c.text, c.start, c.category, PostProcess)
  }

  /** The candidate for a keyword found at `[start, end)` of `doc`: the
      entity's text is `doc[start:end]`. */
  function SliceCandidate(doc: string, start: int, end: int, c: Category): (r: Candidate)
    ensures 0 <= start <= end <= |doc| ==> r.text == doc[start..end] && ToEntity(r).End() == end
  {
    Candidate(PySlice(doc, start, end), start, end, c)
  }

  /** The candidates the guard accepts, each one checked against the
      boundary lists extended by the ones accepted before it. */
  function Accepted(bs: seq<Interval>, cs: seq<Candidate>): (r: seq<Candidate>)
    ensures |r| <= |cs|
    ensures forall c :: c in r ==> c in cs
    decreases |cs|
  {
    if |cs| == 0 then []
    else if CheckOverlap(bs, cs[0].start, cs[0].end).0 then
      [cs[0]] + Accepted(bs + [Interval(cs[0].start, cs[0].end)], cs[1..])
    else Accepted(bs, cs[1..])
  }

  function Entities(cs: seq<Candidate>): (r: seq<Entity>)
    ensures |r| == |cs| && forall k :: 0 <= k < |cs| ==> r[k] == ToEntity(cs[k])
  {
    seq(|cs|, k requires 0 <= k < |cs| => ToEntity(cs[k]))
  }

  function Intervals(cs: seq<Candidate>): (r: seq<Interval>)
    ensures |r| == |cs| && forall k :: 0 <= k < |cs| ==> r[k] == Interval(cs[k].start, cs[k].end)
  {
    seq(|cs|, k requires 0 <= k < |cs| => Interval(cs[k].start, cs[k].end))
  }

  /** `if self.check_overlap_entities(s, e): self.entities.append(...)`. */
  function TryAdd(st: State, c: Candidate): (r: State)
    ensures CheckOverlap(st.bounds, c.start, c.end).0 ==>
      r == State(st.entities + [ToEntity(c)], st.bounds + [Interval(c.start, c.end)], st.checklist)
    ensures !CheckOverlap(st.bounds, c.start, c.end).0 ==> r == st
  {
    var (ok, bounds) := CheckOverlap(st.bounds, c.start, c.end);
    if ok then State(st.entities + [ToEntity(c)], bounds, st.checklist) else st
  }

  /** The candidates offered to the guard one after another. */
  function AddAll(st: State, cs: seq<Candidate>): State
    decreases |cs|
  {
    if |cs| == 0 then st else AddAll(TryAdd(st, cs[0]), cs[1..])
  }

  /** Offering the candidates appends exactly the accepted ones, as entities
      and as recorded intervals, in order; nothing else changes. */
  lemma {:induction false} AddAllAppendsAccepted(st: State, cs: seq<Candidate>)
    ensures var acc := Accepted(st.bounds, cs);
      AddAll(st, cs) == State(st.entities + Entities(acc), st.bounds + Intervals(acc), st.checklist)
    decreases |cs|
  {
    if |cs| > 0 {
      var c := cs[0];
      var mid := TryAdd(st, c);
      var rest := Accepted(mid.bounds, cs[1..]);
      var acc := Accepted(st.bounds, cs);
      assert AddAll(st, cs) == State(mid.entities + Entities(rest), mid.bounds + Intervals(rest), st.checklist) by {
        AddAllAppendsAccepted(mid, cs[1..]);
      }
      if CheckOverlap(st.bounds, c.start, c.end).0 {
        var e, iv := ToEntity(c), Interval(c.start, c.end);
        assert mid == State(st.entities + [e], st.bounds + [iv], st.checklist);
        assert acc == [c] + rest;
        assert mid.entities + Entities(rest) == st.entities + Entities(acc) by {
          assert Entities([c] + rest) == [e] + Entities(rest);
          Associate(st.entities, [e], Entities(rest));
        }
        assert mid.bounds + Intervals(rest) == st.bounds + Intervals(acc) by {
          assert Intervals([c] + rest) == [iv] + Intervals(rest);
          Associate(st.bounds, [iv], Intervals(rest));
        }
      } else {
        assert mid == st;
        assert acc == rest;
      }
    }
  }

  /** Offering candidates only ever appends entities and intervals. */
  lemma AddAllExtends(st: State, cs: seq<Candidate>)
    ensures Extends(st, AddAll(st, cs))
  {
    AddAllAppendsAccepted(st, cs);
    assert AddAll(st, cs).entities[..|st.entities|] == st.entities;
    assert AddAll(st, cs).bounds[..|st.bounds|] == st.bounds;
  }

  /** Offering candidates of one category only adds entities of that category. */
  lemma AddAllCategory(st: State, cs: seq<Candidate>, cat: Category)
    requires forall k :: 0 <= k < |cs| ==> cs[k].category == cat
    ensures Extends(st, AddAll(st, cs))
    ensures forall k :: |st.entities| <= k < |AddAll(st, cs).entities| ==> AddAll(st, cs).entities[k].category == cat
  {
    AddAllExtends(st, cs);
    AddAllAppendsAccepted(st, cs);
    assert forall c :: c in Accepted(st.bounds, cs) ==> c.category == cat;
  }

  lemma Associate<T>(a: seq<T>, b: seq<T>, c: seq<T>)
    ensures (a + b) + c == a + (b + c)
  {
  }

  /** Every recorded interval from index `n` on is clear of all intervals
      recorded before it. */
  predicate Layered(bs: seq<Interval>, n: int) {
    forall j, i :: n <= j < |bs| && 0 <= i < j ==> Clear(bs[i], bs[j].start, bs[j].end)
  }

  predicate ProperCandidates(cs: seq<Candidate>) {
    forall k :: 0 <= k < |cs| ==> cs[k].start < cs[k].end
  }

  /** Overlap-free acceptance: for non-empty spans, each accepted candidate
      is clear of every interval recorded before it, whether at construction
      or by an earlier acceptance. */
  lemma {:induction false} AcceptedLayered(bs: seq<Interval>, cs: seq<Candidate>)
    requires Proper(bs) && ProperCandidates(cs)
    ensures Proper(bs + Intervals(Accepted(bs, cs)))
    ensures Layered(bs + Intervals(Accepted(bs, cs)), |bs|)
    decreases |cs|
  {
    if |cs| == 0 {
      assert bs + Intervals([]) == bs;
    } else {
      var c := cs[0];
      assert ProperCandidates(cs[1..]) by {
        forall k | 0 <= k < |cs[1..]| ensures cs[1..][k].start < cs[1..][k].end {
          assert cs[1..][k] == cs[k + 1];
        }
      }
      if CheckOverlap(bs, c.start, c.end).0 {
        var iv := Interval(c.start, c.end);
        var bs' := bs + [iv];
        assert forall i :: 0 <= i < |bs| ==> Clear(bs[i], iv.start, iv.end) by {
          CheckOverlapIffClear(bs, c.start, c.end);
        }
        AcceptedLayered(bs', cs[1..]);
        var rest := Intervals(Accepted(bs', cs[1..]));
        assert bs + Intervals(Accepted(bs, cs)) == bs' + rest by {
          assert Accepted(bs, cs) == [c] + Accepted(bs', cs[1..]);
          assert Intervals([c] + Accepted(bs', cs[1..])) == [iv] + rest;
        }
        LayeredStep(bs, iv, rest);
      } else {
        AcceptedLayered(bs, cs[1..]);
      }
    }
  }

  /** An interval clear of everything before it extends the layered region
      down to its own index. */
  lemma LayeredStep(bs: seq<Interval>, iv: Interval, rest: seq<Interval>)
    requires Proper(bs) && iv.start < iv.end
    requires forall i :: 0 <= i < |bs| ==> Clear(bs[i], iv.start, iv.end)
    requires Proper(bs + [iv] + rest) && Layered(bs + [iv] + rest, |bs| + 1)
    ensures Layered(bs + [iv] + rest, |bs|)
  {
    var all := bs + [iv] + rest;
    forall j, i | |bs| <= j < |all| && 0 <= i < j ensures Clear(all[i], all[j].start, all[j].end) {
      if j == |bs| {
        assert all[j] == iv && all[i] == bs[i];
      }
    }
  }

  /** A candidate whose start or end is already recorded is never added. */
  lemma {:induction false} RecordedBoundaryRejected(bs: seq<Interval>, cs: seq<Candidate>, c: Candidate)
    requires StartRecorded(bs, c.start) || EndRecorded(bs, c.end)
    ensures c !in Accepted(bs, cs)
    decreases |cs|
  {
    if |cs| > 0 {
      if CheckOverlap(bs, cs[0].start, cs[0].end).0 {
        var bs' := bs + [Interval(cs[0].start, cs[0].end)];
        if StartRecorded(bs, c.start) {
          var i :| 0 <= i < |bs| && bs[i].start == c.start;
          assert bs'[i] == bs[i];
        } else {
          var i :| 0 <= i < |bs| && bs[i].end == c.end;
          assert bs'[i] == bs[i];
        }
        RecordedBoundaryRejected(bs', cs[1..], c);
      } else {
        RecordedBoundaryRejected(bs, cs[1..], c);
      }
    }
  }

  /** A match found inside an entity's text, shifted by the entity's start,
      is read from the document the entity is read from. */
  lemma MatchInEntity(e: Entity, doc: string, ms: seq<KeywordMatch>, k: int, c: Category, src: Source)
    requires InDocument(e, doc) && MatchesInText(ms, e.text) && 0 <= k < |ms|
    ensures InDocument(Entity(ms[k].keyword, e.start + ms[k].start, c, src), doc)
  {
    var a, b := ms[k].start, ms[k].end;
    assert e.text[a..b] == ms[k].keyword;
    SliceOfSlice(doc, e.start, e.End(), a, b);
  }

  /** Keywords searched for in the accent-folded text: the span of each
      match, read in the original text, folds to the keyword. The folding
      keeps lengths, so the offsets are valid in both texts. */
  lemma FoldedMatchSpellsKeyword(doc: string, ms: seq<KeywordMatch>, k: int)
    requires MatchesInText(ms, Deaccent(doc)) && 0 <= k < |ms|
    ensures ms[k].end <= |doc|
    ensures Deaccent(doc[ms[k].start..ms[k].end]) == ms[k].keyword
  {
    DeaccentSlice(doc, ms[k].start, ms[k].end);
  }

  /** The candidates for keyword matches, each with the text sliced from `doc`. */
  function KeywordCandidates(doc: string, ms: seq<KeywordMatch>, c: Category): (r: seq<Candidate>)
    ensures |r| == |ms|
    ensures forall k :: 0 <= k < |ms| ==> r[k] == SliceCandidate(doc, ms[k].start, ms[k].end, c)
  {
    seq(|ms|, k requires 0 <= k < |ms| => SliceCandidate(doc, ms[k].start, ms[k].end, c))
  }

  /** With an honest matcher run on `doc` or on its folded form, every
      entity a keyword rule adds is read from `doc`. */
  lemma KeywordCandidatesInDocument(doc: string, ms: seq<KeywordMatch>, c: Category, k: int)
    requires MatchesInText(ms, doc) || MatchesInText(ms, Deaccent(doc))
    requires 0 <= k < |ms|
    ensures InDocument(ToEntity(KeywordCandidates(doc, ms, c)[k]), doc)
  {
  }
}
