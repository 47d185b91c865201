/** `PostProcessFromSents`: the rules applied sentence by sentence. A
    sentence is the tagger's output: its tokens, the tagged spans over them,
    its two renderings and its offsets. The gazetteers and regular
    expressions are external, except the postal-code and digit-run patterns,
    which are modelled exactly. */
module FromSents {
  import opened Base
  import opened Types
  import opened Accents
  import opened Guard
  import opened Edits
  import opened Matching
  import opened FromEntities
  import opened FromText

  /** A token, at its `start_position`. */
  datatype SentToken = SentToken(text: string, start: int)

  /** A tagged span: its first token, its number of tokens, its
      `start_position` and its tag. */
  datatype TagSpan = TagSpan(first: nat, length: nat, start: int, category: Category)

  /** A sentence: `to_plain_string()`, `to_original_text()`, and its
      `start_position` and `end_position` in the decision. */
  datatype Sentence = Sentence(
    tokens: seq<SentToken>, spans: seq<TagSpan>, plain: string, original: string,
    startPosition: int, endPosition: int)

  // ---------------------------------------------------------------------
  // What a sequence of rules may change

  /** No entity is deleted or moved: the old entities keep their text and
      offset (only their category and source may change), and new ones come
      after them. */
  predicate KeepsSpans(a: seq<Entity>, b: seq<Entity>) {
    && |a| <= |b|
    && forall k :: 0 <= k < |a| ==> b[k].text == a[k].text && b[k].start == a[k].start
  }

  /** `b` is `a` followed by copies of `msg`. */
  predicate GrewBy(a: seq<string>, b: seq<string>, msg: string) {
    && |a| <= |b| && b[..|a|] == a
    && forall k :: |a| <= k < |b| ==> b[k] == msg
  }

  /** The sentence rules never delete or move an entity, only append
      recorded intervals, and only append the missing-bank-account message. */
  predicate Grows(a: State, b: State) {
    && KeepsSpans(a.entities, b.entities)
    && |a.bounds| <= |b.bounds| && b.bounds[..|a.bounds|] == a.bounds
    && GrewBy(a.checklist, b.checklist, BankAccountMessage)
  }

  lemma GrowsTransitive(a: State, b: State, c: State)
    requires Grows(a, b) && Grows(b, c)
    ensures Grows(a, c)
  {
    assert c.bounds[..|a.bounds|] == c.bounds[..|b.bounds|][..|a.bounds|];
    assert c.checklist[..|a.checklist|] == c.checklist[..|b.checklist|][..|a.checklist|];
    forall k | |a.checklist| <= k < |c.checklist| ensures c.checklist[k] == BankAccountMessage {
      if k < |b.checklist| {
        assert c.checklist[k] == c.checklist[..|b.checklist|][k];
      }
    }
  }

  lemma ExtendsGrows(a: State, b: State)
    requires Extends(a, b)
    ensures Grows(a, b)
  {
    forall k | 0 <= k < |a.entities| ensures b.entities[k] == a.entities[k] {
      assert b.entities[k] == b.entities[..|a.entities|][k];
    }
  }

  /** A relabelling rule: the entities keep their spans and order. */
  lemma RelabelGrows(st: State, fires: Entity -> bool)
    ensures Grows(st, WithEntities(st, RelabelWhere(st.entities, fires, PersonnePhysique)))
  {
  }

  // ---------------------------------------------------------------------
  // match_against_case

  /** A span the "versus" rule retags: a professional, or an address of
      fewer than three tokens. */
  predicate SpanFires(sp: TagSpan) {
    IsProfessional(sp.category) || (sp.category == Adresse && sp.length < 3)
  }

  function RetagSpans(spans: seq<TagSpan>): (r: seq<TagSpan>)
    ensures |r| == |spans|
    ensures forall p :: 0 <= p < |spans| ==>
      r[p] == (if SpanFires(spans[p]) then spans[p].(category := PersonnePhysique) else spans[p])
  {
    seq(|spans|, p requires 0 <= p < |spans| =>
      if SpanFires(spans[p]) then spans[p].(category := PersonnePhysique) else spans[p])
  }

  /** The window of sentences `sentences[i - 2 : i + 3]` for `i > 1`,
      `sentences[i - 1 : i + 2]` otherwise, as written: for `i == 0` the
      lower bound -1 wraps to the last sentence. */
  function WindowAsWritten(i: int, n: nat): (int, int) {
    if i > 1 then (SliceIndex(i - 2, n), SliceIndex(i + 3, n))
    else (SliceIndex(i - 1, n), SliceIndex(i + 2, n))
  }

  /** The window with the lower bound clamped at the first sentence. */
  function Window(i: int, n: nat): (r: (int, int))
    requires 0 <= i < n
    ensures 0 <= r.0 <= i < r.1 <= n
  {
    if i > 1 then (i - 2, if i + 3 <= n then i + 3 else n)
    else (if i == 0 then 0 else i - 1, if i + 2 <= n then i + 2 else n)
  }

  /** The clamped window agrees with the written one except at the first
      sentence, where the written one is empty as soon as the decision has
      three sentences, and so misses the "C/" sentence's neighbours. */
  lemma WindowAsWrittenAtStart(i: int, n: nat)
    requires 0 <= i < n
    ensures i > 0 ==> WindowAsWritten(i, n) == Window(i, n)
    ensures i == 0 && n >= 3 ==> WindowAsWritten(i, n).0 >= WindowAsWritten(i, n).1
    ensures i == 0 ==> Window(i, n) == (0, if n >= 2 then 2 else n)
  {
  }

  /** Some firing span of a window sentence starts at `s`. */
  predicate StartHit(sents: seq<Sentence>, lo: int, hi: int, s: int) {
    exists k, p :: lo <= k < hi && 0 <= k < |sents| && 0 <= p < |sents[k].spans|
      && SpanFires(sents[k].spans[p]) && sents[k].spans[p].start == s
  }

  /** Retagging the firing spans of the window's sentences, and giving their
      new tag to every entity that starts where one of them starts. The
      entity keeps its source. */
  function AgainstIn(sents: seq<Sentence>, es: seq<Entity>, lo: int, hi: int): (r: (seq<Sentence>, seq<Entity>))
    ensures |r.0| == |sents| && |r.1| == |es| && KeepsSpans(es, r.1)
    ensures forall k :: 0 <= k < |sents| ==> r.0[k].tokens == sents[k].tokens
  {
    var ss := seq(|sents|, k requires 0 <= k < |sents| =>
      if lo <= k < hi then sents[k].(spans := RetagSpans(sents[k].spans)) else sents[k]);
    var rs := seq(|es|, j requires 0 <= j < |es| =>
      if StartHit(sents, lo, hi, es[j].start) then es[j].(category := PersonnePhysique) else es[j]);
    (ss, rs)
  }

  /** `match_against_case` for the sentence at index `i`. */
  function AgainstCase(sents: seq<Sentence>, es: seq<Entity>, i: int): (r: (seq<Sentence>, seq<Entity>))
    requires 0 <= i < |sents|
    ensures |r.0| == |sents| && |r.1| == |es| && KeepsSpans(es, r.1)
    ensures forall k :: 0 <= k < |sents| ==> r.0[k].tokens == sents[k].tokens
  {
    if Lower(sents[i].plain) != "c/" then (sents, es)
    else
      var (lo, hi) := Window(i, |sents|);
      AgainstIn(sents, es, lo, hi)
  }

  /** `match_against_case` with the window as written. */
  function AgainstCaseAsWritten(sents: seq<Sentence>, es: seq<Entity>, i: int): (r: (seq<Sentence>, seq<Entity>))
    requires 0 <= i < |sents|
  {
    if Lower(sents[i].plain) != "c/" then (sents, es)
    else
      var (lo, hi) := WindowAsWritten(i, |sents|);
      AgainstIn(sents, es, lo, hi)
  }

  /** As written, a "C/" opening a decision of three or more sentences
      changes nothing, even when the next sentence holds a lawyer entity; the
      clamped window relabels it. */
  lemma AgainstCaseAtStart(sents: seq<Sentence>, es: seq<Entity>, j: int, p: int)
    requires |sents| >= 3 && Lower(sents[0].plain) == "c/"
    requires 0 <= j < |es| && 0 <= p < |sents[1].spans|
    requires SpanFires(sents[1].spans[p]) && sents[1].spans[p].start == es[j].start
    ensures AgainstCaseAsWritten(sents, es, 0) == (sents, es)
    ensures AgainstCase(sents, es, 0).1[j].category == PersonnePhysique
  {
    var (lo, hi) := WindowAsWritten(0, |sents|);
    assert lo >= hi;
    var r := AgainstIn(sents, es, lo, hi);
    assert r.0 == sents;
    assert r.1 == es by {
      forall j' | 0 <= j' < |es| ensures r.1[j'] == es[j'] {
        assert !StartHit(sents, lo, hi, es[j'].start);
      }
    }
    assert StartHit(sents, 0, 2, es[j].start);
  }

  /** An entity is relabelled exactly when a firing span of the window
      starts where it starts; texts, offsets and sources never change. */
  lemma AgainstInOutcome(sents: seq<Sentence>, es: seq<Entity>, lo: int, hi: int, j: int)
    requires 0 <= j < |es|
    ensures var e := AgainstIn(sents, es, lo, hi).1[j];
      && e.text == es[j].text && e.start == es[j].start && e.source == es[j].source
      && (e != es[j] <==> StartHit(sents, lo, hi, es[j].start) && es[j].category != PersonnePhysique)
  {
  }

  /** Applying the rule twice at the same sentence is applying it once: the
      retagged spans no longer fire. */
  lemma AgainstInIdempotent(sents: seq<Sentence>, es: seq<Entity>, lo: int, hi: int)
    ensures var once := AgainstIn(sents, es, lo, hi);
      AgainstIn(once.0, once.1, lo, hi) == once
  {
    var once := AgainstIn(sents, es, lo, hi);
    var twice := AgainstIn(once.0, once.1, lo, hi);
    forall k, p | lo <= k < hi && 0 <= k < |once.0| && 0 <= p < |once.0[k].spans|
      ensures !SpanFires(once.0[k].spans[p])
    {
      assert once.0[k].spans == RetagSpans(sents[k].spans);
    }
    forall j | 0 <= j < |es| ensures twice.1[j] == once.1[j] {
      assert !StartHit(once.0, lo, hi, once.1[j].start);
    }
    forall k | 0 <= k < |sents| ensures twice.0[k] == once.0[k] {
      if lo <= k < hi {
        assert RetagSpans(RetagSpans(sents[k].spans)) == RetagSpans(sents[k].spans);
      }
    }
    assert twice.0 == once.0;
    assert twice.1 == once.1;
  }

  // ---------------------------------------------------------------------
  // _find_postal_code

  predicate IsPostalLead(c: char) {
    c == '(' || IsSpace(c)
  }

  predicate IsPostalTail(c: char) {
    c == ')' || c == '.' || c == ',' || IsSpace(c)
  }

  /** The pattern `(?<=\(|\s)\d{5}(?=\)|\s|\.|,)` matches at `i`. */
  predicate PostalAt(s: string, i: int) {
    && 1 <= i && i + 5 < |s|
    && IsPostalLead(s[i - 1]) && IsPostalTail(s[i + 5])
    && forall j :: i <= j < i + 5 ==> IsDecimal(s[j])
  }

  /** Two matches never overlap, so scanning finds every position where
      the pattern matches. */
  lemma PostalApart(s: string, i: int, j: int)
    requires PostalAt(s, i) && PostalAt(s, j) && i < j
    ensures i + 6 <= j
  {
    if j - 1 < i + 5 {
      DigitIsNoLead(s[j - 1]);
    }
  }

  lemma DigitIsNoLead(c: char)
    requires IsDecimal(c)
    ensures !IsPostalLead(c)
  {
  }

  /** The match positions at or after `i`, in increasing order. */
  function PostalFrom(s: string, i: nat): (r: seq<nat>)
    ensures forall k :: 0 <= k < |r| ==> i <= r[k] < |s|
    decreases |s| - i
  {
    if i >= |s| then [] else (if PostalAt(s, i) then [i] else []) + PostalFrom(s, i + 1)
  }

  /** `re.finditer` of the postal-code pattern: exactly the positions where
      it matches, in increasing order. */
  lemma {:induction false} PostalFromIff(s: string, i: nat, k: int)
    ensures k in PostalFrom(s, i) <==> i <= k && PostalAt(s, k)
    decreases |s| - i
  {
    if i < |s| {
      PostalFromIff(s, i + 1, k);
    }
  }

  lemma {:induction false} PostalFromIncreasing(s: string, i: nat)
    ensures forall a, b :: 0 <= a < b < |PostalFrom(s, i)| ==> PostalFrom(s, i)[a] < PostalFrom(s, i)[b]
    decreases |s| - i
  {
    if i < |s| {
      PostalFromIncreasing(s, i + 1);
    }
  }

  function PostalCandidates(s: string, idx: int, starts: seq<nat>): (r: seq<Candidate>)
    ensures |r| == |starts|
    ensures forall k :: 0 <= k < |starts| ==>
      r[k] == Candidate(PySlice(s, starts[k], starts[k] + 5), idx + starts[k], idx + starts[k] + 5, Localite)
  {
    seq(|starts|, k requires 0 <= k < |starts| =>
      Candidate(PySlice(s, starts[k], starts[k] + 5), idx + starts[k], idx + starts[k] + 5, Localite))
  }

  /** `_find_postal_code`: each five-digit code of the sentence becomes a
      locality at the sentence's offset, when the guard accepts it. */
  function PostalCodes(st: State, s: string, idx: int): (r: State)
    ensures Extends(st, r)
  {
    var cs := PostalCandidates(s, idx, PostalFrom(s, 0));
    AddAllExtends(st, cs);
    AddAll(st, cs)
  }

  /** A place entity of five characters that are a fenced postal code at
      its offset (relative to `idx`) in the sentence `s`. */
  predicate PostalEntity(e: Entity, s: string, idx: int) {
    && e.category == Localite && e.source == PostProcess && |e.text| == 5
    && PostalAt(s, e.start - idx) && e.text == s[e.start - idx..e.start - idx + 5]
  }

  /** Every added postal code is five decimal digits, fenced as the
      pattern demands, at its place in the sentence. */
  lemma PostalCodesSound(st: State, s: string, idx: int, k: int)
    requires |st.entities| <= k < |PostalCodes(st, s, idx).entities|
    ensures PostalEntity(PostalCodes(st, s, idx).entities[k], s, idx)
  {
    var starts := PostalFrom(s, 0);
    var cs := PostalCandidates(s, idx, starts);
    var acc := Accepted(st.bounds, cs);
    var r := PostalCodes(st, s, idx);
    assert |st.entities| + |acc| == |r.entities| && r.entities[k] == ToEntity(acc[k - |st.entities|]) by {
      AddAllAppendsAccepted(st, cs);
    }
    var c := acc[k - |st.entities|];
    assert c in cs;
    forall p | p in starts ensures PostalAt(s, p) {
      PostalFromIff(s, 0, p);
    }
    PostalCandidateSound(s, idx, starts, c);
  }

  lemma PostalCandidateSound(s: string, idx: int, starts: seq<nat>, c: Candidate)
    requires forall p :: p in starts ==> PostalAt(s, p)
    requires c in PostalCandidates(s, idx, starts)
    ensures PostalEntity(ToEntity(c), s, idx)
  {
    var cs := PostalCandidates(s, idx, starts);
    var q :| 0 <= q < |cs| && cs[q] == c;
    var p := starts[q];
    assert PostalAt(s, p);
    assert PySlice(s, p, p + 5) == s[p..p + 5];
  }


  // ---------------------------------------------------------------------
  // match_cities

  /** The city found by the match `m` in the folded sentence, with the
      sentence's own spelling, at the sentence's offset plus the match's. */
  function CityEntity(s: string, idx: int, m: KeywordMatch): Entity {
    Entity(PySlice(s, m.start, m.end), idx + m.start, Localite, PostProcess)
  }

  /** An entity `match_cities` may add: a postal code of the sentence, or the
      city of a match that does not begin the folded sentence. */
  predicate CityAdded(e: Entity, s: string, idx: int, folded: string, ms: seq<KeywordMatch>) {
    || PostalEntity(e, s, idx)
    || exists m :: m in ms && !StartsWith(folded, m.keyword) && e == CityEntity(s, idx, m)
  }

  predicate AddsOnlyCities(st: State, r: State, s: string, idx: int, folded: string, ms: seq<KeywordMatch>) {
    forall k :: |st.entities| <= k < |r.entities| ==> CityAdded(r.entities[k], s, idx, folded, ms)
  }

  /** The city matches from the first on: a keyword that begins the folded
      sentence is skipped wherever it was found; an accepted city first
      records its span, then lets the postal codes of the sentence in, then
      is appended with the sentence's own spelling. */
  function CitiesFrom(st: State, s: string, idx: int, folded: string, ms: seq<KeywordMatch>): (r: State)
    ensures Extends(st, r)
    decreases |ms|
  {
    if |ms| == 0 then st
    else
      var next := CityStep(st, s, idx, folded, ms[0]);
      ExtendsTransitive(st, next, CitiesFrom(next, s, idx, folded, ms[1..]));
      CitiesFrom(next, s, idx, folded, ms[1..])
  }

  /** One city match: skipped when its keyword begins the folded sentence or
      the guard refuses it; otherwise its span is recorded, the postal codes
      of the sentence are let in, and the city is appended. */
  function CityStep(st: State, s: string, idx: int, folded: string, m: KeywordMatch): (r: State)
    ensures Extends(st, r)
    ensures StartsWith(folded, m.keyword) ==> r == st
  {
    if StartsWith(folded, m.keyword) then st
    else
      var (ok, bounds) := CheckOverlap(st.bounds, idx + m.start, idx + m.end);
      if !ok then st
      else
        var recorded := State(st.entities, bounds, st.checklist);
        var withCodes := PostalCodes(recorded, s, idx);
        var next := withCodes.(entities := withCodes.entities + [CityEntity(s, idx, m)]);
        assert next.entities[..|st.entities|] == withCodes.entities[..|st.entities|];
        assert withCodes.entities[..|st.entities|] == st.entities;
        assert next.bounds[..|st.bounds|] == withCodes.bounds[..|recorded.bounds|][..|st.bounds|];
        next
  }

  /** The sentence with hyphens read as spaces, accents folded. */
  function FoldCity(s: string): (r: string)
    ensures |r| == |s|
  {
    Deaccent(ReplaceChar(s, '-', ' '))
  }

  /** `match_cities`: nothing when an exclusion keyword ("tribunal",
      "barreau", ...) occurs in the sentence; otherwise the city gazetteer's
      matches in the folded sentence. */
  function Cities(st: State, s: string, idx: int, excluded: bool, ms: seq<KeywordMatch>): (r: State)
    ensures Extends(st, r)
    ensures excluded ==> r == st
    ensures AddsOnlyCities(st, r, s, idx, FoldCity(s), ms)
  {
    if excluded || |ms| == 0 then st
    else
      CitiesFromSound(st, s, idx, FoldCity(s), ms);
      CitiesFrom(st, s, idx, FoldCity(s), ms)
  }

  /** Every entity the city matches add is a fenced postal code of the
      sentence or the city of a match that does not begin the folded
      sentence, placed at the sentence's offset plus the match's. */
  lemma {:induction false} CitiesFromSound(st: State, s: string, idx: int, folded: string, ms: seq<KeywordMatch>)
    ensures AddsOnlyCities(st, CitiesFrom(st, s, idx, folded, ms), s, idx, folded, ms)
    decreases |ms|
  {
    if |ms| > 0 {
      var next := CityStep(st, s, idx, folded, ms[0]);
      CityStepSound(st, s, idx, folded, ms[0]);
      var r := CitiesFrom(next, s, idx, folded, ms[1..]);
      CitiesFromSound(next, s, idx, folded, ms[1..]);
      forall k | |st.entities| <= k < |r.entities| ensures CityAdded(r.entities[k], s, idx, folded, ms) {
        if k < |next.entities| {
          assert r.entities[k] == r.entities[..|next.entities|][k];
          assert CityAdded(next.entities[k], s, idx, folded, [ms[0]]);
        } else {
          assert CityAdded(r.entities[k], s, idx, folded, ms[1..]);
        }
      }
    }
  }

  /** What one city match adds is its postal codes and its city. */
  lemma CityStepSound(st: State, s: string, idx: int, folded: string, m: KeywordMatch)
    ensures AddsOnlyCities(st, CityStep(st, s, idx, folded, m), s, idx, folded, [m])
  {
    if !StartsWith(folded, m.keyword) {
      var (ok, bounds) := CheckOverlap(st.bounds, idx + m.start, idx + m.end);
      if ok {
        var recorded := State(st.entities, bounds, st.checklist);
        var withCodes := PostalCodes(recorded, s, idx);
        var next := CityStep(st, s, idx, folded, m);
        assert next.entities == withCodes.entities + [CityEntity(s, idx, m)];
        forall k | |st.entities| <= k < |next.entities| ensures CityAdded(next.entities[k], s, idx, folded, [m]) {
          if k < |withCodes.entities| {
            PostalCodesSound(recorded, s, idx, k);
          } else {
            assert m in [m];
          }
        }
      }
    }
  }

  /** A match that begins the folded sentence contributes nothing, wherever
      it occurs among the matches. */
  lemma {:induction false} CitiesSkipSentenceStart(st: State, s: string, idx: int, folded: string,
                                                   a: seq<KeywordMatch>, m: KeywordMatch, b: seq<KeywordMatch>)
    requires StartsWith(folded, m.keyword)
    ensures CitiesFrom(st, s, idx, folded, a + [m] + b) == CitiesFrom(st, s, idx, folded, a + b)
    decreases |a|
  {
    if |a| == 0 {
      assert a + [m] + b == [m] + b && ([m] + b)[1..] == b && a + b == b;
    } else {
      assert (a + [m] + b)[0] == a[0] && (a + [m] + b)[1..] == a[1..] + [m] + b;
      assert (a + b)[0] == a[0] && (a + b)[1..] == a[1..] + b;
      CitiesSkipSentenceStart(CityStep(st, s, idx, folded, a[0]), s, idx, folded, a[1..], m, b);
    }
  }


  /** Postal codes are only searched for once a city is accepted: when the
      guard accepts no city, nothing changes. */
  lemma {:induction false} CitiesNoneAccepted(st: State, s: string, idx: int, folded: string, ms: seq<KeywordMatch>)
    requires forall k :: 0 <= k < |ms| ==>
      StartsWith(folded, ms[k].keyword) || !CheckOverlap(st.bounds, idx + ms[k].start, idx + ms[k].end).0
    ensures CitiesFrom(st, s, idx, folded, ms) == st
    decreases |ms|
  {
    if |ms| > 0 {
      assert forall k :: 0 <= k < |ms[1..]| ==> ms[1..][k] == ms[k + 1];
      CitiesNoneAccepted(st, s, idx, folded, ms[1..]);
    }
  }

  /** A city entity read with the sentence's own spelling folds back to its
      keyword: hyphen replacement and accent folding keep lengths, so the
      gazetteer's offsets are offsets of the sentence. */
  lemma CitySpelling(s: string, m: KeywordMatch)
    requires MatchesInText([m], FoldCity(s))
    ensures m.end <= |s| && FoldCity(PySlice(s, m.start, m.end)) == m.keyword
  {
    assert [m][0] == m;
    var r := ReplaceChar(s, '-', ' ');
    DeaccentSlice(r, m.start, m.end);
    assert r[m.start..m.end] == ReplaceChar(s[m.start..m.end], '-', ' ');
  }

  // ---------------------------------------------------------------------
  // match_cities_in_moral

  /** The localities' texts longer than one character, without repeats. */
  function LocalityKeywords(es: seq<Entity>): (r: seq<string>)
    ensures forall t :: t in r <==> exists e :: e in es && e.category == Localite && |e.text| > 1 && e.text == t
    decreases |es|
  {
    if |es| == 0 then []
    else
      var last := es[|es| - 1];
      var before := LocalityKeywords(es[..|es| - 1]);
      assert forall e :: e in es <==> e in es[..|es| - 1] || e == last;
      if last.category == Localite && |last.text| > 1 && last.text !in before then before + [last.text] else before
  }

  /** The localities found in a company name, at offsets shifted by the
      company's start; other entities have none. */
  function LocalityPieces(e: Entity, ms: seq<KeywordMatch>): (r: seq<Entity>)
    ensures |r| == (if e.category == PersonneMorale && |e.text| > 1 then |ms| else 0)
  {
    if e.category == PersonneMorale && |e.text| > 1 then
      seq(|ms|, k requires 0 <= k < |ms| => Entity(ms[k].keyword, e.start + ms[k].start, Localite, PostProcess))
    else []
  }

  function LocalityRule(es: seq<Entity>, extract: (seq<string>, string) -> seq<KeywordMatch>): Entity -> seq<Entity> {
    (e: Entity) => LocalityPieces(e, extract(LocalityKeywords(es), e.text))
  }

  /** `match_cities_in_moral`: a company name in which a known locality is
      found is replaced by the localities found. */
  function CitiesInMoral(st: State, extract: (seq<string>, string) -> seq<KeywordMatch>): (r: State)
    ensures r.bounds == st.bounds && r.checklist == st.checklist
  {
    WithEntities(st, Explode(st.entities, LocalityRule(st.entities, extract)))
  }

  /** A company entity is deleted, once, exactly when a locality is found in
      it; every other entity stays. */
  lemma CitiesInMoralDeletes(st: State, extract: (seq<string>, string) -> seq<KeywordMatch>, e: Entity)
    requires e in st.entities
    ensures e in Replaced(st.entities, LocalityRule(st.entities, extract)) <==>
      e.category == PersonneMorale && |e.text| > 1 && extract(LocalityKeywords(st.entities), e.text) != []
    ensures e !in Replaced(st.entities, LocalityRule(st.entities, extract)) ==> e in CitiesInMoral(st, extract).entities
  {
    ReplacedIff(st.entities, LocalityRule(st.entities, extract), e);
    assert LocalityRule(st.entities, extract)(e) == LocalityPieces(e, extract(LocalityKeywords(st.entities), e.text));
  }

  /** With a matcher that reports real occurrences, every locality added is
      read from the document at its shifted offset. */
  lemma CitiesInMoralInDocument(st: State, extract: (seq<string>, string) -> seq<KeywordMatch>, doc: string)
    requires AllInDocument(st.entities, doc)
    requires forall ks, s :: MatchesInText(extract(ks, s), s)
    ensures AllInDocument(CitiesInMoral(st, extract).entities, doc)
  {
    var pieces := LocalityRule(st.entities, extract);
    forall i | 0 <= i < |st.entities| ensures AllInDocument(pieces(st.entities[i]), doc) {
      var e := st.entities[i];
      var ms := extract(LocalityKeywords(st.entities), e.text);
      var r := pieces(e);
      assert InDocument(e, doc) && MatchesInText(ms, e.text);
      forall k | 0 <= k < |r| ensures InDocument(r[k], doc) {
        MatchInEntity(e, doc, ms, k, Localite, PostProcess);
      }
    }
    ExplodeInDocument(st.entities, pieces, doc);
  }

  // ---------------------------------------------------------------------
  // match_siren_and_siret, match_phone_numbers

  /** Regular-expression matches in the sentence, as candidates at the
      sentence's offset. */
  function ShiftedCandidates(ms: seq<KeywordMatch>, idx: int, c: Category): (r: seq<Candidate>)
    ensures |r| == |ms|
    ensures forall k :: 0 <= k < |ms| ==> r[k] == Candidate(ms[k].keyword, idx + ms[k].start, idx + ms[k].end, c)
  {
    seq(|ms|, k requires 0 <= k < |ms| => Candidate(ms[k].keyword, idx + ms[k].start, idx + ms[k].end, c))
  }

  /** A trigger-guarded pattern rule: the matches are only inserted when a
      trigger keyword occurs in the sentence. */
  function TriggeredMatches(st: State, idx: int, triggered: bool, ms: seq<KeywordMatch>, c: Category): (r: State)
    ensures Extends(st, r)
    ensures !triggered ==> r == st
  {
    if !triggered then st
    else
      var cs := ShiftedCandidates(ms, idx, c);
      AddAllExtends(st, cs);
      AddAll(st, cs)
  }

  /** `match_siren_and_siret`: triggered by "siren", "siret" or "RCS". */
  function SirenSiret(st: State, idx: int, triggered: bool, ms: seq<KeywordMatch>): (r: State)
    ensures Extends(st, r)
  {
    TriggeredMatches(st, idx, triggered, ms, NumeroSiretSiren)
  }

  /** `match_phone_numbers`: triggered by "portable", "tel", "telephone" or
      "mobile" in the folded sentence. */
  function PhoneNumbers(st: State, idx: int, triggered: bool, ms: seq<KeywordMatch>): (r: State)
    ensures Extends(st, r)
  {
    TriggeredMatches(st, idx, triggered, ms, TelephoneFax)
  }

  /** Every inserted entity is a match of the sentence, read from the
      document at the sentence's offset. */
  lemma TriggeredMatchesInDocument(st: State, s: string, idx: int, triggered: bool, ms: seq<KeywordMatch>,
                                   c: Category, doc: string, k: int)
    requires 0 <= idx && idx + |s| <= |doc| && doc[idx..idx + |s|] == s
    requires MatchesInText(ms, s)
    requires |st.entities| <= k < |TriggeredMatches(st, idx, triggered, ms, c).entities|
    ensures var e := TriggeredMatches(st, idx, triggered, ms, c).entities[k];
      triggered && InDocument(e, doc) && e.category == c && e.source == PostProcess
  {
    if triggered {
      var cs := ShiftedCandidates(ms, idx, c);
      AddAllAppendsAccepted(st, cs);
      var cand := Accepted(st.bounds, cs)[k - |st.entities|];
      assert cand in cs;
      var q :| 0 <= q < |cs| && cs[q] == cand;
      ShiftedInDocument(s, idx, ms, c, doc, q);
    }
  }

  lemma ShiftedInDocument(s: string, idx: int, ms: seq<KeywordMatch>, c: Category, doc: string, q: int)
    requires 0 <= idx && idx + |s| <= |doc| && doc[idx..idx + |s|] == s
    requires MatchesInText(ms, s) && 0 <= q < |ms|
    ensures InDocument(ToEntity(ShiftedCandidates(ms, idx, c)[q]), doc)
  {
    var m := ms[q];
    assert 0 <= m.start && m.start + |m.keyword| == m.end <= |s| && s[m.start..m.end] == m.keyword;
    var a, b := doc[idx + m.start..idx + m.end], s[m.start..m.end];
    assert |a| == |b|;
    forall t | 0 <= t < |a| ensures a[t] == b[t] {
      assert doc[idx..idx + |s|][m.start + t] == doc[idx + m.start + t];
    }
    assert a == b;
  }

  // ---------------------------------------------------------------------
  // check_compte_bancaire

  /** The `n` characters of `s` from `a` on are decimal digits. */
  predicate DigitsAt(s: string, a: int, n: nat)
    requires 0 <= a && a + n <= |s|
  {
    forall j :: a <= j < a + n ==> IsDecimal(s[j])
  }

  /** The pattern `\d{5,}` (for `n` = 5) occurs in `s`. */
  predicate HasDigitRun(s: string, n: nat) {
    exists i :: 0 <= i && i + n <= |s| && DigitsAt(s, i, n)
  }

  /** A single left-to-right scan for a run of `n` digits. */
  method FindDigitRun(s: string, n: nat) returns (found: bool)
    requires n > 0
    ensures found <==> HasDigitRun(s, n)
  {
    var run := 0;
    var k := 0;
    while k < |s|
      invariant 0 <= k <= |s| && 0 <= run <= k && run < n
      invariant forall j :: k - run <= j < k ==> IsDecimal(s[j])
      invariant run < k ==> !IsDecimal(s[k - run - 1])
      invariant forall i :: 0 <= i && i + n <= k ==> !DigitsAt(s, i, n)
      decreases |s| - k
    {
      if IsDecimal(s[k]) {
        if run + 1 == n {
          assert DigitsAt(s, k + 1 - n, n);
          return true;
        }
        if k + 1 >= n {
          assert !IsDecimal(s[k - run - 1]);
          assert !DigitsAt(s, k + 1 - n, n);
        }
        run := run + 1;
      } else {
        if k + 1 >= n {
          assert !DigitsAt(s, k + 1 - n, n);
        }
        run := 0;
      }
      k := k + 1;
    }
    found := false;
  }

  /** The span `sentence[0].start_position` to the end of its last token. */
  function TokenBounds(sent: Sentence): (int, int)
    requires |sent.tokens| > 0
  {
    var last := sent.tokens[|sent.tokens| - 1];
    (sent.tokens[0].start, last.start + |last.text|)
  }

  predicate BankAccountWithin(es: seq<Entity>, lo: int, hi: int) {
    exists k :: 0 <= k < |es| && lo <= es[k].start <= hi && es[k].category == CompteBancaire
  }

  /** `check_compte_bancaire` on one sentence: the message is appended when
      the sentence mentions "compte bancaire", holds at least five digits in
      a row, and no bank account entity starts inside it. */
  function BankAccountInSentence(st: State, sent: Sentence, keywordFound: bool): (r: State)
    requires |sent.tokens| > 0
    ensures r.entities == st.entities && r.bounds == st.bounds
    ensures r.checklist == st.checklist ||  r.checklist == st.checklist + [BankAccountMessage]
  {
    var (lo, hi) := TokenBounds(sent);
    Report(st, keywordFound && HasDigitRun(sent.plain, 5) && !BankAccountWithin(st.entities, lo, hi), BankAccountMessage)
  }

  /** The message is added exactly in the three conditions' conjunction. */
  lemma BankAccountInSentenceIff(st: State, sent: Sentence, keywordFound: bool)
    requires |sent.tokens| > 0
    ensures |BankAccountInSentence(st, sent, keywordFound).checklist| == |st.checklist| + 1 <==>
      keywordFound && HasDigitRun(sent.plain, 5) && !BankAccountWithin(st.entities, TokenBounds(sent).0, TokenBounds(sent).1)
  {
  }

  // ---------------------------------------------------------------------
  // change_pro_to_physique_no_context

  /** The tag a token carries once every span has written its tag onto its
      tokens, in order: the last span covering it wins. */
  function TokenTag(spans: seq<TagSpan>, k: int): Option<Category>
    decreases |spans|
  {
    if |spans| == 0 then None
    else
      var sp := spans[|spans| - 1];
      if sp.first <= k < sp.first + sp.length then Some(sp.category)
      else TokenTag(spans[..|spans| - 1], k)
  }

  /** The tag contains "professionnel". */
  predicate ProfessionalToken(sent: Sentence, k: int) {
    var t := TokenTag(sent.spans, k);
    t.Some? && IsProfessional(t.value)
  }

  /** The `for ... else` of the rule: no alphabetic token lacks a
      professional tag. */
  predicate NoContext(sent: Sentence) {
    forall k :: 0 <= k < |sent.tokens| ==> IsAlpha(sent.tokens[k].text) ==> ProfessionalToken(sent, k)
  }

  /** `change_pro_to_physique_no_context`: in a sentence made only of
      professional names (and punctuation or numbers), every entity starting
      between the sentence bounds, whatever its category, becomes a natural
      person. */
  function NoContextRule(st: State, sent: Sentence, lo: int, hi: int): (r: State)
    ensures r.bounds == st.bounds && r.checklist == st.checklist
    ensures !NoContext(sent) ==> r == st
    ensures |r.entities| == |st.entities|
  {
    if NoContext(sent) then
      WithEntities(st, RelabelWhere(st.entities, (e: Entity) => lo <= e.start <= hi, PersonnePhysique))
    else st
  }

  /** Which entities change: those starting within the bounds, when the
      sentence has no context; they become natural persons from
      postprocessing. */
  lemma NoContextOutcome(st: State, sent: Sentence, lo: int, hi: int, j: int)
    requires 0 <= j < |st.entities|
    ensures var e := NoContextRule(st, sent, lo, hi).entities[j];
      && e.text == st.entities[j].text && e.start == st.entities[j].start
      && (NoContext(sent) && lo <= e.start <= hi ==> e.category == PersonnePhysique && e.source == PostProcess)
      && (!(NoContext(sent) && lo <= e.start <= hi) ==> e == st.entities[j])
  {
  }

  // ---------------------------------------------------------------------
  // change_pro_to_physique_with_context

  const ContextSize := 60

  /** The 60 characters after the entity, folded and lower-cased, sliced
      from the sentence's own text with the entity's document offset. */
  function Context(sent: Sentence, e: Entity): string {
    Lower(PySlice(Deaccent(sent.original), e.End(), e.End() + ContextSize))
  }

  /** Because the slice uses a document offset on the sentence's text, the
      window is empty for any entity of a sentence that starts at or after
      its own length. */
  lemma ContextPastSentence(sent: Sentence, e: Entity)
    requires e.start >= sent.startPosition >= |sent.original|
    ensures Context(sent, e) == []
  {
  }

  predicate ContextFires(sent: Sentence, e: Entity, search: string -> bool) {
    && e.start >= sent.startPosition && e.End() <= sent.endPosition
    && IsProfessional(e.category)
    && search(Context(sent, e))
  }

  function ContextRule(sent: Sentence, search: string -> bool): Entity -> bool {
    (e: Entity) => ContextFires(sent, e, search)
  }

  /** `change_pro_to_physique_with_context`, with the joined patterns'
      `search` as a parameter: professionals lying inside the sentence whose
      following window matches become natural persons. */
  function WithContext(st: State, sent: Sentence, search: string -> bool): (r: State)
    ensures r.bounds == st.bounds && r.checklist == st.checklist
  {
    WithEntities(st, RelabelWhere(st.entities, ContextRule(sent, search), PersonnePhysique))
  }

  /** Only professionals inside the sentence change, and a second pass
      changes nothing more. */
  lemma WithContextOutcome(st: State, sent: Sentence, search: string -> bool, j: int)
    requires 0 <= j < |st.entities|
    ensures var e := WithContext(st, sent, search).entities[j];
      && (e != st.entities[j] ==>
            IsProfessional(st.entities[j].category) && sent.startPosition <= e.start && e.End() <= sent.endPosition)
      && WithContext(WithContext(st, sent, search), sent, search) == WithContext(st, sent, search)
  {
    assert ContextRule(sent, search)(st.entities[j]) == ContextFires(sent, st.entities[j], search);
    RelabelWhereIdempotent(st.entities, ContextRule(sent, search), PersonnePhysique);
  }

  // ---------------------------------------------------------------------
  // apply_methods

  /** Which rules `apply_methods` runs. */
  datatype Methods = Methods(
    against: bool, cities: bool, facilities: bool, siren: bool,
    phone: bool, bankAccount: bool, noContext: bool, withContext: bool)

  /** What the external matchers report for one sentence: the trigger
      keywords and the regular-expression matches of the SIREN/SIRET and
      phone rules, the bank account keyword, the exclusion keywords and the
      city matches, and the facility entities the token heuristic proposes. */
  datatype Finds = Finds(
    sirenTriggered: bool, siren: seq<KeywordMatch>,
    phoneTriggered: bool, phones: seq<KeywordMatch>,
    bankKeyword: bool,
    excluded: bool, cities: seq<KeywordMatch>,
    facilities: seq<Candidate>)

  /** `start_sentence`: the first token's position, or the sentence's own
      start when that is set and larger. */
  function SentenceStart(sent: Sentence): int
    requires |sent.tokens| > 0
  {
    var first := sent.tokens[0].start;
    if sent.startPosition != 0 && sent.startPosition > first then sent.startPosition else first
  }

  /** The truthiness test of `match_facilities`: neither offset is 0. */
  predicate NonZeroSpan(c: Candidate) {
    c.start != 0 && c.end != 0
  }

  /** Every entity `r` has beyond those of `st` is the entity of a proposed
      candidate with non-zero offsets. */
  predicate AddsOnlyNonZero(st: State, cs: seq<Candidate>, r: State) {
    forall k :: |st.entities| <= k < |r.entities| ==>
      exists c :: c in cs && c.start != 0 && c.end != 0 && r.entities[k] == ToEntity(c)
  }

  /** `match_facilities`: a proposed facility starting or ending at offset
      0 is dropped (the test is on truthiness), the rest go through the guard. */
  function Facilities(st: State, cs: seq<Candidate>): (r: State)
    ensures Extends(st, r)
    ensures AddsOnlyNonZero(st, cs, r)
  {
    FacilitiesAdded(st, cs);
    AddAll(st, Filter(cs, NonZeroSpan))
  }

  /** `e` is the entity of one of the candidates `cs`. */
  predicate FromCandidate(e: Entity, cs: seq<Candidate>) {
    exists c :: c in cs && e == ToEntity(c)
  }

  /** Every entity the guard appends is the entity of one of the candidates offered to it. */
  lemma AddedFromCandidates(st: State, cs: seq<Candidate>)
    ensures forall k :: |st.entities| <= k < |AddAll(st, cs).entities| ==>
      FromCandidate(AddAll(st, cs).entities[k], cs)
  {
    forall k | |st.entities| <= k < |AddAll(st, cs).entities|
      ensures FromCandidate(AddAll(st, cs).entities[k], cs)
    {
      AddedAt(st, cs, k);
    }
  }

  /** The entity appended at index `k` is that of an accepted candidate. */
  lemma AddedAt(st: State, cs: seq<Candidate>, k: int)
    requires |st.entities| <= k < |AddAll(st, cs).entities|
    ensures FromCandidate(AddAll(st, cs).entities[k], cs)
  {
    var acc := Accepted(st.bounds, cs);
    assert AddAll(st, cs).entities == st.entities + Entities(acc) by {
      AddAllAppendsAccepted(st, cs);
    }
    var c := acc[k - |st.entities|];
    assert AddAll(st, cs).entities[k] == Entities(acc)[k - |st.entities|] == ToEntity(c);
    assert c in acc;
    assert c in cs;
  }

  /** Offering only the candidates with non-zero offsets appends entities of
      such candidates and nothing else. */
  lemma FacilitiesAdded(st: State, cs: seq<Candidate>)
    ensures Extends(st, AddAll(st, Filter(cs, NonZeroSpan)))
    ensures AddsOnlyNonZero(st, cs, AddAll(st, Filter(cs, NonZeroSpan)))
  {
    var kept := Filter(cs, NonZeroSpan);
    var r := AddAll(st, kept);
    AddAllExtends(st, kept);
    AddedFromCandidates(st, kept);
    forall k | |st.entities| <= k < |r.entities|
      ensures exists c :: c in cs && c.start != 0 && c.end != 0 && r.entities[k] == ToEntity(c)
    {
      assert FromCandidate(r.entities[k], kept);
      var c :| c in kept && r.entities[k] == ToEntity(c);
      assert c in cs && NonZeroSpan(c);
    }
  }

  /** The inserting rules and the sentence-level check, in their order:
      SIREN/SIRET, phone numbers, bank account, cities, facilities. */
  function Inserts(s0: State, sent: Sentence, idx: int, f: Finds, m: Methods): (r: State)
    requires |sent.tokens| > 0
    ensures Grows(s0, r)
  {
    var s1 := if m.siren then SirenSiret(s0, idx, f.sirenTriggered, f.siren) else s0;
    var s2 := if m.phone then PhoneNumbers(s1, idx, f.phoneTriggered, f.phones) else s1;
    var s3 := if m.bankAccount then BankAccountInSentence(s2, sent, f.bankKeyword) else s2;
    var s4 := if m.cities then Cities(s3, sent.plain, idx, f.excluded, f.cities) else s3;
    var s5 := if m.facilities then Facilities(s4, f.facilities) else s4;
    InsertsGrow(s0, s1, s2, s3, s4, s5);
    s5
  }

  lemma InsertsGrow(s0: State, s1: State, s2: State, s3: State, s4: State, s5: State)
    requires Extends(s0, s1) && Extends(s1, s2)
    requires s3.entities == s2.entities && s3.bounds == s2.bounds
    requires s3.checklist == s2.checklist || s3.checklist == s2.checklist + [BankAccountMessage]
    requires Extends(s3, s4) && Extends(s4, s5)
    ensures Grows(s0, s5)
  {
    ExtendsTransitive(s0, s1, s2);
    ExtendsTransitive(s3, s4, s5);
    ExtendsGrows(s0, s2);
    ExtendsGrows(s3, s5);
    assert Grows(s2, s3);
    GrowsTransitive(s0, s2, s3);
    GrowsTransitive(s0, s3, s5);
  }

  /** The two relabelling rules, last: no context, then context window. */
  function Relabels(s5: State, tagged: Sentence, sent: Sentence, idx: int, hi: int, m: Methods, search: string -> bool): (r: State)
    ensures Grows(s5, r)
  {
    var s6 := if m.noContext then NoContextRule(s5, tagged, idx, hi) else s5;
    var s7 := if m.withContext then WithContext(s6, sent, search) else s6;
    assert KeepsSpans(s5.entities, s6.entities);
    assert KeepsSpans(s6.entities, s7.entities);
    assert Grows(s5, s6) && Grows(s6, s7);
    GrowsTransitive(s5, s6, s7);
    s7
  }

  /** The rules for the sentence at index `i`, in their fixed order; the
      no-context rule reads the tags as the "versus" rule left them. */
  function SentenceStep(sents: seq<Sentence>, st: State, i: int, f: Finds, m: Methods, search: string -> bool)
    : (r: (seq<Sentence>, State))
    requires 0 <= i < |sents| && |sents[i].tokens| > 0
    ensures |r.0| == |sents| && forall k :: 0 <= k < |sents| ==> r.0[k].tokens == sents[k].tokens
    ensures Grows(st, r.1)
  {
    var sent := sents[i];
    var idx := SentenceStart(sent);
    var hi := TokenBounds(sent).1;
    var against := if m.against then AgainstCase(sents, st.entities, i) else (sents, st.entities);
    var s0 := WithEntities(st, against.1);
    assert Grows(st, s0);
    var s5 := Inserts(s0, sent, idx, f, m);
    var s7 := Relabels(s5, against.0[i], sent, idx, hi, m, search);
    GrowsTransitive(st, s0, s5);
    GrowsTransitive(st, s5, s7);
    (against.0, s7)
  }

  /** `apply_methods` from sentence `i` on; empty sentences are skipped. */
  function ApplyFrom(sents: seq<Sentence>, st: State, finds: seq<Finds>, m: Methods, search: string -> bool, i: nat)
    : (r: State)
    requires |finds| == |sents|
    ensures Grows(st, r)
    decreases |sents| - i
  {
    if i >= |sents| then st
    else if |sents[i].tokens| == 0 then ApplyFrom(sents, st, finds, m, search, i + 1)
    else
      var step := SentenceStep(sents, st, i, finds[i], m, search);
      var r := ApplyFrom(step.0, step.1, finds, m, search, i + 1);
      GrowsTransitive(st, step.1, r);
      r
  }

  /** `apply_methods`: across the whole decision, no entity is deleted or
      moved, the boundary lists only grow, and the only message added is the
      missing-bank-account one. */
  function ApplyMethods(sents: seq<Sentence>, st: State, finds: seq<Finds>, m: Methods, search: string -> bool): (r: State)
    requires |finds| == |sents|
    ensures Grows(st, r)
  {
    ApplyFrom(sents, st, finds, m, search, 0)
  }

  /** With every rule switched off the state is unchanged. */
  lemma {:induction false} ApplyNothing(sents: seq<Sentence>, st: State, finds: seq<Finds>, search: string -> bool, i: nat)
    requires |finds| == |sents|
    ensures ApplyFrom(sents, st, finds, Methods(false, false, false, false, false, false, false, false), search, i) == st
    decreases |sents| - i
  {
    if i < |sents| {
      ApplyNothing(sents, st, finds, search, i + 1);
    }
  }
}
