/** `PostProcessFromEntities`: the rules that correct the entity list by
    looking only at the entities themselves. The tokenizer and the keyword
    matchers are external; they are parameters, with the consistency each
    proof needs stated as a predicate. */
module FromEntities {
  import opened Base
  import opened Types
  import opened Accents
  import opened Guard
  import opened Edits
  import opened Matching

  /** The rule's entities with their state: every rule below keeps the
      boundary lists and, unless it is a check, the checklist. */
  function WithEntities(st: State, es: seq<Entity>): (r: State)
    ensures r.entities == es && r.bounds == st.bounds && r.checklist == st.checklist
  {
    st.(entities := es)
  }

  // ---------------------------------------------------------------------
  // split_entity_multi_toks

  /** The texts of the entities whose category is one of `cats`. */
  function TextsIn(es: seq<Entity>, cats: set<Category>): seq<string> {
    if |es| == 0 then []
    else (if es[0].category in cats then [es[0].text] else []) + TextsIn(es[1..], cats)
  }

  lemma {:induction false} TextsInIff(es: seq<Entity>, cats: set<Category>, t: string)
    ensures t in TextsIn(es, cats) <==> exists i :: 0 <= i < |es| && es[i].category in cats && es[i].text == t
  {
    if |es| > 0 {
      TextsInIff(es[1..], cats, t);
      if exists i :: 0 <= i < |es[1..]| && es[1..][i].category in cats && es[1..][i].text == t {
        var i :| 0 <= i < |es[1..]| && es[1..][i].category in cats && es[1..][i].text == t;
        assert es[i + 1] == es[1..][i];
      }
      if exists i :: 0 <= i < |es| && es[i].category in cats && es[i].text == t {
        var i :| 0 <= i < |es| && es[i].category in cats && es[i].text == t;
        if i > 0 {
          assert es[1..][i - 1] == es[i];
        }
      }
    }
  }

  /** An entity of the categories splits when its text has several tokens,
      each at least three characters long and each itself the text of an
      entity of the categories. */
  predicate SplitFires(e: Entity, texts: seq<string>, cats: set<Category>, toks: seq<Token>) {
    && e.category in cats
    && |toks| > 1
    && forall k :: 0 <= k < |toks| ==> toks[k].text in texts && |toks[k].text| >= 3
  }

  /** The entities an entity splits into: one per token, at the token's
      offset in the document, with the entity's category. */
  function SplitPieces(e: Entity, texts: seq<string>, cats: set<Category>, toks: seq<Token>): (r: seq<Entity>)
    ensures r != [] <==> SplitFires(e, texts, cats, toks)
    ensures r != [] ==> |r| == |toks| && forall k :: 0 <= k < |r| ==>
      r[k].text == toks[k].text && r[k].start == e.start + toks[k].start
      && r[k].category == e.category && r[k].source == PostProcess
  {
    if SplitFires(e, texts, cats, toks) then
      seq(|toks|, k requires 0 <= k < |toks| => Entity(toks[k].text, e.start + toks[k].start, e.category, PostProcess))
    else []
  }

  /** The pieces of every entity, against the texts of `es`. */
  function SplitRule(es: seq<Entity>, cats: set<Category>, tokenize: string -> seq<Token>): Entity -> seq<Entity> {
    (e: Entity) => SplitPieces(e, TextsIn(es, cats), cats, tokenize(e.text))
  }

  /** `split_entity_multi_toks(categories)`. */
  function SplitMultiToks(st: State, cats: set<Category>, tokenize: string -> seq<Token>): (r: State)
    ensures r.bounds == st.bounds && r.checklist == st.checklist
  {
    WithEntities(st, Explode(st.entities, SplitRule(st.entities, cats, tokenize)))
  }

  /** An entity is split away exactly when it is of the categories, has
      several tokens, and every token is a long enough known text; the
      others are kept. */
  lemma SplitMultiToksIff(st: State, cats: set<Category>, tokenize: string -> seq<Token>, e: Entity)
    requires e in st.entities
    ensures e in Replaced(st.entities, SplitRule(st.entities, cats, tokenize))
      <==> && e.category in cats && |tokenize(e.text)| > 1
           && forall k :: 0 <= k < |tokenize(e.text)| ==>
                |tokenize(e.text)[k].text| >= 3
                && exists i :: 0 <= i < |st.entities| && st.entities[i].category in cats
                              && st.entities[i].text == tokenize(e.text)[k].text
  {
    var texts := TextsIn(st.entities, cats);
    var pieces := SplitRule(st.entities, cats, tokenize);
    ReplacedIff(st.entities, pieces, e);
    forall k | 0 <= k < |tokenize(e.text)| {
      TextsInIff(st.entities, cats, tokenize(e.text)[k].text);
    }
  }

  /** A piece lies inside the entity it comes from, so with an honest
      tokenizer every entity read from the document stays so. */
  lemma SplitPiecesInDocument(e: Entity, texts: seq<string>, cats: set<Category>, toks: seq<Token>, doc: string)
    requires InDocument(e, doc) && TokensInText(toks, e.text)
    ensures AllInDocument(SplitPieces(e, texts, cats, toks), doc)
  {
    var r := SplitPieces(e, texts, cats, toks);
    forall k | 0 <= k < |r| ensures InDocument(r[k], doc) {
      var t := toks[k];
      assert e.text[t.start..t.start + |t.text|] == t.text;
      SliceOfSlice(doc, e.start, e.End(), t.start, t.start + |t.text|);
    }
  }

  lemma SplitMultiToksInDocument(st: State, cats: set<Category>, tokenize: string -> seq<Token>, doc: string)
    requires AllInDocument(st.entities, doc)
    requires forall s :: TokensInText(tokenize(s), s)
    ensures AllInDocument(SplitMultiToks(st, cats, tokenize).entities, doc)
  {
    var texts := TextsIn(st.entities, cats);
    var pieces := SplitRule(st.entities, cats, tokenize);
    forall i | 0 <= i < |st.entities| ensures AllInDocument(pieces(st.entities[i]), doc) {
      SplitPiecesInDocument(st.entities[i], texts, cats, tokenize(st.entities[i].text), doc);
    }
    ExplodeInDocument(st.entities, pieces, doc);
  }

  // ---------------------------------------------------------------------
  // match_address_in_moral, match_localite_in_adress

  function AddressRule(streetKeywords: string -> seq<KeywordMatch>): Entity -> bool {
    (e: Entity) => e.category == PersonneMorale && |e.text| > 1 && streetKeywords(e.text) != []
  }

  /** `match_address_in_moral`: a company name in which the street-type
      matcher finds a keyword is an address. */
  function AddressInMoral(st: State, streetKeywords: string -> seq<KeywordMatch>): (r: State)
    ensures r.bounds == st.bounds && r.checklist == st.checklist
    ensures |r.entities| == |st.entities|
    ensures forall i :: 0 <= i < |st.entities| ==>
      var e := st.entities[i];
      if e.category == PersonneMorale && |e.text| > 1 && streetKeywords(e.text) != []
      then r.entities[i] == Relabel(e, Adresse)
      else r.entities[i] == e
  {
    WithEntities(st, RelabelWhere(st.entities, AddressRule(streetKeywords), Adresse))
  }

  /** The rule fires on nothing it produced: applying it twice is applying it once. */
  lemma AddressInMoralIdempotent(st: State, streetKeywords: string -> seq<KeywordMatch>)
    ensures AddressInMoral(AddressInMoral(st, streetKeywords), streetKeywords) == AddressInMoral(st, streetKeywords)
  {
    RelabelWhereIdempotent(st.entities, AddressRule(streetKeywords), Adresse);
  }

  /** `re.match(r"^\d{5}\s", text)`: five digits then a whitespace character. */
  predicate PostcodePrefix(s: string) {
    |s| >= 6 && (forall i :: 0 <= i < 5 ==> IsDecimal(s[i])) && IsSpace(s[5])
  }

  predicate LocaliteFires(e: Entity) {
    e.category == Adresse && |e.text| > 1 && PostcodePrefix(e.text)
  }

  /** `match_localite_in_adress`: an address that starts with a postcode is
      relabelled, whole, as a locality. */
  function LocaliteInAddress(st: State): (r: State)
    ensures r.bounds == st.bounds && r.checklist == st.checklist
    ensures |r.entities| == |st.entities|
  {
    WithEntities(st, RelabelWhere(st.entities, LocaliteFires, Localite))
  }

  /** Exactly the addresses beginning with five digits and a space become
      localities; text and span never change. */
  lemma LocaliteInAddressIff(st: State, i: int)
    requires 0 <= i < |st.entities|
    ensures var e := st.entities[i]; var r := LocaliteInAddress(st).entities[i];
      && r.text == e.text && r.start == e.start
      && (r.category == Localite && r.source == PostProcess <==>
            (e.category == Adresse && PostcodePrefix(e.text)) || (e.category == Localite && e.source == PostProcess))
      && (r.category != e.category <==> e.category == Adresse && PostcodePrefix(e.text))
  {
  }

  lemma LocaliteInAddressIdempotent(st: State)
    ensures LocaliteInAddress(LocaliteInAddress(st)) == LocaliteInAddress(st)
  {
    RelabelWhereIdempotent(st.entities, LocaliteFires, Localite);
  }

  // ---------------------------------------------------------------------
  // match_physicomorale

  /** A company name that contains, ignoring case, the text of a natural
      person (both longer than one character). */
  predicate PhysicoFires(es: seq<Entity>, e: Entity) {
    && e.category == PersonneMorale && |e.text| > 1
    && exists n :: n in es && n.category == PersonnePhysique && |n.text| > 1
                  && IsSubstring(Lower(n.text), Lower(e.text))
  }

  function PhysicoRule(es: seq<Entity>): Entity -> bool {
    (e: Entity) => PhysicoFires(es, e)
  }

  /** `match_physicomorale`: every company entity whose text contains a
      natural person's name becomes a physico-moral person. Every entity with
      that text is relabelled: the rule works on the distinct texts. */
  function PhysicoMorale(st: State): (r: State)
    ensures r.bounds == st.bounds && r.checklist == st.checklist
    ensures |r.entities| == |st.entities|
  {
    WithEntities(st, RelabelWhere(st.entities, PhysicoRule(st.entities), PersonnePhysicoMorale))
  }

  /** Relabelled exactly when a natural person's name occurs in the company
      name; the natural persons, and every other entity, are untouched. */
  lemma PhysicoMoraleIff(st: State, i: int)
    requires 0 <= i < |st.entities|
    ensures var e := st.entities[i]; var r := PhysicoMorale(st).entities[i];
      && r.text == e.text && r.start == e.start
      && (r != e <==> PhysicoFires(st.entities, e))
      && (PhysicoFires(st.entities, e) ==> r.category == PersonnePhysicoMorale)
  {
  }

  /** The natural persons are kept, so a second pass finds nothing left to
      relabel. */
  lemma {:induction false} PhysicoMoraleIdempotent(st: State)
    ensures PhysicoMorale(PhysicoMorale(st)) == PhysicoMorale(st)
  {
    var once := PhysicoMorale(st);
    var twice := PhysicoMorale(once);
    forall i | 0 <= i < |st.entities| ensures twice.entities[i] == once.entities[i] {
      PhysicoMoraleIff(once, i);
      if PhysicoFires(once.entities, once.entities[i]) {
        var n :| n in once.entities && n.category == PersonnePhysique && |n.text| > 1
                 && IsSubstring(Lower(n.text), Lower(once.entities[i].text));
        var j :| 0 <= j < |once.entities| && once.entities[j] == n;
        PhysicoMoraleIff(st, j);
        PhysicoMoraleIff(st, i);
        assert false;
      }
    }
    assert twice.entities == once.entities;
  }

  // ---------------------------------------------------------------------
  // match_natural_persons_in_moral

  /** The natural persons' texts the keyword matcher is loaded with. */
  function NaturalKeywords(es: seq<Entity>): (r: seq<string>)
    ensures forall t :: t in r <==> exists n :: n in es && n.category == PersonnePhysique && |n.text| > 1 && n.text == t
  {
    if |es| == 0 then []
    else
      var rest := NaturalKeywords(es[1..]);
      assert forall n :: n in es[1..] ==> n in es;
      assert forall n :: n in es ==> n == es[0] || n in es[1..];
      if es[0].category == PersonnePhysique && |es[0].text| > 1 then [es[0].text] + rest else rest
  }

  /** The natural persons found in a company name, as entities at their
      offsets in the document. */
  function NaturalPieces(e: Entity, ms: seq<KeywordMatch>): (r: seq<Entity>)
    ensures |r| == (if e.category == PersonneMorale && |e.text| > 1 then |ms| else 0)
  {
    if e.category == PersonneMorale && |e.text| > 1 then
      seq(|ms|, k requires 0 <= k < |ms| => Entity(ms[k].keyword, e.start + ms[k].start, PersonnePhysique, PostProcess))
    else []
  }

  function NaturalRule(es: seq<Entity>, extract: (seq<string>, string) -> seq<KeywordMatch>): Entity -> seq<Entity> {
    (e: Entity) => NaturalPieces(e, extract(NaturalKeywords(es), e.text))
  }

  /** `match_natural_persons_in_moral`: a company name in which the matcher,
      loaded with the natural persons' texts, finds at least one of them is
      replaced by the natural persons found. */
  function NaturalPersonsInMoral(st: State, extract: (seq<string>, string) -> seq<KeywordMatch>): (r: State)
    ensures r.bounds == st.bounds && r.checklist == st.checklist
  {
    WithEntities(st, Explode(st.entities, NaturalRule(st.entities, extract)))
  }

  /** A company entity is deleted exactly when a natural person is found in
      it; no other entity is deleted, and with a matcher that reports real
      occurrences every new entity is read from the document. */
  lemma NaturalPersonsInMoralDeletes(st: State, extract: (seq<string>, string) -> seq<KeywordMatch>, e: Entity)
    requires e in st.entities
    ensures e in Replaced(st.entities, NaturalRule(st.entities, extract)) <==>
        e.category == PersonneMorale && |e.text| > 1 && extract(NaturalKeywords(st.entities), e.text) != []
  {
    ReplacedIff(st.entities, NaturalRule(st.entities, extract), e);
    assert NaturalRule(st.entities, extract)(e) == NaturalPieces(e, extract(NaturalKeywords(st.entities), e.text));
  }

  lemma NaturalPersonsInMoralInDocument(st: State, extract: (seq<string>, string) -> seq<KeywordMatch>, doc: string)
    requires AllInDocument(st.entities, doc)
    requires forall ks, s :: MatchesInText(extract(ks, s), s)
    ensures AllInDocument(NaturalPersonsInMoral(st, extract).entities, doc)
  {
    var keywords := NaturalKeywords(st.entities);
    var pieces := NaturalRule(st.entities, extract);
    forall i | 0 <= i < |st.entities| ensures AllInDocument(pieces(st.entities[i]), doc) {
      var e := st.entities[i];
      var ms := extract(keywords, e.text);
      var r := pieces(e);
      assert InDocument(e, doc) && MatchesInText(ms, e.text);
      forall k | 0 <= k < |r| ensures InDocument(r[k], doc) {
        MatchInEntity(e, doc, ms, k, PersonnePhysique, PostProcess);
      }
    }
    ExplodeInDocument(st.entities, pieces, doc);
  }

  // ---------------------------------------------------------------------
  // change_pro_to_physique

  predicate IsProfessional(c: Category) {
    c == ProfessionnelAvocat || c == ProfessionnelMagistratGreffier
  }

  /** Occurrences of `x` in `xs` (`Counter(xs)[x]`). */
  function Occurrences(xs: seq<string>, x: string): (n: nat)
    ensures n > 0 <==> x in xs
  {
    if |xs| == 0 then 0 else (if xs[0] == x then 1 else 0) + Occurrences(xs[1..], x)
  }

  /** The natural persons' names, lower-cased. */
  function NaturalNames(es: seq<Entity>): seq<string> {
    if |es| == 0 then []
    else (if es[0].category == PersonnePhysique && |es[0].text| > 1 then [Lower(es[0].text)] else [])
         + NaturalNames(es[1..])
  }

  /** The professionals' names, lower-cased and unaccented. */
  function ProNames(es: seq<Entity>): seq<string> {
    if |es| == 0 then []
    else (if IsProfessional(es[0].category) && |es[0].text| > 1 then [Deaccent(Lower(es[0].text))] else [])
         + ProNames(es[1..])
  }

  /** The key a professional entity is compared under. */
  function ProKey(e: Entity): string {
    Deaccent(Lower(e.text))
  }

  /** A professional whose key is the name of a natural person listed more
      than once, while the key occurs for one professional only. */
  predicate ProFires(es: seq<Entity>, e: Entity) {
    && IsProfessional(e.category)
    && ProKey(e) in NaturalNames(es)
    && Occurrences(ProNames(es), ProKey(e)) == 1
    && Occurrences(NaturalNames(es), ProKey(e)) > 1
  }

  function ProRule(es: seq<Entity>): Entity -> bool {
    (e: Entity) => ProFires(es, e)
  }

  /** `change_pro_to_physique` without the metadata branch: such a
      professional is in fact the natural person, and is relabelled so. */
  function ChangeProToPhysique(st: State): (r: State)
    ensures r.bounds == st.bounds && r.checklist == st.checklist
    ensures |r.entities| == |st.entities|
  {
    WithEntities(st, RelabelWhere(st.entities, ProRule(st.entities), PersonnePhysique))
  }

  lemma {:induction false} NaturalNamesIff(es: seq<Entity>, t: string)
    ensures t in NaturalNames(es) <==>
      exists n :: n in es && n.category == PersonnePhysique && |n.text| > 1 && Lower(n.text) == t
  {
    if |es| > 0 {
      NaturalNamesIff(es[1..], t);
      assert forall n :: n in es[1..] ==> n in es;
      assert forall n :: n in es ==> n == es[0] || n in es[1..];
    }
  }

  /** The professional's unaccented key must equal a natural person's
      lower-cased name as written: a relabelled professional always matches
      a natural person whose name has no accent. */
  lemma ChangeProMatchesUnaccentedName(st: State, i: int)
    requires 0 <= i < |st.entities|
    requires ChangeProToPhysique(st).entities[i] != st.entities[i]
    ensures ChangeProToPhysique(st).entities[i].category == PersonnePhysique
    ensures exists n :: (n in st.entities && n.category == PersonnePhysique && |n.text| > 1 &&
                         Lower(n.text) == ProKey(st.entities[i]) && NoAccent(Lower(n.text)))
  {
    var e := st.entities[i];
    assert ProFires(st.entities, e);
    NaturalNamesIff(st.entities, ProKey(e));
    DeaccentIdempotent(Lower(e.text));
    FixedHasNoAccent(ProKey(e));
  }

  /** No character `deaccent` would replace. */
  predicate NoAccent(s: string) {
    forall k :: 0 <= k < |s| ==> !IsAccented(s[k])
  }

  /** The texts `deaccent` leaves unchanged are exactly those with no accent. */
  lemma FixedHasNoAccent(s: string)
    ensures Deaccent(s) == s <==> NoAccent(s)
  {
    TableIsWellFormed();
    if Deaccent(s) == s {
      forall k | 0 <= k < |s| ensures !IsAccented(s[k]) {
        if IsAccented(s[k]) {
          AccentedBecomesBaseLetter(s[k]);
          assert DeaccentChar(s[k]) == s[k];
          AsciiUnmapped(Table, s[k]);
        }
      }
    }
    if NoAccent(s) {
      forall k | 0 <= k < |s| ensures DeaccentChar(s[k]) == s[k] {
        UnmappedUnchanged(s[k]);
      }
    }
  }

  // ---------------------------------------------------------------------
  // manage_year_in_date

  predicate IsDate(c: Category) {
    c == DateNaissance || c == DateDeces || c == DateMariage
  }

  /** `re.match(r"\d{4}", w)`: the word begins with four digits. */
  predicate YearPrefix(w: string) {
    |w| >= 4 && forall i :: 0 <= i < 4 ==> IsDecimal(w[i])
  }

  /** A date of three words whose third begins with a year. */
  predicate YearTrimFires(e: Entity) {
    IsDate(e.category) && |Words(e.text)| == 3 && YearPrefix(Words(e.text)[2])
  }

  /** Otherwise, a date that is only a four-digit year. */
  predicate YearDeleteFires(e: Entity) {
    !YearTrimFires(e) && IsDate(e.category) && IsDigits(e.text) && |e.text| == 4
  }

  /** The text loses its last five characters; the start is kept. */
  function TrimYear(e: Entity): (r: Entity)
    ensures r.start == e.start && r.category == e.category && r.source == e.source
  {
    e.(text := PySlice(e.text, 0, -5))
  }

  /** `manage_year_in_date`: the year is cut from full dates and year-only
      dates are deleted. The order of the remaining entities is kept. */
  function ManageYearInDate(es: seq<Entity>): (r: seq<Entity>)
    ensures |r| <= |es|
  {
    if |es| == 0 then [] else YearPiece(es[0]) + ManageYearInDate(es[1..])
  }

  /** What becomes of one entity: nothing, its trimmed form, or itself. */
  function YearPiece(e: Entity): seq<Entity> {
    if YearDeleteFires(e) then [] else if YearTrimFires(e) then [TrimYear(e)] else [e]
  }

  /** A three-word text whose last word starts with four digits has at least
      eight characters, so the cut end is the old end minus five: the
      `end -= 5` of the source agrees with the derived end. */
  lemma TrimYearEnd(e: Entity)
    requires YearTrimFires(e)
    ensures |e.text| >= 8
    ensures TrimYear(e).End() == e.End() - 5
    ensures TrimYear(e).text == e.text[..|e.text| - 5]
  {
    ThreeWordsLength(e.text);
  }

  /** Three words need two separators. */
  lemma ThreeWordsLength(s: string)
    requires |Words(s)| == 3
    ensures |s| >= |Words(s)[0]| + |Words(s)[1]| + |Words(s)[2]| + 2
  {
    var ws := Words(s);
    var t1 := WordsStep(s);
    var w1 := Words(t1);
    assert |w1| == 2 && w1[0] == ws[1] && w1[1] == ws[2] by {
      assert ws == [ws[0]] + w1;
    }
    var t2 := WordsStep(t1);
    var w2 := Words(t2);
    assert |w2| == 1 && w2[0] == ws[2] by {
      assert w1 == [w1[0]] + w2;
    }
    var t3 := WordsStep(t2);
    assert |s| >= |ws[0]| + |t1|;
    assert |t1| >= 1 + |ws[1]| + |t2| by {
      assert |t1| > 0 by {
        assert Words(t1) != [];
      }
    }
    assert |t2| >= 1 + |ws[2]| + |t3| by {
      assert |t2| > 0 by {
        assert Words(t2) != [];
      }
    }
  }

  /** The first word of a text, and what follows it: the rest of the words
      are the words of the remainder, which starts with a separator. */
  lemma WordsStep(s: string) returns (t: string)
    requires Words(s) != []
    ensures Words(s) == [Words(s)[0]] + Words(t)
    ensures |s| >= LeadingSpaces(s) + |Words(s)[0]| + |t|
    ensures |t| > 0 ==> IsSpace(t[0]) && LeadingSpaces(t) >= 1
  {
    var lead := LeadingSpaces(s);
    var rest := s[lead..];
    var w := WordLength(rest);
    t := rest[w..];
  }

  /** A trimmed date is still read from the document. */
  lemma TrimYearInDocument(e: Entity, doc: string)
    requires YearTrimFires(e) && InDocument(e, doc)
    ensures InDocument(TrimYear(e), doc)
  {
    TrimYearEnd(e);
    assert doc[e.start..e.End() - 5] == doc[e.start..e.End()][..|e.text| - 5];
  }

  lemma {:induction false} ManageYearInDocument(es: seq<Entity>, doc: string)
    requires AllInDocument(es, doc)
    ensures AllInDocument(ManageYearInDate(es), doc)
  {
    if |es| > 0 {
      assert AllInDocument(es[1..], doc) by {
        forall k | 0 <= k < |es[1..]| ensures InDocument(es[1..][k], doc) {
          assert es[1..][k] == es[k + 1];
        }
      }
      ManageYearInDocument(es[1..], doc);
      assert InDocument(es[0], doc);
      var head := YearPiece(es[0]);
      if YearTrimFires(es[0]) {
        TrimYearInDocument(es[0], doc);
      }
      assert AllInDocument(head, doc);
      AllInDocumentConcat(head, ManageYearInDate(es[1..]), doc);
    }
  }

  /** What the rule does to one entity it keeps: a full date loses its year,
      anything else is unchanged. */
  function YearStep(e: Entity): Entity {
    if YearTrimFires(e) then TrimYear(e) else e
  }

  function YearSteps(es: seq<Entity>): (r: seq<Entity>)
    ensures |r| == |es| && forall k :: 0 <= k < |es| ==> r[k] == YearStep(es[k])
  {
    seq(|es|, k requires 0 <= k < |es| => YearStep(es[k]))
  }

  predicate YearKept(e: Entity) {
    !YearDeleteFires(e)
  }

  predicate NotDate(e: Entity) {
    !IsDate(e.category)
  }

  /** The rule is a filter followed by a map: the year-only dates are
      deleted, every other entity keeps its place in the order, and each
      full date among them appears as `TrimYear` of itself. */
  lemma {:induction false} ManageYearIsFilterThenMap(es: seq<Entity>)
    ensures ManageYearInDate(es) == YearSteps(Filter(es, YearKept))
  {
    if |es| > 0 {
      var e := es[0];
      var tail := Filter(es[1..], YearKept);
      ManageYearIsFilterThenMap(es[1..]);
      YearPieceIsStep(e);
      if YearKept(e) {
        assert Filter(es, YearKept) == [e] + tail;
        YearStepsCons(e, tail);
      } else {
        assert Filter(es, YearKept) == tail;
      }
    }
  }

  lemma YearPieceIsStep(e: Entity)
    ensures YearPiece(e) == if YearKept(e) then [YearStep(e)] else []
  {
  }

  lemma YearStepsCons(e: Entity, es: seq<Entity>)
    ensures YearSteps([e] + es) == [YearStep(e)] + YearSteps(es)
  {
  }

  /** The entities that are not dates come out exactly as they went in, in
      the same order. */
  lemma {:induction false} ManageYearKeepsNonDates(es: seq<Entity>)
    ensures Filter(ManageYearInDate(es), NotDate) == Filter(es, NotDate)
  {
    if |es| > 0 {
      var e := es[0];
      var head := YearPiece(e);
      FilterConcat(head, ManageYearInDate(es[1..]), NotDate);
      ManageYearKeepsNonDates(es[1..]);
      if |head| == 1 {
        assert head[1..] == [];
      }
    }
  }

  /** The rule deletes exactly the year-only dates, and a list without dates
      is returned unchanged. */
  lemma {:induction false} ManageYearKeeps(es: seq<Entity>)
    ensures |ManageYearInDate(es)| == |es| - CountIf(es, YearDeleteFires)
    ensures (forall k :: 0 <= k < |es| ==> !IsDate(es[k].category)) ==> ManageYearInDate(es) == es
  {
    if |es| > 0 {
      ManageYearKeeps(es[1..]);
      if forall k :: 0 <= k < |es| ==> !IsDate(es[k].category) {
        assert forall k :: 0 <= k < |es[1..]| ==> !IsDate(es[1..][k].category) by {
          forall k | 0 <= k < |es[1..]| ensures !IsDate(es[1..][k].category) {
            assert es[1..][k] == es[k + 1];
          }
        }
        assert !IsDate(es[0].category);
        assert es == [es[0]] + es[1..];
      }
    }
  }

  function ManageYear(st: State): (r: State)
    ensures r.bounds == st.bounds && r.checklist == st.checklist
  {
    WithEntities(st, ManageYearInDate(st.entities))
  }

  // ---------------------------------------------------------------------
  // check_entities, check_len_entities

  /** `entity.label.lower() == category`. */
  predicate LabelIs(e: Entity, name: string) {
    Lower(CategoryValue(e.category)) == name
  }

  /** Entities of another category than `name` that take part in the
      comparison: a physico-moral person is not compared with natural persons. */
  predicate Other(e: Entity, name: string) {
    && !LabelIs(e, name) && |e.text| > 1
    && !(IsSubstring("personnephysique", Lower(name)) && Lower(CategoryValue(e.category)) == "personnephysicomorale")
  }

  /** The texts of the checked category, each once, in order of first occurrence. */
  function CheckedTexts(es: seq<Entity>, name: string): seq<string> {
    Distinct(TextsWhere(es, (e: Entity) => LabelIs(e, name) && |e.text| > 1))
  }

  function TextsWhere(es: seq<Entity>, p: Entity -> bool): (r: seq<string>)
    ensures forall t :: t in r <==> exists e :: e in es && p(e) && e.text == t
  {
    if |es| == 0 then []
    else
      assert forall n :: n in es[1..] ==> n in es;
      assert forall n :: n in es ==> n == es[0] || n in es[1..];
      (if p(es[0]) then [es[0].text] else []) + TextsWhere(es[1..], p)
  }

  /** The first other category found with the text `t`. */
  function FirstOtherLabel(es: seq<Entity>, name: string, t: string): string {
    if |es| == 0 then ""
    else if Other(es[0], name) && es[0].text == t then CategoryValue(es[0].category)
    else FirstOtherLabel(es[1..], name, t)
  }

  /** The texts found both in the checked category and in another one. */
  function MultiClassTexts(es: seq<Entity>, name: string): seq<string> {
    var others := TextsWhere(es, (e: Entity) => Other(e, name));
    Filter(CheckedTexts(es, name), (t: string) => t in others)
  }

  function MultiClassMessage(t: string, name: string, other: string): string {
    MultiClassOpen + t + MultiClassIs + name + MultiClassElsewhere + other + MultiClassClose
  }

  const MultiClassOpen := "L'annotation '"
  const MultiClassIs := "' est de catégorie '"
  const MultiClassElsewhere := "' mais on retrouve la même annotation dans une autre catégorie '"
  const MultiClassClose := "'. Les annotations sont-elles réellement de catégories différentes ?"

  /** `check_entities(category)`: one message per text annotated both in the
      category and in another one. The entities are not changed. */
  function CheckEntities(st: State, name: string): (r: State)
    ensures r.entities == st.entities && r.bounds == st.bounds
    ensures |r.checklist| == |st.checklist| + |MultiClassTexts(st.entities, name)|
    ensures r.checklist[..|st.checklist|] == st.checklist
    ensures var ts := MultiClassTexts(st.entities, name);
      forall k :: 0 <= k < |ts| ==>
        r.checklist[|st.checklist| + k] == MultiClassMessage(ts[k], name, FirstOtherLabel(st.entities, name, ts[k]))
  {
    var msgs := MultiClassMessages(st.entities, name);
    var r := st.(checklist := st.checklist + msgs);
    assert forall k :: 0 <= k < |msgs| ==> r.checklist[|st.checklist| + k] == msgs[k];
    r
  }

  /** The messages of `check_entities`, one per reported text, in order. */
  function MultiClassMessages(es: seq<Entity>, name: string): (r: seq<string>)
    ensures var ts := MultiClassTexts(es, name);
      |r| == |ts| && forall k :: 0 <= k < |ts| ==> r[k] == MultiClassMessage(ts[k], name, FirstOtherLabel(es, name, ts[k]))
  {
    MessagesFor(es, name, MultiClassTexts(es, name))
  }

  function MessagesFor(es: seq<Entity>, name: string, ts: seq<string>): (r: seq<string>)
    ensures |r| == |ts| && forall k :: 0 <= k < |ts| ==> r[k] == MultiClassMessage(ts[k], name, FirstOtherLabel(es, name, ts[k]))
  {
    if |ts| == 0 then [] else [MultiClassMessage(ts[0], name, FirstOtherLabel(es, name, ts[0]))] + MessagesFor(es, name, ts[1..])
  }

  /** A text is reported exactly when an entity of the category and an
      entity of another (compared) category both carry it. */
  lemma MultiClassTextsIff(es: seq<Entity>, name: string, t: string)
    ensures t in MultiClassTexts(es, name) <==>
      (exists e :: e in es && LabelIs(e, name) && |e.text| > 1 && e.text == t)
      && (exists e :: e in es && Other(e, name) && e.text == t)
  {
  }

  /** The label a message names is a label another entity with that text
      really has. */
  lemma {:induction false} FirstOtherLabelFound(es: seq<Entity>, name: string, t: string)
    requires exists e :: e in es && Other(e, name) && e.text == t
    ensures exists e :: e in es && Other(e, name) && e.text == t && CategoryValue(e.category) == FirstOtherLabel(es, name, t)
  {
    if !(Other(es[0], name) && es[0].text == t) {
      var e :| e in es && Other(e, name) && e.text == t;
      assert e in es[1..];
      FirstOtherLabelFound(es[1..], name, t);
      var f :| f in es[1..] && Other(f, name) && f.text == t && CategoryValue(f.category) == FirstOtherLabel(es[1..], name, t);
      assert f in es;
    }
  }

  /** `check_len_entities(category, length)`: the lower-cased texts of the
      category shorter than `length`, in order. */
  function ShortTexts(es: seq<Entity>, name: string, length: int): (r: seq<string>)
    ensures |r| <= |es|
    ensures forall k :: 0 <= k < |r| ==> |r[k]| < length
  {
    if |es| == 0 then []
    else (if IsShort(es[0], name, length) then [Lower(es[0].text)] else []) + ShortTexts(es[1..], name, length)
  }

  /** `entity.label.lower() == category and len(entity.text.lower()) < length`. */
  predicate IsShort(e: Entity, name: string, length: int) {
    LabelIs(e, name) && |Lower(e.text)| < length
  }

  /** The message names the text and, whatever `length` is, says "2". */
  function ShortMessage(t: string): string {
    t + " : cette annotation fait moins de 2 caractères. Est-ce normal ?"
  }

  function CheckLenEntities(st: State, name: string, length: int): (r: State)
    ensures r.entities == st.entities && r.bounds == st.bounds
    ensures |r.checklist| == |st.checklist| + |ShortTexts(st.entities, name, length)|
    ensures r.checklist[..|st.checklist|] == st.checklist
    ensures var ts := ShortTexts(st.entities, name, length);
      forall k :: 0 <= k < |ts| ==> r.checklist[|st.checklist| + k] == ShortMessage(ts[k])
  {
    var ts := ShortTexts(st.entities, name, length);
    st.(checklist := st.checklist + seq(|ts|, k requires 0 <= k < |ts| => ShortMessage(ts[k])))
  }

  /** The lower-cased texts of the entities, one for one. */
  function LowerTexts(es: seq<Entity>): (r: seq<string>)
    ensures |r| == |es| && forall k :: 0 <= k < |es| ==> r[k] == Lower(es[k].text)
  {
    if |es| == 0 then [] else [Lower(es[0].text)] + LowerTexts(es[1..])
  }

  /** The short texts are the lower-cased texts of the short entities of the
      category, in the order of those entities. */
  lemma ShortTextsInOrder(es: seq<Entity>, name: string, length: int)
    ensures var ix := PassIndices(es, (e: Entity) => IsShort(e, name, length));
      |ShortTexts(es, name, length)| == |ix|
      && forall k :: 0 <= k < |ix| ==> ShortTexts(es, name, length)[k] == Lower(es[ix[k]].text)
  {
    var p := (e: Entity) => IsShort(e, name, length);
    ShortTextsFilter(es, name, length);
    FilterAtPassIndices(es, p);
  }

  lemma {:induction false} ShortTextsFilter(es: seq<Entity>, name: string, length: int)
    ensures ShortTexts(es, name, length) == LowerTexts(Filter(es, (e: Entity) => IsShort(e, name, length)))
  {
    if |es| > 0 {
      var p := (e: Entity) => IsShort(e, name, length);
      ShortTextsFilter(es[1..], name, length);
      var tail := Filter(es[1..], p);
      if p(es[0]) {
        assert Filter(es, p) == [es[0]] + tail;
        assert ([es[0]] + tail)[1..] == tail;
      } else {
        assert Filter(es, p) == tail;
      }
    }
  }

  /** One message for each entity of the category that is too short, and
      none for any other entity. */
  lemma {:induction false} ShortTextsCount(es: seq<Entity>, name: string, length: int)
    ensures |ShortTexts(es, name, length)| == CountIf(es, (e: Entity) => LabelIs(e, name) && |e.text| < length)
  {
    if |es| > 0 {
      ShortTextsCount(es[1..], name, length);
    }
  }
}
