/** `PostProcessFromText`: the rules that correct the entity list by looking
    at the raw text of the decision. The keyword gazetteer and the regular
    expressions are external: their matches are parameters. */
module FromText {
  import opened Base
  import opened Types
  import opened Accents
  import opened Guard
  import opened Edits
  import opened Matching
  import opened FromEntities

  // ---------------------------------------------------------------------
  // match_from_category

  /** A gazetteer match whose payload is a category. */
  datatype LabelMatch = LabelMatch(category: Category, start: int, end: int)

  /** `entity.label.lower() in category_list`. */
  predicate Listed(e: Entity, names: seq<string>) {
    Lower(CategoryValue(e.category)) in names
  }

  /** The keywords and their categories: the texts longer than one character
      of the listed categories' entities, and, when `uppercase` is set, their
      upper-case forms when those differ. */
  function CategoryKeywords(es: seq<Entity>, names: seq<string>, uppercase: bool): seq<(string, Category)> {
    if |es| == 0 then [] else OwnKeywords(es[0], names, uppercase) + CategoryKeywords(es[1..], names, uppercase)
  }

  /** The keywords one entity contributes. */
  function OwnKeywords(e: Entity, names: seq<string>, uppercase: bool): (r: seq<(string, Category)>)
    ensures forall t, c :: (t, c) in r <==> Yields(e, names, uppercase, t, c)
  {
    if Listed(e, names) && |e.text| > 1 then
      [(e.text, e.category)] + (if uppercase && e.text != Upper(e.text) then [(Upper(e.text), e.category)] else [])
    else []
  }

  /** The entity is listed, longer than one character, of category `c`, and
      `t` is its text or, when asked for, its distinct upper-case form. */
  predicate Yields(e: Entity, names: seq<string>, uppercase: bool, t: string, c: Category) {
    Listed(e, names) && |e.text| > 1 && e.category == c &&
    (t == e.text || (uppercase && e.text != Upper(e.text) && t == Upper(e.text)))
  }

  /** A keyword is an entity's text or its upper-case form, with the
      entity's category, and only for listed entities longer than one character. */
  lemma {:induction false} CategoryKeywordsIff(es: seq<Entity>, names: seq<string>, uppercase: bool, t: string, c: Category)
    ensures (t, c) in CategoryKeywords(es, names, uppercase) <==>
      exists e :: e in es && Yields(e, names, uppercase, t, c)
  {
    if |es| > 0 {
      var tail := es[1..];
      var own, rest := OwnKeywords(es[0], names, uppercase), CategoryKeywords(tail, names, uppercase);
      CategoryKeywordsIff(tail, names, uppercase, t, c);
      assert CategoryKeywords(es, names, uppercase) == own + rest;
      assert (t, c) in own + rest <==> (t, c) in own || (t, c) in rest;
      assert (exists e :: e in es && Yields(e, names, uppercase, t, c)) <==>
        Yields(es[0], names, uppercase, t, c) || exists e :: e in tail && Yields(e, names, uppercase, t, c)
      by {
        if e :| e in es && Yields(e, names, uppercase, t, c) {
          if e != es[0] {
            assert e in tail;
          }
        }
        if e :| e in tail && Yields(e, names, uppercase, t, c) {
          assert e in es;
        }
      }
    }
  }

  function LabelCandidates(doc: string, ms: seq<LabelMatch>): (r: seq<Candidate>)
    ensures |r| == |ms|
    ensures forall k :: 0 <= k < |ms| ==> r[k] == SliceCandidate(doc, ms[k].start, ms[k].end, ms[k].category)
  {
    seq(|ms|, k requires 0 <= k < |ms| => SliceCandidate(doc, ms[k].start, ms[k].end, ms[k].category))
  }

  /** `match_from_category(category_list, uppercase)`: every match of the
      entities' own texts elsewhere in the decision is inserted with the
      category of its keyword, when the overlap guard accepts it. */
  function MatchFromCategory(st: State, doc: string, names: seq<string>, uppercase: bool,
                             extract: (seq<(string, Category)>, string) -> seq<LabelMatch>): (r: State)
    ensures Extends(st, r)
  {
    var ms := extract(CategoryKeywords(st.entities, names, uppercase), doc);
    var cs := LabelCandidates(doc, ms);
    AddAllExtends(st, cs);
    AddAll(st, cs)
  }

  /** What `match_from_category` adds: the matches the guard accepts, in
      order, each as the document's text at the match with the match's
      category and source postprocess. */
  lemma MatchFromCategoryAdds(st: State, doc: string, names: seq<string>, uppercase: bool,
                              extract: (seq<(string, Category)>, string) -> seq<LabelMatch>, k: int)
    requires |st.entities| <= k < |MatchFromCategory(st, doc, names, uppercase, extract).entities|
    ensures var e := MatchFromCategory(st, doc, names, uppercase, extract).entities[k];
      exists m :: m in extract(CategoryKeywords(st.entities, names, uppercase), doc) &&
        e == Entity(PySlice(doc, m.start, m.end), m.start, m.category, PostProcess)
  {
    var ms := extract(CategoryKeywords(st.entities, names, uppercase), doc);
    var cs := LabelCandidates(doc, ms);
    var acc := Accepted(st.bounds, cs);
    var r := MatchFromCategory(st, doc, names, uppercase, extract);
    assert |st.entities| + |acc| == |r.entities| && r.entities[k] == ToEntity(acc[k - |st.entities|]) by {
      AddAllAppendsAccepted(st, cs);
    }
    var c := acc[k - |st.entities|];
    assert c in cs;
    var j :| 0 <= j < |cs| && cs[j] == c;
    assert ms[j] in ms;
  }

  // ---------------------------------------------------------------------
  // match_regex

  /** The alternatives of the combined regular expression. */
  datatype Group = EmailGroup | InseeGroup | LicensePlateGroup | IbanGroup | CreditCardGroup

  /** A match of the combined expression, with the alternative that matched. */
  datatype RegexMatch = RegexMatch(group: Group, text: string, start: int, end: int)

  /** `category_dict` as written. */
  function LabelNameAsWritten(g: Group): string {
    match g
    case EmailGroup => "email"
    case InseeGroup => "noInsee"
    case LicensePlateGroup => "plaqueImmatriculation"
    case IbanGroup => "compteBancaire"
    case CreditCardGroup => "compteBancaire"
  }

  /** The category each alternative evidently stands for. */
  function GroupCategory(g: Group): Category {
    match g
    case EmailGroup => Email
    case InseeGroup => NumeroIdentifiant
    case LicensePlateGroup => PlaqueImmatriculation
    case IbanGroup => CompteBancaire
    case CreditCardGroup => CompteBancaire
  }

  function DigitValue(c: char): int {
    c as int - '0' as int
  }

  /** The digit sum of a doubled digit: `sum(divmod(2 * d, 10))`. */
  function DoubledDigit(d: int): int {
    2 * d / 10 + 2 * d % 10
  }

  /** The Luhn sum (ISO/IEC 7812-1, Annex B) of a digit string read from its
      last digit: the last digit counts once, the one before it doubled with
      the digits of the product summed, and so on alternately. */
  function LuhnFrom(ds: string, doubled: bool): int
    decreases |ds|
  {
    if |ds| == 0 then 0
    else
      var d := DigitValue(ds[|ds| - 1]);
      (if doubled then DoubledDigit(d) else d) + LuhnFrom(ds[..|ds| - 1], !doubled)
  }

  /** `luhn.verify`: the Luhn sum is a multiple of ten. */
  predicate LuhnValid(ds: string) {
    LuhnFrom(ds, false) % 10 == 0
  }

  /** `luhn.checksum`, computed as the library does: the digits at odd
      positions from the end summed, plus the doubled-digit sums of the
      others, modulo ten. */
  method LuhnChecksum(ds: string) returns (r: int)
    ensures r == LuhnFrom(ds, false) % 10
    ensures r == 0 <==> LuhnValid(ds)
  {
    var odd := 0;
    var even := 0;
    var k := 0;
    assert ds[..|ds|] == ds;
    while k < |ds|
      invariant 0 <= k <= |ds|
      invariant odd + even + LuhnFrom(ds[..|ds| - k], k % 2 == 1) == LuhnFrom(ds, false)
      decreases |ds| - k
    {
      var d := DigitValue(ds[|ds| - 1 - k]);
      if k % 2 == 0 {
        odd := odd + d;
      } else {
        even := even + DoubledDigit(d);
      }
      assert ds[..|ds| - k][..|ds| - k - 1] == ds[..|ds| - (k + 1)];
      k := k + 1;
    }
    r := (odd + even) % 10;
  }

  /** The check digit is unique: two card numbers that differ only in their
      last digit are not both valid, so a mistyped last digit is caught. */
  lemma CheckDigitUnique(body: string, c: char, c': char)
    requires IsDecimal(c) && IsDecimal(c')
    requires LuhnValid(body + [c]) && LuhnValid(body + [c'])
    ensures c == c'
  {
    assert (body + [c])[..|body|] == body;
    assert (body + [c'])[..|body|] == body;
    var rest := LuhnFrom(body, true);
    assert (DigitValue(c) + rest) % 10 == 0;
    assert (DigitValue(c') + rest) % 10 == 0;
  }

  /** Whether a match survives the checksum filter: an IBAN must validate,
      a card number must pass the Luhn check, the rest always survive. */
  predicate Kept(m: RegexMatch, ibanValid: string -> bool) {
    match m.group
    case IbanGroup => ibanValid(m.text)
    case CreditCardGroup => LuhnValid(Filter(m.text, IsDecimal))
    case _ => true
  }

  function RegexCandidates(ms: seq<RegexMatch>): (r: seq<Candidate>)
    ensures |r| == |ms|
    ensures forall k :: 0 <= k < |ms| ==> r[k] == Candidate(ms[k].text, ms[k].start, ms[k].end, GroupCategory(ms[k].group))
  {
    seq(|ms|, k requires 0 <= k < |ms| => Candidate(ms[k].text, ms[k].start, ms[k].end, GroupCategory(ms[k].group)))
  }

  /** `match_regex` with the labels and source it evidently intends: the
      matches surviving the checksum filter are offered to the overlap guard
      in order. */
  function MatchRegex(st: State, ms: seq<RegexMatch>, ibanValid: string -> bool): (r: State)
    ensures Extends(st, r)
  {
    var cs := RegexCandidates(Filter(ms, (m: RegexMatch) => Kept(m, ibanValid)));
    AddAllExtends(st, cs);
    AddAll(st, cs)
  }

  /** No match failing its checksum becomes an entity: every added entity is
      a surviving match. */
  lemma MatchRegexChecksums(st: State, ms: seq<RegexMatch>, ibanValid: string -> bool, k: int)
    requires |st.entities| <= k < |MatchRegex(st, ms, ibanValid).entities|
    ensures var e := MatchRegex(st, ms, ibanValid).entities[k];
      exists m :: m in ms && Kept(m, ibanValid) && e == Entity(m.text, m.start, GroupCategory(m.group), PostProcess)
  {
    var kept := Filter(ms, (m: RegexMatch) => Kept(m, ibanValid));
    var cs := RegexCandidates(kept);
    var acc := Accepted(st.bounds, cs);
    var r := MatchRegex(st, ms, ibanValid);
    assert |st.entities| + |acc| == |r.entities| && r.entities[k] == ToEntity(acc[k - |st.entities|]) by {
      AddAllAppendsAccepted(st, cs);
    }
    var c := acc[k - |st.entities|];
    assert c in cs;
    var j :| 0 <= j < |cs| && cs[j] == c;
    var m := kept[j];
    assert m in ms && Kept(m, ibanValid) by {
      assert m in kept;
    }
    assert r.entities[k] == Entity(m.text, m.start, GroupCategory(m.group), PostProcess);
  }

  /** `match_regex` as written: the overlap guard records the span, then
      building the entity with label "noInsee" or source "regex" fails,
      since neither is a value of its enumeration. */
  function MatchRegexAsWritten(st: State, ms: seq<RegexMatch>, ibanValid: string -> bool): (r: Result<State, EntityError>)
    decreases |ms|
  {
    if |ms| == 0 then Ok(st)
    else
      var m := ms[0];
      if Kept(m, ibanValid) && CheckOverlap(st.bounds, m.start, m.end).0 then
        match MakeEntity(m.text, m.start, LabelNameAsWritten(m.group), "regex")
        case Err(err) => Err(err)
        case Ok(e) => MatchRegexAsWritten(State(st.entities + [e], CheckOverlap(st.bounds, m.start, m.end).1, st.checklist), ms[1..], ibanValid)
      else MatchRegexAsWritten(st, ms[1..], ibanValid)
  }

  /** As written the rule never adds an entity: it either changes nothing
      or fails at the first surviving match the guard accepts. */
  lemma {:induction false} MatchRegexAsWrittenAddsNothing(st: State, ms: seq<RegexMatch>, ibanValid: string -> bool)
    ensures MatchRegexAsWritten(st, ms, ibanValid).Ok? ==> MatchRegexAsWritten(st, ms, ibanValid).value == st
    ensures (forall k :: 0 <= k < |ms| ==> !Kept(ms[k], ibanValid)) ==> MatchRegexAsWritten(st, ms, ibanValid) == Ok(st)
    decreases |ms|
  {
    if |ms| > 0 {
      var m := ms[0];
      if Kept(m, ibanValid) && CheckOverlap(st.bounds, m.start, m.end).0 {
        RegexLabelsRejected(m.text, m.start, m.group);
      } else {
        MatchRegexAsWrittenAddsNothing(st, ms[1..], ibanValid);
        if forall k :: 0 <= k < |ms| ==> !Kept(ms[k], ibanValid) {
          assert forall k :: 0 <= k < |ms[1..]| ==> !Kept(ms[1..][k], ibanValid) by {
            forall k | 0 <= k < |ms[1..]| ensures !Kept(ms[1..][k], ibanValid) {
              assert ms[1..][k] == ms[k + 1];
            }
          }
        }
      }
    }
  }

  /** A single accepted surviving match is enough to make the rule fail:
      on an empty entity list, a valid e-mail match raises. */
  lemma MatchRegexAsWrittenFails(st: State, m: RegexMatch, ibanValid: string -> bool)
    requires st.bounds == [] && m.group == EmailGroup && m.text != ""
    ensures MatchRegexAsWritten(st, [m], ibanValid) == Err(UnknownSource("regex"))
  {
    assert Kept(m, ibanValid);
    assert CheckOverlap(st.bounds, m.start, m.end).0;
    assert MakeEntity(m.text, m.start, LabelNameAsWritten(m.group), "regex") == Err(UnknownSource("regex")) by {
      RegexLabelsRejected(m.text, m.start, m.group);
    }
  }

  /** Building any regex entity as written fails: "regex" is not a source,
      and "noInsee" not a category. */
  lemma RegexLabelsRejected(text: string, start: int, g: Group)
    ensures MakeEntity(text, start, LabelNameAsWritten(g), "regex").Err?
    ensures text != "" && g != InseeGroup ==> MakeEntity(text, start, LabelNameAsWritten(g), "regex") == Err(UnknownSource("regex"))
  {
    assert ParseSource("regex").None?;
    if text != "" && g != InseeGroup {
      RegexLabelIsValue(g);
      ParseCategoryValue(GroupCategory(g));
    }
  }

  lemma RegexLabelIsValue(g: Group)
    requires g != InseeGroup
    ensures LabelNameAsWritten(g) == CategoryValue(GroupCategory(g))
  {
  }

  /** The insee alternative's label is not a category either. */
  lemma InseeLabelUnknown()
    ensures ParseCategory(LabelNameAsWritten(InseeGroup)) == None
  {
    var name := LabelNameAsWritten(InseeGroup);
    assert Code(name) == (7, 'o');
    ParseCategoryCode(name);
  }

  // ---------------------------------------------------------------------
  // check_cadastre, check_compte_bancaire

  /** The rule's own wording, which differs from the checklist message of
      the same check type. */
  const BankAccountMessage := "Il semblerait qu'un ou plusieurs numéros de comptes bancaires n'aient pas été repérées"

  function CountCategory(es: seq<Entity>, c: Category): (n: nat)
    ensures n <= |es|
  {
    if |es| == 0 then 0 else (if es[0].category == c then 1 else 0) + CountCategory(es[1..], c)
  }

  /** Appends `msg` when `fires`; the entities and boundary lists are never changed. */
  function Report(st: State, fires: bool, msg: string): (r: State)
    ensures r.entities == st.entities && r.bounds == st.bounds
    ensures r.checklist == st.checklist + (if fires then [msg] else [])
  {
    if fires then st.(checklist := st.checklist + [msg]) else st
  }

  /** `check_cadastre`, given the number of cue words ("cadastré" and its
      inflections) the gazetteer found: the warning is raised when there is
      at least one cue and no fewer cues than cadastre entities. */
  function CheckCadastre(st: State, cues: nat): (r: State)
    ensures r.entities == st.entities && r.bounds == st.bounds
  {
    Report(st, cues != 0 && cues >= CountCategory(st.entities, Cadastre), MissingCadastreMessage)
  }

  /** `check_compte_bancaire`, given the number of "compte bancaire"
      mentions: the warning is raised when there are more mentions than bank
      account entities. */
  function CheckCompteBancaire(st: State, mentions: nat): (r: State)
    ensures r.entities == st.entities && r.bounds == st.bounds
  {
    Report(st, mentions > CountCategory(st.entities, CompteBancaire), BankAccountMessage)
  }

  lemma {:induction false} CountCategoryConcat(a: seq<Entity>, b: seq<Entity>, c: Category)
    ensures CountCategory(a + b, c) == CountCategory(a, c) + CountCategory(b, c)
  {
    if |a| == 0 {
      assert a + b == b;
    } else {
      assert (a + b)[0] == a[0];
      assert (a + b)[1..] == a[1..] + b;
      CountCategoryConcat(a[1..], b, c);
    }
  }

  /** Exactly one message when the check fires and none otherwise; one more
      detected entity of the category can only silence a check, never raise it. */
  lemma ChecksMonotone(st: State, cues: nat, e: Entity)
    ensures |CheckCadastre(st, cues).checklist| == |st.checklist| + (if cues != 0 && cues >= CountCategory(st.entities, Cadastre) then 1 else 0)
    ensures |CheckCadastre(st.(entities := st.entities + [e]), cues).checklist| <= |CheckCadastre(st, cues).checklist|
    ensures |CheckCompteBancaire(st.(entities := st.entities + [e]), cues).checklist| <= |CheckCompteBancaire(st, cues).checklist|
  {
    CountCategoryConcat(st.entities, [e], Cadastre);
    CountCategoryConcat(st.entities, [e], CompteBancaire);
  }

  // ---------------------------------------------------------------------
  // match_metadata_jurinet, match_metadata_jurica

  /** One row of the jurinet party table. A field that is not a string
      (a missing value) is `None`. */
  datatype PartyRow = PartyRow(
    partyType: string, partyId: int, personType: string,
    firstName: Option<string>, otherFirstName: Option<string>, alias: Option<string>,
    name: Option<string>, marriedName: Option<string>)

  function FoldedIfPresent(x: Option<string>): set<string> {
    if x.Some? then {Deaccent(x.value)} else {}
  }

  /** The names a row contributes: every present name field, folded. */
  function RowNames(r: PartyRow): set<string> {
    FoldedIfPresent(r.firstName) + FoldedIfPresent(r.otherFirstName) + FoldedIfPresent(r.alias)
    + FoldedIfPresent(r.name) + FoldedIfPresent(r.marriedName)
  }

  /** The names a row contributes as written: the test on the other first
      name adds the first name again, and fails when the first name is
      missing (folding a missing value raises). */
  function RowNamesAsWritten(r: PartyRow): Option<set<string>> {
    if r.otherFirstName.Some? && r.firstName.None? then None
    else Some(FoldedIfPresent(r.firstName) + FoldedIfPresent(r.alias) + FoldedIfPresent(r.name) + FoldedIfPresent(r.marriedName))
  }

  /** As written a second first name never reaches the name set, or makes
      the rule fail. */
  lemma OtherFirstNameLost(r: PartyRow)
    requires r.otherFirstName.Some?
    requires r.firstName.Some? && r.alias.None? && r.name.None? && r.marriedName.None?
    requires Deaccent(r.otherFirstName.value) != Deaccent(r.firstName.value)
    ensures RowNamesAsWritten(r).Some? && Deaccent(r.otherFirstName.value) !in RowNamesAsWritten(r).value
    ensures Deaccent(r.otherFirstName.value) in RowNames(r)
    ensures RowNamesAsWritten(r.(firstName := None)).None?
  {
  }

  /** The names of the rows a query selects. */
  function NamesWhere(rows: seq<PartyRow>, selected: PartyRow -> bool): set<string> {
    if |rows| == 0 then {} else (if selected(rows[0]) then RowNames(rows[0]) else {}) + NamesWhere(rows[1..], selected)
  }

  function LawyerNames(rows: seq<PartyRow>): set<string> {
    if |rows| == 0 then {}
    else (if rows[0].personType == "AVOCAT" then FoldedIfPresent(rows[0].name) else {}) + LawyerNames(rows[1..])
  }

  /** The names of one group only, with their upper-case forms. */
  function Unique(own: set<string>, other1: set<string>, other2: set<string>): (r: set<string>)
    ensures own - other1 - other2 <= r
    ensures forall x :: x in r ==> x in own - other1 - other2 || exists y :: y in own - other1 - other2 && x == Upper(y)
  {
    var base := own - other1 - other2;
    base + set y | y in base :: Upper(y)
  }

  /** The three name groups before their upper-case forms are added have
      nothing in common. */
  lemma UniqueBasesDisjoint(party: set<string>, pro: set<string>, lawyer: set<string>)
    ensures (party - pro - lawyer) * (pro - party - lawyer) == {}
    ensures (party - pro - lawyer) * (lawyer - pro - party) == {}
    ensures (pro - party - lawyer) * (lawyer - pro - party) == {}
  {
  }

  /** The three reclassification branches, tried in order. */
  function Reclassify(e: Entity, partyU: set<string>, proU: set<string>, lawyerU: set<string>): (r: Entity)
    ensures r.text == e.text && r.start == e.start
  {
    if IsProfessional(e.category) && Deaccent(e.text) in partyU then Relabel(e, PersonnePhysique)
    else if e.category == ProfessionnelAvocat && Deaccent(e.text) in proU then Relabel(e, ProfessionnelMagistratGreffier)
    else if e.category == ProfessionnelMagistratGreffier && Deaccent(e.text) in lawyerU then Relabel(e, ProfessionnelAvocat)
    else e
  }

  /** Which branch applies: a professional whose folded text is a party-only
      name becomes a natural person; otherwise a lawyer with a
      magistrate-only name becomes a magistrate and a magistrate with a
      lawyer-only name a lawyer. Nothing else changes. */
  lemma ReclassifyOutcome(e: Entity, partyU: set<string>, proU: set<string>, lawyerU: set<string>)
    ensures var r := Reclassify(e, partyU, proU, lawyerU);
      && (r.category == PersonnePhysique && r != e <==> IsProfessional(e.category) && Deaccent(e.text) in partyU)
      && (r.category == ProfessionnelMagistratGreffier && r != e <==>
            e.category == ProfessionnelAvocat && Deaccent(e.text) !in partyU && Deaccent(e.text) in proU)
      && (r.category == ProfessionnelAvocat && r != e <==>
            e.category == ProfessionnelMagistratGreffier && Deaccent(e.text) !in partyU && Deaccent(e.text) in lawyerU)
      && (!IsProfessional(e.category) ==> r == e)
  {
  }

  /** The folded texts of the natural persons. */
  function NaturalFolded(es: seq<Entity>): set<string> {
    if |es| == 0 then {}
    else (if es[0].category == PersonnePhysique then {Deaccent(es[0].text)} else {}) + NaturalFolded(es[1..])
  }

  /** Inserts the party names not yet annotated where the gazetteer finds
      them in the folded text; nothing is searched when every name is
      annotated. */
  function InsertUndetected(st: State, doc: string, party: set<string>,
                            extract: (set<string>, string) -> seq<KeywordMatch>): (r: State)
    ensures Extends(st, r)
  {
    var missing := party - NaturalFolded(st.entities);
    if missing == {} then st
    else
      var cs := KeywordCandidates(doc, extract(missing, Deaccent(doc)), PersonnePhysique);
      AddAllExtends(st, cs);
      AddAll(st, cs)
  }

  /** Every inserted entity is a natural person read from the document, at
      a span that folds to a party name not yet annotated, when the gazetteer
      reports real matches in the folded text. */
  lemma InsertUndetectedSound(st: State, doc: string, party: set<string>,
                              extract: (set<string>, string) -> seq<KeywordMatch>, k: int)
    requires forall ks, s :: MatchesInText(extract(ks, s), s) && forall j :: 0 <= j < |extract(ks, s)| ==> extract(ks, s)[j].keyword in ks
    requires |st.entities| <= k < |InsertUndetected(st, doc, party, extract).entities|
    ensures var e := InsertUndetected(st, doc, party, extract).entities[k];
      && e.category == PersonnePhysique && e.source == PostProcess && InDocument(e, doc)
      && Deaccent(e.text) in party && Deaccent(e.text) !in NaturalFolded(st.entities)
  {
    var missing := party - NaturalFolded(st.entities);
    var ms := extract(missing, Deaccent(doc));
    var cs := KeywordCandidates(doc, ms, PersonnePhysique);
    var acc := Accepted(st.bounds, cs);
    var r := InsertUndetected(st, doc, party, extract);
    assert |st.entities| + |acc| == |r.entities| && r.entities[k] == ToEntity(acc[k - |st.entities|]) by {
      AddAllAppendsAccepted(st, cs);
    }
    assert acc[k - |st.entities|] in cs;
    assert MatchesInText(ms, Deaccent(doc)) && forall j :: 0 <= j < |ms| ==> ms[j].keyword in missing;
    KeywordCandidateFolds(doc, ms, missing, acc[k - |st.entities|]);
  }

  lemma KeywordCandidateFolds(doc: string, ms: seq<KeywordMatch>, keys: set<string>, c: Candidate)
    requires MatchesInText(ms, Deaccent(doc)) && forall j :: 0 <= j < |ms| ==> ms[j].keyword in keys
    requires c in KeywordCandidates(doc, ms, PersonnePhysique)
    ensures var e := ToEntity(c);
      e.category == PersonnePhysique && e.source == PostProcess && InDocument(e, doc) && Deaccent(e.text) in keys
  {
    var cs := KeywordCandidates(doc, ms, PersonnePhysique);
    var j :| 0 <= j < |cs| && cs[j] == c;
    KeywordCandidatesInDocument(doc, ms, PersonnePhysique, j);
    FoldedMatchSpellsKeyword(doc, ms, j);
  }


  /** When every party name is already annotated nothing is searched for. */
  lemma InsertUndetectedNothingMissing(st: State, doc: string, party: set<string>,
                                       extract: (set<string>, string) -> seq<KeywordMatch>)
    requires party <= NaturalFolded(st.entities)
    ensures InsertUndetected(st, doc, party, extract) == st
  {
  }

  /** `match_metadata_jurinet`: without metadata nothing changes; otherwise
      professionals are reclassified from the party, professional and lawyer
      name lists, then the party names still unannotated are searched for. */
  function MetadataJurinet(st: State, doc: string, metadata: Option<seq<PartyRow>>,
                           extract: (set<string>, string) -> seq<KeywordMatch>): (r: State)
    ensures metadata.None? ==> r == st
    ensures r.checklist == st.checklist && |r.entities| >= |st.entities|
    ensures |r.bounds| >= |st.bounds| && r.bounds[..|st.bounds|] == st.bounds
  {
    match metadata
    case None => st
    case Some(rows) =>
      var party := NamesWhere(rows, (r: PartyRow) => r.partyType == "PP");
      var pro := NamesWhere(rows, (r: PartyRow) => r.partyId == 0);
      var lawyer := LawyerNames(rows);
      var partyU, proU, lawyerU := Unique(party, pro, lawyer), Unique(pro, party, lawyer), Unique(lawyer, pro, party);
      var es := seq(|st.entities|, i requires 0 <= i < |st.entities| => Reclassify(st.entities[i], partyU, proU, lawyerU));
      var mid := WithEntities(st, es);
      InsertUndetected(mid, doc, partyU, extract)
  }

  /** `match_metadata_jurica`: the metadata is a list of names; those not
      yet annotated are searched for. */
  function MetadataJurica(st: State, doc: string, metadata: Option<seq<string>>,
                          extract: (set<string>, string) -> seq<KeywordMatch>): (r: State)
    ensures metadata.None? ==> r == st
    ensures Extends(st, r)
  {
    match metadata
    case None => st
    case Some(names) =>
      InsertUndetected(st, doc, set t | t in names :: Deaccent(t), extract)
  }

  // ---------------------------------------------------------------------
  // juvenile_facility_entities

  const FacilityLocations: seq<string> :=
    ["de quievrechain", "de lavaur", "d'orvault", "de porcheville", "du rhone", "de marseille"]

  /** The six facility names the gazetteer is loaded with. */
  function FacilityKeywords(): (r: seq<string>)
    ensures |r| == |FacilityLocations|
    ensures forall k :: 0 <= k < |r| ==> r[k] == "etablissement penitentiaire specialise pour mineurs " + FacilityLocations[k]
  {
    seq(|FacilityLocations|, k requires 0 <= k < |FacilityLocations| =>
      "etablissement penitentiaire specialise pour mineurs " + FacilityLocations[k])
  }

  /** `juvenile_facility_entities`: the facilities found in the folded text
      are inserted, with the original text's spelling, as establishments. */
  function JuvenileFacilities(st: State, doc: string, extract: (seq<string>, string) -> seq<KeywordMatch>): (r: State)
    ensures Extends(st, r)
    ensures forall k :: |st.entities| <= k < |r.entities| ==> r.entities[k].category == Etablissement
  {
    var cs := KeywordCandidates(doc, extract(FacilityKeywords(), Deaccent(doc)), Etablissement);
    AddAllCategory(st, cs, Etablissement);
    AddAll(st, cs)
  }

  // ---------------------------------------------------------------------
  // manage_le

  /** The entity is the "le" at offsets +3..+5 of a "m. le <title>" match. */
  predicate LeHit(e: Entity, ms: seq<KeywordMatch>) {
    exists m :: m in ms && e.start == m.start + 3 && e.End() == m.start + 5 && Lower(e.text) == "le"
  }

  /** `manage_le`: the entities that are the article of "M. le préfet" and
      the like are deleted; the others keep their order. */
  function ManageLe(st: State, ms: seq<KeywordMatch>): (r: State)
    ensures r.bounds == st.bounds && r.checklist == st.checklist
    ensures forall e :: e in r.entities <==> e in st.entities && !LeHit(e, ms)
    ensures var ix := PassIndices(st.entities, (e: Entity) => !LeHit(e, ms));
      |r.entities| == |ix| && forall k :: 0 <= k < |ix| ==> r.entities[k] == st.entities[ix[k]]
  {
    FilterAtPassIndices(st.entities, (e: Entity) => !LeHit(e, ms));
    WithEntities(st, Filter(st.entities, (e: Entity) => !LeHit(e, ms)))
  }

  /** Exactly the entities hit are deleted, every occurrence of them, and
      with no match nothing changes. */
  lemma ManageLeCount(st: State, ms: seq<KeywordMatch>)
    ensures |ManageLe(st, ms).entities| == |st.entities| - CountIf(st.entities, (e: Entity) => LeHit(e, ms))
    ensures ms == [] ==> ManageLe(st, ms) == st
  {
    FilterCount(st.entities, (e: Entity) => !LeHit(e, ms), (e: Entity) => LeHit(e, ms));
    if ms == [] {
      FilterAll(st.entities, (e: Entity) => !LeHit(e, ms));
    }
  }

  lemma {:induction false} FilterCount(s: seq<Entity>, p: Entity -> bool, q: Entity -> bool)
    requires forall e :: p(e) == !q(e)
    ensures |Filter(s, p)| == |s| - CountIf(s, q)
  {
    if |s| > 0 {
      FilterCount(s[1..], p, q);
    }
  }

  lemma {:induction false} FilterAll(s: seq<Entity>, p: Entity -> bool)
    requires forall e :: p(e)
    ensures Filter(s, p) == s
  {
    if |s| > 0 {
      FilterAll(s[1..], p);
    }
  }

  // ---------------------------------------------------------------------
  // manage_quote

  predicate IsQuote(c: char) {
    c in {'\'', '"', '’', '`', '‘', '«', '»'}
  }

  /** A leading quote and the whitespace after it are cut; the text is
      re-read from the document up to the unchanged end. */
  function TrimLeadingQuote(e: Entity, doc: string): (r: Entity)
    ensures r.category == e.category && r.source == e.source
  {
    var after := PySlice(doc, e.start + 1, e.End());
    var start := e.start + 1 + LeadingSpaces(after);
    e.(start := start, text := PySlice(doc, start, e.End()))
  }

  /** A trailing quote and the whitespace before it are cut. */
  function TrimTrailingQuote(e: Entity, doc: string): (r: Entity)
    ensures r.category == e.category && r.source == e.source && r.start == e.start
  {
    var before := PySlice(doc, e.start, e.End() - 1);
    var end := e.End() - 1 - TrailingSpaces(before);
    e.(text := PySlice(doc, e.start, end))
  }

  /** The entity after its leading quote, if any, is cut. */
  function QuoteLead(e: Entity, doc: string): (r: Entity)
    ensures r.category == e.category && r.source == e.source
  {
    if |e.text| > 0 && IsQuote(e.text[0]) then TrimLeadingQuote(e, doc) else e
  }

  /** `len(text) != 1` and the text ends with a quote. */
  predicate EndsWithQuote(t: string) {
    |t| > 1 && IsQuote(t[|t| - 1])
  }

  /** The fate of one entity: `None` when it is deleted. */
  function QuoteEntity(e: Entity, doc: string): (r: Option<Entity>)
    ensures e.category != PersonnePhysique ==> r == Some(e)
  {
    if e.category != PersonnePhysique then Some(e)
    else if |e.text| == 1 && IsQuote(e.text[0]) then None
    else
      var lead := QuoteLead(e, doc);
      Some(if EndsWithQuote(lead.text) then TrimTrailingQuote(lead, doc) else lead)
  }

  /** `manage_quote`. */
  function ManageQuoteIn(es: seq<Entity>, doc: string): (r: seq<Entity>)
    ensures |r| <= |es|
  {
    if |es| == 0 then []
    else
      (match QuoteEntity(es[0], doc) case None => [] case Some(e) => [e]) + ManageQuoteIn(es[1..], doc)
  }

  function ManageQuote(st: State, doc: string): (r: State)
    ensures r.bounds == st.bounds && r.checklist == st.checklist
  {
    WithEntities(st, ManageQuoteIn(st.entities, doc))
  }

  /** Only a natural person that is a lone quote is deleted. */
  lemma QuoteDeletes(e: Entity, doc: string)
    ensures QuoteEntity(e, doc).None? <==> e.category == PersonnePhysique && |e.text| == 1 && IsQuote(e.text[0])
  {
  }

  /** Cutting a leading quote removes its first character and then exactly
      the run of whitespace that follows it: every character cut after the
      quote is whitespace and the new first character is not. The end is
      kept and the text is the document's at the new offsets. */
  lemma LeadingTrimInDocument(e: Entity, doc: string)
    requires InDocument(e, doc) && |e.text| > 0
    ensures var r := TrimLeadingQuote(e, doc);
      InDocument(r, doc) && e.start + 1 <= r.start && r.End() == e.End()
    ensures var r := TrimLeadingQuote(e, doc);
      (forall i :: e.start + 1 <= i < r.start ==> IsSpace(doc[i]))
      && (r.start < e.End() ==> !IsSpace(doc[r.start]))
  {
    var after := doc[e.start + 1..e.End()];
    assert PySlice(doc, e.start + 1, e.End()) == after;
    var start := e.start + 1 + LeadingSpaces(after);
    var r := TrimLeadingQuote(e, doc);
    assert r == e.(start := start, text := doc[start..e.End()]);
    forall i | e.start + 1 <= i < start ensures IsSpace(doc[i]) {
      assert doc[i] == after[i - e.start - 1];
    }
    if start < e.End() {
      assert doc[start] == after[start - e.start - 1];
    }
  }

  /** Cutting a trailing quote removes its last character and then exactly
      the run of whitespace before it: every character cut before the quote
      is whitespace and the new last character is not. The start is kept. */
  lemma TrailingTrimInDocument(e: Entity, doc: string)
    requires InDocument(e, doc) && |e.text| > 0
    ensures var r := TrimTrailingQuote(e, doc);
      InDocument(r, doc) && r.start == e.start && r.End() <= e.End() - 1
    ensures var r := TrimTrailingQuote(e, doc);
      (forall i :: r.End() <= i < e.End() - 1 ==> IsSpace(doc[i]))
      && (e.start < r.End() ==> !IsSpace(doc[r.End() - 1]))
  {
    var before := doc[e.start..e.End() - 1];
    assert PySlice(doc, e.start, e.End() - 1) == before;
    var end := e.End() - 1 - TrailingSpaces(before);
    var r := TrimTrailingQuote(e, doc);
    assert r == e.(text := doc[e.start..end]);
    forall i | end <= i < e.End() - 1 ensures IsSpace(doc[i]) {
      assert doc[i] == before[i - e.start];
    }
    if e.start < end {
      assert doc[end - 1] == before[end - 1 - e.start];
    }
  }

  /** A trimmed entity is still the document's text at its offsets, inside
      its old span. */
  lemma QuoteInDocument(e: Entity, doc: string)
    requires InDocument(e, doc) && QuoteEntity(e, doc).Some?
    ensures var r := QuoteEntity(e, doc).value;
      InDocument(r, doc) && e.start <= r.start && r.End() <= e.End()
  {
    if e.category == PersonnePhysique {
      var lead := QuoteLead(e, doc);
      if |e.text| > 0 && IsQuote(e.text[0]) {
        LeadingTrimInDocument(e, doc);
      }
      assert InDocument(lead, doc) && e.start <= lead.start && lead.End() == e.End();
      if EndsWithQuote(lead.text) {
        TrailingTrimInDocument(lead, doc);
      }
    }
  }

  /** After `manage_quote` every entity is still read from the document. */
  lemma {:induction false} ManageQuoteInDocument(es: seq<Entity>, doc: string)
    requires AllInDocument(es, doc)
    ensures AllInDocument(ManageQuoteIn(es, doc), doc)
  {
    if |es| > 0 {
      var tail := es[1..];
      assert AllInDocument(tail, doc) by {
        forall i | 0 <= i < |tail| ensures InDocument(tail[i], doc) {
          assert tail[i] == es[i + 1];
        }
      }
      ManageQuoteInDocument(tail, doc);
      assert InDocument(es[0], doc);
      if QuoteEntity(es[0], doc).Some? {
        QuoteInDocument(es[0], doc);
      }
      AllInDocumentConcat(match QuoteEntity(es[0], doc) case None => [] case Some(e) => [e], ManageQuoteIn(tail, doc), doc);
    }
  }

  /** The worked case: a natural person `" Amaury` at the start of the
      decision becomes `Amaury`, two characters later. */
  lemma QuoteExample(doc: string)
    requires doc == "\" Amaury"
    ensures QuoteEntity(Entity(doc, 0, PersonnePhysique, NerModel), doc)
         == Some(Entity("Amaury", 2, PersonnePhysique, NerModel))
  {
    assert PySlice(doc, 1, 8) == doc[1..8] == " Amaury";
    assert LeadingSpaces(" Amaury") == 1;
    assert PySlice(doc, 2, 8) == doc[2..8] == "Amaury";
  }
}
