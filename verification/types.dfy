/** The value types of `juritools.type`: categories, sources, named entities
    with a derived end offset, the audit checks and the diff record returned
    by the correction rules. */
module Types {
  import opened Base
  import opened Accents

  /** `CategoryEnum`: the twenty entity categories. */
  datatype Category =
    | Adresse | Cadastre | Email | PersonneMorale | PersonnePhysicoMorale
    | PersonnePhysique | ProfessionnelAvocat | ProfessionnelMagistratGreffier
    | DateNaissance | DateDeces | DateMariage | NumeroIdentifiant
    | PlaqueImmatriculation | CompteBancaire | Localite | NumeroSiretSiren
    | AnnotationSupplementaire | SiteWebSensible | Etablissement | TelephoneFax

  /** The canonical value of a category. */
  function CategoryValue(c: Category): string {
    match c
    case Adresse => "adresse"
    case Cadastre => "cadastre"
    case Email => "email"
    case PersonneMorale => "personneMorale"
    case PersonnePhysicoMorale => "personnePhysicoMorale"
    case PersonnePhysique => "personnePhysique"
    case ProfessionnelAvocat => "professionnelAvocat"
    case ProfessionnelMagistratGreffier => "professionnelMagistratGreffier"
    case DateNaissance => "dateNaissance"
    case DateDeces => "dateDeces"
    case DateMariage => "dateMariage"
    case NumeroIdentifiant => "numeroIdentifiant"
    case PlaqueImmatriculation => "plaqueImmatriculation"
    case CompteBancaire => "compteBancaire"
    case Localite => "localite"
    case NumeroSiretSiren => "numeroSiretSiren"
    case AnnotationSupplementaire => "annotationSupplementaire"
    case SiteWebSensible => "siteWebSensible"
    case Etablissement => "etablissement"
    case TelephoneFax => "telephoneFax"
  }

  /** The categories in declaration order. */
  const AllCategories: seq<Category> := [
    Adresse, Cadastre, Email, PersonneMorale, PersonnePhysicoMorale,
    PersonnePhysique, ProfessionnelAvocat, ProfessionnelMagistratGreffier, DateNaissance, DateDeces,
    DateMariage, NumeroIdentifiant, PlaqueImmatriculation, CompteBancaire, Localite,
    NumeroSiretSiren, AnnotationSupplementaire, SiteWebSensible, Etablissement, TelephoneFax
  ]

  /** The first category of `cs` whose value is `s`. */
  function FindCategory(s: string, cs: seq<Category>): (r: Option<Category>)
    ensures r.Some? ==> CategoryValue(r.value) == s && r.value in cs
  {
    if |cs| == 0 then None
    else if CategoryValue(cs[0]) == s then Some(cs[0])
    else FindCategory(s, cs[1..])
  }

  /** `CategoryEnum(value)`: the canonical values plus the alias "insee". */
  function ParseCategory(s: string): Option<Category> {
    if s == "insee" then Some(NumeroIdentifiant) else FindCategory(s, AllCategories)
  }

  /** A value is identified by its length and its second character. */
  function Code(s: string): (int, char) {
    (|s|, if |s| > 1 then s[1] else ' ')
  }

  function FromCode(k: (int, char)): Option<Category> {
    match k
    case (7, 'd') => Some(Adresse)
    case (8, 'a') => Some(Cadastre)
    case (5, 'm') => Some(Email)
    case (14, 'e') => Some(PersonneMorale)
    case (21, 'e') => Some(PersonnePhysicoMorale)
    case (16, 'e') => Some(PersonnePhysique)
    case (19, 'r') => Some(ProfessionnelAvocat)
    case (30, 'r') => Some(ProfessionnelMagistratGreffier)
    case (13, 'a') => Some(DateNaissance)
    case (9, 'a') => Some(DateDeces)
    case (11, 'a') => Some(DateMariage)
    case (17, 'u') => Some(NumeroIdentifiant)
    case (21, 'l') => Some(PlaqueImmatriculation)
    case (14, 'o') => Some(CompteBancaire)
    case (8, 'o') => Some(Localite)
    case (16, 'u') => Some(NumeroSiretSiren)
    case (24, 'n') => Some(AnnotationSupplementaire)
    case (15, 'i') => Some(SiteWebSensible)
    case (13, 't') => Some(Etablissement)
    case (12, 'e') => Some(TelephoneFax)
    case _ => None
  }

  lemma FromCodeValue(c: Category)
    ensures FromCode(Code(CategoryValue(c))) == Some(c)
  {
    if c.Adresse? || c.Cadastre? || c.Email? {
      ValueCodes1(c);
    } else if c.PersonneMorale? || c.PersonnePhysicoMorale? || c.PersonnePhysique? {
      ValueCodes2(c);
    } else if c.ProfessionnelAvocat? || c.ProfessionnelMagistratGreffier? || c.DateNaissance? {
      ValueCodes3(c);
    } else if c.DateDeces? || c.DateMariage? || c.NumeroIdentifiant? {
      ValueCodes4(c);
    } else if c.PlaqueImmatriculation? || c.CompteBancaire? || c.Localite? {
      ValueCodes5(c);
    } else if c.NumeroSiretSiren? || c.AnnotationSupplementaire? || c.SiteWebSensible? {
      ValueCodes6(c);
    } else {
      ValueCodes7(c);
    }
  }

  lemma ValueCodes1(c: Category)
    requires c.Adresse? || c.Cadastre? || c.Email?
    ensures FromCode(Code(CategoryValue(c))) == Some(c)
  {
  }

  lemma ValueCodes2(c: Category)
    requires c.PersonneMorale? || c.PersonnePhysicoMorale? || c.PersonnePhysique?
    ensures FromCode(Code(CategoryValue(c))) == Some(c)
  {
  }

  lemma ValueCodes3(c: Category)
    requires c.ProfessionnelAvocat? || c.ProfessionnelMagistratGreffier? || c.DateNaissance?
    ensures FromCode(Code(CategoryValue(c))) == Some(c)
  {
  }

  lemma ValueCodes4(c: Category)
    requires c.DateDeces? || c.DateMariage? || c.NumeroIdentifiant?
    ensures FromCode(Code(CategoryValue(c))) == Some(c)
  {
  }

  lemma ValueCodes5(c: Category)
    requires c.PlaqueImmatriculation? || c.CompteBancaire? || c.Localite?
    ensures FromCode(Code(CategoryValue(c))) == Some(c)
  {
  }

  lemma ValueCodes6(c: Category)
    requires c.NumeroSiretSiren? || c.AnnotationSupplementaire? || c.SiteWebSensible?
    ensures FromCode(Code(CategoryValue(c))) == Some(c)
  {
  }

  lemma ValueCodes7(c: Category)
    requires c.Etablissement? || c.TelephoneFax?
    ensures FromCode(Code(CategoryValue(c))) == Some(c)
  {
  }

  /** Distinct categories have distinct values. */
  lemma CategoryValueInjective(a: Category, b: Category)
    requires CategoryValue(a) == CategoryValue(b)
    ensures a == b
  {
    FromCodeValue(a);
    FromCodeValue(b);
  }

  lemma {:induction false} FindListedCategory(c: Category, cs: seq<Category>)
    requires c in cs
    ensures FindCategory(CategoryValue(c), cs) == Some(c)
  {
    if cs[0] != c {
      if CategoryValue(cs[0]) == CategoryValue(c) {
        CategoryValueInjective(cs[0], c);
      }
      FindListedCategory(c, cs[1..]);
    }
  }

  /** Every category parses back from its value. */
  lemma ParseCategoryValue(c: Category)
    ensures ParseCategory(CategoryValue(c)) == Some(c)
  {
    FromCodeValue(c);
    assert CategoryValue(c) != "insee" by {
      assert FromCode(Code("insee")) == None;
    }
    FindListedCategory(c, AllCategories);
  }

  /** The only strings accepted are the values and the alias "insee" of
      `numeroIdentifiant`. */
  lemma ParseCategorySound(s: string, c: Category)
    requires ParseCategory(s) == Some(c)
    ensures s == CategoryValue(c) || (s == "insee" && c == NumeroIdentifiant)
  {
  }

  /** A string whose code is no category's code does not parse. */
  lemma ParseCategoryCode(s: string)
    requires s != "insee" && FromCode(Code(s)) == None
    ensures ParseCategory(s) == None
  {
    if ParseCategory(s).Some? {
      FromCodeValue(ParseCategory(s).value);
      assert false;
    }
  }

  predicate NoUnderscore(s: string) {
    forall i :: 0 <= i < |s| ==> s[i] != '_'
  }

  lemma FirstValuesHaveNoUnderscore()
    ensures NoUnderscore("adresse") &&
      NoUnderscore("cadastre") &&
      NoUnderscore("email") &&
      NoUnderscore("personneMorale") &&
      NoUnderscore("personnePhysicoMorale") &&
      NoUnderscore("personnePhysique") &&
      NoUnderscore("professionnelAvocat") &&
      NoUnderscore("professionnelMagistratGreffier") &&
      NoUnderscore("dateNaissance") &&
      NoUnderscore("dateDeces")
  {
  }

  lemma LastValuesHaveNoUnderscore()
    ensures NoUnderscore("dateMariage") &&
      NoUnderscore("numeroIdentifiant") &&
      NoUnderscore("plaqueImmatriculation") &&
      NoUnderscore("compteBancaire") &&
      NoUnderscore("localite") &&
      NoUnderscore("numeroSiretSiren") &&
      NoUnderscore("annotationSupplementaire") &&
      NoUnderscore("siteWebSensible") &&
      NoUnderscore("etablissement") &&
      NoUnderscore("telephoneFax")
  {
  }

  /** No category value contains '_', which makes `entityId` decodable. */
  lemma NoUnderscoreInValue(c: Category)
    ensures NoUnderscore(CategoryValue(c))
  {
    FirstValuesHaveNoUnderscore();
    LastValuesHaveNoUnderscore();
  }

  /** `SourceEnum`. */
  datatype Source = NerModel | PostProcess

  function SourceValue(s: Source): string {
    match s
    case NerModel => "NER model"
    case PostProcess => "postprocess"
  }

  function ParseSource(s: string): (r: Option<Source>)
    ensures r.Some? ==> SourceValue(r.value) == s
    ensures forall src :: s == SourceValue(src) ==> r == Some(src)
  {
    if s == "NER model" then Some(NerModel)
    else if s == "postprocess" then Some(PostProcess)
    else None
  }

  /** `NamedEntity` without its float score. */
  datatype Entity = Entity(text: string, start: int, category: Category, source: Source) {
    /** The computed field `end`. */
    function End(): int {
      start + |text|
    }
  }

  /** The validator rejects an empty text. */
  predicate Valid(e: Entity) {
    e.text != ""
  }

  datatype EntityError = EmptyText | UnknownCategory(name: string) | UnknownSource(name: string)

  /** `NamedEntity(text=..., start=..., label=..., source=...)` from the raw
      strings the rules pass: fails exactly when the text is empty or a label
      or source is not one of the enumerations' values. */
  function MakeEntity(text: string, start: int, labelName: string, sourceName: string): (r: Result<Entity, EntityError>)
    ensures r.Ok? <==> text != "" && ParseCategory(labelName).Some? && ParseSource(sourceName).Some?
    ensures r.Ok? ==> Valid(r.value) && r.value.text == text && r.value.start == start
    ensures r.Ok? ==> r.value.End() == start + |text|
    ensures r.Ok? ==> Some(r.value.category) == ParseCategory(labelName) && SourceValue(r.value.source) == sourceName
  {
    if text == "" then Err(EmptyText)
    else match ParseCategory(labelName)
      case None => Err(UnknownCategory(labelName))
      case Some(c) =>
        match ParseSource(sourceName)
        case None => Err(UnknownSource(sourceName))
        case Some(src) => Ok(Entity(text, start, c, src))
  }

  /** The computed field `entityId`. */
  function EntityId(e: Entity): string {
    CategoryValue(e.category) + "_" + Deaccent(Lower(e.text))
  }

  /** The key is decodable: equal keys mean the same category and the same
      folded text. */
  lemma EntityIdInjective(a: Entity, b: Entity)
    requires EntityId(a) == EntityId(b)
    ensures a.category == b.category
    ensures Deaccent(Lower(a.text)) == Deaccent(Lower(b.text))
  {
    var va, vb := CategoryValue(a.category), CategoryValue(b.category);
    var id := EntityId(a);
    NoUnderscoreInValue(a.category);
    NoUnderscoreInValue(b.category);
    assert id[|va|] == '_' && id[|vb|] == '_';
    assert va == id[..|va|] == vb;
    CategoryValueInjective(a.category, b.category);
    assert Deaccent(Lower(a.text)) == id[|va| + 1..] == Deaccent(Lower(b.text));
  }

  /** Entities with the same category whose texts differ only in case or
      accents share a key. */
  lemma EntityIdNormalises(a: Entity, b: Entity)
    requires a.category == b.category
    requires Deaccent(Lower(a.text)) == Deaccent(Lower(b.text))
    ensures EntityId(a) == EntityId(b)
  {
  }

  /** `__lt__`: order by start offset. */
  predicate Lt(a: Entity, b: Entity) {
    a.start < b.start
  }

  /** `__gt__`: order by end offset. */
  predicate Gt(a: Entity, b: Entity) {
    a.End() > b.End()
  }

  /** `>` is not the converse of `<`: an entity can be both smaller and
      greater than an entity it contains. */
  lemma LtGtNotConverse()
    ensures var a, b := Entity("abcd", 0, Adresse, NerModel), Entity("bc", 1, Adresse, NerModel);
      Lt(a, b) && Gt(a, b)
  {
  }

  /** `overlaps_with_other_entity`. */
  predicate Overlaps(a: Entity, b: Entity) {
    if b.End() <= a.start then false
    else if a.End() <= b.start then false
    else true
  }

  /** Overlap is symmetric. */
  lemma OverlapsSymmetric(a: Entity, b: Entity)
    ensures Overlaps(a, b) <==> Overlaps(b, a)
  {
  }

  /** Offset `p` lies inside the entity's span. */
  predicate Covers(e: Entity, p: int) {
    e.start <= p < e.End()
  }

  /** Two entities overlap exactly when some offset lies inside both spans;
      spans that only touch do not overlap. */
  lemma OverlapsIffSharedOffset(a: Entity, b: Entity)
    requires Valid(a) && Valid(b)
    ensures Overlaps(a, b) <==> exists p :: Covers(a, p) && Covers(b, p)
    ensures a.End() == b.start ==> !Overlaps(a, b)
  {
    if Overlaps(a, b) {
      var p := if a.start >= b.start then a.start else b.start;
      assert Covers(a, p) && Covers(b, p);
    }
  }

  datatype MergeError = DifferentCategories | DifferentSources | Disjoint

  /** The minimum start and maximum end of two entities. */
  function MinStart(a: Entity, b: Entity): int {
    if a.start <= b.start then a.start else b.start
  }

  function MaxEnd(a: Entity, b: Entity): int {
    if a.End() >= b.End() then a.End() else b.End()
  }

  /** Strictly disjoint spans, as `merge_entities` tests them: touching spans
      are not disjoint. */
  predicate Apart(left: Entity, right: Entity) {
    if left.start <= right.start then left.End() < right.start else left.start > right.End()
  }

  /** `merge_entities`: the union of two overlapping or touching entities of the
      same category and source. */
  function Merge(left: Entity, right: Entity): (r: Result<Entity, MergeError>)
    ensures r == Err(DifferentCategories) <==> left.category != right.category
    ensures r == Err(DifferentSources) <==> left.category == right.category && left.source != right.source
    ensures r == Err(Disjoint) <==>
      left.category == right.category && left.source == right.source && Apart(left, right)
    ensures r.Ok? ==> r.value.category == left.category && r.value.source == left.source
    ensures r.Ok? ==> r.value.start == MinStart(left, right) && r.value.End() == MaxEnd(left, right)
    ensures r.Ok? && left.start <= right.start && left.End() >= right.End() ==> r.value == left
    ensures r.Ok? && left.start > right.start && right.End() >= left.End() ==> r.value == right
  {
    if left.category != right.category then Err(DifferentCategories)
    else if left.source != right.source then Err(DifferentSources)
    else if left.start <= right.start then
      if left.End() < right.start then Err(Disjoint)
      else if left.End() >= right.End() then Ok(left)
      else
        var text := left.text + PySlice(right.text, left.End() - right.start, right.End() - right.start);
        Ok(Entity(text, left.start, left.category, left.source))
    else
      if left.start > right.End() then Err(Disjoint)
      else if right.End() >= left.End() then Ok(Entity(right.text, right.start, left.category, left.source))
      else
        var text := right.text + PySlice(left.text, right.End() - left.start, left.End() - left.start);
        Ok(Entity(text, right.start, left.category, left.source))
  }

  /** The entity's text is the document's text at its offsets. */
  predicate InDocument(e: Entity, doc: string) {
    0 <= e.start <= e.End() <= |doc| && e.text == doc[e.start..e.End()]
  }

  /** Merging two entities read from one document gives the document's text
      between the minimum start and the maximum end. */
  lemma MergeInDocument(left: Entity, right: Entity, doc: string)
    requires InDocument(left, doc) && InDocument(right, doc)
    requires Merge(left, right).Ok?
    ensures InDocument(Merge(left, right).value, doc)
  {
    var r := Merge(left, right).value;
    if left.start <= right.start && left.End() < right.End() {
      assert r.text == doc[left.start..left.End()] + doc[left.End()..right.End()];
      assert doc[left.start..right.End()] == doc[left.start..left.End()] + doc[left.End()..right.End()];
    } else if left.start > right.start && right.End() < left.End() {
      assert r.text == doc[right.start..right.End()] + doc[right.End()..left.End()];
      assert doc[right.start..left.End()] == doc[right.start..right.End()] + doc[right.End()..left.End()];
    }
  }

  /** For entities read from one document the merge does not depend on the
      order of its arguments. */
  lemma MergeCommutative(a: Entity, b: Entity, doc: string)
    requires InDocument(a, doc) && InDocument(b, doc)
    ensures Merge(a, b) == Merge(b, a)
  {
    if Merge(a, b).Ok? {
      MergeInDocument(a, b, doc);
      MergeInDocument(b, a, doc);
    }
  }

  /** `CheckTypeEnum`. */
  datatype CheckType =
    | SimilarWriting | DifferentCategoriesCheck | LessThanTwoCharacters
    | MissingBankAccount | MissingCadastre | IncorrectMetadata | OtherChecklist

  /** `SentenceIndexes`. */
  datatype SentenceIndexes = SentenceIndexes(start: int, end: int)

  /** `Check`: an audit message attached to entities, sentences or metadata terms. */
  datatype Check = Check(
    checkType: CheckType,
    entities: seq<Entity>,
    sentences: seq<SentenceIndexes>,
    metadataText: seq<string>)

  /** The quote Python's `repr` puts around a string: single quotes unless
      the string holds one. Only strings without backslashes, without
      control characters and without both kinds of quote are modelled; for
      those `repr` also escapes characters, which is not modelled. */
  function Quote(s: string): string {
    if '\'' in s then "\"" else "'"
  }

  /** Python's `repr` of a string, for the strings `Quote` covers: the text
      between its quotes, unescaped. */
  function StrRepr(s: string): string {
    Quote(s) + s + Quote(s)
  }

  /** Python's rendering of a list of strings. */
  function ListRepr(xs: seq<string>): string {
    "[" + ListItems(xs) + "]"
  }

  function ListItems(xs: seq<string>): string {
    if |xs| == 0 then ""
    else if |xs| == 1 then StrRepr(xs[0])
    else StrRepr(xs[0]) + ", " + ListItems(xs[1..])
  }

  lemma OccursInMiddle(a: string, x: string, b: string)
    ensures OccursAt(x, a + x + b, |a|)
  {
    assert (a + x + b)[|a|..|a| + |x|] == x;
  }

  lemma OccursShift(x: string, y: string, i: int, a: string, b: string)
    requires OccursAt(x, y, i)
    ensures OccursAt(x, a + y + b, |a| + i)
  {
    assert (a + y + b)[|a| + i..|a| + i + |x|] == y[i..i + |x|];
  }

  /** Every item of a list appears in its rendering. */
  lemma {:induction false} ListItemsContains(xs: seq<string>, k: int) returns (i: int)
    requires 0 <= k < |xs|
    ensures OccursAt(xs[k], ListItems(xs), i)
  {
    var q := Quote(xs[0]);
    if k == 0 {
      var rest := if |xs| == 1 then "" else ", " + ListItems(xs[1..]);
      assert ListItems(xs) == q + xs[0] + (q + rest);
      OccursInMiddle(q, xs[0], q + rest);
      i := |q|;
    } else {
      var j := ListItemsContains(xs[1..], k - 1);
      var head := StrRepr(xs[0]) + ", ";
      assert ListItems(xs) == head + ListItems(xs[1..]) + "";
      OccursShift(xs[k], ListItems(xs[1..]), j, head, "");
      i := |head| + j;
    }
  }

  /** The distinct values of a list, in order of first occurrence. */
  function Distinct(xs: seq<string>): (r: seq<string>)
    ensures forall x :: x in r <==> x in xs
    ensures forall i, j :: 0 <= i < j < |r| ==> r[i] != r[j]
  {
    if |xs| == 0 then []
    else
      var init := Distinct(xs[..|xs| - 1]);
      if xs[|xs| - 1] in init then init else init + [xs[|xs| - 1]]
  }

  /** The values of the entities' categories. */
  function CategoryValues(es: seq<Entity>): seq<string> {
    seq(|es|, k requires 0 <= k < |es| => CategoryValue(es[k].category))
  }

  const SimilarMiddle := "' est similaire à '"
  const SimilarTail := "'. Est-ce une erreur de saisie ?"
  const CategoriesHead := "L'annotation '"
  const CategoriesMiddle := "' est présente dans différentes catégories: "
  const ShortTail := "' cette annotation fait moins de deux caratères. Est-ce normal ?"
  const MissingBankAccountMessage :=
    "Il semblerait qu'un ou plusieurs numéros de comptes bancaires n'aient pas été repérés."
  const MissingCadastreMessage :=
    "Il semblerait qu'une ou plusieurs parcelles cadastrales n'aient pas été repérées."
  const MetadataPrefix :=
    "La base de données indique la présence de ces termes mais ils n'ont pas été annotés: "
  const MetadataTail := ". Il y a potentiellement une sous-annotation."

  datatype MessageError = WrongEntityCount

  /** Whether `get_message` fails on this check: unpacking exactly two
      entities, or reading the first one, raises. */
  predicate MessageFails(c: Check) {
    || (c.checkType == SimilarWriting && |c.entities| != 2)
    || ((c.checkType == DifferentCategoriesCheck || c.checkType == LessThanTwoCharacters) && |c.entities| == 0)
  }

  /** The different-categories message for a text and the category values. */
  function CategoriesMessage(text: string, categories: seq<string>): string {
    CategoriesHead + text + CategoriesMiddle + ListRepr(categories)
  }

  /** The incorrect-metadata message for the unannotated terms. */
  function MetadataMessage(terms: seq<string>): string {
    MetadataPrefix + ListRepr(terms) + MetadataTail
  }

  /** `Check.get_message` as intended: the incorrect-metadata message lists
      the terms. `show` renders an entity as `str()` does. The set of
      categories is rendered in first-occurrence order, an order the source
      leaves unspecified. */
  function GetMessage(c: Check, show: Entity -> string): (r: Result<string, MessageError>)
    ensures r.Err? <==> MessageFails(c)
    ensures r.Ok? ==> (r.value == "" <==> c.checkType == OtherChecklist)
  {
    match c.checkType
    case SimilarWriting =>
      if |c.entities| != 2 then Err(WrongEntityCount)
      else Ok("'" + c.entities[0].text + SimilarMiddle + c.entities[1].text + SimilarTail)
    case DifferentCategoriesCheck =>
      if |c.entities| == 0 then Err(WrongEntityCount)
      else Ok(CategoriesMessage(c.entities[0].text, Distinct(CategoryValues(c.entities))))
    case LessThanTwoCharacters =>
      if |c.entities| == 0 then Err(WrongEntityCount)
      else Ok("'" + show(c.entities[0]) + ShortTail)
    case MissingBankAccount => Ok(MissingBankAccountMessage)
    case IncorrectMetadata => Ok(MetadataMessage(c.metadataText))
    case MissingCadastre => Ok(MissingCadastreMessage)
    case OtherChecklist => Ok("")
  }

  /** The similar-writing message names both entities' texts. */
  lemma SimilarMessageMentions(c: Check, show: Entity -> string)
    requires c.checkType == SimilarWriting && |c.entities| == 2
    ensures GetMessage(c, show).Ok?
    ensures IsSubstring(c.entities[0].text, GetMessage(c, show).value)
    ensures IsSubstring(c.entities[1].text, GetMessage(c, show).value)
  {
    var t1, t2 := c.entities[0].text, c.entities[1].text;
    var m := GetMessage(c, show).value;
    OccursInMiddle("'", t1, SimilarMiddle + t2 + SimilarTail);
    assert m == "'" + t1 + (SimilarMiddle + t2 + SimilarTail);
    OccursInMiddle("'" + t1 + SimilarMiddle, t2, SimilarTail);
  }

  /** The different-categories message names the text and every category
      value it is given. */
  lemma CategoriesMessageContains(text: string, categories: seq<string>, j: int)
    requires 0 <= j < |categories|
    ensures IsSubstring(text, CategoriesMessage(text, categories))
    ensures IsSubstring(categories[j], CategoriesMessage(text, categories))
  {
    CategoriesMessageHasText(text, categories);
    CategoriesMessageHasCategory(text, categories, j);
  }

  lemma CategoriesMessageHasText(text: string, categories: seq<string>)
    ensures IsSubstring(text, CategoriesMessage(text, categories))
  {
    var tail := CategoriesMiddle + ListRepr(categories);
    OccursInMiddle(CategoriesHead, text, tail);
    assert CategoriesMessage(text, categories) == CategoriesHead + text + tail;
  }

  lemma CategoriesMessageHasCategory(text: string, categories: seq<string>, j: int)
    requires 0 <= j < |categories|
    ensures IsSubstring(categories[j], CategoriesMessage(text, categories))
  {
    var head := CategoriesHead + text + CategoriesMiddle + "[";
    var items := ListItems(categories);
    var i := ListItemsContains(categories, j);
    OccursShift(categories[j], items, i, head, "]");
    RegroupLast(CategoriesHead + text + CategoriesMiddle, "[", items, "]");
  }

  lemma RegroupLast(a: string, b: string, c: string, d: string)
    ensures a + (b + c + d) == (a + b) + c + d
  {
  }

  lemma Regroup(a: string, b: string, c: string, d: string, e: string)
    ensures a + (b + c + d) + e == (a + b) + c + (d + e)
  {
  }

  /** The different-categories message names the first entity's text and
      the value of every entity's category. */
  lemma CategoriesMessageMentions(c: Check, show: Entity -> string, k: int)
    requires c.checkType == DifferentCategoriesCheck && 0 <= k < |c.entities|
    ensures GetMessage(c, show).Ok?
    ensures IsSubstring(c.entities[0].text, GetMessage(c, show).value)
    ensures IsSubstring(CategoryValue(c.entities[k].category), GetMessage(c, show).value)
  {
    var categories := Distinct(CategoryValues(c.entities));
    var v := CategoryValue(c.entities[k].category);
    assert CategoryValues(c.entities)[k] == v;
    assert v in categories;
    var j :| 0 <= j < |categories| && categories[j] == v;
    CategoriesMessageContains(c.entities[0].text, categories, j);
  }

  /** The short-entity message shows the entity. */
  lemma ShortMessageMentions(c: Check, show: Entity -> string)
    requires c.checkType == LessThanTwoCharacters && |c.entities| > 0
    ensures GetMessage(c, show).Ok?
    ensures IsSubstring(show(c.entities[0]), GetMessage(c, show).value)
  {
    OccursInMiddle("'", show(c.entities[0]), ShortTail);
  }

  lemma MetadataMessageContains(terms: seq<string>, k: int)
    requires 0 <= k < |terms|
    ensures IsSubstring(terms[k], MetadataMessage(terms))
  {
    var head, items, tail := MetadataPrefix + "[", ListItems(terms), "]" + MetadataTail;
    var i := ListItemsContains(terms, k);
    OccursShift(terms[k], items, i, head, tail);
    Regroup(MetadataPrefix, "[", items, "]", MetadataTail);
  }

  /** The incorrect-metadata message names every term. */
  lemma MetadataMessageMentions(c: Check, show: Entity -> string, k: int)
    requires c.checkType == IncorrectMetadata && 0 <= k < |c.metadataText|
    ensures GetMessage(c, show).Ok?
    ensures IsSubstring(c.metadataText[k], GetMessage(c, show).value)
  {
    MetadataMessageContains(c.metadataText, k);
  }

  /** `Check.get_message` as written: the second f-string of the
      incorrect-metadata branch is a separate expression statement, so the
      message stops after its fixed prefix. */
  function GetMessageAsWritten(c: Check, show: Entity -> string): (r: Result<string, MessageError>)
    ensures r.Err? <==> MessageFails(c)
    ensures c.checkType != IncorrectMetadata ==> r == GetMessage(c, show)
  {
    if c.checkType == IncorrectMetadata then Ok(MetadataPrefix) else GetMessage(c, show)
  }

  /** The as-written message does not depend on the terms at all, whereas the
      intended one does: with and without the term "Dupont" it is the same. */
  lemma IncorrectMetadataDropsTerms(show: Entity -> string)
    ensures var with, without := Check(IncorrectMetadata, [], [], ["Dupont"]), Check(IncorrectMetadata, [], [], []);
      && GetMessageAsWritten(with, show) == GetMessageAsWritten(without, show)
      && GetMessage(with, show) != GetMessage(without, show)
  {
    var with, without := Check(IncorrectMetadata, [], [], ["Dupont"]), Check(IncorrectMetadata, [], [], []);
    assert ListRepr(["Dupont"]) == "['Dupont']";
    assert |GetMessage(with, show).value| != |GetMessage(without, show).value|;
  }

  /** `PostProcessOutput`: the six diff lists a rule returns. */
  datatype Output = Output(
    addedEntities: seq<Entity>,
    deletedEntities: seq<Entity>,
    modifiedEntities: seq<Entity>,
    addedChecklist: seq<Check>,
    deletedChecklist: seq<Check>,
    modifiedChecklist: seq<Check>)

  const EmptyOutput := Output([], [], [], [], [], [])

  function Elements<T>(s: seq<T>): set<T> {
    set x | x in s
  }

  /** `PostProcessOutput.__eq__`: each list compared as a set. */
  predicate Equivalent(a: Output, b: Output) {
    && Elements(a.addedEntities) == Elements(b.addedEntities)
    && Elements(a.deletedEntities) == Elements(b.deletedEntities)
    && Elements(a.modifiedEntities) == Elements(b.modifiedEntities)
    && Elements(a.addedChecklist) == Elements(b.addedChecklist)
    && Elements(a.deletedChecklist) == Elements(b.deletedChecklist)
    && Elements(a.modifiedChecklist) == Elements(b.modifiedChecklist)
  }

  /** `x` followed by `y`, as a specification of a concatenated list. */
  predicate Joined<T(==)>(r: seq<T>, x: seq<T>, y: seq<T>) {
    |r| == |x| + |y| && r[..|x|] == x && r[|x|..] == y
  }

  /** `merge_output`: each list of the result is this output's list followed
      by the other's. */
  function MergeOutput(a: Output, b: Output): (r: Output)
    ensures Joined(r.addedEntities, a.addedEntities, b.addedEntities)
    ensures Joined(r.deletedEntities, a.deletedEntities, b.deletedEntities)
    ensures Joined(r.modifiedEntities, a.modifiedEntities, b.modifiedEntities)
    ensures Joined(r.addedChecklist, a.addedChecklist, b.addedChecklist)
    ensures Joined(r.deletedChecklist, a.deletedChecklist, b.deletedChecklist)
    ensures Joined(r.modifiedChecklist, a.modifiedChecklist, b.modifiedChecklist)
  {
    Output(
      a.addedEntities + b.addedEntities,
      a.deletedEntities + b.deletedEntities,
      a.modifiedEntities + b.modifiedEntities,
      a.addedChecklist + b.addedChecklist,
      a.deletedChecklist + b.deletedChecklist,
      a.modifiedChecklist + b.modifiedChecklist)
  }

  /** Output equality is an equivalence relation. */
  lemma EquivalentIsEquivalence(a: Output, b: Output, c: Output)
    ensures Equivalent(a, a)
    ensures Equivalent(a, b) ==> Equivalent(b, a)
    ensures Equivalent(a, b) && Equivalent(b, c) ==> Equivalent(a, c)
  {
  }

  lemma ElementsConcat<T>(x: seq<T>, y: seq<T>)
    ensures Elements(x + y) == Elements(x) + Elements(y)
  {
  }

  lemma ElementsSwap<T>(x: seq<T>, y: seq<T>)
    ensures Elements(x + y) == Elements(y + x)
  {
    ElementsConcat(x, y);
    ElementsConcat(y, x);
  }

  /** Merging in either order gives equal outputs. */
  lemma MergeOutputCommutes(a: Output, b: Output)
    ensures Equivalent(MergeOutput(a, b), MergeOutput(b, a))
  {
    ElementsSwap(a.addedEntities, b.addedEntities);
    ElementsSwap(a.deletedEntities, b.deletedEntities);
    ElementsSwap(a.modifiedEntities, b.modifiedEntities);
    ElementsSwap(a.addedChecklist, b.addedChecklist);
    ElementsSwap(a.deletedChecklist, b.deletedChecklist);
    ElementsSwap(a.modifiedChecklist, b.modifiedChecklist);
  }

  /** Merging respects output equality. */
  lemma MergeOutputCongruent(a: Output, a': Output, b: Output)
    requires Equivalent(a, a')
    ensures Equivalent(MergeOutput(a, b), MergeOutput(a', b))
  {
    ElementsConcat(a.addedEntities, b.addedEntities);
    ElementsConcat(a'.addedEntities, b.addedEntities);
    ElementsConcat(a.deletedEntities, b.deletedEntities);
    ElementsConcat(a'.deletedEntities, b.deletedEntities);
    ElementsConcat(a.modifiedEntities, b.modifiedEntities);
    ElementsConcat(a'.modifiedEntities, b.modifiedEntities);
    ElementsConcat(a.addedChecklist, b.addedChecklist);
    ElementsConcat(a'.addedChecklist, b.addedChecklist);
    ElementsConcat(a.deletedChecklist, b.deletedChecklist);
    ElementsConcat(a'.deletedChecklist, b.deletedChecklist);
    ElementsConcat(a.modifiedChecklist, b.modifiedChecklist);
    ElementsConcat(a'.modifiedChecklist, b.modifiedChecklist);
  }

  /** Merging an output with itself gives an equal output: repeated diffs
      are invisible to the set comparison. */
  lemma MergeOutputIdempotent(a: Output)
    ensures Equivalent(MergeOutput(a, a), a)
  {
    ElementsConcat(a.addedEntities, a.addedEntities);
    ElementsConcat(a.deletedEntities, a.deletedEntities);
    ElementsConcat(a.modifiedEntities, a.modifiedEntities);
    ElementsConcat(a.addedChecklist, a.addedChecklist);
    ElementsConcat(a.deletedChecklist, a.deletedChecklist);
    ElementsConcat(a.modifiedChecklist, a.modifiedChecklist);
  }

  lemma ConcatUnit<T>(x: seq<T>)
    ensures x + [] == x && [] + x == x
  {
  }

  lemma ConcatAssociates<T>(x: seq<T>, y: seq<T>, z: seq<T>)
    ensures (x + y) + z == x + (y + z)
  {
  }

  /** The empty output is a unit of merging. */
  lemma MergeOutputUnit(a: Output)
    ensures MergeOutput(a, EmptyOutput) == a && MergeOutput(EmptyOutput, a) == a
  {
    ConcatUnit(a.addedEntities);
    ConcatUnit(a.deletedEntities);
    ConcatUnit(a.modifiedEntities);
    ConcatUnit(a.addedChecklist);
    ConcatUnit(a.deletedChecklist);
    ConcatUnit(a.modifiedChecklist);
  }

  /** Merging is associative. */
  lemma MergeOutputAssociates(a: Output, b: Output, c: Output)
    ensures MergeOutput(MergeOutput(a, b), c) == MergeOutput(a, MergeOutput(b, c))
  {
    ConcatAssociates(a.addedEntities, b.addedEntities, c.addedEntities);
    ConcatAssociates(a.deletedEntities, b.deletedEntities, c.deletedEntities);
    ConcatAssociates(a.modifiedEntities, b.modifiedEntities, c.modifiedEntities);
    ConcatAssociates(a.addedChecklist, b.addedChecklist, c.addedChecklist);
    ConcatAssociates(a.deletedChecklist, b.deletedChecklist, c.deletedChecklist);
    ConcatAssociates(a.modifiedChecklist, b.modifiedChecklist, c.modifiedChecklist);
  }
}
