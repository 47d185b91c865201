/** Preprocessing of a decision before tagging (`juritools/preprocess.py`):
    the text's line breaks are normalised, and the parties' metadata is
    turned into the table the metadata rules read: the raw party rows for
    Jurinet, the person names the tagger finds in the natural persons'
    identities for Jurica and JuriTJ. */
module Preprocess {
  import opened Base
  import opened Types
  import opened FromText

  const FormFeed: char := 12 as char

  /** `replace_specific_encoding`: form feeds and carriage returns become
      line feeds; every other character stays where it is. */
  function ReplaceSpecificEncoding(t: string): (r: string)
    ensures |r| == |t|
    ensures forall i :: 0 <= i < |t| ==>
      r[i] == (if t[i] == FormFeed || t[i] == '\r' then '\n' else t[i])
  {
    ReplaceChar(ReplaceChar(t, FormFeed, '\n'), '\r', '\n')
  }

  /** No form feed or carriage return survives, and a second pass changes
      nothing. */
  lemma EncodingNormalised(t: string)
    ensures forall i :: 0 <= i < |t| ==>
      ReplaceSpecificEncoding(t)[i] != FormFeed && ReplaceSpecificEncoding(t)[i] != '\r'
    ensures ReplaceSpecificEncoding(ReplaceSpecificEncoding(t)) == ReplaceSpecificEncoding(t)
  {
  }

  /** A text with neither character is its own normal form. */
  lemma EncodingFixesNormalText(t: string)
    requires forall i :: 0 <= i < |t| ==> t[i] != FormFeed && t[i] != '\r'
    ensures ReplaceSpecificEncoding(t) == t
  {
  }

  /** `TypePartie`: moral person, natural person, administrative authority. */
  datatype PartyType = PM | PP | AA

  /** A Jurica party: its type and its identity as free text. */
  datatype JuricaParty = JuricaParty(typePersonne: PartyType, identite: string)

  /** A JuriTJ party. The first name and the title default to the empty
      string; `None` stands for an explicit null. */
  datatype JuritjParty = JuritjParty(partyType: PartyType, nom: string, prenom: Option<string>, civilite: Option<string>)

  /** The three shapes the `parties` field accepts. */
  datatype Parties =
    | JurinetRows(rows: seq<PartyRow>)
    | JuricaList(jurica: seq<JuricaParty>)
    | JuritjList(juritj: seq<JuritjParty>)

  /** `DecisionSourceNameEnum`. */
  datatype SourceName = Jurinet | Jurica | Juritj

  datatype Decision = Decision(sourceName: SourceName, text: string, parties: Option<Parties>)

  /** The decision validator: an empty text is refused. */
  function NewDecision(source: SourceName, text: string, parties: Option<Parties>): (r: Result<Decision, string>)
    ensures r.Ok? <==> text != ""
    ensures r.Ok? ==> r.value.sourceName == source && r.value.text == text && r.value.parties == parties
  {
    if text == "" then Err("text field is empty") else Ok(Decision(source, text, parties))
  }

  /** A span the tagger labels in a party's sentence. */
  datatype TaggedSpan = TaggedSpan(text: string, tag: string)

  const PersonLabel := "personnePhysique"

  /** The metadata table: raw rows (Jurinet) or the de-duplicated person
      names found in the parties (Jurica, JuriTJ). */
  datatype Metadata = Table(rows: seq<PartyRow>) | Names(names: seq<string>)

  datatype Preprocessed = Preprocessed(text: string, metadata: Option<Metadata>)

  /** A party list of the wrong shape for the source: the per-party
      attribute access raises. */
  datatype PreprocessError = MismatchedParties(source: SourceName)

  /** Python's truthiness of the party list. */
  predicate NoParties(p: Parties) {
    match p
    case JurinetRows(rows) => |rows| == 0
    case JuricaList(ps) => |ps| == 0
    case JuritjList(ps) => |ps| == 0
  }

  /** The party list has the shape the source's branch reads. */
  predicate ShapeFits(source: SourceName, p: Parties) {
    match source
    case Jurinet => p.JurinetRows?
    case Jurica => p.JuricaList?
    case Juritj => p.JuritjList?
  }

  /** f-string formatting of an optional string: a null prints as "None". */
  function Formatted(o: Option<string>): (r: string)
    ensures o.Some? ==> r == o.value
  {
    match o
    case None => "None"
    case Some(s) => s
  }

  /** The sentence tagged for a JuriTJ party: title, first name and name,
      separated by single spaces. */
  function JuritjSentence(p: JuritjParty): (r: string)
    ensures |r| == |Formatted(p.civilite)| + 1 + |Formatted(p.prenom)| + 1 + |p.nom|
    ensures r[|r| - |p.nom|..] == p.nom
    ensures r[..|Formatted(p.civilite)|] == Formatted(p.civilite)
  {
    var civ, pre := Formatted(p.civilite), Formatted(p.prenom);
    var r := civ + " " + pre + " " + p.nom;
    assert r[|r| - |p.nom|..] == p.nom;
    assert r[..|civ|] == civ;
    r
  }

  /** The identities of the natural-person Jurica parties, in order. */
  function JuricaSentences(ps: seq<JuricaParty>): (r: seq<string>)
    ensures |r| <= |ps|
    ensures forall s :: s in r <==> exists p :: p in ps && p.typePersonne == PP && s == p.identite
  {
    if |ps| == 0 then []
    else
      var rest := JuricaSentences(ps[1..]);
      assert forall p :: p in ps <==> p == ps[0] || p in ps[1..];
      (if ps[0].typePersonne == PP then [ps[0].identite] else []) + rest
  }

  /** The sentences of the natural-person JuriTJ parties, in order. */
  function JuritjSentences(ps: seq<JuritjParty>): (r: seq<string>)
    ensures |r| <= |ps|
    ensures forall s :: s in r <==> exists p :: p in ps && p.partyType == PP && s == JuritjSentence(p)
  {
    if |ps| == 0 then []
    else
      var rest := JuritjSentences(ps[1..]);
      assert forall p :: p in ps <==> p == ps[0] || p in ps[1..];
      (if ps[0].partyType == PP then [JuritjSentence(ps[0])] else []) + rest
  }

  /** The texts of the spans labelled as natural persons. */
  function PersonTexts(spans: seq<TaggedSpan>): (r: seq<string>)
    ensures forall t :: t in r <==> TaggedSpan(t, PersonLabel) in spans
  {
    if |spans| == 0 then []
    else
      var rest := PersonTexts(spans[1..]);
      assert forall x :: x in spans <==> x == spans[0] || x in spans[1..];
      (if spans[0].tag == PersonLabel then [spans[0].text] else []) + rest
  }

  /** The person texts of every sentence, sentence after sentence. */
  function PersonSpans(sentences: seq<string>, tag: string -> seq<TaggedSpan>): seq<string> {
    if |sentences| == 0 then [] else PersonTexts(tag(sentences[0])) + PersonSpans(sentences[1..], tag)
  }

  /** A name is collected exactly when the tagger labels it a natural
      person in one of the sentences. */
  lemma {:induction false} PersonSpansIff(sentences: seq<string>, tag: string -> seq<TaggedSpan>, t: string)
    ensures t in PersonSpans(sentences, tag) <==>
      exists s :: s in sentences && TaggedSpan(t, PersonLabel) in tag(s)
  {
    if |sentences| > 0 {
      PersonSpansIff(sentences[1..], tag, t);
      assert forall s :: s in sentences <==> s == sentences[0] || s in sentences[1..];
    }
  }

  lemma PersonSpansIffAll(sentences: seq<string>, tag: string -> seq<TaggedSpan>)
    ensures forall t :: t in PersonSpans(sentences, tag) <==>
      exists s :: s in sentences && TaggedSpan(t, PersonLabel) in tag(s)
  {
    forall t {
      PersonSpansIff(sentences, tag, t);
    }
  }

  /** `_parse_metadata`: the person-labelled spans as (text, entity) rows,
      duplicates dropped. The entity column is constant, so a row is
      determined by its text. */
  function ParseMetadata(sentences: seq<string>, tag: string -> seq<TaggedSpan>): (r: seq<string>)
    ensures forall t :: t in r <==> exists s :: s in sentences && TaggedSpan(t, PersonLabel) in tag(s)
    ensures forall i, j :: 0 <= i < j < |r| ==> r[i] != r[j]
  {
    PersonSpansIffAll(sentences, tag);
    Distinct(PersonSpans(sentences, tag))
  }

  /** `PreProcess.__init__`: the normalised text, and the metadata read by
      the branch of the decision's source. */
  function PreProcess(d: Decision, tag: string -> seq<TaggedSpan>): (r: Result<Preprocessed, PreprocessError>)
    ensures r.Err? <==> d.parties.Some? && !NoParties(d.parties.value) && !ShapeFits(d.sourceName, d.parties.value)
    ensures r.Ok? ==> r.value.text == ReplaceSpecificEncoding(d.text)
    ensures r.Ok? ==> (r.value.metadata.None? <==> d.parties.None? || NoParties(d.parties.value))
    ensures r.Ok? && d.sourceName == Jurinet && r.value.metadata.Some? ==>
      r.value.metadata == Some(Table(d.parties.value.rows))
    ensures r.Ok? && d.sourceName != Jurinet && r.value.metadata.Some? ==> r.value.metadata.value.Names?
  {
    var text := ReplaceSpecificEncoding(d.text);
    match d.parties
    case None => Ok(Preprocessed(text, None))
    case Some(p) =>
      if NoParties(p) then Ok(Preprocessed(text, None))
      else
        match (d.sourceName, p)
        case (Jurinet, JurinetRows(rows)) => Ok(Preprocessed(text, Some(Table(rows))))
        case (Jurica, JuricaList(ps)) =>
          Ok(Preprocessed(text, Some(Names(ParseMetadata(JuricaSentences(ps), tag)))))
        case (Juritj, JuritjList(ps)) =>
          Ok(Preprocessed(text, Some(Names(ParseMetadata(JuritjSentences(ps), tag)))))
        case _ => Err(MismatchedParties(d.sourceName))
  }

  /** For Jurica, a name is in the metadata exactly when the tagger labels
      it a natural person in the identity of a natural-person party;
      parties of the other types contribute nothing. */
  lemma JuricaNamesIff(d: Decision, tag: string -> seq<TaggedSpan>, t: string)
    requires d.sourceName == Jurica && d.parties.Some? && d.parties.value.JuricaList?
    requires !NoParties(d.parties.value)
    ensures PreProcess(d, tag).Ok?
    ensures var m := PreProcess(d, tag).value.metadata;
      m.Some? && m.value.Names? &&
      (t in m.value.names <==>
        exists p :: p in d.parties.value.jurica && p.typePersonne == PP
                    && TaggedSpan(t, PersonLabel) in tag(p.identite))
  {
  }

  /** For JuriTJ, likewise with the formatted title, first name and name. */
  lemma JuritjNamesIff(d: Decision, tag: string -> seq<TaggedSpan>, t: string)
    requires d.sourceName == Juritj && d.parties.Some? && d.parties.value.JuritjList?
    requires !NoParties(d.parties.value)
    ensures PreProcess(d, tag).Ok?
    ensures var m := PreProcess(d, tag).value.metadata;
      m.Some? && m.value.Names? &&
      (t in m.value.names <==>
        exists p :: p in d.parties.value.juritj && p.partyType == PP
                    && TaggedSpan(t, PersonLabel) in tag(JuritjSentence(p)))
  {
  }

  /** A party that is not a natural person leaves the sentences, and so
      the names, unchanged. */
  lemma {:induction false} JuricaOthersIgnored(ps: seq<JuricaParty>, p: JuricaParty)
    requires p.typePersonne != PP
    ensures JuricaSentences(ps + [p]) == JuricaSentences(ps)
  {
    if |ps| > 0 {
      assert (ps + [p])[1..] == ps[1..] + [p];
      JuricaOthersIgnored(ps[1..], p);
    } else {
      assert (ps + [p])[1..] == [];
    }
  }

  /** A JuriTJ party with the default title is tagged as a leading
      space, the first name and the name. */
  lemma JuritjDefaultTitle()
    ensures JuritjSentence(JuritjParty(PP, "Dupont", Some("Paul"), Some(""))) == " Paul Dupont"
  {
    var p := JuritjParty(PP, "Dupont", Some("Paul"), Some(""));
    assert Formatted(p.civilite) == "" && Formatted(p.prenom) == "Paul";
    assert JuritjSentence(p) == "" + " " + "Paul" + " " + "Dupont";
  }

  /** Null title and first name are tagged as the word "None". */
  lemma JuritjNullsPrinted()
    ensures JuritjSentence(JuritjParty(PP, "Dupont", None, None)) == "None None Dupont"
  {
    var p := JuritjParty(PP, "Dupont", None, None);
    assert Formatted(p.civilite) == "None" && Formatted(p.prenom) == "None";
    assert JuritjSentence(p) == "None" + " " + "None" + " " + "Dupont";
  }
}
