/** The token labelling of `JuriLoss` (`juritools/juriloss.py`): the
    annotator's final annotations and the model's first predictions are
    each turned into one BIO tag per token, the form the loss compares.
    Annotations are entities; a token is given by its start offset. */
module JuriLoss {
  import opened Base
  import opened Types
  import opened Ordering

  /** A BIO tag: outside every entity, at an entity's start, or inside it. */
  datatype Tag = Outside | Begin(category: Category) | Inside(category: Category)

  /** The tag as the tagger's label dictionary spells it. */
  function TagText(t: Tag): (r: string)
    ensures t.Outside? <==> r == "O"
    ensures t.Begin? ==> StartsWith(r, "B-") && r[2..] == CategoryValue(t.category)
    ensures t.Inside? ==> StartsWith(r, "I-") && r[2..] == CategoryValue(t.category)
  {
    match t
    case Outside => "O"
    case Begin(c) => "B-" + CategoryValue(c)
    case Inside(c) => "I-" + CategoryValue(c)
  }

  /** One round of annotation of the decision. */
  datatype Treatment = Treatment(annotations: seq<Entity>)

  /** The two annotation lists the loss compares. */
  datatype Compared = Compared(gold: seq<Entity>, pred: seq<Entity>)

  /** `len(cat.split("-")) == 2 and cat.startswith("B")`. */
  predicate IsBeginLabel(l: string) {
    |SplitOn(l, '-')| == 2 && StartsWith(l, "B")
  }

  /** The categories the model predicts: what follows the dash in each of
      its begin labels, in the dictionary's order. */
  function ModelCategories(labels: seq<string>): (r: seq<string>)
    ensures forall c :: c in r <==> exists l :: l in labels && IsBeginLabel(l) && SplitOn(l, '-')[1] == c
  {
    if |labels| == 0 then []
    else
      var rest := ModelCategories(labels[1..]);
      assert forall l :: l in labels <==> l == labels[0] || l in labels[1..];
      (if IsBeginLabel(labels[0]) then [SplitOn(labels[0], '-')[1]] else []) + rest
  }

  lemma {:induction false} SplitWithoutSeparator(s: string, sep: char)
    requires forall i :: 0 <= i < |s| ==> s[i] != sep
    ensures SplitOn(s, sep) == [s]
  {
    if |s| > 0 {
      SplitWithoutSeparator(s[1..], sep);
      assert [s[0]] + s[1..] == s;
    }
  }

  /** A begin label of a dash-free category splits back into that category. */
  lemma BeginLabelCategory(v: string)
    requires '-' !in v
    ensures IsBeginLabel("B-" + v) && SplitOn("B-" + v, '-')[1] == v
  {
    var l := "B-" + v;
    var rest := l[1..];
    SplitWithoutSeparator(v, '-');
    assert rest[0] == '-' && rest[1..] == v;
    assert SplitOn(rest, '-') == ["", v];
    assert l[0] == 'B' && l[1..] == rest;
    assert SplitOn(l, '-') == [[l[0]] + ""] + [v];
    assert [l[0]] + "" == "B";
    assert StartsWith(l, "B");
  }

  /** The begin tag of every category of `cs` yields that category's name:
      the model categories of a tagger trained on `cs` are their names. */
  lemma BeginTagsRoundTrip(cs: seq<Category>, c: Category)
    requires c in cs
    ensures CategoryValue(c) in ModelCategories(seq(|cs|, k requires 0 <= k < |cs| => TagText(Begin(cs[k]))))
  {
    var labels := seq(|cs|, k requires 0 <= k < |cs| => TagText(Begin(cs[k])));
    var k :| 0 <= k < |cs| && cs[k] == c;
    CategoryValueNoDash(c);
    BeginLabelCategory(CategoryValue(c));
    assert labels[k] in labels;
  }

  /** No category name contains a dash. */
  lemma CategoryValueNoDash(c: Category)
    ensures '-' !in CategoryValue(c)
  {
    if c.Adresse? || c.Cadastre? || c.Email? || c.PersonneMorale? || c.PersonnePhysicoMorale? {
      NoDashIn1(c);
    } else if c.PersonnePhysique? || c.ProfessionnelAvocat? || c.ProfessionnelMagistratGreffier? || c.DateNaissance? || c.DateDeces? {
      NoDashIn2(c);
    } else if c.DateMariage? || c.NumeroIdentifiant? || c.PlaqueImmatriculation? || c.CompteBancaire? || c.Localite? {
      NoDashIn3(c);
    } else {
      NoDashIn4(c);
    }
  }

  lemma NoDashIn1(c: Category)
    requires c.Adresse? || c.Cadastre? || c.Email? || c.PersonneMorale? || c.PersonnePhysicoMorale?
    ensures '-' !in CategoryValue(c)
  {
  }

  lemma NoDashIn2(c: Category)
    requires c.PersonnePhysique? || c.ProfessionnelAvocat? || c.ProfessionnelMagistratGreffier? || c.DateNaissance? || c.DateDeces?
    ensures '-' !in CategoryValue(c)
  {
  }

  lemma NoDashIn3(c: Category)
    requires c.DateMariage? || c.NumeroIdentifiant? || c.PlaqueImmatriculation? || c.CompteBancaire? || c.Localite?
    ensures '-' !in CategoryValue(c)
  {
  }

  lemma NoDashIn4(c: Category)
    requires c.NumeroSiretSiren? || c.AnnotationSupplementaire? || c.SiteWebSensible? || c.Etablissement? || c.TelephoneFax?
    ensures '-' !in CategoryValue(c)
  {
  }

  /** Annotations of one of the model's categories, in their order and with
      their repetitions: the result reads `es` at the ascending indices of
      those annotations. */
  function OfModel(es: seq<Entity>, cats: seq<string>): (r: seq<Entity>)
    ensures forall e :: e in r <==> e in es && CategoryValue(e.category) in cats
    ensures var ix := PassIndices(es, (e: Entity) => CategoryValue(e.category) in cats);
      |r| == |ix| && forall k :: 0 <= k < |r| ==> r[k] == es[ix[k]]
  {
    FilterAtPassIndices(es, (e: Entity) => CategoryValue(e.category) in cats);
    Filter(es, (e: Entity) => CategoryValue(e.category) in cats)
  }

  /** Keeping a subsequence keeps the order by start. */
  lemma {:induction false} FilterKeepsSorted(s: seq<Entity>, p: Entity -> bool)
    requires SortedBy(s, false)
    ensures SortedBy(Filter(s, p), false)
  {
    if |s| > 0 {
      var tail := s[1..];
      assert SortedBy(tail, false);
      FilterKeepsSorted(tail, p);
      if p(s[0]) {
        var r := Filter(s, p);
        var rest := Filter(tail, p);
        assert r == [s[0]] + rest;
        forall j | 0 < j < |r| ensures s[0].start <= r[j].start {
          assert r[j] in rest;
          var m :| 0 <= m < |tail| && tail[m] == r[j];
          assert s[m + 1] == r[j];
        }
      }
    }
  }

  /** Gold is the last treatment's annotations sorted by start, predictions
      the first treatment's; both are narrowed to the model's categories
      when asked. No treatment at all raises. */
  function Compare(treatments: seq<Treatment>, labels: seq<string>, onlyModelCategory: bool): (r: Option<Compared>)
    ensures r.None? <==> |treatments| == 0
    ensures r.Some? ==> SortedBy(r.value.gold, false)
    ensures r.Some? && !onlyModelCategory ==>
      multiset(r.value.gold) == multiset(treatments[|treatments| - 1].annotations)
      && r.value.pred == treatments[0].annotations
    ensures r.Some? && onlyModelCategory ==>
      forall e :: (e in r.value.gold <==>
                   e in treatments[|treatments| - 1].annotations && CategoryValue(e.category) in ModelCategories(labels))
                  && (e in r.value.pred <==>
                   e in treatments[0].annotations && CategoryValue(e.category) in ModelCategories(labels))
    ensures r.Some? && onlyModelCategory ==>
      r.value.gold == OfModel(SortByStart(treatments[|treatments| - 1].annotations, false), ModelCategories(labels))
      && r.value.pred == OfModel(treatments[0].annotations, ModelCategories(labels))
  {
    if |treatments| == 0 then None
    else
      var last := treatments[|treatments| - 1].annotations;
      var gold := SortByStart(last, false);
      var pred := treatments[0].annotations;
      SortPermutes(last, false);
      SortSorts(last, false);
      if onlyModelCategory then
        var cats := ModelCategories(labels);
        FilterKeepsSorted(gold, (e: Entity) => CategoryValue(e.category) in cats);
        assert forall e :: e in gold <==> e in multiset(last);
        Some(Compared(OfModel(gold, cats), OfModel(pred, cats)))
      else
        Some(Compared(gold, pred))
  }

  /** The token at `pos` meets the entity: it starts with it, or strictly
      inside it. */
  predicate Hits(e: Entity, pos: int) {
    pos == e.start || e.start < pos < e.start + |e.text|
  }

  /** The tag an entity that the token meets gives it. */
  function HitTag(e: Entity, pos: int): Tag {
    if pos == e.start then Begin(e.category) else Inside(e.category)
  }

  /** `k` is the first entity in list order that the token meets. */
  predicate FirstHit(es: seq<Entity>, pos: int, k: int) {
    0 <= k < |es| && Hits(es[k], pos) && forall j :: 0 <= j < k ==> !Hits(es[j], pos)
  }

  /** The `for ... break ... else` loop over the annotations for one token. */
  function BioTag(pos: int, es: seq<Entity>): Tag {
    if |es| == 0 then Outside
    else if pos == es[0].start then Begin(es[0].category)
    else if es[0].start < pos < es[0].start + |es[0].text| then Inside(es[0].category)
    else BioTag(pos, es[1..])
  }

  /** A token is outside exactly when it meets no annotation; otherwise
      the first annotation it meets decides between begin and inside. */
  lemma {:induction false} BioTagFirstHit(pos: int, es: seq<Entity>)
    ensures BioTag(pos, es) == Outside <==> forall k :: 0 <= k < |es| ==> !Hits(es[k], pos)
    ensures forall k :: FirstHit(es, pos, k) ==> BioTag(pos, es) == HitTag(es[k], pos)
  {
    if |es| > 0 {
      BioTagFirstHit(pos, es[1..]);
      forall k | FirstHit(es, pos, k) ensures BioTag(pos, es) == HitTag(es[k], pos) {
        if k > 0 {
          assert !Hits(es[0], pos);
          assert FirstHit(es[1..], pos, k - 1) by {
            forall j | 0 <= j < k - 1 ensures !Hits(es[1..][j], pos) {
              assert es[1..][j] == es[j + 1];
            }
          }
        }
      }
      if !Hits(es[0], pos) {
        forall k | 0 <= k < |es[1..]| ensures es[1..][k] == es[k + 1] { }
      }
    }
  }

  /** Both labels of one token. */
  datatype TokenLabels = TokenLabels(annotator: Tag, ner: Tag)

  /** The labels of every token of every sentence, tokens given by their
      start offsets; `None` when there is no treatment. */
  function LabelTokens(sentences: seq<seq<int>>, treatments: seq<Treatment>, labels: seq<string>,
                       onlyModelCategory: bool): (r: Option<seq<seq<TokenLabels>>>)
    ensures r.None? <==> |treatments| == 0
    ensures r.Some? ==> |r.value| == |sentences| && forall s :: 0 <= s < |sentences| ==> |r.value[s]| == |sentences[s]|
  {
    match Compare(treatments, labels, onlyModelCategory)
    case None => None
    case Some(c) =>
      Some(seq(|sentences|, s requires 0 <= s < |sentences| =>
        seq(|sentences[s]|, t requires 0 <= t < |sentences[s]| =>
          TokenLabels(BioTag(sentences[s][t], c.gold), BioTag(sentences[s][t], c.pred)))))
  }

  /** A token's annotator tag is a begin tag exactly when the first gold
      annotation it meets starts with it, and outside exactly when it meets
      none; likewise for the model's tag and the predictions. */
  lemma LabelTokensFirstHit(sentences: seq<seq<int>>, treatments: seq<Treatment>, labels: seq<string>,
                            onlyModelCategory: bool, s: int, t: int)
    requires |treatments| > 0 && 0 <= s < |sentences| && 0 <= t < |sentences[s]|
    ensures var c := Compare(treatments, labels, onlyModelCategory).value;
      var pos := sentences[s][t];
      var l := LabelTokens(sentences, treatments, labels, onlyModelCategory).value[s][t];
      (l.annotator == Outside <==> forall k :: 0 <= k < |c.gold| ==> !Hits(c.gold[k], pos))
      && (forall k :: FirstHit(c.gold, pos, k) ==> l.annotator == HitTag(c.gold[k], pos))
      && (l.ner == Outside <==> forall k :: 0 <= k < |c.pred| ==> !Hits(c.pred[k], pos))
      && (forall k :: FirstHit(c.pred, pos, k) ==> l.ner == HitTag(c.pred[k], pos))
  {
    var c := Compare(treatments, labels, onlyModelCategory).value;
    BioTagFirstHit(sentences[s][t], c.gold);
    BioTagFirstHit(sentences[s][t], c.pred);
  }
}
