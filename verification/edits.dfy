/** The edits the correction rules make to the entity list: relabelling in
    place, and replacing an entity by the pieces found inside it (the
    replaced entity is deleted, the pieces are appended at the end). */
module Edits {
  import opened Base
  import opened Types

  /** `entity.label = c; entity.source = "postprocess"`. */
  function Relabel(e: Entity, c: Category): (r: Entity)
    ensures r.text == e.text && r.start == e.start && r.End() == e.End()
    ensures r.category == c && r.source == PostProcess
  {
    e.(category := c, source := PostProcess)
  }

  /** Every entity the rule fires on is relabelled in place; the others, and
      the order, are kept. */
  function RelabelWhere(es: seq<Entity>, fires: Entity -> bool, c: Category): (r: seq<Entity>)
    ensures |r| == |es|
    ensures forall i :: 0 <= i < |es| ==> r[i] == (if fires(es[i]) then Relabel(es[i], c) else es[i])
  {
    seq(|es|, i requires 0 <= i < |es| => if fires(es[i]) then Relabel(es[i], c) else es[i])
  }

  /** A rule whose relabelled entities no longer fire is idempotent. */
  lemma RelabelWhereIdempotent(es: seq<Entity>, fires: Entity -> bool, c: Category)
    requires forall e :: fires(e) ==> !fires(Relabel(e, c))
    ensures RelabelWhere(RelabelWhere(es, fires, c), fires, c) == RelabelWhere(es, fires, c)
  {
  }

  /** Relabelling keeps every span, so entities read from the document stay so. */
  lemma RelabelWhereInDocument(es: seq<Entity>, fires: Entity -> bool, c: Category, doc: string)
    requires AllInDocument(es, doc)
    ensures AllInDocument(RelabelWhere(es, fires, c), doc)
  {
  }

  /** Every entity's text is the document's text at its offsets. */
  predicate AllInDocument(es: seq<Entity>, doc: string) {
    forall i :: 0 <= i < |es| ==> InDocument(es[i], doc)
  }

  /** The entities with no pieces, in order. */
  function Kept(es: seq<Entity>, pieces: Entity -> seq<Entity>): (r: seq<Entity>)
    ensures |r| <= |es|
  {
    if |es| == 0 then []
    else (if pieces(es[0]) == [] then [es[0]] else []) + Kept(es[1..], pieces)
  }

  /** The entities with pieces, in order: those the rule deletes. */
  function Replaced(es: seq<Entity>, pieces: Entity -> seq<Entity>): (r: seq<Entity>)
    ensures |r| <= |es|
  {
    if |es| == 0 then []
    else (if pieces(es[0]) != [] then [es[0]] else []) + Replaced(es[1..], pieces)
  }

  /** All pieces, entity after entity. */
  function Added(es: seq<Entity>, pieces: Entity -> seq<Entity>): seq<Entity> {
    if |es| == 0 then [] else pieces(es[0]) + Added(es[1..], pieces)
  }

  /** The pieces are appended, then every entity that had pieces is deleted
      (by index, from the last one, so the indices stay valid). */
  function Explode(es: seq<Entity>, pieces: Entity -> seq<Entity>): (r: seq<Entity>)
    ensures |r| + |Replaced(es, pieces)| == |es| + PieceCount(es, pieces)
  {
    KeptAndReplaced(es, pieces);
    AddedLength(es, pieces);
    Kept(es, pieces) + Added(es, pieces)
  }

  /** Every entity is either kept or deleted, exactly once. */
  lemma {:induction false} KeptAndReplaced(es: seq<Entity>, pieces: Entity -> seq<Entity>)
    ensures multiset(Kept(es, pieces)) + multiset(Replaced(es, pieces)) == multiset(es)
    ensures |Kept(es, pieces)| + |Replaced(es, pieces)| == |es|
  {
    if |es| > 0 {
      KeptAndReplaced(es[1..], pieces);
      assert es == [es[0]] + es[1..];
    }
  }

  /** An entity is deleted exactly when it has pieces. */
  lemma {:induction false} ReplacedIff(es: seq<Entity>, pieces: Entity -> seq<Entity>, e: Entity)
    ensures e in Replaced(es, pieces) <==> e in es && pieces(e) != []
    ensures e in Kept(es, pieces) <==> e in es && pieces(e) == []
  {
    if |es| > 0 {
      ReplacedIff(es[1..], pieces, e);
      assert es == [es[0]] + es[1..];
    }
  }

  /** When nothing has pieces the list is unchanged. */
  lemma {:induction false} ExplodeNothing(es: seq<Entity>, pieces: Entity -> seq<Entity>)
    requires forall i :: 0 <= i < |es| ==> pieces(es[i]) == []
    ensures Explode(es, pieces) == es
  {
    if |es| > 0 {
      ExplodeNothing(es[1..], pieces);
      assert es == [es[0]] + es[1..];
    }
  }

  /** The number of entities afterwards: the kept ones plus all pieces. */
  lemma {:induction false} AddedLength(es: seq<Entity>, pieces: Entity -> seq<Entity>)
    ensures |Added(es, pieces)| == PieceCount(es, pieces)
  {
    if |es| > 0 {
      AddedLength(es[1..], pieces);
    }
  }

  function PieceCount(es: seq<Entity>, pieces: Entity -> seq<Entity>): nat {
    if |es| == 0 then 0 else |pieces(es[0])| + PieceCount(es[1..], pieces)
  }

  /** If every entity, and every piece of every entity, is read from the
      document, so is every entity afterwards. */
  lemma {:induction false} ExplodeInDocument(es: seq<Entity>, pieces: Entity -> seq<Entity>, doc: string)
    requires AllInDocument(es, doc)
    requires forall i :: 0 <= i < |es| ==> AllInDocument(pieces(es[i]), doc)
    ensures AllInDocument(Kept(es, pieces), doc)
    ensures AllInDocument(Added(es, pieces), doc)
    ensures AllInDocument(Explode(es, pieces), doc)
  {
    if |es| > 0 {
      var tail := es[1..];
      assert AllInDocument(tail, doc) by {
        forall i | 0 <= i < |tail| ensures InDocument(tail[i], doc) {
          assert tail[i] == es[i + 1];
        }
      }
      forall i | 0 <= i < |tail| ensures AllInDocument(pieces(tail[i]), doc) {
        assert tail[i] == es[i + 1];
      }
      ExplodeInDocument(tail, pieces, doc);
      assert AllInDocument(pieces(es[0]), doc);
    }
    AllInDocumentConcat(Kept(es, pieces), Added(es, pieces), doc);
  }

  lemma AllInDocumentConcat(a: seq<Entity>, b: seq<Entity>, doc: string)
    requires AllInDocument(a, doc) && AllInDocument(b, doc)
    ensures AllInDocument(a + b, doc)
  {
    forall i | 0 <= i < |a + b| ensures InDocument((a + b)[i], doc) {
      if i >= |a| {
        assert (a + b)[i] == b[i - |a|];
      }
    }
  }
}
