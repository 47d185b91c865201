/** The AZERTY-aware weighted edit distance of `juritools.utils.azertypo`.
    Keys sit on an integer grid (row, column); two keys are typo neighbours
    when their grid distance is at most 1. Costs are kept in integer
    half-units: substituting a neighbour costs 1 (0.5 in the source), any
    other substitution, insertion or deletion costs 2 (1.0). */
module Azertypo {
  import opened Base

  /** The grid position of a key in the table with accents (`AZERTY`).
      The source builds no neighbour from this table. */
  function AccentedPosition(c: char): Option<(int, int)> {
    match c
    case 'é' => Some((1, 2)) case 'è' => Some((1, 2)) case 'ê' => Some((1, 2)) case 'ë' => Some((1, 2))
    case 'ù' => Some((1, 6)) case 'û' => Some((1, 6)) case 'î' => Some((1, 7)) case 'ï' => Some((1, 7))
    case 'ô' => Some((1, 8)) case 'ö' => Some((1, 8)) case 'à' => Some((1, 0)) case 'â' => Some((1, 0))
    case 'ÿ' => Some((1, 5)) case 'ç' => Some((3, 2)) case 'ñ' => Some((3, 5))
    case _ => Position(c)
  }

  /** The grid position of a key in the table without accents (`AZERTY_NO_ACCENT`). */
  function Position(c: char): Option<(int, int)> {
    match c
    case 'a' => Some((1, 0)) case 'z' => Some((1, 1)) case 'e' => Some((1, 2)) case 'r' => Some((1, 3))
    case 't' => Some((1, 4)) case 'y' => Some((1, 5)) case 'u' => Some((1, 6)) case 'i' => Some((1, 7))
    case 'o' => Some((1, 8)) case 'p' => Some((1, 9))
    case 'q' => Some((2, 0)) case 's' => Some((2, 1)) case 'd' => Some((2, 2)) case 'f' => Some((2, 3))
    case 'g' => Some((2, 4)) case 'h' => Some((2, 5)) case 'j' => Some((2, 6)) case 'k' => Some((2, 7))
    case 'l' => Some((2, 8)) case 'm' => Some((2, 9))
    case 'w' => Some((3, 0)) case 'x' => Some((3, 1)) case 'c' => Some((3, 2)) case 'v' => Some((3, 3))
    case 'b' => Some((3, 4)) case 'n' => Some((3, 5))
    case _ => None
  }

  /** The key at a grid position of the table without accents, if any. */
  function KeyAt(p: (int, int)): Option<char> {
    var (r, c) := p;
    if r == 1 && 0 <= c <= 9 then Some("azertyuiop"[c])
    else if r == 2 && 0 <= c <= 9 then Some("qsdfghjklm"[c])
    else if r == 3 && 0 <= c <= 5 then Some("wxcvbn"[c])
    else None
  }

  /** Distinct keys sit at distinct positions. */
  lemma PositionInjective(c: char)
    requires Position(c).Some?
    ensures KeyAt(Position(c).value) == Some(c)
  {
  }

  function SquaredDistance(p: (int, int), q: (int, int)): nat {
    (p.0 - q.0) * (p.0 - q.0) + (p.1 - q.1) * (p.1 - q.1)
  }

  /** `azerty_typo_dict[a]`: the keys other than `a` within grid distance 1;
      empty for a character with no position (the dictionary's default). */
  predicate Neighbours(a: char, b: char) {
    && Position(a).Some? && Position(b).Some? && a != b
    && SquaredDistance(Position(a).value, Position(b).value) <= 1
  }

  /** Two keys are neighbours exactly when their grid positions differ by one
      step along a row or a column. */
  lemma NeighboursIffUnitStep(a: char, b: char)
    ensures Neighbours(a, b) <==>
      Position(a).Some? && Position(b).Some? &&
      SquaredDistance(Position(a).value, Position(b).value) == 1
  {
    if Position(a).Some? && Position(b).Some? && a != b {
      var p, q := Position(a).value, Position(b).value;
      PositionInjective(a);
      PositionInjective(b);
      assert p != q;
      DistinctPointsApart(p, q);
    }
  }

  lemma DistinctPointsApart(p: (int, int), q: (int, int))
    requires p != q
    ensures SquaredDistance(p, q) >= 1
  {
    var dr, dc := p.0 - q.0, p.1 - q.1;
    assert dr * dr >= 0 && dc * dc >= 0;
    if dr != 0 {
      assert dr * dr >= 1 by {
        if dr > 0 { assert dr * dr >= dr; } else { assert dr * dr >= -dr; }
      }
    } else {
      assert dc != 0;
      assert dc * dc >= 1 by {
        if dc > 0 { assert dc * dc >= dc; } else { assert dc * dc >= -dc; }
      }
    }
  }

  /** The neighbour relation is symmetric and irreflexive. */
  lemma NeighboursSymmetricIrreflexive(a: char, b: char)
    ensures Neighbours(a, b) <==> Neighbours(b, a)
    ensures !Neighbours(a, a)
  {
  }

  /** Only unaccented lower-case letters have neighbours: the accented
      table plays no part, so e.g. 'é' has a position there but no neighbour. */
  lemma OnlyPlainLettersHaveNeighbours(a: char, b: char)
    requires Neighbours(a, b)
    ensures IsAsciiLower(a) && IsAsciiLower(b)
  {
  }

  lemma AccentedKeysHaveNoNeighbour(b: char)
    ensures AccentedPosition('é').Some? && !Neighbours('é', b)
  {
  }

  /** `substitution_cost(a, b)` in half-units. */
  function SubstitutionCost(a: char, b: char): nat {
    if Neighbours(a, b) then 1 else 2
  }

  /** `insertion_cost` and `deletion_cost` in half-units. */
  const InsertionCost: nat := 2
  const DeletionCost: nat := 2

  /** The cost of aligning two characters: nothing when they are equal (the
      edit-distance algorithm only asks for a substitution cost otherwise). */
  function AlignCost(a: char, b: char): nat {
    if a == b then 0 else SubstitutionCost(a, b)
  }

  function Min3(x: nat, y: nat, z: nat): (m: nat)
    ensures m <= x && m <= y && m <= z
    ensures m == x || m == y || m == z
  {
    if x <= y && x <= z then x else if y <= z then y else z
  }

  /** The weighted Levenshtein distance in half-units, defined on prefixes
      exactly as the dynamic-programming recurrence fills its table. */
  function Distance(s: string, t: string): nat
    decreases |s| + |t|
  {
    if |s| == 0 then InsertionCost * |t|
    else if |t| == 0 then DeletionCost * |s|
    else
      var i := |s| - 1;
      var j := |t| - 1;
      Min3(Distance(s[..i], t) + DeletionCost,
           Distance(s, t[..j]) + InsertionCost,
           Distance(s[..i], t[..j]) + AlignCost(s[i], t[j]))
  }

  /** The distance is symmetric, since substitution costs are. */
  lemma {:induction false} DistanceSymmetric(s: string, t: string)
    ensures Distance(s, t) == Distance(t, s)
    decreases |s| + |t|
  {
    if |s| > 0 && |t| > 0 {
      var i := |s| - 1;
      var j := |t| - 1;
      DistanceSymmetric(s[..i], t);
      DistanceSymmetric(s, t[..j]);
      DistanceSymmetric(s[..i], t[..j]);
      NeighboursSymmetricIrreflexive(s[i], t[j]);
    }
  }

  /** A string is at distance 0 from itself, and only from itself. */
  lemma {:induction false} DistanceZeroIffEqual(s: string, t: string)
    ensures Distance(s, t) == 0 <==> s == t
    decreases |s| + |t|
  {
    if |s| > 0 && |t| > 0 {
      var i := |s| - 1;
      var j := |t| - 1;
      DistanceZeroIffEqual(s[..i], t[..j]);
      if s == t {
        assert s[..i] == t[..j];
      }
      if Distance(s, t) == 0 {
        assert s == s[..i] + [s[i]] && t == t[..j] + [t[j]];
      }
    }
  }

  /** The distance never exceeds two half-units per character of the longer string. */
  lemma {:induction false} DistanceBounded(s: string, t: string)
    ensures Distance(s, t) <= 2 * (if |s| >= |t| then |s| else |t|)
    decreases |s| + |t|
  {
    if |s| > 0 && |t| > 0 {
      DistanceBounded(s[..|s| - 1], t[..|t| - 1]);
    }
  }

  /** strsimpy's `WeightedLevenshtein.distance`: two rolling rows of the
      dynamic-programming table. */
  method WeightedDistance(s: string, t: string) returns (d: nat)
    ensures d == Distance(s, t)
  {
    if s == t {
      DistanceZeroIffEqual(s, t);
      return 0;
    }
    if |s| == 0 {
      return InsertionCost * |t|;
    }
    if |t| == 0 {
      return DeletionCost * |s|;
    }
    var prev: seq<nat> := seq(|t| + 1, j requires 0 <= j <= |t| => InsertionCost * j);
    assert forall j :: 0 <= j <= |t| ==> prev[j] == Distance(s[..0], t[..j]);
    var i := 0;
    while i < |s|
      invariant 0 <= i <= |s|
      invariant |prev| == |t| + 1
      invariant forall j :: 0 <= j <= |t| ==> prev[j] == Distance(s[..i], t[..j])
    {
      prev := NextRow(s, t, i, prev);
      i := i + 1;
    }
    assert s[..|s|] == s && t[..|t|] == t;
    d := prev[|t|];
  }

  /** One row of the table from the previous one. */
  method NextRow(s: string, t: string, i: int, prev: seq<nat>) returns (cur: seq<nat>)
    requires 0 <= i < |s| && |prev| == |t| + 1
    requires forall j :: 0 <= j <= |t| ==> prev[j] == Distance(s[..i], t[..j])
    ensures |cur| == |t| + 1
    ensures forall j :: 0 <= j <= |t| ==> cur[j] == Distance(s[..i + 1], t[..j])
  {
    cur := [prev[0] + DeletionCost];
    assert s[..i + 1][..i] == s[..i];
    var j := 0;
    while j < |t|
      invariant 0 <= j <= |t|
      invariant |cur| == j + 1
      invariant forall k :: 0 <= k <= j ==> cur[k] == Distance(s[..i + 1], t[..k])
    {
      var cost := AlignCost(s[i], t[j]);
      var next := Min3(cur[j] + InsertionCost, prev[j + 1] + DeletionCost, prev[j] + cost);
      assert t[..j + 1][..j] == t[..j];
      assert next == Distance(s[..i + 1], t[..j + 1]);
      cur := cur + [next];
      j := j + 1;
    }
  }

  /** `azerty_levenshtein_similarity` as the exact fraction
      (2·max − distance) / (2·max); the source divides by zero, and so fails,
      when both strings are empty. */
  function Similarity(s: string, t: string): (r: Option<(nat, nat)>)
    ensures r.None? <==> |s| == 0 && |t| == 0
    ensures r.Some? ==> 0 < r.value.1 && r.value.0 <= r.value.1
    ensures r.Some? ==> (r.value.0 == r.value.1 <==> s == t)
  {
    var longest := if |s| >= |t| then |s| else |t|;
    if longest == 0 then None
    else
      DistanceBounded(s, t);
      DistanceZeroIffEqual(s, t);
      Some((2 * longest - Distance(s, t), 2 * longest))
  }

  /** Similarity does not depend on the order of its arguments. */
  lemma SimilaritySymmetric(s: string, t: string)
    ensures Similarity(s, t) == Similarity(t, s)
  {
    DistanceSymmetric(s, t);
  }
}
