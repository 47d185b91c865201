/** The accent folder of `juritools.utils.deaccent`: a fixed table maps each
    accented letter to its unaccented base letter; the source applies one
    regex substitution per table entry, in table order. */
module Accents {
  import opened Base

  /** The source's mapping, base letter first, in the source's order. */
  const Table: seq<(char, string)> := [
    ('A', "ÀÁÂÃÄÅÆ"),
    ('C', "Ç"),
    ('E', "ÈÉÊË"),
    ('I', "ÌÍÎÏ"),
    ('N', "Ñ"),
    ('O', "ÒÓÔÕÖ"),
    ('U', "ÙÚÛÜ"),
    ('Y', "Ý"),
    ('a', "àáâãäåæ"),
    ('c', "ç"),
    ('e', "èéêë"),
    ('i', "ìíîï"),
    ('n', "ñ"),
    ('o', "òóôõö"),
    ('u', "ùúûüũ"),
    ('y', "ýŷÿ")
  ]

  /** One `re.sub(rf"[{accents}]", letter, text)` step. */
  function SubstituteClass(s: string, accents: string, letter: char): (r: string)
    ensures |r| == |s|
    ensures forall i :: 0 <= i < |s| ==> r[i] == (if s[i] in accents then letter else s[i])
  {
    seq(|s|, i requires 0 <= i < |s| => if s[i] in accents then letter else s[i])
  }

  /** The source's loop: the substitutions applied one after another. */
  function DeaccentBySteps(s: string, table: seq<(char, string)>): string
    decreases |table|
  {
    if |table| == 0 then s
    else DeaccentBySteps(SubstituteClass(s, table[0].1, table[0].0), table[1..])
  }

  /** What the loop does to a single character. */
  function FoldChar(table: seq<(char, string)>, c: char): char
  {
    if |table| == 0 then c
    else FoldChar(table[1..], if c in table[0].1 then table[0].0 else c)
  }

  /** The character-wise folding applied by `deaccent`. */
  function DeaccentChar(c: char): char {
    FoldChar(Table, c)
  }

  /** The accent folder, stated position by position. */
  function Deaccent(s: string): (r: string)
    ensures |r| == |s|
  {
    seq(|s|, i requires 0 <= i < |s| => DeaccentChar(s[i]))
  }

  /** Applying the substitutions in sequence is a character-wise map: the
      result at position i depends on the input at position i only. */
  lemma {:induction false} StepsArePointwise(s: string, table: seq<(char, string)>)
    ensures |DeaccentBySteps(s, table)| == |s|
    ensures forall i :: 0 <= i < |s| ==> DeaccentBySteps(s, table)[i] == FoldChar(table, s[i])
    decreases |table|
  {
    if |table| > 0 {
      var s' := SubstituteClass(s, table[0].1, table[0].0);
      StepsArePointwise(s', table[1..]);
    }
  }

  /** `deaccent` as written (one substitution per table entry, in order) is
      the character-wise folding `Deaccent`. */
  lemma DeaccentMatchesSource(s: string)
    ensures DeaccentBySteps(s, Table) == Deaccent(s)
  {
    StepsArePointwise(s, Table);
  }

  /** `c` is listed in some entry of `table`. */
  predicate Mapped(table: seq<(char, string)>, c: char) {
    |table| > 0 && (c in table[0].1 || Mapped(table[1..], c))
  }

  /** The characters `deaccent` replaces. */
  predicate IsAccented(c: char) {
    Mapped(Table, c)
  }

  /** The replacement letter of the first entry listing `c`. */
  function BaseLetter(table: seq<(char, string)>, c: char): char
  {
    if |table| == 0 then c
    else if c in table[0].1 then table[0].0
    else BaseLetter(table[1..], c)
  }

  /** An entry maps to an ASCII letter and lists only non-ASCII characters,
      upper-case ones for an upper-case letter and lower-case ones otherwise. */
  predicate EntryWellFormed(e: (char, string)) {
    && (IsAsciiUpper(e.0) || IsAsciiLower(e.0))
    && forall i :: 0 <= i < |e.1| ==> e.1[i] >= '\U{C0}' && (IsAsciiUpper(e.0) <==> IsLatinUpper(e.1[i]))
  }

  ghost predicate TableWellFormed(table: seq<(char, string)>) {
    forall k :: 0 <= k < |table| ==> EntryWellFormed(table[k])
  }

  lemma TableIsWellFormed()
    ensures TableWellFormed(Table)
  {
    UpperEntriesWellFormed();
    LowerEntriesWellFormed();
  }

  lemma UpperEntriesWellFormed()
    ensures forall k :: 0 <= k < 8 ==> EntryWellFormed(Table[k])
  {
    forall k | 0 <= k < 8 ensures EntryWellFormed(Table[k]) {
      if k == 0 {} else if k == 1 {} else if k == 2 {} else if k == 3 {}
      else if k == 4 {} else if k == 5 {} else if k == 6 {} else {}
    }
  }

  lemma LowerEntriesWellFormed()
    ensures forall k :: 8 <= k < 16 ==> EntryWellFormed(Table[k])
  {
    forall k | 8 <= k < 16 ensures EntryWellFormed(Table[k]) {
      if k == 8 {} else if k == 9 {} else if k == 10 {} else if k == 11 {}
      else if k == 12 {} else if k == 13 {} else if k == 14 {} else {}
    }
  }

  /** A character no entry lists passes through the whole walk unchanged. */
  lemma {:induction false} FoldUnmapped(table: seq<(char, string)>, c: char)
    requires !Mapped(table, c)
    ensures FoldChar(table, c) == c
    decreases |table|
  {
    if |table| > 0 {
      FoldUnmapped(table[1..], c);
    }
  }

  /** ASCII characters are listed nowhere in a well-formed table. */
  lemma {:induction false} AsciiUnmapped(table: seq<(char, string)>, c: char)
    requires TableWellFormed(table)
    requires c < '\U{80}'
    ensures !Mapped(table, c)
    decreases |table|
  {
    if |table| > 0 {
      assert EntryWellFormed(table[0]);
      assert forall i :: 0 <= i < |table[0].1| ==> table[0].1[i] != c;
      assert TableWellFormed(table[1..]) by {
        forall k | 0 <= k < |table[1..]| ensures EntryWellFormed(table[1..][k]) {
          assert table[1..][k] == table[k + 1];
        }
      }
      AsciiUnmapped(table[1..], c);
    }
  }

  /** In a well-formed table a listed character is replaced by the letter of
      the first entry listing it, and that letter has the character's case. */
  lemma {:induction false} FoldMapped(table: seq<(char, string)>, c: char)
    requires TableWellFormed(table)
    requires Mapped(table, c)
    ensures FoldChar(table, c) == BaseLetter(table, c)
    ensures IsAsciiUpper(BaseLetter(table, c)) || IsAsciiLower(BaseLetter(table, c))
    ensures IsAsciiUpper(BaseLetter(table, c)) <==> IsLatinUpper(c)
    decreases |table|
  {
    assert EntryWellFormed(table[0]);
    assert TableWellFormed(table[1..]) by {
      forall k | 0 <= k < |table[1..]| ensures EntryWellFormed(table[1..][k]) {
        assert table[1..][k] == table[k + 1];
      }
    }
    if c in table[0].1 {
      var i :| 0 <= i < |table[0].1| && table[0].1[i] == c;
      AsciiUnmapped(table[1..], table[0].0);
      FoldUnmapped(table[1..], table[0].0);
    } else {
      FoldMapped(table[1..], c);
    }
  }

  /** Characters outside the table (e.g. 'œ', '½') are unchanged. */
  lemma UnmappedUnchanged(c: char)
    requires !IsAccented(c)
    ensures DeaccentChar(c) == c
  {
    FoldUnmapped(Table, c);
  }

  /** A mapped character becomes an ASCII letter, upper-case exactly when the
      accented letter was upper-case. */
  lemma AccentedBecomesBaseLetter(c: char)
    requires IsAccented(c)
    ensures IsAsciiUpper(DeaccentChar(c)) || IsAsciiLower(DeaccentChar(c))
    ensures IsAsciiUpper(DeaccentChar(c)) <==> IsLatinUpper(c)
  {
    TableIsWellFormed();
    FoldMapped(Table, c);
  }

  /** Folding a character twice is folding it once. */
  lemma DeaccentCharIdempotent(c: char)
    ensures DeaccentChar(DeaccentChar(c)) == DeaccentChar(c)
  {
    if IsAccented(c) {
      AccentedBecomesBaseLetter(c);
      TableIsWellFormed();
      AsciiUnmapped(Table, DeaccentChar(c));
      UnmappedUnchanged(DeaccentChar(c));
    } else {
      UnmappedUnchanged(c);
    }
  }

  /** Folding twice is folding once: replacement letters are never mapped. */
  lemma DeaccentIdempotent(s: string)
    ensures Deaccent(Deaccent(s)) == Deaccent(s)
  {
    forall i | 0 <= i < |s|
      ensures DeaccentChar(DeaccentChar(s[i])) == DeaccentChar(s[i])
    {
      DeaccentCharIdempotent(s[i]);
    }
  }

  /** Folding commutes with slicing, so offsets found in the folded text
      address the same characters of the original text. */
  lemma DeaccentSlice(s: string, i: int, j: int)
    ensures PySlice(Deaccent(s), i, j) == Deaccent(PySlice(s, i, j))
  {
  }

  /** Folding distributes over concatenation. */
  lemma DeaccentConcat(a: string, b: string)
    ensures Deaccent(a + b) == Deaccent(a) + Deaccent(b)
  {
  }

  /** ASCII characters, the hyphen and the space among them, are never folded. */
  lemma AsciiFixed(c: char)
    requires c < '\U{80}'
    ensures DeaccentChar(c) == c
  {
    TableIsWellFormed();
    AsciiUnmapped(Table, c);
    FoldUnmapped(Table, c);
  }

  /** Folding commutes with replacing '-' by ' ', so the two orders used by
      the city rule see the same text. */
  lemma DeaccentReplaceHyphen(s: string)
    ensures Deaccent(ReplaceChar(s, '-', ' ')) == ReplaceChar(Deaccent(s), '-', ' ')
  {
    AsciiFixed('-');
    AsciiFixed(' ');
    forall i | 0 <= i < |s|
      ensures DeaccentChar(if s[i] == '-' then ' ' else s[i]) ==
              (if DeaccentChar(s[i]) == '-' then ' ' else DeaccentChar(s[i]))
    {
      if IsAccented(s[i]) {
        AccentedBecomesBaseLetter(s[i]);
      } else {
        UnmappedUnchanged(s[i]);
      }
    }
  }
}
