/** Option/Result wrappers and the Python string primitives the rules rely on:
    slicing with Python's index rules, character classes, case mapping,
    stripping and whitespace splitting. */
module Base {

  datatype Option<+T> = None | Some(value: T)

  datatype Result<+T, +E> = Ok(value: T) | Err(error: E)

  /** Python's normalisation of a slice bound: negative indices count from
      the end, then the index is clamped to [0, n]. */
  function SliceIndex(i: int, n: nat): (k: nat)
    ensures k <= n
    ensures 0 <= i <= n ==> k == i
    ensures i > n ==> k == n
    ensures i < 0 && i + n >= 0 ==> k == i + n
    ensures i + n < 0 ==> k == 0
  {
    if i < 0 then (if i + n < 0 then 0 else i + n)
    else if i > n then n
    else i
  }

  /** `s[i:j]` with Python's rules: never fails, negative bounds wrap once,
      and an inverted range gives the empty sequence. */
  function PySlice<T>(s: seq<T>, i: int, j: int): (r: seq<T>)
    ensures 0 <= i <= j <= |s| ==> r == s[i..j]
    ensures |r| <= |s|
  {
    var a := SliceIndex(i, |s|);
    var b := SliceIndex(j, |s|);
    if a < b then s[a..b] else []
  }

  /** The ASCII decimal digits. Python's `\d` and `str.isdigit` accept every
      Unicode decimal digit; only the ASCII ones are modelled. */
  predicate IsDecimal(c: char) {
    '0' <= c <= '9'
  }

  /** The digits of `str.isdigit` in the ASCII and Latin-1 blocks: the
      decimal digits and the superscripts. Digits of other blocks are not
      modelled. */
  predicate IsDigitChar(c: char) {
    IsDecimal(c) || c == '¹' || c == '²' || c == '³'
  }

  /** Python's `str.isdigit`: non-empty and every character a digit. */
  predicate IsDigits(s: string) {
    |s| > 0 && forall i :: 0 <= i < |s| ==> IsDigitChar(s[i])
  }

  /** The characters Python's `str.isspace`, `strip` and `\s` treat as whitespace. */
  predicate IsSpace(c: char) {
    || c == ' ' || ('\t' <= c <= '\r') || ('\U{1C}' <= c <= '\U{1F}')
    || c == '\U{85}' || c == '\U{A0}' || c == '\U{1680}'
    || ('\U{2000}' <= c <= '\U{200A}') || c == '\U{2028}' || c == '\U{2029}'
    || c == '\U{202F}' || c == '\U{205F}' || c == '\U{3000}'
  }

  predicate IsAsciiUpper(c: char) { 'A' <= c <= 'Z' }
  predicate IsAsciiLower(c: char) { 'a' <= c <= 'z' }

  /** Latin-1 upper-case letters À..Þ (without the multiplication sign). */
  predicate IsLatinUpper(c: char) { 'À' <= c <= 'Þ' && c != '×' }
  /** Latin-1 lower-case letters à..þ (without the division sign). */
  predicate IsLatinLower(c: char) { 'à' <= c <= 'þ' && c != '÷' }

  /** Letters as `str.isalpha` sees them, for the ASCII, Latin-1 and
      Latin Extended-A blocks. */
  predicate IsLetter(c: char) {
    || IsAsciiUpper(c) || IsAsciiLower(c) || IsLatinUpper(c) || IsLatinLower(c)
    || c == 'ª' || c == 'µ' || c == 'º' || c == 'ß' || c == 'ÿ'
    || ('Ā' <= c <= 'ſ')
  }

  /** Python's `str.isalpha`. */
  predicate IsAlpha(s: string) {
    |s| > 0 && forall i :: 0 <= i < |s| ==> IsLetter(s[i])
  }

  function LowerChar(c: char): char {
    if IsAsciiUpper(c) || IsLatinUpper(c) then (c as int + 32) as char else c
  }

  function UpperChar(c: char): char {
    if IsAsciiLower(c) || IsLatinLower(c) then (c as int - 32) as char else c
  }

  /** `str.lower` on the ASCII and Latin-1 letters; length-preserving.
      Python maps the rest of Unicode too, which is not modelled. */
  function Lower(s: string): (r: string)
    ensures |r| == |s|
    ensures forall i :: 0 <= i < |s| ==> r[i] == LowerChar(s[i])
  {
    seq(|s|, i requires 0 <= i < |s| => LowerChar(s[i]))
  }

  /** `str.upper` on the ASCII and Latin-1 letters; length-preserving.
      Python maps the rest of Unicode too (`œ` to `Œ`, and `ß` to the two
      letters `SS`), which is not modelled. */
  function Upper(s: string): (r: string)
    ensures |r| == |s|
    ensures forall i :: 0 <= i < |s| ==> r[i] == UpperChar(s[i])
  {
    seq(|s|, i requires 0 <= i < |s| => UpperChar(s[i]))
  }

  /** Lower-casing a string twice changes nothing more. */
  lemma LowerIdempotent(s: string)
    ensures Lower(Lower(s)) == Lower(s)
  {
    assert forall i :: 0 <= i < |s| ==> LowerChar(LowerChar(s[i])) == LowerChar(s[i]);
  }

  predicate StartsWith(s: string, p: string) {
    |p| <= |s| && s[..|p|] == p
  }

  predicate EndsWith(s: string, p: string) {
    |p| <= |s| && s[|s| - |p|..] == p
  }

  /** Python's `a in b` for strings. */
  predicate IsSubstring(a: string, b: string) {
    exists i | 0 <= i <= |b| - |a| :: OccursAt(a, b, i)
  }

  /** `a` occurs in `b` starting at index `i`. */
  predicate OccursAt(a: string, b: string, i: int) {
    0 <= i <= |b| - |a| && b[i..i + |a|] == a
  }

  /** Number of leading whitespace characters, i.e. `len(s) - len(s.lstrip())`. */
  function LeadingSpaces(s: string): (k: nat)
    ensures k <= |s|
    ensures forall i :: 0 <= i < k ==> IsSpace(s[i])
    ensures k < |s| ==> !IsSpace(s[k])
  {
    if |s| == 0 || !IsSpace(s[0]) then 0 else 1 + LeadingSpaces(s[1..])
  }

  /** Number of trailing whitespace characters, i.e. `len(s) - len(s.rstrip())`. */
  function TrailingSpaces(s: string): (k: nat)
    ensures k <= |s|
    ensures forall i :: |s| - k <= i < |s| ==> IsSpace(s[i])
    ensures k < |s| ==> !IsSpace(s[|s| - k - 1])
  {
    if |s| == 0 || !IsSpace(s[|s| - 1]) then 0 else 1 + TrailingSpaces(s[..|s| - 1])
  }

  /** A slice of a slice is a slice of the whole. */
  lemma SliceOfSlice<T>(s: seq<T>, i: int, j: int, a: int, b: int)
    requires 0 <= i <= j <= |s| && 0 <= a <= b <= j - i
    ensures s[i..j][a..b] == s[i + a..i + b]
  {
    var inner := s[i..j];
    forall k | 0 <= k < b - a ensures inner[a..b][k] == s[i + a..i + b][k] {
      assert inner[a..b][k] == inner[a + k] == s[i + a + k];
    }
  }

  /** Python's `str.split()` with no argument: maximal runs of non-whitespace. */
  function Words(s: string): (ws: seq<string>)
    ensures forall k :: 0 <= k < |ws| ==> |ws[k]| > 0
    ensures forall k, i :: 0 <= k < |ws| && 0 <= i < |ws[k]| ==> !IsSpace(ws[k][i])
    decreases |s|
  {
    var lead := LeadingSpaces(s);
    if lead == |s| then []
    else
      var rest := s[lead..];
      var w := WordLength(rest);
      assert w > 0;
      var word, ws := rest[..w], Words(rest[w..]);
      assert forall i :: 0 <= i < |word| ==> !IsSpace(word[i]);
      assert forall k :: 0 < k < |[word] + ws| ==> ([word] + ws)[k] == ws[k - 1];
      [word] + ws
  }

  /** Length of the non-whitespace run at the head of `s`. */
  function WordLength(s: string): (k: nat)
    ensures k <= |s|
    ensures forall i :: 0 <= i < k ==> !IsSpace(s[i])
    ensures k < |s| ==> IsSpace(s[k])
    ensures |s| > 0 && !IsSpace(s[0]) ==> k > 0
  {
    if |s| == 0 || IsSpace(s[0]) then 0 else 1 + WordLength(s[1..])
  }

  /** Python's `str.split(sep)` for a one-character separator. */
  function SplitOn(s: string, sep: char): (parts: seq<string>)
    ensures |parts| >= 1
    ensures forall k, i :: 0 <= k < |parts| && 0 <= i < |parts[k]| ==> parts[k][i] != sep
  {
    if |s| == 0 then [""]
    else
      var tail := SplitOn(s[1..], sep);
      if s[0] == sep then [""] + tail
      else [[s[0]] + tail[0]] + tail[1..]
  }

  /** Replaces every occurrence of one character by another (`str.replace`). */
  function ReplaceChar(s: string, a: char, b: char): (r: string)
    ensures |r| == |s|
    ensures forall i :: 0 <= i < |s| ==> r[i] == (if s[i] == a then b else s[i])
  {
    seq(|s|, i requires 0 <= i < |s| => if s[i] == a then b else s[i])
  }

  /** Number of elements of `s` that satisfy `p`. */
  function CountIf<T>(s: seq<T>, p: T -> bool): (n: nat)
    ensures n <= |s|
  {
    if |s| == 0 then 0 else (if p(s[0]) then 1 else 0) + CountIf(s[1..], p)
  }

  /** The elements of `s` that satisfy `p`, in order. */
  function Filter<T(!new)>(s: seq<T>, p: T -> bool): (r: seq<T>)
    ensures |r| <= |s|
    ensures forall x :: x in r <==> x in s && p(x)
  {
    if |s| == 0 then []
    else if p(s[0]) then [s[0]] + Filter(s[1..], p)
    else Filter(s[1..], p)
  }

  /** The indices of the elements of `s` that satisfy `p`, ascending: as
      many as there are such elements, each at such an element. */
  function PassIndices<T>(s: seq<T>, p: T -> bool): (ix: seq<nat>)
    ensures |ix| == CountIf(s, p)
    ensures forall k :: 0 <= k < |ix| ==> ix[k] < |s| && p(s[ix[k]])
    ensures forall k, l :: 0 <= k < l < |ix| ==> ix[k] < ix[l]
  {
    if |s| == 0 then []
    else
      var rest := PassIndices(s[1..], p);
      var shifted := Shift(rest);
      assert forall k :: 0 <= k < |rest| ==> s[shifted[k]] == s[1..][rest[k]];
      if p(s[0]) then [0] + shifted else shifted
  }

  /** Every index moved one place up. */
  function Shift(ix: seq<nat>): (r: seq<nat>)
    ensures |r| == |ix| && forall k :: 0 <= k < |ix| ==> r[k] == ix[k] + 1
  {
    seq(|ix|, k requires 0 <= k < |ix| => ix[k] + 1)
  }

  /** `Filter` keeps the elements that satisfy `p` in their order: its
      result is `s` read at the ascending indices of those elements. */
  lemma {:induction false} FilterAtPassIndices<T(!new)>(s: seq<T>, p: T -> bool)
    ensures |Filter(s, p)| == |PassIndices(s, p)|
    ensures forall k :: 0 <= k < |Filter(s, p)| ==> Filter(s, p)[k] == s[PassIndices(s, p)[k]]
  {
    if |s| > 0 {
      FilterAtPassIndices(s[1..], p);
      var fr, rest := Filter(s[1..], p), PassIndices(s[1..], p);
      if p(s[0]) {
        assert Filter(s, p) == [s[0]] + fr;
        assert PassIndices(s, p) == [0] + Shift(rest);
        forall k | 0 <= k < |Filter(s, p)| ensures Filter(s, p)[k] == s[PassIndices(s, p)[k]] {
          if k > 0 {
            ShiftedAt(s, rest, k - 1);
          }
        }
      } else {
        assert Filter(s, p) == fr;
        assert PassIndices(s, p) == Shift(rest);
        forall k | 0 <= k < |fr| ensures Filter(s, p)[k] == s[PassIndices(s, p)[k]] {
          ShiftedAt(s, rest, k);
        }
      }
    }
  }

  lemma ShiftedAt<T>(s: seq<T>, rest: seq<nat>, k: int)
    requires 0 < |s| && 0 <= k < |rest| && rest[k] < |s| - 1
    ensures Shift(rest)[k] < |s| && s[Shift(rest)[k]] == s[1..][rest[k]]
  {
  }

  lemma FilterLength<T(!new)>(s: seq<T>, p: T -> bool)
    ensures |Filter(s, p)| == CountIf(s, p)
  {
  }

  lemma FilterConcat<T(!new)>(a: seq<T>, b: seq<T>, p: T -> bool)
    ensures Filter(a + b, p) == Filter(a, p) + Filter(b, p)
  {
    if |a| > 0 {
      assert (a + b)[1..] == a[1..] + b;
      FilterConcat(a[1..], b, p);
    } else {
      assert a + b == b;
    }
  }
}
