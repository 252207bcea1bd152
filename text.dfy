/**
 * The two string operations the program applies to spreadsheet cells:
 * Python's `str.strip()` (no argument) and `str.lower()`.
 */
module Text {

  /** Python's `str.isspace` for one character: what `str.strip()` removes. */
  predicate IsSpace(c: char) {
    || c == ' '
    || ('\t' <= c <= '\r')
    || ('\U{1C}' <= c <= '\U{1F}')
    || c == '\U{85}' || c == '\U{A0}' || c == '\U{1680}'
    || ('\U{2000}' <= c <= '\U{200A}')
    || c == '\U{2028}' || c == '\U{2029}' || c == '\U{202F}' || c == '\U{205F}' || c == '\U{3000}'
  }

  ghost predicate AllSpace(s: string) {
    forall i :: 0 <= i < |s| ==> IsSpace(s[i])
  }

  /** Everything of `s` outside the slice `s[i..j]` is whitespace. */
  ghost predicate SpaceOutside(s: string, i: int, j: int) {
    && 0 <= i <= j <= |s|
    && (forall k :: 0 <= k < i ==> IsSpace(s[k]))
    && (forall k :: j <= k < |s| ==> IsSpace(s[k]))
  }

  /** No whitespace at either end: the shape of every result of `Strip`. */
  ghost predicate Trimmed(s: string) {
    s == [] || (!IsSpace(s[0]) && !IsSpace(s[|s| - 1]))
  }

  /** `str.lstrip()`: drops the leading whitespace. */
  function StripStart(s: string): string
    decreases |s|
  {
    if s != [] && IsSpace(s[0]) then StripStart(s[1..]) else s
  }

  /**
   * `StripStart` returns a suffix of its input that does not start with
   * whitespace, and what it drops is whitespace.
   */
  lemma {:induction false} StripStartSpec(s: string)
    ensures |StripStart(s)| <= |s| && StripStart(s) == s[|s| - |StripStart(s)|..]
    ensures StripStart(s) == [] || !IsSpace(StripStart(s)[0])
    ensures SpaceOutside(s, |s| - |StripStart(s)|, |s|)
    decreases |s|
  {
    if s != [] && IsSpace(s[0]) {
      StripStartSpec(s[1..]);
      assert forall k :: 1 <= k < |s| ==> s[k] == s[1..][k - 1];
    }
  }

  /** `str.rstrip()`: drops the trailing whitespace. */
  function StripEnd(s: string): string
    decreases |s|
  {
    if s != [] && IsSpace(s[|s| - 1]) then StripEnd(s[..|s| - 1]) else s
  }

  /**
   * `StripEnd` returns a prefix of its input that does not end with
   * whitespace, and what it drops is whitespace.
   */
  lemma {:induction false} StripEndSpec(s: string)
    ensures |StripEnd(s)| <= |s| && StripEnd(s) == s[..|StripEnd(s)|]
    ensures StripEnd(s) == [] || !IsSpace(StripEnd(s)[|StripEnd(s)| - 1])
    ensures SpaceOutside(s, 0, |StripEnd(s)|)
    decreases |s|
  {
    if s != [] && IsSpace(s[|s| - 1]) {
      StripEndSpec(s[..|s| - 1]);
      assert forall k :: 0 <= k < |s| - 1 ==> s[k] == s[..|s| - 1][k];
    }
  }

  /** How many whitespace characters `str.strip()` drops from the left of `s`. */
  ghost function LeadingSpace(s: string): int {
    |s| - |StripStart(s)|
  }

  /** `str.strip()`: the result neither starts nor ends with whitespace. */
  function Strip(s: string): string {
    StripEnd(StripStart(s))
  }

  /**
   * The result of `Strip` has no whitespace at its ends and is the slice of
   * the input that starts after the leading whitespace and has only
   * whitespace after it.
   */
  lemma StripSpec(s: string)
    ensures Trimmed(Strip(s))
    ensures SpaceOutside(s, LeadingSpace(s), LeadingSpace(s) + |Strip(s)|)
    ensures Strip(s) == s[LeadingSpace(s)..LeadingSpace(s) + |Strip(s)|]
  {
    var t := StripStart(s);
    var r := Strip(s);
    var i := |s| - |t|;
    StripStartSpec(s);
    StripEndSpec(t);
    assert r == s[i..i + |r|];
    forall k | i + |r| <= k < |s| ensures IsSpace(s[k]) { assert s[k] == t[k - i]; }
  }

  /**
   * Whatever whitespace surrounds a trimmed slice, `Strip` returns exactly that
   * slice: the decomposition in `Strip`'s contract is unique.
   */
  lemma StripUnique(s: string, i: int, j: int)
    requires SpaceOutside(s, i, j) && Trimmed(s[i..j])
    ensures Strip(s) == s[i..j]
  {
    var r := Strip(s);
    var i' := LeadingSpace(s);
    var j' := i' + |r|;
    StripSpec(s);
    // a non-whitespace character lies inside both slices, so neither is empty
    // unless both are; then their first and last characters pin them down
    assert i < j ==> !IsSpace(s[i]) && !IsSpace(s[j - 1]);
    assert i' < j' ==> !IsSpace(s[i']) && !IsSpace(s[j' - 1]);
    assert i < j <==> i' < j';
    assert i < j ==> i == i' && j == j';
  }

  /** Stripping is idempotent. */
  lemma StripIdempotent(s: string)
    ensures Strip(Strip(s)) == Strip(s)
  {
    var r := Strip(s);
    StripSpec(s);
    assert r[0..|r|] == r;
    StripUnique(r, 0, |r|);
  }

  /** Text without whitespace at its ends is its own stripped form. */
  lemma StripTrimmed(s: string)
    requires Trimmed(s)
    ensures Strip(s) == s
  {
    assert s[0..|s|] == s;
    StripUnique(s, 0, |s|);
  }

  /** Extra whitespace on either side does not change the stripped value. */
  lemma StripIgnoresPadding(w1: string, s: string, w2: string)
    requires AllSpace(w1) && AllSpace(w2)
    ensures Strip(w1 + s + w2) == Strip(s)
  {
    var r := Strip(s);
    var i := LeadingSpace(s);
    StripSpec(s);
    var p := w1 + s + w2;
    var n, m := |w1|, |w1| + |s|;
    forall k | 0 <= k < |p|
      ensures p[k] == if k < n then w1[k] else if k < m then s[k - n] else w2[k - m]
    {
    }
    assert SpaceOutside(p, n + i, n + i + |r|);
    assert p[n + i..n + i + |r|] == r;
    StripUnique(p, n + i, n + i + |r|);
  }

  /** The upper-case letters `str.lower()` maps in this model: ASCII and Latin-1. */
  predicate IsUpper(c: char) {
    ('A' <= c <= 'Z') || ('\U{C0}' <= c <= '\U{DE}' && c != '\U{D7}')
  }

  /** Lower-case letters with a capital: `a` to `z`, and Latin-1 `U+E0` to `U+FE` except the division sign. */
  predicate IsLower(c: char) {
    ('a' <= c <= 'z') || ('\U{E0}' <= c <= '\U{FE}' && c != '\U{F7}')
  }

  /** `str.upper()` on one character, the inverse `LowerChar` is checked against. */
  function UpperChar(c: char): (d: char)
    ensures IsLower(c) ==> IsUpper(d)
    ensures !IsLower(c) ==> d == c
  {
    if IsLower(c) then (c as int - 32) as char else c
  }

  /** `str.lower()` on one character: a capital becomes the lower-case letter whose capital it is. */
  function LowerChar(c: char): (d: char)
    ensures !IsUpper(d)
    ensures IsSpace(d) <==> IsSpace(c)
    ensures !IsUpper(c) ==> d == c
    ensures IsUpper(c) ==> IsLower(d) && UpperChar(d) == c
  {
    if IsUpper(c) then (c as int + 32) as char else c
  }

  /** `str.lower()`, character by character. */
  function Lower(s: string): string {
    seq(|s|, i requires 0 <= i < |s| => LowerChar(s[i]))
  }

  /**
   * Lowering leaves no upper-case letter, turns each capital into the
   * lower-case letter whose capital it is, and keeps every other character.
   */
  lemma LowerSpec(s: string)
    ensures |Lower(s)| == |s|
    ensures forall i :: 0 <= i < |s| ==> !IsUpper(Lower(s)[i])
    ensures forall i :: 0 <= i < |s| && !IsUpper(s[i]) ==> Lower(s)[i] == s[i]
    ensures forall i :: 0 <= i < |s| && IsUpper(s[i]) ==> IsLower(Lower(s)[i]) && UpperChar(Lower(s)[i]) == s[i]
  {
  }

  /** Text without upper-case letters is its own lowered form. */
  lemma LowerNoUpper(s: string)
    requires forall i :: 0 <= i < |s| ==> !IsUpper(s[i])
    ensures Lower(s) == s
  {
  }

  /** Lowering twice is lowering once. */
  lemma LowerIdempotent(s: string)
    ensures Lower(Lower(s)) == Lower(s)
  {
  }

  /** Lowering works character by character. */
  lemma LowerAt(s: string, k: int)
    requires 0 <= k < |s|
    ensures Lower(s)[k] == LowerChar(s[k])
  {
  }

  /** Lowering keeps whitespace where it is. */
  lemma LowerKeepsSpaceOutside(s: string, i: int, j: int)
    requires SpaceOutside(s, i, j)
    ensures SpaceOutside(Lower(s), i, j)
  {
    forall k | 0 <= k < |s| ensures IsSpace(Lower(s)[k]) <==> IsSpace(s[k]) {
      LowerAt(s, k);
    }
  }

  /** Lowering keeps text trimmed. */
  lemma LowerKeepsTrimmed(r: string)
    requires Trimmed(r)
    ensures Trimmed(Lower(r))
  {
    if r != [] {
      LowerAt(r, 0);
      LowerAt(r, |r| - 1);
    }
  }

  /** Lowering a slice is slicing the lowered text. */
  lemma LowerSlice(s: string, i: int, j: int)
    requires 0 <= i <= j <= |s|
    ensures Lower(s)[i..j] == Lower(s[i..j])
  {
    forall k | 0 <= k < j - i ensures Lower(s)[i..j][k] == Lower(s[i..j])[k] {
      LowerAt(s, i + k);
      LowerAt(s[i..j], k);
    }
  }

  /** Lowering and stripping commute: lowering never creates or removes whitespace. */
  lemma LowerStripCommute(s: string)
    ensures Lower(Strip(s)) == Strip(Lower(s))
  {
    var r := Strip(s);
    var i := LeadingSpace(s);
    var j := i + |r|;
    StripSpec(s);
    LowerKeepsSpaceOutside(s, i, j);
    LowerKeepsTrimmed(r);
    LowerSlice(s, i, j);
    StripUnique(Lower(s), i, j);
  }

  /** `s.strip().lower()`, the normalisation applied to commodity and counter type. */
  function Normalize(s: string): string {
    Lower(Strip(s))
  }

  /** A normalised cell has no whitespace at its ends. */
  lemma NormalizeTrimmed(s: string)
    ensures Trimmed(Normalize(s))
  {
    StripSpec(s);
    LowerKeepsTrimmed(Strip(s));
  }

  /** Two cells that differ only in letter case normalise to the same text. */
  lemma NormalizeIgnoresCase(s: string, t: string)
    requires Lower(s) == Lower(t)
    ensures Normalize(s) == Normalize(t)
  {
    LowerStripCommute(s);
    LowerStripCommute(t);
  }

  /** Two cells that differ only in surrounding whitespace normalise to the same text. */
  lemma NormalizeIgnoresPadding(w1: string, s: string, w2: string)
    requires AllSpace(w1) && AllSpace(w2)
    ensures Normalize(w1 + s + w2) == Normalize(s)
  {
    StripIgnoresPadding(w1, s, w2);
  }
}
