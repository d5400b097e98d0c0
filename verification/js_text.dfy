/**
 * The two JavaScript string operations the validators use:
 * `String.prototype.includes` and `String.prototype.trim`.
 * Strings are sequences of characters; `trim` removes the ECMAScript
 * WhiteSpace and LineTerminator characters from both ends.
 */
module JsText {

  /**
   * ECMAScript WhiteSpace (tab, vertical tab, form feed, the byte-order mark
   * and the Unicode space separators) and LineTerminator (line feed,
   * carriage return, line and paragraph separators).
   */
  predicate IsWhitespace(c: char) {
    || c == '\t' || c == '\n' || c == '\U{000B}' || c == '\U{000C}' || c == '\r'
    || c == ' ' || c == '\U{00A0}' || c == '\U{1680}'
    || ('\U{2000}' <= c <= '\U{200A}')
    || c == '\U{2028}' || c == '\U{2029}' || c == '\U{202F}' || c == '\U{205F}'
    || c == '\U{3000}' || c == '\U{FEFF}'
  }

  predicate AllWhitespace(s: string) {
    forall i :: 0 <= i < |s| ==> IsWhitespace(s[i])
  }

  /** A string with nothing to trim: empty, or starting and ending with a non-whitespace character. */
  predicate Tight(s: string) {
    s == [] || (!IsWhitespace(s[0]) && !IsWhitespace(s[|s| - 1]))
  }

  /** `s` consists of whitespace, then `core` starting at index `i`, then whitespace. */
  predicate Surrounds(s: string, i: int, core: string) {
    && 0 <= i && i + |core| <= |s|
    && s[i..i + |core|] == core
    && AllWhitespace(s[..i])
    && AllWhitespace(s[i + |core|..])
  }

  lemma AllWhitespaceCons(c: char, t: string)
    requires IsWhitespace(c) && AllWhitespace(t)
    ensures AllWhitespace([c] + t)
  {
    assert forall i :: 0 < i <= |t| ==> ([c] + t)[i] == t[i - 1];
  }

  /** Removes leading whitespace: the result is the suffix that starts at the first non-whitespace character. */
  function TrimStart(s: string): (r: string)
    ensures |r| <= |s| && r == s[|s| - |r|..]
    ensures AllWhitespace(s[..|s| - |r|])
    ensures r == [] || !IsWhitespace(r[0])
  {
    if |s| > 0 && IsWhitespace(s[0]) then
      var r := TrimStart(s[1..]);
      assert s[..|s| - |r|] == [s[0]] + s[1..][..|s| - 1 - |r|];
      AllWhitespaceCons(s[0], s[1..][..|s| - 1 - |r|]);
      r
    else s
  }

  /** Removes trailing whitespace: the result is the prefix that ends at the last non-whitespace character. */
  function TrimEnd(s: string): (r: string)
    ensures |r| <= |s| && r == s[..|r|]
    ensures AllWhitespace(s[|r|..])
    ensures r == [] || !IsWhitespace(r[|r| - 1])
  {
    if |s| > 0 && IsWhitespace(s[|s| - 1]) then
      var r := TrimEnd(s[..|s| - 1]);
      assert s[|r|..] == s[..|s| - 1][|r|..] + [s[|s| - 1]];
      r
    else s
  }

  /** `s.trim()`: the tight core of `s`, with only whitespace on either side of it. */
  function Trim(s: string): (r: string)
    ensures |r| <= |s|
    ensures Tight(r)
    ensures exists i :: Surrounds(s, i, r)
  {
    var t := TrimStart(s);
    var r := TrimEnd(t);
    TrimmedSuffixSurrounded(s, t, r);
    r
  }

  /** Whitespace, then a prefix of a suffix, then whitespace: the core is surrounded at the suffix's offset. */
  lemma TrimmedSuffixSurrounded(s: string, t: string, r: string)
    requires |t| <= |s| && t == s[|s| - |t|..] && AllWhitespace(s[..|s| - |t|])
    requires |r| <= |t| && r == t[..|r|] && AllWhitespace(t[|r|..])
    ensures Surrounds(s, |s| - |t|, r)
  {
    var k := |s| - |t|;
    assert s[k..k + |r|] == t[..|r|];
    assert s[k + |r|..] == t[|r|..];
  }

  /** `needle` appears in `s` starting at index `i`. */
  predicate OccursAt(s: string, needle: string, i: int) {
    0 <= i && i + |needle| <= |s| && s[i..i + |needle|] == needle
  }

  /** `s.includes(needle)`: `needle` occurs somewhere in `s` (the empty needle occurs everywhere). */
  function Includes(s: string, needle: string): (r: bool)
    ensures r <==> exists i :: OccursAt(s, needle, i)
    decreases |s|
  {
    if |s| < |needle| then false
    else if s[..|needle|] == needle then assert OccursAt(s, needle, 0); true
    else
      OccursShift(s, needle);
      Includes(s[1..], needle)
  }

  /** An occurrence past the first character of `s` is an occurrence in `s[1..]`, one place earlier. */
  lemma OccursShift(s: string, needle: string)
    requires |s| > 0
    requires !OccursAt(s, needle, 0)
    ensures (exists i :: OccursAt(s, needle, i)) <==> (exists j :: OccursAt(s[1..], needle, j))
  {
    forall i | OccursAt(s, needle, i)
      ensures OccursAt(s[1..], needle, i - 1)
    {
      assert s[1..][i - 1..i - 1 + |needle|] == s[i..i + |needle|];
    }
    forall j | OccursAt(s[1..], needle, j)
      ensures OccursAt(s, needle, j + 1)
    {
      assert s[1..][j..j + |needle|] == s[j + 1..j + 1 + |needle|];
    }
  }

  /** Searching for a one-character string is membership of that character. */
  lemma {:induction false} IncludesChar(s: string, c: char)
    ensures Includes(s, [c]) <==> c in s
  {
    if c in s {
      var i :| 0 <= i < |s| && s[i] == c;
      assert OccursAt(s, [c], i);
    }
    if Includes(s, [c]) {
      var i :| OccursAt(s, [c], i);
      assert s[i..i + 1][0] == s[i];
    }
  }

  lemma AllWhitespaceConcat(a: string, b: string)
    requires AllWhitespace(a) && AllWhitespace(b)
    ensures AllWhitespace(a + b)
  {
  }

  /** Leading whitespace up to the first non-whitespace character at `i` is exactly what `TrimStart` drops. */
  lemma {:induction false} TrimStartSkips(s: string, i: int)
    requires 0 <= i <= |s| && AllWhitespace(s[..i])
    requires i < |s| ==> !IsWhitespace(s[i])
    ensures TrimStart(s) == s[i..]
  {
    if i > 0 {
      assert s[0] == s[..i][0];
      assert s[1..][..i - 1] == s[..i][1..];
      TrimStartSkips(s[1..], i - 1);
      assert s[1..][i - 1..] == s[i..];
    }
  }

  /** Trailing whitespace after the last non-whitespace character at `j - 1` is exactly what `TrimEnd` drops. */
  lemma {:induction false} TrimEndSkips(s: string, j: int)
    requires 0 <= j <= |s| && AllWhitespace(s[j..])
    requires j > 0 ==> !IsWhitespace(s[j - 1])
    ensures TrimEnd(s) == s[..j]
    decreases |s|
  {
    if j < |s| {
      var p := s[..|s| - 1];
      assert s[|s| - 1] == s[j..][|s| - 1 - j];
      assert p[j..] == s[j..][..|s| - 1 - j];
      TrimEndSkips(p, j);
      assert p[..j] == s[..j];
    }
  }

  /**
   * The trimmed core is unique: whenever `s` is whitespace around a tight
   * `core`, `Trim(s)` is that core. With `Trim`'s own contract this
   * characterises `Trim` completely.
   */
  lemma TrimUnique(s: string, i: int, core: string)
    requires Surrounds(s, i, core)
    requires Tight(core)
    ensures Trim(s) == core
  {
    if core == [] {
      assert s[i..] == s[i + |core|..];
      assert s == s[..i] + s[i..];
      assert s[..|s|] == s;
      TrimStartSkips(s, |s|);
    } else {
      assert s[i] == core[0];
      TrimStartSkips(s, i);
      var t := s[i..];
      assert t[..|core|] == core;
      assert t[|core|..] == s[i + |core|..];
      assert t[|core| - 1] == core[|core| - 1];
      TrimEndSkips(t, |core|);
    }
  }

  /** A core between two all-whitespace strings is surrounded, starting right after the left one. */
  lemma SurroundsConcat(left: string, core: string, right: string)
    requires AllWhitespace(left) && AllWhitespace(right)
    ensures Surrounds(left + core + right, |left|, core)
  {
    var s := left + core + right;
    assert s[..|left|] == left;
    assert s[|left|..|left| + |core|] == core;
    assert s[|left| + |core|..] == right;
  }

  /** Padding a string with whitespace keeps a surrounded core surrounded, shifted by the left padding. */
  lemma SurroundsPadded(w1: string, s: string, w2: string, i: int, core: string)
    requires AllWhitespace(w1) && AllWhitespace(w2)
    requires Surrounds(s, i, core)
    ensures Surrounds(w1 + s + w2, |w1| + i, core)
  {
    var left, right := s[..i], s[i + |core|..];
    assert s == left + core + right;
    var padLeft, padRight := w1 + left, right + w2;
    assert w1 + s + w2 == padLeft + core + padRight;
    AllWhitespaceConcat(w1, left);
    AllWhitespaceConcat(right, w2);
    SurroundsConcat(padLeft, core, padRight);
  }

  /** A tight core surrounded by whitespace stays the trim of the string after more whitespace padding. */
  lemma TrimOfPadded(w1: string, s: string, w2: string, i: int, core: string)
    requires AllWhitespace(w1) && AllWhitespace(w2)
    requires Surrounds(s, i, core) && Tight(core)
    ensures Trim(w1 + s + w2) == core
  {
    SurroundsPadded(w1, s, w2, i, core);
    TrimUnique(w1 + s + w2, |w1| + i, core);
  }

  /** Whitespace added on either side of a string never changes its trim. */
  lemma TrimAbsorbsWhitespace(w1: string, s: string, w2: string)
    requires AllWhitespace(w1) && AllWhitespace(w2)
    ensures Trim(w1 + s + w2) == Trim(s)
  {
    var core := Trim(s);
    var i :| Surrounds(s, i, core);
    TrimOfPadded(w1, s, w2, i, core);
  }

  /** Trimming twice is trimming once. */
  lemma TrimIdempotent(s: string)
    ensures Trim(Trim(s)) == Trim(s)
  {
    var core := Trim(s);
    assert Surrounds(core, 0, core) by {
      assert core[0..|core|] == core;
    }
    TrimUnique(core, 0, core);
  }
}
