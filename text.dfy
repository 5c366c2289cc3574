/**
 * The string primitives the handlers rely on: JavaScript's whitespace class
 * (used by both String.prototype.trim and the regex class \s), `length` in
 * UTF-16 code units, trim, an ASCII model of toLowerCase,
 * String.prototype.includes, and the e-mail pattern
 * /^[^\s@]+@[^\s@]+\.[^\s@]+$/ shared by the server and the removal form.
 */
module Text {

  /** The characters JavaScript treats as white space or line terminators. */
  predicate IsSpace(c: char) {
    var n := c as int;
    (9 <= n <= 13) || n == 0x20 || n == 0xA0 || n == 0x1680 || (0x2000 <= n <= 0x200A)
    || n == 0x2028 || n == 0x2029 || n == 0x202F || n == 0x205F || n == 0x3000 || n == 0xFEFF
  }

  predicate AllSpace(s: string) {
    forall i | 0 <= i < |s| :: IsSpace(s[i])
  }

  predicate NoSpace(s: string) {
    forall i | 0 <= i < |s| :: !IsSpace(s[i])
  }

  /** Neither the first nor the last character is white space: what trim leaves behind. */
  predicate Trimmed(s: string) {
    s == [] || (!IsSpace(s[0]) && !IsSpace(s[|s| - 1]))
  }

  /** Length of the maximal white-space prefix. */
  function LeadingSpaces(s: string): (n: nat)
    ensures n <= |s|
    ensures forall i | 0 <= i < n :: IsSpace(s[i])
    ensures n < |s| ==> !IsSpace(s[n])
  {
    if |s| > 0 && IsSpace(s[0]) then 1 + LeadingSpaces(s[1..]) else 0
  }

  /** Length of the maximal white-space suffix. */
  function TrailingSpaces(s: string): (n: nat)
    ensures n <= |s|
    ensures forall i | |s| - n <= i < |s| :: IsSpace(s[i])
    ensures n < |s| ==> !IsSpace(s[|s| - 1 - n])
  {
    if |s| > 0 && IsSpace(s[|s| - 1]) then 1 + TrailingSpaces(s[..|s| - 1]) else 0
  }

  /**
   * String.prototype.trim: the result is the run of s that starts after the
   * white-space prefix, has only white space after it in s, and neither
   * starts nor ends with white space.
   */
  function Trim(s: string): (t: string)
    ensures Trimmed(t)
    ensures LeadingSpaces(s) + |t| <= |s|
    ensures t == s[LeadingSpaces(s)..LeadingSpaces(s) + |t|]
    ensures forall i | LeadingSpaces(s) + |t| <= i < |s| :: IsSpace(s[i])
  {
    DropTrailing(s[LeadingSpaces(s)..])
  }

  /** Trim yields the empty string exactly on all-white-space input. */
  lemma TrimEmpty(s: string)
    ensures Trim(s) == [] <==> AllSpace(s)
  {
    var k := LeadingSpaces(s);
    if Trim(s) == [] {
      forall i | 0 <= i < |s| ensures IsSpace(s[i]) {
        if i >= k { assert k + |Trim(s)| <= i; }
      }
    } else {
      assert !IsSpace(s[k]) by { assert Trim(s)[0] == s[k]; }
    }
  }

  lemma TrimOfTrimmed(s: string)
    requires Trimmed(s)
    ensures Trim(s) == s
  {
    if s != [] {
      assert LeadingSpaces(s) == 0;
      assert TrailingSpaces(s) == 0;
    }
  }

  /** Trimming twice is trimming once. */
  lemma TrimIdempotent(s: string)
    ensures Trim(Trim(s)) == Trim(s)
  {
    TrimOfTrimmed(Trim(s));
  }

  /** A string without white space is its own trim. */
  lemma TrimNoSpace(s: string)
    requires NoSpace(s)
    ensures Trim(s) == s
  {
    TrimOfTrimmed(s);
  }

  /** The UTF-16 code units of one character: two (a surrogate pair) beyond the Basic Multilingual Plane. */
  function Units(c: char): nat {
    if c as int >= 0x10000 then 2 else 1
  }

  /**
   * String.prototype.length (and the `length` mongoose's minlength and
   * maxlength measure): UTF-16 code units, so between one and two per
   * character, and zero only for the empty string.
   */
  function JsLength(s: string): (n: nat)
    ensures |s| <= n <= 2 * |s|
    ensures n == 0 <==> s == []
  {
    if s == [] then 0 else Units(s[0]) + JsLength(s[1..])
  }

  lemma {:induction false} JsLengthAppend(a: string, b: string)
    ensures JsLength(a + b) == JsLength(a) + JsLength(b)
  {
    if a == [] {
      assert a + b == b;
    } else {
      assert (a + b)[0] == a[0] && (a + b)[1..] == a[1..] + b;
      JsLengthAppend(a[1..], b);
    }
  }

  /** A slice is never longer than the string it is cut from. */
  lemma JsLengthSlice(s: string, i: nat, j: nat)
    requires i <= j <= |s|
    ensures JsLength(s[i..j]) <= JsLength(s)
  {
    assert s == s[..i] + s[i..j] + s[j..];
    JsLengthAppend(s[..i] + s[i..j], s[j..]);
    JsLengthAppend(s[..i], s[i..j]);
  }

  /** Trimming never makes a string longer. */
  lemma TrimJsLength(s: string)
    ensures JsLength(Trim(s)) <= JsLength(s)
  {
    var k := LeadingSpaces(s);
    JsLengthSlice(s, k, k + |Trim(s)|);
  }

  predicate IsUpper(c: char) {
    'A' <= c <= 'Z'
  }

  /** toLowerCase on one character, restricted to the ASCII letters. */
  function LowerChar(c: char): (d: char)
    ensures !IsUpper(d)
    ensures IsSpace(d) <==> IsSpace(c)
    ensures !IsUpper(c) ==> d == c
  {
    if IsUpper(c) then (c as int + 32) as char else c
  }

  /** String.prototype.toLowerCase, ASCII letters only: a character-wise map. */
  function Lower(s: string): (r: string)
    ensures |r| == |s|
    ensures forall i | 0 <= i < |s| :: r[i] == LowerChar(s[i])
  {
    seq(|s|, i requires 0 <= i < |s| => LowerChar(s[i]))
  }

  /** Lower-casing twice is lower-casing once. */
  lemma LowerIdempotent(s: string)
    ensures Lower(Lower(s)) == Lower(s)
  {
    assert forall i | 0 <= i < |s| :: Lower(Lower(s))[i] == Lower(s)[i];
  }

  lemma LowerAppend(a: string, b: string)
    ensures Lower(a + b) == Lower(a) + Lower(b)
  {
    assert forall i | 0 <= i < |a| + |b| :: Lower(a + b)[i] == (Lower(a) + Lower(b))[i];
  }

  lemma LowerSlice(s: string, i: nat, j: nat)
    requires i <= j <= |s|
    ensures Lower(s[i..j]) == Lower(s)[i..j]
  {
    assert forall k | 0 <= k < j - i :: Lower(s[i..j])[k] == Lower(s)[i..j][k];
  }

  lemma {:induction false} LeadingSpacesLower(s: string)
    ensures LeadingSpaces(Lower(s)) == LeadingSpaces(s)
  {
    if |s| > 0 && IsSpace(s[0]) {
      LowerSlice(s, 1, |s|);
      LeadingSpacesLower(s[1..]);
    }
  }

  lemma {:induction false} TrailingSpacesLower(s: string)
    ensures TrailingSpaces(Lower(s)) == TrailingSpaces(s)
  {
    if |s| > 0 && IsSpace(s[|s| - 1]) {
      LowerSlice(s, 0, |s| - 1);
      TrailingSpacesLower(s[..|s| - 1]);
    }
  }

  /** Lower-casing never creates or removes white space, so it commutes with trim. */
  lemma TrimLowerCommute(s: string)
    ensures Trim(Lower(s)) == Lower(Trim(s))
  {
    var k := LeadingSpaces(s);
    var rest := s[k..];
    assert LeadingSpaces(Lower(s)) == k by { LeadingSpacesLower(s); }
    assert Lower(s)[k..] == Lower(rest) by { LowerSlice(s, k, |s|); }
    assert Trim(Lower(s)) == DropTrailing(Lower(rest));
    DropTrailingLower(rest);
  }

  /** The second half of trim: the white-space suffix removed. */
  function DropTrailing(s: string): string {
    s[..|s| - TrailingSpaces(s)]
  }

  lemma DropTrailingLower(s: string)
    ensures DropTrailing(Lower(s)) == Lower(DropTrailing(s))
  {
    var m := |s| - TrailingSpaces(s);
    assert TrailingSpaces(Lower(s)) == TrailingSpaces(s) by { TrailingSpacesLower(s); }
    assert Lower(s[0..m]) == Lower(s)[0..m] by { LowerSlice(s, 0, m); }
    assert s[0..m] == s[..m];
  }

  /** needle occurs in hay starting at index i. */
  predicate OccursAt(hay: string, needle: string, i: int) {
    0 <= i && i + |needle| <= |hay| && hay[i..i + |needle|] == needle
  }

  /**
   * String.prototype.includes: needle occurs as a contiguous slice of hay.
   * The empty string occurs in every string, and every string in itself.
   */
  predicate Contains(hay: string, needle: string): (r: bool)
    ensures needle == [] ==> r
    ensures hay == needle ==> r
    ensures r ==> |needle| <= |hay|
  {
    assert needle == [] || hay == needle ==> OccursAt(hay, needle, 0);
    exists i | 0 <= i <= |hay| - |needle| :: OccursAt(hay, needle, i)
  }

  /** An occurrence of an occurrence is an occurrence. */
  lemma ContainsTransitive(a: string, b: string, c: string)
    requires Contains(a, b) && Contains(b, c)
    ensures Contains(a, c)
  {
    var i :| 0 <= i <= |a| - |b| && OccursAt(a, b, i);
    var j :| 0 <= j <= |b| - |c| && OccursAt(b, c, j);
    forall k | 0 <= k < |c| ensures a[i + j + k] == c[k] {
      assert c[k] == b[j..j + |c|][k] == b[j + k];
      assert b[j + k] == a[i..i + |b|][j + k] == a[i + j + k];
    }
    assert a[i + j..i + j + |c|] == c;
    assert OccursAt(a, c, i + j);
  }

  /** Lower-casing both sides keeps an occurrence. */
  lemma ContainsLower(hay: string, needle: string)
    ensures Contains(hay, needle) ==> Contains(Lower(hay), Lower(needle))
  {
    if Contains(hay, needle) {
      var i :| 0 <= i <= |hay| - |needle| && OccursAt(hay, needle, i);
      LowerSlice(hay, i, i + |needle|);
      assert OccursAt(Lower(hay), Lower(needle), i);
    }
  }

  /** One of the three runs of /[^\s@]+/ in the e-mail pattern. */
  predicate EmailRun(p: string) {
    |p| > 0 && forall i | 0 <= i < |p| :: !IsSpace(p[i]) && p[i] != '@'
  }

  /** The pattern /^[^\s@]+@[^\s@]+\.[^\s@]+$/, as a decomposition of the whole string. */
  ghost predicate MatchesEmailPattern(s: string) {
    exists l, d, t :: EmailRun(l) && EmailRun(d) && EmailRun(t) && s == l + "@" + d + "." + t
  }

  /**
   * The same pattern as a scan: no white space, exactly one '@', something
   * before it, and after it a '.' with something on both sides.
   */
  predicate IsEmail(s: string): (r: bool)
    ensures r ==> 5 <= |s| && s[0] != '@' && s[|s| - 1] != '@'
  {
    && NoSpace(s)
    && exists a | 0 < a < |s| ::
         && s[a] == '@'
         && (forall i | 0 <= i < |s| && s[i] == '@' :: i == a)
         && exists p | a + 1 < p < |s| - 1 :: s[p] == '.'
  }

  /** Cutting s around the positions a and p and gluing the pieces back gives s. */
  lemma SplitAt(s: string, a: nat, p: nat)
    requires a < p < |s|
    ensures s == s[..a] + [s[a]] + s[a + 1..p] + [s[p]] + s[p + 1..]
  {
    assert s[p..] == [s[p]] + s[p + 1..];
    assert s[a + 1..] == s[a + 1..p] + s[p..];
    assert s[a..] == [s[a]] + s[a + 1..];
    assert s == s[..a] + s[a..];
  }

  lemma EmailScanMatches(s: string)
    requires IsEmail(s)
    ensures MatchesEmailPattern(s)
  {
    var a :| 0 < a < |s| && s[a] == '@'
             && (forall i | 0 <= i < |s| && s[i] == '@' :: i == a)
             && exists p | a + 1 < p < |s| - 1 :: s[p] == '.';
    var p :| a + 1 < p < |s| - 1 && s[p] == '.';
    var l, d, t := s[..a], s[a + 1..p], s[p + 1..];
    SplitAt(s, a, p);
    assert [s[a]] == "@" && [s[p]] == ".";
    assert EmailRun(l) by {
      forall i | 0 <= i < |l| ensures !IsSpace(l[i]) && l[i] != '@' { assert l[i] == s[i]; }
    }
    assert EmailRun(d) by {
      forall i | 0 <= i < |d| ensures !IsSpace(d[i]) && d[i] != '@' { assert d[i] == s[a + 1 + i]; }
    }
    assert EmailRun(t) by {
      forall i | 0 <= i < |t| ensures !IsSpace(t[i]) && t[i] != '@' { assert t[i] == s[p + 1 + i]; }
    }
  }

  lemma EmailMatchScans(s: string)
    requires MatchesEmailPattern(s)
    ensures IsEmail(s)
  {
    var l, d, t :| EmailRun(l) && EmailRun(d) && EmailRun(t) && s == l + "@" + d + "." + t;
    var a, p := |l|, |l| + 1 + |d|;
    assert s[a] == '@' && s[p] == '.';
    forall i | 0 <= i < |s|
      ensures !IsSpace(s[i]) && (s[i] == '@' ==> i == a)
    {
      if i < a { assert s[i] == l[i]; }
      else if a < i < p { assert s[i] == d[i - a - 1]; }
      else if p < i { assert s[i] == t[i - p - 1]; }
    }
  }

  /** The scan accepts exactly the strings the regular expression matches. */
  lemma EmailPatternIff(s: string)
    ensures IsEmail(s) <==> MatchesEmailPattern(s)
  {
    if IsEmail(s) { EmailScanMatches(s); }
    if MatchesEmailPattern(s) { EmailMatchScans(s); }
  }

  /** The pattern forbids white space, so trimming a matching address changes nothing. */
  lemma EmailHasNoSpace(s: string)
    requires IsEmail(s)
    ensures Trim(s) == s
  {
    TrimNoSpace(s);
  }
}
