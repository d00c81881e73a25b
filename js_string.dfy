/** The JavaScript string built-ins the form controller and the pain-point
    splitter rely on: `trim`, `toLowerCase`, `includes` and `length`.
    A Dafny string is a sequence of Unicode scalar values. */
module JsString {

  /** The characters `String.prototype.trim` removes: ECMAScript WhiteSpace
      (tab, vertical tab, form feed, space, no-break space, the byte order
      mark and every Unicode space separator) and LineTerminator (line feed,
      carriage return, U+2028, U+2029). */
  predicate IsSpace(c: char) {
    var k := c as int;
    (0x09 <= k <= 0x0D) || k == 0x20 || k == 0xA0 || k == 0x1680
    || (0x2000 <= k <= 0x200A) || k == 0x2028 || k == 0x2029 || k == 0x202F
    || k == 0x205F || k == 0x3000 || k == 0xFEFF
  }

  /** Every character of s is white space (vacuously so for ""). */
  ghost predicate AllSpace(s: string) {
    forall i :: 0 <= i < |s| ==> IsSpace(s[i])
  }

  /** s neither starts nor ends with white space. */
  ghost predicate IsTrimmed(s: string) {
    s == [] || (!IsSpace(s[0]) && !IsSpace(s[|s| - 1]))
  }

  /** The length of the white-space prefix of s. */
  function LeadingSpaces(s: string): (n: nat)
    ensures n <= |s|
    ensures forall i :: 0 <= i < n ==> IsSpace(s[i])
    ensures n < |s| ==> !IsSpace(s[n])
  {
    if s == [] || !IsSpace(s[0]) then 0 else 1 + LeadingSpaces(s[1..])
  }

  /** The length of the white-space suffix of s. */
  function TrailingSpaces(s: string): (n: nat)
    ensures n <= |s|
    ensures forall i :: |s| - n <= i < |s| ==> IsSpace(s[i])
    ensures n < |s| ==> !IsSpace(s[|s| - 1 - n])
  {
    if s == [] || !IsSpace(s[|s| - 1]) then 0 else 1 + TrailingSpaces(s[..|s| - 1])
  }

  /** `s.trim()`: s without its leading and trailing white space. */
  function Trim(s: string): (r: string)
    ensures |r| <= |s|
    ensures r == [] <==> AllSpace(s)
    ensures IsTrimmed(r)
  {
    var t := s[LeadingSpaces(s)..];
    t[..|t| - TrailingSpaces(t)]
  }

  /** Trimming removes white space only: s is the trimmed string with a
      white-space prefix and a white-space suffix around it. */
  lemma TrimParts(s: string) returns (lead: string, trail: string)
    ensures s == lead + Trim(s) + trail
    ensures AllSpace(lead) && AllSpace(trail)
  {
    var a, e := TrimBounds(s);
    lead, trail := s[..a], s[e..];
    ThreeSlices(s, a, e);
  }

  /** The trimmed string is the stretch of s between a white-space prefix
      and a white-space suffix. */
  lemma TrimBounds(s: string) returns (a: nat, e: nat)
    ensures a <= e <= |s| && Trim(s) == s[a..e]
    ensures AllSpace(s[..a]) && AllSpace(s[e..])
  {
    a := LeadingSpaces(s);
    var t := s[a..];
    var b := |t| - TrailingSpaces(t);
    e := a + b;
    TakeOfDrop(s, a, b);
    forall i | 0 <= i < a ensures IsSpace(s[..a][i]) {
    }
    forall i | 0 <= i < |s| - e ensures IsSpace(s[e..][i]) {
      assert s[e..][i] == t[b + i];
    }
  }

  lemma TakeOfDrop(s: string, a: nat, b: nat)
    requires a + b <= |s|
    ensures s[a..][..b] == s[a..a + b]
  {
  }

  /** Cutting a string twice and putting the three parts back together gives the string. */
  lemma ThreeSlices(s: string, a: nat, b: nat)
    requires a <= b <= |s|
    ensures s == s[..a] + s[a..b] + s[b..]
  {
    assert s[..b] == s[..a] + s[a..b];
    assert s == s[..b] + s[b..];
  }

  /** A string that is already trimmed is its own trim. */
  lemma TrimOfTrimmed(s: string)
    requires IsTrimmed(s)
    ensures Trim(s) == s
  {
    if s != [] {
      assert LeadingSpaces(s) == 0;
      assert s[0..] == s;
      assert TrailingSpaces(s) == 0;
    }
  }

  /** Trimming is idempotent. */
  lemma TrimIdempotent(s: string)
    ensures Trim(Trim(s)) == Trim(s)
  {
    TrimOfTrimmed(Trim(s));
  }

  /** The ASCII case mapping of `toLowerCase`. */
  function LowerChar(c: char): char {
    if 'A' <= c <= 'Z' then (c as int + 32) as char else c
  }

  /** `s.toLowerCase()`, restricted to the ASCII letters. */
  function ToLowerCase(s: string): (r: string)
    ensures |r| == |s|
    ensures forall i :: 0 <= i < |s| ==> r[i] == LowerChar(s[i])
  {
    seq(|s|, i requires 0 <= i < |s| => LowerChar(s[i]))
  }

  /** Lowering is idempotent, so a lowered query matches as the query does. */
  lemma ToLowerCaseIdempotent(s: string)
    ensures ToLowerCase(ToLowerCase(s)) == ToLowerCase(s)
  {
    var l := ToLowerCase(s);
    var ll := ToLowerCase(l);
    assert forall i :: 0 <= i < |s| ==> ll[i] == l[i];
  }

  /** `text.includes(pat)`: pat is a prefix of some suffix of text. */
  predicate Includes(text: string, pat: string) {
    exists i :: 0 <= i <= |text| && pat <= text[i..]
  }

  /** pat occurs in text starting at position i. */
  ghost predicate OccursAt(text: string, pat: string, i: int) {
    0 <= i && i + |pat| <= |text| && text[i..i + |pat|] == pat
  }

  /** `includes` is true exactly when pat occupies some stretch of text. */
  lemma IncludesIff(text: string, pat: string)
    ensures Includes(text, pat) <==> exists i :: OccursAt(text, pat, i)
  {
    if Includes(text, pat) {
      var i :| 0 <= i <= |text| && pat <= text[i..];
      assert text[i..][..|pat|] == text[i..i + |pat|];
      assert OccursAt(text, pat, i);
    }
    if i :| OccursAt(text, pat, i) {
      assert text[i..][..|pat|] == text[i..i + |pat|];
      assert pat <= text[i..];
    }
  }

  /** A text includes a non-empty pattern only if it holds the pattern's first character. */
  lemma IncludesFirstChar(text: string, pat: string)
    requires pat != [] && Includes(text, pat)
    ensures pat[0] in text
  {
    var i :| 0 <= i <= |text| && pat <= text[i..];
    assert text[i] == pat[0];
  }

  /** `s.length`: the number of UTF-16 code units, two for a character
      outside the Basic Multilingual Plane. */
  function Utf16Length(s: string): (n: nat)
    ensures |s| <= n <= 2 * |s|
    ensures (forall i :: 0 <= i < |s| ==> s[i] as int <= 0xFFFF) ==> n == |s|
    ensures |s| == 1 ==> n == if s[0] as int > 0xFFFF then 2 else 1
    ensures n >= 2 <==> |s| >= 2 || (|s| == 1 && s[0] as int > 0xFFFF)
  {
    if s == [] then 0 else (if s[0] as int > 0xFFFF then 2 else 1) + Utf16Length(s[1..])
  }
}
