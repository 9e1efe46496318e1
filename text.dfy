/** The string operations the scripts apply to user input: `str.lower()`,
    `str.capitalize()` and `str.strip()`. Case mapping is modelled on ASCII
    letters only; whitespace follows Python's `str.isspace()`. */
module Text {

  predicate IsLowerLetter(c: char) { 'a' <= c <= 'z' }

  predicate IsUpperLetter(c: char) { 'A' <= c <= 'Z' }

  function LowerChar(c: char): char
  {
    if IsUpperLetter(c) then (c as int + 32) as char else c
  }

  function UpperChar(c: char): char
  {
    if IsLowerLetter(c) then (c as int - 32) as char else c
  }

  /** Two characters have the same upper case exactly when they have the same
      lower case. */
  lemma SameUpperIffSameLower(a: char, b: char)
    ensures UpperChar(a) == UpperChar(b) <==> LowerChar(a) == LowerChar(b)
  {
  }

  /** `s.lower()` */
  function Lower(s: string): (r: string)
    ensures |r| == |s|
    ensures forall i :: 0 <= i < |s| ==> r[i] == LowerChar(s[i])
  {
    if s == [] then [] else [LowerChar(s[0])] + Lower(s[1..])
  }

  lemma {:induction false} LowerIdempotent(s: string)
    ensures Lower(Lower(s)) == Lower(s)
  {
    if s != [] {
      LowerIdempotent(s[1..]);
    }
  }

  /** `s.capitalize()`: the first character in upper case, the rest in lower
      case. */
  function Capitalize(s: string): (r: string)
    ensures |r| == |s|
    ensures s != [] ==> r[0] == UpperChar(s[0]) && r[1..] == Lower(s[1..])
  {
    if s == [] then [] else [UpperChar(s[0])] + Lower(s[1..])
  }

  /** A capitalised string never starts with a lower-case letter. */
  lemma CapitalizeHead(s: string)
    ensures s != [] ==> !IsLowerLetter(Capitalize(s)[0])
  {
  }

  lemma CapitalizeIdempotent(s: string)
    ensures Capitalize(Capitalize(s)) == Capitalize(s)
  {
    if s != [] {
      LowerIdempotent(s[1..]);
      assert Capitalize(s)[1..] == Lower(s[1..]);
    }
  }

  /** Lower-casing forgets whatever capitalising did. */
  lemma LowerCapitalize(s: string)
    ensures Lower(Capitalize(s)) == Lower(s)
  {
    if s != [] {
      LowerIdempotent(s[1..]);
      var c := Capitalize(s);
      assert Lower(c)[0] == LowerChar(s[0]);
      assert Lower(c)[1..] == Lower(c[1..]);
      assert Lower(s)[1..] == Lower(s[1..]);
    }
  }

  /** Two strings capitalise to the same text exactly when they are equal
      ignoring case: capitalising a key is a case-insensitive normalisation. */
  lemma {:induction false} CapitalizeEqIffLowerEq(a: string, b: string)
    ensures Capitalize(a) == Capitalize(b) <==> Lower(a) == Lower(b)
  {
    if Capitalize(a) == Capitalize(b) {
      LowerCapitalize(a);
      LowerCapitalize(b);
    }
    if Lower(a) == Lower(b) && a != [] {
      assert |b| == |a|;
      assert LowerChar(a[0]) == LowerChar(b[0]) by {
        assert Lower(a)[0] == Lower(b)[0];
      }
      SameUpperIffSameLower(a[0], b[0]);
      assert Lower(a[1..]) == Lower(a)[1..];
      assert Lower(b[1..]) == Lower(b)[1..];
      assert Capitalize(a) == [UpperChar(a[0])] + Lower(a[1..]);
    }
  }

  /** A string without upper-case letters is its own lower case. */
  lemma LowerKeepsNonUpper(s: string)
    requires forall i :: 0 <= i < |s| ==> !IsUpperLetter(s[i])
    ensures Lower(s) == s
  {
  }

  /** Capitalising a word without upper-case letters only raises its first
      letter. */
  lemma CapitalizeLowerWord(w: string)
    requires w != [] && forall i :: 0 <= i < |w| ==> !IsUpperLetter(w[i])
    ensures Capitalize(w) == [UpperChar(w[0])] + w[1..]
  {
    LowerKeepsNonUpper(w[1..]);
  }

  /** The header word, capitalised. */
  lemma CapitalizeCategoryWord()
    ensures Capitalize("category") == "Category"
  {
    CapitalizeLowerWord("category");
  }

  /** The header word, in lower case. */
  lemma LowerCategoryWord()
    ensures Lower("category") == "category"
  {
    LowerKeepsNonUpper("category");
  }

  /** The characters for which Python's `str.isspace()` holds. */
  const Whitespace: set<char> :=
    {' ', '\t', '\n', '\U{B}', '\U{C}', '\r', '\U{1C}', '\U{1D}', '\U{1E}', '\U{1F}',
     '\U{85}', '\U{A0}', '\U{1680}',
     '\U{2000}', '\U{2001}', '\U{2002}', '\U{2003}', '\U{2004}', '\U{2005}',
     '\U{2006}', '\U{2007}', '\U{2008}', '\U{2009}', '\U{200A}',
     '\U{2028}', '\U{2029}', '\U{202F}', '\U{205F}', '\U{3000}'}

  predicate IsSpace(c: char)
  {
    c in Whitespace
  }

  /** Every character of `s` from index `lo` up to `hi` is whitespace. */
  predicate SpaceBetween(s: string, lo: nat, hi: nat)
    requires lo <= hi <= |s|
  {
    forall k :: lo <= k < hi ==> IsSpace(s[k])
  }

  predicate AllSpace(s: string)
  {
    SpaceBetween(s, 0, |s|)
  }

  /** The first index at or after `i` that holds no whitespace (or |s|). */
  function SkipForward(s: string, i: nat): (j: nat)
    requires i <= |s|
    ensures i <= j <= |s| && SpaceBetween(s, i, j) && (j == |s| || !IsSpace(s[j]))
    decreases |s| - i
  {
    if i < |s| && IsSpace(s[i]) then SkipForward(s, i + 1) else i
  }

  /** The last index at or before `j` that follows no whitespace (or `lo`). */
  function SkipBackward(s: string, lo: nat, j: nat): (i: nat)
    requires lo <= j <= |s|
    ensures lo <= i <= j && SpaceBetween(s, i, j) && (i == lo || !IsSpace(s[i - 1]))
    decreases j
  {
    if lo < j && IsSpace(s[j - 1]) then SkipBackward(s, lo, j - 1) else j
  }

  /** Where the text of `s` starts: all before it is whitespace, and it is
      not. */
  function TextStart(s: string): (i: nat)
    ensures i <= |s| && SpaceBetween(s, 0, i) && (i == |s| || !IsSpace(s[i]))
  {
    SkipForward(s, 0)
  }

  /** Where the text of `s` ends: all after it is whitespace, and the
      character before it is not (unless the text is empty). */
  function TextEnd(s: string): (j: nat)
    ensures TextStart(s) <= j <= |s| && SpaceBetween(s, j, |s|)
    ensures j == TextStart(s) || !IsSpace(s[j - 1])
  {
    SkipBackward(s, TextStart(s), |s|)
  }

  /** `s.strip()`: the text between the leading and the trailing whitespace.
      No whitespace is left at either end, and it is empty exactly when `s`
      is all whitespace. */
  function Strip(s: string): (r: string)
    ensures |r| <= |s| && r == s[TextStart(s)..TextEnd(s)]
    ensures r == [] || (!IsSpace(r[0]) && !IsSpace(r[|r| - 1]))
    ensures r == [] <==> AllSpace(s)
  {
    s[TextStart(s)..TextEnd(s)]
  }

  lemma StripIdempotent(s: string)
    ensures Strip(Strip(s)) == Strip(s)
  {
    var r := Strip(s);
    if r != [] {
      assert !IsSpace(r[0]) && !IsSpace(r[|r| - 1]);
      assert TextStart(r) == 0;
      assert TextEnd(r) == |r|;
    }
  }
}
