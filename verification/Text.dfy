/** The string operations the forwarder normalises names with, on ASCII text. */
module Text {

  predicate IsSpace(c: char) {
    c == ' ' || '\t' <= c <= '\r' || '\U{1C}' <= c <= '\U{1F}'
  }

  function LowerChar(c: char): char {
    if 'A' <= c <= 'Z' then c - 'A' + 'a' else c
  }

  function UpperChar(c: char): char {
    if 'a' <= c <= 'z' then c - 'a' + 'A' else c
  }

  function Lower(s: string): (r: string)
    ensures |r| == |s| && forall i :: 0 <= i < |s| ==> r[i] == LowerChar(s[i])
  {
    seq(|s|, i requires 0 <= i < |s| => LowerChar(s[i]))
  }

  function Upper(s: string): (r: string)
    ensures |r| == |s| && forall i :: 0 <= i < |s| ==> r[i] == UpperChar(s[i])
  {
    seq(|s|, i requires 0 <= i < |s| => UpperChar(s[i]))
  }

  function StripLeft(s: string): (r: string)
    ensures r != [] ==> !IsSpace(r[0])
    ensures |r| <= |s| && (r == s <==> s == [] || !IsSpace(s[0]))
  {
    if s != [] && IsSpace(s[0]) then StripLeft(s[1..]) else s
  }

  function StripRight(s: string): (r: string)
    ensures r != [] ==> !IsSpace(r[|r| - 1])
    ensures r <= s && (r == s <==> s == [] || !IsSpace(s[|s| - 1]))
  {
    if s != [] && IsSpace(s[|s| - 1]) then StripRight(s[..|s| - 1]) else s
  }

  function StripDots(s: string): (r: string)
    ensures r != [] ==> r[|r| - 1] != '.'
    ensures r <= s
  {
    if s != [] && s[|s| - 1] == '.' then StripDots(s[..|s| - 1]) else s
  }

  function Strip(s: string): (r: string) {
    StripRight(StripLeft(s))
  }

  /** Surrounding blanks, then trailing dots, then case. */
  function Canonical(s: string): (r: string) {
    Lower(StripDots(Strip(s)))
  }

  /** Canonical leaves a text alone exactly when it has no outer blank, no trailing dot and no capital letter. */
  lemma CanonicalFixedIff(s: string)
    ensures Canonical(s) == s <==>
      s == "" || (!IsSpace(s[0]) && !IsSpace(s[|s| - 1]) && s[|s| - 1] != '.' && Lower(s) == s)
  {
  }

  // ---------- What is stripped ----------

  ghost predicate AllBlank(s: string) {
    forall i :: 0 <= i < |s| ==> IsSpace(s[i])
  }

  ghost predicate AllDots(s: string) {
    forall i :: 0 <= i < |s| ==> s[i] == '.'
  }

  lemma {:induction false} LeftIsBlank(s: string) returns (k: nat)
    ensures k <= |s| && StripLeft(s) == s[k..] && AllBlank(s[..k])
  {
    k := 0;
    if s != [] && IsSpace(s[0]) {
      var n := LeftIsBlank(s[1..]);
      k := n + 1;
      assert s[1..][n..] == s[k..];
      forall i | 0 <= i < k ensures IsSpace(s[i]) {
        if i > 0 { assert s[1..][..n][i - 1] == s[i]; }
      }
    }
  }

  lemma {:induction false} RightIsBlank(s: string)
    ensures StripRight(s) <= s && AllBlank(s[|StripRight(s)|..])
    decreases |s|
  {
    if s != [] && IsSpace(s[|s| - 1]) {
      var before := s[..|s| - 1];
      RightIsBlank(before);
      forall i | |StripRight(s)| <= i < |s| ensures IsSpace(s[i]) {
        if i < |s| - 1 { assert before[|StripRight(s)|..][i - |StripRight(s)|] == s[i]; }
      }
    }
  }

  lemma {:induction false} DotsAreStripped(s: string)
    ensures StripDots(s) <= s && AllDots(s[|StripDots(s)|..])
    decreases |s|
  {
    if s != [] && s[|s| - 1] == '.' {
      var before := s[..|s| - 1];
      DotsAreStripped(before);
      forall i | |StripDots(s)| <= i < |s| ensures s[i] == '.' {
        if i < |s| - 1 { assert before[|StripDots(s)|..][i - |StripDots(s)|] == s[i]; }
      }
    }
  }

  lemma StrippedHasNoOuterBlank(s: string)
    ensures Strip(s) != [] ==> !IsSpace(Strip(s)[0]) && !IsSpace(Strip(s)[|Strip(s)| - 1])
  {
    var a := StripLeft(s);
    if Strip(s) != [] { assert Strip(s)[0] == a[0]; }
  }

  /** The text is blanks, its stripped form, blanks. */
  lemma StripParts(s: string) returns (left: string, right: string)
    ensures s == left + (Strip(s) + right) && AllBlank(left) && AllBlank(right)
  {
    var k := LeftIsBlank(s);
    var a := StripLeft(s);
    RightIsBlank(a);
    var b := StripRight(a);
    left, right := s[..k], a[|b|..];
    assert b == a[..|b|] && a == a[..|b|] + a[|b|..];
    assert left + a == s;
  }

  lemma DotParts(s: string) returns (dots: string)
    ensures s == StripDots(s) + dots && AllDots(dots)
    ensures StripDots(s) != [] ==> StripDots(s)[|StripDots(s)| - 1] != '.'
  {
    DotsAreStripped(s);
    dots := s[|StripDots(s)|..];
  }

  /** The canonical form is what is left, in lower case, without outer blanks and then without trailing dots. */
  lemma CanonicalParts(s: string) returns (left: string, core: string, dots: string, right: string)
    ensures s == left + ((core + dots) + right) && AllBlank(left) && AllBlank(right) && AllDots(dots)
    ensures core + dots != [] ==> !IsSpace((core + dots)[0]) && !IsSpace((core + dots)[|core + dots| - 1])
    ensures (core != [] ==> core[|core| - 1] != '.') && Canonical(s) == Lower(core)
  {
    left, right := StripParts(s);
    StrippedHasNoOuterBlank(s);
    core := StripDots(Strip(s));
    dots := DotParts(Strip(s));
  }

  // ---------- Letters without regard to case ----------

  /** The same character, or the two cases of one letter. */
  predicate SameLetter(a: char, b: char) {
    a == b || ('A' <= a <= 'Z' && b as int == a as int + 32) || ('A' <= b <= 'Z' && a as int == b as int + 32)
  }

  /** Equal when compared without regard to case. */
  predicate SameIgnoringCase(a: string, b: string) {
    |a| == |b| && forall i :: 0 <= i < |a| ==> SameLetter(a[i], b[i])
  }

  predicate IsCapital(c: char) { 'A' <= c <= 'Z' }

  predicate IsSmall(c: char) { 'a' <= c <= 'z' }

  /** Lower case is the spelling without capitals, upper case the one without small letters. */
  lemma CaseForms(s: string)
    ensures SameIgnoringCase(Lower(s), s) && forall i :: 0 <= i < |s| ==> !IsCapital(Lower(s)[i])
    ensures SameIgnoringCase(Upper(s), s) && forall i :: 0 <= i < |s| ==> !IsSmall(Upper(s)[i])
  {
  }

  lemma LowerSameIff(a: string, b: string)
    ensures Lower(a) == Lower(b) <==> SameIgnoringCase(a, b)
  {
    if Lower(a) == Lower(b) {
      forall i | 0 <= i < |a| ensures SameLetter(a[i], b[i]) {
        assert Lower(a)[i] == Lower(b)[i];
      }
    }
  }

  lemma UpperSameIff(a: string, b: string)
    ensures Upper(a) == Upper(b) <==> SameIgnoringCase(a, b)
  {
    if Upper(a) == Upper(b) {
      forall i | 0 <= i < |a| ensures SameLetter(a[i], b[i]) {
        assert Upper(a)[i] == Upper(b)[i];
      }
    }
  }
}
