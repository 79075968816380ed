/** The three Python string methods the inventory relies on, restricted to
    ASCII: `str.strip()` (no argument), `str.title()` and `str.lower()`.
    Characters outside ASCII are treated as neither whitespace nor letters,
    so these functions leave them untouched. */
module Ascii {

  /** `str.isspace` on ASCII: tab, line feed, vertical tab, form feed,
      carriage return (9-13), the separators 28-31, and the space (32). */
  predicate IsSpace(c: char) {
    var n := c as int;
    n == 32 || 9 <= n <= 13 || 28 <= n <= 31
  }

  predicate IsUpper(c: char) { 'A' <= c <= 'Z' }

  predicate IsLower(c: char) { 'a' <= c <= 'z' }

  /** The cased characters of ASCII: the only ones `title` and `lower` change
      or look at. */
  predicate IsLetter(c: char) { IsUpper(c) || IsLower(c) }

  predicate AllSpace(s: string) {
    forall i :: 0 <= i < |s| ==> IsSpace(s[i])
  }

  function ToUpper(c: char): (u: char)
    ensures IsLetter(u) <==> IsLetter(c)
    ensures IsLetter(c) ==> IsUpper(u)
    ensures !IsLetter(c) ==> u == c
    ensures IsUpper(c) ==> u == c
    ensures IsLower(c) ==> u as int == c as int - 32
  {
    if IsLower(c) then (c as int - 32) as char else c
  }

  function ToLower(c: char): (l: char)
    ensures IsLetter(l) <==> IsLetter(c)
    ensures IsLetter(c) ==> IsLower(l)
    ensures !IsLetter(c) ==> l == c
    ensures IsLower(c) ==> l == c
    ensures IsUpper(c) ==> l as int == c as int + 32
  {
    if IsUpper(c) then (c as int + 32) as char else c
  }

  lemma CaseFolding(c: char)
    ensures ToUpper(ToUpper(c)) == ToUpper(c) && ToUpper(ToLower(c)) == ToUpper(c)
    ensures ToLower(ToLower(c)) == ToLower(c) && ToLower(ToUpper(c)) == ToLower(c)
  {
  }

  // ---------------------------------------------------------------------------
  // strip

  /** Every character of `s` outside the window `[i, j)` is whitespace. */
  predicate SpaceOutside(s: string, i: int, j: int) {
    forall k :: 0 <= k < |s| && !(i <= k < j) ==> IsSpace(s[k])
  }

  /** The first index at or after `i` that is not whitespace (or `|s|`). */
  function SkipSpaces(s: string, i: nat): (a: nat)
    requires i <= |s|
    ensures i <= a <= |s|
    ensures forall k :: i <= k < a ==> IsSpace(s[k])
    ensures a < |s| ==> !IsSpace(s[a])
    decreases |s| - i
  {
    if i < |s| && IsSpace(s[i]) then SkipSpaces(s, i + 1) else i
  }

  /** Walking left from `j`, the end of the last non-whitespace character
      (never below `lo`). */
  function SkipSpacesBack(s: string, lo: nat, j: nat): (b: nat)
    requires lo <= j <= |s|
    ensures lo <= b <= j
    ensures forall k :: b <= k < j ==> IsSpace(s[k])
    ensures b > lo ==> !IsSpace(s[b - 1])
    decreases j
  {
    if j > lo && IsSpace(s[j - 1]) then SkipSpacesBack(s, lo, j - 1) else j
  }

  /** `s.strip()`: the one infix of `s` that is surrounded by whitespace only
      and neither starts nor ends with whitespace. */
  function Strip(s: string): (r: string)
    ensures |r| <= |s|
    ensures exists i :: OccursAt(s, r, i) && SpaceOutside(s, i, i + |r|)
    ensures |r| > 0 ==> !IsSpace(r[0]) && !IsSpace(r[|r| - 1])
    ensures r == [] <==> AllSpace(s)
  {
    var a := SkipSpaces(s, 0);
    var b := SkipSpacesBack(s, a, |s|);
    var r := s[a..b];
    assert OccursAt(s, r, a);
    assert SpaceOutside(s, a, b);
    r
  }

  /** Where `strip` cuts depends only on which characters are whitespace. */
  lemma {:induction false} SkipSpacesSamePattern(s: string, u: string, i: nat)
    requires |s| == |u| && i <= |s|
    requires forall k :: 0 <= k < |s| ==> (IsSpace(s[k]) <==> IsSpace(u[k]))
    ensures SkipSpaces(s, i) == SkipSpaces(u, i)
    decreases |s| - i
  {
    if i < |s| && IsSpace(s[i]) {
      SkipSpacesSamePattern(s, u, i + 1);
    }
  }

  lemma {:induction false} SkipSpacesBackSamePattern(s: string, u: string, lo: nat, j: nat)
    requires |s| == |u| && lo <= j <= |s|
    requires forall k :: 0 <= k < |s| ==> (IsSpace(s[k]) <==> IsSpace(u[k]))
    ensures SkipSpacesBack(s, lo, j) == SkipSpacesBack(u, lo, j)
    decreases j
  {
    if j > lo && IsSpace(s[j - 1]) {
      SkipSpacesBackSamePattern(s, u, lo, j - 1);
    }
  }

  /** A string without surrounding whitespace is its own strip. */
  lemma StripOfTrimmed(s: string)
    requires |s| > 0 ==> !IsSpace(s[0]) && !IsSpace(s[|s| - 1])
    ensures Strip(s) == s
  {
  }

  /** `strip` keeps exactly the window that neither starts nor ends with
      whitespace and has only whitespace outside it. */
  lemma StripUnico(t: string, k: int, n: int)
    requires 0 <= k && 0 < n && k + n <= |t|
    requires !IsSpace(t[k]) && !IsSpace(t[k + n - 1])
    requires SpaceOutside(t, k, k + n)
    ensures Strip(t) == t[k..k + n]
  {
  }

  /** Whitespace added around a string does not change its strip. */
  lemma StripPad(a: string, s: string, b: string)
    requires AllSpace(a) && AllSpace(b)
    ensures Strip(a + s + b) == Strip(s)
  {
    if AllSpace(s) {
      StripPadBlanco(a, s, b);
    } else {
      StripPadTexto(a, s, b);
    }
  }

  lemma StripPadBlanco(a: string, s: string, b: string)
    requires AllSpace(a) && AllSpace(s) && AllSpace(b)
    ensures Strip(a + s + b) == [] && Strip(s) == []
  {
    var t := a + s + b;
    forall m | 0 <= m < |t| ensures IsSpace(t[m]) {
      if m < |a| {
        assert t[m] == a[m];
      } else if m < |a| + |s| {
        assert t[m] == s[m - |a|];
      } else {
        assert t[m] == b[m - |a| - |s|];
      }
    }
  }

  lemma StripPadTexto(a: string, s: string, b: string)
    requires AllSpace(a) && AllSpace(b) && !AllSpace(s)
    ensures Strip(a + s + b) == Strip(s)
  {
    var r, t := Strip(s), a + s + b;
    assert |r| > 0;
    var i :| OccursAt(s, r, i) && SpaceOutside(s, i, i + |r|);
    var k, n := |a| + i, |r|;
    assert s[i..i + n] == r;
    VentanaConRelleno(a, s, b, i, n);
    assert t[k..k + n] == r;
    assert t[k] == r[0] && t[k + n - 1] == r[n - 1];
    StripUnico(t, k, n);
  }

  /** Padding a string with whitespace shifts a window by the left padding
      and keeps whitespace outside it. */
  lemma VentanaConRelleno(a: string, s: string, b: string, i: int, n: int)
    requires AllSpace(a) && AllSpace(b)
    requires 0 <= i && 0 <= n && i + n <= |s| && SpaceOutside(s, i, i + n)
    ensures (a + s + b)[|a| + i..|a| + i + n] == s[i..i + n]
    ensures SpaceOutside(a + s + b, |a| + i, |a| + i + n)
  {
    var t := a + s + b;
    var k := |a| + i;
    forall m | 0 <= m < |t| && !(k <= m < k + n) ensures IsSpace(t[m]) {
      if m < |a| {
        assert t[m] == a[m];
      } else if m < |a| + |s| {
        assert t[m] == s[m - |a|];
      } else {
        assert t[m] == b[m - |a| - |s|];
      }
    }
    assert t[|a|..|a| + |s|] == s;
    assert t[k..k + n] == s[i..i + n];
  }

  // ---------------------------------------------------------------------------
  // title

  /** One step of `str.title`: a letter is upper-cased unless it follows a
      letter, in which case it is lower-cased; anything else is kept. */
  function TitleCase(c: char, afterLetter: bool): char {
    if IsLetter(c) then (if afterLetter then ToLower(c) else ToUpper(c)) else c
  }

  /** The left-to-right scan of `str.title`, started in state `afterLetter`. */
  function TitleFrom(s: string, afterLetter: bool): (r: string)
    ensures |r| == |s|
    ensures forall i {:trigger r[i]} :: 0 <= i < |s| ==>
              r[i] == TitleCase(s[i], if i == 0 then afterLetter else IsLetter(s[i - 1]))
  {
    if s == [] then []
    else [TitleCase(s[0], afterLetter)] + TitleFrom(s[1..], IsLetter(s[0]))
  }

  /** `s.title()`: each character depends only on itself and its left
      neighbour. */
  function Title(s: string): (r: string)
    ensures |r| == |s|
    ensures forall i {:trigger r[i]} :: 0 <= i < |s| ==>
              r[i] == TitleCase(s[i], i > 0 && IsLetter(s[i - 1]))
  {
    var r := TitleFrom(s, false);
    assert forall i :: 0 <= i < |s| ==>
             r[i] == TitleCase(s[i], if i == 0 then false else IsLetter(s[i - 1]));
    r
  }

  lemma TitleKeepsClasses(s: string, i: int)
    requires 0 <= i < |s|
    ensures IsLetter(Title(s)[i]) <==> IsLetter(s[i])
    ensures IsSpace(Title(s)[i]) <==> IsSpace(s[i])
  {
    assert Title(s)[i] == TitleCase(s[i], i > 0 && IsLetter(s[i - 1]));
  }

  /** Title-casing a title-cased string changes nothing. */
  lemma TitleIdempotent(s: string)
    ensures Title(Title(s)) == Title(s)
  {
    var t := Title(s);
    forall i | 0 <= i < |s| ensures Title(t)[i] == t[i] {
      TitleKeepsClasses(s, i);
      if i > 0 { TitleKeepsClasses(s, i - 1); }
      CaseFolding(s[i]);
    }
  }

  // ---------------------------------------------------------------------------
  // lower / upper

  /** `s.lower()`. */
  function Lower(s: string): (r: string)
    ensures |r| == |s|
    ensures forall i :: 0 <= i < |s| ==> r[i] == ToLower(s[i])
  {
    seq(|s|, i requires 0 <= i < |s| => ToLower(s[i]))
  }

  /** `s.upper()`; only used to state that lookups ignore case. */
  function Upper(s: string): (r: string)
    ensures |r| == |s|
    ensures forall i :: 0 <= i < |s| ==> r[i] == ToUpper(s[i])
  {
    seq(|s|, i requires 0 <= i < |s| => ToUpper(s[i]))
  }

  lemma SliceLower(s: string, a: nat, b: nat)
    requires a <= b <= |s|
    ensures Lower(s)[a..b] == Lower(s[a..b])
  {
  }

  lemma SliceUpper(s: string, a: nat, b: nat)
    requires a <= b <= |s|
    ensures Upper(s)[a..b] == Upper(s[a..b])
  {
  }

  /** Lower-casing and stripping commute: case changes never touch
      whitespace. */
  lemma StripLower(s: string)
    ensures Strip(Lower(s)) == Lower(Strip(s))
  {
    var u := Lower(s);
    var a := SkipSpaces(s, 0);
    SkipSpacesSamePattern(s, u, 0);
    SkipSpacesBackSamePattern(s, u, a, |s|);
    SliceLower(s, a, SkipSpacesBack(s, a, |s|));
  }

  /** Upper-casing and stripping commute. */
  lemma StripUpper(s: string)
    ensures Strip(Upper(s)) == Upper(Strip(s))
  {
    var u := Upper(s);
    var a := SkipSpaces(s, 0);
    SkipSpacesSamePattern(s, u, 0);
    SkipSpacesBackSamePattern(s, u, a, |s|);
    SliceUpper(s, a, SkipSpacesBack(s, a, |s|));
  }

  /** `title` decides each letter's case itself, so the input's case is
      irrelevant. */
  lemma TitleIgnoresCase(s: string)
    ensures Title(Lower(s)) == Title(s)
    ensures Title(Upper(s)) == Title(s)
  {
    forall i | 0 <= i < |s|
      ensures Title(Lower(s))[i] == Title(s)[i] && Title(Upper(s))[i] == Title(s)[i]
    {
      CaseFolding(s[i]);
      if i > 0 {
        assert IsLetter(Lower(s)[i - 1]) <==> IsLetter(s[i - 1]);
        assert IsLetter(Upper(s)[i - 1]) <==> IsLetter(s[i - 1]);
      }
    }
  }

  /** Lower-casing erases whatever `title` did. */
  lemma LowerOfTitle(s: string)
    ensures Lower(Title(s)) == Lower(s)
  {
    forall i | 0 <= i < |s| ensures Lower(Title(s))[i] == Lower(s)[i] {
      assert Title(s)[i] == TitleCase(s[i], i > 0 && IsLetter(s[i - 1]));
      CaseFolding(s[i]);
    }
  }

  lemma LowerIdempotent(s: string)
    ensures Lower(Lower(s)) == Lower(s)
  {
    forall i | 0 <= i < |s| ensures Lower(Lower(s))[i] == Lower(s)[i] {
      CaseFolding(s[i]);
    }
  }

  lemma LowerOfUpper(s: string)
    ensures Lower(Upper(s)) == Lower(s)
  {
    forall i | 0 <= i < |s| ensures Lower(Upper(s))[i] == Lower(s)[i] {
      CaseFolding(s[i]);
    }
  }

  // ---------------------------------------------------------------------------
  // substring test

  /** `needle` occurs in `hay` starting at index `i`. */
  predicate OccursAt(hay: string, needle: string, i: int) {
    0 <= i && i + |needle| <= |hay| && hay[i..i + |needle|] == needle
  }

  /** Python's `needle in hay` for strings. */
  function Contains(hay: string, needle: string): (b: bool)
    ensures b <==> exists i :: OccursAt(hay, needle, i)
    decreases |hay|
  {
    if |needle| > |hay| then false
    else if hay[..|needle|] == needle then assert OccursAt(hay, needle, 0); true
    else
      var b := Contains(hay[1..], needle);
      assert b ==> exists i :: OccursAt(hay, needle, i) by {
        if b {
          var i :| OccursAt(hay[1..], needle, i);
          assert OccursAt(hay, needle, i + 1);
        }
      }
      assert (exists i :: OccursAt(hay, needle, i)) ==> b by {
        if exists i :: OccursAt(hay, needle, i) {
          var i :| OccursAt(hay, needle, i);
          assert i != 0;
          assert OccursAt(hay[1..], needle, i - 1);
        }
      }
      b
  }

  lemma ContainsSelf(s: string)
    ensures Contains(s, s)
  {
    assert OccursAt(s, s, 0);
  }
}
