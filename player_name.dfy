/** Canonical player names.

    A submitted name is stripped of surrounding whitespace, lower-cased and then
    capitalised (first character upper-case, every other character lower-case);
    the result is the key of the player's score row. Only ASCII case mapping and
    ASCII whitespace are modelled: any other character passes through unchanged. */
module PlayerName {

  /** Python's `str.isspace` restricted to ASCII: tab, line feed, vertical tab,
      form feed, carriage return, the four separators 0x1C..0x1F, and space. */
  predicate IsSpace(c: char) {
    9 <= c as int <= 13 || 28 <= c as int <= 32
  }

  predicate IsUpper(c: char) { 'A' <= c <= 'Z' }

  predicate IsLower(c: char) { 'a' <= c <= 'z' }

  function ToLower(c: char): (r: char)
    ensures !IsUpper(r)
    ensures IsUpper(c) ==> IsLower(r)
    ensures !IsUpper(c) ==> r == c
  {
    if IsUpper(c) then (c as int + 32) as char else c
  }

  function ToUpper(c: char): (r: char)
    ensures !IsLower(r)
    ensures IsLower(c) ==> IsUpper(r)
    ensures !IsLower(c) ==> r == c
  {
    if IsLower(c) then (c as int - 32) as char else c
  }

  /** Upper-casing undoes lower-casing on every character that was not already
      lower-case, and lower-casing undoes upper-casing likewise. */
  lemma CaseRoundTrip(c: char)
    ensures !IsLower(c) ==> ToUpper(ToLower(c)) == c
    ensures !IsUpper(c) ==> ToLower(ToUpper(c)) == c
  {
  }

  /** Case mapping neither creates nor removes whitespace. */
  lemma CaseKeepsSpace(c: char)
    ensures IsSpace(ToLower(c)) == IsSpace(c) && IsSpace(ToUpper(c)) == IsSpace(c)
  {
  }

  /** `str.lstrip()`: drops the leading whitespace and nothing else. */
  function TrimLeft(s: string): (r: string)
    ensures |r| <= |s| && r == s[|s| - |r|..]
    ensures r == [] || !IsSpace(r[0])
    ensures forall i :: 0 <= i < |s| - |r| ==> IsSpace(s[i])
  {
    if s != [] && IsSpace(s[0]) then TrimLeft(s[1..]) else s
  }

  /** `str.rstrip()`: drops the trailing whitespace and nothing else. */
  function TrimRight(s: string): (r: string)
    ensures |r| <= |s| && r == s[..|r|]
    ensures r == [] || !IsSpace(r[|r| - 1])
    ensures forall i :: |r| <= i < |s| ==> IsSpace(s[i])
  {
    if s != [] && IsSpace(s[|s| - 1]) then TrimRight(s[..|s| - 1]) else s
  }

  /** `str.strip()` (app.py line 21): the longest infix of `s` that neither
      starts nor ends with whitespace, everything cut off being whitespace. */
  function Strip(s: string): (r: string)
    ensures r == [] || (!IsSpace(r[0]) && !IsSpace(r[|r| - 1]))
    ensures var lead := |s| - |TrimLeft(s)|;
      && lead + |r| <= |s|
      && r == s[lead..lead + |r|]
      && (forall i :: 0 <= i < lead ==> IsSpace(s[i]))
      && (forall i :: lead + |r| <= i < |s| ==> IsSpace(s[i]))
  {
    TrimRight(TrimLeft(s))
  }

  /** `str.lower()` on ASCII. */
  function Lower(s: string): (r: string)
    ensures |r| == |s|
    ensures forall i :: 0 <= i < |s| ==> r[i] == ToLower(s[i])
  {
    seq(|s|, i requires 0 <= i < |s| => ToLower(s[i]))
  }

  /** `str.capitalize()` on ASCII: the first character upper-cased, the rest
      lower-cased. */
  function Capitalize(s: string): (r: string)
    ensures |r| == |s|
    ensures r != [] ==> r[0] == ToUpper(s[0])
    ensures forall i :: 1 <= i < |s| ==> r[i] == ToLower(s[i])
  {
    if s == [] then [] else [ToUpper(s[0])] + Lower(s[1..])
  }

  /** The key of a player's row (app.py lines 21-22). */
  function Canonical(raw: string): string {
    Capitalize(Lower(Strip(raw)))
  }

  /** What a canonical key looks like: no surrounding whitespace, a first
      character that is not a lower-case letter, no upper-case letter after it. */
  predicate IsCanonical(s: string) {
    && (s == [] || (!IsSpace(s[0]) && !IsSpace(s[|s| - 1]) && !IsLower(s[0])))
    && forall i :: 1 <= i < |s| ==> !IsUpper(s[i])
  }

  /** Every name canonicalises to a string in canonical form. */
  lemma CanonicalIsCanonical(raw: string)
    ensures IsCanonical(Canonical(raw))
  {
    var t := Strip(raw);
    var l := Lower(t);
    var c := Capitalize(l);
    assert c == Canonical(raw);
    if t != [] {
      // case mapping never turns a non-space into a space
      CaseKeepsSpace(t[0]);
      CaseKeepsSpace(l[0]);
      assert c[0] == ToUpper(l[0]) && l[0] == ToLower(t[0]);
      if |t| > 1 {
        CaseKeepsSpace(t[|t| - 1]);
        CaseKeepsSpace(l[|l| - 1]);
        assert c[|c| - 1] == ToLower(l[|l| - 1]) && l[|l| - 1] == ToLower(t[|t| - 1]);
      }
    }
  }

  /** A string already in canonical form is its own canonical key. */
  lemma CanonicalFixesCanonical(s: string)
    requires IsCanonical(s)
    ensures Canonical(s) == s
  {
    assert TrimLeft(s) == s;
    assert Strip(s) == s;
    if s != [] {
      CaseRoundTrip(s[0]);
    }
  }

  /** Canonical form is exactly the set of strings canonicalisation leaves alone. */
  lemma CanonicalFixedPoints(s: string)
    ensures Canonical(s) == s <==> IsCanonical(s)
  {
    if IsCanonical(s) {
      CanonicalFixesCanonical(s);
    } else {
      CanonicalIsCanonical(s);
    }
  }

  /** Canonicalisation is idempotent. */
  lemma CanonicalIdempotent(raw: string)
    ensures Canonical(Canonical(raw)) == Canonical(raw)
  {
    CanonicalIsCanonical(raw);
    CanonicalFixesCanonical(Canonical(raw));
  }

  /** Lower-casing a capitalised string gives back its lower-cased form. */
  lemma LowerCapitalize(s: string)
    ensures Lower(Capitalize(s)) == Lower(s)
  {
    if s != [] {
      assert Lower(Capitalize(s))[0] == ToLower(ToUpper(s[0]));
    }
  }

  /** Two names denote the same player exactly when they agree once stripped
      and lower-cased: case and surrounding whitespace are ignored, nothing else is. */
  lemma SamePlayer(s: string, t: string)
    ensures Canonical(s) == Canonical(t) <==> Lower(Strip(s)) == Lower(Strip(t))
  {
    var ls, lt := Lower(Strip(s)), Lower(Strip(t));
    LowerCapitalize(ls);
    LowerCapitalize(lt);
    assert Lower(ls) == ls;
    assert Lower(lt) == lt;
  }

  /** "Bob" is already canonical. */
  lemma BobIsCanonical()
    ensures Canonical("Bob") == "Bob"
  {
    assert IsCanonical("Bob");
    CanonicalFixesCanonical("Bob");
  }

  predicate AllSpace(s: string) {
    forall i :: 0 <= i < |s| ==> IsSpace(s[i])
  }

  /** Left-stripping removes a whitespace prefix up to the first non-space. */
  lemma {:induction false} TrimLeftPadded(pre: string, s: string)
    requires AllSpace(pre)
    requires s == [] || !IsSpace(s[0])
    ensures TrimLeft(pre + s) == s
  {
    if pre == [] {
      assert pre + s == s;
    } else {
      assert (pre + s)[1..] == pre[1..] + s;
      TrimLeftPadded(pre[1..], s);
    }
  }

  /** Right-stripping removes a whitespace suffix back to the last non-space. */
  lemma {:induction false} TrimRightPadded(s: string, post: string)
    requires AllSpace(post)
    requires s == [] || !IsSpace(s[|s| - 1])
    ensures TrimRight(s + post) == s
  {
    if post == [] {
      assert s + post == s;
    } else {
      var post' := post[..|post| - 1];
      assert (s + post)[..|s + post| - 1] == s + post';
      TrimRightPadded(s, post');
    }
  }

  /** Stripping a name padded with whitespace on both sides gives back the name. */
  lemma StripPadded(pre: string, s: string, post: string)
    requires AllSpace(pre) && AllSpace(post)
    requires s != [] && !IsSpace(s[0]) && !IsSpace(s[|s| - 1])
    ensures Strip(pre + s + post) == s
  {
    assert pre + s + post == pre + (s + post);
    TrimLeftPadded(pre, s + post);
    TrimRightPadded(s, post);
  }

  /** A name with no surrounding whitespace is its own strip. */
  lemma StripUnpadded(s: string)
    requires s != [] && !IsSpace(s[0]) && !IsSpace(s[|s| - 1])
    ensures Strip(s) == s
  {
    assert TrimLeft(s) == s;
  }

  /** A name with no upper-case letter is its own lower-case form. */
  lemma LowerUnchanged(s: string)
    requires forall i :: 0 <= i < |s| ==> !IsUpper(s[i])
    ensures Lower(s) == s
  {
  }

  /** "bob" becomes "Bob". */
  lemma BobLower()
    ensures Canonical("bob") == "Bob"
  {
    StripUnpadded("bob");
    LowerUnchanged("bob");
    assert Capitalize("bob") == "Bob";
  }

  /** " BOB " becomes "Bob": surrounding spaces and case are dropped. */
  lemma BobShouted()
    ensures Canonical(" BOB ") == "Bob"
  {
    StripPadded(" ", "BOB", " ");
    assert " " + "BOB" + " " == " BOB ";
    assert Lower("BOB") == "bob";
    assert Capitalize("bob") == "Bob";
  }

  /** "  bOB  " becomes "Bob". */
  lemma BobMixed()
    ensures Canonical("  bOB  ") == "Bob"
  {
    StripPadded("  ", "bOB", "  ");
    assert "  " + "bOB" + "  " == "  bOB  ";
    assert Lower("bOB") == "bob";
    assert Capitalize("bob") == "Bob";
  }
}
