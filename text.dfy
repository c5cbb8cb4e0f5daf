/**
 * Character and string helpers shared by the Python and the C# parts of the system.
 * Case mapping is modelled for the ASCII letters only, and whitespace as the six ASCII
 * whitespace characters only: Python and C# also treat further characters as
 * whitespace (\x1c-\x1f, \x85, \xa0, U+2000-U+200A and others), which the model does not.
 */
module Text {

  predicate IsUpper(c: char) { 'A' <= c <= 'Z' }

  predicate IsLowerLetter(c: char) { 'a' <= c <= 'z' }

  /**
   * The ASCII part of the whitespace that Python's `str.strip` and C#'s
   * `Trim`/`IsNullOrWhiteSpace` remove; the non-ASCII whitespace is not modelled.
   */
  predicate IsSpace(c: char) {
    c == ' ' || c == '\t' || c == '\n' || c == '\r' || c == '\U{000B}' || c == '\U{000C}'
  }

  function LowerChar(c: char): (r: char)
    ensures !IsUpper(r)
    ensures IsSpace(r) <==> IsSpace(c)
    ensures !IsUpper(c) ==> r == c
  {
    if IsUpper(c) then (c as int + 32) as char else c
  }

  function UpperChar(c: char): (r: char)
    ensures !IsLowerLetter(r)
    ensures IsSpace(r) <==> IsSpace(c)
    ensures !IsLowerLetter(c) ==> r == c
  {
    if IsLowerLetter(c) then (c as int - 32) as char else c
  }

  /** Python's `str.lower`, C#'s `ToLower`/`ToLowerInvariant`, character by character. */
  function Lower(s: string): (r: string)
    ensures |r| == |s|
    ensures forall i :: 0 <= i < |s| ==> r[i] == LowerChar(s[i])
  {
    seq(|s|, i requires 0 <= i < |s| => LowerChar(s[i]))
  }

  /** C#'s `ToUpperInvariant`, character by character. */
  function Upper(s: string): (r: string)
    ensures |r| == |s|
    ensures forall i :: 0 <= i < |s| ==> r[i] == UpperChar(s[i])
  {
    seq(|s|, i requires 0 <= i < |s| => UpperChar(s[i]))
  }

  predicate HasNoUpper(s: string) { forall i :: 0 <= i < |s| ==> !IsUpper(s[i]) }

  /** `StringComparison.OrdinalIgnoreCase` equality, and Python's `a.lower() == b.lower()`. */
  predicate EqualsIgnoreCase(a: string, b: string) { Lower(a) == Lower(b) }

  /** `string.IsNullOrWhiteSpace` of a non-null string, and Python's `not s.strip()`. */
  predicate IsBlank(s: string) { forall i :: 0 <= i < |s| ==> IsSpace(s[i]) }

  predicate StartsWith(s: string, prefix: string) { |prefix| <= |s| && s[..|prefix|] == prefix }

  /** The number of leading whitespace characters. */
  function LeadingSpaces(s: string): (n: nat)
    ensures n <= |s|
    ensures n == |s| || !IsSpace(s[n])
    ensures forall i :: 0 <= i < n ==> IsSpace(s[i])
    decreases |s|
  {
    if |s| > 0 && IsSpace(s[0]) then 1 + LeadingSpaces(s[1..]) else 0
  }

  /** Removes leading whitespace. */
  function TrimStart(s: string): (r: string)
    ensures |r| <= |s| && r == s[|s| - |r|..]
    ensures r == [] || !IsSpace(r[0])
    ensures forall i :: 0 <= i < |s| - |r| ==> IsSpace(s[i])
  {
    s[LeadingSpaces(s)..]
  }

  /** The number of trailing whitespace characters. */
  function TrailingSpaces(s: string): (n: nat)
    ensures n <= |s|
    ensures n == |s| || !IsSpace(s[|s| - 1 - n])
    ensures forall i :: |s| - n <= i < |s| ==> IsSpace(s[i])
    decreases |s|
  {
    if |s| > 0 && IsSpace(s[|s| - 1]) then 1 + TrailingSpaces(s[..|s| - 1]) else 0
  }

  /** Removes trailing whitespace (C#'s `TrimEnd()`). */
  function TrimEnd(s: string): (r: string)
    ensures |r| <= |s| && r == s[..|r|]
    ensures r == [] || !IsSpace(r[|r| - 1])
    ensures forall i :: |r| <= i < |s| ==> IsSpace(s[i])
  {
    s[..|s| - TrailingSpaces(s)]
  }

  /** A prefix with a non-blank end after which only whitespace follows is what `TrimEnd` keeps. */
  lemma TrimEndUnique(s: string, k: nat)
    requires k <= |s| && (k == 0 || !IsSpace(s[k - 1]))
    requires forall i :: k <= i < |s| ==> IsSpace(s[i])
    ensures TrimEnd(s) == s[..k]
  {
  }

  /** Python's `str.strip()` and C#'s `Trim()`. */
  function Strip(s: string): (r: string)
    ensures r == [] || (!IsSpace(r[0]) && !IsSpace(r[|r| - 1]))
    ensures |r| <= |s|
    ensures r == [] <==> IsBlank(s)
  {
    var a := LeadingSpaces(s);
    if a == |s| then [] else s[a..|s| - TrailingSpaces(s)]
  }

  /** Stripping keeps a contiguous part of the string. */
  lemma StripIsSlice(s: string)
    ensures forall i :: 0 <= i < |Strip(s)| ==> Strip(s)[i] in s
  {
    var r := Strip(s);
    var a := LeadingSpaces(s);
    forall i | 0 <= i < |r| ensures r[i] in s {
      assert r[i] == s[a + i];
    }
  }

  /** Stripping keeps a string free of upper-case letters. */
  lemma StripNoUpper(s: string)
    requires HasNoUpper(s)
    ensures HasNoUpper(Strip(s))
  {
    var r := Strip(s);
    var a := LeadingSpaces(s);
    forall i | 0 <= i < |r| ensures !IsUpper(r[i]) {
      assert r[i] == s[a + i];
    }
  }

  /** Stripping is trimming both ends. */
  lemma StripIsTrimBoth(s: string)
    ensures Strip(s) == TrimEnd(TrimStart(s))
  {
    var t := TrimStart(s);
    var a := LeadingSpaces(s);
    if a < |s| {
      var k := |s| - TrailingSpaces(s) - a;
      assert t[k - 1] == s[|s| - TrailingSpaces(s) - 1];
      TrimEndUnique(t, k);
      assert t[..k] == s[a..|s| - TrailingSpaces(s)];
    } else {
      TrimEndUnique(t, 0);
    }
  }

  /** A string without surrounding whitespace is its own strip. */
  lemma StripUnchanged(s: string)
    requires s != [] && !IsSpace(s[0]) && !IsSpace(s[|s| - 1])
    ensures Strip(s) == s
  {
    assert s[0..|s|] == s;
  }

  /** One blank on each side of such a string is stripped away. */
  lemma StripPadded(s: string, c: char, d: char)
    requires s != [] && !IsSpace(s[0]) && !IsSpace(s[|s| - 1]) && IsSpace(c) && IsSpace(d)
    ensures Strip([c] + s + [d]) == s
  {
    var p := [c] + s + [d];
    assert p[1..] == s + [d];
    assert LeadingSpaces(p) == 1;
    assert p[..|p| - 1] == [c] + s;
    assert TrailingSpaces(p) == 1;
    assert p[1..|p| - 1] == s;
  }

  /** Lower-casing distributes over concatenation. */
  lemma LowerAppend(a: string, b: string)
    ensures Lower(a + b) == Lower(a) + Lower(b)
  {
    var l, r := Lower(a + b), Lower(a) + Lower(b);
    forall i | 0 <= i < |l| ensures l[i] == r[i] {
      if i < |a| {
        assert (a + b)[i] == a[i];
      } else {
        assert (a + b)[i] == b[i - |a|];
      }
    }
  }

  /** Lower-casing a string without upper-case letters leaves it unchanged. */
  lemma LowerUnchanged(s: string)
    requires HasNoUpper(s)
    ensures Lower(s) == s
  {
  }

  /** The elements of `ws` separated by `sep` (Python's `sep.join(ws)`). */
  function Join(ws: seq<string>, sep: string): (r: string)
    decreases |ws|
  {
    if |ws| == 0 then [] else if |ws| == 1 then ws[0] else ws[0] + sep + Join(ws[1..], sep)
  }

  /** Appending one more element to a joined sequence adds the separator and the element. */
  lemma {:induction false} JoinSnoc(ws: seq<string>, w: string, sep: string)
    requires |ws| > 0
    ensures Join(ws + [w], sep) == Join(ws, sep) + sep + w
    decreases |ws|
  {
    if |ws| > 1 {
      assert (ws + [w])[1..] == ws[1..] + [w];
      JoinSnoc(ws[1..], w, sep);
    }
  }

  /** The position of the first `c` in `s`, if any. */
  function IndexOf(s: string, c: char): (r: int)
    ensures -1 <= r < |s|
    ensures r >= 0 ==> s[r] == c && c !in s[..r]
    ensures r < 0 ==> c !in s
    decreases |s|
  {
    if |s| == 0 then -1
    else if s[0] == c then 0
    else var k := IndexOf(s[1..], c); if k < 0 then -1 else k + 1
  }

  /** The position of the last `c` in `s`, or -1 (Python's `rfind`, C#'s `LastIndexOf`). */
  function LastIndexOf(s: string, c: char): (r: int)
    ensures -1 <= r < |s|
    ensures r >= 0 ==> s[r] == c
    ensures forall i :: r < i < |s| ==> s[i] != c
    decreases |s|
  {
    if s == [] then -1
    else if s[|s| - 1] == c then |s| - 1
    else LastIndexOf(s[..|s| - 1], c)
  }

  /** Joining `a` in front of a non-empty sequence adds `a` and the separator. */
  lemma JoinCons(a: string, rest: seq<string>, sep: string)
    requires |rest| > 0
    ensures Join([a] + rest, sep) == a + sep + Join(rest, sep)
  {
    assert ([a] + rest)[1..] == rest;
  }

  /** Python's `s.split(c)` for a one-character separator. */
  function Split(s: string, c: char): (r: seq<string>)
    ensures |r| >= 1
    ensures forall i :: 0 <= i < |r| ==> c !in r[i]
    ensures Join(r, [c]) == s
    decreases |s|
  {
    var k := IndexOf(s, c);
    if k < 0 then [s]
    else
      var rest := Split(s[k + 1..], c);
      JoinCons(s[..k], rest, [c]);
      assert s[..k] + [c] + s[k + 1..] == s;
      [s[..k]] + rest
  }

  /** C#'s ordinal `s.Contains(sub, StringComparison.OrdinalIgnoreCase)`. */
  predicate ContainsIgnoreCase(s: string, sub: string) {
    exists i {:trigger s[i..]} :: 0 <= i <= |s| - |sub| && Lower(s[i..i + |sub|]) == Lower(sub)
  }
}
