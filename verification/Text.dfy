/** ASCII character classes, lower-casing, and joining of strings. */
module Text {

  predicate IsUpper(c: char) { 'A' <= c <= 'Z' }

  predicate IsLower(c: char) { 'a' <= c <= 'z' }

  predicate IsDigit(c: char) { '0' <= c <= '9' }

  predicate IsLetter(c: char) { IsUpper(c) || IsLower(c) }

  predicate IsAlnum(c: char) { IsLetter(c) || IsDigit(c) }

  const UPPER: string := "ABCDEFGHIJKLMNOPQRSTUVWXYZ"

  const LOWER: string := "abcdefghijklmnopqrstuvwxyz"

  /** The letters, spelled out by their place in the alphabet. */
  lemma LettersAre(n: nat)
    requires n < 26
    ensures |UPPER| == |LOWER| == 26
    ensures IsUpper(UPPER[n]) && IsLower(LOWER[n]) && ToLower(UPPER[n]) == LOWER[n] && ToUpper(LOWER[n]) == UPPER[n]
  {
  }

  lemma NoOtherLetters(c: char)
    ensures IsUpper(c) ==> UPPER[c as int - 65] == c
    ensures IsLower(c) ==> LOWER[c as int - 97] == c
  {
  }

  lemma DigitsAre(c: char)
    ensures IsDigit(c) <==> c in "0123456789"
  {
    assert IsDigit(c) ==> "0123456789"[c as int - 48] == c;
  }

  function ToLower(c: char): (r: char)
    ensures IsAlnum(c) <==> IsAlnum(r)
    ensures IsDigit(c) <==> IsDigit(r)
    ensures !IsUpper(r) && (!IsUpper(c) ==> r == c)
  {
    if IsUpper(c) then (c as int + 32) as char else c
  }

  function ToUpper(c: char): (r: char)
    ensures IsLower(c) ==> IsUpper(r)
    ensures IsLower(c) ==> ToLower(r) == c
    ensures !IsLower(c) ==> r == c
  {
    if IsLower(c) then (c as int - 32) as char else c
  }

  function Lower(s: string): (r: string)
    ensures |r| == |s| && forall i :: 0 <= i < |s| ==> r[i] == ToLower(s[i])
  {
    seq(|s|, i requires 0 <= i < |s| => ToLower(s[i]))
  }

  function Upper(s: string): (r: string)
    ensures |r| == |s| && forall i :: 0 <= i < |s| ==> r[i] == ToUpper(s[i])
  {
    seq(|s|, i requires 0 <= i < |s| => ToUpper(s[i]))
  }

  lemma LowerAppend(a: string, b: string)
    ensures Lower(a + b) == Lower(a) + Lower(b)
  {
  }

  function Concat(parts: seq<string>): string {
    if parts == [] then "" else parts[0] + Concat(parts[1..])
  }

  /** `sep.join(parts)` */
  function Join(sep: string, parts: seq<string>): string {
    if parts == [] then ""
    else if |parts| == 1 then parts[0]
    else parts[0] + sep + Join(sep, parts[1..])
  }

  /** The length of the longest prefix of `s` whose characters all satisfy `p`. */
  function Span(p: char -> bool, s: string): (n: nat)
    ensures n <= |s|
    ensures forall i :: 0 <= i < n ==> p(s[i])
    ensures n < |s| ==> !p(s[n])
  {
    if s == "" || !p(s[0]) then 0 else 1 + Span(p, s[1..])
  }

  /** The ASCII characters that `str.strip` and `\s` take for white space. */
  predicate IsSpace(c: char) { c == ' ' || '\t' <= c <= '\r' || '\U{1c}' <= c <= '\U{1f}' }

  lemma SpacesAre(c: char)
    ensures IsSpace(c) <==> c in " \t\n\U{b}\U{c}\r\U{1c}\U{1d}\U{1e}\U{1f}"
  {
  }

  function StripLeft(p: char -> bool, s: string): string {
    if s == "" || !p(s[0]) then s else StripLeft(p, s[1..])
  }

  function StripRight(p: char -> bool, s: string): string {
    if s == "" || !p(s[|s| - 1]) then s else StripRight(p, s[..|s| - 1])
  }

  /** `s.strip(chars)` */
  function Strip(p: char -> bool, s: string): string {
    StripRight(p, StripLeft(p, s))
  }

  lemma {:induction false} StripLeftIs(p: char -> bool, s: string) returns (a: nat)
    ensures a <= |s| && StripLeft(p, s) == s[a..]
    ensures forall i :: 0 <= i < a ==> p(s[i])
    ensures a < |s| ==> !p(s[a])
  {
    if s == "" || !p(s[0]) {
      a := 0;
    } else {
      a := StripLeftIs(p, s[1..]);
      a := a + 1;
    }
  }

  lemma {:induction false} StripRightIs(p: char -> bool, s: string) returns (b: nat)
    ensures b <= |s| && StripRight(p, s) == s[..b]
    ensures forall i :: b <= i < |s| ==> p(s[i])
    ensures 0 < b ==> !p(s[b - 1])
  {
    if s == "" || !p(s[|s| - 1]) {
      b := |s|;
    } else {
      b := StripRightIs(p, s[..|s| - 1]);
    }
  }

  lemma StripIs(p: char -> bool, s: string) returns (a: nat, b: nat)
    ensures a <= b <= |s| && Strip(p, s) == s[a..b]
    ensures forall i :: 0 <= i < a || b <= i < |s| ==> p(s[i])
    ensures a < b ==> !p(s[a]) && !p(s[b - 1])
  {
    a := StripLeftIs(p, s);
    var n := StripRightIs(p, s[a..]);
    b := a + n;
    forall i | b <= i < |s| ensures p(s[i]) {
      assert s[i] == s[a..][i - a];
    }
    assert s[a..][..n] == s[a..b];
  }

  lemma StripNothing(p: char -> bool, s: string)
    requires s != "" ==> !p(s[0]) && !p(s[|s| - 1])
    ensures Strip(p, s) == s
  {
  }

  /** What is stripped around a core is all of what surrounds it, and nothing of the core. */
  lemma StripAround(p: char -> bool, lead: string, core: string, trail: string)
    requires core != "" && !p(core[0]) && !p(core[|core| - 1])
    requires (forall i :: 0 <= i < |lead| ==> p(lead[i])) && (forall i :: 0 <= i < |trail| ==> p(trail[i]))
    ensures Strip(p, lead + core + trail) == core
  {
    var s := lead + core + trail;
    var a, b := StripIs(p, s);
    assert s[|lead|] == core[0] && s[|lead| + |core| - 1] == core[|core| - 1];
    assert forall i :: 0 <= i < |lead| ==> s[i] == lead[i];
    assert forall i :: 0 <= i < |trail| ==> s[|lead| + |core| + i] == trail[i];
    assert a == |lead| && b == |lead| + |core|;
    assert s[a..b] == core;
  }

  lemma StripAll(p: char -> bool, s: string)
    requires forall i :: 0 <= i < |s| ==> p(s[i])
    ensures Strip(p, s) == ""
  {
    var a, b := StripIs(p, s);
    assert a == b;
  }

  /** Stripping takes off what is there to take off, at either end. */
  lemma StripShortens(p: char -> bool, s: string)
    ensures |Strip(p, s)| <= |s|
    ensures s != "" && (p(s[0]) || p(s[|s| - 1])) ==> |Strip(p, s)| < |s|
  {
    var a, b := StripIs(p, s);
  }

  lemma StripTrailing(p: char -> bool, s: string, trail: string)
    requires forall i :: 0 <= i < |trail| ==> p(trail[i])
    ensures Strip(p, s + trail) == Strip(p, s)
  {
    var a, b := StripIs(p, s);
    if a == b {
      assert forall i :: 0 <= i < |s| ==> p(s[i]);
      StripAll(p, s);
      StripAll(p, s + trail);
    } else {
      assert s + trail == s[..a] + s[a..b] + (s[b..] + trail);
      StripAround(p, s[..a], s[a..b], s[b..] + trail);
    }
  }
}
