/** Slugs for agent and task names, and the paths and branch names made from them. */
module Slugs {
  import opened Wrappers
  import opened Text

  predicate IsSlugChar(c: char) { IsAlnum(c) || c == '.' || c == '_' || c == '-' }

  predicate IsTrim(c: char) { c == '-' || c == '.' || c == '_' }

  /** `re.sub(r"[^a-zA-Z0-9._-]+", "-", s)`: the last character of a run becomes the dash. */
  function ReplaceRuns(s: string): string {
    if s == "" then ""
    else if IsSlugChar(s[0]) then [s[0]] + ReplaceRuns(s[1..])
    else if |s| > 1 && !IsSlugChar(s[1]) then ReplaceRuns(s[1..])
    else "-" + ReplaceRuns(s[1..])
  }

  lemma {:induction false} ReplaceRunsIs(s: string)
    ensures forall c :: c in ReplaceRuns(s) ==> IsSlugChar(c) && (c in s || c == '-')
    ensures forall c :: c in s && IsAlnum(c) ==> c in ReplaceRuns(s)
  {
    if s != "" {
      ReplaceRunsIs(s[1..]);
      assert s == [s[0]] + s[1..];
    }
  }

  lemma {:induction false} ReplaceNothing(s: string)
    requires forall c :: c in s ==> IsSlugChar(c)
    ensures ReplaceRuns(s) == s
  {
    if s != "" {
      ReplaceNothing(s[1..]);
    }
  }

  /** `None` is the error for a name without letters or digits. */
  function Slugify(value: string): Option<string> {
    var slug := Strip(IsTrim, ReplaceRuns(Lower(Strip(IsSpace, value))));
    if slug == "" then None else Some(slug)
  }

  predicate IsSlug(s: string) {
    && s != "" && IsAlnum(s[0]) && IsAlnum(s[|s| - 1])
    && forall i :: 0 <= i < |s| ==> IsSlugChar(s[i]) && !IsUpper(s[i])
  }

  ghost predicate HasAlnum(s: string) {
    exists i :: 0 <= i < |s| && IsAlnum(s[i])
  }

  lemma StripKeepsAlnum(p: char -> bool, s: string)
    requires forall c :: p(c) ==> !IsAlnum(c)
    ensures HasAlnum(Strip(p, s)) <==> HasAlnum(s)
  {
    var a, b := StripIs(p, s);
    if HasAlnum(s) {
      var i :| 0 <= i < |s| && IsAlnum(s[i]);
      assert s[a..b][i - a] == s[i];
    }
  }

  lemma LowerKeepsAlnum(s: string)
    ensures HasAlnum(Lower(s)) <==> HasAlnum(s)
  {
    if HasAlnum(s) {
      var i :| 0 <= i < |s| && IsAlnum(s[i]);
      assert IsAlnum(Lower(s)[i]);
    }
    if HasAlnum(Lower(s)) {
      var i :| 0 <= i < |s| && IsAlnum(Lower(s)[i]);
      assert IsAlnum(s[i]);
    }
  }

  lemma ReplaceKeepsAlnum(s: string)
    ensures HasAlnum(ReplaceRuns(s)) <==> HasAlnum(s)
  {
    ReplaceRunsIs(s);
    if HasAlnum(s) {
      var i :| 0 <= i < |s| && IsAlnum(s[i]);
      assert s[i] in ReplaceRuns(s);
    }
    if HasAlnum(ReplaceRuns(s)) {
      var i :| 0 <= i < |ReplaceRuns(s)| && IsAlnum(ReplaceRuns(s)[i]);
      assert ReplaceRuns(s)[i] in ReplaceRuns(s);
    }
  }

  /** Stripping a string of lower-case slug characters leaves a slug or nothing. */
  lemma StrippedIsSlug(s: string)
    requires forall c :: c in s ==> IsSlugChar(c) && !IsUpper(c)
    ensures Strip(IsTrim, s) != "" ==> IsSlug(Strip(IsTrim, s))
  {
    var a, b := StripIs(IsTrim, s);
    var slug := Strip(IsTrim, s);
    forall i | 0 <= i < |slug| ensures IsSlugChar(slug[i]) && !IsUpper(slug[i]) {
      assert slug[i] == s[a + i] && slug[i] in s;
    }
  }

  /** A name has a slug exactly if it contains a letter or a digit, and the slug is then well formed. */
  lemma SlugifyIs(value: string)
    ensures Slugify(value).Some? <==> HasAlnum(value)
    ensures Slugify(value).Some? ==> IsSlug(Slugify(value).value)
  {
    var lowered := Lower(Strip(IsSpace, value));
    var replaced := ReplaceRuns(lowered);
    StripKeepsAlnum(IsSpace, value);
    LowerKeepsAlnum(Strip(IsSpace, value));
    ReplaceKeepsAlnum(lowered);
    StripKeepsAlnum(IsTrim, replaced);
    ReplaceRunsIs(lowered);
    forall c | c in replaced ensures IsSlugChar(c) && !IsUpper(c) {
      if c != '-' {
        assert c in lowered;
      }
    }
    StrippedIsSlug(replaced);
  }

  lemma SlugIsFixed(s: string)
    requires IsSlug(s)
    ensures Slugify(s) == Some(s)
  {
    StripNothing(IsSpace, s);
    assert Lower(s) == s;
    ReplaceNothing(s);
    StripNothing(IsTrim, s);
  }

  /** Slugs are fixed points, hold no slash, and are never "." or "..". */
  lemma SlugifyIsIdempotent(value: string)
    requires Slugify(value).Some?
    ensures Slugify(Slugify(value).value) == Slugify(value)
    ensures '/' !in Slugify(value).value && Slugify(value).value != "." && Slugify(value).value != ".."
  {
    SlugifyIs(value);
    SlugIsFixed(Slugify(value).value);
  }

  // ----- slugs of words -----

  predicate AllSlugChars(s: string) {
    forall i :: 0 <= i < |s| ==> IsSlugChar(s[i])
  }

  predicate NoSlugChars(s: string) {
    forall i :: 0 <= i < |s| ==> !IsSlugChar(s[i])
  }

  /** Words with what separates them: one separator less than words. */
  function Written(ws: seq<string>, seps: seq<string>): string
    requires |seps| + 1 == |ws|
  {
    if seps == [] then ws[0] else ws[0] + seps[0] + Written(ws[1..], seps[1..])
  }

  lemma {:induction false} ReplaceAfterWord(w: string, rest: string)
    requires AllSlugChars(w)
    ensures ReplaceRuns(w + rest) == w + ReplaceRuns(rest)
  {
    if w == "" {
      assert w + rest == rest;
    } else {
      assert (w + rest)[1..] == w[1..] + rest;
      ReplaceAfterWord(w[1..], rest);
      assert [w[0]] + (w[1..] + ReplaceRuns(rest)) == w + ReplaceRuns(rest);
    }
  }

  /** A whole run of other characters becomes one dash. */
  lemma {:induction false} ReplaceRun(sep: string, rest: string)
    requires sep != "" && NoSlugChars(sep) && (rest != "" ==> IsSlugChar(rest[0]))
    ensures ReplaceRuns(sep + rest) == "-" + ReplaceRuns(rest)
  {
    assert (sep + rest)[1..] == sep[1..] + rest;
    if |sep| > 1 {
      assert (sep + rest)[1] == sep[1];
      ReplaceRun(sep[1..], rest);
    } else {
      assert sep[1..] + rest == rest;
    }
  }

  predicate AreWords(ws: seq<string>) {
    forall i :: 0 <= i < |ws| ==> ws[i] != "" && AllSlugChars(ws[i])
  }

  predicate AreSeparators(seps: seq<string>) {
    forall i :: 0 <= i < |seps| ==> seps[i] != "" && NoSlugChars(seps[i])
  }

  lemma WrittenStarts(ws: seq<string>, seps: seq<string>)
    requires |seps| + 1 == |ws| && AreWords(ws)
    ensures Written(ws, seps) != "" && Written(ws, seps)[0] == ws[0][0]
  {
  }

  lemma {:induction false} WrittenEnds(ws: seq<string>, seps: seq<string>)
    requires |seps| + 1 == |ws| && AreWords(ws)
    ensures var s, last := Written(ws, seps), ws[|ws| - 1];
            s != "" && s[|s| - 1] == last[|last| - 1]
  {
    if seps != [] {
      WrittenEnds(ws[1..], seps[1..]);
      assert ws[1..][|ws| - 2] == ws[|ws| - 1];
    }
  }

  lemma {:induction false} ReplaceWritten(ws: seq<string>, seps: seq<string>, trail: string)
    requires |seps| + 1 == |ws| && AreWords(ws) && AreSeparators(seps) && NoSlugChars(trail)
    ensures ReplaceRuns(Written(ws, seps) + trail) == Join("-", ws) + if trail == "" then "" else "-"
  {
    var tail := if trail == "" then "" else "-";
    if seps == [] {
      ReplaceAfterWord(ws[0], trail);
      if trail == "" {
        assert ReplaceRuns(trail) == "";
      } else {
        assert trail + "" == trail;
        ReplaceRun(trail, "");
        assert ReplaceRuns(trail) == "-" + "";
      }
    } else {
      var rest := Written(ws[1..], seps[1..]) + trail;
      assert Written(ws, seps) + trail == ws[0] + (seps[0] + rest);
      WrittenStarts(ws[1..], seps[1..]);
      assert AreWords(ws[1..]) && IsSlugChar(ws[1][0]);
      ReplaceAfterWord(ws[0], seps[0] + rest);
      ReplaceRun(seps[0], rest);
      ReplaceWritten(ws[1..], seps[1..], trail);
      assert ws[0] + ("-" + (Join("-", ws[1..]) + tail)) == (ws[0] + "-" + Join("-", ws[1..])) + tail;
    }
  }

  function LowerAll(ws: seq<string>): (r: seq<string>)
    ensures |r| == |ws|
  {
    seq(|ws|, i requires 0 <= i < |ws| => Lower(ws[i]))
  }

  lemma {:induction false} LowerWritten(ws: seq<string>, seps: seq<string>)
    requires |seps| + 1 == |ws|
    ensures Lower(Written(ws, seps)) == Written(LowerAll(ws), LowerAll(seps))
  {
    if seps != [] {
      LowerAppend(ws[0] + seps[0], Written(ws[1..], seps[1..]));
      LowerAppend(ws[0], seps[0]);
      LowerWritten(ws[1..], seps[1..]);
      assert LowerAll(ws)[1..] == LowerAll(ws[1..]) && LowerAll(seps)[1..] == LowerAll(seps[1..]);
    }
  }

  lemma {:induction false} JoinEnds(ws: seq<string>)
    requires ws != [] && forall i :: 0 <= i < |ws| ==> ws[i] != ""
    ensures var s, last := Join("-", ws), ws[|ws| - 1];
            s != "" && s[0] == ws[0][0] && s[|s| - 1] == last[|last| - 1]
  {
    if |ws| > 1 {
      JoinEnds(ws[1..]);
      assert ws[1..][|ws| - 2] == ws[|ws| - 1];
    }
  }

  /** Stripping what surrounds a core leaves the core with some of it. */
  lemma StripSome(p: char -> bool, lead: string, core: string, trail: string) returns (l: string, t: string)
    requires core != "" && !p(core[0]) && !p(core[|core| - 1])
    ensures Strip(p, lead + core + trail) == l + core + t
    ensures (forall c :: c in l ==> c in lead) && (forall c :: c in t ==> c in trail)
  {
    var s := lead + core + trail;
    var a, b := StripIs(p, s);
    assert s[|lead|] == core[0] && s[|lead| + |core| - 1] == core[|core| - 1];
    assert a <= |lead| && |lead| + |core| <= b;
    l, t := lead[a..], trail[..b - |lead| - |core|];
    assert s[a..b] == l + core + t;
  }

  /**
    The slug of words, however they are capitalised and separated, is the lower-case words with one
    dash between neighbours; what stands around them makes no difference.
  */
  lemma SlugOfWords(lead: string, ws: seq<string>, seps: seq<string>, trail: string)
    requires |seps| + 1 == |ws| && AreWords(ws) && AreSeparators(seps) && NoSlugChars(lead) && NoSlugChars(trail)
    requires IsAlnum(ws[0][0]) && IsAlnum(ws[|ws| - 1][|ws[|ws| - 1]| - 1])
    ensures Slugify(lead + Written(ws, seps) + trail) == Some(Join("-", LowerAll(ws)))
  {
    hide Strip, ReplaceRuns, Join, Written;
    var core, lower, lowerSeps := Written(ws, seps), LowerAll(ws), LowerAll(seps);
    WrittenStarts(ws, seps);
    WrittenEnds(ws, seps);
    var l, t := StripSome(IsSpace, lead, core, trail);
    LowerAppend(l + core, t);
    LowerAppend(l, core);
    LowerWritten(ws, seps);
    LowerIsNoSlug(l, lead);
    LowerIsNoSlug(t, trail);
    forall i | 0 <= i < |seps| ensures lowerSeps[i] != "" && NoSlugChars(lowerSeps[i]) {
      LowerIsNoSlug(seps[i], seps[i]);
    }
    assert AreWords(lower);
    WrittenStarts(lower, lowerSeps);
    var low, after := Lower(l), Written(lower, lowerSeps) + Lower(t);
    ReplaceWritten(lower, lowerSeps, Lower(t));
    ReplaceLead(low, after);
    assert Lower(l + core + t) == low + after;
    JoinEnds(lower);
    var before, end := if low == "" then "" else "-", if t == "" then "" else "-";
    assert ReplaceRuns(low + after) == before + Join("-", lower) + end;
    StripAround(IsTrim, before, Join("-", lower), end);
  }

  lemma LowerIsNoSlug(s: string, whole: string)
    requires NoSlugChars(whole) && forall c :: c in s ==> c in whole
    ensures NoSlugChars(Lower(s))
  {
    forall i | 0 <= i < |s| ensures !IsSlugChar(Lower(s)[i]) {
      assert s[i] in whole;
    }
  }

  lemma ReplaceLead(lead: string, rest: string)
    requires NoSlugChars(lead) && rest != "" && IsSlugChar(rest[0])
    ensures ReplaceRuns(lead + rest) == (if lead == "" then "" else "-") + ReplaceRuns(rest)
  {
    if lead == "" {
      assert lead + rest == rest;
    } else {
      ReplaceRun(lead, rest);
    }
  }

  // ----- branch names -----

  /** `s.split("/", 1)`: what is before the first slash, and after it if there is one. */
  function SlashAt(s: string): (n: nat)
    ensures n <= |s|
    ensures forall i :: 0 <= i < n ==> s[i] != '/'
    ensures n < |s| ==> s[n] == '/'
  {
    if s == "" || s[0] == '/' then 0 else 1 + SlashAt(s[1..])
  }

  /** `s.split("/", 1)[0]` */
  function BeforeSlash(s: string): string {
    s[..SlashAt(s)]
  }

  /** `s.split("/", 1)[-1]` */
  function AfterSlash(s: string): string {
    if SlashAt(s) == |s| then s else s[SlashAt(s) + 1..]
  }

  lemma SlugHasNoSlash(s: string)
    requires IsSlug(s)
    ensures AfterSlash(s) == s
  {
    assert forall i :: 0 <= i < |s| ==> IsSlugChar(s[i]) && s[i] != '/';
  }

  // ----- paths -----

  type Path = seq<string>  // the parts of an absolute path

  predicate IsNormal(path: Path) {
    forall i :: 0 <= i < |path| ==> path[i] != "." && path[i] != ".."
  }

  /** `Path.resolve()` without symbolic links. */
  function ResolvePath(path: Path): Path {
    if path == [] then []
    else
      var last, before := path[|path| - 1], ResolvePath(path[..|path| - 1]);
      if last == "." then before
      else if last == ".." then (if before == [] then [] else before[..|before| - 1])
      else before + [last]
  }

  lemma {:induction false} NormalIsFixed(path: Path)
    requires IsNormal(path)
    ensures ResolvePath(path) == path
  {
    if path != [] {
      NormalIsFixed(path[..|path| - 1]);
      assert path == path[..|path| - 1] + [path[|path| - 1]];
    }
  }

  /** "." stays where it is, ".." goes up if it can, anything else goes down; dots never remain. */
  lemma {:induction false} ResolveSteps(path: Path, part: string)
    ensures ResolvePath(path + ["."]) == ResolvePath(path)
    ensures part != "." && part != ".." ==>
              && ResolvePath(path + [part]) == ResolvePath(path) + [part]
              && ResolvePath(path + [part, ".."]) == ResolvePath(path)
    ensures path == [] ==> ResolvePath(path + [".."]) == []
    ensures IsNormal(ResolvePath(path))
  {
    assert (path + ["."])[..|path|] == path && (path + [part])[..|path|] == path && (path + [".."])[..|path|] == path;
    assert (path + [part, ".."])[..|path| + 1] == path + [part];
    if path != [] {
      ResolveSteps(path[..|path| - 1], part);
    }
  }

  predicate IsRelativeTo(path: Path, parent: Path) {
    parent <= path
  }
}
