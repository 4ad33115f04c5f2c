/**
  Names written in the usual styles: which of them give back their words. Separators always do; where
  words are only capitalised, neighbours can run together.
*/
module NamingStyles {
  import opened Text
  import opened NameTokens

  // ----- names written with separators -----

  /** The ways of writing a word: lower case, upper case, or capitalised. */
  predicate Spells(written: string, w: string) {
    Lower(written) == w && (written == w || written == Upper(w) || written == Capitalise(w))
  }

  function Capitalise(w: string): (r: string)
    ensures |r| == |w|
  {
    if w == "" then "" else [ToUpper(w[0])] + w[1..]
  }

  /** A written word is one segment when a separator or the end follows. */
  lemma SpelledWordIsOneSegment(written: string, w: string, rest: string)
    requires IsWord(w) && Spells(written, w)
    requires rest == "" || IsSeparator(rest[0])
    ensures Segments(written + rest) == [written] + Segments(rest)
  {
    var s := written + rest;
    assert |written| == |w|;
    forall i | 0 <= i < |w| ensures IsAlnum(s[i]) && IsDigit(s[i]) == IsDigit(w[0]) {
      assert s[i] == written[i] && w[i] in w && w[0] in w;
      assert Lower(written)[i] == w[i];
    }
    forall i | 0 < i < |w| ensures !BoundaryAt(s, i) {
      assert s[i - 1] == written[i - 1] && s[i] == written[i] && w[i] in w && w[i - 1] in w;
      if i + 1 < |w| {
        assert s[i + 1..][0] == written[i + 1] && w[i + 1] in w;
      }
    }
    NextBoundaryIs(s, |w|);
    assert s[..|w|] == written && s[|w|..] == rest;
  }

  ghost predicate AllSpell(written: seq<string>, ws: seq<string>) {
    |written| == |ws| && forall i :: 0 <= i < |ws| ==> Spells(written[i], ws[i])
  }

  lemma {:induction false} SegmentsOfJoined(written: seq<string>, ws: seq<string>, sep: string)
    requires AreWords(ws) && AllSpell(written, ws)
    requires sep != "" && forall c :: c in sep ==> IsSeparator(c)
    ensures Segments(Join(sep, written)) == written
    decreases |ws|
  {
    hide Segments, IsWord, Spells, IsSeparator;
    SegmentsOfNothing();
    if |ws| == 1 {
      SpelledWordIsOneSegment(written[0], ws[0], "");
      assert written[0] + "" == written[0] && written == [written[0]];
    } else if |ws| > 1 {
      assert sep[0] in sep && (sep + Join(sep, written[1..]))[0] == sep[0];
      var tail := Join(sep, written[1..]);
      SegmentsOfJoined(written[1..], ws[1..], sep);
      SpelledWordIsOneSegment(written[0], ws[0], sep + tail);
      assert written[0] + sep + tail == written[0] + (sep + tail);
      SegmentsSkip(sep, tail);
    }
  }

  lemma {:induction false} SegmentsSkip(sep: string, tail: string)
    requires forall c :: c in sep ==> IsSeparator(c)
    ensures Segments(sep + tail) == Segments(tail)
  {
    if sep == "" {
      assert sep + tail == tail;
    } else {
      assert (sep + tail)[1..] == sep[1..] + tail;
      SegmentsSkip(sep[1..], tail);
    }
  }

  lemma {:induction false} LowerAllOfSpelled(written: seq<string>, ws: seq<string>)
    requires AllSpell(written, ws)
    ensures LowerAll(written) == ws
  {
    if ws != [] {
      LowerAllOfSpelled(written[1..], ws[1..]);
    }
  }

  /**
    snake_case, kebab-case, SCREAMING_CASE, spaced and dotted names: whether a word is in lower
    case, in upper case or capitalised, and whatever run of separators stands between the words, they
    come back.
  */
  lemma SeparatedNameParses(written: seq<string>, ws: seq<string>, sep: string)
    requires AreWords(ws) && AllSpell(written, ws)
    requires sep != "" && forall c :: c in sep ==> IsSeparator(c)
    ensures Tokens(Join(sep, written)) == ws
  {
    SegmentsOfJoined(written, ws, sep);
    LowerAllOfSpelled(written, ws);
    TokensAreSegments(Join(sep, written));
  }

  /** Rendering the tokens in snake case and tokenising again changes nothing. */
  lemma SnakeCaseReparses(name: string)
    ensures Tokens(Join("_", Tokens(name))) == Tokens(name)
  {
    TokensLoseNothing(name);
    var ws := Tokens(name);
    forall i | 0 <= i < |ws| ensures Spells(ws[i], ws[i]) {
      WordIsLower(ws[i]);
    }
    SeparatedNameParses(ws, ws, "_");
  }

  // ----- names written without separators -----

  function PascalCase(ws: seq<string>): string {
    if ws == [] then "" else Capitalise(ws[0]) + PascalCase(ws[1..])
  }

  function CamelCase(ws: seq<string>): string {
    if ws == [] then "" else ws[0] + PascalCase(ws[1..])
  }

  /** Two neighbouring words that run together when written without a separator. */
  predicate RunTogether(a: string, b: string) {
    && a != "" && b != ""
    && ((IsDigit(a[0]) && IsDigit(b[0])) || (|a| == 1 && |b| == 1 && IsLower(a[0]) && IsLower(b[0])))
  }

  ghost predicate NoneRunTogether(ws: seq<string>) {
    forall i :: 0 <= i < |ws| - 1 ==> !RunTogether(ws[i], ws[i + 1])
  }

  lemma WordChar(w: string, i: nat)
    requires IsWord(w) && i < |w|
    ensures IsDigit(w[i]) == IsDigit(w[0]) && (IsDigit(w[0]) || IsLower(w[i])) && IsAlnum(ToUpper(w[i]))
  {
    assert w[i] in w && w[0] in w;
  }

  lemma NoBoundaryInCapitalised(w: string, tail: string, i: nat)
    requires IsWord(w) && 0 < i < |w|
    ensures !BoundaryAt(Capitalise(w) + tail, i)
  {
    hide IsWord;
    WordChar(w, i);
    WordChar(w, i - 1);
    var s := Capitalise(w) + tail;
    assert s[i] == w[i] && (i > 1 ==> s[i - 1] == w[i - 1]);
  }

  lemma BoundaryAfterCapitalised(w: string, ws: seq<string>)
    requires IsWord(w) && AreWords(ws) && ws != []
    ensures var s := Capitalise(w) + PascalCase(ws);
            |w| < |s| && (BoundaryAt(s, |w|) <==> !RunTogether(w, ws[0]))
  {
    hide IsWord, PascalCase, Capitalise;
    var tail, v := PascalCase(ws), ws[0];
    var s := Capitalise(w) + tail;
    WordIsNotEmpty(v);
    WordIsNotEmpty(w);
    WordChar(v, 0);
    WordChar(w, |w| - 1);
    PascalStarts(ws);
    LastOfCapitalised(w);
    assert s[|w|] == ToUpper(v[0]) && s[|w| - 1] == Capitalise(w)[|w| - 1];
    PascalNext(ws);
    assert s[|w| + 1..] == tail[1..];
  }

  lemma PascalStarts(ws: seq<string>)
    requires ws != [] && ws[0] != ""
    ensures PascalCase(ws) != "" && PascalCase(ws)[0] == ToUpper(ws[0][0])
  {
  }

  lemma LastOfCapitalised(w: string)
    requires w != ""
    ensures Capitalise(w)[|w| - 1] == if |w| == 1 then ToUpper(w[0]) else w[|w| - 1]
  {
  }

  lemma WordIsNotEmpty(w: string)
    requires IsWord(w)
    ensures w != ""
  {
  }

  /** How a capitalised word followed by more capitalised words is cut. */
  lemma PascalHead(w: string, ws: seq<string>)
    requires IsWord(w) && AreWords(ws)
    ensures var s := Capitalise(w) + PascalCase(ws);
            && s != "" && IsAlnum(s[0])
            && NextBoundary(s, 1) >= |w|
            && (NextBoundary(s, 1) == |w| <==> ws == [] || !RunTogether(w, ws[0]))
  {
    hide IsWord, PascalCase, BoundaryAt, NextBoundary, RunTogether, AreWords;
    var s := Capitalise(w) + PascalCase(ws);
    PascalOfNone();
    WordIsNotEmpty(w);
    WordChar(w, 0);
    forall i | 0 < i < |w| ensures !BoundaryAt(s, i) {
      NoBoundaryInCapitalised(w, PascalCase(ws), i);
    }
    if ws == [] {
      NextBoundaryIs(s, |w|);
    } else {
      BoundaryAfterCapitalised(w, ws);
      if BoundaryAt(s, |w|) {
        NextBoundaryIs(s, |w|);
      }
    }
  }

  lemma PascalOfNone()
    ensures PascalCase([]) == ""
  {
  }

  lemma SegmentsUnfold(s: string)
    requires s != "" && IsAlnum(s[0])
    ensures var k := NextBoundary(s, 1);
            LowerAll(Segments(s)) == [Lower(s[..k])] + LowerAll(Segments(s[k..]))
  {
    hide NextBoundary;
    var k := NextBoundary(s, 1);
    assert Segments(s)[1..] == Segments(s[k..]);
  }

  /** After its first character, Pascal case goes on in lower case only inside a longer word of letters. */
  lemma PascalNext(ws: seq<string>)
    requires AreWords(ws) && ws != []
    ensures var rest := PascalCase(ws)[1..];
            (rest != "" && IsLower(rest[0])) <==> (|ws[0]| > 1 && IsLower(ws[0][0]))
  {
    var v := ws[0];
    assert v in ws && v[0] in v;
    var s := PascalCase(ws);
    if |v| > 1 {
      assert s[1] == v[1] && v[1] in v;
    } else if |ws| > 1 {
      assert ws[1] in ws && ws[1][0] in ws[1];
      assert s[1..] == PascalCase(ws[1..]);
      assert s[1..][0] == ToUpper(ws[1][0]);
    }
  }

  lemma LowerOfCapitalised(w: string)
    requires IsWord(w)
    ensures Lower(Capitalise(w)) == w
  {
    forall i | 0 <= i < |w| ensures Lower(Capitalise(w))[i] == w[i] {
      assert w[i] in w;
    }
  }

  lemma {:induction false} PascalSegments(ws: seq<string>)
    requires AreWords(ws)
    ensures LowerAll(Segments(PascalCase(ws))) == ws <==> NoneRunTogether(ws)
    decreases |ws|
  {
    hide Segments, LowerAll, NextBoundary, NoneRunTogether, RunTogether, IsWord;
    if ws == [] {
      PascalOfNone();
      SegmentsOfNothing();
      NothingRunsTogether();
    } else {
      assert IsWord(ws[0]);
      var w, rest := ws[0], ws[1..];
      var s := PascalCase(ws);
      PascalHead(w, rest);
      var k := NextBoundary(s, 1);
      PascalSegments(rest);
      SegmentsUnfold(s);
      NoneRunTogetherCons(ws);
      if k == |w| {
        assert s[..k] == Capitalise(w) && s[k..] == PascalCase(rest);
        LowerOfCapitalised(w);
        assert ws == [w] + rest;
      } else {
        assert |LowerAll(Segments(s))[0]| == k;
      }
    }
  }

  lemma NothingRunsTogether()
    ensures LowerAll([]) == [] && NoneRunTogether([])
  {
  }

  lemma NoneRunTogetherCons(ws: seq<string>)
    requires AreWords(ws) && ws != []
    ensures NoneRunTogether(ws) <==> (|ws| == 1 || !RunTogether(ws[0], ws[1])) && NoneRunTogether(ws[1..])
  {
    var rest := ws[1..];
    if (|ws| == 1 || !RunTogether(ws[0], ws[1])) && NoneRunTogether(rest) {
      forall i | 0 <= i < |ws| - 1 ensures !RunTogether(ws[i], ws[i + 1]) {
        if i > 0 {
          assert rest[i - 1] == ws[i] && rest[i] == ws[i + 1];
        }
      }
    }
    if NoneRunTogether(ws) {
      forall i | 0 <= i < |rest| - 1 ensures !RunTogether(rest[i], rest[i + 1]) {
        assert rest[i] == ws[i + 1] && rest[i + 1] == ws[i + 2];
      }
    }
  }

  /**
    The tokeniser's documentation promises that PascalCase gives the same tokens as snake_case. That
    holds exactly when no two neighbouring words are both numbers or both single letters.
  */
  lemma PascalCaseReparsesIff(ws: seq<string>)
    requires AreWords(ws)
    ensures Tokens(PascalCase(ws)) == ws <==> NoneRunTogether(ws)
  {
    TokensAreSegments(PascalCase(ws));
    PascalSegments(ws);
  }

  /** In camelCase the first word stays in lower case, so it runs only into a number after a number. */
  lemma CamelCaseReparsesIff(ws: seq<string>)
    requires AreWords(ws) && ws != []
    ensures Tokens(CamelCase(ws)) == ws <==>
              NoneRunTogether(ws[1..]) && (|ws| == 1 || !(IsDigit(ws[0][0]) && IsDigit(ws[1][0])))
  {
    hide Segments, LowerAll, NextBoundary, NoneRunTogether, IsWord, Tokens;
    assert IsWord(ws[0]);
    var w, rest := ws[0], ws[1..];
    var s := CamelCase(ws);
    WordIsNotEmpty(w);
    CamelHead(w, rest);
    var k := NextBoundary(s, 1);
    SegmentsUnfold(s);
    TokensAreSegments(s);
    if k == |w| {
      assert s[..k] == w && s[k..] == PascalCase(rest);
      PascalSegments(rest);
      WordIsLower(w);
      assert ws == [w] + rest;
    } else {
      assert |LowerAll(Segments(s))[0]| == k;
    }
  }

  lemma WordIsLower(w: string)
    requires IsWord(w)
    ensures Lower(w) == w
  {
    forall i | 0 <= i < |w| ensures Lower(w)[i] == w[i] {
      assert w[i] in w;
    }
  }

  lemma CamelHead(w: string, ws: seq<string>)
    requires IsWord(w) && AreWords(ws)
    ensures var s := w + PascalCase(ws);
            && s != "" && IsAlnum(s[0])
            && NextBoundary(s, 1) >= |w|
            && (NextBoundary(s, 1) == |w| <==> ws == [] || !(IsDigit(w[0]) && IsDigit(ws[0][0])))
  {
    var s := w + PascalCase(ws);
    assert w[0] in w && w[|w| - 1] in w;
    forall i | 0 < i < |w| ensures !BoundaryAt(s, i) {
      assert s[i] == w[i] && s[i - 1] == w[i - 1] && w[i] in w && w[i - 1] in w;
    }
    if ws == [] {
      NextBoundaryIs(s, |w|);
    } else {
      var v := ws[0];
      assert v[0] in v;
      assert s[|w|] == ToUpper(v[0]) && s[|w| - 1] == w[|w| - 1];
      if BoundaryAt(s, |w|) {
        NextBoundaryIs(s, |w|);
      }
    }
  }

  lemma SpellXyz()
    ensures CamelCase(["x", "y", "z"]) == "xYZ" && PascalCase(["x", "y", "z"]) == "XYZ"
  {
    hide IsWord, Tokens;
    assert ["x", "y", "z"][1..] == ["y", "z"] && ["y", "z"][1..] == ["z"] && ["z"][1..] == [];
    assert Capitalise("x") == "X" && Capitalise("y") == "Y" && Capitalise("z") == "Z";
    assert PascalCase(["z"]) == "Z" && PascalCase(["y", "z"]) == "YZ";
  }

  /** For instance "xYZ" and "XYZ" spell x, y, z, and do not come back as three words. */
  lemma SingleLettersRunTogether()
    ensures CamelCase(["x", "y", "z"]) == "xYZ" && Tokens("xYZ") != ["x", "y", "z"]
    ensures PascalCase(["x", "y", "z"]) == "XYZ" && Tokens("XYZ") != ["x", "y", "z"]
  {
    hide Tokens, PascalCase, CamelCase;
    var ws := ["x", "y", "z"];
    SpellXyz();
    CamelCaseReparsesIff(ws);
    PascalCaseReparsesIff(ws);
    assert ws[1..] == ["y", "z"];
    assert RunTogether(ws[0], ws[1]) && RunTogether(ws[1..][0], ws[1..][1]);
  }
}
