/** The header that the exporter prints before the source blocks, and when it hides an id line. */
module ManifestHeaders {
  import opened Text
  import opened CorpusLines

  function Underscored(s: string): (r: string)
    ensures '-' !in r
  {
    seq(|s|, i requires 0 <= i < |s| => if s[i] == '-' then '_' else s[i])
  }

  function NameLine(component: string): string {
    "name: " + NameOf(component) + "_REGULATORY_SOURCES"
  }

  function Header(component: string): seq<string> {
    ["schema_version: 1",
     NameLine(component),
     "component: " + component,
     "suite_source_register: " + "docs/regulatory/sources.yml",
     "derivation_status: " + "generated_from_suite_corpus",
     "sources:"]
  }

  /** The printed header of a component, line by line. */
  lemma HeaderLinesAre(component: string)
    ensures var header := Header(component);
            && header[0] == "schema_version: 1" && header[2] == "component: " + component && header[5] == "sources:"
            && header[1] == "name: " + NameOf(component) + "_REGULATORY_SOURCES"
            && header[3] == "suite_source_register: " + "docs/regulatory/sources.yml"
            && header[4] == "derivation_status: " + "generated_from_suite_corpus"
  {
  }

  function NameOf(component: string): string {
    Underscored(Upper(component))
  }

  /** The name has the component's capitals, with underscores for dashes. */
  lemma NameOfExample()
    ensures NameOf("x-y") == "X_Y"
  {
  }

  ghost predicate NoIdLines(lines: seq<string>) {
    forall i :: 0 <= i < |lines| ==> !IsIdLine(lines[i])
  }

  /** No line of the component's name after the first looks like an id line. */
  ghost predicate SafeName(component: string) {
    forall i :: 1 <= i < |SplitLines(component)| ==> !IsIdLine(SplitLines(component)[i])
  }

  lemma HeaderLength(component: string)
    ensures |Header(component)| == 6
  {
  }

  lemma FixedHeaderTexts()
    ensures IsLine("schema_version: 1") && IsLine("component: ") && IsLine("sources:")
  {
  }

  lemma SuiteRegisterIsLine()
    ensures IsLine("suite_source_register: ") && IsLine("docs/regulatory/sources.yml")
  {
  }

  lemma DerivationIsLine()
    ensures IsLine("derivation_status: ") && IsLine("generated_from_suite_corpus")
  {
  }

  lemma LineAppend(a: string, b: string)
    requires IsLine(a) && IsLine(b)
    ensures IsLine(a + b)
  {
  }

  /** The lines of the header that are the same for every component. */
  function FixedLines(): seq<string> {
    ["suite_source_register: " + "docs/regulatory/sources.yml",
     "derivation_status: " + "generated_from_suite_corpus",
     "sources:"]
  }

  lemma FixedLinesAreLines()
    ensures forall i :: 0 <= i < 3 ==> IsLine(FixedLines()[i])
  {
    FixedHeaderTexts();
    SuiteRegisterIsLine();
    DerivationIsLine();
    LineAppend("suite_source_register: ", "docs/regulatory/sources.yml");
    LineAppend("derivation_status: ", "generated_from_suite_corpus");
    hide IsLine;
  }

  lemma FixedLinesHaveNoId()
    ensures NoIdLines(FixedLines()) && NoIdLines(["schema_version: 1"])
  {
    var lines := FixedLines();
    assert ID_PREFIX[0] == ' ';
    assert lines[0][0] == 's' && lines[1][0] == 'd' && lines[2][0] == 's' && "schema_version: 1"[0] == 's';
  }

  lemma NoIdLinesAppend(a: seq<string>, b: seq<string>)
    ensures NoIdLines(a + b) <==> NoIdLines(a) && NoIdLines(b)
  {
    hide IsIdLine;
    if NoIdLines(a + b) {
      assert forall i :: 0 <= i < |a| ==> a[i] == (a + b)[i];
      assert forall i :: 0 <= i < |b| ==> b[i] == (a + b)[|a| + i];
    }
  }

  lemma IdLineHasDash(line: string)
    ensures IsIdLine(line) ==> '-' in line
  {
    if IsIdLine(line) {
      assert line[2] == ID_PREFIX[2] == '-';
    }
  }

  /** An id line has a dash, and a line has no character that the text has not. */
  lemma NoDashNoIdLine(s: string)
    requires '-' !in s
    ensures NoIdLines(SplitLines(s))
  {
    hide SplitLines;
    var lines := SplitLines(s);
    forall i | 0 <= i < |lines| ensures !IsIdLine(lines[i]) {
      SplitLinesCharacters(s, i);
      IdLineHasDash(lines[i]);
    }
  }

  lemma NameLineHasNoDash(component: string)
    ensures '-' !in NameLine(component) + "\n"
  {
    assert '-' !in "name: " && '-' !in "_REGULATORY_SOURCES";
  }

  /** The line of the component's own name, which can be several. */
  lemma ComponentLines(component: string)
    ensures NoIdLines(SplitLines("component: " + component + "\n")) <==> SafeName(component)
  {
    hide SplitLines, IsLine;
    FixedHeaderTexts();
    var p, s := "component: ", component + "\n";
    SplitPrefixed(p, s);
    assert p + s == p + component + "\n";
    var lines := SplitLines(s);
    var first := p + lines[0];
    assert first[0] == 'c' && ID_PREFIX[0] == ' ';
    assert NoIdLines([first]);
    NoIdLinesAppend([first], lines[1..]);
    assert !IsIdLine("");
    hide IsIdLine;
    if component == "" {
      SplitEmpty();
      assert s == "\n";
      SplitNewline();
    } else {
      SplitClosed(component);
      SplitFirst(component);
      var own := SplitLines(component);
      if lines == own + [""] {
        assert lines[1..] == own[1..] + [""];
        NoIdLinesAppend(own[1..], [""]);
      }
      assert forall i :: 1 <= i < |own| ==> own[i] == own[1..][i - 1];
      assert forall i :: 0 <= i < |own| - 1 ==> own[1..][i] == own[i + 1];
      assert SafeName(component) <==> NoIdLines(own[1..]);
    }
  }

  lemma HeaderLines(component: string)
    ensures SplitLines(Unlines(Header(component))) ==
            ["schema_version: 1"] +
            (SplitLines(NameLine(component) + "\n") + (SplitLines("component: " + component + "\n") + FixedLines()))
  {
    hide SplitLines, NameLine, IsLine;
    FixedHeaderTexts();
    FixedLinesAreLines();
    var schema, name, own := ["schema_version: 1"], [NameLine(component)], ["component: " + component];
    var fixed := FixedLines();
    assert Header(component) == schema + (name + (own + fixed));
    SplitAppend(schema, name + (own + fixed));
    SplitAppend(name, own + fixed);
    SplitAppend(own, fixed);
    SplitUnlines(schema);
    SplitUnlines(fixed);
    assert Unlines(name) == NameLine(component) + "\n" && Unlines(own) == "component: " + component + "\n";
  }

  /** The header, printed and split again, hides an id line exactly if the component's name does. */
  lemma HeaderIsSafeIff(component: string)
    ensures NoIdLines(SplitLines(Unlines(Header(component)))) <==> SafeName(component)
  {
    hide SplitLines, NameLine, Header, NoIdLines, SafeName, FixedLines;
    var name, own := SplitLines(NameLine(component) + "\n"), SplitLines("component: " + component + "\n");
    HeaderLines(component);
    FixedLinesHaveNoId();
    NameLineHasNoDash(component);
    NoDashNoIdLine(NameLine(component) + "\n");
    ComponentLines(component);
    NoIdLinesAppend(own, FixedLines());
    NoIdLinesAppend(name, own + FixedLines());
    NoIdLinesAppend(["schema_version: 1"], name + (own + FixedLines()));
  }

  /** A name without line breaks is always safe. */
  lemma OneLineNameIsSafe(component: string)
    requires IsLine(component)
    ensures SafeName(component)
  {
    hide SplitLines;
    if component == "" {
      SplitEmpty();
    } else {
      SpanIs(component, |component|);
      SplitFirst(component);
    }
  }

  lemma ShortIdLine()
    ensures IsIdLine("  - id: b") && IsLine("  - id: b") && IsLine("a")
  {
  }

  lemma TwoLines(a: string, b: string)
    requires IsLine(a) && IsLine(b) && b != ""
    ensures SplitLines(a + "\n" + b) == [a] + [b]
  {
    hide SplitLines, Span;
    SplitAfterNewline(a, b);
    SplitUnlines([a]);
    assert Unlines([a]) == a + "\n";
    SpanIs(b, |b|);
    SplitFirst(b);
    assert b[..|b|] == b;
  }

  lemma SmuggledIdLine()
    ensures !SafeName("a\n  - id: b")
  {
    ShortIdLine();
    var a, b, name := "a", "  - id: b", "a\n  - id: b";
    assert a + "\n" + b == name;
    hide SplitLines, IsIdLine, IsLine;
    TwoLines(a, b);
    assert SplitLines(name)[1] == b;
  }
}
