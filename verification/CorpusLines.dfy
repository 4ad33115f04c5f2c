/** Lines of the regulatory corpus files: splitting text, scalars, and the two line parsers. */
module CorpusLines {
  import opened Wrappers
  import opened Sequences
  import opened Text
  import opened OrderedDicts

  // ----- text and lines -----

  /** The characters at which `splitlines` ends a line. */
  predicate IsBreak(c: char) {
    '\n' <= c <= '\r' || '\U{1c}' <= c <= '\U{1e}' || c == '\U{85}' || c == '\U{2028}' || c == '\U{2029}'
  }

  lemma BreaksAre(c: char)
    ensures IsBreak(c) <==> c in "\n\U{b}\U{c}\r\U{1c}\U{1d}\U{1e}\U{85}\U{2028}\U{2029}"
  {
  }

  predicate IsInLine(c: char) { !IsBreak(c) }

  predicate IsLine(s: string) {
    forall i :: 0 <= i < |s| ==> !IsBreak(s[i])
  }

  /** How many characters the line break at the start of `s` takes. */
  function BreakLength(s: string): (n: nat)
    requires s != ""
    ensures 1 <= n <= |s|
  {
    if s[0] == '\r' && |s| > 1 && s[1] == '\n' then 2 else 1
  }

  function SplitLines(s: string): seq<string>
    decreases |s|
  {
    if s == "" then []
    else
      var n := Span(IsInLine, s);
      [s[..n]] + if n == |s| then [] else SplitLines(s[n + BreakLength(s[n..])..])
  }

  lemma {:induction false} SplitLinesAreLines(s: string)
    ensures forall i :: 0 <= i < |SplitLines(s)| ==> IsLine(SplitLines(s)[i])
    decreases |s|
  {
    hide IsBreak, BreakLength, SplitLines;
    if s == "" {
      SplitEmpty();
    } else {
      var n := Span(IsInLine, s);
      SplitFirst(s);
      assert IsLine(s[..n]);
      if n < |s| {
        SplitLinesAreLines(s[n + BreakLength(s[n..])..]);
      }
    }
  }

  lemma SpanIs(s: string, n: nat)
    requires n <= |s| && (forall i :: 0 <= i < n ==> !IsBreak(s[i])) && (n < |s| ==> IsBreak(s[n]))
    ensures Span(IsInLine, s) == n
  {
  }

  /** A newline ends a line whatever follows it. */
  lemma {:induction false} SplitAfterNewline(a: string, b: string)
    ensures SplitLines(a + "\n" + b) == SplitLines(a + "\n") + SplitLines(b)
    decreases |a|
  {
    hide SplitLines, Span;
    var s, t := a + "\n" + b, a + "\n";
    var n := Span(IsInLine, t);
    assert t[|a|] == '\n' && n <= |a|;
    SpanIs(s, n);
    SplitFirst(s);
    SplitFirst(t);
    var skip := BreakLength(t[n..]);
    assert s[n..][0] == t[n..][0] && (n < |a| ==> s[n..][1] == t[n..][1]);
    assert BreakLength(s[n..]) == skip;
    assert s[..n] == t[..n];
    if n + skip == |t| {
      assert s[n + skip..] == b && t[n + skip..] == "";
      SplitEmpty();
      assert [t[..n]] + [] == [t[..n]];
    } else {
      var rest := a[n + skip..];
      assert s[n + skip..] == rest + "\n" + b && t[n + skip..] == rest + "\n";
      SplitAfterNewline(rest, b);
      AppendAssociates([t[..n]], SplitLines(rest + "\n"), SplitLines(b));
    }
  }

  lemma SplitEmpty()
    ensures SplitLines("") == []
  {
  }

  lemma SplitFirst(s: string)
    requires s != ""
    ensures var n := Span(IsInLine, s);
            SplitLines(s) == [s[..n]] + if n == |s| then [] else SplitLines(s[n + BreakLength(s[n..])..])
  {
    hide Span, IsBreak;
  }

  /** `"\n".join(lines) + "\n"` */
  function Unlines(lines: seq<string>): string {
    Join("\n", lines) + "\n"
  }

  lemma UnlinesAppend(a: seq<string>, b: seq<string>)
    requires a != [] && b != []
    ensures Unlines(a + b) == Unlines(a) + Unlines(b)
    decreases |a|
  {
    if |a| == 1 {
      assert (a + b)[1..] == b && (a + b)[0] == a[0];
      assert Join("\n", a + b) == a[0] + "\n" + Join("\n", b);
    } else {
      assert (a + b)[1..] == a[1..] + b && (a + b)[0] == a[0];
      UnlinesAppend(a[1..], b);
      assert Unlines(a + b) == a[0] + "\n" + Unlines(a[1..] + b);
      assert Unlines(a) == a[0] + "\n" + Unlines(a[1..]);
    }
  }

  lemma {:induction false} SplitUnlines(lines: seq<string>)
    requires lines != [] && forall i :: 0 <= i < |lines| ==> IsLine(lines[i])
    ensures SplitLines(Unlines(lines)) == lines
    decreases |lines|
  {
    hide SplitLines, Span;
    var first := lines[0];
    var s := first + "\n";
    SpanIs(s, |first|);
    SplitFirst(s);
    SplitEmpty();
    assert s[..|first|] == first && s[|first| + BreakLength(s[|first|..])..] == "";
    if |lines| == 1 {
      assert Unlines(lines) == s && lines == [first] + [];
    } else {
      assert lines == [first] + lines[1..];
      UnlinesAppend([first], lines[1..]);
      SplitUnlines(lines[1..]);
      SplitAfterNewline(first, Unlines(lines[1..]));
      assert Unlines([first]) == s;
      assert Unlines(lines) == first + "\n" + Unlines(lines[1..]);
    }
  }

  /** Printing two lists of lines one after the other splits into the lines of each. */
  lemma SplitAppend(a: seq<string>, b: seq<string>)
    requires a != [] && b != []
    ensures SplitLines(Unlines(a + b)) == SplitLines(Unlines(a)) + SplitLines(Unlines(b))
  {
    hide SplitLines;
    UnlinesAppend(a, b);
    SplitAfterNewline(Join("\n", a), Unlines(b));
  }

  lemma {:induction false} SplitLinesCharacters(s: string, i: nat)
    requires i < |SplitLines(s)|
    ensures forall c :: c in SplitLines(s)[i] ==> c in s
    decreases |s|
  {
    hide SplitLines, IsBreak, BreakLength;
    SplitEmpty();
    if s != "" {
      SplitFirst(s);
      var n := Span(IsInLine, s);
      if i > 0 {
        var rest := s[n + BreakLength(s[n..])..];
        SplitLinesCharacters(rest, i - 1);
        assert SplitLines(s)[i] == SplitLines(rest)[i - 1];
      }
    }
  }

  lemma SplitNewline()
    ensures SplitLines("\n") == [""]
  {
    SplitUnlines([""]);
    assert Unlines([""]) == "\n";
  }

  /** What stands before the text without a line break only prolongs its first line. */
  lemma SplitPrefixed(p: string, s: string)
    requires IsLine(p) && s != ""
    ensures SplitLines(s) != []
    ensures SplitLines(p + s) == [p + SplitLines(s)[0]] + SplitLines(s)[1..]
  {
    hide SplitLines, Span, BreakLength;
    var n := Span(IsInLine, s);
    SplitFirst(s);
    assert p + s != "";
    forall i | 0 <= i < |p| + n ensures !IsBreak((p + s)[i]) {
      assert (p + s)[i] == if i < |p| then p[i] else s[i - |p|];
    }
    SpanIs(p + s, |p| + n);
    SplitFirst(p + s);
    assert (p + s)[..|p| + n] == p + s[..n] && (p + s)[|p| + n..] == s[n..];
    if n < |s| {
      var skip := BreakLength(s[n..]);
      assert (p + s)[|p| + n + skip..] == s[n + skip..];
    }
  }

  /** A newline at the end closes the last line, or adds an empty one. */
  lemma {:induction false} SplitClosed(s: string)
    requires s != ""
    ensures SplitLines(s + "\n") == SplitLines(s) || SplitLines(s + "\n") == SplitLines(s) + [""]
    decreases |s|
  {
    hide SplitLines, Span;
    var t := s + "\n";
    var n := Span(IsInLine, s);
    forall i | 0 <= i < n ensures !IsBreak(t[i]) {
      assert t[i] == s[i];
    }
    SplitFirst(s);
    SplitEmpty();
    SpanIs(t, n);
    SplitFirst(t);
    assert t[..n] == s[..n];
    if n < |s| {
      var skip := BreakLength(s[n..]);
      var rest := s[n + skip..];
      assert t[n..] == s[n..] + "\n";
      if BreakLength(t[n..]) == skip {
        assert t[n + skip..] == rest + "\n";
        if rest == "" {
          SplitNewline();
          assert t[n + skip..] == "\n";
        } else {
          SplitClosed(rest);
          AppendAssociates([s[..n]], SplitLines(rest), [""]);
        }
      } else {
        assert t[n + BreakLength(t[n..])..] == "" && rest == "";
      }
    } else {
      assert t[n + BreakLength(t[n..])..] == "";
    }
  }

  // ----- scalars -----

  predicate StartsWith(s: string, prefix: string) {
    prefix <= s
  }

  /** `s.split(sep, 1)`, as what is before and what is after the first separator. */
  function SplitOnce(s: string, sep: string): (string, Option<string>)
    decreases |s|
  {
    if StartsWith(s, sep) then ("", Some(s[|sep|..]))
    else if s == "" then ("", None)
    else
      var (before, after) := SplitOnce(s[1..], sep);
      ([s[0]] + before, after)
  }

  predicate IsQuote(c: char) { c == '\'' || c == '"' }

  lemma QuotesAre(c: char)
    ensures IsQuote(c) <==> c in "'\""
  {
  }

  function CleanScalar(value: string): string {
    Strip(IsQuote, Strip(IsSpace, SplitOnce(value, " #").0))
  }

  const ID_PREFIX: string := "  - id: "

  predicate IsIdLine(line: string) {
    StartsWith(line, ID_PREFIX)
  }

  function LineId(line: string): string {
    match SplitOnce(line, ":").1 case None => "" case Some(rest) => CleanScalar(rest)
  }

  // ----- source blocks -----

  datatype Block = Block(id: string, lines: seq<string>)

  /** How many lines stand before the next id line. */
  function BodyLength(lines: seq<string>): (n: nat)
    ensures n <= |lines|
    ensures forall i :: 0 <= i < n ==> !IsIdLine(lines[i])
    ensures n < |lines| ==> IsIdLine(lines[n])
  {
    if lines == [] || IsIdLine(lines[0]) then 0 else 1 + BodyLength(lines[1..])
  }

  /** A block is an id line with everything up to the next one; what stands before the first is skipped. */
  function Blocks(lines: seq<string>): seq<Block>
    decreases |lines|
  {
    if lines == [] then []
    else if !IsIdLine(lines[0]) then Blocks(lines[1..])
    else
      var n := 1 + BodyLength(lines[1..]);
      [Block(LineId(lines[0]), lines[..n])] + Blocks(lines[n..])
  }

  /** What the remaining lines add, given the block being filled. */
  ghost function Finished(current: Option<Block>, lines: seq<string>): seq<Block> {
    match current
    case None => Blocks(lines)
    case Some(b) =>
      var n := BodyLength(lines);
      [Block(b.id, b.lines + lines[..n])] + Blocks(lines[n..])
  }

  lemma FinishedStep(current: Option<Block>, lines: seq<string>)
    requires lines != []
    ensures IsIdLine(lines[0]) ==>
              Finished(current, lines) == (if current.Some? then [current.value] else []) +
                                          Finished(Some(Block(LineId(lines[0]), [lines[0]])), lines[1..])
    ensures !IsIdLine(lines[0]) && current.None? ==> Finished(current, lines) == Finished(None, lines[1..])
    ensures !IsIdLine(lines[0]) && current.Some? ==>
              Finished(current, lines) ==
              Finished(Some(Block(current.value.id, current.value.lines + [lines[0]])), lines[1..])
  {
    var n := BodyLength(lines[1..]);
    assert lines[1 + n..] == lines[1..][n..];
    if IsIdLine(lines[0]) {
      assert lines[..1 + n] == [lines[0]] + lines[1..][..n];
      if current.Some? {
        assert current.value.lines + lines[..0] == current.value.lines && lines[0..] == lines;
      }
    } else if current.Some? {
      assert current.value.lines + lines[..1 + n] == current.value.lines + [lines[0]] + lines[1..][..n];
    }
  }

  lemma FinishedAtStart(lines: seq<string>)
    ensures Finished(None, lines) == Blocks(lines)
  {
  }

  lemma FinishedAtEnd(b: Block, lines: seq<string>)
    requires lines == []
    ensures Finished(Some(b), lines) == [b]
    ensures Finished(None, lines) == []
  {
    assert b.lines + [] == b.lines;
  }

  /** The linter's parser: a list of blocks. */
  method SourceBlockList(lines: seq<string>) returns (blocks: seq<Block>)
    ensures blocks == Blocks(lines)
  {
    hide Blocks, BodyLength, LineId, IsIdLine, Finished;
    FinishedAtStart(lines);
    assert [] + Blocks(lines) == Blocks(lines);
    blocks := [];
    var current: Option<Block> := None;
    assert lines[0..] == lines;
    for i := 0 to |lines|
      invariant blocks + Finished(current, lines[i..]) == Blocks(lines)
    {
      FinishedStep(current, lines[i..]);
      assert lines[i..][0] == lines[i] && lines[i..][1..] == lines[i + 1..];
      if IsIdLine(lines[i]) {
        if current.Some? {
          AppendAssociates(
            blocks, [current.value], Finished(Some(Block(LineId(lines[i]), [lines[i]])), lines[i + 1..]));
          blocks := blocks + [current.value];
        }
        current := Some(Block(LineId(lines[i]), [lines[i]]));
      } else if current.Some? {
        current := Some(Block(current.value.id, current.value.lines + [lines[i]]));
      }
    }
    assert lines[|lines|..] == [];
    FinishedAtEnd(if current.Some? then current.value else Block("", []), []);
    if current.Some? {
      blocks := blocks + [current.value];
    }
  }

  /** A dictionary filled from blocks: a later block replaces an earlier one of the same id. */
  function BlockDict(blocks: seq<Block>): Dict<string, seq<string>> {
    if blocks == [] then []
    else
      var n := |blocks| - 1;
      Put(BlockDict(blocks[..n]), blocks[n].id, blocks[n].lines)
  }

  lemma BlockDictSnoc(blocks: seq<Block>, b: Block)
    ensures BlockDict(blocks + [b]) == Put(BlockDict(blocks), b.id, b.lines)
  {
    assert (blocks + [b])[..|blocks|] == blocks;
  }

  /** The exporter's parser: the same loop filling a dictionary. */
  method SourceBlockDict(lines: seq<string>) returns (blocks: Dict<string, seq<string>>)
    ensures blocks == BlockDict(Blocks(lines))
  {
    hide Blocks, BodyLength, LineId, IsIdLine, Finished, Put;
    FinishedAtStart(lines);
    assert [] + Blocks(lines) == Blocks(lines);
    blocks := [];
    ghost var done: seq<Block> := [];
    var current: Option<Block> := None;
    assert lines[0..] == lines;
    for i := 0 to |lines|
      invariant blocks == BlockDict(done)
      invariant done + Finished(current, lines[i..]) == Blocks(lines)
    {
      FinishedStep(current, lines[i..]);
      assert lines[i..][0] == lines[i] && lines[i..][1..] == lines[i + 1..];
      if IsIdLine(lines[i]) {
        if current.Some? {
          AppendAssociates(done, [current.value], Finished(Some(Block(LineId(lines[i]), [lines[i]])), lines[i + 1..]));
          BlockDictSnoc(done, current.value);
          blocks := Put(blocks, current.value.id, current.value.lines);
          done := done + [current.value];
        }
        current := Some(Block(LineId(lines[i]), [lines[i]]));
      } else if current.Some? {
        current := Some(Block(current.value.id, current.value.lines + [lines[i]]));
      }
    }
    assert lines[|lines|..] == [];
    FinishedAtEnd(if current.Some? then current.value else Block("", []), []);
    if current.Some? {
      BlockDictSnoc(done, current.value);
      blocks := Put(blocks, current.value.id, current.value.lines);
    } else {
      assert done + [] == done;
    }
  }

  // ----- list values under a key -----

  function Stripped(line: string): string { Strip(IsSpace, line) }

  function Indent(line: string): nat { Span(IsSpace, line) }

  predicate IsIgnored(line: string) {
    Stripped(line) == "" || StartsWith(Stripped(line), "#")
  }

  predicate IsKeyLine(line: string, key: string) {
    !IsIgnored(line) && Stripped(line) == key + ":"
  }

  predicate IsItemLine(line: string, key: string) {
    !IsIgnored(line) && !IsKeyLine(line, key) && StartsWith(Stripped(line), "- ")
  }

  /** A line that ends the list under a key of the given indentation. */
  predicate EndsList(line: string, key: string, indent: nat) {
    !IsIgnored(line) && !IsKeyLine(line, key) && !IsItemLine(line, key) && Indent(line) <= indent
  }

  /** Line `k` is the last key line before `i`, and nothing in between has ended its list. */
  ghost predicate OpenSince(lines: seq<string>, key: string, k: nat, i: nat) {
    && k < i <= |lines| && IsKeyLine(lines[k], key)
    && forall m :: k < m < i ==> !IsKeyLine(lines[m], key) && !EndsList(lines[m], key, Indent(lines[k]))
  }

  ghost predicate ListOpen(lines: seq<string>, key: string, i: nat) {
    exists k: nat :: OpenSince(lines, key, k, i)
  }

  function ItemValue(line: string): string {
    if |Stripped(line)| < 2 then "" else CleanScalar(Stripped(line)[2..])
  }

  /** The items met while the list under the key is open, in order. */
  ghost function ValuesAfterKey(lines: seq<string>, key: string, n: nat): seq<string>
    requires n <= |lines|
  {
    if n == 0 then []
    else
      ValuesAfterKey(lines, key, n - 1) +
      if IsItemLine(lines[n - 1], key) && ListOpen(lines, key, n - 1) then [ItemValue(lines[n - 1])] else []
  }

  ghost predicate ScanState(lines: seq<string>, key: string, i: nat, collecting: bool, indent: nat) {
    && i <= |lines|
    && (collecting ==> exists k: nat :: OpenSince(lines, key, k, i) && Indent(lines[k]) == indent)
    && (!collecting ==> !ListOpen(lines, key, i))
  }

  lemma OpenSinceIsUnique(lines: seq<string>, key: string, k: nat, l: nat, i: nat)
    requires OpenSince(lines, key, k, i) && OpenSince(lines, key, l, i)
    ensures k == l
  {
    hide IsKeyLine, EndsList, Indent;
  }

  lemma OpenSinceShorter(lines: seq<string>, key: string, k: nat, i: nat)
    requires OpenSince(lines, key, k, i + 1) && i < |lines|
    ensures k == i ||
            (OpenSince(lines, key, k, i) && !IsKeyLine(lines[i], key) && !EndsList(lines[i], key, Indent(lines[k])))
  {
    hide IsKeyLine, EndsList, Indent;
  }

  /** One turn of the scan: what a line does to the state. */
  lemma ScanStep(lines: seq<string>, key: string, i: nat, collecting: bool, indent: nat)
    requires ScanState(lines, key, i, collecting, indent) && i < |lines|
    ensures IsKeyLine(lines[i], key) ==> ScanState(lines, key, i + 1, true, Indent(lines[i]))
    ensures !IsKeyLine(lines[i], key) ==>
              ScanState(lines, key, i + 1, collecting && !EndsList(lines[i], key, indent), indent)
    ensures collecting <==> ListOpen(lines, key, i)
  {
    hide IsKeyLine, EndsList, Indent;
    var line := lines[i];
    if IsKeyLine(line, key) {
      assert OpenSince(lines, key, i, i + 1);
    } else if collecting && !EndsList(line, key, indent) {
      var k: nat :| OpenSince(lines, key, k, i) && Indent(lines[k]) == indent;
      assert OpenSince(lines, key, k, i + 1);
    } else if ListOpen(lines, key, i + 1) {
      var l: nat :| OpenSince(lines, key, l, i + 1);
      OpenSinceShorter(lines, key, l, i);
      if collecting {
        var k: nat :| OpenSince(lines, key, k, i) && Indent(lines[k]) == indent;
        OpenSinceIsUnique(lines, key, k, l, i);
      }
    }
  }

  lemma ScanStart(lines: seq<string>, key: string)
    ensures ScanState(lines, key, 0, false, 0)
  {
  }

  lemma LineKinds(line: string, key: string)
    ensures IsIgnored(line) || IsKeyLine(line, key) ==> !IsItemLine(line, key)
    ensures IsIgnored(line) ==> !IsKeyLine(line, key)
    ensures IsItemLine(line, key) ==> forall n: nat :: !EndsList(line, key, n)
    ensures IsIgnored(line) ==> forall n: nat :: !EndsList(line, key, n)
  {
  }

  method ListValuesAfterKey(lines: seq<string>, key: string) returns (values: seq<string>)
    ensures values == ValuesAfterKey(lines, key, |lines|)
  {
    hide IsIgnored, IsKeyLine, IsItemLine, ItemValue, Indent, OpenSince;
    values := [];
    var collecting, keyIndent := false, 0;
    ScanStart(lines, key);
    for i := 0 to |lines|
      invariant values == ValuesAfterKey(lines, key, i)
      invariant ScanState(lines, key, i, collecting, keyIndent)
    {
      ScanStep(lines, key, i, collecting, keyIndent);
      var line := lines[i];
      LineKinds(line, key);
      if IsIgnored(line) {
        continue;
      }
      if IsKeyLine(line, key) {
        collecting, keyIndent := true, Indent(line);
        continue;
      }
      if !collecting {
        continue;
      }
      if IsItemLine(line, key) {
        values := values + [ItemValue(line)];
        continue;
      }
      if Indent(line) <= keyIndent {
        collecting := false;
      }
    }
  }

  /** Removing repetitions, keeping first occurrences in order. */
  function Deduplicated(values: seq<string>): seq<string> {
    if values == [] then []
    else
      var before, last := Deduplicated(values[..|values| - 1]), values[|values| - 1];
      if last in before then before else before + [last]
  }

  lemma {:induction false} DeduplicatedIs(values: seq<string>)
    ensures Distinct(Deduplicated(values))
    ensures forall v :: v in Deduplicated(values) <==> v in values
  {
    if values != [] {
      var rest, last := values[..|values| - 1], values[|values| - 1];
      assert values == rest + [last];
      DeduplicatedIs(rest);
    }
  }

  /** The first value comes first, and then what is left of the rest without it. */
  lemma {:induction false} DeduplicatedFirst(values: seq<string>)
    requires values != []
    ensures Deduplicated(values) == [values[0]] + Filter((v: string) => v != values[0], Deduplicated(values[1..]))
  {
    var n := |values| - 1;
    if n == 0 {
      assert values[..0] == [] && values[1..] == [];
    } else {
      var first, last := values[0], values[n];
      var other := (v: string) => v != first;
      var rest := Deduplicated(values[1..][..n - 1]);
      assert values[..n][1..] == values[1..][..n - 1] && values[1..][n - 1] == last;
      DeduplicatedFirst(values[..n]);
      FilterSame((v: string) => v != values[..n][0], other, rest);
      FilterMembers(other, rest);
      FilterAppend(other, rest, [last]);
      assert [last][1..] == [] && Filter(other, [last]) == if last != first then [last] else [];
      assert Deduplicated(values[1..]) == if last in rest then rest else rest + [last];
      FilterSame((v: string) => v != values[0], other, Deduplicated(values[1..]));
      assert last in [first] + Filter(other, rest) <==> last == first || last in rest;
    }
  }

  /** The exporter's scan: the same loop, keeping only new references. */
  method SourceRefs(lines: seq<string>) returns (refs: seq<string>)
    ensures refs == Deduplicated(ValuesAfterKey(lines, "source_refs", |lines|))
  {
    hide IsIgnored, IsKeyLine, IsItemLine, ItemValue, Indent, OpenSince;
    var key := "source_refs";
    refs := [];
    ghost var values: seq<string> := [];
    var collecting, keyIndent := false, 0;
    ScanStart(lines, key);
    for i := 0 to |lines|
      invariant values == ValuesAfterKey(lines, key, i)
      invariant refs == Deduplicated(values)
      invariant ScanState(lines, key, i, collecting, keyIndent)
    {
      ScanStep(lines, key, i, collecting, keyIndent);
      var line := lines[i];
      LineKinds(line, key);
      if IsIgnored(line) {
        continue;
      }
      if IsKeyLine(line, key) {
        collecting, keyIndent := true, Indent(line);
        continue;
      }
      if !collecting {
        continue;
      }
      if IsItemLine(line, key) {
        var ref := ItemValue(line);
        if ref !in refs {
          refs := refs + [ref];
        }
        assert (values + [ref])[..|values|] == values;
        values := values + [ref];
        continue;
      }
      if Indent(line) <= keyIndent {
        collecting := false;
      }
    }
  }
}
