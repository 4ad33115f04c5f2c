/**
  What the line parsers read from lines that are written out: scalars with quotes, white space and
  comments around them, id lines, list items, fields, and whole registers and lists of references.
*/
module CorpusFormat {
  import opened Wrappers
  import opened Text
  import opened OrderedDicts
  import opened CorpusLines
  import opened ManifestHeaders
  import opened RegulatoryCorpus
  import opened CorpusLint

  // ----- splitting at the first separator -----

  predicate Occurs(s: string, sep: string, i: int) {
    0 <= i && i + |sep| <= |s| && s[i..i + |sep|] == sep
  }

  lemma StartsIsOccurs(s: string, sep: string)
    ensures StartsWith(s, sep) <==> Occurs(s, sep, 0)
  {
    if |sep| <= |s| {
      assert s[0..|sep|] == s[..|sep|];
    }
  }

  lemma {:induction false} SplitOnceAt(s: string, sep: string, n: nat)
    requires Occurs(s, sep, n) && forall i :: 0 <= i < n ==> !Occurs(s, sep, i)
    ensures SplitOnce(s, sep) == (s[..n], Some(s[n + |sep|..]))
  {
    if n == 0 {
      assert s[0..|sep|] == s[..|sep|];
    } else {
      StartsIsOccurs(s, sep);
      assert !Occurs(s, sep, 0);
      forall i | 0 <= i < n - 1 ensures !Occurs(s[1..], sep, i) {
        assert !Occurs(s, sep, i + 1);
        if i + |sep| <= |s[1..]| { assert s[1..][i..i + |sep|] == s[i + 1..i + 1 + |sep|]; }
      }
      assert s[1..][n - 1..n - 1 + |sep|] == s[n..n + |sep|];
      SplitOnceAt(s[1..], sep, n - 1);
      assert [s[0]] + s[1..][..n - 1] == s[..n] && s[1..][n - 1 + |sep|..] == s[n + |sep|..];
    }
  }

  lemma {:induction false} SplitOnceNever(s: string, sep: string)
    requires sep != "" && forall i :: 0 <= i <= |s| ==> !Occurs(s, sep, i)
    ensures SplitOnce(s, sep) == (s, None)
  {
    StartsIsOccurs(s, sep);
    assert !Occurs(s, sep, 0);
    if s != "" {
      forall i | 0 <= i <= |s[1..]| ensures !Occurs(s[1..], sep, i) {
        assert !Occurs(s, sep, i + 1);
        if i + |sep| <= |s[1..]| { assert s[1..][i..i + |sep|] == s[i + 1..i + 1 + |sep|]; }
      }
      SplitOnceNever(s[1..], sep);
      assert [s[0]] + s[1..] == s;
    }
  }

  // ----- scalars -----

  /** A comment starts at position `i`. */
  predicate CommentAt(s: string, i: int) {
    0 <= i < |s| - 1 && s[i] == ' ' && s[i + 1] == '#'
  }

  predicate HasNoComment(s: string) {
    forall i :: 0 <= i < |s| ==> !CommentAt(s, i)
  }

  lemma CommentOccurs(s: string, i: int)
    ensures Occurs(s, " #", i) <==> CommentAt(s, i)
  {
    if 0 <= i && i + 2 <= |s| {
      assert s[i..i + 2] == [s[i], s[i + 1]];
    }
  }

  lemma BeforeComment(s: string, n: nat)
    requires n <= |s| && (n < |s| ==> CommentAt(s, n)) && forall i :: 0 <= i < n ==> !CommentAt(s, i)
    ensures SplitOnce(s, " #").0 == s[..n]
  {
    forall i ensures Occurs(s, " #", i) <==> CommentAt(s, i) {
      CommentOccurs(s, i);
    }
    if n < |s| {
      SplitOnceAt(s, " #", n);
    } else {
      SplitOnceNever(s, " #");
      assert s[..n] == s;
    }
  }

  /** Where the comment starts, or the end. */
  lemma {:induction false} FindComment(s: string) returns (n: nat)
    ensures n <= |s| && (n < |s| ==> CommentAt(s, n)) && forall i :: 0 <= i < n ==> !CommentAt(s, i)
  {
    n := 0;
    while n < |s| && !CommentAt(s, n)
      invariant n <= |s| && forall i :: 0 <= i < n ==> !CommentAt(s, i)
    {
      n := n + 1;
    }
  }

  predicate AllSpace(s: string) {
    forall i :: 0 <= i < |s| ==> IsSpace(s[i])
  }

  predicate AllQuotes(s: string) {
    forall i :: 0 <= i < |s| ==> IsQuote(s[i])
  }

  /** How a scalar is written: white space, quotes, the value, quotes, white space, a comment. */
  datatype Spelling = Spelling(left: string, open: string, close: string, right: string, comment: string)

  function Core(sp: Spelling, value: string): string {
    sp.open + value + sp.close
  }

  function Spelled(sp: Spelling, value: string): string {
    sp.left + Core(sp, value) + sp.right + sp.comment
  }

  /** Nothing of the value can be taken for quotes, for a comment or, without quotes, for white space. */
  ghost predicate SpellsWell(sp: Spelling, value: string) {
    && AllSpace(sp.left) && AllSpace(sp.right) && AllQuotes(sp.open) && AllQuotes(sp.close)
    && (sp.comment != "" ==> CommentAt(sp.comment, 0))
    && HasNoComment(sp.left + Core(sp, value))
    && (value != "" ==>
          && !IsQuote(value[0]) && !IsQuote(value[|value| - 1])
          && (sp.open == "" ==> !IsSpace(value[0])) && (sp.close == "" ==> !IsSpace(value[|value| - 1])))
  }

  /** Quotes are no white space. */
  lemma CoreStarts(sp: Spelling, value: string)
    requires AllQuotes(sp.open) && AllQuotes(sp.close) && Core(sp, value) != ""
    requires sp.open == "" && value != "" ==> !IsSpace(value[0])
    ensures !IsSpace(Core(sp, value)[0])
  {
    var core := Core(sp, value);
    if sp.open != "" {
      assert core[0] == sp.open[0];
    } else if value != "" {
      assert core[0] == value[0];
    } else {
      assert core[0] == sp.close[0];
    }
  }

  lemma CoreEnds(sp: Spelling, value: string)
    requires AllQuotes(sp.open) && AllQuotes(sp.close) && Core(sp, value) != ""
    requires sp.close == "" && value != "" ==> !IsSpace(value[|value| - 1])
    ensures !IsSpace(Core(sp, value)[|Core(sp, value)| - 1])
  {
    var core := Core(sp, value);
    if sp.close != "" {
      assert core[|core| - 1] == sp.close[|sp.close| - 1];
    } else if value != "" {
      assert core[|core| - 1] == value[|value| - 1];
    } else {
      assert core == sp.open;
    }
  }

  lemma CoreIsStripped(sp: Spelling, value: string)
    requires SpellsWell(sp, value)
    ensures Strip(IsSpace, sp.left + Core(sp, value) + sp.right) == Core(sp, value)
    ensures Strip(IsQuote, Core(sp, value)) == value
  {
    var core := Core(sp, value);
    if core == "" {
      assert sp.left + core + sp.right == sp.left + sp.right;
      StripAll(IsSpace, sp.left + sp.right);
    } else {
      CoreStarts(sp, value);
      CoreEnds(sp, value);
      StripAround(IsSpace, sp.left, core, sp.right);
    }
    if value == "" {
      assert core == sp.open + sp.close;
      StripAll(IsQuote, core);
    } else {
      StripAround(IsQuote, sp.open, value, sp.close);
    }
  }

  /** A scalar that is spelled well is read as its value. */
  lemma ScalarReadsBack(sp: Spelling, value: string)
    requires SpellsWell(sp, value)
    ensures CleanScalar(Spelled(sp, value)) == value
  {
    var head, base := sp.left + Core(sp, value), sp.left + Core(sp, value) + sp.right;
    var s := Spelled(sp, value);
    assert s == base + sp.comment;
    forall i | 0 <= i < |base| ensures !CommentAt(s, i) {
      assert s[i] == base[i];
      if i + 1 < |head| {
        assert s[i] == head[i] && s[i + 1] == head[i + 1];
        assert !CommentAt(head, i);
      } else if i + 1 < |base| {
        assert s[i + 1] == sp.right[i + 1 - |head|];
      } else if i + 1 < |s| {
        assert s[i + 1] == sp.comment[0];
      }
    }
    if sp.comment != "" {
      assert s[|base|] == sp.comment[0] && s[|base| + 1] == sp.comment[1];
    }
    BeforeComment(s, |base|);
    assert s[..|base|] == base;
    CoreIsStripped(sp, value);
  }

  /** White space at the end makes no difference. */
  lemma CleanIgnoresTrailing(s: string, trail: string)
    requires AllSpace(trail)
    ensures CleanScalar(s + trail) == CleanScalar(s)
  {
    var t := s + trail;
    var n := FindComment(s);
    BeforeComment(s, n);
    if n < |s| {
      forall i | 0 <= i < n ensures !CommentAt(t, i) {
        assert !CommentAt(s, i) && t[i] == s[i] && t[i + 1] == s[i + 1];
      }
      assert CommentAt(t, n);
      BeforeComment(t, n);
      assert t[..n] == s[..n];
    } else {
      forall i | 0 <= i < |t| ensures !CommentAt(t, i) {
        if i + 1 < |s| {
          assert !CommentAt(s, i);
        } else if i + 1 < |t| {
          assert t[i + 1] == trail[i + 1 - |s|];
        }
      }
      BeforeComment(t, |t|);
      assert s[..n] == s && t[..|t|] == t;
      StripTrailing(IsSpace, s, trail);
    }
  }

  // ----- id lines, items and fields -----

  lemma IdLineIs(text: string)
    ensures IsIdLine(ID_PREFIX + text) && LineId(ID_PREFIX + text) == CleanScalar(" " + text)
  {
    hide CleanScalar;
    var line := ID_PREFIX + text;
    assert line[6..7] == ":" && line[7..] == " " + text;
    forall i | 0 <= i < 6 ensures !Occurs(line, ":", i) {
      assert line[i] == ID_PREFIX[i] && line[i..i + 1] == [line[i]];
    }
    SplitOnceAt(line, ":", 6);
  }

  function Indented(sp: Spelling): Spelling {
    sp.(left := " " + sp.left)
  }

  /** An id line is read as the id that is spelled on it. */
  lemma IdReadsBack(sp: Spelling, id: string)
    requires SpellsWell(Indented(sp), id)
    ensures IsIdLine(ID_PREFIX + Spelled(sp, id)) && LineId(ID_PREFIX + Spelled(sp, id)) == id
  {
    hide CleanScalar, LineId;
    IdLineIs(Spelled(sp, id));
    ScalarReadsBack(Indented(sp), id);
    assert " " + Spelled(sp, id) == Spelled(Indented(sp), id);
  }

  const PLAIN := Spelling("", "", "", "", "")

  /** An id can be written as it is: no comment in it or right at its start, no quote or space at its ends. */
  ghost predicate IsPlain(id: string) {
    && HasNoComment(" " + id)
    && (id != "" ==>
          && !IsQuote(id[0]) && !IsQuote(id[|id| - 1]) && !IsSpace(id[0]) && !IsSpace(id[|id| - 1]))
  }

  /** Exactly such an id is read back when it is written as it is. */
  lemma PlainIdReadsBackIff(id: string)
    ensures LineId(ID_PREFIX + id) == id <==> IsPlain(id)
  {
    hide CleanScalar, LineId;
    IdLineIs(id);
    if IsPlain(id) {
      assert Core(PLAIN, id) == id && Spelled(PLAIN, id) == id && Indented(PLAIN).left + id == " " + id;
      IdReadsBack(PLAIN, id);
    } else {
      OtherwiseShorter(id);
    }
  }

  lemma OtherwiseShorter(id: string)
    requires !IsPlain(id)
    ensures CleanScalar(" " + id) != id
  {
    var s := " " + id;
    var n := FindComment(s);
    BeforeComment(s, n);
    var spaces := Strip(IsSpace, s[..n]);
    StripShortens(IsSpace, s[..n]);
    StripShortens(IsQuote, spaces);
    if n == |s| {
      assert s[..n] == s && id != "";
      var a, b := StripIs(IsSpace, s);
      assert spaces == s[a..b] && (a < b ==> a >= 1);
      if a == 1 && b == |s| {
        assert spaces == id;
      }
    }
  }

  /** An item is read as the scalar behind its dash, at every indentation. */
  lemma ItemIs(indent: string, text: string)
    requires AllSpace(indent)
    ensures ItemValue(indent + "- " + text) == CleanScalar(text)
    ensures Strip(IsSpace, text) != "" ==> StartsWith(Stripped(indent + "- " + text), "- ")
  {
    hide CleanScalar;
    var line := indent + "- " + text;
    var a, b := StripIs(IsSpace, text);
    if a == b {
      assert line == indent + "-" + (" " + text);
      assert AllSpace(text);
      SpaceAppend(" ", text);
      StripAround(IsSpace, indent, "-", " " + text);
      EmptyScalar(text);
    } else {
      var core := "- " + text[..b];
      assert line == indent + core + text[b..];
      assert core[|core| - 1] == text[b - 1];
      StripAround(IsSpace, indent, core, text[b..]);
      assert core[2..] == text[..b] && text[..b] + text[b..] == text;
      CleanIgnoresTrailing(text[..b], text[b..]);
    }
  }

  lemma SpaceAppend(a: string, b: string)
    requires AllSpace(a) && AllSpace(b)
    ensures AllSpace(a + b)
  {
  }

  lemma EmptyScalar(text: string)
    requires AllSpace(text)
    ensures CleanScalar(text) == ""
  {
    CleanIgnoresTrailing("", text);
    assert "" + text == text;
    BeforeComment("", 0);
  }

  /** A field is read as the scalar that is spelled behind its colon. */
  lemma FieldReadsBack(field: string, sp: Spelling, value: string)
    requires ':' !in field && SpellsWell(sp.(left := ""), value) && AllSpace(sp.left) && Core(sp, value) != ""
    ensures FieldText("    " + field + ":" + Spelled(sp, value)) == value
  {
    hide CleanScalar, Core, IsQuote;
    var text, rest := Spelled(sp, value), Spelled(sp.(left := ""), value);
    AfterColon(field, text);
    var a, b := StripIs(IsSpace, rest);
    assert Core(sp.(left := ""), value) == Core(sp, value) by { SameCore(sp, "", value); }
    assert text == sp.left + rest && rest[0] == Core(sp, value)[0];
    CoreStarts(sp, value);
    assert a == 0 && 0 < b;
    assert text == sp.left + rest[..b] + rest[b..] && rest[..b] + rest[b..] == rest;
    StripAround(IsSpace, sp.left, rest[..b], rest[b..]);
    CleanIgnoresTrailing(rest[..b], rest[b..]);
    ScalarReadsBack(sp.(left := ""), value);
  }

  lemma SameCore(sp: Spelling, left: string, value: string)
    ensures Core(sp.(left := left), value) == Core(sp, value)
  {
  }

  lemma AfterColon(field: string, text: string)
    requires ':' !in field
    ensures FieldText("    " + field + ":" + text) == CleanScalar(Strip(IsSpace, text))
  {
    hide CleanScalar;
    var line := "    " + field + ":" + text;
    var n := 4 + |field|;
    assert line[n..n + 1] == ":" && line[n + 1..] == text;
    forall i | 0 <= i < n ensures !Occurs(line, ":", i) {
      assert i >= 4 ==> line[i] == field[i - 4] && line[i] in field;
      assert line[i..i + 1] == [line[i]];
    }
    SplitOnceAt(line, ":", n);
  }

  // ----- kinds of lines -----

  lemma IndentIs(indent: string, text: string)
    requires AllSpace(indent) && text != "" && !IsSpace(text[0])
    ensures Indent(indent + text) == |indent|
  {
    var line := indent + text;
    assert line[|indent|] == text[0] && forall i :: 0 <= i < |indent| ==> line[i] == indent[i];
  }

  /** Stripping a line leaves its text, without white space at the end. */
  lemma StrippedIs(indent: string, text: string, trail: string)
    requires AllSpace(indent) && AllSpace(trail)
    requires text != "" && !IsSpace(text[0]) && !IsSpace(text[|text| - 1])
    ensures Stripped(indent + text + trail) == text
    ensures Indent(indent + text + trail) == |indent|
  {
    StripAround(IsSpace, indent, text, trail);
    assert indent + text + trail == indent + (text + trail);
    IndentIs(indent, text + trail);
  }

  /**
    What a line is to the scan for a key: nothing but white space or a comment is ignored; the key with
    its colon opens the list; a dash and a space make an item; any other line ends the list if it is
    indented no deeper than the key.
  */
  lemma KindOfLine(indent: string, text: string, trail: string, key: string, depth: nat)
    requires AllSpace(indent) && AllSpace(trail) && key != "" && key[0] != '#' && key[0] != '-'
    requires text != "" && !IsSpace(text[0]) && !IsSpace(text[|text| - 1])
    ensures var line := indent + text + trail;
            && IsIgnored(indent + trail)
            && (IsIgnored(line) <==> text[0] == '#')
            && (IsKeyLine(line, key) <==> text == key + ":")
            && (IsItemLine(line, key) <==> |text| >= 2 && text[0] == '-' && text[1] == ' ')
            && (EndsList(line, key, depth) <==>
                  && text[0] != '#' && text != key + ":" && !(|text| >= 2 && text[0] == '-' && text[1] == ' ')
                  && |indent| <= depth)
  {
    hide Strip, Span;
    StrippedIs(indent, text, trail);
    StripAll(IsSpace, indent + trail);
    assert StartsWith(text, "#") <==> text[0] == '#';
    assert StartsWith(text, "- ") <==> |text| >= 2 && text[0] == '-' && text[1] == ' ';
    assert (key + ":")[0] == key[0];
  }

  // ----- registers -----

  /** An entry of a register: its id, how it is spelled, and the lines that follow. */
  datatype Entry = Entry(id: string, spelling: Spelling, body: seq<string>)

  function EntryLines(e: Entry): (lines: seq<string>)
    ensures lines != []
  {
    [ID_PREFIX + Spelled(e.spelling, e.id)] + e.body
  }

  function RegisterLines(entries: seq<Entry>): seq<string> {
    if entries == [] then [] else EntryLines(entries[0]) + RegisterLines(entries[1..])
  }

  ghost predicate WellWritten(entries: seq<Entry>) {
    forall i :: 0 <= i < |entries| ==>
      SpellsWell(Indented(entries[i].spelling), entries[i].id) && NoIdLines(entries[i].body)
  }

  function EntryBlocks(entries: seq<Entry>): (blocks: seq<Block>)
    ensures |blocks| == |entries|
    ensures forall i :: 0 <= i < |entries| ==> blocks[i] == Block(entries[i].id, EntryLines(entries[i]))
  {
    seq(|entries|, i requires 0 <= i < |entries| => Block(entries[i].id, EntryLines(entries[i])))
  }

  lemma RegisterStarts(entries: seq<Entry>)
    requires WellWritten(entries)
    ensures RegisterLines(entries) == [] || IsIdLine(RegisterLines(entries)[0])
  {
    if entries != [] {
      IdReadsBack(entries[0].spelling, entries[0].id);
    }
  }

  lemma EntryBlock(e: Entry)
    requires SpellsWell(Indented(e.spelling), e.id) && NoIdLines(e.body)
    ensures Blocks(EntryLines(e)) == [Block(e.id, EntryLines(e))]
  {
    hide LineId, IsIdLine, Blocks, Spelled, SpellsWell;
    var lines := EntryLines(e);
    IdReadsBack(e.spelling, e.id);
    assert lines[1..] == e.body;
    BodyLengthIs(e.body, |e.body|);
    BlocksUnfold(lines);
    BlocksUnfold([]);
    assert lines[..1 + |e.body|] == lines && lines[1 + |e.body|..] == [];
  }

  /** A register is read as its entries, in order: ids as they are spelled, and all their lines. */
  lemma {:induction false} RegisterReadsBack(head: seq<string>, entries: seq<Entry>)
    requires NoIdLines(head) && WellWritten(entries)
    ensures Blocks(head + RegisterLines(entries)) == EntryBlocks(entries)
    decreases |entries|
  {
    hide LineId, IsIdLine, Blocks, EntryLines, SpellsWell;
    var lines := RegisterLines(entries);
    RegisterStarts(entries);
    BlocksAppend(head, lines);
    NoBlocksIff(head);
    if entries == [] {
      BlocksUnfold([]);
    } else {
      var rest := RegisterLines(entries[1..]);
      EntryBlock(entries[0]);
      RegisterStarts(entries[1..]);
      BlocksAppend(EntryLines(entries[0]), rest);
      RegisterReadsBack([], entries[1..]);
      assert [] + rest == rest;
      assert EntryBlocks(entries) == [Block(entries[0].id, EntryLines(entries[0]))] + EntryBlocks(entries[1..]);
    }
  }

  // ----- lists of references -----

  datatype Listed = Listed(value: string, indent: string, spelling: Spelling)

  function ItemLine(item: Listed): string {
    item.indent + "- " + Spelled(item.spelling, item.value)
  }

  function ItemLines(items: seq<Listed>): (lines: seq<string>)
    ensures |lines| == |items| && forall i :: 0 <= i < |items| ==> lines[i] == ItemLine(items[i])
  {
    seq(|items|, i requires 0 <= i < |items| => ItemLine(items[i]))
  }

  function ValuesListed(items: seq<Listed>): (values: seq<string>)
    ensures |values| == |items| && forall i :: 0 <= i < |items| ==> values[i] == items[i].value
  {
    seq(|items|, i requires 0 <= i < |items| => items[i].value)
  }

  ghost predicate WellListed(item: Listed) {
    && AllSpace(item.indent) && SpellsWell(item.spelling, item.value)
    && Strip(IsSpace, Spelled(item.spelling, item.value)) != ""
  }

  lemma ItemLineIs(item: Listed, key: string)
    requires WellListed(item) && key != "" && key[0] != '-'
    ensures IsItemLine(ItemLine(item), key) && !IsKeyLine(ItemLine(item), key)
    ensures ItemValue(ItemLine(item)) == item.value
  {
    hide CleanScalar, Strip;
    ItemIs(item.indent, Spelled(item.spelling, item.value));
    ScalarReadsBack(item.spelling, item.value);
    var stripped := Stripped(ItemLine(item));
    assert stripped[0] == '-' && (key + ":")[0] == key[0];
  }

  ghost predicate NoKeyLines(lines: seq<string>, key: string) {
    forall i :: 0 <= i < |lines| ==> !IsKeyLine(lines[i], key)
  }

  lemma {:induction false} NothingListed(lines: seq<string>, key: string, n: nat)
    requires n <= |lines| && forall i :: 0 <= i < n ==> !IsKeyLine(lines[i], key)
    ensures ValuesAfterKey(lines, key, n) == []
  {
    hide IsKeyLine, IsItemLine, EndsList;
    if n > 0 {
      NothingListed(lines, key, n - 1);
    }
  }

  ghost predicate IsOpenItem(line: string, key: string) {
    IsItemLine(line, key) && !IsKeyLine(line, key) && forall n: nat :: !EndsList(line, key, n)
  }

  /** Lines that are items of the key line at `k`, all the way down to `n`. */
  lemma {:induction false} ItemsCollected(lines: seq<string>, key: string, k: nat, n: nat, values: seq<string>)
    requires k < n <= |lines| && IsKeyLine(lines[k], key) && forall i :: 0 <= i < k ==> !IsKeyLine(lines[i], key)
    requires forall i :: k < i < n ==> IsOpenItem(lines[i], key)
    requires |values| == n - k - 1 && forall i :: k < i < n ==> values[i - k - 1] == ItemValue(lines[i])
    ensures ValuesAfterKey(lines, key, n) == values
  {
    hide IsKeyLine, IsItemLine, EndsList, ItemValue, ValuesAfterKey, ListOpen;
    if n == k + 1 {
      NothingListed(lines, key, k);
      LineKinds(lines[k], key);
      ValuesUnfold(lines, key, n);
    } else {
      ItemsCollected(lines, key, k, n - 1, values[..n - k - 2]);
      OpenSinceKey(lines, key, k, n - 1);
      ValuesUnfold(lines, key, n);
      assert values == values[..n - k - 2] + [values[n - k - 2]];
    }
  }

  lemma OpenSinceKey(lines: seq<string>, key: string, k: nat, n: nat)
    requires k < n <= |lines| && IsKeyLine(lines[k], key) && forall i :: k < i < n ==> IsOpenItem(lines[i], key)
    ensures ListOpen(lines, key, n)
  {
    hide IsKeyLine, IsItemLine, EndsList;
    assert OpenSince(lines, key, k, n);
  }

  lemma ValuesUnfold(lines: seq<string>, key: string, n: nat)
    requires 0 < n <= |lines|
    ensures ValuesAfterKey(lines, key, n) ==
            ValuesAfterKey(lines, key, n - 1) +
            if IsItemLine(lines[n - 1], key) && ListOpen(lines, key, n - 1) then [ItemValue(lines[n - 1])] else []
  {
    hide IsItemLine, ListOpen, ItemValue;
  }

  /** The items below a key line are read as the values that are spelled on them, in order. */
  lemma {:induction false} ListReadsBack(head: seq<string>, keyLine: string, items: seq<Listed>, key: string)
    requires key != "" && key[0] != '-' && NoKeyLines(head, key) && IsKeyLine(keyLine, key)
    requires forall i :: 0 <= i < |items| ==> WellListed(items[i])
    ensures var lines := head + [keyLine] + ItemLines(items);
            ValuesAfterKey(lines, key, |lines|) == ValuesListed(items)
  {
    hide IsKeyLine, IsItemLine, EndsList, ItemValue, WellListed, ItemLine;
    var lines, k := head + [keyLine] + ItemLines(items), |head|;
    forall i | k < i < |lines|
      ensures IsOpenItem(lines[i], key) && ItemValue(lines[i]) == ValuesListed(items)[i - k - 1]
    {
      assert lines[i] == ItemLine(items[i - k - 1]);
      ItemLineIs(items[i - k - 1], key);
      LineKinds(lines[i], key);
    }
    assert forall i :: 0 <= i < k ==> lines[i] == head[i];
    assert lines[k] == keyLine;
    ItemsCollected(lines, key, k, |lines|, ValuesListed(items));
  }

  // ----- a written corpus -----

  ghost predicate HasEntry(entries: seq<Entry>, id: string) {
    exists i :: 0 <= i < |entries| && entries[i].id == id
  }

  /** The register and the component's crosswalk are written like this. */
  ghost predicate IsWritten(corpus: Corpus, component: string, head: seq<string>, entries: seq<Entry>,
                            text: string, before: seq<string>, keyLine: string, items: seq<Listed>) {
    && SplitLines(corpus.sources) == head + RegisterLines(entries) && NoIdLines(head) && WellWritten(entries)
    && TextOf(corpus.crosswalks, component) == Some(text)
    && SplitLines(text) == before + [keyLine] + ItemLines(items)
    && NoKeyLines(before, "source_refs") && IsKeyLine(keyLine, "source_refs")
    && forall i :: 0 <= i < |items| ==> WellListed(items[i])
  }

  ghost predicate IsEntryOf(block: Block, id: string, entries: seq<Entry>) {
    exists i :: 0 <= i < |entries| && entries[i].id == id && block == Block(id, EntryLines(entries[i]))
  }

  /** One block for each reference, in order, with all lines of an entry of that id. */
  ghost predicate ShowsEntries(blocks: seq<Block>, refs: seq<string>, entries: seq<Entry>) {
    |blocks| == |refs| && forall k :: 0 <= k < |refs| ==> IsEntryOf(blocks[k], refs[k], entries)
  }

  /**
    A component can be exported exactly if every reference it lists is the id of an entry, however both
    are spelled, indented and commented. The manifest then has, for each reference once, in order, all
    lines of an entry with that id.
  */
  lemma WrittenCorpusExports(corpus: Corpus, component: string, head: seq<string>, entries: seq<Entry>,
                             text: string, before: seq<string>, keyLine: string, items: seq<Listed>)
    requires IsWritten(corpus, component, head, entries, text, before, keyLine, items)
    ensures Exportable(corpus, component) <==> forall i :: 0 <= i < |items| ==> HasEntry(entries, items[i].value)
    ensures Exportable(corpus, component) ==>
              ShowsEntries(Manifest(corpus, component), Deduplicated(ValuesListed(items)), entries)
  {
    hide SplitLines, ItemLines, RegisterLines, IsKeyLine, WellWritten, WellListed, NoIdLines, NoKeyLines;
    hide Deduplicated, EntryLines, Manifest, EntryBlocks, IsKnown, HasEntry, ValuesOf, ShowsEntries;
    ReadCorpus(corpus, component, head, entries, text, before, keyLine, items);
    forall id ensures IsKnown(EntryBlocks(entries), id) <==> HasEntry(entries, id) {
      KnownIsEntry(entries, id);
    }
    var values := ValuesListed(items);
    if forall i :: 0 <= i < |items| ==> HasEntry(entries, items[i].value) {
      forall ref | ref in values ensures HasEntry(entries, ref) {
        var i :| 0 <= i < |values| && values[i] == ref;
      }
    }
    if Exportable(corpus, component) {
      forall i | 0 <= i < |items| ensures HasEntry(entries, items[i].value) {
        assert values[i] in values;
      }
      ManifestOfEntries(corpus, component, entries, values);
    }
  }

  lemma ReadCorpus(corpus: Corpus, component: string, head: seq<string>, entries: seq<Entry>,
                   text: string, before: seq<string>, keyLine: string, items: seq<Listed>)
    requires IsWritten(corpus, component, head, entries, text, before, keyLine, items)
    ensures SourceBlocks(corpus) == EntryBlocks(entries) && ValuesOf(text, "source_refs") == ValuesListed(items)
  {
    hide SplitLines, ItemLines, RegisterLines, IsKeyLine, WellWritten, WellListed, NoIdLines, NoKeyLines, EntryLines;
    RegisterReadsBack(head, entries);
    ListReadsBack(before, keyLine, items, "source_refs");
  }

  lemma ManifestOfEntries(corpus: Corpus, component: string, entries: seq<Entry>, values: seq<string>)
    requires Exportable(corpus, component) && SourceBlocks(corpus) == EntryBlocks(entries)
    requires ValuesOf(TextOf(corpus.crosswalks, component).value, "source_refs") == values
    ensures ShowsEntries(Manifest(corpus, component), Deduplicated(values), entries)
  {
    hide EntryLines, ValuesOf, Deduplicated, SourceBlocks;
    var manifest, refs, blocks := Manifest(corpus, component), Deduplicated(values), EntryBlocks(entries);
    DeduplicatedIs(values);
    forall k | 0 <= k < |refs|
      ensures IsEntryOf(manifest[k], refs[k], entries)
    {
      assert refs[k] in values;
      DictHasBlocks(blocks, refs[k]);
      var i :| 0 <= i < |blocks| && blocks[i] == Block(refs[k], Get(BlockDict(blocks), refs[k]).value);
      assert entries[i].id == refs[k];
    }
  }

  lemma KnownIsEntry(entries: seq<Entry>, id: string)
    ensures IsKnown(EntryBlocks(entries), id) <==> HasEntry(entries, id)
  {
    hide EntryLines;
    if i :| 0 <= i < |entries| && entries[i].id == id {
      assert EntryBlocks(entries)[i].id == id;
    }
    if k :| 0 <= k < |EntryBlocks(entries)| && EntryBlocks(entries)[k].id == id {
      assert entries[k].id == id;
    }
  }

  lemma TwoLinesOf(a: string, b: string)
    requires IsLine(a) && IsLine(b)
    ensures SplitLines(a + "\n" + b + "\n") == [a, b]
  {
    hide SplitLines;
    assert [a, b][1..] == [b] && Join("\n", [b]) == b;
    assert Join("\n", [a, b]) == a + "\n" + b;
    assert Unlines([a, b]) == a + "\n" + b + "\n";
    SplitUnlines([a, b]);
  }

  /** For instance a register with one source and a crosswalk that refers to it. */
  lemma LiteralCorpusExports()
    ensures var corpus := Corpus("sources:\n  - id: A\n", "", [File("c", "source_refs:\n  - A\n")], []);
            Exportable(corpus, "c") && Manifest(corpus, "c") == [Block("A", ["  - id: A"])]
  {
    var corpus := Corpus("sources:\n  - id: A\n", "", [File("c", "source_refs:\n  - A\n")], []);
    var entries, items := [Entry("A", PLAIN, [])], [Listed("A", "  ", PLAIN)];
    LiteralIsWritten();
    hide IsWritten, Exportable, Manifest, EntryLines;
    WrittenCorpusExports(corpus, "c", ["sources:"], entries, "source_refs:\n  - A\n", [], "source_refs:", items);
    assert items[0].value == "A" && entries[0].id == "A" && HasEntry(entries, "A");
    LiteralValues();
    assert EntryLines(entries[0]) == ["  - id: A"] by { LiteralLines(); }
  }

  lemma LiteralLines()
    ensures EntryLines(Entry("A", PLAIN, [])) == ["  - id: A"]
  {
    assert Spelled(PLAIN, "A") == "A" && ID_PREFIX + "A" == "  - id: A";
  }

  lemma LiteralValues()
    ensures Deduplicated(ValuesListed([Listed("A", "  ", PLAIN)])) == ["A"]
  {
    var values := ValuesListed([Listed("A", "  ", PLAIN)]);
    assert values == ["A"] && values[..0] == [];
  }

  lemma LiteralIsWritten()
    ensures var corpus := Corpus("sources:\n  - id: A\n", "", [File("c", "source_refs:\n  - A\n")], []);
            IsWritten(corpus, "c", ["sources:"], [Entry("A", PLAIN, [])], "source_refs:\n  - A\n", [], "source_refs:",
                      [Listed("A", "  ", PLAIN)])
  {
    hide SplitLines, RegisterLines, ItemLines, IsKeyLine, WellListed, SpellsWell, NoIdLines, EntryLines;
    TwoLinesOf("sources:", "  - id: A");
    TwoLinesOf("source_refs:", "  - A");
    LiteralRegister();
    LiteralList();
    assert ["sources:"] + ["  - id: A"] == ["sources:", "  - id: A"];
    assert [] + ["source_refs:"] + ["  - A"] == ["source_refs:", "  - A"];
    assert "sources:" + "\n" + "  - id: A" + "\n" == "sources:\n  - id: A\n";
    assert "source_refs:" + "\n" + "  - A" + "\n" == "source_refs:\n  - A\n";
    assert TextOf([File("c", "source_refs:\n  - A\n")], "c") == Some("source_refs:\n  - A\n");
  }

  lemma LiteralRegister()
    ensures RegisterLines([Entry("A", PLAIN, [])]) == ["  - id: A"]
    ensures NoIdLines(["sources:"]) && WellWritten([Entry("A", PLAIN, [])])
  {
    LiteralLines();
    assert [Entry("A", PLAIN, [])][1..] == [];
    assert SpellsWell(Indented(PLAIN), "A");
    assert "sources:"[0] != ID_PREFIX[0];
  }

  lemma LiteralList()
    ensures ItemLines([Listed("A", "  ", PLAIN)]) == ["  - A"] && WellListed(Listed("A", "  ", PLAIN))
    ensures IsKeyLine("source_refs:", "source_refs")
  {
    assert SpellsWell(PLAIN, "A") && Spelled(PLAIN, "A") == "A";
    StripNothing(IsSpace, "A");
    assert "  " + "- " + "A" == "  - A";
    StripNothing(IsSpace, "source_refs:");
  }
}
