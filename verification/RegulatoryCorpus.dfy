/**
  The regulatory corpus tools: the exporter prints a component's manifest from the source register,
  and the linter checks the register and all references. Files are their decoded texts.
*/
module RegulatoryCorpus {
  import opened Wrappers
  import opened Sequences
  import opened OrderedDicts
  import opened CorpusLines
  import opened ManifestHeaders

  datatype File = File(name: string, text: string)

  datatype Corpus = Corpus(sources: string, challengers: string, crosswalks: seq<File>, regimes: seq<File>)

  function TextOf(files: seq<File>, name: string): (r: Option<string>)
    ensures r.Some? ==> File(name, r.value) in files
    ensures r.None? <==> forall f :: f in files ==> f.name != name
  {
    if files == [] then None
    else if files[0].name == name then Some(files[0].text)
    else TextOf(files[1..], name)
  }

  function SourceBlocks(corpus: Corpus): seq<Block> {
    Blocks(SplitLines(corpus.sources))
  }

  ghost predicate IsKnown(blocks: seq<Block>, id: string) {
    exists k :: 0 <= k < |blocks| && blocks[k].id == id
  }

  ghost function ValuesOf(text: string, key: string): seq<string> {
    ValuesAfterKey(SplitLines(text), key, |SplitLines(text)|)
  }

  // ----- render_manifest -----

  datatype RenderError = NoCrosswalk | UnknownRefs(refs: seq<string>)

  /** The blocks of the given ids, as the dictionary has them. */
  function Referenced(blocks: Dict<string, seq<string>>, refs: seq<string>): (r: seq<Block>)
    ensures |r| == |refs|
    ensures forall i :: 0 <= i < |refs| ==>
              r[i] == Block(refs[i], if Get(blocks, refs[i]).Some? then Get(blocks, refs[i]).value else [])
  {
    seq(|refs|, i requires 0 <= i < |refs| =>
      Block(refs[i], if Get(blocks, refs[i]).Some? then Get(blocks, refs[i]).value else []))
  }

  function Body(blocks: seq<Block>): seq<string> {
    if blocks == [] then [] else Body(blocks[..|blocks| - 1]) + blocks[|blocks| - 1].lines
  }

  ghost function RefsOf(text: string): seq<string> {
    Deduplicated(ValuesOf(text, "source_refs"))
  }

  /** The crosswalk is there and refers to known sources only. */
  ghost predicate Exportable(corpus: Corpus, component: string) {
    match TextOf(corpus.crosswalks, component)
    case None => false
    case Some(text) => forall ref :: ref in ValuesOf(text, "source_refs") ==> IsKnown(SourceBlocks(corpus), ref)
  }

  ghost function Manifest(corpus: Corpus, component: string): seq<Block>
    requires Exportable(corpus, component)
  {
    Referenced(BlockDict(SourceBlocks(corpus)), RefsOf(TextOf(corpus.crosswalks, component).value))
  }

  /** The references that no block of the register has, in order. */
  ghost function Unknown(corpus: Corpus, refs: seq<string>): seq<string> {
    Filter(IsUnknown(SourceBlocks(corpus)), refs)
  }

  ghost function IsUnknown(blocks: seq<Block>): string -> bool {
    (ref: string) => !IsKnown(blocks, ref)
  }

  function IsMissing(blocks: Dict<string, seq<string>>): string -> bool {
    (ref: string) => Get(blocks, ref).None?
  }

  method RenderManifest(corpus: Corpus, component: string) returns (r: Result<string, RenderError>)
    ensures r.Success? <==> Exportable(corpus, component)
    ensures r.Success? ==> r.value == Unlines(Header(component) + Body(Manifest(corpus, component)))
    ensures r == Failure(NoCrosswalk) <==> TextOf(corpus.crosswalks, component).None?
    ensures r.Failure? && r.error.UnknownRefs? ==>
              && TextOf(corpus.crosswalks, component).Some?
              && r.error.refs == Unknown(corpus, RefsOf(TextOf(corpus.crosswalks, component).value)) != []
  {
    var blocks := SourceBlockDict(SplitLines(corpus.sources));
    var crosswalk := TextOf(corpus.crosswalks, component);
    if crosswalk.None? {
      return Failure(NoCrosswalk);
    }
    var refs := SourceRefs(SplitLines(crosswalk.value));
    DeduplicatedIs(ValuesOf(crosswalk.value, "source_refs"));
    var missing := Filter(IsMissing(blocks), refs);
    FilterMembers(IsMissing(blocks), refs);
    forall ref ensures Get(blocks, ref).Some? <==> IsKnown(SourceBlocks(corpus), ref) {
      DictHasBlocks(SourceBlocks(corpus), ref);
    }
    if missing != [] {
      FilterSame(IsMissing(blocks), IsUnknown(SourceBlocks(corpus)), refs);
      assert missing[0] in missing;
      return Failure(UnknownRefs(missing));
    }
    assert forall ref :: ref in refs ==> Get(blocks, ref).Some? by {
      forall ref | ref in refs ensures Get(blocks, ref).Some? {
        assert ref !in missing;
      }
    }
    var body := RenderBody(blocks, refs);
    return Success(Unlines(Header(component) + body));
  }

  method RenderBody(blocks: Dict<string, seq<string>>, refs: seq<string>) returns (body: seq<string>)
    requires forall ref :: ref in refs ==> Get(blocks, ref).Some?
    ensures body == Body(Referenced(blocks, refs))
  {
    body := [];
    ghost var all := Referenced(blocks, refs);
    for i := 0 to |refs|
      invariant body == Body(all[..i])
    {
      assert all[..i + 1][..i] == all[..i];
      assert refs[i] in refs;
      body := body + Get(blocks, refs[i]).value;
    }
    assert all[..|refs|] == all;
  }

  // ----- the printed manifest parses back -----

  /** A block as the parser makes them: one id line, at the front, that gives its id. */
  ghost predicate IsBlock(b: Block) {
    && b.lines != [] && IsIdLine(b.lines[0]) && LineId(b.lines[0]) == b.id
    && (forall i :: 1 <= i < |b.lines| ==> !IsIdLine(b.lines[i]))
    && (forall i :: 0 <= i < |b.lines| ==> IsLine(b.lines[i]))
  }

  lemma {:induction false} ParsedAreBlocks(lines: seq<string>)
    requires forall i :: 0 <= i < |lines| ==> IsLine(lines[i])
    ensures forall k :: 0 <= k < |Blocks(lines)| ==> IsBlock(Blocks(lines)[k])
    decreases |lines|
  {
    hide LineId, IsIdLine, IsLine;
    if lines != [] {
      if !IsIdLine(lines[0]) {
        ParsedAreBlocks(lines[1..]);
      } else {
        var n := 1 + BodyLength(lines[1..]);
        ParsedAreBlocks(lines[n..]);
        assert forall i :: 1 <= i < n ==> lines[i] == lines[1..][i - 1];
      }
    }
  }

  lemma {:induction false} DictHasBlocks(blocks: seq<Block>, id: string)
    ensures Get(BlockDict(blocks), id).Some? <==> IsKnown(blocks, id)
    ensures Get(BlockDict(blocks), id).Some? ==>
              exists k :: 0 <= k < |blocks| && blocks[k] == Block(id, Get(BlockDict(blocks), id).value)
  {
    if blocks != [] {
      var n := |blocks| - 1;
      DictHasBlocks(blocks[..n], id);
      PutGet(BlockDict(blocks[..n]), blocks[n].id, blocks[n].lines, id);
      if IsKnown(blocks, id) && blocks[n].id != id {
        var k :| 0 <= k < |blocks| && blocks[k].id == id;
        assert blocks[..n][k] == blocks[k];
      }
      if blocks[n].id == id {
        assert blocks[n] == Block(id, Get(BlockDict(blocks), id).value);
      } else if Get(BlockDict(blocks), id).Some? {
        var k :| 0 <= k < n && blocks[..n][k] == Block(id, Get(BlockDict(blocks[..n]), id).value);
        assert blocks[k].id == id;
      }
    }
  }

  lemma ManifestBlocks(corpus: Corpus, component: string)
    requires Exportable(corpus, component)
    ensures forall k :: 0 <= k < |Manifest(corpus, component)| ==> IsBlock(Manifest(corpus, component)[k])
  {
    hide IsBlock;
    var text := TextOf(corpus.crosswalks, component).value;
    var refs, blocks := RefsOf(text), SourceBlocks(corpus);
    DeduplicatedIs(ValuesOf(text, "source_refs"));
    SplitLinesAreLines(corpus.sources);
    ParsedAreBlocks(SplitLines(corpus.sources));
    forall k | 0 <= k < |refs| ensures IsBlock(Manifest(corpus, component)[k]) {
      assert refs[k] in refs;
      DictHasBlocks(blocks, refs[k]);
    }
  }

  lemma {:induction false} BodyLengthIs(lines: seq<string>, n: nat)
    requires n <= |lines| && (forall i :: 0 <= i < n ==> !IsIdLine(lines[i])) && (n < |lines| ==> IsIdLine(lines[n]))
    ensures BodyLength(lines) == n
  {
    if n > 0 {
      BodyLengthIs(lines[1..], n - 1);
    }
  }

  lemma BlocksCons(b: Block, rest: seq<string>)
    requires IsBlock(b) && (rest == [] || IsIdLine(rest[0]))
    ensures Blocks(b.lines + rest) == [b] + Blocks(rest)
  {
    hide LineId, IsIdLine, IsLine;
    var lines := b.lines + rest;
    assert lines[0] == b.lines[0];
    forall i | 0 <= i < |b.lines| - 1 ensures !IsIdLine(lines[1..][i]) {
      assert lines[1..][i] == b.lines[i + 1];
    }
    assert rest != [] ==> lines[1..][|b.lines| - 1] == rest[0];
    BodyLengthIs(lines[1..], |b.lines| - 1);
    assert lines[..|b.lines|] == b.lines && lines[|b.lines|..] == rest;
  }

  lemma {:induction false} BlocksUnfold(lines: seq<string>)
    ensures lines == [] ==> Blocks(lines) == []
    ensures lines != [] && !IsIdLine(lines[0]) ==> Blocks(lines) == Blocks(lines[1..])
    ensures lines != [] && IsIdLine(lines[0]) ==>
              var n := 1 + BodyLength(lines[1..]);
              Blocks(lines) == [Block(LineId(lines[0]), lines[..n])] + Blocks(lines[n..])
  {
    hide LineId, IsIdLine, BodyLength;
  }

  lemma BlocksCut(a: seq<string>, b: seq<string>, n: nat)
    requires n <= |a|
    ensures (a + b)[..n] == a[..n] && (a + b)[n..] == a[n..] + b
  {
  }

  lemma {:induction false} BlocksAppend(a: seq<string>, b: seq<string>)
    requires b == [] || IsIdLine(b[0])
    ensures Blocks(a + b) == Blocks(a) + Blocks(b)
    decreases |a|
  {
    hide LineId, IsIdLine, Blocks;
    BlocksUnfold([]);
    if a == [] {
      assert a + b == b && [] + Blocks(b) == Blocks(b);
    } else {
      BlocksUnfold(a);
      BlocksUnfold(a + b);
      assert (a + b)[0] == a[0] && (a + b)[1..] == a[1..] + b;
      if !IsIdLine(a[0]) {
        BlocksAppend(a[1..], b);
      } else {
        var n := BodyLength(a[1..]);
        assert forall i :: 0 <= i < n ==> (a[1..] + b)[i] == a[1..][i];
        BodyLengthIs((a + b)[1..], n);
        BlocksCut(a, b, 1 + n);
        BlocksAppend(a[1 + n..], b);
        AppendAssociates([Block(LineId(a[0]), a[..1 + n])], Blocks(a[1 + n..]), Blocks(b));
      }
    }
  }

  lemma {:induction false} BlocksOfBody(blocks: seq<Block>)
    requires forall k :: 0 <= k < |blocks| ==> IsBlock(blocks[k])
    ensures Blocks(Body(blocks)) == blocks
    ensures blocks != [] ==> Body(blocks) != [] && IsIdLine(Body(blocks)[0])
    ensures forall i :: 0 <= i < |Body(blocks)| ==> IsLine(Body(blocks)[i])
  {
    hide LineId, IsIdLine, IsLine, Blocks;
    BlocksUnfold([]);
    if blocks != [] {
      var n := |blocks| - 1;
      var last, before := blocks[n], Body(blocks[..n]);
      BlocksOfBody(blocks[..n]);
      assert Body(blocks) == before + last.lines;
      BlocksAppend(before, last.lines);
      BlocksCons(last, []);
      assert last.lines + [] == last.lines && [last] + [] == [last];
      assert blocks == blocks[..n] + [last];
      assert Body(blocks)[0] == if before == [] then last.lines[0] else before[0];
    }
  }

  lemma {:induction false} NoBlocksIff(lines: seq<string>)
    ensures Blocks(lines) == [] <==> NoIdLines(lines)
  {
    if lines != [] && !IsIdLine(lines[0]) {
      NoBlocksIff(lines[1..]);
      assert forall i :: 1 <= i < |lines| ==> lines[i] == lines[1..][i - 1];
      assert forall i :: 0 <= i < |lines[1..]| ==> lines[1..][i] == lines[i + 1];
    }
  }

  lemma ManifestLines(corpus: Corpus, component: string)
    requires Exportable(corpus, component)
    ensures var body := Body(Manifest(corpus, component));
            SplitLines(Unlines(Header(component) + body)) == SplitLines(Unlines(Header(component))) + body
  {
    hide IsBlock, SplitLines, Manifest, Header;
    HeaderLength(component);
    var header, blocks := Header(component), Manifest(corpus, component);
    ManifestBlocks(corpus, component);
    BlocksOfBody(blocks);
    var body := Body(blocks);
    if body == [] {
      assert header + body == header;
    } else {
      SplitAppend(header, body);
      SplitUnlines(body);
    }
  }

  /**
    Print and parse: parsing the manifest of a component gives back exactly the referenced blocks, in
    the order of the references, line for line, exactly if the component's name does not smuggle an
    id line into the header: none of its lines after the first is one.
  */
  lemma ManifestRoundTripIff(corpus: Corpus, component: string)
    requires Exportable(corpus, component)
    ensures var text := Unlines(Header(component) + Body(Manifest(corpus, component)));
            Blocks(SplitLines(text)) == Manifest(corpus, component) <==> SafeName(component)
  {
    hide IsBlock, SplitLines, Manifest, Header, NoIdLines, SafeName;
    HeaderIsSafeIff(component);
    var header := SplitLines(Unlines(Header(component)));
    var blocks := Manifest(corpus, component);
    ManifestLines(corpus, component);
    ManifestBlocks(corpus, component);
    BlocksOfBody(blocks);
    BlocksAppend(header, Body(blocks));
    NoBlocksIff(header);
    assert |Blocks(header) + blocks| == |Blocks(header)| + |blocks|;
    assert Blocks(header) == [] ==> Blocks(header) + blocks == blocks;
  }

  /** For instance a crosswalk without references, of a component whose second line is an id line. */
  lemma ManifestNeedNotParseBack()
    ensures var component := "a\n  - id: b";
            var corpus := Corpus("", "", [File(component, "")], []);
            && Exportable(corpus, component)
            && Blocks(SplitLines(Unlines(Header(component) + Body(Manifest(corpus, component)))))
               != Manifest(corpus, component)
  {
    var component := "a\n  - id: b";
    var corpus := Corpus("", "", [File(component, "")], []);
    SplitEmpty();
    assert ValuesOf("", "source_refs") == [];
    SmuggledIdLine();
    ManifestRoundTripIff(corpus, component);
  }

  /** The dictionary parsed from the manifest lists the references in order, each with its block. */
  lemma ManifestDictionary(corpus: Corpus, component: string)
    requires Exportable(corpus, component) && SafeName(component)
    ensures var text := Unlines(Header(component) + Body(Manifest(corpus, component)));
            var blocks := Manifest(corpus, component);
            BlockDict(Blocks(SplitLines(text))) ==
            seq(|blocks|, i requires 0 <= i < |blocks| => Item(blocks[i].id, blocks[i].lines))
  {
    ManifestRoundTripIff(corpus, component);
    var values := ValuesOf(TextOf(corpus.crosswalks, component).value, "source_refs");
    DeduplicatedIs(values);
    DictOfDistinct(Manifest(corpus, component));
  }

  lemma {:induction false} DictOfDistinct(blocks: seq<Block>)
    requires forall i, j :: 0 <= i < j < |blocks| ==> blocks[i].id != blocks[j].id
    ensures BlockDict(blocks) == seq(|blocks|, i requires 0 <= i < |blocks| => Item(blocks[i].id, blocks[i].lines))
  {
    if blocks != [] {
      var n := |blocks| - 1;
      DictOfDistinct(blocks[..n]);
      PutNew(BlockDict(blocks[..n]), blocks[n].id, blocks[n].lines);
    }
  }
}
