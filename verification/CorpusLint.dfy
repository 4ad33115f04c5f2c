/**
  The linter of the regulatory corpus: it collects the ids of the two registers, checks every source
  block and every reference, and appends what is wrong to a shared list of errors.
*/
module CorpusLint {
  import opened Wrappers
  import opened Sequences
  import opened Text
  import opened CorpusLines
  import opened ManifestHeaders
  import opened RegulatoryCorpus

  const ALLOWED_SOURCE_STATUS: set<string> :=
    {"final_rule", "in_force", "baseline_standard", "supervisory_expectation", "technical_standard", "consultation",
     "proposed_rule", "near_final", "historical", "challenger_reference", "placeholder"}

  const REQUIRED_FIELDS: seq<string> := ["issuer", "jurisdiction", "title", "url"]

  datatype RefKind = SourceRef | ChallengerRef | PrimarySource

  function KeyOf(kind: RefKind): string {
    match kind
    case SourceRef => "source_refs"
    case ChallengerRef => "challenger_refs"
    case PrimarySource => "primary_sources"
  }

  datatype LintError =
    | DuplicateSource(id: string) | InvalidStatus(id: string) | MissingField(id: string, field: string) | NoSources
    | DuplicateChallenger(id: string) | NoChallengers
    | UnknownRef(kind: RefKind, file: string, ref: string)

  /** The list of errors that the checks share and append to. */
  class ErrorLog {
    var entries: seq<LintError>

    constructor ()
      ensures entries == []
    {
      entries := [];
    }

    method Append(e: LintError)
      modifies this
      ensures entries == old(entries) + [e]
    {
      entries := entries + [e];
    }
  }

  // ----- what has to be reported -----

  /** Line `k` is the first that gives the field. */
  ghost predicate GivesField(block: seq<string>, field: string, k: nat) {
    && k < |block| && StartsWith(block[k], "    " + field + ":")
    && forall i :: 0 <= i < k ==> !StartsWith(block[i], "    " + field + ":")
  }

  function FieldText(line: string): string {
    match SplitOnce(line, ":").1 case None => "" case Some(rest) => CleanScalar(Strip(IsSpace, rest))
  }

  /** The field is given, and what the first line to give it says is `value`, which is not empty. */
  ghost predicate HasField(block: seq<string>, field: string, value: string) {
    value != "" && exists k: nat :: GivesField(block, field, k) && FieldText(block[k]) == value
  }

  ghost predicate HasSomeField(block: seq<string>, field: string) {
    exists value :: HasField(block, field, value)
  }

  ghost predicate HasAllowedStatus(block: seq<string>) {
    exists status :: status in ALLOWED_SOURCE_STATUS && HasField(block, "status", status)
  }

  ghost predicate Repeats(ids: seq<string>, k: int) {
    0 <= k < |ids| && exists j :: 0 <= j < k && ids[j] == ids[k]
  }

  ghost predicate IsRepeated(ids: seq<string>, id: string) {
    exists k :: Repeats(ids, k) && ids[k] == id
  }

  ghost predicate BlockReported(blocks: seq<Block>, k: nat, e: LintError)
    requires k < |blocks|
  {
    match e
    case DuplicateSource(id) => id == blocks[k].id && Repeats(Ids(blocks), k)
    case InvalidStatus(id) => id == blocks[k].id && !HasAllowedStatus(blocks[k].lines)
    case MissingField(id, field) =>
      id == blocks[k].id && field in REQUIRED_FIELDS && !HasSomeField(blocks[k].lines, field)
    case _ => false
  }

  ghost predicate SomeBlockReported(blocks: seq<Block>, n: nat, e: LintError)
    requires n <= |blocks|
  {
    exists k: nat :: k < n && BlockReported(blocks, k, e)
  }

  ghost predicate SourcesReported(blocks: seq<Block>, e: LintError) {
    SomeBlockReported(blocks, |blocks|, e) || (e == NoSources && blocks == [])
  }

  ghost predicate ChallengersReported(ids: seq<string>, e: LintError) {
    || (e.DuplicateChallenger? && IsRepeated(ids, e.id))
    || (e == NoChallengers && ids == [])
  }

  ghost predicate RefReported(file: File, kind: RefKind, known: set<string>, e: LintError) {
    && e.UnknownRef? && e.kind == kind && e.file == file.name
    && e.ref in ValuesOf(file.text, KeyOf(kind)) && e.ref !in known
  }

  ghost predicate RefsReported(files: seq<File>, n: nat, kind: RefKind, known: set<string>, e: LintError)
    requires n <= |files|
  {
    exists i: nat :: i < n && RefReported(files[i], kind, known, e)
  }

  function Ids(blocks: seq<Block>): (ids: seq<string>)
    ensures |ids| == |blocks| && forall k :: 0 <= k < |ids| ==> ids[k] == blocks[k].id
  {
    seq(|blocks|, k requires 0 <= k < |blocks| => blocks[k].id)
  }

  function ToSet(ids: seq<string>): (r: set<string>)
    ensures forall id :: id in r <==> id in ids
  {
    set id | id in ids
  }

  ghost function SourceIds(corpus: Corpus): set<string> {
    ToSet(Ids(SourceBlocks(corpus)))
  }

  ghost function ChallengerIds(corpus: Corpus): seq<string> {
    Ids(Blocks(SplitLines(corpus.challengers)))
  }

  ghost predicate Reported(corpus: Corpus, e: LintError) {
    || SourcesReported(SourceBlocks(corpus), e)
    || ChallengersReported(ChallengerIds(corpus), e)
    || RefsReported(corpus.crosswalks, |corpus.crosswalks|, SourceRef, SourceIds(corpus), e)
    || RefsReported(corpus.crosswalks, |corpus.crosswalks|, ChallengerRef, ToSet(ChallengerIds(corpus)), e)
    || RefsReported(corpus.regimes, |corpus.regimes|, PrimarySource, SourceIds(corpus), e)
  }

  // ----- the errors in the order in which they are reported -----

  ghost function FieldErrors(block: Block, n: nat): seq<LintError> {
    Gather(n, (f: nat) =>
      if f < |REQUIRED_FIELDS| && !HasSomeField(block.lines, REQUIRED_FIELDS[f])
      then [MissingField(block.id, REQUIRED_FIELDS[f])]
      else [])
  }

  ghost function BlockErrors(blocks: seq<Block>, k: nat): seq<LintError>
    requires k < |blocks|
  {
    (if Repeats(Ids(blocks), k) then [DuplicateSource(blocks[k].id)] else []) +
    (if HasAllowedStatus(blocks[k].lines) then [] else [InvalidStatus(blocks[k].id)]) +
    FieldErrors(blocks[k], |REQUIRED_FIELDS|)
  }

  ghost function BlocksErrors(blocks: seq<Block>, n: nat): seq<LintError> {
    Gather(n, (k: nat) => if k < |blocks| then BlockErrors(blocks, k) else [])
  }

  ghost function SourceErrors(blocks: seq<Block>): seq<LintError> {
    BlocksErrors(blocks, |blocks|) + if blocks == [] then [NoSources] else []
  }

  ghost function RepetitionErrors(ids: seq<string>, n: nat): seq<LintError> {
    Gather(n, (k: nat) => if Repeats(ids, k) then [DuplicateChallenger(ids[k])] else [])
  }

  ghost function ChallengerErrors(ids: seq<string>): seq<LintError> {
    RepetitionErrors(ids, |ids|) + if ids == [] then [NoChallengers] else []
  }

  ghost function UnknownErrors(
    refs: seq<string>, n: nat, kind: RefKind, name: string, known: set<string>): seq<LintError>
  {
    Gather(n, (i: nat) => if i < |refs| && refs[i] !in known then [UnknownRef(kind, name, refs[i])] else [])
  }

  ghost function FileErrors(file: File, kind: RefKind, known: set<string>): seq<LintError> {
    var refs := ValuesOf(file.text, KeyOf(kind));
    UnknownErrors(refs, |refs|, kind, file.name, known)
  }

  ghost function CrosswalkErrors(
    files: seq<File>, n: nat, sources: set<string>, challengers: set<string>): seq<LintError>
  {
    Gather(n, (i: nat) =>
      if i < |files|
      then FileErrors(files[i], SourceRef, sources) + FileErrors(files[i], ChallengerRef, challengers)
      else [])
  }

  ghost function RegimeErrors(files: seq<File>, n: nat, sources: set<string>): seq<LintError> {
    Gather(n, (i: nat) => if i < |files| then FileErrors(files[i], PrimarySource, sources) else [])
  }

  ghost function ReferenceErrors(corpus: Corpus, sources: set<string>, challengers: set<string>): seq<LintError> {
    CrosswalkErrors(corpus.crosswalks, |corpus.crosswalks|, sources, challengers) +
    RegimeErrors(corpus.regimes, |corpus.regimes|, sources)
  }

  /** Everything the linter has to say, in the order in which it says it. */
  ghost function AllErrors(corpus: Corpus): seq<LintError> {
    SourceErrors(SourceBlocks(corpus)) + ChallengerErrors(ChallengerIds(corpus)) +
    ReferenceErrors(corpus, SourceIds(corpus), ToSet(ChallengerIds(corpus)))
  }

  lemma BlockErrorsMembers(blocks: seq<Block>, k: nat)
    requires k < |blocks|
    ensures forall e :: e in BlockErrors(blocks, k) <==> BlockReported(blocks, k, e)
  {
    hide HasAllowedStatus, HasSomeField, Repeats;
    var block := blocks[k];
    var part := (f: nat) =>
      if f < |REQUIRED_FIELDS| && !HasSomeField(block.lines, REQUIRED_FIELDS[f])
      then [MissingField(block.id, REQUIRED_FIELDS[f])]
      else [];
    GatherMembers(|REQUIRED_FIELDS|, part);
    assert FieldErrors(block, |REQUIRED_FIELDS|) == Gather(|REQUIRED_FIELDS|, part);
    forall e: LintError
      ensures e in FieldErrors(block, |REQUIRED_FIELDS|) <==>
              e.MissingField? && e.id == block.id && e.field in REQUIRED_FIELDS && !HasSomeField(block.lines, e.field)
    {
      if e.MissingField? && e.id == block.id && e.field in REQUIRED_FIELDS && !HasSomeField(block.lines, e.field) {
        var f :| 0 <= f < |REQUIRED_FIELDS| && REQUIRED_FIELDS[f] == e.field;
        assert e in part(f);
      }
    }
  }

  lemma BlocksErrorsUnfold(blocks: seq<Block>, n: nat)
    requires n <= |blocks|
    ensures BlocksErrors(blocks, n) == if n == 0 then [] else BlocksErrors(blocks, n - 1) + BlockErrors(blocks, n - 1)
  {
    hide BlockErrors;
  }

  lemma BlockErrorsAppended(before: seq<LintError>, blocks: seq<Block>, k: nat)
    requires k < |blocks|
    ensures before + BlockErrors(blocks, k) ==
            before + (if Repeats(Ids(blocks), k) then [DuplicateSource(blocks[k].id)] else [])
            + (if HasAllowedStatus(blocks[k].lines) then [] else [InvalidStatus(blocks[k].id)])
            + FieldErrors(blocks[k], |REQUIRED_FIELDS|)
  {
    hide Repeats, HasAllowedStatus, FieldErrors;
  }

  lemma SourceErrorsMembers(blocks: seq<Block>)
    ensures forall e :: e in SourceErrors(blocks) <==> SourcesReported(blocks, e)
  {
    hide BlockErrors, BlockReported;
    var part := (k: nat) => if k < |blocks| then BlockErrors(blocks, k) else [];
    GatherMembers(|blocks|, part);
    assert BlocksErrors(blocks, |blocks|) == Gather(|blocks|, part);
    forall k: nat | k < |blocks| ensures forall e :: e in part(k) <==> BlockReported(blocks, k, e) {
      BlockErrorsMembers(blocks, k);
    }
    forall e ensures e in BlocksErrors(blocks, |blocks|) <==> SomeBlockReported(blocks, |blocks|, e) {
      if SomeBlockReported(blocks, |blocks|, e) {
        var k: nat :| k < |blocks| && BlockReported(blocks, k, e);
        assert e in part(k);
      }
    }
  }

  lemma ChallengerErrorsMembers(ids: seq<string>)
    ensures forall e :: e in ChallengerErrors(ids) <==> ChallengersReported(ids, e)
  {
    var part := (k: nat) => if Repeats(ids, k) then [DuplicateChallenger(ids[k])] else [];
    GatherMembers(|ids|, part);
    assert RepetitionErrors(ids, |ids|) == Gather(|ids|, part);
    forall e: LintError | e.DuplicateChallenger? && IsRepeated(ids, e.id) ensures e in RepetitionErrors(ids, |ids|) {
      var k :| Repeats(ids, k) && ids[k] == e.id;
      assert e in part(k);
    }
  }

  lemma FileErrorsMembers(file: File, kind: RefKind, known: set<string>)
    ensures forall e :: e in FileErrors(file, kind, known) <==> RefReported(file, kind, known, e)
  {
    hide ValuesOf, KeyOf;
    var refs := ValuesOf(file.text, KeyOf(kind));
    var part := (i: nat) => if i < |refs| && refs[i] !in known then [UnknownRef(kind, file.name, refs[i])] else [];
    GatherMembers(|refs|, part);
    assert FileErrors(file, kind, known) == Gather(|refs|, part);
    forall e | RefReported(file, kind, known, e) ensures e in FileErrors(file, kind, known) {
      var i :| 0 <= i < |refs| && refs[i] == e.ref;
      assert e in part(i);
    }
  }

  lemma ReferenceErrorsMembers(corpus: Corpus, sources: set<string>, challengers: set<string>)
    ensures forall e :: e in ReferenceErrors(corpus, sources, challengers) <==>
              || RefsReported(corpus.crosswalks, |corpus.crosswalks|, SourceRef, sources, e)
              || RefsReported(corpus.crosswalks, |corpus.crosswalks|, ChallengerRef, challengers, e)
              || RefsReported(corpus.regimes, |corpus.regimes|, PrimarySource, sources, e)
  {
    hide FileErrors, RefReported;
    var files, regimes := corpus.crosswalks, corpus.regimes;
    var part := (i: nat) =>
      if i < |files|
      then FileErrors(files[i], SourceRef, sources) + FileErrors(files[i], ChallengerRef, challengers)
      else [];
    var regime := (i: nat) => if i < |regimes| then FileErrors(regimes[i], PrimarySource, sources) else [];
    GatherMembers(|files|, part);
    GatherMembers(|regimes|, regime);
    assert CrosswalkErrors(files, |files|, sources, challengers) == Gather(|files|, part);
    assert RegimeErrors(regimes, |regimes|, sources) == Gather(|regimes|, regime);
    forall i: nat | i < |files|
      ensures forall e :: e in part(i) <==>
                RefReported(files[i], SourceRef, sources, e) || RefReported(files[i], ChallengerRef, challengers, e)
    {
      FileErrorsMembers(files[i], SourceRef, sources);
      FileErrorsMembers(files[i], ChallengerRef, challengers);
    }
    forall i: nat | i < |regimes|
      ensures forall e :: e in regime(i) <==> RefReported(regimes[i], PrimarySource, sources, e)
    {
      FileErrorsMembers(regimes[i], PrimarySource, sources);
    }
  }

  /** The list of errors has exactly what there is to report. */
  lemma AllErrorsAreReported(corpus: Corpus)
    ensures forall e :: e in AllErrors(corpus) <==> Reported(corpus, e)
  {
    hide SourcesReported, ChallengersReported, RefsReported, SourceErrors, ChallengerErrors, ReferenceErrors;
    SourceErrorsMembers(SourceBlocks(corpus));
    ChallengerErrorsMembers(ChallengerIds(corpus));
    ReferenceErrorsMembers(corpus, SourceIds(corpus), ToSet(ChallengerIds(corpus)));
  }

  // ----- the checks -----

  method ScalarField(block: seq<string>, field: string) returns (r: Option<string>)
    ensures forall value :: r == Some(value) <==> HasField(block, field, value)
  {
    hide FieldText;
    var prefix := "    " + field + ":";
    for i := 0 to |block|
      invariant forall j :: 0 <= j < i ==> !StartsWith(block[j], prefix)
    {
      if StartsWith(block[i], prefix) {
        assert forall k: nat :: GivesField(block, field, k) ==> k == i;
        assert GivesField(block, field, i);
        var value := FieldText(block[i]);
        return if value == "" then None else Some(value);
      }
    }
    return None;
  }

  method ReportFields(block: Block, log: ErrorLog)
    modifies log
    ensures log.entries == old(log.entries) + FieldErrors(block, |REQUIRED_FIELDS|)
  {
    hide HasField;
    for f := 0 to |REQUIRED_FIELDS|
      invariant log.entries == old(log.entries) + FieldErrors(block, f)
    {
      var value := ScalarField(block.lines, REQUIRED_FIELDS[f]);
      assert HasSomeField(block.lines, REQUIRED_FIELDS[f]) <==> value.Some? by {
        if value.Some? {
          assert HasField(block.lines, REQUIRED_FIELDS[f], value.value);
        }
      }
      if value.None? {
        log.Append(MissingField(block.id, REQUIRED_FIELDS[f]));
      }
    }
  }

  method ReportStatus(block: Block, log: ErrorLog)
    modifies log
    ensures log.entries == old(log.entries) + if HasAllowedStatus(block.lines) then [] else [InvalidStatus(block.id)]
  {
    hide HasField, ALLOWED_SOURCE_STATUS;
    var status := ScalarField(block.lines, "status");
    if status.None? || status.value !in ALLOWED_SOURCE_STATUS {
      log.Append(InvalidStatus(block.id));
    }
    assert status.Some? ==> HasField(block.lines, "status", status.value);
  }

  lemma SeenSoFar(ids: seq<string>, k: nat)
    requires k < |ids|
    ensures ids[k] in ToSet(ids[..k]) <==> Repeats(ids, k)
    ensures ToSet(ids[..k + 1]) == ToSet(ids[..k]) + {ids[k]}
  {
    assert ids[..k + 1] == ids[..k] + [ids[k]];
  }

  method CollectSourceIds(text: string, log: ErrorLog) returns (seen: set<string>)
    modifies log
    ensures seen == ToSet(Ids(Blocks(SplitLines(text))))
    ensures log.entries == old(log.entries) + SourceErrors(Blocks(SplitLines(text)))
  {
    hide HasAllowedStatus, FieldErrors, SplitLines, Blocks, BlocksErrors, BlockErrors, ToSet, Repeats;
    seen := {};
    BlocksErrorsUnfold(Blocks(SplitLines(text)), 0);
    var blocks := SourceBlockList(SplitLines(text));
    ghost var ids, entries := Ids(blocks), log.entries;
    for k := 0 to |blocks|
      invariant seen == ToSet(ids[..k])
      invariant log.entries == old(log.entries) + BlocksErrors(blocks, k)
    {
      BlocksErrorsUnfold(blocks, k + 1);
      ghost var before := log.entries;
      SeenSoFar(ids, k);
      if blocks[k].id in seen {
        log.Append(DuplicateSource(blocks[k].id));
      }
      assert log.entries == before + if Repeats(ids, k) then [DuplicateSource(blocks[k].id)] else [];
      seen := seen + {blocks[k].id};
      ReportStatus(blocks[k], log);
      ReportFields(blocks[k], log);
      BlockErrorsAppended(before, blocks, k);
      assert log.entries == before + BlockErrors(blocks, k);
      AppendAssociates(entries, BlocksErrors(blocks, k), BlockErrors(blocks, k));
    }
    assert ids[..|blocks|] == ids;
    assert blocks != [] ==> ids[0] in seen;
    if seen == {} {
      log.Append(NoSources);
    }
  }

  /** The ids of the id lines, which are those of the blocks. */
  function IdsOfLines(lines: seq<string>): seq<string> {
    if lines == [] then []
    else (if IsIdLine(lines[0]) then [LineId(lines[0])] else []) + IdsOfLines(lines[1..])
  }

  lemma {:induction false} IdsOfLinesSkip(lines: seq<string>, n: nat)
    requires n <= |lines| && forall i :: 0 <= i < n ==> !IsIdLine(lines[i])
    ensures IdsOfLines(lines) == IdsOfLines(lines[n..])
  {
    hide IsIdLine, LineId;
    if n == 0 {
      assert lines[0..] == lines;
    } else {
      IdsOfLinesSkip(lines[1..], n - 1);
      assert lines[1..][n - 1..] == lines[n..];
    }
  }

  lemma {:induction false} IdLinesGiveBlockIds(lines: seq<string>)
    ensures IdsOfLines(lines) == Ids(Blocks(lines))
    decreases |lines|
  {
    hide IsIdLine, LineId, Blocks;
    BlocksUnfold(lines);
    if lines != [] {
      if !IsIdLine(lines[0]) {
        IdLinesGiveBlockIds(lines[1..]);
      } else {
        var n := BodyLength(lines[1..]);
        IdsOfLinesSkip(lines[1..], n);
        assert lines[1..][n..] == lines[1 + n..];
        IdLinesGiveBlockIds(lines[1 + n..]);
        assert Ids(Blocks(lines)) == [LineId(lines[0])] + Ids(Blocks(lines[1 + n..]));
      }
    }
  }

  method CollectChallengerIds(text: string, log: ErrorLog) returns (seen: set<string>)
    modifies log
    ensures seen == ToSet(Ids(Blocks(SplitLines(text))))
    ensures log.entries == old(log.entries) + ChallengerErrors(Ids(Blocks(SplitLines(text))))
  {
    hide IsIdLine, LineId, SplitLines, Blocks, IdsOfLines, ToSet, Repeats;
    seen := {};
    var lines := SplitLines(text);
    IdLinesGiveBlockIds(lines);
    ghost var ids := IdsOfLines(lines);
    ghost var n := 0;
    assert lines[0..] == lines;
    for i := 0 to |lines|
      invariant n <= |ids| && ids[n..] == IdsOfLines(lines[i..])
      invariant seen == ToSet(ids[..n])
      invariant log.entries == old(log.entries) + RepetitionErrors(ids, n)
    {
      IdsOfLinesFirst(lines, i);
      if IsIdLine(lines[i]) {
        var id := LineId(lines[i]);
        assert ids[n] == id && ids[n + 1..] == ids[n..][1..];
        SeenSoFar(ids, n);
        if id in seen {
          log.Append(DuplicateChallenger(id));
        }
        seen := seen + {id};
        n := n + 1;
      }
    }
    IdLinesGiveBlockIds([]);
    BlocksUnfold([]);
    assert lines[|lines|..] == [] && ids[..n] == ids;
    assert ids != [] ==> ids[0] in seen;
    if seen == {} {
      log.Append(NoChallengers);
    }
  }

  lemma IdsOfLinesFirst(lines: seq<string>, i: nat)
    requires i < |lines|
    ensures IdsOfLines(lines[i..]) ==
            (if IsIdLine(lines[i]) then [LineId(lines[i])] else []) + IdsOfLines(lines[i + 1..])
  {
    assert lines[i..][1..] == lines[i + 1..];
  }

  method CheckFile(file: File, kind: RefKind, known: set<string>, log: ErrorLog)
    modifies log
    ensures log.entries == old(log.entries) + FileErrors(file, kind, known)
  {
    hide SplitLines, ValuesAfterKey, KeyOf;
    var refs := ListValuesAfterKey(SplitLines(file.text), KeyOf(kind));
    for i := 0 to |refs|
      invariant log.entries == old(log.entries) + UnknownErrors(refs, i, kind, file.name, known)
    {
      if refs[i] !in known {
        log.Append(UnknownRef(kind, file.name, refs[i]));
      }
    }
  }

  method CheckReferences(corpus: Corpus, sourceIds: set<string>, challengerIds: set<string>, log: ErrorLog)
    modifies log
    ensures log.entries == old(log.entries) + ReferenceErrors(corpus, sourceIds, challengerIds)
  {
    hide FileErrors;
    for i := 0 to |corpus.crosswalks|
      invariant log.entries == old(log.entries) + CrosswalkErrors(corpus.crosswalks, i, sourceIds, challengerIds)
    {
      CheckFile(corpus.crosswalks[i], SourceRef, sourceIds, log);
      CheckFile(corpus.crosswalks[i], ChallengerRef, challengerIds, log);
    }
    ghost var entries := log.entries;
    for i := 0 to |corpus.regimes|
      invariant log.entries == entries + RegimeErrors(corpus.regimes, i, sourceIds)
    {
      CheckFile(corpus.regimes[i], PrimarySource, sourceIds, log);
    }
  }

  /** The whole run: every error there is to report, in order, and the exit code. */
  method Lint(corpus: Corpus) returns (exitCode: int, errors: seq<LintError>)
    ensures errors == AllErrors(corpus)
    ensures exitCode == if errors == [] then 0 else 1
  {
    hide SourceErrors, ChallengerErrors, ReferenceErrors, ToSet, Blocks, SplitLines;
    var log := new ErrorLog();
    var sourceIds := CollectSourceIds(corpus.sources, log);
    var challengerIds := CollectChallengerIds(corpus.challengers, log);
    CheckReferences(corpus, sourceIds, challengerIds, log);
    errors := log.entries;
    exitCode := if errors == [] then 0 else 1;
  }

  // ----- what a clean lint gives -----

  /** Nothing to report about the two registers and the references, said of the corpus itself. */
  ghost predicate Clean(corpus: Corpus) {
    && CleanRegister(SourceBlocks(corpus))
    && ChallengerIds(corpus) != [] && Distinct(ChallengerIds(corpus))
    && RefsAreKnown(corpus.crosswalks, "source_refs", SourceIds(corpus))
    && RefsAreKnown(corpus.crosswalks, "challenger_refs", ToSet(ChallengerIds(corpus)))
    && RefsAreKnown(corpus.regimes, "primary_sources", SourceIds(corpus))
  }

  ghost predicate RefsAreKnown(files: seq<File>, key: string, known: set<string>) {
    forall f, ref :: f in files && ref in ValuesOf(f.text, key) ==> ref in known
  }

  ghost predicate CleanRegister(blocks: seq<Block>) {
    && blocks != [] && Distinct(Ids(blocks))
    && forall k :: 0 <= k < |blocks| ==> CleanBlock(blocks[k])
  }

  ghost predicate CleanBlock(b: Block) {
    HasAllowedStatus(b.lines) && forall field :: field in REQUIRED_FIELDS ==> HasSomeField(b.lines, field)
  }

  lemma SourcesCleanIff(blocks: seq<Block>)
    ensures (forall e :: !SourcesReported(blocks, e)) <==> CleanRegister(blocks)
  {
    hide HasAllowedStatus, HasSomeField, REQUIRED_FIELDS;
    if forall e :: !SourcesReported(blocks, e) {
      assert !SourcesReported(blocks, NoSources);
      forall k: nat | k < |blocks|
        ensures CleanBlock(blocks[k]) && forall j :: 0 <= j < k ==> Ids(blocks)[j] != Ids(blocks)[k]
      {
        var id := blocks[k].id;
        assert !SourcesReported(blocks, DuplicateSource(id)) && !SourcesReported(blocks, InvalidStatus(id));
        assert !BlockReported(blocks, k, DuplicateSource(id)) && !BlockReported(blocks, k, InvalidStatus(id));
        forall field | field in REQUIRED_FIELDS ensures HasSomeField(blocks[k].lines, field) {
          assert !SourcesReported(blocks, MissingField(id, field));
          assert !BlockReported(blocks, k, MissingField(id, field));
        }
      }
    }
  }

  lemma ChallengersCleanIff(ids: seq<string>)
    ensures (forall e :: !ChallengersReported(ids, e)) <==> ids != [] && Distinct(ids)
  {
    if forall e :: !ChallengersReported(ids, e) {
      assert !ChallengersReported(ids, NoChallengers);
      forall j, k | 0 <= j < k < |ids| ensures ids[j] != ids[k] {
        assert !ChallengersReported(ids, DuplicateChallenger(ids[k]));
        assert !IsRepeated(ids, ids[k]) && !Repeats(ids, k);
      }
    }
  }

  lemma RefsCleanIff(files: seq<File>, kind: RefKind, known: set<string>)
    ensures (forall e :: !RefsReported(files, |files|, kind, known, e)) <==> RefsAreKnown(files, KeyOf(kind), known)
  {
    hide KeyOf, ValuesOf;
    if forall e :: !RefsReported(files, |files|, kind, known, e) {
      forall f, ref | f in files && ref in ValuesOf(f.text, KeyOf(kind)) ensures ref in known {
        var i: nat :| i < |files| && files[i] == f;
        assert !RefsReported(files, |files|, kind, known, UnknownRef(kind, f.name, ref));
        assert !RefReported(files[i], kind, known, UnknownRef(kind, f.name, ref));
      }
    }
  }

  /** A run without errors means exactly that the corpus is in order. */
  lemma NothingReportedIffClean(corpus: Corpus)
    ensures (forall e :: !Reported(corpus, e)) <==> Clean(corpus)
  {
    hide SourcesReported, ChallengersReported, RefsReported, CleanRegister, RefsAreKnown, SourceBlocks, ChallengerIds;
    SourcesCleanIff(SourceBlocks(corpus));
    ChallengersCleanIff(ChallengerIds(corpus));
    RefsCleanIff(corpus.crosswalks, SourceRef, SourceIds(corpus));
    RefsCleanIff(corpus.crosswalks, ChallengerRef, ToSet(ChallengerIds(corpus)));
    RefsCleanIff(corpus.regimes, PrimarySource, SourceIds(corpus));
    assert KeyOf(SourceRef) == "source_refs" && KeyOf(ChallengerRef) == "challenger_refs";
    assert KeyOf(PrimarySource) == "primary_sources";
    if forall e :: !Reported(corpus, e) {
      forall e: LintError
        ensures !SourcesReported(SourceBlocks(corpus), e) && !ChallengersReported(ChallengerIds(corpus), e)
        ensures !RefsReported(corpus.crosswalks, |corpus.crosswalks|, SourceRef, SourceIds(corpus), e)
        ensures !RefsReported(corpus.crosswalks, |corpus.crosswalks|, ChallengerRef, ToSet(ChallengerIds(corpus)), e)
        ensures !RefsReported(corpus.regimes, |corpus.regimes|, PrimarySource, SourceIds(corpus), e)
      {
        assert !Reported(corpus, e);
      }
    }
  }

  lemma KnownIffInIds(corpus: Corpus, id: string)
    ensures IsKnown(SourceBlocks(corpus), id) <==> id in SourceIds(corpus)
  {
    hide SourceBlocks;
    var blocks := SourceBlocks(corpus);
    if id in SourceIds(corpus) {
      var k :| 0 <= k < |blocks| && Ids(blocks)[k] == id;
      assert blocks[k].id == id;
    }
    if k :| 0 <= k < |blocks| && blocks[k].id == id {
      assert Ids(blocks)[k] == id;
    }
  }

  /**
    The two tools agree: every crosswalk can be exported exactly if the linter has no unknown source
    reference to report in the crosswalks; no other lint error can stop the exporter.
  */
  lemma ExportsAllIffNoUnknownSource(corpus: Corpus)
    requires forall i, j :: 0 <= i < j < |corpus.crosswalks| ==> corpus.crosswalks[i].name != corpus.crosswalks[j].name
    ensures (forall f :: f in corpus.crosswalks ==> Exportable(corpus, f.name)) <==>
            (forall e: LintError :: e.UnknownRef? && e.kind == SourceRef ==> !Reported(corpus, e))
  {
    hide ValuesOf, SourceBlocks, IsKnown;
    var files := corpus.crosswalks;
    RefsCleanIff(files, SourceRef, SourceIds(corpus));
    assert KeyOf(SourceRef) == "source_refs";
    forall id ensures IsKnown(SourceBlocks(corpus), id) <==> id in SourceIds(corpus) {
      KnownIffInIds(corpus, id);
    }
    forall f | f in files ensures TextOf(files, f.name) == Some(f.text) {
      var text := TextOf(files, f.name);
      var i, j :| 0 <= i < |files| && files[i] == f && 0 <= j < |files| && files[j] == File(f.name, text.value);
      assert i == j;
    }
    var known := SourceIds(corpus);
    forall e: LintError | e.UnknownRef? && e.kind == SourceRef
      ensures Reported(corpus, e) <==> RefsReported(files, |files|, SourceRef, known, e)
    {
      assert !SomeBlockReported(SourceBlocks(corpus), |SourceBlocks(corpus)|, e);
    }
    assert forall e :: RefsReported(files, |files|, SourceRef, known, e) ==> e.UnknownRef? && e.kind == SourceRef;
    forall f | f in files
      ensures Exportable(corpus, f.name) <==> forall ref :: ref in ValuesOf(f.text, "source_refs") ==> ref in known
    {
      assert TextOf(files, f.name) == Some(f.text);
    }
  }

  /** A clean lint makes the exporter total: no crosswalk can make it raise. */
  lemma CleanLintMakesExporterTotal(corpus: Corpus, f: File)
    requires Clean(corpus) && f in corpus.crosswalks
    ensures Exportable(corpus, f.name)
  {
    hide ValuesOf, SourceBlocks, IsKnown, CleanRegister;
    var text := TextOf(corpus.crosswalks, f.name);
    forall ref | ref in ValuesOf(text.value, "source_refs") ensures IsKnown(SourceBlocks(corpus), ref) {
      assert File(f.name, text.value) in corpus.crosswalks;
      KnownIffInIds(corpus, ref);
    }
  }

  /** Said of what the linter prints: if its list of errors is empty, every crosswalk can be exported. */
  lemma NoLintErrorsMakeExporterTotal(corpus: Corpus)
    requires AllErrors(corpus) == []
    ensures forall f :: f in corpus.crosswalks ==> Exportable(corpus, f.name)
  {
    hide AllErrors, Reported, Clean, Exportable;
    AllErrorsAreReported(corpus);
    NothingReportedIffClean(corpus);
    forall f | f in corpus.crosswalks ensures Exportable(corpus, f.name) {
      CleanLintMakesExporterTotal(corpus, f);
    }
  }

  /**
    What is exported from a clean corpus is a clean register again: linting the printed manifest as a
    source register finds nothing, unless the crosswalk refers to no source at all.
  */
  lemma {:induction false} ExportIsCleanRegister(corpus: Corpus, f: File)
    requires Clean(corpus) && f in corpus.crosswalks && SafeName(f.name)
    requires Exportable(corpus, f.name)
    ensures var text := Unlines(Header(f.name) + Body(Manifest(corpus, f.name)));
            CleanRegister(Blocks(SplitLines(text))) <==> RefsOf(TextOf(corpus.crosswalks, f.name).value) != []
  {
    hide ValuesOf, SourceBlocks, CleanBlock, SplitLines, Blocks, SafeName, Header;
    var text := TextOf(corpus.crosswalks, f.name).value;
    var blocks, refs, manifest := SourceBlocks(corpus), RefsOf(text), Manifest(corpus, f.name);
    ManifestRoundTripIff(corpus, f.name);
    DeduplicatedIs(ValuesOf(text, "source_refs"));
    assert Ids(manifest) == refs;
    forall k | 0 <= k < |manifest| ensures CleanBlock(manifest[k]) {
      assert refs[k] in refs;
      DictHasBlocks(blocks, refs[k]);
    }
  }
}
