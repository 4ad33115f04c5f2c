/**
  Column specs, alias resolution and table normalisation. A table is a sequence of named columns;
  the renaming pass is proved to be the pointwise `CanonicalName`, which gives its laws.
*/
module ArrowTable {
  import opened Wrappers
  import opened Sequences
  import opened ArrowData

  datatype LogicalType =
    | BooleanLogical | DateLogical | DecimalLogical | DictionaryLogical | DictionaryCodeLogical
    | FloatLogical | IntegerLogical | StringLogical | TimestampLogical | UnknownLogical

  datatype NullPolicy = AllowNulls | ForbidNulls
  datatype ChunkPolicy = AllowChunks | ForbidChunks
  datatype DictionaryPolicy = AllowDictionary | ForbidDictionary | RequireDictionary

  datatype ColumnSpec = ColumnSpec(
    name: string,
    aliases: seq<string>,
    logicalType: LogicalType,
    required: bool,
    nullPolicy: NullPolicy,
    chunkPolicy: ChunkPolicy,
    dictionaryPolicy: DictionaryPolicy)

  datatype Column = Column(name: string, data: ChunkedArray)

  type Table = seq<Column>

  datatype TableError =
    | IdentifierReused(identifier: string, previous: string, spec: string)
    | AmbiguousColumn(spec: string)
    | DuplicateAfterRename
    | DuplicateColumns
    | MissingColumn(name: string)
    | ContainsNulls(name: string)
    | MultipleChunks(name: string)
    | DictionaryEncoded(name: string)
    | NotDictionaryEncoded(name: string)
    | EmptyName
    | RowIdNulls
    | RowIdDuplicates

  function Names(table: Table): (r: seq<string>)
    ensures |r| == |table| && forall i :: 0 <= i < |table| ==> r[i] == table[i].name
  {
    seq(|table|, i requires 0 <= i < |table| => table[i].name)
  }

  function Candidates(spec: ColumnSpec): seq<string> {
    [spec.name] + spec.aliases
  }

  // ----- validate_column_specs -----

  function Identifiers(specs: seq<ColumnSpec>): seq<string> {
    if specs == [] then [] else Identifiers(specs[..|specs| - 1]) + Candidates(specs[|specs| - 1])
  }

  /** Names and aliases are unambiguous across all specs. */
  ghost predicate ValidSpecs(specs: seq<ColumnSpec>) {
    Distinct(Identifiers(specs))
  }

  /** The identifier belongs to `owner` by a spec before `i`, or by the first `j` candidates of spec `i`. */
  ghost predicate OwnedBefore(specs: seq<ColumnSpec>, i: nat, j: nat, identifier: string, owner: string) {
    || (exists k :: 0 <= k < i <= |specs| && specs[k].name == owner && identifier in Candidates(specs[k]))
    || (i < |specs| && j <= |Candidates(specs[i])| && specs[i].name == owner && identifier in Candidates(specs[i])[..j])
  }

  /** Candidate `j` of spec `i` is the first identifier that has been used before, and `e` says by whom. */
  ghost predicate FirstReuse(specs: seq<ColumnSpec>, i: nat, j: nat, e: TableError) {
    && i < |specs| && j < |Candidates(specs[i])|
    && Distinct(Identifiers(specs[..i]) + Candidates(specs[i])[..j])
    && e.IdentifierReused? && e.identifier == Candidates(specs[i])[j] && e.spec == specs[i].name
    && OwnedBefore(specs, i, j, e.identifier, e.previous)
  }

  /** Accepts exactly the specs whose identifiers are all different; otherwise reports the first that is not. */
  method ValidateColumnSpecs(specs: seq<ColumnSpec>) returns (r: Result<seq<ColumnSpec>, TableError>)
    ensures r.Success? <==> ValidSpecs(specs)
    ensures r.Success? ==> r.value == specs
    ensures r.Failure? ==> exists i, j :: FirstReuse(specs, i, j, r.error)
  {
    var seen: map<string, string> := map[];
    for i := 0 to |specs|
      invariant Records(seen, Identifiers(specs[..i]), specs, i, 0)
    {
      assert specs[..i + 1][..i] == specs[..i];
      var next := AddIdentifiers(seen, specs, i);
      if next.Failure? {
        IdentifiersPrefix(specs, i + 1);
        return Failure(next.error);
      }
      seen := next.value;
    }
    assert specs[..|specs|] == specs;
    return Success(specs);
  }

  /** `seen` maps the identifiers met so far, all different, to the specs that own them. */
  ghost predicate Records(seen: map<string, string>, identifiers: seq<string>, specs: seq<ColumnSpec>, i: nat, j: nat) {
    && Distinct(identifiers)
    && (forall c :: c in seen <==> c in identifiers)
    && (forall c :: c in seen ==> OwnedBefore(specs, i, j, c, seen[c]))
  }

  /** The inner loop: adds the name and the aliases of one spec. */
  method AddIdentifiers(before: map<string, string>, specs: seq<ColumnSpec>, i: nat)
    returns (r: Result<map<string, string>, TableError>)
    requires i < |specs| && Records(before, Identifiers(specs[..i]), specs, i, 0)
    ensures r.Success? ==> Records(r.value, Identifiers(specs[..i]) + Candidates(specs[i]), specs, i + 1, 0)
    ensures r.Failure? ==>
              && !Distinct(Identifiers(specs[..i]) + Candidates(specs[i]))
              && exists j :: FirstReuse(specs, i, j, r.error)
  {
    var candidates := Candidates(specs[i]);
    ghost var known := Identifiers(specs[..i]);
    var seen := before;
    assert known + candidates[..0] == known;
    for j := 0 to |candidates|
      invariant Records(seen, known + candidates[..j], specs, i, j)
    {
      var candidate := candidates[j];
      if candidate in seen {
        RepeatIsNotDistinct(known, candidates, j);
        assert FirstReuse(specs, i, j, IdentifierReused(candidate, seen[candidate], specs[i].name));
        return Failure(IdentifierReused(candidate, seen[candidate], specs[i].name));
      }
      RecordOne(seen, known, specs, i, j);
      seen := seen[candidate := specs[i].name];
    }
    assert candidates[..|candidates|] == candidates;
    forall c | c in seen ensures OwnedBefore(specs, i + 1, 0, c, seen[c]) {
      assert OwnedBefore(specs, i, |candidates|, c, seen[c]);
    }
    return Success(seen);
  }

  lemma RecordOne(seen: map<string, string>, known: seq<string>, specs: seq<ColumnSpec>, i: nat, j: nat)
    requires i < |specs| && j < |Candidates(specs[i])|
    requires Records(seen, known + Candidates(specs[i])[..j], specs, i, j) && Candidates(specs[i])[j] !in seen
    ensures Records(
              seen[Candidates(specs[i])[j] := specs[i].name], known + Candidates(specs[i])[..j + 1], specs, i, j + 1)
  {
    var candidates := Candidates(specs[i]);
    assert candidates[..j + 1] == candidates[..j] + [candidates[j]];
    assert known + candidates[..j + 1] == (known + candidates[..j]) + [candidates[j]];
    forall c | c in seen ensures OwnedBefore(specs, i, j + 1, c, seen[c]) {
      assert OwnedBefore(specs, i, j, c, seen[c]);
    }
  }

  lemma {:induction false} IdentifiersPrefix(specs: seq<ColumnSpec>, n: nat)
    requires n <= |specs|
    ensures Identifiers(specs[..n]) <= Identifiers(specs)
  {
    if n < |specs| {
      assert specs[..|specs| - 1][..n] == specs[..n];
      IdentifiersPrefix(specs[..|specs| - 1], n);
    } else {
      assert specs[..n] == specs;
    }
  }

  lemma RepeatIsNotDistinct(known: seq<string>, candidates: seq<string>, j: nat)
    requires j < |candidates| && candidates[j] in known + candidates[..j]
    ensures !Distinct(known + candidates)
  {
    var prefix := known + candidates[..j];
    var k :| 0 <= k < |prefix| && prefix[k] == candidates[j];
    assert (known + candidates)[k] == prefix[k] && (known + candidates)[|known| + j] == candidates[j];
  }

  lemma {:induction false} IdentifierPosition(specs: seq<ColumnSpec>, i: nat, k: nat) returns (p: nat)
    requires i < |specs| && k < |Candidates(specs[i])|
    ensures p == |Identifiers(specs[..i])| + k < |Identifiers(specs)|
    ensures Identifiers(specs)[p] == Candidates(specs[i])[k]
  {
    p := |Identifiers(specs[..i])| + k;
    assert specs[..i + 1][..i] == specs[..i];
    assert Identifiers(specs[..i + 1])[p] == Candidates(specs[i])[k];
    IdentifiersPrefix(specs, i + 1);
  }

  /** With valid specs an identifier belongs to one spec only, in one place. */
  lemma OneOwner(specs: seq<ColumnSpec>, i: nat, k: nat, j: nat, l: nat)
    requires ValidSpecs(specs)
    requires i < |specs| && j < |specs| && k < |Candidates(specs[i])| && l < |Candidates(specs[j])|
    requires Candidates(specs[i])[k] == Candidates(specs[j])[l]
    ensures i == j && k == l
  {
    var p := IdentifierPosition(specs, i, k);
    var q := IdentifierPosition(specs, j, l);
    assert p == q;
    if i < j {
      IdentifiersLength(specs, i, j);
    } else if j < i {
      IdentifiersLength(specs, j, i);
    }
  }

  lemma DistinctSpecNames(specs: seq<ColumnSpec>, i: nat, j: nat)
    requires ValidSpecs(specs) && i < |specs| && j < |specs|
    ensures specs[i].name == specs[j].name ==> i == j
  {
    if specs[i].name == specs[j].name {
      OneOwner(specs, i, 0, j, 0);
    }
  }

  lemma {:induction false} IdentifiersLength(specs: seq<ColumnSpec>, i: nat, j: nat)
    requires i < j <= |specs|
    ensures |Identifiers(specs[..i])| + |Candidates(specs[i])| <= |Identifiers(specs[..j])|
  {
    assert specs[..j][..j - 1] == specs[..j - 1];
    if i + 1 < j {
      IdentifiersLength(specs, i, j - 1);
    }
  }

  // ----- resolve_column_name -----

  function IsOneOf(names: seq<string>): string -> bool {
    (c: string) => c in names
  }

  function Matching(names: seq<string>, spec: ColumnSpec): seq<string> {
    Filter(IsOneOf(names), Candidates(spec))
  }

  function Resolve(names: seq<string>, spec: ColumnSpec): Result<Option<string>, TableError> {
    var matches := Matching(names, spec);
    if |matches| > 1 then Failure(AmbiguousColumn(spec.name))
    else if matches == [] then Success(None)
    else Success(Some(matches[0]))
  }

  ghost predicate Unambiguous(names: seq<string>, specs: seq<ColumnSpec>) {
    forall i :: 0 <= i < |specs| ==> Resolve(names, specs[i]).Success?
  }

  ghost predicate FirstAmbiguous(names: seq<string>, specs: seq<ColumnSpec>, i: nat, e: TableError) {
    && i < |specs| && Resolve(names, specs[i]) == Failure(e)
    && forall k :: 0 <= k < i ==> Resolve(names, specs[k]).Success?
  }

  /** A successful resolution is the one candidate that the table has, if there is one. */
  lemma ResolveIs(names: seq<string>, spec: ColumnSpec)
    requires Resolve(names, spec).Success?
    ensures match Resolve(names, spec).value
            case None => forall c :: c in Candidates(spec) ==> c !in names
            case Some(s) =>
              && s in names && s in Candidates(spec)
              && forall c :: c in Candidates(spec) && c in names ==> c == s
  {
    FilterMembers(IsOneOf(names), Candidates(spec));
    var matches := Matching(names, spec);
    if matches != [] {
      assert matches == [matches[0]];
      assert matches[0] in matches;
    }
  }

  // ----- _rename_alias_columns -----

  /** What normalisation calls a column: the spec it is an alias of, or else its own name. */
  function CanonicalName(specs: seq<ColumnSpec>, c: string): string {
    if specs == [] then c
    else if c in specs[|specs| - 1].aliases then specs[|specs| - 1].name
    else CanonicalName(specs[..|specs| - 1], c)
  }

  function Renamed(table: Table, specs: seq<ColumnSpec>): (r: Table)
    ensures |r| == |table|
    ensures forall i :: 0 <= i < |table| ==> r[i] == Column(CanonicalName(specs, table[i].name), table[i].data)
  {
    seq(|table|, i requires 0 <= i < |table| => Column(CanonicalName(specs, table[i].name), table[i].data))
  }

  lemma AliasPosition(spec: ColumnSpec, c: string) returns (k: nat)
    requires c in spec.aliases
    ensures 0 < k < |Candidates(spec)| && Candidates(spec)[k] == c
  {
    var j :| 0 <= j < |spec.aliases| && spec.aliases[j] == c;
    k := j + 1;
  }

  lemma {:induction false} CanonicalOwner(specs: seq<ColumnSpec>, c: string) returns (i: nat)
    ensures i <= |specs|
    ensures i < |specs| ==> c in specs[i].aliases && CanonicalName(specs, c) == specs[i].name
    ensures i == |specs| ==> CanonicalName(specs, c) == c && forall j :: 0 <= j < |specs| ==> c !in specs[j].aliases
  {
    if specs == [] {
      i := 0;
    } else if c in specs[|specs| - 1].aliases {
      i := |specs| - 1;
    } else {
      i := CanonicalOwner(specs[..|specs| - 1], c);
      if i == |specs| - 1 {
        i := |specs|;
      }
    }
  }

  lemma CanonicalOfAlias(specs: seq<ColumnSpec>, i: nat, c: string)
    requires ValidSpecs(specs) && i < |specs| && c in specs[i].aliases
    ensures CanonicalName(specs, c) == specs[i].name != c
  {
    var j := CanonicalOwner(specs, c);
    var k := AliasPosition(specs[i], c);
    var l := AliasPosition(specs[j], c);
    OneOwner(specs, i, k, j, l);
    if specs[i].name == c {
      OneOwner(specs, i, k, i, 0);
    }
  }

  lemma {:induction false} CanonicalOfName(specs: seq<ColumnSpec>, i: nat)
    requires ValidSpecs(specs) && i < |specs|
    ensures CanonicalName(specs, specs[i].name) == specs[i].name
  {
    var j := CanonicalOwner(specs, specs[i].name);
    if j < |specs| {
      var l := AliasPosition(specs[j], specs[i].name);
      OneOwner(specs, i, 0, j, l);
    }
  }

  lemma CanonicalIdempotent(specs: seq<ColumnSpec>, c: string)
    requires ValidSpecs(specs)
    ensures CanonicalName(specs, CanonicalName(specs, c)) == CanonicalName(specs, c)
  {
    var i := CanonicalOwner(specs, c);
    if i < |specs| {
      CanonicalOfName(specs, i);
    }
  }

  /** What is renamed to a spec's name is one of its candidates. */
  lemma CanonicalIsCandidate(specs: seq<ColumnSpec>, i: nat, c: string)
    requires ValidSpecs(specs) && i < |specs|
    ensures CanonicalName(specs, c) == specs[i].name <==> c in Candidates(specs[i])
    ensures CanonicalName(specs, c) !in specs[i].aliases
  {
    var j := CanonicalOwner(specs, c);
    if c in specs[i].aliases {
      CanonicalOfAlias(specs, i, c);
    } else if c == specs[i].name {
      CanonicalOfName(specs, i);
    }
    if j < |specs| {
      if specs[j].name == specs[i].name {
        OneOwner(specs, j, 0, i, 0);
      }
      if specs[j].name in specs[i].aliases {
        var k := AliasPosition(specs[i], specs[j].name);
        OneOwner(specs, j, 0, i, k);
      }
    }
  }

  /** Two columns of an unambiguous table never get the same name unless they already had it. */
  lemma RenamingIsInjective(names: seq<string>, specs: seq<ColumnSpec>, a: string, b: string)
    requires ValidSpecs(specs) && Unambiguous(names, specs) && a in names && b in names
    requires CanonicalName(specs, a) == CanonicalName(specs, b)
    ensures a == b
  {
    var i := CanonicalOwner(specs, a);
    var j := CanonicalOwner(specs, b);
    if i < |specs| {
      CanonicalIsCandidate(specs, i, b);
      ResolveIs(names, specs[i]);
    } else if j < |specs| {
      CanonicalIsCandidate(specs, j, a);
      ResolveIs(names, specs[j]);
    }
  }

  lemma RenamingNeverCollides(table: Table, specs: seq<ColumnSpec>)
    requires ValidSpecs(specs) && Unambiguous(Names(table), specs)
    ensures Distinct(Names(Renamed(table, specs))) <==> Distinct(Names(table))
  {
    var names, renamed := Names(table), Names(Renamed(table, specs));
    forall i, j | 0 <= i < j < |names| ensures renamed[i] == renamed[j] <==> names[i] == names[j] {
      if renamed[i] == renamed[j] {
        RenamingIsInjective(names, specs, names[i], names[j]);
      }
    }
  }

  ghost predicate RenamesSoFar(rename: map<string, string>, names: seq<string>, specs: seq<ColumnSpec>) {
    forall c :: c in names ==>
                  && (c in rename ==> rename[c] == CanonicalName(specs, c) != c)
                  && (c !in rename ==> CanonicalName(specs, c) == c)
  }

  /** What the collected renames do to the table is what the canonical names say. */
  lemma RenamesApply(table: Table, specs: seq<ColumnSpec>, rename: map<string, string>)
    requires RenamesSoFar(rename, Names(table), specs) && forall c :: c in rename ==> c in Names(table)
    ensures rename == map[] <==> Renamed(table, specs) == table
    ensures forall i :: 0 <= i < |table| ==>
              Names(Renamed(table, specs))[i] ==
              if table[i].name in rename then rename[table[i].name] else table[i].name
  {
    var names := Names(table);
    forall i | 0 <= i < |table|
      ensures CanonicalName(specs, names[i]) == if names[i] in rename then rename[names[i]] else names[i]
      ensures names[i] in rename ==> CanonicalName(specs, names[i]) != names[i]
    {
      assert names[i] in names;
    }
    if rename == map[] {
      assert Renamed(table, specs) == table;
    } else {
      var c :| c in rename;
      var i :| 0 <= i < |names| && names[i] == c;
      assert Renamed(table, specs)[i] != table[i];
    }
  }

  lemma AmbiguityStops(names: seq<string>, specs: seq<ColumnSpec>, i: nat)
    requires i < |specs| && Unambiguous(names, specs[..i])
    ensures Resolve(names, specs[i]).Failure? ==>
              !Unambiguous(names, specs) && FirstAmbiguous(names, specs, i, Resolve(names, specs[i]).error)
    ensures Resolve(names, specs[i]).Success? ==> Unambiguous(names, specs[..i + 1])
  {
    hide Resolve;
    forall k | 0 <= k < i ensures Resolve(names, specs[k]).Success? {
      assert specs[..i][k] == specs[k];
    }
  }

  /**
    Renames alias columns to the names of their specs. The check for duplicates fires only on a table
    that already had two columns of one name, and data and positions are kept.
  */
  method RenameAliasColumns(table: Table, specs: seq<ColumnSpec>) returns (r: Result<Table, TableError>)
    requires ValidSpecs(specs)
    ensures r.Success? <==>
              && Unambiguous(Names(table), specs)
              && (Distinct(Names(table)) || Renamed(table, specs) == table)
    ensures r.Success? ==> r.value == Renamed(table, specs)
    ensures r.Failure? && Unambiguous(Names(table), specs) ==>
              r.error == DuplicateAfterRename && !Distinct(Names(table))
    ensures !Unambiguous(Names(table), specs) ==>
              r.Failure? && exists i :: FirstAmbiguous(Names(table), specs, i, r.error)
  {
    hide Resolve, RenamesSoFar, CanonicalName, Unambiguous, FirstAmbiguous;
    var names := Names(table);
    var rename: map<string, string> := map[];
    NoRenames(names);
    for i := 0 to |specs|
      invariant forall c :: c in rename ==> c in names
      invariant RenamesSoFar(rename, names, specs[..i])
      invariant Unambiguous(names, specs[..i])
    {
      AmbiguityStops(names, specs, i);
      var spec := specs[i];
      var source := Resolve(names, spec);
      if source.Failure? {
        return Failure(source.error);
      }
      RenameStep(rename, names, specs, i);
      if source.value.Some? && source.value.value != spec.name {
        rename := rename[source.value.value := spec.name];
      }
    }
    assert specs[..|specs|] == specs;
    RenamesApply(table, specs, rename);
    if rename == map[] {
      return Success(table);
    }
    var normalized := seq(|table|, i requires 0 <= i < |table| =>
      if table[i].name in rename then rename[table[i].name] else table[i].name);
    assert normalized == Names(Renamed(table, specs));
    RenamingNeverCollides(table, specs);
    if !Distinct(normalized) {
      return Failure(DuplicateAfterRename);
    }
    return Success(seq(|table|, i requires 0 <= i < |table| => Column(normalized[i], table[i].data)));
  }

  lemma NoRenames(names: seq<string>)
    ensures RenamesSoFar(map[], names, []) && Unambiguous(names, [])
  {
  }

  lemma RenameStep(rename: map<string, string>, names: seq<string>, specs: seq<ColumnSpec>, i: nat)
    requires ValidSpecs(specs) && i < |specs| && RenamesSoFar(rename, names, specs[..i])
    requires Resolve(names, specs[i]).Success?
    ensures var source := Resolve(names, specs[i]).value;
            var next := if source.Some? && source.value != specs[i].name
                        then rename[source.value := specs[i].name] else rename;
            && RenamesSoFar(next, names, specs[..i + 1])
            && (source.Some? ==> source.value in names)
  {
    assert specs[..i + 1][..i] == specs[..i];
    var spec := specs[i];
    ResolveIs(names, spec);
    forall c | c in names ensures c in spec.aliases <==> Resolve(names, spec).value == Some(c) && c != spec.name {
      if c in spec.aliases {
        CanonicalOfAlias(specs, i, c);
        assert c in Candidates(spec);
      }
    }
  }

  // ----- _validate_arrow_table -----

  function FindColumn(table: Table, name: string): (r: Option<ChunkedArray>)
    ensures r.Some? <==> name in Names(table)
  {
    if table == [] then None
    else if table[0].name == name then
      assert Names(table)[0] == name;
      Some(table[0].data)
    else
      assert Names(table) == [table[0].name] + Names(table[1..]);
      FindColumn(table[1..], name)
  }

  function PolicyError(spec: ColumnSpec, column: ChunkedArray): Option<TableError> {
    if spec.nullPolicy.ForbidNulls? && HasNulls(column) then Some(ContainsNulls(spec.name))
    else if spec.chunkPolicy.ForbidChunks? && |column.chunks| > 1 then Some(MultipleChunks(spec.name))
    else if spec.dictionaryPolicy.ForbidDictionary? && column.dictionary then Some(DictionaryEncoded(spec.name))
    else if spec.dictionaryPolicy.RequireDictionary? && !column.dictionary then Some(NotDictionaryEncoded(spec.name))
    else None
  }

  /** A column may be absent only if optional, and must meet the policies of its spec. */
  predicate ColumnAccepted(spec: ColumnSpec, column: Option<ChunkedArray>) {
    match column
    case None => !spec.required
    case Some(data) => PolicyError(spec, data).None?
  }

  /** What the policies of a spec admit, and which breach is reported if there are several. */
  lemma AcceptedColumnIs(spec: ColumnSpec, data: ChunkedArray)
    ensures ColumnAccepted(spec, None) <==> !spec.required
    ensures ColumnAccepted(spec, Some(data)) <==>
              && (spec.nullPolicy == ForbidNulls ==> AllTrue(Valid(data.chunks)))
              && (spec.chunkPolicy == ForbidChunks ==> |data.chunks| <= 1)
              && (spec.dictionaryPolicy == ForbidDictionary ==> !data.dictionary)
              && (spec.dictionaryPolicy == RequireDictionary ==> data.dictionary)
    ensures var e := PolicyError(spec, data);
            && (e == Some(ContainsNulls(spec.name)) <==> spec.nullPolicy == ForbidNulls && false in Valid(data.chunks))
            && (e == Some(MultipleChunks(spec.name)) ==> spec.chunkPolicy == ForbidChunks && |data.chunks| > 1)
            && (e == Some(DictionaryEncoded(spec.name)) ==> spec.dictionaryPolicy == ForbidDictionary)
            && (e == Some(NotDictionaryEncoded(spec.name)) ==> spec.dictionaryPolicy == RequireDictionary)
            && (e.Some? && |data.chunks| > 1 && spec.chunkPolicy == ForbidChunks ==>
                  e == Some(ContainsNulls(spec.name)) || e == Some(MultipleChunks(spec.name)))
            && (e.Some? ==> e in {Some(ContainsNulls(spec.name)), Some(MultipleChunks(spec.name)),
                                  Some(DictionaryEncoded(spec.name)), Some(NotDictionaryEncoded(spec.name))})
  {
    hide Valid, AllTrue;
    AllTrueIff(Valid(data.chunks));
  }

  predicate RowIdAccepted(table: Table, rowId: Option<string>, unique: bool) {
    rowId.Some? ==>
      && rowId.value != "" && rowId.value in Names(table)
      && (unique ==>
            var column := FindColumn(table, rowId.value).value;
            !HasNulls(column) && Distinct(Rows(column.chunks)))
  }

  /** A row id must name a column and, where it has to be unique, number the rows without gaps or repetitions. */
  lemma AcceptedRowIdIs(table: Table, rowId: string, unique: bool)
    ensures RowIdAccepted(table, None, unique) && !RowIdAccepted(table, Some(""), unique)
    ensures rowId != "" ==>
              (RowIdAccepted(table, Some(rowId), unique) <==>
                var column := FindColumn(table, rowId);
                column.Some? &&
                (unique ==>
                   && AllTrue(Valid(column.value.chunks))
                   && var rows := Rows(column.value.chunks);
                      forall i, j :: 0 <= i < j < |rows| ==> rows[i] != rows[j]))
  {
    hide Rows, Valid, FindColumn, Names, AllTrue;
    var column := FindColumn(table, rowId);
    if column.Some? {
      AllTrueIff(Valid(column.value.chunks));
      assert Distinct(Rows(column.value.chunks)) <==>
             var rows := Rows(column.value.chunks); forall i, j :: 0 <= i < j < |rows| ==> rows[i] != rows[j];
    }
  }

  ghost predicate AllTrue(mask: seq<bool>) {
    forall r :: 0 <= r < |mask| ==> mask[r] == true
  }

  lemma AllTrueIff(mask: seq<bool>)
    ensures AllTrue(mask) <==> false !in mask
  {
    if !AllTrue(mask) {
      var r :| 0 <= r < |mask| && mask[r] != true;
      assert mask[r] == false;
      assert false in mask;
    }
  }

  /** Spec `i` is the first that is not met, and `e` says why. */
  ghost predicate FirstRejected(table: Table, specs: seq<ColumnSpec>, i: nat, e: TableError) {
    && i < |specs| && !ColumnAccepted(specs[i], FindColumn(table, specs[i].name))
    && (forall k :: 0 <= k < i ==> ColumnAccepted(specs[k], FindColumn(table, specs[k].name)))
    && match FindColumn(table, specs[i].name)
       case None => e == MissingColumn(specs[i].name)
       case Some(data) => Some(e) == PolicyError(specs[i], data)
  }

  ghost predicate RowIdRejected(table: Table, rowId: Option<string>, e: TableError) {
    && rowId.Some?
    && if rowId.value == "" then e == EmptyName
       else match FindColumn(table, rowId.value)
            case None => e == MissingColumn(rowId.value)
            case Some(data) => e == if HasNulls(data) then RowIdNulls else RowIdDuplicates
  }

  /** The rules are checked in order: distinct columns, the specs one by one, the row ids. */
  ghost predicate IsFirstError(table: Table, specs: seq<ColumnSpec>, rowId: Option<string>, e: TableError) {
    if !Distinct(Names(table)) then e == DuplicateColumns
    else
      || (exists i :: FirstRejected(table, specs, i, e))
      || ((forall i :: 0 <= i < |specs| ==> ColumnAccepted(specs[i], FindColumn(table, specs[i].name)))
          && RowIdRejected(table, rowId, e))
  }

  method ValidateArrowTable(table: Table, specs: seq<ColumnSpec>, rowId: Option<string>, unique: bool)
    returns (error: Option<TableError>)
    ensures error.None? <==>
              && Distinct(Names(table))
              && (forall i :: 0 <= i < |specs| ==> ColumnAccepted(specs[i], FindColumn(table, specs[i].name)))
              && RowIdAccepted(table, rowId, unique)
    ensures error.Some? ==> IsFirstError(table, specs, rowId, error.value)
  {
    if !Distinct(Names(table)) {
      return Some(DuplicateColumns);
    }
    for i := 0 to |specs|
      invariant forall k :: 0 <= k < i ==> ColumnAccepted(specs[k], FindColumn(table, specs[k].name))
    {
      var column := FindColumn(table, specs[i].name);
      if column.None? {
        if specs[i].required {
          assert FirstRejected(table, specs, i, MissingColumn(specs[i].name));
          return Some(MissingColumn(specs[i].name));
        }
        continue;
      }
      error := PolicyError(specs[i], column.value);
      if error.Some? {
        assert FirstRejected(table, specs, i, error.value);
        return;
      }
    }
    if rowId.Some? {
      if rowId.value == "" {
        return Some(EmptyName);
      }
      if rowId.value !in Names(table) {
        return Some(MissingColumn(rowId.value));
      }
      if unique {
        var column := FindColumn(table, rowId.value).value;
        if HasNulls(column) {
          return Some(RowIdNulls);
        }
        if !Distinct(Rows(column.chunks)) {
          return Some(RowIdDuplicates);
        }
      }
    }
    return None;
  }

  // ----- normalize_arrow_table -----

  /** The column a spec resolves to in the table as it came in. */
  function ResolvedColumn(table: Table, spec: ColumnSpec): Option<ChunkedArray> {
    match Resolve(Names(table), spec)
    case Failure(_) => None
    case Success(None) => None
    case Success(Some(source)) => FindColumn(table, source)
  }

  /** When normalisation succeeds, said of the incoming table and without regard to the order of the specs. */
  ghost predicate Normalizable(table: Table, specs: seq<ColumnSpec>, rowId: Option<string>, unique: bool) {
    && ValidSpecs(specs)
    && Distinct(Names(table))
    && (forall spec :: spec in specs ==>
          Resolve(Names(table), spec).Success? && ColumnAccepted(spec, ResolvedColumn(table, spec)))
    && RowIdAccepted(Renamed(table, specs), rowId, unique)
  }

  method NormalizeArrowTable(table: Table, specs: seq<ColumnSpec>, rowId: Option<string>, unique: bool)
    returns (r: Result<Table, TableError>)
    ensures r.Success? <==> Normalizable(table, specs, rowId, unique)
    ensures r.Success? ==> r.value == Renamed(table, specs)
    ensures r.Failure? ==>
              if !ValidSpecs(specs) then exists i, j :: FirstReuse(specs, i, j, r.error)
              else if !Unambiguous(Names(table), specs) then exists i :: FirstAmbiguous(Names(table), specs, i, r.error)
              else if !Distinct(Names(table)) && Renamed(table, specs) != table then r.error == DuplicateAfterRename
              else if rowId == Some("") then r.error == EmptyName
              else IsFirstError(Renamed(table, specs), specs, rowId, r.error)
  {
    var checked := ValidateColumnSpecs(specs);
    if checked.Failure? {
      return Failure(checked.error);
    }
    var accepted := RenameAliasColumns(table, specs);
    if accepted.Failure? {
      return Failure(accepted.error);
    }
    if rowId == Some("") {
      return Failure(EmptyName);
    }
    var error := ValidateArrowTable(accepted.value, specs, rowId, unique);
    RenamingNeverCollides(table, specs);
    forall i | 0 <= i < |specs|
      ensures Distinct(Names(table)) ==>
                FindColumn(accepted.value, specs[i].name) == ResolvedColumn(table, specs[i])
    {
      if Distinct(Names(table)) {
        ColumnAfterRenaming(table, specs, i);
      }
    }
    return if error.Some? then Failure(error.value) else Success(accepted.value);
  }

  lemma {:induction false} FindColumnAt(table: Table, i: nat)
    requires Distinct(Names(table)) && i < |table|
    ensures FindColumn(table, table[i].name) == Some(table[i].data)
  {
    assert Names(table)[i] == table[i].name;
    if i > 0 {
      assert Names(table)[0] == table[0].name;
      assert Names(table[1..]) == Names(table)[1..];
      FindColumnAt(table[1..], i - 1);
    }
  }

  /** After renaming, a spec's own name holds the very column that the spec resolved to before. */
  lemma ColumnAfterRenaming(table: Table, specs: seq<ColumnSpec>, i: nat)
    requires ValidSpecs(specs) && Unambiguous(Names(table), specs) && i < |specs| && Distinct(Names(table))
    ensures FindColumn(Renamed(table, specs), specs[i].name) == ResolvedColumn(table, specs[i])
    ensures Resolve(Names(Renamed(table, specs)), specs[i]) ==
              Success(if ResolvedColumn(table, specs[i]).Some? then Some(specs[i].name) else None)
  {
    var spec, names := specs[i], Names(table);
    var renamed := Renamed(table, specs);
    ResolveIs(names, spec);
    RenamingNeverCollides(table, specs);
    var source := Resolve(names, spec).value;
    forall k | 0 <= k < |table|
      ensures Names(renamed)[k] == spec.name <==> source == Some(names[k])
      ensures Names(renamed)[k] !in spec.aliases
    {
      assert names[k] in names;
      CanonicalIsCandidate(specs, i, names[k]);
    }
    if source.Some? {
      var k :| 0 <= k < |names| && names[k] == source.value;
      FindColumnAt(table, k);
      FindColumnAt(renamed, k);
    }
    OnlyOwnNameMatches(Names(renamed), spec);
  }

  lemma OnlyOwnNameMatches(names: seq<string>, spec: ColumnSpec)
    requires forall a :: a in spec.aliases ==> a !in names
    ensures Resolve(names, spec) == Success(if spec.name in names then Some(spec.name) else None)
  {
    assert Candidates(spec)[1..] == spec.aliases;
    FilterNone(IsOneOf(names), spec.aliases);
  }

  /** Normalising a second time with the same specs succeeds and changes nothing. */
  lemma {:induction false} NormalizingIsIdempotent(
    table: Table, specs: seq<ColumnSpec>, rowId: Option<string>, unique: bool)
    requires Normalizable(table, specs, rowId, unique)
    ensures Normalizable(Renamed(table, specs), specs, rowId, unique)
    ensures Renamed(Renamed(table, specs), specs) == Renamed(table, specs)
  {
    var renamed := Renamed(table, specs);
    RenamingNeverCollides(table, specs);
    forall i | 0 <= i < |table| ensures Renamed(renamed, specs)[i] == renamed[i] {
      CanonicalIdempotent(specs, table[i].name);
    }
    assert Renamed(renamed, specs) == renamed;
    forall spec | spec in specs
      ensures Resolve(Names(renamed), spec).Success? && ColumnAccepted(spec, ResolvedColumn(renamed, spec))
    {
      var i :| 0 <= i < |specs| && specs[i] == spec;
      ColumnAfterRenaming(table, specs, i);
    }
  }

  // ----- the order of the specs does not matter -----

  lemma {:induction false} DistinctIsMultiplicity<T>(s: seq<T>)
    ensures Distinct(s) <==> forall x :: x in s ==> multiset(s)[x] == 1
  {
    if s != [] {
      var rest, last := s[..|s| - 1], s[|s| - 1];
      assert s == rest + [last];
      DistinctIsMultiplicity(rest);
      if Distinct(s) {
        assert forall x :: x in s ==> multiset(s)[x] == 1 by {
          forall x | x in s ensures multiset(s)[x] == 1 {
            if x == last {
              assert last !in rest;
            }
          }
        }
      } else {
        var i, j :| 0 <= i < j < |s| && s[i] == s[j];
        if j < |rest| {
          assert rest[i] == rest[j];
          assert !Distinct(rest);
          var x :| x in rest && multiset(rest)[x] != 1;
          assert multiset(s)[x] >= multiset(rest)[x] && x in multiset(rest);
        } else {
          assert rest[i] == last;
          assert multiset(s)[last] == multiset(rest)[last] + 1 && last in multiset(rest);
        }
      }
    }
  }

  /** Valid specs, said without positions: no spec repeats, and identifiers are never shared. */
  ghost predicate PairwiseValid(specs: seq<ColumnSpec>) {
    && Distinct(specs)
    && (forall spec :: spec in specs ==> Distinct(Candidates(spec)))
    && (forall s, t, c :: s in specs && t in specs && c in Candidates(s) && c in Candidates(t) ==> s == t)
  }

  lemma {:induction false} ValidIsPairwise(specs: seq<ColumnSpec>)
    ensures ValidSpecs(specs) <==> PairwiseValid(specs)
  {
    if specs != [] {
      var rest, last := specs[..|specs| - 1], specs[|specs| - 1];
      assert specs == rest + [last] && last.name in Candidates(last);
      assert Identifiers(specs) == Identifiers(rest) + Candidates(last) && Distinct([last]);
      hide Distinct, Candidates, Identifiers;
      ValidIsPairwise(rest);
      IdentifiersMembers(rest);
      DistinctAppend(Identifiers(rest), Candidates(last));
      DistinctAppend(rest, [last]);
      if PairwiseValid(specs) {
        forall c | c in Identifiers(rest) ensures c !in Candidates(last) {
          var s :| s in rest && c in Candidates(s);
          assert s in specs && last in specs && s != last;
        }
      }
      if ValidSpecs(specs) {
        forall s, t, c | s in specs && t in specs && c in Candidates(s) && c in Candidates(t) ensures s == t {
          if s != last || t != last {
            assert (s in rest || t in rest) && (c in Identifiers(rest) ==> c !in Candidates(last));
          }
        }
        assert last in rest ==> last.name in Identifiers(rest);
      }
    }
  }

  lemma DistinctAppend<T>(a: seq<T>, b: seq<T>)
    ensures Distinct(a + b) <==> Distinct(a) && Distinct(b) && forall x :: x in a ==> x !in b
  {
    var s := a + b;
    if Distinct(s) {
      forall i, j | 0 <= i < j < |a| ensures a[i] != a[j] { assert s[i] != s[j]; }
      forall i, j | 0 <= i < j < |b| ensures b[i] != b[j] { assert s[|a| + i] != s[|a| + j]; }
      forall i, j | 0 <= i < |a| && 0 <= j < |b| ensures a[i] != b[j] { assert s[i] != s[|a| + j]; }
    }
    if Distinct(a) && Distinct(b) && forall x :: x in a ==> x !in b {
      forall i, j | 0 <= i < j < |s| ensures s[i] != s[j] {
        if i < |a| <= j {
          assert s[i] in a && s[j] in b;
        }
      }
    }
  }

  lemma {:induction false} IdentifiersMembers(specs: seq<ColumnSpec>)
    ensures forall c :: c in Identifiers(specs) <==> exists s :: s in specs && c in Candidates(s)
  {
    if specs != [] {
      var rest, last := specs[..|specs| - 1], specs[|specs| - 1];
      assert specs == rest + [last];
      IdentifiersMembers(rest);
    }
  }

  lemma ValidSpecsReordered(specs: seq<ColumnSpec>, other: seq<ColumnSpec>)
    requires multiset(specs) == multiset(other) && ValidSpecs(specs)
    ensures ValidSpecs(other)
  {
    ValidIsPairwise(specs);
    ValidIsPairwise(other);
    DistinctIsMultiplicity(specs);
    DistinctIsMultiplicity(other);
    SameMembers(specs, other);
  }

  lemma SameMembers<T>(a: seq<T>, b: seq<T>)
    requires multiset(a) == multiset(b)
    ensures forall x :: x in a <==> x in b
  {
    forall x ensures x in a <==> x in b {
      assert x in a <==> x in multiset(a);
      assert x in b <==> x in multiset(b);
    }
  }

  lemma CanonicalNameReordered(specs: seq<ColumnSpec>, other: seq<ColumnSpec>, c: string)
    requires multiset(specs) == multiset(other) && ValidSpecs(specs) && ValidSpecs(other)
    ensures CanonicalName(specs, c) == CanonicalName(other, c)
  {
    SameMembers(specs, other);
    var i := CanonicalOwner(specs, c);
    var j := CanonicalOwner(other, c);
    assert forall k :: 0 <= k < |other| ==> other[k] in specs;
    if i < |specs| {
      assert specs[i] in other;
      var k :| 0 <= k < |other| && other[k] == specs[i];
      CanonicalOfAlias(other, k, c);
    }
  }

  /** Listing the specs in another order gives the same outcome and the same table. */
  lemma NormalizingIgnoresSpecOrder(table: Table, specs: seq<ColumnSpec>, other: seq<ColumnSpec>,
                                    rowId: Option<string>, unique: bool)
    requires multiset(specs) == multiset(other) && Normalizable(table, specs, rowId, unique)
    ensures Normalizable(table, other, rowId, unique)
    ensures Renamed(table, other) == Renamed(table, specs)
  {
    ValidSpecsReordered(specs, other);
    SameMembers(specs, other);
    forall i | 0 <= i < |table| ensures Renamed(table, other)[i] == Renamed(table, specs)[i] {
      CanonicalNameReordered(specs, other, table[i].name);
    }
    assert Renamed(table, other) == Renamed(table, specs);
  }
}
