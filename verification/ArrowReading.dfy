/**
  Reading the declared columns of a table into arrays, and putting package defaults back where the
  table had nulls. Arrow's casts to float and boolean are parameters.
*/
module ArrowReading {
  import opened Wrappers
  import opened Sequences
  import opened ArrowData
  import opened ArrowTable
  import opened ArrowDecoding
  import opened OrderedDicts

  datatype ReadError =
    | TableProblem(error: TableError)
    | UnknownType(name: string)
    | UnsupportedType(name: string)
    | NotNumeric(name: string)
    | NotBoolean(name: string)
    | LengthMismatch(name: string)

  /** Arrow's checked casts; `None` where Arrow raises. */
  datatype Casts = Casts(toFloat: Value -> Option<Value>, toBool: Value -> Option<Value>)

  type Columns = Dict<string, seq<Value>>

  ghost predicate WellFormedTable(table: Table) {
    forall i :: 0 <= i < |table| ==> WellFormed(table[i].data)
  }

  lemma {:induction false} FoundColumnWellFormed(table: Table, name: string)
    requires WellFormedTable(table)
    ensures FindColumn(table, name).Some? ==> WellFormed(FindColumn(table, name).value)
  {
    if table != [] && table[0].name != name {
      FoundColumnWellFormed(table[1..], name);
    }
  }

  // ----- typed reads -----

  function CastRow(cast: Value -> Option<Value>, row: Option<Value>): Option<Option<Value>> {
    match row
    case None => Some(None)
    case Some(v) => if cast(v).Some? then Some(cast(v)) else None
  }

  function CastRows(cast: Value -> Option<Value>, rows: seq<Option<Value>>): (r: Option<seq<Option<Value>>>)
    ensures r.Some? ==> |r.value| == |rows|
    ensures r.Some? <==> forall i :: 0 <= i < |rows| ==> CastRow(cast, rows[i]).Some?
    ensures r.Some? ==> forall i :: 0 <= i < |rows| ==> CastRow(cast, rows[i]) == Some(r.value[i])
  {
    if forall i :: 0 <= i < |rows| ==> CastRow(cast, rows[i]).Some?
    then Some(seq(|rows|, i requires 0 <= i < |rows| && CastRow(cast, rows[i]).Some? => CastRow(cast, rows[i]).value))
    else None
  }

  function FillNull(rows: seq<Option<Value>>, value: Value): (r: seq<Option<Value>>)
    ensures |r| == |rows|
  {
    seq(|rows|, i requires 0 <= i < |rows| => if rows[i].Some? then rows[i] else Some(value))
  }

  /** The column as float64: as it is if it is one already, otherwise cast. */
  function FloatRows(column: ChunkedArray, casts: Casts): Option<seq<Option<Value>>> {
    if column.valueType.FloatType? && !column.dictionary then Some(Rows(column.chunks))
    else CastRows(casts.toFloat, Rows(column.chunks))
  }

  function BooleanRows(column: ChunkedArray, casts: Casts): Option<seq<Option<Value>>> {
    if column.valueType.BooleanType? && !column.dictionary then Some(Rows(column.chunks))
    else CastRows(casts.toBool, Rows(column.chunks))
  }

  function ReadTyped(column: ChunkedArray, spec: ColumnSpec, casts: Casts): Result<seq<Value>, ReadError>
    requires WellFormed(column)
  {
    match spec.logicalType
    case StringLogical => Success(Decoded(column.valueType, column.dictionary, column.chunks))
    case DictionaryLogical => Success(Decoded(column.valueType, column.dictionary, column.chunks))
    case DictionaryCodeLogical => Success(Decoded(column.valueType, column.dictionary, column.chunks))
    case IntegerLogical => Success(Decoded(column.valueType, column.dictionary, column.chunks))
    case FloatLogical => ReadFloat(column, spec, casts)
    case DecimalLogical => ReadFloat(column, spec, casts)
    case BooleanLogical =>
      (match BooleanRows(column, casts)
       case None => Failure(NotBoolean(spec.name))
       case Some(rows) => Success(ToNumpy(BooleanType, FillNull(rows, Bool(false)))))
    case _ => Failure(UnsupportedType(spec.name))
  }

  function ReadFloat(column: ChunkedArray, spec: ColumnSpec, casts: Casts): Result<seq<Value>, ReadError> {
    match FloatRows(column, casts)
    case None => Failure(NotNumeric(spec.name))
    case Some(rows) =>
      if spec.nullPolicy.AllowNulls? && HasNulls(column)
      then Success(ToNumpy(FloatType, FillNull(rows, NaN)))
      else Success(ToNumpy(FloatType, rows))
  }

  /** One declared column: its array, or nothing if it is optional and absent. */
  function ReadColumn(table: Table, spec: ColumnSpec, casts: Casts): Result<Option<seq<Value>>, ReadError>
    requires WellFormedTable(table)
  {
    if spec.logicalType.UnknownLogical? then Failure(UnknownType(spec.name))
    else
      match Resolve(Names(table), spec)
      case Failure(e) => Failure(TableProblem(e))
      case Success(None) =>
        if spec.required then Failure(TableProblem(MissingColumn(spec.name))) else Success(None)
      case Success(Some(source)) =>
        ResolveIs(Names(table), spec);
        FoundColumnWellFormed(table, source);
        var column := FindColumn(table, source).value;
        match PolicyError(spec, column)
        case Some(e) => Failure(TableProblem(e))
        case None =>
          match ReadTyped(column, spec, casts)
          case Failure(e) => Failure(e)
          case Success(values) => Success(Some(values))
  }

  function ReadColumns(table: Table, specs: seq<ColumnSpec>, casts: Casts): Result<Columns, ReadError>
    requires WellFormedTable(table)
  {
    if specs == [] then Success([]) else
      var n := |specs| - 1;
      match ReadColumns(table, specs[..n], casts)
      case Failure(e) => Failure(e)
      case Success(before) =>
        match ReadColumn(table, specs[n], casts)
        case Failure(e) => Failure(e)
        case Success(None) => Success(before)
        case Success(Some(values)) => Success(Put(before, specs[n].name, values))
  }

  // ----- null defaults -----

  /** Nulls of the column give the default, every other row keeps its value. */
  function Restored(values: seq<Value>, valid: seq<bool>, default: Value): (r: seq<Value>)
    requires |values| == |valid|
    ensures |r| == |values|
  {
    seq(|values|, i requires 0 <= i < |values| => if valid[i] then values[i] else default)
  }

  method RestoreColumnNullDefault(column: ChunkedArray, values: seq<Value>, default: Value, name: string)
    returns (r: Result<seq<Value>, ReadError>)
    ensures r == if |values| != Length(column) then Failure(LengthMismatch(name))
                 else Success(Restored(values, Valid(column.chunks), default))
  {
    var valid := Valid(column.chunks);
    var restored := ArrayOf(values);
    if restored.Length != |valid| {
      return Failure(LengthMismatch(name));
    }
    FillWhere(restored, Negated(valid), default);
    assert restored[..] == Restored(values, valid, default);
    return Success(restored[..]);
  }

  function SpecNamed(specs: seq<ColumnSpec>, name: string): Option<ColumnSpec> {
    if specs == [] then None
    else if specs[|specs| - 1].name == name then Some(specs[|specs| - 1])
    else SpecNamed(specs[..|specs| - 1], name)
  }

  function RestoreField(table: Table, specs: seq<ColumnSpec>, columns: Columns, field: string, default: Value)
    : Result<Columns, ReadError>
  {
    match Get(columns, field)
    case None => Success(columns)
    case Some(values) =>
      match SpecNamed(specs, field)
      case None => Failure(UnknownType(field))
      case Some(spec) =>
        match Resolve(Names(table), spec)
        case Failure(e) => Failure(TableProblem(e))
        case Success(None) => Success(columns)
        case Success(Some(source)) =>
          match FindColumn(table, source)
          case None => Success(columns)
          case Some(column) =>
            if !HasNulls(column) then Success(columns)
            else if |values| != Length(column) then Failure(LengthMismatch(field))
            else Success(Put(columns, field, Restored(values, Valid(column.chunks), default)))
  }

  function RestoreFields(table: Table, specs: seq<ColumnSpec>, columns: Columns, defaults: Dict<string, Value>)
    : Result<Columns, ReadError>
  {
    if defaults == [] then Success(columns) else
      var n := |defaults| - 1;
      match RestoreFields(table, specs, columns, defaults[..n])
      case Failure(e) => Failure(e)
      case Success(before) => RestoreField(table, specs, before, defaults[n].key, defaults[n].value)
  }

  function Read(table: Table, specs: seq<ColumnSpec>, defaults: Dict<string, Value>, casts: Casts)
    : Result<Columns, ReadError>
    requires WellFormedTable(table)
  {
    if !Distinct(Names(table)) then Failure(TableProblem(DuplicateColumns)) else
      match ReadColumns(table, specs, casts)
      case Failure(e) => Failure(e)
      case Success(columns) => RestoreFields(table, specs, columns, defaults)
  }

  /** A table that repeats a column name is not read at all. */
  lemma DuplicatesAreNotRead(table: Table, specs: seq<ColumnSpec>, defaults: Dict<string, Value>, casts: Casts)
    requires WellFormedTable(table) && exists i, j :: 0 <= i < j < |table| && table[i].name == table[j].name
    ensures Read(table, specs, defaults, casts) == Failure(TableProblem(DuplicateColumns))
  {
    var i, j :| 0 <= i < j < |table| && table[i].name == table[j].name;
    assert Names(table)[i] == Names(table)[j];
  }

  /** The loops of the code over the specs and over the defaults. */
  method ReadArrowColumns(table: Table, specs: seq<ColumnSpec>, defaults: Dict<string, Value>, casts: Casts)
    returns (r: Result<Columns, ReadError>)
    requires WellFormedTable(table)
    ensures IsReuse(r) <==> !ValidSpecs(specs)
    ensures IsReuse(r) ==> exists i, j :: FirstReuse(specs, i, j, r.error.error)
    ensures ValidSpecs(specs) ==> r == Read(table, specs, defaults, casts)
  {
    ReadNeverReusesIdentifier(table, specs, defaults, casts);
    var checked := ValidateColumnSpecs(specs);
    if checked.Failure? {
      return Failure(TableProblem(checked.error));
    }
    if !Distinct(Names(table)) {
      return Failure(TableProblem(DuplicateColumns));
    }
    var columns: Columns := [];
    for i := 0 to |specs|
      invariant ReadColumns(table, specs[..i], casts) == Success(columns)
    {
      assert specs[..i + 1][..i] == specs[..i];
      var column := ReadColumn(table, specs[i], casts);
      if column.Failure? {
        ReadColumnsFailure(table, specs, casts, i + 1);
        return Failure(column.error);
      }
      if column.value.Some? {
        columns := Put(columns, specs[i].name, column.value.value);
      }
    }
    assert specs[..|specs|] == specs;
    r := RestoreNullDefaults(table, specs, columns, defaults);
  }

  method RestoreNullDefaults(table: Table, specs: seq<ColumnSpec>, columns: Columns, defaults: Dict<string, Value>)
    returns (r: Result<Columns, ReadError>)
    ensures r == RestoreFields(table, specs, columns, defaults)
  {
    var restored := columns;
    for i := 0 to |defaults|
      invariant RestoreFields(table, specs, columns, defaults[..i]) == Success(restored)
    {
      assert defaults[..i + 1][..i] == defaults[..i];
      var step := RestoreOne(table, specs, restored, defaults[i].key, defaults[i].value);
      if step.Failure? {
        RestoreFieldsFailure(table, specs, columns, defaults, i + 1);
        return Failure(step.error);
      }
      restored := step.value;
    }
    assert defaults[..|defaults|] == defaults;
    return Success(restored);
  }

  method RestoreOne(table: Table, specs: seq<ColumnSpec>, columns: Columns, field: string, default: Value)
    returns (r: Result<Columns, ReadError>)
    ensures r == RestoreField(table, specs, columns, field, default)
  {
    var values, spec := Get(columns, field), SpecNamed(specs, field);
    if values.None? {
      return Success(columns);
    }
    if spec.None? {
      return Failure(UnknownType(field));
    }
    var source := Resolve(Names(table), spec.value);
    if source.Failure? {
      return Failure(TableProblem(source.error));
    }
    if source.value.None? {
      return Success(columns);
    }
    var column := FindColumn(table, source.value.value);
    if column.None? || !HasNulls(column.value) {
      return Success(columns);
    }
    var filled := RestoreColumnNullDefault(column.value, values.value, default, field);
    return if filled.Failure? then Failure(filled.error) else Success(Put(columns, field, filled.value));
  }

  lemma {:induction false} ReadColumnsFailure(table: Table, specs: seq<ColumnSpec>, casts: Casts, i: nat)
    requires WellFormedTable(table) && i <= |specs| && ReadColumns(table, specs[..i], casts).Failure?
    ensures ReadColumns(table, specs, casts) == ReadColumns(table, specs[..i], casts)
  {
    if i < |specs| {
      assert specs[..|specs| - 1][..i] == specs[..i];
      ReadColumnsFailure(table, specs[..|specs| - 1], casts, i);
    } else {
      assert specs[..i] == specs;
    }
  }

  lemma {:induction false} RestoreFieldsFailure(table: Table, specs: seq<ColumnSpec>, columns: Columns,
                                                defaults: Dict<string, Value>, i: nat)
    requires i <= |defaults| && RestoreFields(table, specs, columns, defaults[..i]).Failure?
    ensures RestoreFields(table, specs, columns, defaults) == RestoreFields(table, specs, columns, defaults[..i])
  {
    if i < |defaults| {
      assert defaults[..|defaults| - 1][..i] == defaults[..i];
      RestoreFieldsFailure(table, specs, columns, defaults[..|defaults| - 1], i);
    } else {
      assert defaults[..i] == defaults;
    }
  }

  predicate IsReuse<T>(r: Result<T, ReadError>) {
    r.Failure? && r.error.TableProblem? && r.error.error.IdentifierReused?
  }

  lemma {:induction false} ReadColumnsNoReuse(table: Table, specs: seq<ColumnSpec>, casts: Casts)
    requires WellFormedTable(table)
    ensures !IsReuse(ReadColumns(table, specs, casts))
  {
    if specs != [] {
      ReadColumnsNoReuse(table, specs[..|specs| - 1], casts);
      ReadColumnNoReuse(table, specs[|specs| - 1], casts);
    }
  }

  lemma ReadColumnNoReuse(table: Table, spec: ColumnSpec, casts: Casts)
    requires WellFormedTable(table)
    ensures !IsReuse(ReadColumn(table, spec, casts))
  {
  }

  lemma {:induction false} RestoreFieldsNoReuse(table: Table, specs: seq<ColumnSpec>, columns: Columns,
                                                defaults: Dict<string, Value>)
    ensures !IsReuse(RestoreFields(table, specs, columns, defaults))
  {
    if defaults != [] {
      RestoreFieldsNoReuse(table, specs, columns, defaults[..|defaults| - 1]);
    }
  }

  lemma ReadNeverReusesIdentifier(table: Table, specs: seq<ColumnSpec>, defaults: Dict<string, Value>, casts: Casts)
    requires WellFormedTable(table)
    ensures !IsReuse(Read(table, specs, defaults, casts))
  {
    ReadColumnsNoReuse(table, specs, casts);
    var columns := ReadColumns(table, specs, casts);
    if columns.Success? {
      RestoreFieldsNoReuse(table, specs, columns.value, defaults);
    }
  }

  // ----- reading commutes with normalising -----

  lemma RenamedWellFormed(table: Table, specs: seq<ColumnSpec>)
    requires WellFormedTable(table)
    ensures WellFormedTable(Renamed(table, specs))
  {
  }

  lemma ReadColumnCommutes(table: Table, specs: seq<ColumnSpec>, casts: Casts, i: nat)
    requires WellFormedTable(table) && i < |specs|
    requires ValidSpecs(specs) && Unambiguous(Names(table), specs) && Distinct(Names(table))
    ensures WellFormedTable(Renamed(table, specs))
    ensures ReadColumn(Renamed(table, specs), specs[i], casts) == ReadColumn(table, specs[i], casts)
  {
    RenamedWellFormed(table, specs);
    ColumnAfterRenaming(table, specs, i);
    ResolveIs(Names(table), specs[i]);
  }

  lemma {:induction false} ReadColumnsCommute(table: Table, specs: seq<ColumnSpec>, casts: Casts, n: nat)
    requires WellFormedTable(table) && n <= |specs|
    requires ValidSpecs(specs) && Unambiguous(Names(table), specs) && Distinct(Names(table))
    ensures WellFormedTable(Renamed(table, specs))
    ensures ReadColumns(Renamed(table, specs), specs[..n], casts) == ReadColumns(table, specs[..n], casts)
  {
    RenamedWellFormed(table, specs);
    if n > 0 {
      assert specs[..n][..n - 1] == specs[..n - 1];
      ReadColumnsCommute(table, specs, casts, n - 1);
      ReadColumnCommutes(table, specs, casts, n - 1);
    }
  }

  lemma {:induction false} SpecNamedIs(specs: seq<ColumnSpec>, name: string)
    ensures SpecNamed(specs, name).Some? ==>
              exists i :: 0 <= i < |specs| && specs[i] == SpecNamed(specs, name).value && specs[i].name == name
    ensures SpecNamed(specs, name).None? <==> forall i :: 0 <= i < |specs| ==> specs[i].name != name
  {
    if specs != [] && specs[|specs| - 1].name != name {
      SpecNamedIs(specs[..|specs| - 1], name);
    }
  }

  lemma RestoreFieldCommutes(table: Table, specs: seq<ColumnSpec>, columns: Columns, field: string, default: Value)
    requires ValidSpecs(specs) && Unambiguous(Names(table), specs) && Distinct(Names(table))
    ensures RestoreField(Renamed(table, specs), specs, columns, field, default)
            == RestoreField(table, specs, columns, field, default)
  {
    hide Resolve, Renamed, Restored, HasNulls, Length;
    SpecNamedIs(specs, field);
    if SpecNamed(specs, field).Some? {
      var i :| 0 <= i < |specs| && specs[i] == SpecNamed(specs, field).value && specs[i].name == field;
      ColumnAfterRenaming(table, specs, i);
      ResolveIs(Names(table), specs[i]);
    }
  }

  lemma {:induction false} RestoreFieldsCommute(table: Table, specs: seq<ColumnSpec>, columns: Columns,
                                                defaults: Dict<string, Value>)
    requires ValidSpecs(specs) && Unambiguous(Names(table), specs) && Distinct(Names(table))
    ensures RestoreFields(Renamed(table, specs), specs, columns, defaults)
            == RestoreFields(table, specs, columns, defaults)
  {
    if defaults != [] {
      var n := |defaults| - 1;
      RestoreFieldsCommute(table, specs, columns, defaults[..n]);
      var before := RestoreFields(table, specs, columns, defaults[..n]);
      if before.Success? {
        RestoreFieldCommutes(table, specs, before.value, defaults[n].key, defaults[n].value);
      }
    }
  }

  /** On a table that normalises, reading it raw or normalised gives the same arrays, or the same error. */
  lemma ReadingCommutesWithNormalizing(table: Table, specs: seq<ColumnSpec>, defaults: Dict<string, Value>,
                                       casts: Casts, rowId: Option<string>, unique: bool)
    requires WellFormedTable(table) && Normalizable(table, specs, rowId, unique)
    ensures WellFormedTable(Renamed(table, specs))
    ensures Read(Renamed(table, specs), specs, defaults, casts) == Read(table, specs, defaults, casts)
  {
    ReadColumnsCommute(table, specs, casts, |specs|);
    assert specs[..|specs|] == specs;
    RenamingNeverCollides(table, specs);
    var columns := ReadColumns(table, specs, casts);
    if columns.Success? {
      RestoreFieldsCommute(table, specs, columns.value, defaults);
    }
  }

  // ----- null defaults leave no placeholder behind -----

  lemma {:induction false} ColumnAbsent(table: Table, specs: seq<ColumnSpec>, casts: Casts, n: nat, name: string)
    requires WellFormedTable(table) && n <= |specs| && ReadColumns(table, specs[..n], casts).Success?
    requires forall i :: 0 <= i < n ==> specs[i].name != name
    ensures Get(ReadColumns(table, specs[..n], casts).value, name).None?
  {
    if n > 0 {
      assert specs[..n][..n - 1] == specs[..n - 1];
      ColumnAbsent(table, specs, casts, n - 1, name);
      var column := ReadColumn(table, specs[n - 1], casts).value;
      if column.Some? {
        PutGet(ReadColumns(table, specs[..n - 1], casts).value, specs[n - 1].name, column.value, name);
      }
    }
  }

  lemma {:induction false} ColumnOfSpec(table: Table, specs: seq<ColumnSpec>, casts: Casts, n: nat, i: nat)
    requires WellFormedTable(table) && ValidSpecs(specs) && i < n <= |specs|
    requires ReadColumns(table, specs[..n], casts).Success?
    ensures ReadColumn(table, specs[i], casts).Success?
    ensures Get(ReadColumns(table, specs[..n], casts).value, specs[i].name) == ReadColumn(table, specs[i], casts).value
  {
    hide ReadColumn, ValidSpecs, Get, Put;
    assert specs[..n][..n - 1] == specs[..n - 1];
    var before := ReadColumns(table, specs[..n - 1], casts).value;
    var last := specs[n - 1];
    var column := ReadColumn(table, last, casts).value;
    if column.Some? {
      PutGet(before, last.name, column.value, specs[i].name);
    }
    if i < n - 1 {
      ColumnOfSpec(table, specs, casts, n - 1, i);
      DistinctSpecNames(specs, i, n - 1);
    } else {
      forall k | 0 <= k < n - 1 ensures specs[k].name != last.name {
        DistinctSpecNames(specs, k, n - 1);
      }
      ColumnAbsent(table, specs, casts, n - 1, last.name);
    }
  }

  lemma {:induction false} ChunkLengths(t: ArrowType, dictionary: bool, chunks: seq<Chunk>)
    requires forall k :: 0 <= k < |chunks| ==> WellFormedChunk(chunks[k], t, dictionary)
    ensures |Valid(chunks)| == |Rows(chunks)| == |Decoded(t, dictionary, chunks)|
  {
    if chunks != [] {
      assert WellFormedChunk(chunks[0], t, dictionary);
      ChunkLengths(t, dictionary, chunks[1..]);
    }
  }

  lemma TypedLength(column: ChunkedArray, spec: ColumnSpec, casts: Casts)
    requires WellFormed(column) && ReadTyped(column, spec, casts).Success?
    ensures |ReadTyped(column, spec, casts).value| == Length(column)
  {
    ChunkLengths(column.valueType, column.dictionary, column.chunks);
  }

  /** The array read for a spec is as long as its column, so restoring never finds a mismatch. */
  lemma ReadColumnLength(table: Table, spec: ColumnSpec, casts: Casts)
    requires WellFormedTable(table)
    requires ReadColumn(table, spec, casts).Success? && ReadColumn(table, spec, casts).value.Some?
    ensures ResolvedColumn(table, spec).Some? && WellFormed(ResolvedColumn(table, spec).value)
    ensures ReadTyped(ResolvedColumn(table, spec).value, spec, casts) ==
            Success(ReadColumn(table, spec, casts).value.value)
    ensures |ReadColumn(table, spec, casts).value.value| == Length(ResolvedColumn(table, spec).value)
  {
    var source := Resolve(Names(table), spec).value.value;
    ResolveIs(Names(table), spec);
    FoundColumnWellFormed(table, source);
    TypedLength(FindColumn(table, source).value, spec, casts);
  }

  /** The column that a canonical name stands for. */
  ghost function ColumnFor(table: Table, specs: seq<ColumnSpec>, name: string): Option<ChunkedArray> {
    match SpecNamed(specs, name) case None => None case Some(spec) => ResolvedColumn(table, spec)
  }

  /** Every array is held under the name of a spec and is as long as the column of that spec. */
  ghost predicate Fits(table: Table, specs: seq<ColumnSpec>, columns: Columns) {
    forall name {:trigger Get(columns, name)} :: Get(columns, name).Some? ==>
      && ColumnFor(table, specs, name).Some?
      && |Get(columns, name).value| == Length(ColumnFor(table, specs, name).value)
  }

  lemma {:induction false} SpecNamedOwn(specs: seq<ColumnSpec>, i: nat)
    requires ValidSpecs(specs) && i < |specs|
    ensures SpecNamed(specs, specs[i].name) == Some(specs[i])
  {
    SpecNamedIs(specs, specs[i].name);
    var j :| 0 <= j < |specs| && specs[j] == SpecNamed(specs, specs[i].name).value && specs[j].name == specs[i].name;
    OneOwner(specs, i, 0, j, 0);
  }

  lemma ReadColumnsFit(table: Table, specs: seq<ColumnSpec>, casts: Casts)
    requires WellFormedTable(table) && ValidSpecs(specs) && ReadColumns(table, specs, casts).Success?
    ensures Fits(table, specs, ReadColumns(table, specs, casts).value)
  {
    assert specs[..|specs|] == specs;
    var columns := ReadColumns(table, specs, casts).value;
    forall name | Get(columns, name).Some?
      ensures ColumnFor(table, specs, name).Some?
      ensures |Get(columns, name).value| == Length(ColumnFor(table, specs, name).value)
    {
      SpecNamedIs(specs, name);
      if SpecNamed(specs, name).None? {
        ColumnAbsent(table, specs, casts, |specs|, name);
      } else {
        var i :| 0 <= i < |specs| && specs[i] == SpecNamed(specs, name).value && specs[i].name == name;
        ColumnOfSpec(table, specs, casts, |specs|, i);
        ReadColumnLength(table, specs[i], casts);
      }
    }
  }

  lemma RestoredWithoutNulls(column: ChunkedArray, values: seq<Value>, default: Value)
    requires |values| == Length(column) && !HasNulls(column)
    ensures Restored(values, Valid(column.chunks), default) == values
  {
    var valid := Valid(column.chunks);
    forall i | 0 <= i < |valid| ensures valid[i] {
      assert valid[i] in valid;
    }
  }

  /** What a default, if there is one, makes of an array read from `column`. */
  ghost function Defaulted(column: ChunkedArray, values: seq<Value>, default: Option<Value>): seq<Value>
    requires |values| == Length(column)
  {
    if default.None? then values else Restored(values, Valid(column.chunks), default.value)
  }

  lemma RestoreFieldIs(
    table: Table, specs: seq<ColumnSpec>, columns: Columns, field: string, default: Value, name: string)
    requires Fits(table, specs, columns)
    ensures RestoreField(table, specs, columns, field, default).Success?
    ensures Get(RestoreField(table, specs, columns, field, default).value, name) ==
            match Get(columns, name)
            case None => None
            case Some(values) =>
              Some(Defaulted(ColumnFor(table, specs, name).value, values,
                             if name == field then Some(default) else None))
  {
    var values := Get(columns, field);
    if values.Some? {
      var column := ColumnFor(table, specs, field).value;
      if HasNulls(column) {
        PutGet(columns, field, Restored(values.value, Valid(column.chunks), default), name);
      } else {
        RestoredWithoutNulls(column, values.value, default);
      }
    }
  }

  lemma {:induction false} GetSnoc<V>(d: Dict<string, V>, item: Item<string, V>, key: string)
    ensures Get(d + [item], key) ==
            if Get(d, key).Some? then Get(d, key) else if item.key == key then Some(item.value) else None
  {
    if d == [] {
      assert d + [item] == [item];
    } else {
      assert (d + [item])[1..] == d[1..] + [item];
      GetSnoc(d[1..], item, key);
    }
  }

  lemma {:induction false} RestoreFieldsAre(table: Table, specs: seq<ColumnSpec>, columns: Columns,
                                            defaults: Dict<string, Value>, name: string)
    requires Fits(table, specs, columns) && UniqueKeys(defaults)
    ensures RestoreFields(table, specs, columns, defaults).Success?
    ensures Get(RestoreFields(table, specs, columns, defaults).value, name) ==
            match Get(columns, name)
            case None => None
            case Some(values) => Some(Defaulted(ColumnFor(table, specs, name).value, values, Get(defaults, name)))
    decreases |defaults|
  {
    if defaults != [] {
      var n := |defaults| - 1;
      var last := defaults[n];
      assert defaults == defaults[..n] + [last];
      GetSnoc(defaults[..n], last, name);
      RestoreFieldsAre(table, specs, columns, defaults[..n], name);
      var before := RestoreFields(table, specs, columns, defaults[..n]).value;
      assert Fits(table, specs, before) by {
        forall other | Get(before, other).Some?
          ensures ColumnFor(table, specs, other).Some?
          ensures |Get(before, other).value| == Length(ColumnFor(table, specs, other).value)
        {
          RestoreFieldsAre(table, specs, columns, defaults[..n], other);
        }
      }
      RestoreFieldIs(table, specs, before, last.key, last.value, name);
      if last.key == name {
        GetMissing(defaults[..n], name);
      }
    }
  }
}
