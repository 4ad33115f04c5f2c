/**
  What a reader with null defaults can rely on: when a row with a value is read as that value, and
  when a null row holds the default. A row is null if its cell or its index is, or if its index
  points at a null entry of the dictionary; Arrow's validity bitmap does not know the last kind.
*/
module NullDefaults {
  import opened Wrappers
  import opened Sequences
  import opened ArrowData
  import opened ArrowTable
  import opened ArrowDecoding
  import opened ArrowReading
  import opened OrderedDicts

  // ----- rows with a value -----

  /** Every row that has a value holds that value. */
  ghost predicate ValuesKept(values: seq<Value>, rows: seq<Option<Value>>) {
    |values| == |rows| && forall r :: 0 <= r < |rows| && rows[r].Some? ==> values[r] == rows[r].value
  }

  /** A null in an integer dictionary turns all its entries into floats, so then no row may have a value. */
  ghost predicate KeepsValues(t: ArrowType, chunk: Chunk) {
    chunk.Encoded? && t.IntegerType? && None in chunk.dictionary ==>
      forall i :: 0 <= i < ChunkLength(chunk) ==> ChunkRows(chunk)[i].None?
  }

  lemma ChunkKeepsIff(t: ArrowType, chunk: Chunk)
    requires WellFormedChunk(chunk, t, chunk.Encoded?)
    ensures ValuesKept(DecodedChunk(t, chunk), ChunkRows(chunk)) <==> KeepsValues(t, chunk)
  {
    var decoded, rows := DecodedChunk(t, chunk), ChunkRows(chunk);
    if chunk.Encoded? {
      forall i | 0 <= i < |rows| && rows[i].Some?
        ensures decoded[i] == NumpyCell(t, t.IntegerType? && None in chunk.dictionary, rows[i])
      {
      }
      if !KeepsValues(t, chunk) {
        var i :| 0 <= i < |rows| && rows[i].Some?;
        assert decoded[i] != rows[i].value;
      }
    }
  }

  lemma ValuesKeptAppend(a: seq<Value>, b: seq<Value>, c: seq<Option<Value>>, d: seq<Option<Value>>)
    requires |a| == |c| && |b| == |d|
    ensures ValuesKept(a + b, c + d) <==> ValuesKept(a, c) && ValuesKept(b, d)
  {
    assert forall r :: 0 <= r < |a| ==> (a + b)[r] == a[r] && (c + d)[r] == c[r];
    assert forall r :: 0 <= r < |b| ==> (a + b)[|a| + r] == b[r] && (c + d)[|a| + r] == d[r];
  }

  /** A decoded column holds the values of its rows exactly if every chunk keeps its values. */
  lemma {:induction false} DecodedKeepsIff(t: ArrowType, dictionary: bool, chunks: seq<Chunk>)
    requires forall k :: 0 <= k < |chunks| ==> WellFormedChunk(chunks[k], t, dictionary)
    ensures ValuesKept(Decoded(t, dictionary, chunks), Rows(chunks)) <==>
            forall k :: 0 <= k < |chunks| ==> KeepsValues(t, chunks[k])
  {
    hide KeepsValues, ValuesKept;
    if chunks == [] {
      NothingToKeep();
    } else {
      var first, rest := chunks[0], chunks[1..];
      assert WellFormedChunk(first, t, dictionary);
      ChunkKeepsIff(t, first);
      DecodedKeepsIff(t, dictionary, rest);
      ChunkLengths(t, dictionary, rest);
      ValuesKeptAppend(DecodedChunk(t, first), Decoded(t, dictionary, rest), ChunkRows(first), Rows(rest));
      assert chunks == [first] + rest;
    }
  }

  lemma NothingToKeep()
    ensures ValuesKept([], [])
  {
  }

  // ----- typed reads -----

  /** The types that are read as Python objects; the others go through a cast of the rows. */
  predicate ReadsObjects(t: LogicalType) {
    t.StringLogical? || t.DictionaryLogical? || t.DictionaryCodeLogical? || t.IntegerLogical?
  }

  /** What a row with the value `v` is to be read as. */
  function CellValue(column: ChunkedArray, spec: ColumnSpec, casts: Casts, v: Value): Value {
    match spec.logicalType
    case FloatLogical => FloatCell(column, casts, v)
    case DecimalLogical => FloatCell(column, casts, v)
    case BooleanLogical =>
      if column.valueType.BooleanType? && !column.dictionary then v
      else if casts.toBool(v).Some? then casts.toBool(v).value else Missing
    case _ => v
  }

  function FloatCell(column: ChunkedArray, casts: Casts, v: Value): Value {
    if column.valueType.FloatType? && !column.dictionary then v
    else if casts.toFloat(v).Some? then casts.toFloat(v).value else Missing
  }

  /** Every row of the column that has a value is read as it. */
  ghost predicate RowsRead(column: ChunkedArray, spec: ColumnSpec, casts: Casts, values: seq<Value>) {
    var rows := Rows(column.chunks);
    && |values| == |rows|
    && forall r :: 0 <= r < |rows| && rows[r].Some? ==> values[r] == CellValue(column, spec, casts, rows[r].value)
  }

  ghost predicate KeepsRows(column: ChunkedArray, spec: ColumnSpec) {
    ReadsObjects(spec.logicalType) ==>
      forall k :: 0 <= k < |column.chunks| ==> KeepsValues(column.valueType, column.chunks[k])
  }

  /**
    Whatever placeholder fills the nulls, each row with a value is read as its own value, cast where
    the type asks for it; for types that are read as objects exactly if all chunks keep their values.
  */
  lemma TypedRowsIff(column: ChunkedArray, spec: ColumnSpec, casts: Casts)
    requires WellFormed(column) && ReadTyped(column, spec, casts).Success?
    ensures RowsRead(column, spec, casts, ReadTyped(column, spec, casts).value) <==> KeepsRows(column, spec)
  {
    hide KeepsValues, Rows, Decoded;
    TypedLength(column, spec, casts);
    ChunkLengths(column.valueType, column.dictionary, column.chunks);
    DecodedKeepsIff(column.valueType, column.dictionary, column.chunks);
    var rows, values := Rows(column.chunks), ReadTyped(column, spec, casts).value;
    if !ReadsObjects(spec.logicalType) {
      forall r | 0 <= r < |rows| && rows[r].Some? ensures values[r] == CellValue(column, spec, casts, rows[r].value) {
        if spec.logicalType.BooleanLogical? {
          if !(column.valueType.BooleanType? && !column.dictionary) {
            assert CastRow(casts.toBool, rows[r]) == Some(CastRows(casts.toBool, rows).value[r]);
          }
        } else {
          FloatTyped(column, spec, casts, r);
        }
      }
    }
  }

  lemma FloatTyped(column: ChunkedArray, spec: ColumnSpec, casts: Casts, r: nat)
    requires ReadFloat(column, spec, casts).Success? && r < |Rows(column.chunks)|
    ensures |ReadFloat(column, spec, casts).value| == |Rows(column.chunks)|
    ensures Rows(column.chunks)[r].Some? ==>
              ReadFloat(column, spec, casts).value[r] == FloatCell(column, casts, Rows(column.chunks)[r].value)
  {
    var rows := Rows(column.chunks);
    if !(column.valueType.FloatType? && !column.dictionary) {
      assert CastRow(casts.toFloat, rows[r]) == Some(CastRows(casts.toFloat, rows).value[r]);
    }
  }

  // ----- rows without a value -----

  /** No row that has a value counts as null, and every row without one does. */
  ghost predicate NullsAreInvalid(valid: seq<bool>, rows: seq<Option<Value>>) {
    |valid| == |rows| && forall r :: 0 <= r < |rows| ==> (valid[r] <==> rows[r].Some?)
  }

  lemma NullsAreInvalidAppend(a: seq<bool>, b: seq<bool>, c: seq<Option<Value>>, d: seq<Option<Value>>)
    requires |a| == |c| && |b| == |d|
    ensures NullsAreInvalid(a + b, c + d) <==> NullsAreInvalid(a, c) && NullsAreInvalid(b, d)
  {
    assert forall r :: 0 <= r < |a| ==> (a + b)[r] == a[r] && (c + d)[r] == c[r];
    assert forall r :: 0 <= r < |b| ==> (a + b)[|a| + r] == b[r] && (c + d)[|a| + r] == d[r];
  }

  ghost predicate ValuesAreValid(valid: seq<bool>, rows: seq<Option<Value>>) {
    |valid| == |rows| && forall r :: 0 <= r < |rows| && rows[r].Some? ==> valid[r]
  }

  lemma ValuesAreValidAppend(a: seq<bool>, b: seq<bool>, c: seq<Option<Value>>, d: seq<Option<Value>>)
    requires ValuesAreValid(a, c) && ValuesAreValid(b, d)
    ensures ValuesAreValid(a + b, c + d)
  {
  }

  ghost predicate NonePointsAtNull(chunks: seq<Chunk>) {
    forall k :: 0 <= k < |chunks| ==> !PointsAtNull(chunks[k])
  }

  lemma ChunkNullsIff(t: ArrowType, chunk: Chunk)
    requires WellFormedChunk(chunk, t, chunk.Encoded?)
    ensures NullsAreInvalid(Validity(chunk), ChunkRows(chunk)) <==> !PointsAtNull(chunk)
    ensures ValuesAreValid(Validity(chunk), ChunkRows(chunk))
  {
    if PointsAtNull(chunk) {
      var i :| && 0 <= i < |chunk.indices| && chunk.indices[i].Some?
               && chunk.indices[i].value < |chunk.dictionary| && chunk.dictionary[chunk.indices[i].value].None?;
      assert Validity(chunk)[i] && ChunkRows(chunk)[i].None?;
    }
  }

  /** The validity bitmap tells the null rows exactly if no valid index points at a null entry. */
  lemma {:induction false} ColumnNullsIff(t: ArrowType, dictionary: bool, chunks: seq<Chunk>)
    requires forall k :: 0 <= k < |chunks| ==> WellFormedChunk(chunks[k], t, dictionary)
    ensures ValuesAreValid(Valid(chunks), Rows(chunks))
    ensures NullsAreInvalid(Valid(chunks), Rows(chunks)) <==> NonePointsAtNull(chunks)
  {
    hide PointsAtNull, NullsAreInvalid, ValuesAreValid, Validity, ChunkRows;
    if chunks == [] {
      NoRows();
    } else {
      var first, rest := chunks[0], chunks[1..];
      assert WellFormedChunk(first, t, dictionary);
      ChunkNullsIff(t, first);
      ColumnNullsIff(t, dictionary, rest);
      ChunkLengths(t, dictionary, rest);
      NullsAreInvalidAppend(Validity(first), Valid(rest), ChunkRows(first), Rows(rest));
      ValuesAreValidAppend(Validity(first), Valid(rest), ChunkRows(first), Rows(rest));
      assert chunks == [first] + rest;
    }
  }

  lemma NoRows()
    ensures NullsAreInvalid([], []) && ValuesAreValid([], [])
  {
  }

  /** Every row without a value holds the default. */
  ghost predicate NullsHold(values: seq<Value>, rows: seq<Option<Value>>, default: Value) {
    |values| == |rows| && forall r :: 0 <= r < |rows| && rows[r].None? ==> values[r] == default
  }

  /** Null rows hold the default after restoring, whatever it is, exactly if no valid index points at a null entry. */
  lemma RestoredNullsIff(column: ChunkedArray, values: seq<Value>)
    requires WellFormed(column) && |values| == Length(column)
    ensures (forall default :: NullsHold(Restored(values, Valid(column.chunks), default), Rows(column.chunks), default))
            <==> NonePointsAtNull(column.chunks)
  {
    hide NonePointsAtNull, Rows, Valid;
    var rows, valid := Rows(column.chunks), Valid(column.chunks);
    ColumnNullsIff(column.valueType, column.dictionary, column.chunks);
    if !NonePointsAtNull(column.chunks) {
      var r :| 0 <= r < |rows| && valid[r] != rows[r].Some?;
      var other := OtherThan(values[r]);
      assert Restored(values, valid, other)[r] != other;
      assert !NullsHold(Restored(values, valid, other), rows, other);
    }
  }

  lemma RestoredNulls(column: ChunkedArray, values: seq<Value>, default: Value)
    requires WellFormed(column) && |values| == Length(column)
    ensures NonePointsAtNull(column.chunks) ==>
              NullsHold(Restored(values, Valid(column.chunks), default), Rows(column.chunks), default)
  {
    hide NonePointsAtNull, Rows, Valid;
    ColumnNullsIff(column.valueType, column.dictionary, column.chunks);
  }

  function OtherThan(v: Value): (other: Value)
    ensures other != v
  {
    if v == Missing then NaN else Missing
  }

  // ----- rows without a value and without a default -----

  /** The placeholder of a row without a value; in columns read as objects it depends on what is null. */
  ghost predicate HoldsPlaceholder(value: Value, valid: bool, spec: ColumnSpec, t: ArrowType) {
    match spec.logicalType
    case FloatLogical => value == NaN
    case DecimalLogical => value == NaN
    case BooleanLogical => value == Bool(false)
    case _ => value == if valid && (t.IntegerType? || t.FloatType?) then NaN else Missing
  }

  ghost predicate PlaceholdersHeld(values: seq<Value>, column: ChunkedArray, spec: ColumnSpec) {
    var rows, valid := Rows(column.chunks), Valid(column.chunks);
    && |values| == |rows| == |valid|
    && forall r :: 0 <= r < |rows| && rows[r].None? ==> HoldsPlaceholder(values[r], valid[r], spec, column.valueType)
  }

  /** What decoding makes of a null row: `None`, or what the null entry of a numeric dictionary has become. */
  ghost predicate NullsDecoded(values: seq<Value>, valid: seq<bool>, rows: seq<Option<Value>>, t: ArrowType) {
    && |values| == |valid| == |rows|
    && forall r :: 0 <= r < |rows| && rows[r].None? ==>
                     values[r] == if valid[r] && (t.IntegerType? || t.FloatType?) then NaN else Missing
  }

  lemma ChunkNullsDecoded(t: ArrowType, chunk: Chunk)
    requires WellFormedChunk(chunk, t, chunk.Encoded?)
    ensures NullsDecoded(DecodedChunk(t, chunk), Validity(chunk), ChunkRows(chunk), t)
  {
  }

  lemma NullsDecodedAppend(t: ArrowType, a: seq<Value>, b: seq<Value>, av: seq<bool>, bv: seq<bool>,
                           ar: seq<Option<Value>>, br: seq<Option<Value>>)
    requires NullsDecoded(a, av, ar, t) && NullsDecoded(b, bv, br, t)
    ensures NullsDecoded(a + b, av + bv, ar + br, t)
  {
  }

  lemma {:induction false} ColumnNullsDecoded(t: ArrowType, dictionary: bool, chunks: seq<Chunk>)
    requires forall k :: 0 <= k < |chunks| ==> WellFormedChunk(chunks[k], t, dictionary)
    ensures NullsDecoded(Decoded(t, dictionary, chunks), Valid(chunks), Rows(chunks), t)
  {
    hide NullsDecoded;
    if chunks == [] {
      NoNullsDecoded(t);
    } else {
      var first, rest := chunks[0], chunks[1..];
      assert WellFormedChunk(first, t, dictionary);
      ChunkNullsDecoded(t, first);
      ColumnNullsDecoded(t, dictionary, rest);
      NullsDecodedAppend(t, DecodedChunk(t, first), Decoded(t, dictionary, rest), Validity(first), Valid(rest),
                         ChunkRows(first), Rows(rest));
    }
  }

  lemma NoNullsDecoded(t: ArrowType)
    ensures NullsDecoded([], [], [], t)
  {
  }

  lemma TypedNulls(column: ChunkedArray, spec: ColumnSpec, casts: Casts)
    requires WellFormed(column) && ReadTyped(column, spec, casts).Success?
    ensures PlaceholdersHeld(ReadTyped(column, spec, casts).value, column, spec)
  {
    hide Rows, Valid, Decoded;
    TypedLength(column, spec, casts);
    ChunkLengths(column.valueType, column.dictionary, column.chunks);
    ColumnNullsDecoded(column.valueType, column.dictionary, column.chunks);
    var rows, values := Rows(column.chunks), ReadTyped(column, spec, casts).value;
    if !ReadsObjects(spec.logicalType) {
      forall r | 0 <= r < |rows| && rows[r].None?
        ensures HoldsPlaceholder(values[r], Valid(column.chunks)[r], spec, column.valueType)
      {
        if spec.logicalType.BooleanLogical? {
          if !(column.valueType.BooleanType? && !column.dictionary) {
            assert CastRow(casts.toBool, rows[r]) == Some(CastRows(casts.toBool, rows).value[r]);
          }
        } else {
          FloatNull(column, spec, casts, r);
        }
      }
    }
  }

  lemma FloatNull(column: ChunkedArray, spec: ColumnSpec, casts: Casts, r: nat)
    requires ReadFloat(column, spec, casts).Success? && r < |Rows(column.chunks)| && Rows(column.chunks)[r].None?
    ensures |ReadFloat(column, spec, casts).value| == |Rows(column.chunks)|
    ensures ReadFloat(column, spec, casts).value[r] == NaN
  {
    var rows := Rows(column.chunks);
    if !(column.valueType.FloatType? && !column.dictionary) {
      assert CastRow(casts.toFloat, rows[r]) == Some(CastRows(casts.toFloat, rows).value[r]);
    }
  }

  // ----- the whole read -----

  /** In the array read for spec `i`, null rows hold its default and all others their own value. */
  ghost predicate ReadAsMeant(
    table: Table, specs: seq<ColumnSpec>, defaults: Dict<string, Value>, casts: Casts, i: nat)
    requires WellFormedTable(table) && i < |specs|
  {
    var result, column := Read(table, specs, defaults, casts), ResolvedColumn(table, specs[i]);
    && result.Success? && column.Some? && Get(defaults, specs[i].name).Some?
    && Get(result.value, specs[i].name).Some?
    && var values := Get(result.value, specs[i].name).value;
       && RowsRead(column.value, specs[i], casts, values)
       && NullsHold(values, Rows(column.value.chunks), Get(defaults, specs[i].name).value)
  }

  /**
    What a default for spec `i` makes of the array that is read without defaults. Reading fails only
    where reading without defaults fails.
  */
  lemma NullDefaultsLeaveNoPlaceholder(
    table: Table, specs: seq<ColumnSpec>, defaults: Dict<string, Value>, casts: Casts, i: nat, default: Value)
    requires WellFormedTable(table) && ValidSpecs(specs) && UniqueKeys(defaults) && i < |specs|
    requires Distinct(Names(table)) && ReadColumns(table, specs, casts).Success?
    requires Get(defaults, specs[i].name) == Some(default)
    ensures Read(table, specs, defaults, casts).Success? && ReadColumn(table, specs[i], casts).Success?
    ensures var read := Get(Read(table, specs, defaults, casts).value, specs[i].name);
            match ReadColumn(table, specs[i], casts).value
            case None => read.None?
            case Some(values) =>
              && ResolvedColumn(table, specs[i]).Some? && WellFormed(ResolvedColumn(table, specs[i]).value)
              && var column := ResolvedColumn(table, specs[i]).value;
                 && ReadTyped(column, specs[i], casts) == Success(values) && |values| == Length(column)
                 && read == Some(Restored(values, Valid(column.chunks), default))
                 && (NonePointsAtNull(column.chunks) ==> NullsHold(read.value, Rows(column.chunks), default))
                 && (KeepsRows(column, specs[i]) <==> RowsRead(column, specs[i], casts, read.value))
  {
    hide NonePointsAtNull, NullsHold, KeepsRows, RowsRead, ReadTyped;
    assert specs[..|specs|] == specs;
    var spec := specs[i];
    var columns := ReadColumns(table, specs, casts).value;
    ReadColumnsFit(table, specs, casts);
    ColumnOfSpec(table, specs, casts, |specs|, i);
    SpecNamedOwn(specs, i);
    RestoreFieldsAre(table, specs, columns, defaults, spec.name);
    if ReadColumn(table, spec, casts).value.Some? {
      ReadColumnLength(table, spec, casts);
      var column, values := ResolvedColumn(table, spec).value, ReadColumn(table, spec, casts).value.value;
      RestoredNulls(column, values, default);
      RestoredRowsRead(column, spec, casts, values, default);
      TypedRowsIff(column, spec, casts);
    }
  }

  /** Restoring changes no row that has a value. */
  lemma RestoredRowsRead(column: ChunkedArray, spec: ColumnSpec, casts: Casts, values: seq<Value>, default: Value)
    requires WellFormed(column) && |values| == Length(column)
    ensures RowsRead(column, spec, casts, Restored(values, Valid(column.chunks), default)) <==>
            RowsRead(column, spec, casts, values)
  {
    hide Rows, Valid, CellValue;
    var restored := Restored(values, Valid(column.chunks), default);
    ColumnNullsIff(column.valueType, column.dictionary, column.chunks);
    assert forall r :: 0 <= r < |values| && Rows(column.chunks)[r].Some? ==> restored[r] == values[r];
  }

  /**
    Null defaults leave no placeholder: whatever the defaults are, null rows of the column of a spec
    hold its default and all others their own value, exactly if no valid index points at a null entry
    and, for types read as objects, every chunk keeps its values.
  */
  lemma NullDefaultsLeaveNoPlaceholderIff(table: Table, specs: seq<ColumnSpec>, casts: Casts, i: nat)
    requires WellFormedTable(table) && ValidSpecs(specs) && Distinct(Names(table)) && i < |specs|
    requires ReadColumns(table, specs, casts).Success?
    requires ReadColumn(table, specs[i], casts).Success? && ReadColumn(table, specs[i], casts).value.Some?
    ensures ResolvedColumn(table, specs[i]).Some?
    ensures var column := ResolvedColumn(table, specs[i]).value;
            (forall defaults :: UniqueKeys(defaults) && Get(defaults, specs[i].name).Some? ==>
                                  ReadAsMeant(table, specs, defaults, casts, i))
            <==> NonePointsAtNull(column.chunks) && KeepsRows(column, specs[i])
  {
    hide Read, ReadColumns, ReadColumn, ReadTyped, Get, RowsRead, NullsHold, KeepsRows, NonePointsAtNull;
    var spec, name := specs[i], specs[i].name;
    ReadColumnLength(table, spec, casts);
    var column, values := ResolvedColumn(table, spec).value, ReadColumn(table, spec, casts).value.value;
    var valid, rows := Valid(column.chunks), Rows(column.chunks);
    RestoredNullsIff(column, values);
    forall defaults | UniqueKeys(defaults) && Get(defaults, name).Some?
      ensures ReadAsMeant(table, specs, defaults, casts, i) <==>
              KeepsRows(column, spec) && NullsHold(Restored(values, valid, Get(defaults, name).value), rows,
                                                   Get(defaults, name).value)
    {
      NullDefaultsLeaveNoPlaceholder(table, specs, defaults, casts, i, Get(defaults, name).value);
    }
    if forall defaults :: UniqueKeys(defaults) && Get(defaults, name).Some? ==>
         ReadAsMeant(table, specs, defaults, casts, i)
    {
      forall default ensures NullsHold(Restored(values, valid, default), rows, default) && KeepsRows(column, spec) {
        OneDefault(name, default);
        assert ReadAsMeant(table, specs, [Item(name, default)], casts, i);
      }
      assert NullsHold(Restored(values, valid, Missing), rows, Missing);
      assert KeepsRows(column, spec);
      assert NonePointsAtNull(column.chunks);
    }
    if NonePointsAtNull(column.chunks) && KeepsRows(column, spec) {
      forall defaults | UniqueKeys(defaults) && Get(defaults, name).Some?
        ensures ReadAsMeant(table, specs, defaults, casts, i)
      {
        RestoredNulls(column, values, Get(defaults, name).value);
      }
    }
  }

  lemma OneDefault(name: string, default: Value)
    ensures UniqueKeys([Item(name, default)]) && Get([Item(name, default)], name) == Some(default)
  {
  }

  /** What it means that a column cannot be read. */
  lemma ReadFailureMeans(table: Table, spec: ColumnSpec, casts: Casts)
    requires WellFormedTable(table) && ReadColumn(table, spec, casts).Failure?
    ensures var column := ResolvedColumn(table, spec);
            match ReadColumn(table, spec, casts).error
            case UnknownType(name) => name == spec.name && spec.logicalType.UnknownLogical?
            case UnsupportedType(name) =>
              name == spec.name && column.Some? && (spec.logicalType.DateLogical? || spec.logicalType.TimestampLogical?)
            case NotNumeric(name) =>
              && name == spec.name && column.Some?
              && (spec.logicalType.FloatLogical? || spec.logicalType.DecimalLogical?)
              && exists v :: Some(v) in Rows(column.value.chunks) && casts.toFloat(v).None?
            case NotBoolean(name) =>
              && name == spec.name && column.Some? && spec.logicalType.BooleanLogical?
              && exists v :: Some(v) in Rows(column.value.chunks) && casts.toBool(v).None?
            case TableProblem(MissingColumn(name)) =>
              name == spec.name && spec.required && forall c :: c in Candidates(spec) ==> c !in Names(table)
            case TableProblem(AmbiguousColumn(name)) => name == spec.name && Resolve(Names(table), spec).Failure?
            case TableProblem(e) => column.Some? && PolicyError(spec, column.value) == Some(e)
            case LengthMismatch(_) => false
  {
    hide Rows, Decoded, PolicyError;
    if Resolve(Names(table), spec).Success? {
      ResolveIs(Names(table), spec);
    }
    PolicyErrorKinds(table, spec);
    var column := ResolvedColumn(table, spec);
    if column.Some? {
      var rows := Rows(column.value.chunks);
      if CastRows(casts.toFloat, rows).None? {
        var r :| 0 <= r < |rows| && CastRow(casts.toFloat, rows[r]).None?;
        assert Some(rows[r].value) in rows && casts.toFloat(rows[r].value).None?;
      }
      if CastRows(casts.toBool, rows).None? {
        var r :| 0 <= r < |rows| && CastRow(casts.toBool, rows[r]).None?;
        assert Some(rows[r].value) in rows && casts.toBool(rows[r].value).None?;
      }
    }
  }

  lemma PolicyErrorKinds(table: Table, spec: ColumnSpec)
    ensures Resolve(Names(table), spec).Failure? ==> Resolve(Names(table), spec).error == AmbiguousColumn(spec.name)
    ensures forall column ::
              PolicyError(spec, column).Some? ==>
                !PolicyError(spec, column).value.MissingColumn? && !PolicyError(spec, column).value.AmbiguousColumn?
  {
  }

  /**
    Without a default for spec `i`, rows with a value are read as it under the same condition, and every
    row without one holds the placeholder of the spec's type: NaN, False or `None`.
  */
  lemma WithoutDefault(
    table: Table, specs: seq<ColumnSpec>, defaults: Dict<string, Value>, casts: Casts, i: nat)
    requires WellFormedTable(table) && ValidSpecs(specs) && UniqueKeys(defaults) && i < |specs|
    requires Read(table, specs, defaults, casts).Success?
    requires Get(defaults, specs[i].name).None?
    ensures var read := Get(Read(table, specs, defaults, casts).value, specs[i].name);
            && (read.Some? <==> ResolvedColumn(table, specs[i]).Some?)
            && (read.Some? ==>
                  var column := ResolvedColumn(table, specs[i]).value;
                  && (KeepsRows(column, specs[i]) <==> RowsRead(column, specs[i], casts, read.value))
                  && PlaceholdersHeld(read.value, column, specs[i]))
  {
    hide KeepsRows, RowsRead, PlaceholdersHeld, ReadTyped;
    assert specs[..|specs|] == specs;
    var spec := specs[i];
    var columns := ReadColumns(table, specs, casts).value;
    ReadColumnsFit(table, specs, casts);
    ColumnOfSpec(table, specs, casts, |specs|, i);
    SpecNamedOwn(specs, i);
    RestoreFieldsAre(table, specs, columns, defaults, spec.name);
    ReadOrAbsent(table, spec, casts);
    if ReadColumn(table, spec, casts).value.Some? {
      ReadColumnLength(table, spec, casts);
      var column := ResolvedColumn(table, spec).value;
      TypedRowsIff(column, spec, casts);
      TypedNulls(column, spec, casts);
    }
  }

  lemma ReadOrAbsent(table: Table, spec: ColumnSpec, casts: Casts)
    requires WellFormedTable(table) && ReadColumn(table, spec, casts).Success?
    ensures ReadColumn(table, spec, casts).value.Some? <==> ResolvedColumn(table, spec).Some?
  {
    hide ReadTyped;
    ResolveIs(Names(table), spec);
  }

  const NULL_ENTRY := ChunkedArray(TextType, true, [Encoded([None], [Some(0)])])

  const TEXT_SPEC := ColumnSpec("a", [], StringLogical, true, AllowNulls, AllowChunks, AllowDictionary)

  lemma NullEntryIs()
    ensures WellFormed(NULL_ENTRY)
    ensures Valid(NULL_ENTRY.chunks) == [true] && Rows(NULL_ENTRY.chunks) == [None]
    ensures Decoded(TextType, true, NULL_ENTRY.chunks) == [Missing]
  {
    var chunk := NULL_ENTRY.chunks[0];
    assert NULL_ENTRY.chunks[1..] == [];
    assert DecodedChunk(TextType, chunk) == [Missing] && Validity(chunk) == [true] && ChunkRows(chunk) == [None];
  }

  /** A valid index that points at a null entry: the row is null, and its placeholder stays. */
  lemma PlaceholderCanStay(casts: Casts)
    ensures var table := [Column("a", NULL_ENTRY)];
            && WellFormedTable(table) && Rows(NULL_ENTRY.chunks) == [None]
            && Read(table, [TEXT_SPEC], [Item("a", Text("d"))], casts) == Success([Item("a", [Missing])])
  {
    hide Valid, Rows, Decoded;
    NullEntryIs();
    var table, defaults := [Column("a", NULL_ENTRY)], [Item("a", Text("d"))];
    assert Names(table) == ["a"] && table[0].name == "a";
    OnlyOwnNameMatches(Names(table), TEXT_SPEC);
    assert ReadColumn(table, TEXT_SPEC, casts) == Success(Some([Missing]));
    assert [TEXT_SPEC][..0] == [] && defaults[..0] == [];
    var columns: Columns := [Item("a", [Missing])];
    assert ReadColumns(table, [TEXT_SPEC][..0], casts) == Success([]);
    assert ReadColumns(table, [TEXT_SPEC], casts) == Success(columns);
    assert RestoreFields(table, [TEXT_SPEC], columns, defaults[..0]) == Success(columns);
    assert RestoreField(table, [TEXT_SPEC], columns, "a", Text("d")) == Success(columns);
  }
}
