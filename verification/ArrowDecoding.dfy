/**
  Decoding Arrow chunks into arrays of Python objects. The code works on whole vectors: it fills
  nulls with a placeholder, looks everything up, and writes through masks. The meaning is row by row.
*/
module ArrowDecoding {
  import opened Wrappers
  import opened Sequences
  import opened ArrowData

  /**
    `to_numpy(zero_copy_only=False)`: nulls become NaN in numeric arrays, and an integer array that
    has any null becomes an array of floats; elsewhere nulls become `None`.
  */
  function ToNumpy(t: ArrowType, cells: seq<Option<Value>>): (r: seq<Value>)
    ensures |r| == |cells|
  {
    seq(|cells|, i requires 0 <= i < |cells| => NumpyCell(t, t.IntegerType? && None in cells, cells[i]))
  }

  function NumpyCell(t: ArrowType, asFloat: bool, cell: Option<Value>): Value {
    match cell
    case None => if t.IntegerType? || t.FloatType? then NaN else Missing
    case Some(v) => if asFloat && v.Int? then Num(v.i as real) else v
  }

  /** What a row means: a null is `None`. */
  function Meaning(row: Option<Value>): Value {
    match row case None => Missing case Some(v) => v
  }

  function Meanings(rows: seq<Option<Value>>): (r: seq<Value>)
    ensures |r| == |rows|
  {
    seq(|rows|, i requires 0 <= i < |rows| => Meaning(rows[i]))
  }

  // ----- vector operations -----

  function Negated(mask: seq<bool>): (r: seq<bool>)
    ensures |r| == |mask| && forall i :: 0 <= i < |mask| ==> r[i] == !mask[i]
  {
    seq(|mask|, i requires 0 <= i < |mask| => !mask[i])
  }

  /** How many positions before `i` are selected. */
  function Rank(mask: seq<bool>, i: nat): (r: nat)
    requires i <= |mask|
    ensures r <= i
  {
    if i == 0 then 0 else Rank(mask, i - 1) + if mask[i - 1] then 1 else 0
  }

  /** `items[mask]` */
  function Compress<T>(items: seq<T>, mask: seq<bool>): (r: seq<T>)
    requires |items| == |mask|
    ensures |r| == Rank(mask, |mask|)
  {
    if items == [] then [] else
      var n := |items| - 1;
      RankPrefix(mask, n, n);
      Compress(items[..n], mask[..n]) + if mask[n] then [items[n]] else []
  }

  lemma {:induction false} RankPrefix(mask: seq<bool>, n: nat, i: nat)
    requires i <= n <= |mask|
    ensures Rank(mask[..n], i) == Rank(mask, i)
  {
    if i > 0 {
      RankPrefix(mask, n, i - 1);
    }
  }

  lemma {:induction false} RankMonotone(mask: seq<bool>, i: nat, j: nat)
    requires i <= j <= |mask|
    ensures Rank(mask, i) <= Rank(mask, j)
  {
    if i < j {
      RankMonotone(mask, i, j - 1);
    }
  }

  lemma {:induction false} CompressAt<T>(items: seq<T>, mask: seq<bool>, i: nat)
    requires |items| == |mask| && i < |items| && mask[i]
    ensures Rank(mask, i) < Rank(mask, |mask|) && Compress(items, mask)[Rank(mask, i)] == items[i]
  {
    var n := |items| - 1;
    RankPrefix(mask, n, n);
    if i < n {
      CompressAt(items[..n], mask[..n], i);
      RankPrefix(mask, n, i);
    }
  }

  lemma {:induction false} CompressMembers<T>(items: seq<T>, mask: seq<bool>, k: nat)
    requires |items| == |mask| && k < |Compress(items, mask)|
    ensures exists i :: 0 <= i < |items| && mask[i] && items[i] == Compress(items, mask)[k]
  {
    var n := |items| - 1;
    if k < |Compress(items[..n], mask[..n])| {
      CompressMembers(items[..n], mask[..n], k);
      var i :| 0 <= i < n && mask[..n][i] && items[..n][i] == Compress(items[..n], mask[..n])[k];
      assert mask[i] && items[i] == Compress(items, mask)[k];
    } else {
      assert mask[n];
    }
  }

  /** `values[mask] = items` */
  method PutWhere(values: array<Value>, mask: seq<bool>, items: seq<Value>)
    requires |mask| == values.Length && |items| == Rank(mask, |mask|)
    modifies values
    ensures forall i :: 0 <= i < values.Length ==>
              values[i] == if mask[i]
                           then (RankMonotone(mask, i + 1, |mask|); items[Rank(mask, i)])
                           else old(values[i])
  {
    var next := 0;
    for i := 0 to values.Length
      invariant next == Rank(mask, i)
      invariant forall k :: 0 <= k < i ==>
                  values[k] == if mask[k]
                               then (RankMonotone(mask, k + 1, |mask|); items[Rank(mask, k)])
                               else old(values[k])
      invariant forall k :: i <= k < values.Length ==> values[k] == old(values[k])
    {
      if mask[i] {
        RankMonotone(mask, i + 1, |mask|);
        values[i] := items[next];
        next := next + 1;
      }
    }
  }

  /** `values[mask] = value` */
  method FillWhere(values: array<Value>, mask: seq<bool>, value: Value)
    requires |mask| == values.Length
    modifies values
    ensures forall i :: 0 <= i < values.Length ==> values[i] == if mask[i] then value else old(values[i])
  {
    for i := 0 to values.Length
      invariant forall k :: 0 <= k < i ==> values[k] == if mask[k] then value else old(values[k])
      invariant forall k :: i <= k < values.Length ==> values[k] == old(values[k])
    {
      if mask[i] {
        values[i] := value;
      }
    }
  }

  /** `np.asarray(values).copy()` */
  method ArrayOf(values: seq<Value>) returns (a: array<Value>)
    ensures fresh(a) && a[..] == values
  {
    a := new Value[|values|](i requires 0 <= i < |values| => values[i]);
  }

  // ----- decoding -----

  /** Row by row: a null index gives the null value, any other its dictionary entry. */
  function DecodedDictionary(t: ArrowType, dictionary: seq<Option<Value>>, indices: seq<Option<nat>>, nullValue: Value)
    : (r: seq<Value>)
    requires forall i :: 0 <= i < |indices| && indices[i].Some? ==> indices[i].value < |dictionary|
    ensures |r| == |indices|
  {
    seq(|indices|, i requires 0 <= i < |indices| =>
      if indices[i].Some? then ToNumpy(t, dictionary)[indices[i].value] else nullValue)
  }

  /**
    Fills null indices with 0, which may point nowhere if the dictionary is empty, but looks up only
    the valid ones.
  */
  method DictionaryArrayToObjectArray(t: ArrowType, chunk: Chunk, nullValue: Value) returns (values: array<Value>)
    requires chunk.Encoded? && WellFormedChunk(chunk, t, true)
    ensures fresh(values)
    ensures values[..] == DecodedDictionary(t, chunk.dictionary, chunk.indices, nullValue)
  {
    var n := |chunk.indices|;
    if n == 0 {
      values := new Value[0];
      return;
    }
    var dictionary := ToNumpy(t, chunk.dictionary);
    var filled := seq(n, i requires 0 <= i < n => if chunk.indices[i].Some? then chunk.indices[i].value else 0);
    var valid := Validity(chunk);
    values := new Value[n](_ => Missing);
    var picked := Compress(filled, valid);
    forall k | 0 <= k < |picked| ensures picked[k] < |dictionary| {
      CompressMembers(filled, valid, k);
    }
    var looked := seq(|picked|, k requires 0 <= k < |picked| => dictionary[picked[k]]);
    PutWhere(values, valid, looked);
    FillWhere(values, Negated(valid), nullValue);
    forall i | 0 <= i < n && valid[i] ensures values[i] == dictionary[filled[i]] {
      CompressAt(filled, valid, i);
    }
  }

  function DecodedCells(cells: seq<Option<Value>>, nullValue: Value): (r: seq<Value>)
    ensures |r| == |cells|
  {
    seq(|cells|, i requires 0 <= i < |cells| => if cells[i].Some? then cells[i].value else nullValue)
  }

  method IntegerArrayToObjectArray(cells: seq<Option<Value>>, nullValue: Value) returns (values: array<Value>)
    requires WellFormedChunk(Plain(cells), IntegerType, false)
    ensures fresh(values) && values[..] == DecodedCells(cells, nullValue)
  {
    var filled := seq(|cells|, i requires 0 <= i < |cells| => if cells[i].Some? then cells[i] else Some(Int(0)));
    assert None !in filled;
    values := ArrayOf(ToNumpy(IntegerType, filled));
    var valid := Validity(Plain(cells));
    ghost var before := values[..];
    forall i | 0 <= i < |cells| ensures valid[i] ==> before[i] == cells[i].value {
      assert before[i] == NumpyCell(IntegerType, false, filled[i]);
    }
    if false in valid {
      FillWhere(values, Negated(valid), nullValue);
    } else {
      assert forall i :: 0 <= i < |cells| ==> valid[i];
    }
    assert forall i :: 0 <= i < |cells| ==> values[i] == if valid[i] then before[i] else nullValue;
  }

  ghost predicate Decodes(values: seq<Value>, t: ArrowType, chunk: Chunk, nullValue: Value)
    requires WellFormedChunk(chunk, t, chunk.Encoded?)
  {
    values == match chunk
              case Plain(cells) => DecodedCells(cells, nullValue)
              case Encoded(dictionary, indices) => DecodedDictionary(t, dictionary, indices, nullValue)
  }

  method ObjectArrayFromArrowArray(t: ArrowType, chunk: Chunk, nullValue: Value) returns (values: array<Value>)
    requires WellFormedChunk(chunk, t, chunk.Encoded?)
    ensures fresh(values) && Decodes(values[..], t, chunk, nullValue)
  {
    if ChunkLength(chunk) == 0 {
      values := new Value[0];
      return;
    }
    if chunk.Encoded? {
      values := DictionaryArrayToObjectArray(t, chunk, nullValue);
      return;
    }
    if t.IntegerType? {
      values := IntegerArrayToObjectArray(chunk.cells, nullValue);
      return;
    }
    values := ArrayOf(ToNumpy(t, chunk.cells));
    var valid := Validity(chunk);
    ghost var before := values[..];
    forall i | 0 <= i < |chunk.cells| ensures valid[i] ==> before[i] == chunk.cells[i].value {
      assert before[i] == NumpyCell(t, false, chunk.cells[i]);
    }
    if false in valid {
      FillWhere(values, Negated(valid), nullValue);
    } else {
      assert forall i :: 0 <= i < |chunk.cells| ==> valid[i];
    }
    assert forall i :: 0 <= i < |chunk.cells| ==> values[i] == if valid[i] then before[i] else nullValue;
  }

  function DecodedChunk(t: ArrowType, chunk: Chunk): (r: seq<Value>)
    requires WellFormedChunk(chunk, t, chunk.Encoded?)
    ensures |r| == ChunkLength(chunk)
  {
    match chunk
    case Plain(cells) => DecodedCells(cells, Missing)
    case Encoded(dictionary, indices) => DecodedDictionary(t, dictionary, indices, Missing)
  }

  function Decoded(t: ArrowType, dictionary: bool, chunks: seq<Chunk>): seq<Value>
    requires forall k :: 0 <= k < |chunks| ==> WellFormedChunk(chunks[k], t, dictionary)
  {
    if chunks == [] then [] else
      assert WellFormedChunk(chunks[0], t, dictionary);
      DecodedChunk(t, chunks[0]) + Decoded(t, dictionary, chunks[1..])
  }

  /** Decodes every chunk with its own dictionary and concatenates. */
  method ArrowObjectArray(column: ChunkedArray) returns (values: seq<Value>)
    requires WellFormed(column)
    ensures values == Decoded(column.valueType, column.dictionary, column.chunks)
  {
    values := [];
    var t, d, chunks := column.valueType, column.dictionary, column.chunks;
    for k := 0 to |chunks|
      invariant values == Decoded(t, d, chunks[..k])
    {
      var decoded := ObjectArrayFromArrowArray(t, chunks[k], Missing);
      DecodedSnoc(t, d, chunks[..k], chunks[k]);
      assert chunks[..k + 1] == chunks[..k] + [chunks[k]];
      values := values + decoded[..];
    }
    assert chunks[..|chunks|] == chunks;
  }

  lemma {:induction false} DecodedSnoc(t: ArrowType, dictionary: bool, chunks: seq<Chunk>, chunk: Chunk)
    requires forall k :: 0 <= k < |chunks| ==> WellFormedChunk(chunks[k], t, dictionary)
    requires WellFormedChunk(chunk, t, dictionary)
    ensures Decoded(t, dictionary, chunks + [chunk]) == Decoded(t, dictionary, chunks) + DecodedChunk(t, chunk)
  {
    if chunks == [] {
      assert chunks + [chunk] == [chunk];
      assert Decoded(t, dictionary, [chunk]) == DecodedChunk(t, chunk) + [];
    } else {
      assert (chunks + [chunk])[1..] == chunks[1..] + [chunk];
      DecodedSnoc(t, dictionary, chunks[1..], chunk);
      AppendAssociates(DecodedChunk(t, chunks[0]), Decoded(t, dictionary, chunks[1..]), DecodedChunk(t, chunk));
    }
  }

  // ----- when decoding gives the logical rows -----

  /** Valid rows of a chunk point at a null entry of its dictionary. */
  ghost predicate PointsAtNull(chunk: Chunk) {
    chunk.Encoded? &&
    exists i :: && 0 <= i < |chunk.indices| && chunk.indices[i].Some?
                && chunk.indices[i].value < |chunk.dictionary| && chunk.dictionary[chunk.indices[i].value].None?
  }

  /**
    Nulls inside a dictionary are harmless for text and booleans. In a float dictionary they must not
    be pointed at; in an integer dictionary one of them turns all entries into floats, so then there
    must be no valid row at all.
  */
  ghost predicate Faithful(t: ArrowType, chunk: Chunk) {
    chunk.Encoded? ==>
      match t
      case TextType => true
      case BooleanType => true
      case FloatType => !PointsAtNull(chunk)
      case IntegerType => None !in chunk.dictionary || forall i :: 0 <= i < |chunk.indices| ==> chunk.indices[i].None?
  }

  lemma DecodedChunkIffFaithful(t: ArrowType, chunk: Chunk)
    requires WellFormedChunk(chunk, t, chunk.Encoded?)
    ensures DecodedChunk(t, chunk) == Meanings(ChunkRows(chunk)) <==> Faithful(t, chunk)
  {
    var decoded, meant := DecodedChunk(t, chunk), Meanings(ChunkRows(chunk));
    if chunk.Plain? {
      assert decoded == meant;
    } else if Faithful(t, chunk) {
      forall i | 0 <= i < |decoded| ensures decoded[i] == meant[i] {
        if chunk.indices[i].Some? {
          var entry := chunk.dictionary[chunk.indices[i].value];
          if entry.None? {
            assert None in chunk.dictionary;
          }
        }
      }
    } else if t.FloatType? {
      var i :| && 0 <= i < |chunk.indices| && chunk.indices[i].Some?
               && chunk.indices[i].value < |chunk.dictionary| && chunk.dictionary[chunk.indices[i].value].None?;
      assert decoded[i] == NaN && meant[i] == Missing;
    } else {
      var i :| 0 <= i < |chunk.indices| && chunk.indices[i].Some?;
      assert decoded[i] == NumpyCell(t, true, chunk.dictionary[chunk.indices[i].value]);
      assert decoded[i] != meant[i];
    }
  }

  /** Decoding a column gives the meaning of its rows exactly when every chunk is faithful. */
  lemma {:induction false} DecodedIffFaithful(t: ArrowType, dictionary: bool, chunks: seq<Chunk>)
    requires forall k :: 0 <= k < |chunks| ==> WellFormedChunk(chunks[k], t, dictionary)
    ensures Decoded(t, dictionary, chunks) == Meanings(Rows(chunks)) <==>
              forall k :: 0 <= k < |chunks| ==> Faithful(t, chunks[k])
  {
    if chunks != [] {
      var first, rest := chunks[0], chunks[1..];
      assert WellFormedChunk(first, t, dictionary);
      DecodedChunkIffFaithful(t, first);
      DecodedIffFaithful(t, dictionary, rest);
      MeaningsAppend(ChunkRows(first), Rows(rest));
      AppendsEqual(DecodedChunk(t, first), Decoded(t, dictionary, rest),
                   Meanings(ChunkRows(first)), Meanings(Rows(rest)));
      assert chunks == [first] + rest;
    }
  }

  lemma MeaningsAppend(a: seq<Option<Value>>, b: seq<Option<Value>>)
    ensures Meanings(a + b) == Meanings(a) + Meanings(b)
  {
  }

  lemma AppendsEqual<T>(a: seq<T>, b: seq<T>, c: seq<T>, d: seq<T>)
    requires |a| == |c|
    ensures a + b == c + d <==> a == c && b == d
  {
    assert (a + b)[..|a|] == a && (a + b)[|a|..] == b;
    assert (c + d)[..|c|] == c && (c + d)[|c|..] == d;
  }

  /**
    Chunking is invisible: two columns with the same logical rows, chunked and encoded in any way,
    decode to the same array, provided their dictionaries are faithful.
  */
  lemma ChunkingIsInvisible(a: ChunkedArray, b: ChunkedArray)
    requires WellFormed(a) && WellFormed(b) && Rows(a.chunks) == Rows(b.chunks)
    requires forall k :: 0 <= k < |a.chunks| ==> Faithful(a.valueType, a.chunks[k])
    requires forall k :: 0 <= k < |b.chunks| ==> Faithful(b.valueType, b.chunks[k])
    ensures Decoded(a.valueType, a.dictionary, a.chunks) == Decoded(b.valueType, b.dictionary, b.chunks)
  {
    DecodedIffFaithful(a.valueType, a.dictionary, a.chunks);
    DecodedIffFaithful(b.valueType, b.dictionary, b.chunks);
  }

  /** A null in an integer dictionary is not faithful: the same two rows, plain and encoded, decode differently. */
  lemma NullInIntegerDictionary()
    ensures var plain := [Plain([Some(Int(1)), None])];
            var encoded := [Encoded([Some(Int(1)), None], [Some(0), Some(1)])];
            && Rows(plain) == Rows(encoded)
            && Decoded(IntegerType, false, plain) == [Int(1), Missing]
            && Decoded(IntegerType, true, encoded) == [Num(1.0), NaN]
  {
    var plain := [Plain([Some(Int(1)), None])];
    var encoded := [Encoded([Some(Int(1)), None], [Some(0), Some(1)])];
    assert Rows(plain) == ChunkRows(plain[0]) == Rows(encoded);
    assert None in encoded[0].dictionary;
    assert Decoded(IntegerType, false, plain) == DecodedChunk(IntegerType, plain[0]) + [];
    assert Decoded(IntegerType, true, encoded) == DecodedChunk(IntegerType, encoded[0]) + [];
  }
}
