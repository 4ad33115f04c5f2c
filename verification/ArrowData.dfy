/** Arrow columns: chunks of cells, plain or dictionary encoded. A null cell or index is `None`. */
module ArrowData {
  import opened Wrappers

  datatype ArrowType = IntegerType | FloatType | BooleanType | TextType

  /** What a cell of a decoded array can hold; `Missing` is Python's `None`. */
  datatype Value = Missing | Int(i: int) | Num(r: real) | NaN | Bool(b: bool) | Text(s: string)

  datatype Chunk =
    | Plain(cells: seq<Option<Value>>)
    | Encoded(dictionary: seq<Option<Value>>, indices: seq<Option<nat>>)

  datatype ChunkedArray = ChunkedArray(valueType: ArrowType, dictionary: bool, chunks: seq<Chunk>)

  function ChunkLength(chunk: Chunk): nat {
    if chunk.Plain? then |chunk.cells| else |chunk.indices|
  }

  /** The validity bitmap: for a dictionary chunk it is that of the indices. */
  function Validity(chunk: Chunk): (v: seq<bool>)
    ensures |v| == ChunkLength(chunk)
  {
    match chunk
    case Plain(cells) => seq(|cells|, i requires 0 <= i < |cells| => cells[i].Some?)
    case Encoded(_, indices) => seq(|indices|, i requires 0 <= i < |indices| => indices[i].Some?)
  }

  function Valid(chunks: seq<Chunk>): seq<bool> {
    if chunks == [] then [] else Validity(chunks[0]) + Valid(chunks[1..])
  }

  /** The rows of a chunk as the application means them. */
  function ChunkRows(chunk: Chunk): (rows: seq<Option<Value>>)
    ensures |rows| == ChunkLength(chunk)
  {
    match chunk
    case Plain(cells) => cells
    case Encoded(entries, indices) =>
      seq(|indices|, i requires 0 <= i < |indices| =>
        if indices[i].Some? && indices[i].value < |entries| then entries[indices[i].value] else None)
  }

  function Rows(chunks: seq<Chunk>): seq<Option<Value>> {
    if chunks == [] then [] else ChunkRows(chunks[0]) + Rows(chunks[1..])
  }

  predicate HasNulls(column: ChunkedArray) {
    false in Valid(column.chunks)
  }

  function Length(column: ChunkedArray): nat {
    |Valid(column.chunks)|
  }

  predicate TypedAs(v: Value, t: ArrowType) {
    match t
    case IntegerType => v.Int?
    case FloatType => v.Num? || v.NaN?
    case BooleanType => v.Bool?
    case TextType => v.Text?
  }

  /** Arrow's own invariants: cells have the column's type and valid indices point into the dictionary. */
  ghost predicate WellFormedChunk(chunk: Chunk, t: ArrowType, dictionary: bool) {
    && chunk.Encoded? == dictionary
    && match chunk
       case Plain(cells) =>
         forall i :: 0 <= i < |cells| && cells[i].Some? ==> TypedAs(cells[i].value, t)
       case Encoded(entries, indices) =>
         && (forall i :: 0 <= i < |entries| && entries[i].Some? ==> TypedAs(entries[i].value, t))
         && (forall i :: 0 <= i < |indices| && indices[i].Some? ==> indices[i].value < |entries|)
  }

  ghost predicate WellFormed(column: ChunkedArray) {
    forall k :: 0 <= k < |column.chunks| ==>
                  WellFormedChunk(column.chunks[k], column.valueType, column.dictionary)
  }
}
