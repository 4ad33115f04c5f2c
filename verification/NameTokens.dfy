/**
  The column-name tokeniser. `Tokens` follows the code: split on separators, then scan every chunk
  with a regular expression of four alternatives. `Segments` is the independent reading of the same
  thing: cut the name wherever two neighbouring characters belong to different words.
*/
module NameTokens {
  import opened Sequences
  import opened Text

  // ----- the regular expressions -----

  predicate IsSeparator(c: char) { !IsAlnum(c) }

  ghost predicate AllAlnum(s: string) {
    forall i :: 0 <= i < |s| ==> IsAlnum(s[i])
  }

  /** `re.split(r"[^0-9A-Za-z]+", name)`; the first and last pieces may be empty. */
  function SplitOnSeparators(name: string): seq<string>
    decreases |name|
  {
    if FirstChunk(name) == name then [name]
    else [FirstChunk(name)] + SplitOnSeparators(AfterFirstChunk(name))
  }

  function FirstChunk(name: string): (r: string)
    ensures |r| <= |name| && name[..|r|] == r
    ensures AllAlnum(r)
    ensures |r| < |name| ==> IsSeparator(name[|r|])
  {
    name[..Span(IsAlnum, name)]
  }

  /** What follows the first chunk and the run of separators behind it. */
  function AfterFirstChunk(name: string): (r: string)
    ensures FirstChunk(name) != name ==> |r| < |name|
  {
    var rest := name[|FirstChunk(name)|..];
    rest[Span(IsSeparator, rest)..]
  }

  /** The lookahead `(?=[A-Z][a-z])` at offset `n`. */
  predicate CapitalisedWordAt(s: string, n: nat) {
    n + 1 < |s| && IsUpper(s[n]) && IsLower(s[n + 1])
  }

  /** `[A-Z]+(?=[A-Z][a-z])`: take all capitals, then give them back until the lookahead holds. */
  function AcronymMatch(s: string, n: nat): (m: nat)
    ensures m <= n
  {
    if n == 0 || CapitalisedWordAt(s, n) then n else AcronymMatch(s, n - 1)
  }

  /** `[A-Z]?[a-z]+` */
  function WordMatch(s: string): (m: nat)
    ensures m <= |s|
  {
    if s != "" && IsUpper(s[0]) then
      var lower := Span(IsLower, s[1..]);
      if lower > 0 then 1 + lower else 0
    else Span(IsLower, s)
  }

  /** The length matched at the start of `s` by the first alternative that matches; 0 if none does. */
  function TokenMatch(s: string): (m: nat)
    ensures m <= |s|
  {
    var acronym := AcronymMatch(s, Span(IsUpper, s));
    if acronym > 0 then acronym
    else if WordMatch(s) > 0 then WordMatch(s)
    else if Span(IsUpper, s) > 0 then Span(IsUpper, s)
    else Span(IsDigit, s)
  }

  /** `_TOKEN_RE.findall(chunk)` */
  function FindAll(s: string): seq<string>
    decreases |s|
  {
    if s == "" then []
    else if TokenMatch(s) == 0 then FindAll(s[1..])
    else [s[..TokenMatch(s)]] + FindAll(s[TokenMatch(s)..])
  }

  function LowerAll(parts: seq<string>): seq<string> {
    if parts == [] then [] else [Lower(parts[0])] + LowerAll(parts[1..])
  }

  function ChunkTokens(chunk: string): seq<string> {
    if chunk == "" then []
    else LowerAll(if FindAll(chunk) == [] then [chunk] else FindAll(chunk))
  }

  function TokensOfChunks(chunks: seq<string>): seq<string> {
    if chunks == [] then [] else ChunkTokens(chunks[0]) + TokensOfChunks(chunks[1..])
  }

  function Tokens(name: string): seq<string> {
    TokensOfChunks(SplitOnSeparators(name))
  }

  function CollapsedName(name: string): string {
    Concat(Tokens(name))
  }

  // ----- the reference reading -----

  /** A word ends between `prev` and `c`; `next` is what follows `c`, if anything. */
  predicate Boundary(prev: char, c: char, next: string) {
    || !IsAlnum(c)
    || IsDigit(prev) != IsDigit(c)
    || (IsLower(prev) && IsUpper(c))
    || (IsUpper(prev) && IsUpper(c) && next != "" && IsLower(next[0]))
  }

  predicate BoundaryAt(s: string, k: nat)
    requires 0 < k < |s|
  {
    Boundary(s[k - 1], s[k], s[k + 1..])
  }

  /** The first boundary of `s` after position `k`, or the end of `s`. */
  function NextBoundary(s: string, k: nat): (r: nat)
    requires 0 < k <= |s|
    ensures k <= r <= |s|
    ensures r < |s| ==> BoundaryAt(s, r)
    ensures forall i :: k <= i < r ==> !BoundaryAt(s, i)
    decreases |s| - k
  {
    if k == |s| || BoundaryAt(s, k) then k else NextBoundary(s, k + 1)
  }

  function Segments(s: string): seq<string>
    decreases |s|
  {
    if s == "" then []
    else if IsSeparator(s[0]) then Segments(s[1..])
    else
      var k := NextBoundary(s, 1);
      [s[..k]] + Segments(s[k..])
  }

  lemma NextBoundaryIs(s: string, k: nat)
    requires 0 < k <= |s|
    requires k < |s| ==> BoundaryAt(s, k)
    requires forall i :: 0 < i < k ==> !BoundaryAt(s, i)
    ensures NextBoundary(s, 1) == k
  {
  }

  // ----- the regular expressions cut exactly at the boundaries -----

  lemma {:induction false} AcronymMatchIs(s: string, u: nat)
    requires u == Span(IsUpper, s)
    ensures AcronymMatch(s, u) == if 2 <= u < |s| && IsLower(s[u]) then u - 1 else 0
  {
    if u > 0 {
      assert !CapitalisedWordAt(s, u);
      AcronymBacktrack(s, u, u - 1);
    }
  }

  lemma {:induction false} AcronymBacktrack(s: string, u: nat, n: nat)
    requires u == Span(IsUpper, s) && n < u
    ensures AcronymMatch(s, n) == if n == u - 1 && 0 < n && u < |s| && IsLower(s[u]) then n else 0
  {
    if n > 0 && !(n == u - 1 && u < |s| && IsLower(s[u])) {
      AcronymBacktrack(s, u, n - 1);
    }
  }

  /** Inside the match there is no boundary, and one follows it unless the chunk ends there. */
  lemma TokenMatchIs(chunk: string)
    requires chunk != "" && AllAlnum(chunk)
    ensures var k := TokenMatch(chunk);
            && k > 0
            && (forall i :: 0 < i < k ==> !BoundaryAt(chunk, i))
            && (k < |chunk| ==> BoundaryAt(chunk, k))
  {
    hide AcronymMatch, Span;
    var u := Span(IsUpper, chunk);
    AcronymMatchIs(chunk, u);
    assert IsAlnum(chunk[0]);
    if 2 <= u < |chunk| && IsLower(chunk[u]) {
      assert TokenMatch(chunk) == u - 1;
      assert chunk[u - 1 + 1..][0] == chunk[u];
    } else if WordMatch(chunk) > 0 {
      var k := WordMatch(chunk);
      assert forall i :: 1 <= i < k ==> IsLower(chunk[i]) by {
        if IsUpper(chunk[0]) {
          assert forall i :: 0 <= i < k - 1 ==> IsLower(chunk[1..][i]);
          assert forall i :: 1 <= i < k ==> chunk[i] == chunk[1..][i - 1];
        }
      }
      assert k < |chunk| ==> !IsLower(chunk[k]) && IsLower(chunk[k - 1]);
    } else if u > 0 {
      assert u < |chunk| ==> !IsUpper(chunk[u]) && !IsLower(chunk[u]);
      forall i | 0 < i < u ensures !BoundaryAt(chunk, i) {
        if i + 1 < |chunk| {
          assert chunk[i + 1..][0] == chunk[i + 1];
        }
      }
    }
  }

  lemma TokenMatchIsNextBoundary(chunk: string, rest: string)
    requires chunk != "" && AllAlnum(chunk)
    requires rest == "" || IsSeparator(rest[0])
    ensures NextBoundary(chunk + rest, 1) == TokenMatch(chunk)
  {
    hide TokenMatch;
    var s := chunk + rest;
    TokenMatchIs(chunk);
    forall i | 0 < i < |chunk| ensures BoundaryAt(s, i) == BoundaryAt(chunk, i) {
      assert s[i - 1] == chunk[i - 1] && s[i] == chunk[i];
      if i + 1 < |chunk| {
        assert s[i + 1..][0] == chunk[i + 1..][0];
      } else if rest != "" {
        assert s[i + 1..][0] == rest[0];
      }
    }
    NextBoundaryIs(s, TokenMatch(chunk));
  }

  lemma {:induction false} LowerAllAppend(a: seq<string>, b: seq<string>)
    ensures LowerAll(a + b) == LowerAll(a) + LowerAll(b)
  {
    if a == [] {
      assert a + b == b;
    } else {
      assert (a + b)[1..] == a[1..] + b;
      LowerAllAppend(a[1..], b);
    }
  }

  lemma FirstSegment(chunk: string, rest: string, k: nat)
    requires chunk != "" && AllAlnum(chunk) && 0 < k <= |chunk|
    requires NextBoundary(chunk + rest, 1) == k == TokenMatch(chunk)
    ensures Segments(chunk + rest) == [chunk[..k]] + Segments(chunk[k..] + rest)
    ensures FindAll(chunk) == [chunk[..k]] + FindAll(chunk[k..]) != []
  {
    var s := chunk + rest;
    assert s[0] == chunk[0];
    assert s[..k] == chunk[..k] && s[k..] == chunk[k..] + rest;
  }

  lemma {:induction false} SegmentsOfChunk(chunk: string, rest: string)
    requires AllAlnum(chunk)
    requires rest == "" || IsSeparator(rest[0])
    ensures Segments(chunk + rest) == FindAll(chunk) + Segments(rest)
    decreases |chunk|
  {
    if chunk == "" {
      assert chunk + rest == rest;
    } else {
      TokenMatchIsNextBoundary(chunk, rest);
      var k := TokenMatch(chunk);
      SegmentsOfChunk(chunk[k..], rest);
      FirstSegment(chunk, rest, k);
      AppendAssociates([chunk[..k]], FindAll(chunk[k..]), Segments(rest));
    }
  }

  lemma {:induction false} SegmentsAfterSeparators(s: string)
    ensures Segments(s) == Segments(s[Span(IsSeparator, s)..])
  {
    if s != "" && IsSeparator(s[0]) {
      SegmentsAfterSeparators(s[1..]);
      assert s[1..][Span(IsSeparator, s[1..])..] == s[Span(IsSeparator, s)..];
    }
  }

  lemma ChunkSegments(chunk: string, rest: string)
    requires AllAlnum(chunk) && (rest == "" || IsSeparator(rest[0]))
    ensures LowerAll(Segments(chunk + rest)) == ChunkTokens(chunk) + LowerAll(Segments(rest))
  {
    hide TokenMatch, NextBoundary;
    SegmentsOfChunk(chunk, rest);
    if chunk != "" {
      TokenMatchIsNextBoundary(chunk, rest);
      FirstSegment(chunk, rest, TokenMatch(chunk));
    }
    LowerAllAppend(FindAll(chunk), Segments(rest));
  }

  lemma TokensOfChunksCons(chunk: string, chunks: seq<string>)
    ensures TokensOfChunks([chunk] + chunks) == ChunkTokens(chunk) + TokensOfChunks(chunks)
  {
    assert ([chunk] + chunks)[1..] == chunks;
  }

  lemma {:induction false} TokensOfChunksSnoc(chunks: seq<string>, chunk: string)
    ensures TokensOfChunks(chunks + [chunk]) == TokensOfChunks(chunks) + ChunkTokens(chunk)
  {
    if chunks == [] {
      assert chunks + [chunk] == [chunk] + [];
      TokensOfChunksCons(chunk, []);
    } else {
      assert chunks + [chunk] == [chunks[0]] + (chunks[1..] + [chunk]);
      TokensOfChunksCons(chunks[0], chunks[1..] + [chunk]);
      TokensOfChunksSnoc(chunks[1..], chunk);
      AppendAssociates(ChunkTokens(chunks[0]), TokensOfChunks(chunks[1..]), ChunkTokens(chunk));
    }
  }

  lemma SegmentsOfNothing()
    ensures Segments("") == [] && LowerAll([]) == []
  {
  }

  /** The scan of the code finds exactly the words that the boundaries delimit. */
  lemma {:induction false} TokensAreSegments(name: string)
    ensures Tokens(name) == LowerAll(Segments(name))
    decreases |name|
  {
    hide Segments, LowerAll, ChunkTokens, TokensOfChunks;
    var chunk := FirstChunk(name);
    var rest := name[|chunk|..];
    assert name == chunk + rest;
    ChunkSegments(chunk, rest);
    TokensOfNone();
    if chunk == name {
      TokensOfChunksCons(name, []);
      SegmentsOfNothing();
      assert SplitOnSeparators(name) == [name] + [];
    } else {
      SegmentsAfterSeparators(rest);
      TokensAreSegments(AfterFirstChunk(name));
      TokensOfChunksCons(FirstChunk(name), SplitOnSeparators(AfterFirstChunk(name)));
    }
  }

  // ----- the tokeniser loses nothing -----

  predicate IsWord(w: string) {
    w != "" && ((forall c :: c in w ==> IsLower(c)) || (forall c :: c in w ==> IsDigit(c)))
  }

  ghost predicate AreWords(ws: seq<string>) {
    forall i :: 0 <= i < |ws| ==> IsWord(ws[i])
  }

  lemma {:induction false} SegmentIsOneWord(s: string, k: nat)
    requires s != "" && IsAlnum(s[0]) && 0 < k <= |s|
    requires forall i :: 0 < i < k ==> !BoundaryAt(s, i)
    ensures IsWord(Lower(s[..k])) && forall i :: 0 <= i < k ==> IsAlnum(s[i])
    ensures forall i :: 0 <= i < k ==> IsDigit(s[i]) == IsDigit(s[0])
  {
    if k > 1 {
      SegmentIsOneWord(s, k - 1);
      assert !BoundaryAt(s, k - 1);
    }
    var w := Lower(s[..k]);
    assert w[0] == ToLower(s[0]);
    forall c | c in w ensures if IsDigit(s[0]) then IsDigit(c) else IsLower(c) {
      var i :| 0 <= i < k && w[i] == c;
    }
  }

  lemma {:induction false} SegmentsLoseNothing(s: string)
    ensures Concat(LowerAll(Segments(s))) == Lower(Filter(IsAlnum, s))
    ensures AreWords(LowerAll(Segments(s)))
    decreases |s|
  {
    hide IsWord, BoundaryAt, Lower;
    if s == "" {
    } else if IsSeparator(s[0]) {
      SegmentsLoseNothing(s[1..]);
    } else {
      var k := NextBoundary(s, 1);
      SegmentIsOneWord(s, k);
      SegmentsLoseNothing(s[k..]);
      FilterAppend(IsAlnum, s[..k], s[k..]);
      FilterAll(IsAlnum, s[..k]);
      assert s == s[..k] + s[k..];
      LowerAppend(s[..k], Filter(IsAlnum, s[k..]));
    }
  }

  /**
    Joining the tokens gives back every letter and digit of the name, lower-cased and in order,
    whatever the separators and the casing; and each token is all letters or all digits.
  */
  lemma TokensLoseNothing(name: string)
    ensures CollapsedName(name) == Lower(Filter(IsAlnum, name))
    ensures AreWords(Tokens(name))
  {
    TokensAreSegments(name);
    SegmentsLoseNothing(name);
  }

  // ----- the method -----

  lemma TokensOfNone()
    ensures TokensOfChunks([]) == []
  {
  }

  /** The loop of the code over the chunks of a name. */
  method NameTokens(name: string) returns (tokens: seq<string>)
    ensures tokens == Tokens(name)
  {
    hide TokensOfChunks, ChunkTokens, SplitOnSeparators;
    tokens := [];
    TokensOfNone();
    var chunks := SplitOnSeparators(name);
    for i := 0 to |chunks|
      invariant tokens == TokensOfChunks(chunks[..i])
    {
      TokensOfChunksSnoc(chunks[..i], chunks[i]);
      assert chunks[..i + 1] == chunks[..i] + [chunks[i]];
      tokens := ExtendWithChunk(tokens, chunks[i]);
    }
    assert chunks[..|chunks|] == chunks;
  }

  method ExtendWithChunk(tokens: seq<string>, chunk: string) returns (r: seq<string>)
    ensures r == tokens + ChunkTokens(chunk)
  {
    if chunk == "" {
      return tokens;
    }
    var found := FindAll(chunk);
    r := ExtendLowered(tokens, if found == [] then [chunk] else found);
  }

  method ExtendLowered(tokens: seq<string>, parts: seq<string>) returns (r: seq<string>)
    ensures r == tokens + LowerAll(parts)
  {
    r := tokens;
    for j := 0 to |parts|
      invariant r + LowerAll(parts[j..]) == tokens + LowerAll(parts)
    {
      assert parts[j..][0] == parts[j] && parts[j..][1..] == parts[j + 1..];
      r := r + [Lower(parts[j])];
    }
  }
}
