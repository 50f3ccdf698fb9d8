/**
 * The token list with a cursor that the parser reads (HLang/Token/TokenStream.cs).
 *
 * Every read indexes `Stream[Math.Min(i, Stream.Count)]`, which throws when the
 * index is negative or reaches `Count`; the model returns `None` for that.
 */
module TokenStreams {
  import opened Wrappers
  import opened Tokens

  /** `Stream[Math.Min(i, Count)]`: a token exactly when `0 <= i < Count`. */
  function At(stream: seq<Token>, i: int): (r: Option<Token>)
    ensures r.Some? <==> 0 <= i < |stream|
    ensures r.Some? ==> r.value == stream[i]
  {
    var index := if i < |stream| then i else |stream|;
    if 0 <= index < |stream| then Some(stream[index]) else None
  }

  class TokenStream {
    var stream: seq<Token>
    var currentId: int

    /** An empty stream with the cursor before the first token. */
    constructor()
      ensures stream == [] && currentId == -1
    {
      stream := [];
      currentId := -1;
    }

    /** The token under the cursor; out of range before the first `Next`. */
    function Current(): (r: Option<Token>)
      reads this
      ensures r.Some? <==> 0 <= currentId < |stream|
      ensures r.Some? ==> r.value == stream[currentId]
    {
      At(stream, currentId)
    }

    /** The token `distance` places after the cursor, without moving it. */
    function Peek(distance: int): (r: Option<Token>)
      reads this
      ensures r.Some? <==> 0 <= currentId + distance < |stream|
      ensures r.Some? ==> r.value == stream[currentId + distance]
    {
      At(stream, currentId + distance)
    }

    /** Advances the cursor by one and reads the token there: the one `Peek(1)` showed. */
    method Next() returns (r: Option<Token>)
      modifies this`currentId
      ensures currentId == old(currentId) + 1
      ensures r == old(Peek(1)) && r == Current()
    {
      currentId := currentId + 1;
      r := At(stream, currentId);
    }

    /** Moves the cursor back by exactly one. */
    method Unget()
      modifies this`currentId
      ensures currentId == old(currentId) - 1
    {
      currentId := currentId - 1;
    }

    /** Adds one token at the end; the cursor and the earlier tokens stay as they were. */
    method Append(token: Token)
      modifies this`stream
      ensures stream == old(stream) + [token]
      ensures currentId == old(currentId)
    {
      stream := stream + [token];
    }
  }

  /** `Next`, `Unget`, `Next` reads the same token twice and leaves the cursor one further on. */
  method NextUngetNext(ts: TokenStream) returns (first: Option<Token>, second: Option<Token>)
    modifies ts`currentId
    ensures first == second == old(ts.Peek(1))
    ensures ts.currentId == old(ts.currentId) + 1
  {
    first := ts.Next();
    ts.Unget();
    second := ts.Next();
  }

  /** After `Append`, a token that was readable at any distance still is, and is the same. */
  lemma AppendKeepsReads(stream: seq<Token>, t: Token, i: int)
    requires 0 <= i < |stream|
    ensures At(stream + [t], i) == At(stream, i)
    ensures At(stream + [t], |stream|) == Some(t)
  {
  }
}
