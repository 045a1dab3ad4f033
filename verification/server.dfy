/**
 The operations of the embedding server that do token arithmetic: counting
 tokens, truncating a text to a token budget, cutting a text into chunks of a
 token budget, and the request handler in front of them. The tokenizer is
 handed in as a parameter; nothing here loads or runs a model.
 */
module Server {
  import opened Results
  import opened PySlices
  import opened Tokenizers
  import opened TokenWindows
  import opened Requests

  /** The exception Python raises inside the chunking operation. */
  datatype PyError = ZeroDivisionError

  /** A successful reply, one kind per endpoint. */
  datatype Response =
      /** The validated text handed on to the model's `encode`; the embedding vector itself is not modelled. */
    | Embedding(text: string)
    | NumberOfTokens(count: nat)
    | TruncatedText(text: string)
    | TextInChunks(chunks: seq<string>)

  /** Each window decoded on its own, in window order. */
  function DecodeAll(tok: Tokenizer, windows: seq<seq<TokenId>>): seq<string>
  {
    seq(|windows|, i requires 0 <= i < |windows| => tok.decode(windows[i]))
  }

  /** The number of tokens of a text: how many pieces the tokenizer's `tokenize` mode yields. */
  function NumTokens(tok: Tokenizer, text: string): (count: nat)
    ensures count == |tok.tokenize(text)|
    ensures count == 0 <==> tok.tokenize(text) == []
  {
    |tok.tokenize(text)|
  }

  /** The count depends on `tokenize` alone: swapping the tokenizer's `encode` and `decode` leaves it unchanged. */
  lemma NumTokensIgnoresEncodeAndDecode(
    tok: Tokenizer, text: string,
    encode: string -> seq<TokenId>, decode: seq<TokenId> -> string)
    ensures NumTokens(Tokenizer(encode, tok.tokenize, decode), text) == NumTokens(tok, text)
  {
  }

  /**
   The count uses `tokenize`, not the `encode` that truncation and chunking
   use: a tokenizer that adds special tokens when encoding gives a count that
   differs from the number of encoded tokens.
   */
  lemma CountIsNotEncodedLength()
    ensures exists tok: Tokenizer, text: string ::
      |text| >= 1 && NumTokens(tok, text) != |tok.encode(text)|
  {
    var tok := Tokenizer(s => [101, 7592, 102], s => ["hello"], ids => "hello");
    assert NumTokens(tok, "hello") == 1 && |tok.encode("hello")| == 3;
  }

  /**
   A text of at least one character can count zero tokens: nothing bounds the
   count from below, for a tokenizer that yields no pieces for whitespace.
   */
  lemma CountOfValidTextMayBeZero()
    ensures exists tok: Tokenizer, text: string ::
      |text| >= 1 && NumTokens(tok, text) == 0
  {
    var tok := Tokenizer(s => [101, 102], s => [], ids => "");
    assert NumTokens(tok, " ") == 0;
  }

  /**
   Decodes the first `maxTokens` encoded tokens: the whole text's tokens when
   the budget covers them, and, as Python slicing does, all but the last
   -maxTokens tokens for a negative budget.
   */
  function TruncateText(tok: Tokenizer, text: string, maxTokens: int): (r: string)
    ensures var tokens := tok.encode(text);
      && (0 <= maxTokens ==> r == tok.decode(tokens[..Min(maxTokens, |tokens|)]))
      && (maxTokens >= |tokens| ==> r == tok.decode(tokens))
      && (maxTokens < 0 ==> r == tok.decode(tokens[..if -maxTokens <= |tokens| then |tokens| + maxTokens else 0]))
  {
    var tokens := tok.encode(text);
    assert tokens[..|tokens|] == tokens;
    tok.decode(Truncate(tokens, maxTokens))
  }

  /**
   Cuts the encoded text into windows of `tokenSize` tokens and decodes each.
   A positive size yields one decoded string per window of the reference
   partition, in order; a zero size raises ZeroDivisionError; a negative size
   makes the window count non-positive, so nothing is produced.
   */
  method TextChunksByTokenSize(tok: Tokenizer, text: string, tokenSize: int)
    returns (r: Result<seq<string>, PyError>)
    ensures tokenSize == 0 <==> r.Err?
    ensures tokenSize == 0 ==> r == Err(ZeroDivisionError)
    ensures tokenSize > 0 ==> r == Ok(DecodeAll(tok, Partition(tok.encode(text), tokenSize)))
    ensures tokenSize != 0 ==> r == Ok(DecodeAll(tok, ChunkSlices(tok.encode(text), tokenSize)))
    ensures tokenSize < 0 ==> r == Ok([])
  {
    if tokenSize == 0 {
      return Err(ZeroDivisionError);
    }
    var tokens := tok.encode(text);
    var numTokens := |tokens|;
    var numChunks := NumChunks(numTokens, tokenSize);
    if tokenSize > 0 {
      PartitionCount(tokens, tokenSize);
    }
    var chunkTexts: seq<string> := [];
    var i := 0;
    while i < numChunks
      invariant tokenSize > 0 ==> 0 <= i <= numChunks == |Partition(tokens, tokenSize)|
      invariant tokenSize > 0 ==> chunkTexts == DecodeAll(tok, Partition(tokens, tokenSize)[..i])
      invariant tokenSize < 0 ==> i == 0 && chunkTexts == []
    {
      var chunk := Slice(tokens, i * tokenSize, (i + 1) * tokenSize);
      ChunkSliceIsPartitionWindow(tokens, tokenSize, i);
      var chunkText := tok.decode(chunk);
      chunkTexts := chunkTexts + [chunkText];
      i := i + 1;
    }
    if tokenSize > 0 {
      assert Partition(tokens, tokenSize)[..i] == Partition(tokens, tokenSize);
    }
    ChunkSlicesArePartition(tokens, tokenSize);
    return Ok(chunkTexts);
  }

  /**
   The request handler. A request that breaks a field constraint is answered
   with exactly its field errors, which do not depend on the tokenizer: such a
   request never reaches tokenization. A valid request gets the reply of its
   endpoint.
   */
  method Handle(tok: Tokenizer, req: Request) returns (r: Result<Response, seq<FieldError>>)
    ensures r.Err? <==> !WellFormed(req)
    ensures r.Err? ==> r.error == Validate(req)
    ensures r.Ok? && req.EmbeddingRequest? ==> r.value == Embedding(req.text)
    ensures r.Ok? && req.NumberOfTokensRequest? ==> r.value == NumberOfTokens(|tok.tokenize(req.text)|)
    ensures r.Ok? && req.TruncateRequest? ==>
      var tokens := tok.encode(req.text);
      r.value == TruncatedText(tok.decode(tokens[..Min(req.maxTokens, |tokens|)]))
    ensures r.Ok? && req.TextInTokenSizedChunksRequest? ==>
      r.value == TextInChunks(DecodeAll(tok, Partition(tok.encode(req.text), req.maxTokens)))
  {
    var errs := Validate(req);
    if errs != [] {
      return Err(errs);
    }
    match req
    case EmbeddingRequest(text) =>
      r := Ok(Embedding(text));
    case NumberOfTokensRequest(text) =>
      r := Ok(NumberOfTokens(NumTokens(tok, text)));
    case TruncateRequest(text, maxTokens) =>
      r := Ok(TruncatedText(TruncateText(tok, text, maxTokens)));
    case TextInTokenSizedChunksRequest(text, maxTokens) =>
      var chunks := TextChunksByTokenSize(tok, text, maxTokens);
      r := Ok(TextInChunks(chunks.value));
  }
}
