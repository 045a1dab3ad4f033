/**
 The four request bodies the server accepts and the field constraints declared
 on them: every `text` must hold at least one character, and every
 `max_tokens` must be greater than zero.
 */
module Requests {

  datatype Request =
    | EmbeddingRequest(text: string)
    | NumberOfTokensRequest(text: string)
    | TruncateRequest(text: string, maxTokens: int)
    | TextInTokenSizedChunksRequest(text: string, maxTokens: int)
  {
    /** Whether the request body has a `max_tokens` field. */
    predicate HasMaxTokens()
    {
      TruncateRequest? || TextInTokenSizedChunksRequest?
    }
  }

  /** One violated field constraint. */
  datatype FieldError = TextTooShort | MaxTokensNotPositive

  /** The declared constraints: `min_length=1` on text and `gt=0` on max_tokens. */
  predicate WellFormed(req: Request)
  {
    |req.text| >= 1 && (req.HasMaxTokens() ==> req.maxTokens > 0)
  }

  /**
   Checks every field and reports every violation, in field order. The list
   is empty exactly for well-formed requests and names each broken constraint
   once.
   */
  function Validate(req: Request): (errs: seq<FieldError>)
    ensures errs == [] <==> WellFormed(req)
    ensures TextTooShort in errs <==> |req.text| == 0
    ensures MaxTokensNotPositive in errs <==> req.HasMaxTokens() && req.maxTokens <= 0
    ensures |errs| <= 2
    ensures |errs| == 2 ==> errs == [TextTooShort, MaxTokensNotPositive]
  {
    var textErrors := if |req.text| < 1 then [TextTooShort] else [];
    var boundErrors := if req.HasMaxTokens() && !(req.maxTokens > 0) then [MaxTokensNotPositive] else [];
    textErrors + boundErrors
  }
}
