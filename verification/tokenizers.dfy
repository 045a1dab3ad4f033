/**
 The tokenizer of the loaded embedding model, which this system only calls.
 Its behaviour belongs to a foreign library, so it is represented by three
 arbitrary functions that are handed to every operation that uses it.
 */
module Tokenizers {

  /** An integer token id as produced by the tokenizer's `encode`. */
  type TokenId = int

  /** A sub-word piece as produced by the tokenizer's `tokenize`. */
  type Piece = string

  /**
   `encode` turns text into token ids (special tokens included), `tokenize`
   turns text into sub-word pieces (the mode used for counting), and
   `decode` turns token ids back into text, skipping special tokens.
   */
  datatype Tokenizer = Tokenizer(
    encode: string -> seq<TokenId>,
    tokenize: string -> seq<Piece>,
    decode: seq<TokenId> -> string)
}
