# Token windows of the embedding server

A Dafny model of the token arithmetic in an HTTP server that wraps a
pretrained sentence-embedding model (`intfloat/e5-large-v2`). The server
counts the tokens of a text, truncates a text to a token budget, and cuts a
text into chunks of at most a token budget. Every text endpoint first checks
the request body: `text` needs at least one character, and `max_tokens` must
be greater than zero.

The tokenizer belongs to a foreign library. Here it is a `Tokenizer` value
holding three arbitrary functions, and every operation takes it as a
parameter:

- `encode`: text to token ids. Truncation and chunking use it.
- `tokenize`: text to sub-word pieces. Token counting uses it.
- `decode`: token ids to text, skipping special tokens.

Every property is proved at the token level, before decoding. The decoded
output is `decode` applied to each token window.

Modules:

- `Results`: the `Result` type.
- `PySlices`: Python's `s[start:stop]`, including negative bounds and clamping.
- `Tokenizers`: the tokenizer seam.
- `TokenWindows`: the pure token arithmetic.
  - Python's `math.ceil(n / k)`.
  - Truncation.
  - The reference partition `Partition`, which takes k tokens and then partitions the rest.
  - The index-based slicing the server's loop performs.
- `Requests`: the four request bodies and their field constraints.
- `Server`: token counting, `TruncateText`, the chunking loop as a method with loop invariants, and the request handler.

Three behaviours of the code are worth stating plainly:

- A text of at least one character may count zero tokens. `num_tokens_from_string` returns the length of `tokenize`'s output, and nothing bounds that from below (`Server.CountOfValidTextMayBeZero`).
- `text_chunks_by_token_size` accepts any integer size, not only a positive one:
  - a size of 0 raises `ZeroDivisionError` in `math.ceil(num_tokens / token_size)`;
  - a negative size makes that ceiling non-positive, so the loop never runs and the result is empty.

  Only the chunks endpoint's `gt=0` constraint keeps these sizes out (`Server.TextChunksByTokenSize`).
- `truncate_text_to_max_tokens` returns `decode` of the retained tokens. When the budget covers every token, that is `decode(encode(text))`, which need not equal `text`. The model does not equate the two (`Server.TruncateText`).

## Model

| member | source | states |
|---|---|---|
| PySlices.Slice | server.py:92 | Python's slice with step 1: negative bounds count from the end, bounds are clamped to the list, and the result's length and elements are given for every pair of bounds |
| PySlices.SliceOfNonNegative | server.py:92 | for non-negative bounds, the Python slice is the subsequence between the two bounds clamped to the length |
| TokenWindows.NumChunks | server.py:88-89 | the chunk count is Python's ceiling of N / k. For k > 0 it is the least m with m*k >= N, and 0 exactly when N is 0. For k < 0 it is not positive |
| TokenWindows.CeilDivIsLeastCover | server.py:89 | the integer ceiling (N + k - 1) / k covers N with no spare window: m*k >= N, (m-1)*k < N when N > 0, and m = 0 iff N = 0 |
| TokenWindows.Truncate | server.py:80 | `tokens[:max_tokens]` is the prefix of length min(max_tokens, N) for a non-negative bound; a negative bound drops that many tokens from the end |
| TokenWindows.TruncateKeepsShortSequence | server.py:80 | a bound at least N keeps the whole token sequence |
| TokenWindows.TruncateIdempotent | server.py:80 | re-truncating the retained tokens with the same or a larger bound changes nothing |
| TokenWindows.PartitionWindowSizes | server.py:89-92 | in the reference partition no window is empty, none has more than k tokens, and every window but the last has exactly k |
| TokenWindows.PartitionRejoins | server.py:89-92 | concatenating the windows in order gives back the token sequence, so nothing is lost, duplicated or reordered |
| TokenWindows.PartitionCount | server.py:88-91 | there are exactly ceil(N / k) windows |
| TokenWindows.PartitionAt | server.py:91-92 | window i is `tokens[i*k .. min((i+1)*k, N)]` and starts inside the sequence |
| TokenWindows.LastChunkLength | server.py:92 | for N > 0, the last of the m windows holds N - (m-1)*k tokens, which lies between 1 and k |
| TokenWindows.FirstChunkIsTruncation | server.py:79-92 | for N > 0, the first chunk window equals the truncation of the same tokens to k |
| TokenWindows.ChunkSliceIsPartitionWindow | server.py:92 | the loop's slice `tokens[i*k:(i+1)*k]` is window i of the reference partition |
| TokenWindows.ChunkSlicesArePartition | server.py:88-92 | the slices taken for i in range(ceil(N / k)) are the reference partition when k > 0, and there are none when k < 0 |
| Server.TruncateText | server.py:77-82 | the truncated text decodes the first min(max_tokens, N) encoded tokens. It decodes all of them when the budget covers N. A negative budget drops tokens from the end |
| Server.TextChunksByTokenSize | server.py:85-95 | for a positive size the result has one decoded string per partition window, in window order. For any non-zero size it is the decoded loop slices `tokens[i*k:(i+1)*k]` for i in range(ceil(N / k)). A size of 0 raises ZeroDivisionError. A negative size yields no chunks |
| Server.NumTokens | server.py:98-102 | the count is the number of pieces `tokenize` yields (a nat), and it is 0 exactly when `tokenize` yields none; `Server.Handle` reports this count for a valid request |
| Server.NumTokensIgnoresEncodeAndDecode | server.py:98-102 | for every tokenizer and text, the count depends on `tokenize` alone: replacing `encode` and `decode` leaves it unchanged |
| Server.CountIsNotEncodedLength | server.py:98-102 | the token count comes from `tokenize`, not `encode`: some tokenizer and valid text give a count different from the number of encoded tokens |
| Server.CountOfValidTextMayBeZero | server.py:98-102 | a valid one-character text may count zero tokens, because the count is whatever `tokenize` yields |
| Requests.Validate | server.py:13-34 | a request has no field errors exactly when its text has at least one character and, where present, max_tokens > 0. Each broken constraint is reported once, in field order |
| Server.Handle | server.py:47-68 | an invalid request is answered with exactly its field errors, which do not depend on the tokenizer, so it never reaches tokenization. A valid request gets its endpoint's reply |

## Left out

- Model loading and the global model instance (server.py:8-10): process start-up and a foreign library. The tokenizer is a parameter instead.
- The embedding itself (`get_embedding`, server.py:71-74): floating-point inference in a foreign library.
- Server.Handle: for the encode endpoint, the reply carries the validated text handed to the model rather than the embedding vector, because inference is not modelled.
- The `/info` reply (server.py:37-44): three constants, with no logic.
- FastAPI routing, JSON parsing and response shaping: transport glue. Pydantic's coercion of JSON values to `str` and `int` is left out too. Requests arrive already typed, and only the declared field constraints are modelled.
- The behaviour of `encode`, `tokenize` and `decode`, including special-token skipping and text normalisation: a foreign library, so these are arbitrary functions.
- TokenWindows.NumChunks: uses exact integer ceiling, not the float division of server.py:89. The two agree for any realistic token count, but not for counts large enough to be rounded as doubles.
- The default arguments `max_tokens=512` and `token_size=512` (server.py:77, 85): no caller relies on them, because every endpoint passes its validated field.
- demo_client.py: an HTTP client with logging and no logic of its own.
