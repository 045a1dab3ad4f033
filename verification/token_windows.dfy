/**
 The token-window arithmetic of the server, on token ids before any decoding:
 keeping a bounded prefix (truncation) and cutting a token sequence into
 contiguous windows of at most `k` tokens (chunking).
 */
module TokenWindows {
  import opened PySlices
  import opened Tokenizers

  function Min(a: int, b: int): int
  {
    if a <= b then a else b
  }

  /** The windows joined back together, in order. */
  function Concat<T>(ss: seq<seq<T>>): seq<T>
  {
    if |ss| == 0 then [] else ss[0] + Concat(ss[1..])
  }

  // ---------------------------------------------------------------------------
  // Division facts
  // ---------------------------------------------------------------------------

  /** Euclidean division is determined by the interval its dividend falls in. */
  lemma DivIsUnique(x: int, k: int, q: int)
    requires k > 0
    requires q * k <= x < q * k + k
    ensures x / k == q
  {
    var d := x / k;
    assert d * k <= x < d * k + k;
    if d > q {
      MulMonotone(q + 1, d, k);
      MulSucc(q, k);
    } else if d < q {
      MulMonotone(d + 1, q, k);
      MulSucc(d, k);
    }
  }

  /** Multiplying by a non-negative factor keeps the order. */
  lemma MulMonotone(a: int, b: int, k: int)
    requires a <= b && 0 <= k
    ensures a * k <= b * k
  {
    assert b * k - a * k == (b - a) * k;
  }

  /** One more window of k tokens starts k tokens later. */
  lemma MulSucc(i: int, k: int)
    ensures (i + 1) * k == i * k + k
    ensures (i - 1) * k == i * k - k
  {
  }

  /** The number of windows of `k` tokens needed to hold `n` tokens: the ceiling of n / k. */
  function CeilDiv(n: nat, k: nat): nat
    requires k > 0
  {
    (n + k - 1) / k
  }

  /** CeilDiv(n, k) is the least count of k-windows that covers n: m * k >= n > (m - 1) * k. */
  lemma CeilDivIsLeastCover(n: nat, k: nat)
    requires k > 0
    ensures var m := CeilDiv(n, k);
            m * k >= n && (n == 0 <==> m == 0) && (n > 0 ==> (m - 1) * k < n)
  {
    var m := CeilDiv(n, k);
    var x := n + k - 1;
    assert x == m * k + x % k && 0 <= x % k < k;
    if n == 0 {
      DivIsUnique(x, k, 0);
    } else {
      assert (m - 1) * k == m * k - k;
    }
  }

  /** Peeling one full window off n > k tokens leaves one window fewer. */
  lemma CeilDivStep(n: nat, k: nat)
    requires 0 < k < n
    ensures CeilDiv(n, k) == 1 + CeilDiv(n - k, k)
  {
    var q := CeilDiv(n - k, k);
    var x := n - k + k - 1;
    assert q * k <= x < q * k + k;
    DivIsUnique(x + k, k, q + 1);
  }

  /** Between 1 and k tokens fill exactly one window. */
  lemma CeilDivOne(n: nat, k: nat)
    requires 0 < n <= k
    ensures CeilDiv(n, k) == 1
  {
    DivIsUnique(n + k - 1, k, 1);
  }

  /**
   Python's `math.ceil(n / k)` for a non-zero integer k. For k < 0 the
   quotient is not positive, so its ceiling is minus the floor of n / -k.
   */
  function NumChunks(n: nat, k: int): (m: int)
    requires k != 0
    ensures k > 0 ==> m >= 0 && m * k >= n && (n == 0 <==> m == 0) && (n > 0 ==> (m - 1) * k < n)
    ensures k < 0 ==> m <= 0
  {
    if k > 0 then
      CeilDivIsLeastCover(n, k);
      CeilDiv(n, k)
    else
      -(n / -k)
  }

  // ---------------------------------------------------------------------------
  // Truncation
  // ---------------------------------------------------------------------------

  /**
   `tokens[:maxTokens]`: for a non-negative bound the first min(maxTokens, N)
   tokens; a negative bound drops that many tokens from the end.
   */
  function Truncate(tokens: seq<TokenId>, maxTokens: int): (r: seq<TokenId>)
    ensures 0 <= maxTokens ==> r == tokens[..Min(maxTokens, |tokens|)]
    ensures maxTokens < 0 ==> r == tokens[..if -maxTokens <= |tokens| then |tokens| + maxTokens else 0]
  {
    SliceTo(tokens, maxTokens)
  }

  /** A bound at least as long as the sequence keeps every token. */
  lemma TruncateKeepsShortSequence(tokens: seq<TokenId>, maxTokens: int)
    requires maxTokens >= |tokens|
    ensures Truncate(tokens, maxTokens) == tokens
  {
  }

  /** Truncating what a truncation retained, with the same or a larger bound, changes nothing. */
  lemma TruncateIdempotent(tokens: seq<TokenId>, maxTokens: int, again: int)
    requires 0 <= maxTokens <= again
    ensures Truncate(Truncate(tokens, maxTokens), again) == Truncate(tokens, maxTokens)
  {
  }

  // ---------------------------------------------------------------------------
  // Chunking
  // ---------------------------------------------------------------------------

  /**
   The reference partition of a token sequence into windows of k tokens:
   take the first k tokens (or all that remain) and partition the rest.
   */
  function Partition(tokens: seq<TokenId>, k: nat): seq<seq<TokenId>>
    requires k > 0
    decreases |tokens|
  {
    if |tokens| == 0 then
      []
    else if |tokens| <= k then
      [tokens]
    else
      [tokens[..k]] + Partition(tokens[k..], k)
  }

  /** No window is empty, none is longer than k, and all but the last hold exactly k tokens. */
  lemma {:induction false} PartitionWindowSizes(tokens: seq<TokenId>, k: nat)
    requires k > 0
    ensures forall i :: 0 <= i < |Partition(tokens, k)| ==> 0 < |Partition(tokens, k)[i]| <= k
    ensures forall i :: 0 <= i < |Partition(tokens, k)| - 1 ==> |Partition(tokens, k)[i]| == k
    decreases |tokens|
  {
    if |tokens| > k {
      var r, rest := Partition(tokens, k), Partition(tokens[k..], k);
      PartitionWindowSizes(tokens[k..], k);
      assert r == [tokens[..k]] + rest;
      forall i | 0 < i < |r|
        ensures r[i] == rest[i - 1]
      {
      }
    }
  }

  /** Joining the windows in order gives back the token sequence: no token is lost, duplicated or moved. */
  lemma {:induction false} PartitionRejoins(tokens: seq<TokenId>, k: nat)
    requires k > 0
    ensures Concat(Partition(tokens, k)) == tokens
    decreases |tokens|
  {
    var r := Partition(tokens, k);
    if |tokens| == 0 {
    } else if |tokens| <= k {
      assert Concat(r) == tokens + Concat(r[1..]);
    } else {
      PartitionRejoins(tokens[k..], k);
      assert r[1..] == Partition(tokens[k..], k);
      assert tokens == tokens[..k] + tokens[k..];
    }
  }

  /** There are ceil(N / k) windows. */
  lemma {:induction false} PartitionCount(tokens: seq<TokenId>, k: nat)
    requires k > 0
    ensures |Partition(tokens, k)| == CeilDiv(|tokens|, k)
    decreases |tokens|
  {
    if |tokens| == 0 {
      DivIsUnique(k - 1, k, 0);
    } else if |tokens| <= k {
      CeilDivOne(|tokens|, k);
    } else {
      PartitionCount(tokens[k..], k);
      CeilDivStep(|tokens|, k);
    }
  }

  /** The partition of a non-empty sequence starts with its first window and continues with the partition of what follows it. */
  lemma PartitionUnfold(tokens: seq<TokenId>, k: nat)
    requires k > 0 && |tokens| > 0
    ensures |Partition(tokens, k)| > 0
    ensures Partition(tokens, k)[0] == tokens[..Min(k, |tokens|)]
    ensures |tokens| <= k ==> |Partition(tokens, k)| == 1
    ensures |tokens| > k ==> Partition(tokens, k)[1..] == Partition(tokens[k..], k)
  {
  }

  /** Where window i starts, counted window by window. */
  function Offset(i: nat, k: nat): nat
  {
    if i == 0 then 0 else k + Offset(i - 1, k)
  }

  /** Window i starts at i * k. */
  lemma {:induction false} OffsetIsProduct(i: nat, k: nat)
    ensures Offset(i, k) == i * k
  {
    if i > 0 {
      OffsetIsProduct(i - 1, k);
      MulSucc(i, k);
    }
  }

  /** Dropping the first i windows leaves the partition of the tokens after them. */
  lemma {:induction false} PartitionDrop(tokens: seq<TokenId>, k: nat, i: nat)
    requires k > 0
    requires i < |Partition(tokens, k)|
    ensures Offset(i, k) < |tokens|
    ensures Partition(tokens, k)[i..] == Partition(tokens[Offset(i, k)..], k)
    decreases i
  {
    PartitionUnfold(tokens, k);
    if i > 0 {
      assert |tokens| > k;
      var rest := tokens[k..];
      PartitionDrop(rest, k, i - 1);
      assert Partition(tokens, k)[i..] == Partition(rest, k)[i - 1..];
      assert rest[Offset(i - 1, k)..] == tokens[Offset(i, k)..];
    }
  }

  /** The first window of a non-empty suffix, in positions of the whole sequence. */
  lemma FirstWindowOfSuffix(tokens: seq<TokenId>, k: nat, o: nat)
    requires k > 0 && o < |tokens|
    ensures |Partition(tokens[o..], k)| > 0
    ensures Partition(tokens[o..], k)[0] == tokens[o .. Min(o + k, |tokens|)]
  {
    var suffix := tokens[o..];
    PartitionUnfold(suffix, k);
    assert suffix[..Min(k, |suffix|)] == tokens[o .. Min(o + k, |tokens|)];
  }

  /** Window i spans k tokens from its offset, or up to the end of the sequence. */
  lemma PartitionAtOffset(tokens: seq<TokenId>, k: nat, i: nat)
    requires k > 0
    requires i < |Partition(tokens, k)|
    ensures Offset(i, k) < |tokens|
    ensures Partition(tokens, k)[i] == tokens[Offset(i, k) .. Min(Offset(i, k) + k, |tokens|)]
  {
    PartitionDrop(tokens, k, i);
    FirstWindowOfSuffix(tokens, k, Offset(i, k));
    assert Partition(tokens, k)[i] == Partition(tokens, k)[i..][0];
  }

  /** Window i of the partition is `tokens[i*k .. min((i+1)*k, N)]`. */
  lemma PartitionAt(tokens: seq<TokenId>, k: nat, i: nat)
    requires k > 0
    requires i < |Partition(tokens, k)|
    ensures i * k < |tokens|
    ensures i * k <= (i + 1) * k
    ensures Partition(tokens, k)[i] == tokens[i * k .. Min((i + 1) * k, |tokens|)]
  {
    PartitionAtOffset(tokens, k, i);
    OffsetIsProduct(i, k);
    MulSucc(i, k);
  }

  /** The last window holds N - (m - 1) * k tokens, between 1 and k, for m windows of a non-empty sequence. */
  lemma LastChunkLength(tokens: seq<TokenId>, k: nat)
    requires k > 0 && |tokens| > 0
    ensures var r := Partition(tokens, k);
            var m := |r|;
            m > 0 && |r[m - 1]| == |tokens| - (m - 1) * k && 1 <= |r[m - 1]| <= k
  {
    var r := Partition(tokens, k);
    var m := |r|;
    PartitionCount(tokens, k);
    CeilDivIsLeastCover(|tokens|, k);
    var start := (m - 1) * k;
    assert m * k == start + k by { MulSucc(m - 1, k); }
    PartitionAt(tokens, k, m - 1);
    assert |r[m - 1]| == Min(start + k, |tokens|) - start;
  }

  /** The first window of a non-empty sequence is its truncation to k tokens. */
  lemma FirstChunkIsTruncation(tokens: seq<TokenId>, k: nat)
    requires k > 0 && |tokens| > 0
    ensures |Partition(tokens, k)| > 0
    ensures Partition(tokens, k)[0] == Truncate(tokens, k)
  {
    PartitionUnfold(tokens, k);
  }

  /**
   The windows as the server's loop cuts them: for each i in range(ceil(N / k)),
   the Python slice `tokens[i*k : (i+1)*k]`.
   */
  function ChunkSlices(tokens: seq<TokenId>, k: int): (r: seq<seq<TokenId>>)
    requires k != 0
  {
    var m := NumChunks(|tokens|, k);
    seq(if m < 0 then 0 else m, i requires 0 <= i => Slice(tokens, i * k, (i + 1) * k))
  }

  /** Slice i of the loop is window i of the reference partition. */
  lemma ChunkSliceIsPartitionWindow(tokens: seq<TokenId>, k: nat, i: nat)
    requires k > 0
    requires i < |Partition(tokens, k)|
    ensures Slice(tokens, i * k, (i + 1) * k) == Partition(tokens, k)[i]
  {
    PartitionAt(tokens, k, i);
    SliceOfNonNegative(tokens, i * k, (i + 1) * k);
  }

  /**
   The server's index-based slicing agrees with the reference partition for a
   positive window size, and yields no windows for a negative one.
   */
  lemma ChunkSlicesArePartition(tokens: seq<TokenId>, k: int)
    requires k != 0
    ensures k > 0 ==> ChunkSlices(tokens, k) == Partition(tokens, k)
    ensures k < 0 ==> ChunkSlices(tokens, k) == []
  {
    if k > 0 {
      var r, p := ChunkSlices(tokens, k), Partition(tokens, k);
      PartitionCount(tokens, k);
      forall i | 0 <= i < |r|
        ensures r[i] == p[i]
      {
        ChunkSliceIsPartitionWindow(tokens, k, i);
      }
    }
  }
}
