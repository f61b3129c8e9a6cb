/**
 * `FreeEmbeddingService`: the 32-bit string hash, the bucket index, the
 * per-bucket token counts and the normalisation of the count vector.
 * JavaScript numbers are doubles, but every intermediate value of the hash
 * stays below 2^53 in magnitude, so integer arithmetic with an explicit
 * `ToInt32` is exact.
 */
module Embedding {
  import opened Text
  import Similarity

  /** Length of every embedding vector. */
  const Dimension: nat := 1536

  const TwoTo31: int := 0x8000_0000
  const TwoTo32: int := 0x1_0000_0000

  predicate IsInt32(x: int) {
    -TwoTo31 <= x < TwoTo31
  }

  /** ECMAScript ToInt32 on an integer: reduce modulo 2^32 into the signed range. */
  function ToInt32(x: int): (r: int)
    ensures IsInt32(r)
    ensures (r - x) % TwoTo32 == 0
  {
    var m := x % TwoTo32;
    if m >= TwoTo31 then m - TwoTo32 else m
  }

  /** ToInt32 is the identity on values already in range. */
  lemma ToInt32OfInt32(x: int)
    requires IsInt32(x)
    ensures ToInt32(x) == x
  {
  }

  /** ToInt32 depends only on its argument modulo 2^32. */
  lemma ToInt32Congruent(x: int, y: int)
    requires (x - y) % TwoTo32 == 0
    ensures ToInt32(x) == ToInt32(y)
  {
    var q := (x - y) / TwoTo32;
    assert x == y + q * TwoTo32;
    assert x % TwoTo32 == y % TwoTo32;
  }

  /** `hash << 5`: ToInt32 of the operand, shifted, and the result read back as a signed 32-bit value. */
  function ShiftLeft5(h: int): int {
    ToInt32(ToInt32(h) * 32)
  }

  /** One iteration of `simpleHash`: `((hash << 5) - hash) + char`, then `hash & hash`, which is ToInt32. */
  function HashStep(h: int, c: char): int {
    ToInt32(ShiftLeft5(h) - h + c as int)
  }

  /** On a 32-bit hash, one step is multiplication by 31 and addition of the character code, modulo 2^32. */
  lemma HashStepIsPolynomial(h: int, c: char)
    requires IsInt32(h)
    ensures HashStep(h, c) == ToInt32(31 * h + c as int)
  {
    ToInt32OfInt32(h);
    var s := ShiftLeft5(h);
    assert (s - h * 32) % TwoTo32 == 0;
    assert (s - h + c as int) - (31 * h + c as int) == s - h * 32;
    ToInt32Congruent(s - h + c as int, 31 * h + c as int);
  }

  /** `simpleHash` of a string, as the fold of `HashStep` over its characters from the left. */
  function Hash(s: string): (r: int)
    ensures IsInt32(r)
  {
    if |s| == 0 then 0 else HashStep(Hash(s[..|s| - 1]), s[|s| - 1])
  }

  /** The hash polynomial without wrap-around: sum of code(s[i]) * 31^(n-1-i). */
  function PolyHash(s: string): int {
    if |s| == 0 then 0 else 31 * PolyHash(s[..|s| - 1]) + s[|s| - 1] as int
  }

  /** `simpleHash` is the Java-style polynomial hash reduced to signed 32 bits. */
  lemma {:induction false} HashIsPolynomial(s: string)
    ensures Hash(s) == ToInt32(PolyHash(s))
  {
    if |s| > 0 {
      var p, c := s[..|s| - 1], s[|s| - 1];
      HashIsPolynomial(p);
      HashStepIsPolynomial(Hash(p), c);
      var h, q := Hash(p), PolyHash(p);
      assert (h - q) % TwoTo32 == 0;
      assert (31 * h + c as int) - (31 * q + c as int) == 31 * (h - q);
      MultipleOfModulus(h - q, 31);
      ToInt32Congruent(31 * h + c as int, 31 * q + c as int);
    }
  }

  lemma MultipleOfModulus(d: int, k: int)
    requires d % TwoTo32 == 0
    ensures (k * d) % TwoTo32 == 0
  {
    var q := d / TwoTo32;
    assert d == q * TwoTo32;
    assert k * d == (k * q) * TwoTo32;
  }

  /** `simpleHash` as written: a loop over the characters, wrapping after every step. */
  method SimpleHash(s: string) returns (hash: int)
    ensures hash == Hash(s)
    ensures hash == ToInt32(PolyHash(s))
  {
    hash := 0;
    for i := 0 to |s|
      invariant hash == Hash(s[..i])
    {
      assert s[..i + 1][..i] == s[..i];
      hash := HashStep(hash, s[i]);
    }
    assert s[..|s|] == s;
    HashIsPolynomial(s);
  }

  /** `Math.abs(hash) % 1536`. */
  function Bucket(h: int): (k: nat)
    requires IsInt32(h)
    ensures k < Dimension
  {
    (if h < 0 then -h else h) % Dimension
  }

  /** The one hash whose absolute value leaves the 32-bit range still lands inside the vector. */
  lemma BucketOfMinInt32()
    ensures Bucket(-TwoTo31) == 512
  {
  }

  /**
   * The words of `text.toLowerCase().split(/\s+/)`: the lower-cased text cut at
   * its maximal runs of white space, an empty word at either end when the text
   * starts or ends with white space.
   */
  function Tokenize(text: string): (r: seq<string>)
    ensures |r| >= 1
    ensures exists gaps :: CutAtSpaceRuns(Lower(text), r, gaps)
  {
    SplitSpacesCutsAtRuns(Lower(text));
    SplitSpaces(Lower(text))
  }

  /** There is only one such cut, so it fixes the tokens and hence the counts. */
  lemma TokensAreTheCut(text: string, words: seq<string>, gaps: seq<string>)
    requires CutAtSpaceRuns(Lower(text), words, gaps)
    ensures Tokenize(text) == words
  {
    SplitSpacesIsTheCut(Lower(text), words, gaps);
  }

  function BucketOf(word: string): nat {
    Bucket(Hash(word))
  }

  function Sum(v: seq<int>): int {
    if |v| == 0 then 0 else v[0] + Sum(v[1..])
  }

  /** How many of `words` fall in bucket `k`. */
  function Occurrences(words: seq<string>, k: nat): nat {
    if |words| == 0 then 0
    else Occurrences(words[..|words| - 1], k) + (if BucketOf(words[|words| - 1]) == k then 1 else 0)
  }

  function Zeros(n: nat): (r: seq<int>)
    ensures |r| == n && forall k | 0 <= k < n :: r[k] == 0
  {
    seq(n, _ => 0)
  }

  /** The per-bucket token counts after processing `words` in order. */
  function Counts(words: seq<string>): (r: seq<int>)
    ensures |r| == Dimension
  {
    if |words| == 0 then Zeros(Dimension)
    else
      var before := Counts(words[..|words| - 1]);
      var k := BucketOf(words[|words| - 1]);
      before[k := before[k] + 1]
  }

  /** Bucket `k` counts exactly the words whose hash lands in it. */
  lemma {:induction false} CountsAreOccurrences(words: seq<string>, k: nat)
    requires k < Dimension
    ensures Counts(words)[k] == Occurrences(words, k)
  {
    if |words| > 0 {
      CountsAreOccurrences(words[..|words| - 1], k);
    }
  }

  lemma {:induction false} SumOfZeros(n: nat)
    ensures Sum(Zeros(n)) == 0
  {
    if n > 0 {
      assert Zeros(n)[1..] == Zeros(n - 1);
      SumOfZeros(n - 1);
    }
  }

  lemma {:induction false} SumIncrement(v: seq<int>, k: nat)
    requires k < |v|
    ensures Sum(v[k := v[k] + 1]) == Sum(v) + 1
  {
    if k > 0 {
      assert v[k := v[k] + 1][1..] == v[1..][k - 1 := v[k] + 1];
      SumIncrement(v[1..], k - 1);
    } else {
      assert v[k := v[k] + 1][1..] == v[1..];
    }
  }

  /** Before normalisation the counts add up to the number of tokens, empty tokens included. */
  lemma {:induction false} CountsSumToTokens(words: seq<string>)
    ensures Sum(Counts(words)) == |words|
  {
    if |words| == 0 {
      SumOfZeros(Dimension);
    } else {
      CountsSumToTokens(words[..|words| - 1]);
      SumIncrement(Counts(words[..|words| - 1]), BucketOf(words[|words| - 1]));
    }
  }

  /** The counting loop of `generateEmbedding`, over whole counts. */
  method BucketCounts(words: seq<string>) returns (counts: seq<int>)
    ensures counts == Counts(words)
    ensures |counts| == Dimension && Sum(counts) == |words|
  {
    counts := Zeros(Dimension);
    for i := 0 to |words|
      invariant counts == Counts(words[..i])
    {
      assert words[..i + 1][..i] == words[..i];
      var index := Bucket(Hash(words[i]));
      counts := counts[index := counts[index] + 1];
    }
    assert words[..|words|] == words;
    CountsSumToTokens(words);
  }

  /** The empty text still yields one (empty) token, which hashes to 0 and is counted in bucket 0. */
  lemma EmptyTextCountsOnce()
    ensures Tokenize("") == [""]
    ensures Counts(Tokenize(""))[0] == 1
    ensures forall k | 0 < k < Dimension :: Counts(Tokenize(""))[k] == 0
  {
    assert Lower("") == "";
    assert Tokenize("") == [""];
    assert [""][..0] == [];
  }

  /** The vector before normalisation: 0.1 per token in its bucket, over exact reals. */
  function Raw(text: string): (r: seq<real>)
    ensures |r| == Dimension
  {
    var c := Counts(Tokenize(text));
    seq(Dimension, k requires 0 <= k < Dimension => 0.1 * c[k] as real)
  }

  /** `generateEmbedding`: the raw vector divided by its length when that length is positive. */
  function Embed(text: string, sqrt: real -> real): (r: seq<real>)
    ensures |r| == Dimension
  {
    var raw := Raw(text);
    var magnitude := sqrt(Similarity.Dot(raw, raw));
    if magnitude > 0.0 then seq(Dimension, k requires 0 <= k < Dimension => raw[k] / magnitude) else raw
  }

  lemma {:induction false} PositiveSumHasPositiveEntry(v: seq<int>) returns (k: nat)
    requires Sum(v) > 0
    ensures k < |v| && v[k] > 0
  {
    if v[0] > 0 {
      k := 0;
    } else {
      var j := PositiveSumHasPositiveEntry(v[1..]);
      k := j + 1;
    }
  }

  lemma PositiveQuotient(a: real, m: real)
    requires a > 0.0 && m > 0.0
    ensures a / m > 0.0
  {
  }

  /** Every text, the empty one included, gets a non-zero embedding, so the zero-norm guard of scoring never fires on one. */
  lemma EmbeddingIsNonZero(text: string, sqrt: real -> real)
    requires Similarity.IsSqrt(sqrt)
    ensures !Similarity.IsZeroVector(Embed(text, sqrt))
  {
    var words := Tokenize(text);
    var c := Counts(words);
    CountsSumToTokens(words);
    var k := PositiveSumHasPositiveEntry(c);
    var raw := Raw(text);
    assert raw[k] > 0.0;
    Similarity.DotSelf(raw);
    var magnitude := sqrt(Similarity.Dot(raw, raw));
    assert magnitude > 0.0;
    PositiveQuotient(raw[k], magnitude);
    assert Embed(text, sqrt)[k] > 0.0;
  }
}
