/**
 * `RAGService`: chunking of already-read Markdown text, the fallback chunk,
 * the once-only initialisation, and top-K retrieval by cosine similarity.
 * The directory listing and file reads arrive as a `Corpus` value; the
 * embedding's square root is the parameter `sqrt`.
 */
module Rag {
  import opened Types
  import opened Text
  import Js
  import Embedding
  import Similarity

  /** The `docs` directory as read: (file name, file text) in listing order, or a failure anywhere while reading. */
  datatype Corpus = Listed(files: seq<(string, string)>) | ReadError

  /** The single chunk that replaces everything when reading fails. */
  const SampleChunk: RAGChunk :=
    RAGChunk("This is sample knowledge about AI agents and their capabilities.", "sample.md", 0.0)

  /** Paragraphs whose trimmed text is not longer than this are dropped. */
  const MinChunkLength: nat := 50

  const ParagraphBreak: string := "\n\n"

  predicate EndsWith(s: string, suffix: string) {
    |suffix| <= |s| && s[|s| - |suffix|..] == suffix
  }

  /** `files.filter(file => file.endsWith('.md'))`. */
  function MarkdownFiles(files: seq<(string, string)>): (r: seq<(string, string)>)
    ensures forall k | 0 <= k < |r| :: EndsWith(r[k].0, ".md") && r[k] in files
  {
    if |files| == 0 then []
    else (if EndsWith(files[0].0, ".md") then [files[0]] else []) + MarkdownFiles(files[1..])
  }

  /** `paragraphs.filter(p => p.trim().length > 0)`. */
  function NonBlank(ps: seq<string>): (r: seq<string>)
    ensures forall k | 0 <= k < |r| :: r[k] in ps
  {
    if |ps| == 0 then []
    else (if |Trim(ps[0])| > 0 then [ps[0]] else []) + NonBlank(ps[1..])
  }

  /** The loop over paragraphs: one chunk per paragraph whose trimmed text is longer than 50 characters. */
  function ChunksOf(name: string, ps: seq<string>): seq<RAGChunk> {
    if |ps| == 0 then []
    else
      var p := Trim(ps[0]);
      (if |p| > MinChunkLength then [RAGChunk(p, name, 0.0)] else []) + ChunksOf(name, ps[1..])
  }

  /** The chunks of one Markdown file. */
  function FileChunks(name: string, content: string): seq<RAGChunk> {
    ChunksOf(name, NonBlank(Split(content, ParagraphBreak)))
  }

  /** The chunks of several files, file after file. */
  function LoadFiles(files: seq<(string, string)>): seq<RAGChunk> {
    if |files| == 0 then [] else FileChunks(files[0].0, files[0].1) + LoadFiles(files[1..])
  }

  /** `loadMarkdownFiles` started from no chunks. */
  function LoadChunks(corpus: Corpus): seq<RAGChunk> {
    match corpus
    case ReadError => [SampleChunk]
    case Listed(files) => LoadFiles(MarkdownFiles(files))
  }

  /** The `.md` filter keeps the listing order: it works on each part of a listing separately. */
  lemma {:induction false} MarkdownFilesAppend(a: seq<(string, string)>, b: seq<(string, string)>)
    ensures MarkdownFiles(a + b) == MarkdownFiles(a) + MarkdownFiles(b)
  {
    if |a| == 0 {
      assert a + b == b;
    } else {
      assert (a + b)[0] == a[0] && (a + b)[1..] == a[1..] + b;
      MarkdownFilesAppend(a[1..], b);
    }
  }

  /** Paragraphs become chunks in paragraph order, each occurrence on its own, duplicates included. */
  lemma {:induction false} ChunksOfAppend(name: string, a: seq<string>, b: seq<string>)
    ensures ChunksOf(name, a + b) == ChunksOf(name, a) + ChunksOf(name, b)
  {
    if |a| == 0 {
      assert a + b == b;
    } else {
      assert (a + b)[0] == a[0] && (a + b)[1..] == a[1..] + b;
      ChunksOfAppend(name, a[1..], b);
    }
  }

  /** Files contribute their chunks file after file, in listing order. */
  lemma {:induction false} LoadFilesAppend(a: seq<(string, string)>, b: seq<(string, string)>)
    ensures LoadFiles(a + b) == LoadFiles(a) + LoadFiles(b)
  {
    if |a| == 0 {
      assert a + b == b;
    } else {
      assert (a + b)[0] == a[0] && (a + b)[1..] == a[1..] + b;
      LoadFilesAppend(a[1..], b);
    }
  }

  /**
   * The chunks of a listing are those of its first part followed by those of
   * the rest; with the one-file case this fixes the order: file order, then
   * paragraph order within a file.
   */
  lemma LoadChunksAppend(a: seq<(string, string)>, b: seq<(string, string)>)
    ensures LoadChunks(Listed(a + b)) == LoadChunks(Listed(a)) + LoadChunks(Listed(b))
  {
    MarkdownFilesAppend(a, b);
    LoadFilesAppend(MarkdownFiles(a), MarkdownFiles(b));
  }

  /** One Markdown file contributes its own chunks; any other file nothing. */
  lemma LoadChunksOfOneFile(name: string, content: string)
    ensures EndsWith(name, ".md") ==> LoadChunks(Listed([(name, content)])) == FileChunks(name, content)
    ensures !EndsWith(name, ".md") ==> LoadChunks(Listed([(name, content)])) == []
  {
    var f := [(name, content)];
    assert f[1..] == [];
    assert MarkdownFiles(f) == (if EndsWith(name, ".md") then f else []) + MarkdownFiles([]);
    assert LoadFiles(f) == FileChunks(name, content) + LoadFiles([]);
  }

  /** A paragraph yields one chunk, its trimmed text, when that text is longer than 50 characters. */
  lemma ChunksOfOneParagraph(name: string, p: string)
    ensures |Trim(p)| > MinChunkLength ==> ChunksOf(name, [p]) == [RAGChunk(Trim(p), name, 0.0)]
    ensures |Trim(p)| <= MinChunkLength ==> ChunksOf(name, [p]) == []
  {
    assert [p][1..] == [];
  }

  /** A paragraph of `content`, trimmed, qualifies as a chunk. */
  predicate IsChunkOf(c: RAGChunk, name: string, content: string) {
    exists p | p in Split(content, ParagraphBreak) :: |Trim(p)| > MinChunkLength && c == RAGChunk(Trim(p), name, 0.0)
  }

  /** The blank-paragraph filter changes nothing: the length test after it is stricter. */
  lemma {:induction false} NonBlankIsRedundant(name: string, ps: seq<string>)
    ensures ChunksOf(name, NonBlank(ps)) == ChunksOf(name, ps)
  {
    if |ps| > 0 {
      NonBlankIsRedundant(name, ps[1..]);
      var head := if |Trim(ps[0])| > MinChunkLength then [RAGChunk(Trim(ps[0]), name, 0.0)] else [];
      assert ChunksOf(name, ps) == head + ChunksOf(name, ps[1..]);
      var nb := NonBlank(ps);
      if |Trim(ps[0])| > 0 {
        assert nb == [ps[0]] + NonBlank(ps[1..]);
        assert nb[0] == ps[0] && nb[1..] == NonBlank(ps[1..]);
        assert ChunksOf(name, nb) == head + ChunksOf(name, nb[1..]);
      } else {
        assert nb == [] + NonBlank(ps[1..]);
        assert head == [];
        assert nb == NonBlank(ps[1..]);
        assert ChunksOf(name, ps) == ChunksOf(name, ps[1..]);
      }
    }
  }

  lemma {:induction false} ChunksOfMembers(name: string, ps: seq<string>, c: RAGChunk)
    ensures c in ChunksOf(name, ps) <==>
      exists p | p in ps :: |Trim(p)| > MinChunkLength && c == RAGChunk(Trim(p), name, 0.0)
  {
    if |ps| > 0 {
      ChunksOfMembers(name, ps[1..], c);
      forall p | p in ps
        ensures p == ps[0] || p in ps[1..]
      {
      }
    }
  }

  /** A file yields exactly the trimmed paragraphs that are long enough, labelled with its name and score 0. */
  lemma FileChunksMembers(name: string, content: string, c: RAGChunk)
    ensures c in FileChunks(name, content) <==> IsChunkOf(c, name, content)
  {
    NonBlankIsRedundant(name, Split(content, ParagraphBreak));
    ChunksOfMembers(name, Split(content, ParagraphBreak), c);
  }

  lemma {:induction false} LoadFilesMembers(files: seq<(string, string)>, c: RAGChunk)
    ensures c in LoadFiles(files) <==> exists f | f in files :: IsChunkOf(c, f.0, f.1)
  {
    if |files| > 0 {
      LoadFilesMembers(files[1..], c);
      FileChunksMembers(files[0].0, files[0].1, c);
      forall f | f in files
        ensures f == files[0] || f in files[1..]
      {
      }
    }
  }

  lemma {:induction false} MarkdownFilesMembers(files: seq<(string, string)>, f: (string, string))
    ensures f in MarkdownFiles(files) <==> f in files && EndsWith(f.0, ".md")
  {
    if |files| > 0 {
      MarkdownFilesMembers(files[1..], f);
    }
  }

  /**
   * Loading keeps exactly the long-enough trimmed paragraphs of the `.md`
   * files, each labelled with its file; a read failure leaves the sample chunk only.
   */
  lemma LoadChunksMembers(corpus: Corpus, c: RAGChunk)
    ensures corpus.ReadError? ==> LoadChunks(corpus) == [SampleChunk]
    ensures corpus.Listed? ==>
      (c in LoadChunks(corpus) <==>
        exists f | f in corpus.files :: EndsWith(f.0, ".md") && IsChunkOf(c, f.0, f.1))
  {
    if corpus.Listed? {
      var md := MarkdownFiles(corpus.files);
      LoadFilesMembers(md, c);
      forall f
        ensures f in md <==> f in corpus.files && EndsWith(f.0, ".md")
      {
        MarkdownFilesMembers(corpus.files, f);
      }
    }
  }

  /** The service's fields: the once flag, the chunks, and their embeddings by position. */
  datatype RagState = RagState(initialized: bool, chunks: seq<RAGChunk>, embeddings: seq<seq<real>>)

  const Fresh: RagState := RagState(false, [], [])

  /** `generateEmbeddings`: one embedding per chunk, in chunk order. */
  function EmbedAll(chunks: seq<RAGChunk>, sqrt: real -> real): (r: seq<seq<real>>)
    ensures |r| == |chunks|
    ensures forall i | 0 <= i < |r| :: r[i] == Embedding.Embed(chunks[i].content, sqrt)
  {
    seq(|chunks|, i requires 0 <= i < |chunks| => Embedding.Embed(chunks[i].content, sqrt))
  }

  /**
   * `initialize`: a no-op once the flag is set; otherwise chunks are appended
   * (or replaced by the sample on a read failure), embeddings are appended for
   * every chunk held, and the flag is set.
   */
  function Initialize(st: RagState, corpus: Corpus, sqrt: real -> real): (r: RagState)
    ensures st.initialized ==> r == st
    ensures r.initialized
  {
    if st.initialized then st
    else
      var chunks := if corpus.ReadError? then [SampleChunk] else st.chunks + LoadChunks(corpus);
      RagState(true, chunks, st.embeddings + EmbedAll(chunks, sqrt))
  }

  /** Every chunk's embedding sits at the chunk's own index. */
  predicate Aligned(st: RagState, sqrt: real -> real) {
    && |st.embeddings| == |st.chunks|
    && forall i | 0 <= i < |st.chunks| :: st.embeddings[i] == Embedding.Embed(st.chunks[i].content, sqrt)
  }

  /** Initialising twice is initialising once. */
  lemma InitializeIdempotent(st: RagState, corpus: Corpus, corpus2: Corpus, sqrt: real -> real)
    ensures Initialize(Initialize(st, corpus, sqrt), corpus2, sqrt) == Initialize(st, corpus, sqrt)
  {
  }

  /** From the constructed service, initialisation loads the corpus and aligns each embedding with its chunk. */
  lemma InitializeFromFresh(corpus: Corpus, sqrt: real -> real)
    ensures Initialize(Fresh, corpus, sqrt).chunks == LoadChunks(corpus)
    ensures Aligned(Initialize(Fresh, corpus, sqrt), sqrt)
  {
    assert [] + LoadChunks(corpus) == LoadChunks(corpus);
    assert [] + EmbedAll(LoadChunks(corpus), sqrt) == EmbedAll(LoadChunks(corpus), sqrt);
  }

  /** `this.embeddings[index] || []`. */
  function EmbeddingAt(embeddings: seq<seq<real>>, i: nat): seq<real> {
    if i < |embeddings| then embeddings[i] else []
  }

  /** A chunk whose embedding is missing is scored against `[]`, which gives 0. */
  lemma MissingEmbeddingScoresZero(query: seq<real>, embeddings: seq<seq<real>>, i: nat, sqrt: real -> real)
    requires |query| == Embedding.Dimension && i >= |embeddings|
    ensures Similarity.Cosine(query, EmbeddingAt(embeddings, i), sqrt) == 0.0
  {
  }

  /** `chunks.map(...)`: each chunk with its score against the query embedding. */
  function Score(chunks: seq<RAGChunk>, embeddings: seq<seq<real>>, query: seq<real>, sqrt: real -> real): (r: seq<RAGChunk>)
    ensures |r| == |chunks|
    ensures forall i | 0 <= i < |r| ::
      r[i] == chunks[i].(score := Similarity.Cosine(query, EmbeddingAt(embeddings, i), sqrt))
  {
    seq(|chunks|, i requires 0 <= i < |chunks| =>
      chunks[i].(score := Similarity.Cosine(query, EmbeddingAt(embeddings, i), sqrt)))
  }

  predicate SortedDesc(s: seq<RAGChunk>) {
    forall i, j | 0 <= i < j < |s| :: s[i].score >= s[j].score
  }

  /** The chunks of `s` with score exactly `v`, in order. */
  function WithScore(s: seq<RAGChunk>, v: real): seq<RAGChunk> {
    if |s| == 0 then [] else (if s[0].score == v then [s[0]] else []) + WithScore(s[1..], v)
  }

  /** Insert `x` into descending `sorted` after every element whose score is at least its own. */
  function Insert(sorted: seq<RAGChunk>, x: RAGChunk): (r: seq<RAGChunk>)
    ensures |r| == |sorted| + 1
  {
    if |sorted| == 0 then [x]
    else if x.score > sorted[0].score then [x] + sorted
    else [sorted[0]] + Insert(sorted[1..], x)
  }

  /** Inserting adds `x` and keeps everything else. */
  lemma {:induction false} InsertPermutes(sorted: seq<RAGChunk>, x: RAGChunk)
    ensures multiset(Insert(sorted, x)) == multiset(sorted) + multiset{x}
  {
    if |sorted| > 0 && x.score <= sorted[0].score {
      InsertPermutes(sorted[1..], x);
      assert sorted == [sorted[0]] + sorted[1..];
    }
  }

  lemma {:induction false} InsertSorted(sorted: seq<RAGChunk>, x: RAGChunk)
    requires SortedDesc(sorted)
    ensures SortedDesc(Insert(sorted, x))
  {
    if |sorted| > 0 && x.score <= sorted[0].score {
      var rest := Insert(sorted[1..], x);
      InsertSorted(sorted[1..], x);
      InsertPermutes(sorted[1..], x);
      assert forall k | 0 <= k < |rest| :: rest[k].score <= sorted[0].score by {
        forall k | 0 <= k < |rest|
          ensures rest[k].score <= sorted[0].score
        {
          assert rest[k] in multiset(rest);
          if rest[k] != x {
            assert rest[k] in multiset(sorted[1..]);
            var j :| 0 <= j < |sorted[1..]| && sorted[1..][j] == rest[k];
            assert sorted[j + 1] == rest[k];
          }
        }
      }
    }
  }

  /** `sort((a, b) => b.score - a.score)`, stable: an insertion sort taking the elements in order. */
  function SortDesc(s: seq<RAGChunk>): (r: seq<RAGChunk>)
    ensures |r| == |s|
    ensures multiset(r) == multiset(s)
    ensures SortedDesc(r)
  {
    if |s| == 0 then []
    else
      assert s == s[..|s| - 1] + [s[|s| - 1]];
      InsertSorted(SortDesc(s[..|s| - 1]), s[|s| - 1]);
      InsertPermutes(SortDesc(s[..|s| - 1]), s[|s| - 1]);
      Insert(SortDesc(s[..|s| - 1]), s[|s| - 1])
  }

  lemma {:induction false} WithScoreAppend(a: seq<RAGChunk>, b: seq<RAGChunk>, v: real)
    ensures WithScore(a + b, v) == WithScore(a, v) + WithScore(b, v)
  {
    if |a| > 0 {
      assert (a + b)[1..] == a[1..] + b;
      WithScoreAppend(a[1..], b, v);
    } else {
      assert a + b == b;
    }
  }

  lemma {:induction false} WithScoreNone(s: seq<RAGChunk>, v: real)
    requires forall k | 0 <= k < |s| :: s[k].score < v
    ensures WithScore(s, v) == []
  {
    if |s| > 0 {
      WithScoreNone(s[1..], v);
    }
  }

  /** Every chunk of a descending sequence scores below a chunk that beats its head. */
  lemma BelowNewHead(sorted: seq<RAGChunk>, x: RAGChunk)
    requires SortedDesc(sorted) && |sorted| > 0 && x.score > sorted[0].score
    ensures forall k | 0 <= k < |sorted| :: sorted[k].score < x.score
  {
    forall k | 0 <= k < |sorted|
      ensures sorted[k].score < x.score
    {
      if k > 0 {
        assert sorted[0].score >= sorted[k].score;
      }
    }
  }

  /** A chunk scored above the whole sorted sequence goes in front and keeps every tie class in order. */
  lemma InsertInFrontKeepsTies(sorted: seq<RAGChunk>, x: RAGChunk, v: real)
    requires SortedDesc(sorted) && |sorted| > 0 && x.score > sorted[0].score
    ensures WithScore(Insert(sorted, x), v) == WithScore(sorted, v) + WithScore([x], v)
  {
    assert Insert(sorted, x) == [x] + sorted;
    WithScoreAppend([x], sorted, v);
    if x.score == v {
      BelowNewHead(sorted, x);
      WithScoreNone(sorted, v);
    } else {
      assert WithScore([x], v) == [];
    }
  }

  /** Inserting behind the first chunk keeps the tie classes in order if it does so for the rest. */
  lemma InsertBehindKeepsTies(sorted: seq<RAGChunk>, x: RAGChunk, v: real)
    requires |sorted| > 0 && x.score <= sorted[0].score
    requires WithScore(Insert(sorted[1..], x), v) == WithScore(sorted[1..], v) + WithScore([x], v)
    ensures WithScore(Insert(sorted, x), v) == WithScore(sorted, v) + WithScore([x], v)
  {
    var rest := Insert(sorted[1..], x);
    assert Insert(sorted, x) == [sorted[0]] + rest;
    assert [sorted[0]] + sorted[1..] == sorted;
    WithScoreAppend([sorted[0]], rest, v);
    WithScoreAppend([sorted[0]], sorted[1..], v);
    var h, t, w := WithScore([sorted[0]], v), WithScore(sorted[1..], v), WithScore([x], v);
    assert WithScore(Insert(sorted, x), v) == h + (t + w);
    assert WithScore(sorted, v) == h + t;
    Regroup(h, t, w);
  }

  /**
   * Regrouping three abstract chunk lists. Stated as a lemma so that the solver
   * meets the lists as opaque values: the same step written inline, next to
   * the chunk scores, sends the proof above the resource limit on some seeds.
   */
  lemma Regroup(a: seq<RAGChunk>, b: seq<RAGChunk>, c: seq<RAGChunk>)
    ensures a + (b + c) == a + b + c
  {
  }


  lemma {:induction false} InsertKeepsTies(sorted: seq<RAGChunk>, x: RAGChunk, v: real)
    requires SortedDesc(sorted)
    ensures WithScore(Insert(sorted, x), v) == WithScore(sorted, v) + WithScore([x], v)
  {
    if |sorted| == 0 {
      assert Insert(sorted, x) == [x];
    } else if x.score > sorted[0].score {
      InsertInFrontKeepsTies(sorted, x, v);
    } else {
      InsertKeepsTies(sorted[1..], x, v);
      InsertBehindKeepsTies(sorted, x, v);
    }
  }

  /** Stability: for every score, the chunks with that score come out in their input order. */
  lemma {:induction false} SortKeepsTies(s: seq<RAGChunk>, v: real)
    ensures WithScore(SortDesc(s), v) == WithScore(s, v)
  {
    if |s| > 0 {
      var init, last := s[..|s| - 1], s[|s| - 1];
      SortKeepsTies(init, v);
      InsertKeepsTies(SortDesc(init), last, v);
      assert s == init + [last];
      WithScoreAppend(init, [last], v);
    }
  }

  /** Every chunk scored against the query, best first, ties in corpus order. */
  function Ranking(ready: RagState, query: string, sqrt: real -> real): seq<RAGChunk> {
    SortDesc(Score(ready.chunks, ready.embeddings, Embedding.Embed(query, sqrt), sqrt))
  }

  /**
   * `retrieveRelevantChunks`: initialise if needed, then score every chunk
   * against the query's embedding, sort by descending score and keep `topK`.
   */
  function Retrieve(st: RagState, corpus: Corpus, sqrt: real -> real, query: string, topK: int): (r: (RagState, seq<RAGChunk>))
    ensures r.0 == Initialize(st, corpus, sqrt)
    ensures |r.0.chunks| == 0 ==> r.1 == []
    ensures topK >= 0 ==> |r.1| == if topK < |r.0.chunks| then topK else |r.0.chunks|
    ensures SortedDesc(r.1)
  {
    var ready := if !st.initialized then Initialize(st, corpus, sqrt) else st;
    if |ready.chunks| == 0 then (ready, [])
    else
      (ready, Js.SliceTo(Ranking(ready, query, sqrt), topK))
  }

  /** A prefix of a descending sequence holds elements scored at least as high as everything after it. */
  lemma PrefixDominates(ranked: seq<RAGChunk>, n: nat)
    requires SortedDesc(ranked) && n <= |ranked|
    ensures forall c, d | c in ranked[..n] && d in ranked[n..] :: c.score >= d.score
  {
    forall c, d | c in ranked[..n] && d in ranked[n..]
      ensures c.score >= d.score
    {
      var i :| 0 <= i < n && ranked[..n][i] == c;
      var j :| 0 <= j < |ranked| - n && ranked[n..][j] == d;
      assert ranked[i] == c && ranked[n + j] == d;
    }
  }

  /** The results are the best-scored chunks: a prefix of the stable descending ordering of all scored chunks. */
  lemma RetrieveIsPrefixOfRanking(st: RagState, corpus: Corpus, sqrt: real -> real, query: string, topK: int)
    ensures var r := Retrieve(st, corpus, sqrt, query, topK);
      var ranked := Ranking(r.0, query, sqrt);
      && r.1 <= ranked
      && multiset(ranked) == multiset(Score(r.0.chunks, r.0.embeddings, Embedding.Embed(query, sqrt), sqrt))
      && (forall c, d | c in r.1 && d in ranked[|r.1|..] :: c.score >= d.score)
  {
    var r := Retrieve(st, corpus, sqrt, query, topK);
    var ranked := Ranking(r.0, query, sqrt);
    if |r.0.chunks| > 0 {
      assert r.1 == Js.SliceTo(ranked, topK);
    }
    PrefixDominates(ranked, |r.1|);
  }

  /** A ranked chunk is some corpus chunk carrying its similarity to the query. */
  lemma RankedChunkIsScored(ready: RagState, query: string, sqrt: real -> real, c: RAGChunk)
    requires c in Ranking(ready, query, sqrt)
    ensures exists i | 0 <= i < |ready.chunks| ::
      && c.content == ready.chunks[i].content
      && c.filename == ready.chunks[i].filename
      && c.score == Similarity.Cosine(Embedding.Embed(query, sqrt), EmbeddingAt(ready.embeddings, i), sqrt)
  {
    var scored := Score(ready.chunks, ready.embeddings, Embedding.Embed(query, sqrt), sqrt);
    assert c in multiset(Ranking(ready, query, sqrt));
    assert c in multiset(scored);
    var i :| 0 <= i < |scored| && scored[i] == c;
    assert c == ready.chunks[i].(score := Similarity.Cosine(Embedding.Embed(query, sqrt), EmbeddingAt(ready.embeddings, i), sqrt));
  }

  /** Each result keeps its chunk's text and file, and carries its similarity to the query. */
  lemma RetrievedChunksComeFromCorpus(st: RagState, corpus: Corpus, sqrt: real -> real, query: string, topK: int, c: RAGChunk)
    requires c in Retrieve(st, corpus, sqrt, query, topK).1
    ensures var ready := Initialize(st, corpus, sqrt);
      exists i | 0 <= i < |ready.chunks| ::
        && c.content == ready.chunks[i].content
        && c.filename == ready.chunks[i].filename
        && c.score == Similarity.Cosine(Embedding.Embed(query, sqrt), EmbeddingAt(ready.embeddings, i), sqrt)
  {
    var ready := Initialize(st, corpus, sqrt);
    var result := Retrieve(st, corpus, sqrt, query, topK).1;
    assert result == Js.SliceTo(Ranking(ready, query, sqrt), topK);
    RankedChunkIsScored(ready, query, sqrt, c);
  }
}
