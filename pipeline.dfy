/**
  `prep_w2v` as a whole, with the file system, joblib and the random number
  generator taken out: the corpus is the list of documents found (each one
  its sequence of lines), the random draws are a parameter, and the two
  parallel phases run their jobs one after the other.

  The phases are: count the tokens of every document, merge the counts,
  select the singletons and sample them, cut the document list into
  `n_jobs` chunks, and rewrite the documents of each chunk.

  As written, `prep_w2v` calls `_write_file` without passing on `lowercase`
  and `replace_digits`, so the rewriting always runs with its defaults
  (both true), whatever flags the counting used. `Prepare` follows the code;
  `PrepareForwarding` is the variant that passes the flags on.
 */
module Pipeline {
  import opened Results
  import opened Text
  import opened Tables
  import opened Counting
  import opened Aggregation
  import opened Sampling
  import opened Chunking
  import opened Rewrite

  /**
    The one error `prep_w2v` can meet once the file system is taken out:
    `Parallel(n_jobs=0)` raises a ValueError before the first job runs, and
    so before the merge, the dump and `_chunk_list`. Any other `n_jobs`,
    negative ones included, is accepted by joblib.
   */
  datatype PrepError = ParallelValueError

  /**
    What `prep_w2v` leaves behind: the singletons (logged), the sample
    (dumped to disk), the number of tokens (logged) and the rewritten
    documents, in the order of the document list.
   */
  datatype Prepared = Prepared(
    singletonsAll: set<string>,
    singletonsSample: set<string>,
    tokenNb: nat,
    documents: seq<seq<string>>)

  /** One table per document, as the counting jobs return them. */
  function CorpusTables(corpus: seq<seq<string>>, lowercase: bool, replaceDigits: bool): (r: seq<Table>)
    ensures |r| == |corpus|
    ensures forall d :: 0 <= d < |r| ==> r[d] == Tally(DocTokens(corpus[d], lowercase, replaceDigits))
  {
    seq(|corpus|, d requires 0 <= d < |corpus| => Tally(DocTokens(corpus[d], lowercase, replaceDigits)))
  }

  /** Every token the counting pass sees, document after document. */
  function CorpusTokens(corpus: seq<seq<string>>, lowercase: bool, replaceDigits: bool): seq<string> {
    if corpus == [] then []
    else DocTokens(corpus[0], lowercase, replaceDigits) + CorpusTokens(corpus[1..], lowercase, replaceDigits)
  }

  /** Each of `documents` rewritten. */
  function RewriteAll(documents: seq<seq<string>>, singletons: set<string>, lowercase: bool, replaceDigits: bool)
    : (r: seq<seq<string>>)
    ensures |r| == |documents|
    ensures forall d :: 0 <= d < |r| ==> r[d] == Rewritten(documents[d], singletons, lowercase, replaceDigits)
  {
    seq(|documents|, d requires 0 <= d < |documents| => Rewritten(documents[d], singletons, lowercase, replaceDigits))
  }

  /**
    The outcome of the pipeline when the counting uses `lowercase` and
    `replaceDigits` and the rewriting uses `rewriteLowercase` and
    `rewriteReplaceDigits`. A zero `n_jobs` is refused by joblib before any
    work is done, so `_chunk_list` is only ever called with a non-zero count.
   */
  function PrepareWith(corpus: seq<seq<string>>, nJobs: int, ratioUnknown: real,
                       lowercase: bool, replaceDigits: bool, draws: nat -> real,
                       rewriteLowercase: bool, rewriteReplaceDigits: bool): (r: Result<Prepared, PrepError>)
    ensures r.Err? <==> nJobs == 0
  {
    if nJobs == 0 then Err(ParallelValueError)
    else
      var allTokens := Merged(CorpusTables(corpus, lowercase, replaceDigits));
      var sample := Sampled(Qualifying(allTokens.order, allTokens), draws, ratioUnknown);
      var chunks := ChunkList(corpus, nJobs).value;
      Ok(Prepared(SingletonSet(allTokens), sample, allTokens.Total(),
                  RewriteAll(Concat(chunks), sample, rewriteLowercase, rewriteReplaceDigits)))
  }

  /** `prep_w2v` as written: the rewriting runs with its default flags, whatever the counting used. */
  function Prepare(corpus: seq<seq<string>>, nJobs: int, ratioUnknown: real,
                   lowercase: bool, replaceDigits: bool, draws: nat -> real): (r: Result<Prepared, PrepError>)
    ensures r.Err? <==> nJobs == 0
  {
    PrepareWith(corpus, nJobs, ratioUnknown, lowercase, replaceDigits, draws, true, true)
  }

  /** `prep_w2v` with the flags passed on to `_write_file`: both passes normalise alike. */
  function PrepareForwarding(corpus: seq<seq<string>>, nJobs: int, ratioUnknown: real,
                             lowercase: bool, replaceDigits: bool, draws: nat -> real): (r: Result<Prepared, PrepError>)
    ensures r.Err? <==> nJobs == 0
  {
    PrepareWith(corpus, nJobs, ratioUnknown, lowercase, replaceDigits, draws, lowercase, replaceDigits)
  }

  /** The first parallel phase, run job after job: one count table per document. */
  method GatherAll(corpus: seq<seq<string>>, lowercase: bool, replaceDigits: bool) returns (results: seq<Table>)
    ensures results == CorpusTables(corpus, lowercase, replaceDigits)
    ensures AllValid(results)
  {
    results := [];
    for d := 0 to |corpus|
      invariant |results| == d
      invariant forall e :: 0 <= e < d ==> results[e] == Tally(DocTokens(corpus[e], lowercase, replaceDigits))
    {
      var documentTokens := GatherTokenCount(corpus[d], lowercase, replaceDigits);
      results := results + [documentTokens];
    }
    CorpusTablesEqual(results, corpus, lowercase, replaceDigits);
    CorpusTablesValid(corpus, lowercase, replaceDigits);
  }

  /** A sequence holding the tally of each document, in order, is `CorpusTables`. */
  lemma CorpusTablesEqual(results: seq<Table>, corpus: seq<seq<string>>, lowercase: bool, replaceDigits: bool)
    requires |results| == |corpus|
    requires forall d :: 0 <= d < |corpus| ==> results[d] == Tally(DocTokens(corpus[d], lowercase, replaceDigits))
    ensures results == CorpusTables(corpus, lowercase, replaceDigits)
  {
  }

  /** The second parallel phase, run job after job: `_write_file` on each chunk. */
  method RewriteChunks(chunks: seq<seq<seq<string>>>, singletons: set<string>, lowercase: bool, replaceDigits: bool)
    returns (documents: seq<seq<string>>)
    ensures documents == RewriteAll(Concat(chunks), singletons, lowercase, replaceDigits)
  {
    documents := [];
    for c := 0 to |chunks|
      invariant documents == RewriteAll(Concat(chunks[..c]), singletons, lowercase, replaceDigits)
    {
      var written := WriteFile(chunks[c], singletons, lowercase, replaceDigits);
      assert chunks[..c + 1][..c] == chunks[..c];
      RewriteAllAppend(Concat(chunks[..c]), chunks[c], singletons, lowercase, replaceDigits);
      documents := documents + written;
    }
    assert chunks[..|chunks|] == chunks;
  }

  /**
    `prep_w2v`: count, merge, select and sample the singletons, chunk the
    document list, rewrite every chunk (with the default flags). It fails
    exactly when `n_jobs` is 0, which joblib refuses before the first phase.
   */
  method PrepW2v(corpus: seq<seq<string>>, nJobs: int, ratioUnknown: real,
                 lowercase: bool, replaceDigits: bool, draws: nat -> real)
    returns (r: Result<Prepared, PrepError>)
    ensures r == Prepare(corpus, nJobs, ratioUnknown, lowercase, replaceDigits, draws)
    ensures r.Err? <==> nJobs == 0
    ensures r.Ok? ==> r.value.singletonsSample <= r.value.singletonsAll
  {
    if nJobs == 0 {
      return Err(ParallelValueError);
    }
    var results := GatherAll(corpus, lowercase, replaceDigits);
    var allTokens, tokenNb := MergeCounts(results);
    var singletonsAll, singletonsSample := SelectSingletons(allTokens, ratioUnknown, draws);
    var fileChunks := ChunkList(corpus, nJobs);
    var documents := RewriteChunks(fileChunks.value, singletonsSample, true, true);
    r := Ok(Prepared(singletonsAll, singletonsSample, tokenNb, documents));
  }

  /** Rewriting two runs of documents is rewriting each. */
  lemma RewriteAllAppend(a: seq<seq<string>>, b: seq<seq<string>>, singletons: set<string>, lowercase: bool, replaceDigits: bool)
    ensures RewriteAll(a + b, singletons, lowercase, replaceDigits)
         == RewriteAll(a, singletons, lowercase, replaceDigits) + RewriteAll(b, singletons, lowercase, replaceDigits)
  {
  }

  /** The corpus-wide count of `k` is the number of times the counting pass meets it. */
  lemma {:induction false} CorpusCountOf(corpus: seq<seq<string>>, lowercase: bool, replaceDigits: bool, k: string)
    ensures SumOf(CorpusTables(corpus, lowercase, replaceDigits), CountIn(k))
         == multiset(CorpusTokens(corpus, lowercase, replaceDigits))[k]
  {
    if corpus != [] {
      var tables := CorpusTables(corpus, lowercase, replaceDigits);
      var first := DocTokens(corpus[0], lowercase, replaceDigits);
      assert tables[1..] == CorpusTables(corpus[1..], lowercase, replaceDigits);
      CorpusCountOf(corpus[1..], lowercase, replaceDigits, k);
      TallyCounts(first);
      assert CountIn(k)(tables[0]) == multiset(first)[k];
      assert SumOf(tables, CountIn(k)) == CountIn(k)(tables[0]) + SumOf(tables[1..], CountIn(k));
    }
  }

  /** The corpus-wide `token_nb` is the number of tokens the counting pass meets. */
  lemma {:induction false} CorpusTotal(corpus: seq<seq<string>>, lowercase: bool, replaceDigits: bool)
    ensures SumOf(CorpusTables(corpus, lowercase, replaceDigits), TotalOf())
         == |CorpusTokens(corpus, lowercase, replaceDigits)|
  {
    if corpus != [] {
      var tables := CorpusTables(corpus, lowercase, replaceDigits);
      var first := DocTokens(corpus[0], lowercase, replaceDigits);
      assert tables[1..] == CorpusTables(corpus[1..], lowercase, replaceDigits);
      CorpusTotal(corpus[1..], lowercase, replaceDigits);
      TallyCounts(first);
      assert TotalOf()(tables[0]) == |first|;
      assert SumOf(tables, TotalOf()) == TotalOf()(tables[0]) + SumOf(tables[1..], TotalOf());
    }
  }

  /** Every table the counting jobs return holds its keys once each. */
  lemma CorpusTablesValid(corpus: seq<seq<string>>, lowercase: bool, replaceDigits: bool)
    ensures AllValid(CorpusTables(corpus, lowercase, replaceDigits))
  {
    var tables := CorpusTables(corpus, lowercase, replaceDigits);
    forall d | 0 <= d < |tables| ensures tables[d].Valid() {
      TallyCounts(DocTokens(corpus[d], lowercase, replaceDigits));
    }
  }

  /**
    Over the whole corpus: a token is a singleton exactly when the counting
    pass meets it once and it holds no digit; the sample is among the
    singletons; `token_nb` is the number of tokens met.
   */
  lemma PreparedSingletons(corpus: seq<seq<string>>, nJobs: int, ratioUnknown: real,
                           lowercase: bool, replaceDigits: bool, draws: nat -> real,
                           rewriteLowercase: bool, rewriteReplaceDigits: bool)
    requires nJobs != 0
    ensures var r := PrepareWith(corpus, nJobs, ratioUnknown, lowercase, replaceDigits, draws,
                                 rewriteLowercase, rewriteReplaceDigits);
      && r.Ok?
      && (forall k :: k in r.value.singletonsAll <==>
            multiset(CorpusTokens(corpus, lowercase, replaceDigits))[k] == 1 && !HasDigit(k))
      && r.value.singletonsSample <= r.value.singletonsAll
      && r.value.tokenNb == |CorpusTokens(corpus, lowercase, replaceDigits)|
  {
    var tables := CorpusTables(corpus, lowercase, replaceDigits);
    var allTokens := Merged(tables);
    CorpusTablesValid(corpus, lowercase, replaceDigits);
    MergedCounts(tables);
    CorpusTotal(corpus, lowercase, replaceDigits);
    forall k ensures k in SingletonSet(allTokens) <==>
        multiset(CorpusTokens(corpus, lowercase, replaceDigits))[k] == 1 && !HasDigit(k) {
      CorpusCountOf(corpus, lowercase, replaceDigits, k);
    }
    QualifyingIsSingletonSet(allTokens);
    SampledWithin(Qualifying(allTokens.order, allTokens), draws, ratioUnknown);
  }

  /**
    The documents written do not depend on `n_jobs` as long as it is
    positive: every document is rewritten once, in the order of the list.
    A negative `n_jobs` gives `_chunk_list` nothing to return, so no
    document is written at all.
   */
  lemma PreparedDocuments(corpus: seq<seq<string>>, nJobs: int, ratioUnknown: real,
                          lowercase: bool, replaceDigits: bool, draws: nat -> real,
                          rewriteLowercase: bool, rewriteReplaceDigits: bool)
    requires nJobs != 0
    ensures var r := PrepareWith(corpus, nJobs, ratioUnknown, lowercase, replaceDigits, draws,
                                 rewriteLowercase, rewriteReplaceDigits);
      && r.Ok?
      && (nJobs > 0 ==> r.value.documents
                        == RewriteAll(corpus, r.value.singletonsSample, rewriteLowercase, rewriteReplaceDigits))
      && (nJobs < 0 ==> r.value.documents == [])
  {
    if nJobs > 0 {
      ChunkListPartition(corpus, nJobs);
    }
  }

  /**
    With the flags passed on, the rewriting pass meets, in each document,
    exactly the tokens the counting pass counted, and writes each of them
    masked: no sampled singleton other than "#unk#" itself survives.
   */
  lemma ForwardingMasksSample(corpus: seq<seq<string>>, nJobs: int, ratioUnknown: real,
                              lowercase: bool, replaceDigits: bool, draws: nat -> real)
    requires nJobs > 0
    ensures PrepareForwarding(corpus, nJobs, ratioUnknown, lowercase, replaceDigits, draws).Ok?
    ensures var p := PrepareForwarding(corpus, nJobs, ratioUnknown, lowercase, replaceDigits, draws).value;
      && |p.documents| == |corpus|
      && forall d, i :: 0 <= d < |corpus| && 0 <= i < |p.documents[d]| ==> p.documents[d][i] != []
    ensures var p := PrepareForwarding(corpus, nJobs, ratioUnknown, lowercase, replaceDigits, draws).value;
      forall d :: 0 <= d < |corpus| ==>
        && OutputTokens(p.documents[d]) == MaskAll(DocTokens(corpus[d], lowercase, replaceDigits), p.singletonsSample)
        && forall t :: t in OutputTokens(p.documents[d]) && t in p.singletonsSample ==> t == Unknown
  {
    var p := PrepareForwarding(corpus, nJobs, ratioUnknown, lowercase, replaceDigits, draws).value;
    PreparedDocuments(corpus, nJobs, ratioUnknown, lowercase, replaceDigits, draws, lowercase, replaceDigits);
    forall d | 0 <= d < |corpus|
      ensures forall i :: 0 <= i < |p.documents[d]| ==> p.documents[d][i] != []
      ensures OutputTokens(p.documents[d]) == MaskAll(DocTokens(corpus[d], lowercase, replaceDigits), p.singletonsSample)
    {
      RewrittenTokens(corpus[d], p.singletonsSample, lowercase, replaceDigits);
    }
  }

  /** A document of one line holding the single token "A". */
  const UpperCorpus: seq<seq<string>> := [["A"]]

  /** A draw stream that samples every singleton. */
  function DrawZero(): nat -> real {
    (i: nat) => 0.0
  }

  /** The only token of the line "A" is "A", or "a" when lowercasing. */
  lemma UpperLineTokens(lowercase: bool)
    ensures LineTokens("A", lowercase, true) == [if lowercase then "a" else "A"]
  {
    var line: string := "A";
    assert StripNewlines(line) == line;
    SplitNoSpace(line);
    var n := Normalise(line, lowercase, true);
    NormaliseChars(line, lowercase, true);
    assert |n| == 1 && n[0] == if lowercase then 'a' else 'A';
    assert n == [n[0]];
    var tokens := LineTokens(line, lowercase, true);
    assert |tokens| == 1 && tokens[0] == n;
    assert tokens == [n];
  }

  /** Without lowercasing, the counting pass meets "A" once in `UpperCorpus`, and nothing else. */
  lemma UpperCorpusTokens()
    ensures CorpusTokens(UpperCorpus, false, true) == ["A"]
  {
    var line: string := "A";
    UpperLineTokens(false);
    var doc: seq<string> := [line];
    assert doc[0] == line && doc[1..] == [];
    assert !IsBlank(line);
    assert DocTokens(doc, false, true) == LineTokens(line, false, true) + [];
    assert UpperCorpus[0] == doc && UpperCorpus[1..] == [];
    assert CorpusTokens(UpperCorpus, false, true) == DocTokens(doc, false, true) + [];
  }

  /** Counted without lowercasing, `UpperCorpus` has "A" once and nothing else. */
  lemma UpperCounts(k: string)
    ensures Merged(CorpusTables(UpperCorpus, false, true)).Valid()
    ensures Merged(CorpusTables(UpperCorpus, false, true)).Get(k) == if k == "A" then 1 else 0
  {
    var tables := CorpusTables(UpperCorpus, false, true);
    CorpusTablesValid(UpperCorpus, false, true);
    MergedCounts(tables);
    UpperCorpusTokens();
    CorpusCountOf(UpperCorpus, false, true, k);
  }

  /** Counted without lowercasing, "A" is the one singleton of `UpperCorpus`. */
  lemma UpperSingletons()
    ensures Merged(CorpusTables(UpperCorpus, false, true)).Valid()
    ensures SingletonSet(Merged(CorpusTables(UpperCorpus, false, true))) == {"A"}
  {
    var allTokens := Merged(CorpusTables(UpperCorpus, false, true));
    UpperCounts("A");
    forall k ensures k in SingletonSet(allTokens) <==> k == "A" {
      UpperCounts(k);
      if k == "A" {
        assert !HasDigit(k);
      }
    }
  }

  /** Counted without lowercasing, "A" is the one singleton, and a ratio of 1 samples it. */
  lemma UpperSample(rewriteLowercase: bool)
    ensures var r := PrepareWith(UpperCorpus, 1, 1.0, false, true, DrawZero(), rewriteLowercase, true);
      r.Ok? && r.value.singletonsSample == {"A"}
  {
    var allTokens := Merged(CorpusTables(UpperCorpus, false, true));
    UpperSingletons();
    SampleExtremes(allTokens, DrawZero(), 1.0);
  }

  /** Rewriting "A" with "A" sampled writes "#unk#", unless the rewriting lowercases it first. */
  lemma UpperRewritten(rewriteLowercase: bool)
    ensures Rewritten(["A"], {"A"}, rewriteLowercase, true) == [if rewriteLowercase then "a\n" else "#unk#\n"]
  {
    var sample: set<string> := {"A"};
    var line: string := "A";
    var doc: seq<string> := [line];
    UpperLineTokens(rewriteLowercase);
    assert "a" != "A" by {
      assert "a"[0] != "A"[0];
    }
    var masked := MaskAll(LineTokens(line, rewriteLowercase, true), sample);
    assert masked == [if rewriteLowercase then "a" else Unknown];
    assert Join(masked) == masked[0];
    assert OutputLine(line, sample, rewriteLowercase, true) == masked[0] + [Newline];
    assert "a" + [Newline] == "a\n" && Unknown + [Newline] == "#unk#\n";
    assert !IsBlank(line);
    assert doc[0] == line && doc[1..] == [];
    assert Rewritten(doc, sample, rewriteLowercase, true) == [OutputLine(line, sample, rewriteLowercase, true)] + [];
  }

  /** Rewriting `UpperCorpus` with "A" sampled. */
  lemma UpperRewriteAll(rewriteLowercase: bool)
    ensures RewriteAll(UpperCorpus, {"A"}, rewriteLowercase, true) == [[if rewriteLowercase then "a\n" else "#unk#\n"]]
  {
    UpperRewritten(rewriteLowercase);
    assert RewriteAll(UpperCorpus, {"A"}, rewriteLowercase, true)[0] == Rewritten(["A"], {"A"}, rewriteLowercase, true);
  }

  /** The whole pipeline on `UpperCorpus`, counting without lowercasing. */
  lemma UpperPrepared(rewriteLowercase: bool)
    ensures var r := PrepareWith(UpperCorpus, 1, 1.0, false, true, DrawZero(), rewriteLowercase, true);
      && r.Ok?
      && r.value.singletonsSample == {"A"}
      && r.value.documents == [[if rewriteLowercase then "a\n" else "#unk#\n"]]
  {
    UpperSample(rewriteLowercase);
    PreparedDocuments(UpperCorpus, 1, 1.0, false, true, DrawZero(), rewriteLowercase, true);
    UpperRewriteAll(rewriteLowercase);
  }

  /**
    As written, with `lowercase=False` the sampled singleton "A" is not
    replaced: the rewriting lowercases it to "a", which is not in the sample,
    and writes "a". Passing the flags on writes "#unk#".
   */
  lemma FlagsNotForwarded()
    ensures var r := Prepare(UpperCorpus, 1, 1.0, false, true, DrawZero());
      && r.Ok?
      && r.value.singletonsSample == {"A"}
      && r.value.documents == [["a\n"]]
    ensures var r := PrepareForwarding(UpperCorpus, 1, 1.0, false, true, DrawZero());
      && r.Ok?
      && r.value.singletonsSample == {"A"}
      && r.value.documents == [["#unk#\n"]]
  {
    UpperPrepared(true);
    UpperPrepared(false);
  }
}
