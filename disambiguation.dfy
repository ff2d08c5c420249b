/** Lemma disambiguation (`lemma_match`): for every image, the candidate
    senses ("bids") of all its retrieved neighbours are pooled and
    de-duplicated, scored in batches of 64 against the image embedding, and
    sorted by score, highest first, across all batches. An image whose lookup
    fails is skipped. The similarity (a sigmoid of a dot product in the
    source) is an abstract function into `real`. */
module Disambiguation {
  import opened Wrappers
  import opened Text
  import Utils

  /** A BabelNet synset id. */
  type Bid = string

  /** An embedding vector; its arithmetic is inside the abstract similarity. */
  type Embedding = seq<real>

  /** One neighbour of the retrieval output; `bids` is the entry's `k[0]`. */
  datatype Neighbour = Neighbour(bids: seq<Bid>, distance: real, url: string)

  /** One record of a per-image result, `{"score": s, "bid": b}`. */
  datatype Scored = Scored(score: real, bid: Bid)

  const BatchSize: nat := 64

  // ---------------------------------------------------------------------------
  // The candidate pool
  // ---------------------------------------------------------------------------

  /** The bids of all neighbours, in neighbour order, duplicates included. */
  function AllBids(neighbours: seq<Neighbour>): seq<Bid>
  {
    if neighbours == [] then []
    else AllBids(neighbours[..|neighbours| - 1]) + neighbours[|neighbours| - 1].bids
  }

  lemma {:induction false} AllBidsMembers(neighbours: seq<Neighbour>, b: Bid)
    ensures b in AllBids(neighbours) <==> exists k :: 0 <= k < |neighbours| && b in neighbours[k].bids
  {
    if neighbours != [] {
      var init := neighbours[..|neighbours| - 1];
      AllBidsMembers(init, b);
      if exists k :: 0 <= k < |neighbours| && b in neighbours[k].bids {
        var k :| 0 <= k < |neighbours| && b in neighbours[k].bids;
        if k < |init| { assert init[k] == neighbours[k]; }
      }
      if b in AllBids(init) {
        var k :| 0 <= k < |init| && b in init[k].bids;
        assert neighbours[k] == init[k];
      }
    }
  }

  /** The loop that extends `bids` with every neighbour's `k[0]`. */
  method CollectBids(neighbours: seq<Neighbour>) returns (bids: seq<Bid>)
    ensures bids == AllBids(neighbours)
  {
    bids := [];
    for k := 0 to |neighbours|
      invariant bids == AllBids(neighbours[..k])
    {
      assert neighbours[..k + 1][..k] == neighbours[..k];
      bids := bids + neighbours[k].bids;
    }
    assert neighbours[..|neighbours|] == neighbours;
  }

  predicate NoDup<T(==)>(s: seq<T>)
  {
    forall i, j :: 0 <= i < j < |s| ==> s[i] != s[j]
  }

  /** `list(set(bids))`: every bid once, in the set's iteration order, which
      the source leaves unspecified; each element is picked arbitrarily. */
  method Dedupe(bids: seq<Bid>) returns (pool: seq<Bid>)
    ensures NoDup(pool)
    ensures forall b :: b in pool <==> b in bids
  {
    var remaining := set b | b in bids;
    pool := [];
    while remaining != {}
      invariant NoDup(pool)
      invariant forall b :: b in pool ==> b !in remaining
      invariant forall b :: b in bids <==> b in pool || b in remaining
      decreases |remaining|
    {
      var b :| b in remaining;
      pool := pool + [b];
      remaining := remaining - {b};
    }
  }

  /** A duplicate-free sequence has as many elements as its set. */
  lemma {:induction false} NoDupCard<T>(s: seq<T>)
    requires NoDup(s)
    ensures |set x | x in s| == |s|
  {
    if s != [] {
      var t := s[1..];
      assert NoDup(t) by {
        forall i, j | 0 <= i < j < |t| ensures t[i] != t[j] { assert t[i] == s[i + 1] && t[j] == s[j + 1]; }
      }
      NoDupCard(t);
      assert s[0] !in t by {
        forall k | 0 <= k < |t| ensures t[k] != s[0] { assert t[k] == s[k + 1]; }
      }
      assert (set x | x in s) == {s[0]} + (set x | x in t) by {
        assert forall x :: x in s <==> x == s[0] || x in t by { assert s == [s[0]] + t; }
      }
    }
  }

  // ---------------------------------------------------------------------------
  // Batches of 64
  // ---------------------------------------------------------------------------

  function Min(a: int, b: int): int { if a <= b then a else b }

  /** `(len(bids) + batch_size - 1) // batch_size`. */
  function NumBatches(n: nat): nat
  {
    (n + BatchSize - 1) / BatchSize
  }

  /** The number of batches is the ceiling of n / 64: the batches cover the
      pool, and the last batch is not empty. */
  lemma NumBatchesIsCeiling(n: nat)
    ensures NumBatches(n) * BatchSize >= n
    ensures n > 0 ==> (NumBatches(n) - 1) * BatchSize < n
    ensures n == 0 <==> NumBatches(n) == 0
  {
  }

  /** `bids[k * 64 : (k + 1) * 64]`, with Python's clamping of slice bounds. */
  function Batch(pool: seq<Bid>, k: nat): seq<Bid>
  {
    pool[Min(k * BatchSize, |pool|)..Min((k + 1) * BatchSize, |pool|)]
  }

  /** The concatenation of batches `0 .. count - 1`. */
  function Batched(pool: seq<Bid>, count: nat): seq<Bid>
  {
    if count == 0 then [] else Batched(pool, count - 1) + Batch(pool, count - 1)
  }

  lemma {:induction false} BatchedIsPrefix(pool: seq<Bid>, count: nat)
    ensures Batched(pool, count) == pool[..Min(count * BatchSize, |pool|)]
  {
    if count > 0 {
      BatchedIsPrefix(pool, count - 1);
      var lo := Min((count - 1) * BatchSize, |pool|);
      var hi := Min(count * BatchSize, |pool|);
      assert pool[..hi] == pool[..lo] + pool[lo..hi];
    }
  }

  /** The batches partition the pool: concatenated in order they give the pool
      back, and pool element `i` sits in batch `i / 64` at position `i % 64`. */
  lemma BatchesPartition(pool: seq<Bid>)
    ensures Batched(pool, NumBatches(|pool|)) == pool
    ensures forall i :: 0 <= i < |pool| ==>
      i / BatchSize < NumBatches(|pool|) && i % BatchSize < |Batch(pool, i / BatchSize)| &&
      Batch(pool, i / BatchSize)[i % BatchSize] == pool[i]
  {
    NumBatchesIsCeiling(|pool|);
    BatchedIsPrefix(pool, NumBatches(|pool|));
    forall i | 0 <= i < |pool|
      ensures i / BatchSize < NumBatches(|pool|) && i % BatchSize < |Batch(pool, i / BatchSize)| &&
        Batch(pool, i / BatchSize)[i % BatchSize] == pool[i]
    {
      var k := i / BatchSize;
      assert k * BatchSize <= i < (k + 1) * BatchSize;
    }
  }

  /** With no duplicates, a bid lies in exactly one batch. */
  lemma BidInOneBatch(pool: seq<Bid>, b: Bid, k1: nat, k2: nat)
    requires NoDup(pool)
    requires b in Batch(pool, k1) && b in Batch(pool, k2)
    ensures k1 == k2
  {
    var lo1, hi1 := Min(k1 * BatchSize, |pool|), Min((k1 + 1) * BatchSize, |pool|);
    var lo2, hi2 := Min(k2 * BatchSize, |pool|), Min((k2 + 1) * BatchSize, |pool|);
    var m1 :| 0 <= m1 < hi1 - lo1 && pool[lo1..hi1][m1] == b;
    var m2 :| 0 <= m2 < hi2 - lo2 && pool[lo2..hi2][m2] == b;
    assert pool[lo1 + m1] == pool[lo2 + m2];
    assert lo1 + m1 == lo2 + m2;
  }

  // ---------------------------------------------------------------------------
  // Scoring and sorting
  // ---------------------------------------------------------------------------

  /** The records of a bid list scored by `f`, in list order. */
  function ScoreAll(bids: seq<Bid>, f: Bid -> real): (r: seq<Scored>)
    ensures |r| == |bids|
    ensures forall i :: 0 <= i < |bids| ==> r[i] == Scored(f(bids[i]), bids[i])
  {
    seq(|bids|, i requires 0 <= i < |bids| => Scored(f(bids[i]), bids[i]))
  }

  lemma ScoreAllAppend(a: seq<Bid>, b: seq<Bid>, f: Bid -> real)
    ensures ScoreAll(a + b, f) == ScoreAll(a, f) + ScoreAll(b, f)
  {
  }

  /** The score of a bid for one image: the similarity of the image embedding
      with the bid's embedding (bids without an embedding never reach it). */
  function ScoreFn(zimg: Embedding, lemmaEmbeds: map<Bid, Embedding>, sim: (Embedding, Embedding) -> real): Bid -> real
  {
    b => if b in lemmaEmbeds then sim(zimg, lemmaEmbeds[b]) else 0.0
  }

  predicate SortedDesc(s: seq<Scored>)
  {
    forall i, j :: 0 <= i < j < |s| ==> s[i].score >= s[j].score
  }

  /** Insert before the first record with a score not above x's: records with
      equal scores keep their relative order. */
  function InsertDesc(x: Scored, s: seq<Scored>): (r: seq<Scored>)
    ensures multiset(r) == multiset(s) + multiset{x}
    ensures |r| == |s| + 1
  {
    if s == [] || x.score >= s[0].score then [x] + s
    else
      assert s == [s[0]] + s[1..];
      [s[0]] + InsertDesc(x, s[1..])
  }

  /** Every record of `t` scores at most `bound` when `t` holds only `x` and
      records of `s`, all at most `bound`. */
  lemma BoundedByMultiset(t: seq<Scored>, s: seq<Scored>, x: Scored, bound: real)
    requires multiset(t) == multiset(s) + multiset{x}
    requires x.score <= bound && forall j :: 0 <= j < |s| ==> s[j].score <= bound
    ensures forall j :: 0 <= j < |t| ==> t[j].score <= bound
  {
    forall j | 0 <= j < |t| ensures t[j].score <= bound {
      assert t[j] in multiset(t);
      if t[j] != x {
        assert t[j] in multiset(s);
        var m :| 0 <= m < |s| && s[m] == t[j];
      }
    }
  }

  lemma {:induction false} InsertDescSorted(x: Scored, s: seq<Scored>)
    requires SortedDesc(s)
    ensures SortedDesc(InsertDesc(x, s))
  {
    if s != [] && x.score < s[0].score {
      var tail := s[1..];
      assert SortedDesc(tail) by {
        forall i, j | 0 <= i < j < |tail| ensures tail[i].score >= tail[j].score { assert tail[i] == s[i + 1] && tail[j] == s[j + 1]; }
      }
      InsertDescSorted(x, tail);
      var t := InsertDesc(x, tail);
      assert forall j :: 0 <= j < |tail| ==> tail[j].score <= s[0].score by {
        forall j | 0 <= j < |tail| ensures tail[j].score <= s[0].score { assert tail[j] == s[j + 1]; }
      }
      BoundedByMultiset(t, tail, x, s[0].score);
    }
  }

  /** Python's stable `sorted(..., key=lambda x: -x["score"])`: a permutation
      ordered by score, highest first. */
  function SortDesc(s: seq<Scored>): (r: seq<Scored>)
    ensures SortedDesc(r)
    ensures multiset(r) == multiset(s)
    ensures |r| == |s|
  {
    if s == [] then []
    else
      assert s == [s[0]] + s[1..];
      var t := SortDesc(s[1..]);
      InsertDescSorted(s[0], t);
      InsertDesc(s[0], t)
  }

  function BidsOf(s: seq<Scored>): (r: seq<Bid>)
    ensures |r| == |s| && forall i :: 0 <= i < |s| ==> r[i] == s[i].bid
  {
    seq(|s|, i requires 0 <= i < |s| => s[i].bid)
  }

  /** `xs` is a valid per-image result for the candidate bids `bids`: one record
      per distinct bid, no bid twice, each scored by `f`, highest score first. */
  ghost predicate IsRankingOf(xs: seq<Scored>, bids: seq<Bid>, f: Bid -> real)
  {
    && SortedDesc(xs)
    && NoDup(BidsOf(xs))
    && (forall b :: b in bids <==> b in BidsOf(xs))
    && (forall i :: 0 <= i < |xs| ==> xs[i].score == f(xs[i].bid))
    && |xs| == |set b | b in bids|
  }

  lemma {:induction false} ScoreAllAtMostOnce(pool: seq<Bid>, f: Bid -> real, x: Scored)
    requires NoDup(pool)
    ensures multiset(ScoreAll(pool, f))[x] <= 1
  {
    if pool != [] {
      var t := pool[1..];
      assert NoDup(t) by {
        forall i, j | 0 <= i < j < |t| ensures t[i] != t[j] { assert t[i] == pool[i + 1] && t[j] == pool[j + 1]; }
      }
      ScoreAllAtMostOnce(t, f, x);
      assert ScoreAll(pool, f) == [Scored(f(pool[0]), pool[0])] + ScoreAll(t, f);
      if x == Scored(f(pool[0]), pool[0]) {
        assert x !in ScoreAll(t, f) by {
          forall k | 0 <= k < |t| ensures ScoreAll(t, f)[k] != x { assert t[k] == pool[k + 1]; }
        }
      }
    }
  }

  lemma TwoIndicesCount(s: seq<Scored>, i: nat, j: nat)
    requires i < j < |s| && s[i] == s[j]
    ensures multiset(s)[s[i]] >= 2
  {
    assert s == s[..j] + [s[j]] + s[j + 1..];
    assert s[i] == s[..j][i];
    assert multiset(s[..j])[s[i]] >= 1;
  }

  /** A sorted permutation of the scored, duplicate-free pool is a ranking of
      every bid list with the pool's elements. */
  lemma RankingFromPermutation(xs: seq<Scored>, pool: seq<Bid>, bids: seq<Bid>, f: Bid -> real)
    requires SortedDesc(xs) && NoDup(pool)
    requires multiset(xs) == multiset(ScoreAll(pool, f))
    requires forall b :: b in pool <==> b in bids
    ensures IsRankingOf(xs, bids, f)
  {
    var all := ScoreAll(pool, f);
    assert |xs| == |all| by { assert |multiset(xs)| == |multiset(all)|; }
    forall i | 0 <= i < |xs| ensures xs[i].score == f(xs[i].bid) && xs[i].bid in pool {
      assert xs[i] in multiset(xs);
      var m :| 0 <= m < |all| && all[m] == xs[i];
    }
    forall b | b in bids ensures b in BidsOf(xs) {
      var m :| 0 <= m < |pool| && pool[m] == b;
      assert all[m] in multiset(all);
      var i :| 0 <= i < |xs| && xs[i] == all[m];
      assert BidsOf(xs)[i] == b;
    }
    forall i, j | 0 <= i < j < |xs| ensures BidsOf(xs)[i] != BidsOf(xs)[j] {
      if xs[i].bid == xs[j].bid {
        assert xs[i] == xs[j];
        TwoIndicesCount(xs, i, j);
        ScoreAllAtMostOnce(pool, f, xs[i]);
      }
    }
    NoDupCard(pool);
    assert (set b | b in bids) == (set b | b in pool);
  }

  // ---------------------------------------------------------------------------
  // One image
  // ---------------------------------------------------------------------------

  lemma BatchStartInRange(k: nat, n: nat)
    requires k < NumBatches(n)
    ensures k * BatchSize < n
  {
  }

  /** Extending a prefix of the pool by the next batch: its bids all have
      embeddings, and its scored records are the prefix's followed by the batch's. */
  lemma PrefixExtends(pool: seq<Bid>, lo: nat, hi: nat, lemmaEmbeds: map<Bid, Embedding>, f: Bid -> real)
    requires lo <= hi <= |pool|
    requires forall b :: b in pool[..lo] ==> b in lemmaEmbeds
    requires forall b :: b in pool[lo..hi] ==> b in lemmaEmbeds
    ensures forall b :: b in pool[..hi] ==> b in lemmaEmbeds
    ensures ScoreAll(pool[..hi], f) == ScoreAll(pool[..lo], f) + ScoreAll(pool[lo..hi], f)
  {
    assert pool[..hi] == pool[..lo] + pool[lo..hi];
    ScoreAllAppend(pool[..lo], pool[lo..hi], f);
  }

  /** The batch loop over a de-duplicated pool: every batch is scored and
      sorted, and the sorted batches are concatenated. A bid without an
      embedding stops the loop (the KeyError), reported as an absent result. */
  method ScoreBatches(zimg: Embedding, pool: seq<Bid>, lemmaEmbeds: map<Bid, Embedding>,
                      sim: (Embedding, Embedding) -> real) returns (r: Option<seq<Scored>>)
    ensures r.None? <==> exists b :: b in pool && b !in lemmaEmbeds
    ensures r.Some? ==> multiset(r.value) == multiset(ScoreAll(pool, ScoreFn(zimg, lemmaEmbeds, sim)))
  {
    var f := ScoreFn(zimg, lemmaEmbeds, sim);
    var n := |pool|;
    var numBatches := (n + BatchSize - 1) / BatchSize;
    var finalResults: seq<Scored> := [];
    for batchIdx := 0 to numBatches
      invariant forall b :: b in pool[..Min(batchIdx * BatchSize, n)] ==> b in lemmaEmbeds
      invariant multiset(finalResults) == multiset(ScoreAll(pool[..Min(batchIdx * BatchSize, n)], f))
    {
      BatchStartInRange(batchIdx, n);
      var lo := batchIdx * BatchSize;
      var hi := Min((batchIdx + 1) * BatchSize, n);
      var batch := Batch(pool, batchIdx);
      assert batch == pool[lo..hi];
      if exists b :: b in batch && b !in lemmaEmbeds {
        r := None;
        return;
      }
      var scored := seq(|batch|, i requires 0 <= i < |batch| => Scored(sim(zimg, lemmaEmbeds[batch[i]]), batch[i]));
      assert scored == ScoreAll(batch, f);
      PrefixExtends(pool, lo, hi, lemmaEmbeds, f);
      finalResults := finalResults + SortDesc(scored);
    }
    NumBatchesIsCeiling(n);
    assert pool[..Min(numBatches * BatchSize, n)] == pool;
    r := Some(finalResults);
  }

  /** The body of the `try` for one image once its embedding is found: pool,
      de-duplicate, score batch by batch, sort globally. The result is absent
      exactly when some candidate bid has no embedding (the KeyError that
      makes the source skip the image). */
  method RankImage(zimg: Embedding, neighbours: seq<Neighbour>, lemmaEmbeds: map<Bid, Embedding>,
                   sim: (Embedding, Embedding) -> real) returns (r: Option<seq<Scored>>)
    ensures r.None? <==> exists b :: b in AllBids(neighbours) && b !in lemmaEmbeds
    ensures r.Some? ==> IsRankingOf(r.value, AllBids(neighbours), ScoreFn(zimg, lemmaEmbeds, sim))
  {
    var bids := CollectBids(neighbours);
    var pool := Dedupe(bids);
    var scored := ScoreBatches(zimg, pool, lemmaEmbeds, sim);
    if scored.None? {
      r := None;
    } else {
      var finalResults := SortDesc(scored.value);
      RankingFromPermutation(finalResults, pool, bids, ScoreFn(zimg, lemmaEmbeds, sim));
      r := Some(finalResults);
    }
  }

  /** An image with no candidate bids gets an empty entry, not a skip. */
  lemma {:induction false} EmptyPoolGivesEmptyRanking(xs: seq<Scored>, neighbours: seq<Neighbour>, f: Bid -> real)
    requires forall k :: 0 <= k < |neighbours| ==> neighbours[k].bids == []
    requires IsRankingOf(xs, AllBids(neighbours), f)
    ensures xs == []
  {
    if xs != [] {
      assert xs[0].bid in BidsOf(xs);
      AllBidsMembers(neighbours, xs[0].bid);
    }
  }

  // ---------------------------------------------------------------------------
  // All images
  // ---------------------------------------------------------------------------

  /** The case-sensitive suffix test of `lemma_match`. */
  predicate HasLemmaSuffix(filename: string)
  {
    EndsWith(filename, ".JPEG") || EndsWith(filename, ".png") || EndsWith(filename, ".jpg") || EndsWith(filename, ".jpeg")
  }

  /** Image `i` produces an entry: its name has an accepted suffix, its
      embedding is known, the retrieval output has an entry for it, and every
      candidate bid has an embedding. Any other image raises inside the `try`
      (or fails the suffix test) and is skipped. */
  predicate Rankable(paths: seq<string>, i: nat, imageEmbeddings: map<string, Embedding>,
                     bidsMatch: seq<seq<Neighbour>>, lemmaEmbeds: map<Bid, Embedding>)
    requires i < |paths|
  {
    && HasLemmaSuffix(paths[i])
    && paths[i] in imageEmbeddings
    && i < |bidsMatch|
    && forall b :: b in AllBids(bidsMatch[i]) ==> b in lemmaEmbeds
  }

  /** The indices, in order, of the images among the first `n` that produce an entry. */
  function RankedIndices(paths: seq<string>, n: nat, imageEmbeddings: map<string, Embedding>,
                         bidsMatch: seq<seq<Neighbour>>, lemmaEmbeds: map<Bid, Embedding>): (r: seq<nat>)
    requires n <= |paths|
    ensures |r| <= n
    ensures forall k :: 0 <= k < |r| ==> r[k] < n && Rankable(paths, r[k], imageEmbeddings, bidsMatch, lemmaEmbeds)
    ensures forall k, l :: 0 <= k < l < |r| ==> r[k] < r[l]
  {
    if n == 0 then []
    else
      RankedIndices(paths, n - 1, imageEmbeddings, bidsMatch, lemmaEmbeds) +
      (if Rankable(paths, n - 1, imageEmbeddings, bidsMatch, lemmaEmbeds) then [n - 1] else [])
  }

  /** Every image that can be ranked does get an entry. */
  lemma {:induction false} RankableImagesAreRanked(paths: seq<string>, n: nat, i: nat, imageEmbeddings: map<string, Embedding>,
                                 bidsMatch: seq<seq<Neighbour>>, lemmaEmbeds: map<Bid, Embedding>)
    requires i < n <= |paths| && Rankable(paths, i, imageEmbeddings, bidsMatch, lemmaEmbeds)
    ensures i in RankedIndices(paths, n, imageEmbeddings, bidsMatch, lemmaEmbeds)
  {
    if i < n - 1 {
      RankableImagesAreRanked(paths, n - 1, i, imageEmbeddings, bidsMatch, lemmaEmbeds);
    }
  }

  /** The sorted image paths `lemma_match` iterates over. */
  function ImagePaths(walk: seq<Utils.WalkEntry>): seq<string>
  {
    SortStrings(Utils.ImagesOf(walk))
  }

  /** The entry expected for image `i`: a ranking of its candidate bids. */
  ghost predicate IsEntryFor(entry: seq<Scored>, paths: seq<string>, i: nat, imageEmbeddings: map<string, Embedding>,
                       bidsMatch: seq<seq<Neighbour>>, lemmaEmbeds: map<Bid, Embedding>, sim: (Embedding, Embedding) -> real)
    requires i < |paths| && Rankable(paths, i, imageEmbeddings, bidsMatch, lemmaEmbeds)
  {
    IsRankingOf(entry, AllBids(bidsMatch[i]), ScoreFn(imageEmbeddings[paths[i]], lemmaEmbeds, sim))
  }

  /** `results[k]` is the entry of image `ranked[k]`, for every k. */
  ghost predicate EntriesFor(results: seq<seq<Scored>>, paths: seq<string>, ranked: seq<nat>,
                             imageEmbeddings: map<string, Embedding>, bidsMatch: seq<seq<Neighbour>>,
                             lemmaEmbeds: map<Bid, Embedding>, sim: (Embedding, Embedding) -> real)
  {
    && |results| == |ranked|
    && forall k :: 0 <= k < |results| ==>
         ranked[k] < |paths| && Rankable(paths, ranked[k], imageEmbeddings, bidsMatch, lemmaEmbeds) &&
         IsEntryFor(results[k], paths, ranked[k], imageEmbeddings, bidsMatch, lemmaEmbeds, sim)
  }

  lemma EntriesExtend(results: seq<seq<Scored>>, paths: seq<string>, ranked: seq<nat>, entry: seq<Scored>, i: nat,
                      imageEmbeddings: map<string, Embedding>, bidsMatch: seq<seq<Neighbour>>,
                      lemmaEmbeds: map<Bid, Embedding>, sim: (Embedding, Embedding) -> real)
    requires EntriesFor(results, paths, ranked, imageEmbeddings, bidsMatch, lemmaEmbeds, sim)
    requires i < |paths| && Rankable(paths, i, imageEmbeddings, bidsMatch, lemmaEmbeds)
    requires IsEntryFor(entry, paths, i, imageEmbeddings, bidsMatch, lemmaEmbeds, sim)
    ensures EntriesFor(results + [entry], paths, ranked + [i], imageEmbeddings, bidsMatch, lemmaEmbeds, sim)
  {
    var r2, k2 := results + [entry], ranked + [i];
    forall k | 0 <= k < |r2|
      ensures k2[k] < |paths| && Rankable(paths, k2[k], imageEmbeddings, bidsMatch, lemmaEmbeds) &&
        IsEntryFor(r2[k], paths, k2[k], imageEmbeddings, bidsMatch, lemmaEmbeds, sim)
    {
      if k < |results| { assert r2[k] == results[k] && k2[k] == ranked[k]; }
    }
  }

  /** The entries are unchanged by an image that produces none, and by one
      that does they grow by its entry. */
  lemma EntriesStep(results: seq<seq<Scored>>, paths: seq<string>, i: nat, r: Option<seq<Scored>>,
                    imageEmbeddings: map<string, Embedding>, bidsMatch: seq<seq<Neighbour>>,
                    lemmaEmbeds: map<Bid, Embedding>, sim: (Embedding, Embedding) -> real)
    requires i < |paths|
    requires EntriesFor(results, paths, RankedIndices(paths, i, imageEmbeddings, bidsMatch, lemmaEmbeds),
                        imageEmbeddings, bidsMatch, lemmaEmbeds, sim)
    requires r.Some? <==> Rankable(paths, i, imageEmbeddings, bidsMatch, lemmaEmbeds)
    requires r.Some? ==> IsEntryFor(r.value, paths, i, imageEmbeddings, bidsMatch, lemmaEmbeds, sim)
    ensures EntriesFor(if r.Some? then results + [r.value] else results, paths,
                       RankedIndices(paths, i + 1, imageEmbeddings, bidsMatch, lemmaEmbeds),
                       imageEmbeddings, bidsMatch, lemmaEmbeds, sim)
  {
    var ranked := RankedIndices(paths, i, imageEmbeddings, bidsMatch, lemmaEmbeds);
    assert RankedIndices(paths, i + 1, imageEmbeddings, bidsMatch, lemmaEmbeds) ==
      ranked + (if r.Some? then [i] else []);
    if r.Some? {
      EntriesExtend(results, paths, ranked, r.value, i, imageEmbeddings, bidsMatch, lemmaEmbeds, sim);
    } else {
      assert ranked + [] == ranked;
    }
  }

  /** One pass of the `try` block for image `i`: the entry when the image is
      rankable, nothing when the suffix test fails or a lookup raises. */
  method TryImage(paths: seq<string>, i: nat, imageEmbeddings: map<string, Embedding>,
                  bidsMatch: seq<seq<Neighbour>>, lemmaEmbeds: map<Bid, Embedding>,
                  sim: (Embedding, Embedding) -> real) returns (r: Option<seq<Scored>>)
    requires i < |paths|
    ensures r.Some? <==> Rankable(paths, i, imageEmbeddings, bidsMatch, lemmaEmbeds)
    ensures r.Some? ==> IsEntryFor(r.value, paths, i, imageEmbeddings, bidsMatch, lemmaEmbeds, sim)
  {
    var filename := paths[i];
    if HasLemmaSuffix(filename) && filename in imageEmbeddings && i < |bidsMatch| {
      r := RankImage(imageEmbeddings[filename], bidsMatch[i], lemmaEmbeds, sim);
    } else {
      r := None;
    }
  }

  /** `lemma_match`: one entry per rankable image, in image order; every other
      image contributes nothing, so the result can be shorter than the list of
      images. */
  method LemmaMatch(walk: seq<Utils.WalkEntry>, imageEmbeddings: map<string, Embedding>,
                    bidsMatch: seq<seq<Neighbour>>, lemmaEmbeds: map<Bid, Embedding>,
                    sim: (Embedding, Embedding) -> real) returns (results: seq<seq<Scored>>)
    ensures EntriesFor(results, ImagePaths(walk), RankedIndices(ImagePaths(walk), |ImagePaths(walk)|, imageEmbeddings, bidsMatch, lemmaEmbeds),
                       imageEmbeddings, bidsMatch, lemmaEmbeds, sim)
  {
    var found := Utils.GetImagePaths(walk);
    var paths := SortStrings(found);
    results := [];
    for i := 0 to |paths|
      invariant EntriesFor(results, paths, RankedIndices(paths, i, imageEmbeddings, bidsMatch, lemmaEmbeds),
                           imageEmbeddings, bidsMatch, lemmaEmbeds, sim)
    {
      var r := TryImage(paths, i, imageEmbeddings, bidsMatch, lemmaEmbeds, sim);
      EntriesStep(results, paths, i, r, imageEmbeddings, bidsMatch, lemmaEmbeds, sim);
      if r.Some? {
        results := results + [r.value];
      }
    }
  }
}
