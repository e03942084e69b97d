/** The query side of the resume index: the chunk texts and their vectors
    are loaded once and cached, the query is embedded, every chunk is
    scored against it, and the best `k` chunks are returned best first as
    (score, text) pairs.  Scores are reals standing in for the float dot
    products; the embedding service, the dot product and numpy's argsort
    are parameters. */
module Retrieval {
  import opened Prelude

  /** One entry of the list `retrieve` returns: `{"score": ..., "text": ...}`. */
  datatype Hit = Hit(score: real, text: string)

  datatype Error =
    | IndexNotFound       // the `RuntimeError` raised when an index file is missing
    | IndexError          // `chunks[i]` with `i` past the end of the chunk list
    | ServiceError(message: string)  // the embedding service raised
    | MissingApiKey       // the client constructor raised: no API key is set

  // ---------------------------------------------------------------------
  // np.argsort(scores)[-k:][::-1]
  // ---------------------------------------------------------------------

  /** `order` is a sorting permutation of `scores`: every index exactly
      once, scores ascending along it.  Ties may come in any order, as
      numpy's default sort is not stable. */
  predicate IsArgsort(scores: seq<real>, order: seq<int>)
  {
    && |order| == |scores|
    && (forall p :: 0 <= p < |order| ==> 0 <= order[p] < |scores|)
    && (forall p, q :: 0 <= p < q < |order| ==> order[p] != order[q])
    && (forall i :: 0 <= i < |scores| ==> i in order)
    && (forall p, q :: 0 <= p <= q < |order| ==> scores[order[p]] <= scores[order[q]])
  }

  /** Where Python's slice `a[-k:]` starts in a sequence of length `n`:
      `-k` counts from the end when negative and is clipped to `[0, n]`. */
  function TailStart(n: nat, k: int): (s: nat)
    ensures s <= n
  {
    if -k < 0 then Max(0, n - k) else Min(-k, n)
  }

  /** `order[-k:][::-1]`. */
  function TopIndices(order: seq<int>, k: int): (top: seq<int>)
    ensures |top| == |order| - TailStart(|order|, k)
    ensures forall j :: 0 <= j < |top| ==> top[j] == order[|order| - 1 - j]
  {
    var tail := order[TailStart(|order|, k)..];
    seq(|tail|, j requires 0 <= j < |tail| => tail[|tail| - 1 - j])
  }

  /** How many indices are selected: `min(k, n)` for a positive `k`, all
      of them for `k = 0` (`[-0:]` is the whole array), and all but the
      `|k|` lowest for a negative `k`. */
  lemma TopCount(order: seq<int>, k: int)
    ensures |TopIndices(order, k)| ==
      if k >= 1 then Min(k, |order|) else if k == 0 then |order| else Max(0, |order| + k)
  {
  }

  /** The selected indices are distinct valid indices, best score first. */
  lemma TopDescending(scores: seq<real>, order: seq<int>, k: int)
    requires IsArgsort(scores, order)
    ensures var top := TopIndices(order, k);
      && (forall j :: 0 <= j < |top| ==> 0 <= top[j] < |scores|)
      && (forall a, b :: 0 <= a < b < |top| ==> top[a] != top[b])
      && (forall a, b :: 0 <= a <= b < |top| ==> scores[top[a]] >= scores[top[b]])
  {
    var top, n := TopIndices(order, k), |order|;
    forall a, b | 0 <= a <= b < |top|
      ensures scores[top[a]] >= scores[top[b]]
      ensures a < b ==> top[a] != top[b]
    {
      assert top[a] == order[n - 1 - a] && top[b] == order[n - 1 - b];
    }
  }

  /** Every entry of the slice `order[-k:]` is selected. */
  lemma TailInTop(order: seq<int>, k: int)
    ensures forall p :: TailStart(|order|, k) <= p < |order| ==> order[p] in TopIndices(order, k)
  {
    var top, n := TopIndices(order, k), |order|;
    forall p | TailStart(n, k) <= p < n
      ensures order[p] in top
    {
      assert top[n - 1 - p] == order[p];
    }
  }

  /** The selection is a top set: no index left out scores higher than
      any index selected. */
  lemma TopSet(scores: seq<real>, order: seq<int>, k: int)
    requires IsArgsort(scores, order)
    ensures var top := TopIndices(order, k);
      forall i, j :: 0 <= i < |scores| && i !in top && 0 <= j < |top| ==> scores[i] <= scores[top[j]]
  {
    var top, n, s := TopIndices(order, k), |order|, TailStart(|order|, k);
    forall i, j | 0 <= i < |scores| && i !in top && 0 <= j < |top|
      ensures scores[i] <= scores[top[j]]
    {
      assert i in order;
      var p :| 0 <= p < n && order[p] == i;
      TailInTop(order, k);
      assert p < s;
      assert top[j] == order[n - 1 - j];
    }
  }

  /** Every index is selected once `k` is at least the number of chunks,
      or is 0. */
  lemma TopAll(scores: seq<real>, order: seq<int>, k: int)
    requires IsArgsort(scores, order) && (k == 0 || k >= |scores|)
    ensures forall i :: 0 <= i < |scores| ==> i in TopIndices(order, k)
  {
    var top, n := TopIndices(order, k), |order|;
    forall i | 0 <= i < |scores|
      ensures i in top
    {
      assert i in order;
      var p :| 0 <= p < n && order[p] == i;
      TailInTop(order, k);
    }
  }

  // ---------------------------------------------------------------------
  // Pairing scores with chunks
  // ---------------------------------------------------------------------

  /** The results for indices `top`: each pairs `scores[i]` with
      `chunks[i]`; an index past the end of `chunks` raises. */
  function Pair(scores: seq<real>, chunks: seq<string>, top: seq<int>): (r: Result<seq<Hit>, Error>)
    requires forall j :: 0 <= j < |top| ==> 0 <= top[j] < |scores|
    ensures r.Ok? <==> forall j :: 0 <= j < |top| ==> top[j] < |chunks|
    ensures r.Err? ==> r.error == IndexError
    ensures r.Ok? ==>
      && |r.value| == |top|
      && forall j :: 0 <= j < |top| ==> r.value[j] == Hit(scores[top[j]], chunks[top[j]])
  {
    if forall j :: 0 <= j < |top| ==> top[j] < |chunks| then
      Ok(seq(|top|, j requires 0 <= j < |top| => Hit(scores[top[j]], chunks[top[j]])))
    else
      Err(IndexError)
  }

  /** The loop `for i in top_idx: results.append({...})`. */
  method CollectHits(scores: seq<real>, chunks: seq<string>, top: seq<int>) returns (r: Result<seq<Hit>, Error>)
    requires forall j :: 0 <= j < |top| ==> 0 <= top[j] < |scores|
    ensures r == Pair(scores, chunks, top)
  {
    var results: seq<Hit> := [];
    for j := 0 to |top|
      invariant forall m :: 0 <= m < j ==> top[m] < |chunks|
      invariant results == seq(j, m requires 0 <= m < j => Hit(scores[top[m]], chunks[top[m]]))
    {
      var i := top[j];
      if i >= |chunks| {
        return Err(IndexError);
      }
      results := results + [Hit(scores[i], chunks[i])];
    }
    return Ok(results);
  }

  /** What `retrieve` returns once the scores are known. */
  function Ranked(scores: seq<real>, chunks: seq<string>, order: seq<int>, k: int): (r: Result<seq<Hit>, Error>)
    requires IsArgsort(scores, order)
    ensures r.Ok? ==> |r.value| == |TopIndices(order, k)|
    ensures r.Err? ==> r == Err(IndexError)
    ensures |chunks| >= |scores| ==> r.Ok?
  {
    TopDescending(scores, order, k);
    Pair(scores, chunks, TopIndices(order, k))
  }

  /** The results come best first, and no chunk left out scores higher
      than a chunk returned. */
  lemma RankedOrder(scores: seq<real>, chunks: seq<string>, order: seq<int>, k: int)
    requires IsArgsort(scores, order)
    ensures var r := Ranked(scores, chunks, order, k);
      r.Ok? ==>
        && (forall a, b :: 0 <= a <= b < |r.value| ==> r.value[a].score >= r.value[b].score)
        && (forall i, j :: 0 <= i < |scores| && i !in TopIndices(order, k) && 0 <= j < |r.value| ==>
              scores[i] <= r.value[j].score)
  {
    TopDescending(scores, order, k);
    TopSet(scores, order, k);
  }

  /** The results succeed exactly when the chunk list is long enough for
      every selected index; with one chunk per vector they always do. */
  lemma RankedOk(scores: seq<real>, chunks: seq<string>, order: seq<int>, k: int)
    requires IsArgsort(scores, order) && |chunks| == |scores|
    ensures Ranked(scores, chunks, order, k).Ok?
    ensures |Ranked(scores, chunks, order, k).value| ==
      if k >= 1 then Min(k, |scores|) else if k == 0 then |scores| else Max(0, |scores| + k)
  {
    TopDescending(scores, order, k);
    TopCount(order, k);
  }

  /** An empty index gives an empty list. */
  lemma RankedEmpty(chunks: seq<string>, order: seq<int>, k: int)
    requires IsArgsort([], order)
    ensures Ranked([], chunks, order, k) == Ok([])
  {
  }

  // ---------------------------------------------------------------------
  // The module state: client and index, created on first use
  // ---------------------------------------------------------------------

  /** The embedding client, built from the API key in the environment. */
  datatype Client = Client(apiKey: string)

  /** The two index files as they stand on disk: `None` when the file does
      not exist, otherwise its parsed contents. */
  datatype Disk<V> = Disk(chunksFile: Option<seq<string>>, vectorsFile: Option<seq<V>>)

  /** The module globals `_client`, `_chunks` and `_vectors`. */
  class Retriever<V> {
    var client: Option<Client>
    var chunks: Option<seq<string>>
    var vectors: Option<seq<V>>

    constructor ()
      ensures client == None && chunks == None && vectors == None
    {
      client := None;
      chunks := None;
      vectors := None;
    }

    /** `_client_get()`: the first call creates the client, later calls
        return the same one.  `apiKey` is `OPENAI_API_KEY` as read from the
        environment; without it the client constructor raises and nothing
        is cached, so the next call tries again. */
    method ClientGet(apiKey: Option<string>) returns (r: Result<Client, Error>)
      modifies this
      ensures old(client).Some? ==> r == Ok(old(client).value) && client == old(client)
      ensures old(client).None? && apiKey.None? ==> r == Err(MissingApiKey) && client == None
      ensures old(client).None? && apiKey.Some? ==>
        r == Ok(Client(apiKey.value)) && client == Some(Client(apiKey.value))
      ensures chunks == old(chunks) && vectors == old(vectors)
    {
      if client.None? {
        if apiKey.None? {
          return Err(MissingApiKey);
        }
        client := Some(Client(apiKey.value));
      }
      r := Ok(client.value);
    }

    /** `_load_index()`: when either global is still unset, both files are
        read, or `RuntimeError` is raised if one is missing; once both are
        set, the cached pair is returned and the disk is not looked at. */
    method LoadIndex(disk: Disk<V>) returns (r: Result<(seq<string>, seq<V>), Error>)
      modifies this
      ensures old(chunks).Some? && old(vectors).Some? ==>
        r == Ok((old(chunks).value, old(vectors).value)) && chunks == old(chunks) && vectors == old(vectors)
      ensures (old(chunks).None? || old(vectors).None?) && (disk.chunksFile.None? || disk.vectorsFile.None?) ==>
        r == Err(IndexNotFound) && chunks == old(chunks) && vectors == old(vectors)
      ensures (old(chunks).None? || old(vectors).None?) && disk.chunksFile.Some? && disk.vectorsFile.Some? ==>
        r == Ok((disk.chunksFile.value, disk.vectorsFile.value)) && chunks == disk.chunksFile && vectors == disk.vectorsFile
      ensures r.Ok? ==> chunks == Some(r.value.0) && vectors == Some(r.value.1)
      ensures client == old(client)
    {
      if chunks.None? || vectors.None? {
        if disk.chunksFile.None? || disk.vectorsFile.None? {
          return Err(IndexNotFound);
        }
        chunks := disk.chunksFile;
        vectors := disk.vectorsFile;
      }
      r := Ok((chunks.value, vectors.value));
    }

    /** `retrieve(query, k)`: load the index, embed the query, score every
        vector against it, select with `argsort` and pair with the chunks.
        Once the index is in memory the result is `Answer` of the cached
        pair and the client as it then stands. */
    method Retrieve<Q>(disk: Disk<V>, apiKey: Option<string>, query: string, k: int,
                       embed: (Client, string) -> Result<Q, string>,
                       dot: (V, Q) -> real,
                       argsort: seq<real> -> seq<int>)
      returns (r: Result<seq<Hit>, Error>)
      requires forall s :: IsArgsort(s, argsort(s))
      modifies this
      ensures old(chunks).Some? && old(vectors).Some? ==>
        chunks == old(chunks) && vectors == old(vectors)
      ensures (old(chunks).None? || old(vectors).None?) && disk.chunksFile.Some? && disk.vectorsFile.Some? ==>
        chunks == disk.chunksFile && vectors == disk.vectorsFile
      ensures (old(chunks).None? || old(vectors).None?) && (disk.chunksFile.None? || disk.vectorsFile.None?) ==>
        r == Err(IndexNotFound) && chunks == old(chunks) && vectors == old(vectors) && client == old(client)
      ensures (old(chunks).Some? && old(vectors).Some?) || (disk.chunksFile.Some? && disk.vectorsFile.Some?) ==>
        && client == (if old(client).Some? then old(client)
                      else if apiKey.Some? then Some(Client(apiKey.value)) else None)
        && chunks.Some? && vectors.Some?
        && r == Answer(chunks.value, vectors.value, client, query, k, embed, dot, argsort)
    {
      var index := LoadIndex(disk);
      if index.Err? {
        return Err(index.error);
      }
      var (cs, vs) := index.value;
      var c := ClientGet(apiKey);
      if c.Err? {
        return Err(c.error);
      }
      var qv := embed(c.value, query);
      if qv.Err? {
        return Err(ServiceError(qv.error));
      }
      var scores := Scores(vs, qv.value, dot);
      var order := argsort(scores);
      TopDescending(scores, order, k);
      r := CollectHits(scores, cs, TopIndices(order, k));
    }
  }

  /** What `retrieve` returns for the index `cs`, `vs` and the client
      `c` (`None` when it could not be created): the missing-key error, the
      embedding service's error, or the ranked hits. */
  function Answer<V, Q>(cs: seq<string>, vs: seq<V>, c: Option<Client>, query: string, k: int,
                        embed: (Client, string) -> Result<Q, string>,
                        dot: (V, Q) -> real,
                        argsort: seq<real> -> seq<int>): (r: Result<seq<Hit>, Error>)
    requires forall s :: IsArgsort(s, argsort(s))
    ensures c.None? ==> r == Err(MissingApiKey)
    ensures c.Some? && embed(c.value, query).Err? ==> r == Err(ServiceError(embed(c.value, query).error))
    ensures r.Ok? ==> c.Some? && embed(c.value, query).Ok?
    ensures r != Err(IndexNotFound)
  {
    if c.None? then Err(MissingApiKey)
    else match embed(c.value, query)
      case Err(m) => Err(ServiceError(m))
      case Ok(q) =>
        var scores := Scores(vs, q, dot);
        Ranked(scores, cs, argsort(scores), k)
  }

  /** With one chunk per vector, a client and a query the service embeds,
      `retrieve` succeeds with `min(k, n)` hits for `k >= 1` (all of them
      for `k = 0`, all but the `|k|` lowest for `k < 0`), best first, and
      no chunk left out scores higher than one returned. */
  lemma AnswerRanked<V, Q>(cs: seq<string>, vs: seq<V>, c: Option<Client>, query: string, k: int,
                           embed: (Client, string) -> Result<Q, string>,
                           dot: (V, Q) -> real,
                           argsort: seq<real> -> seq<int>)
    requires forall s :: IsArgsort(s, argsort(s))
    requires |cs| == |vs| && c.Some? && embed(c.value, query).Ok?
    ensures var r := Answer(cs, vs, c, query, k, embed, dot, argsort);
      && r.Ok?
      && |r.value| == (if k >= 1 then Min(k, |vs|) else if k == 0 then |vs| else Max(0, |vs| + k))
      && (forall a, b :: 0 <= a <= b < |r.value| ==> r.value[a].score >= r.value[b].score)
      && var q := embed(c.value, query).value;
         var top := TopIndices(argsort(Scores(vs, q, dot)), k);
         forall i, j :: 0 <= i < |vs| && i !in top && 0 <= j < |r.value| ==>
           dot(vs[i], q) <= r.value[j].score
  {
    var scores := Scores(vs, embed(c.value, query).value, dot);
    RankedOk(scores, cs, argsort(scores), k);
    RankedOrder(scores, cs, argsort(scores), k);
  }

  /** `vectors @ qv`: one score per stored vector. */
  function Scores<V, Q>(vectors: seq<V>, q: Q, dot: (V, Q) -> real): (s: seq<real>)
    ensures |s| == |vectors| && forall i :: 0 <= i < |vectors| ==> s[i] == dot(vectors[i], q)
  {
    seq(|vectors|, i requires 0 <= i < |vectors| => dot(vectors[i], q))
  }
}
