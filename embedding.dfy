/** The batching loop of the offline embedder: the texts are cut into
    consecutive slices of at most `BatchSize`, each slice is sent to the
    embedding provider, and the vectors that come back are concatenated in
    order.  The provider itself (a remote call that may raise) is a
    parameter: a function from a batch of texts to either the vectors it
    returns or the exception it raises. */
module Embedding {
  import opened Prelude

  /** `EMBED_BATCH_SIZE`. */
  const BatchSize: nat := 64

  /** The slices `t[i:i+64]`, `t[i+64:i+128]`, ... up to the end of `t`. */
  function BatchesFrom<T>(t: seq<T>, i: nat): seq<seq<T>>
    decreases |t| - i
  {
    if i >= |t| then [] else [t[i..Min(i + BatchSize, |t|)]] + BatchesFrom(t, i + BatchSize)
  }

  /** The batches `range(0, len(texts), EMBED_BATCH_SIZE)` sends: they
      partition the texts in order into ceil(n / 64) non-empty slices of at
      most `BatchSize`, hence as many provider calls when none raises. */
  function Batches<T>(t: seq<T>): (r: seq<seq<T>>)
    ensures Flatten(r) == t
    ensures forall j :: 0 <= j < |r| ==> 0 < |r[j]| <= BatchSize
    ensures |r| == (|t| + BatchSize - 1) / BatchSize
  {
    BatchesFromPartition(t, 0);
    BatchesFromCount(t, 0);
    assert t[0..] == t;
    BatchesFrom(t, 0)
  }

  /** The outcome of sending `bs` one after the other: the first exception
      raised, or the concatenation of every batch's vectors. */
  function Embedded<V, E>(provider: seq<string> -> Result<seq<V>, E>, bs: seq<seq<string>>): (r: Result<seq<V>, E>)
    ensures r.Ok? ==> forall j :: 0 <= j < |bs| ==> provider(bs[j]).Ok?
  {
    if bs == [] then Ok([])
    else
      match Embedded(provider, bs[..|bs| - 1])
      case Err(e) => Err(e)
      case Ok(vs) =>
        match provider(bs[|bs| - 1])
        case Err(e) => Err(e)
        case Ok(v) => Ok(vs + v)
  }

  /** `embed_texts(texts)`, with the provider given. */
  method EmbedTexts<V, E>(texts: seq<string>, provider: seq<string> -> Result<seq<V>, E>)
    returns (r: Result<seq<V>, E>)
    ensures r == Embedded(provider, Batches(texts))
  {
    var all: seq<V> := [];
    ghost var sent: seq<seq<string>> := [];
    ghost var batches := BatchesFrom(texts, 0);
    var i := 0;
    while i < |texts|
      invariant 0 <= i
      invariant sent + BatchesFrom(texts, i) == batches
      invariant Embedded(provider, sent) == Ok(all)
      decreases |texts| - i
    {
      var batch := texts[i..Min(i + BatchSize, |texts|)];
      ghost var rest := BatchesFrom(texts, i + BatchSize);
      assert BatchesFrom(texts, i) == [batch] + rest;
      assert (sent + [batch]) + rest == batches;
      var resp := provider(batch);
      EmbeddedSnoc(provider, sent, batch);
      if resp.Err? {
        EmbeddedErrSticks(provider, sent + [batch], rest);
        assert batches == Batches(texts);
        return Err(resp.error);
      }
      all := all + resp.value;
      sent := sent + [batch];
      i := i + BatchSize;
    }
    assert sent == batches == Batches(texts);
    r := Ok(all);
  }

  /** Sending one more batch after `bs`. */
  lemma EmbeddedSnoc<V, E>(provider: seq<string> -> Result<seq<V>, E>, bs: seq<seq<string>>, b: seq<string>)
    ensures Embedded(provider, bs + [b]) ==
      match Embedded(provider, bs)
      case Err(e) => Err(e)
      case Ok(vs) => (match provider(b) case Err(e) => Err(e) case Ok(v) => Ok(vs + v))
  {
    assert (bs + [b])[..|bs|] == bs;
  }

  /** Once a batch has raised, later batches are never sent. */
  lemma {:induction false} EmbeddedErrSticks<V, E>(provider: seq<string> -> Result<seq<V>, E>,
                                                    bs: seq<seq<string>>, more: seq<seq<string>>)
    requires Embedded(provider, bs).Err?
    ensures Embedded(provider, bs + more) == Embedded(provider, bs)
    decreases |more|
  {
    if more != [] {
      var init := more[..|more| - 1];
      EmbeddedErrSticks(provider, bs, init);
      assert (bs + more)[..|bs + more| - 1] == bs + init;
    } else {
      assert bs + more == bs;
    }
  }

  // ---------------------------------------------------------------------
  // The batches partition the texts
  // ---------------------------------------------------------------------

  /** Every batch is non-empty, at most `BatchSize` long, and the batches
      put back together are the texts, in order. */
  lemma {:induction false} BatchesFromPartition<T>(t: seq<T>, i: nat)
    requires i <= |t|
    ensures Flatten(BatchesFrom(t, i)) == t[i..]
    ensures forall j :: 0 <= j < |BatchesFrom(t, i)| ==>
      0 < |BatchesFrom(t, i)[j]| <= BatchSize
    decreases |t| - i
  {
    var bs := BatchesFrom(t, i);
    if i < |t| {
      var hi := Min(i + BatchSize, |t|);
      var rest := BatchesFrom(t, hi);
      if i + BatchSize < |t| {
        BatchesFromPartition(t, i + BatchSize);
        assert rest == BatchesFrom(t, i + BatchSize);
      } else {
        assert BatchesFrom(t, i + BatchSize) == [] == rest;
      }
      assert bs == [t[i..hi]] + rest;
      FlattenCons(t[i..hi], rest);
      assert t[i..] == t[i..hi] + t[hi..];
      forall j | 0 <= j < |bs|
        ensures 0 < |bs[j]| <= BatchSize
      {
        if j > 0 { assert bs[j] == rest[j - 1]; }
      }
    } else {
      assert t[i..] == [];
    }
  }

  /** There are ceil((n - i) / 64) batches from `i` on. */
  lemma {:induction false} BatchesFromCount<T>(t: seq<T>, i: nat)
    requires i <= |t|
    ensures |BatchesFrom(t, i)| == (|t| - i + BatchSize - 1) / BatchSize
    decreases |t| - i
  {
    if i < |t| {
      if i + BatchSize < |t| {
        BatchesFromCount(t, i + BatchSize);
      } else {
        assert BatchesFrom(t, i + BatchSize) == [];
      }
    }
  }

  // ---------------------------------------------------------------------
  // The result is the per-batch responses in order
  // ---------------------------------------------------------------------

  /** The vectors each batch came back with, when none raised. */
  function Responses<V, E>(provider: seq<string> -> Result<seq<V>, E>, bs: seq<seq<string>>): (r: seq<seq<V>>)
    requires forall j :: 0 <= j < |bs| ==> provider(bs[j]).Ok?
    ensures |r| == |bs| && forall j :: 0 <= j < |bs| ==> r[j] == provider(bs[j]).value
  {
    seq(|bs|, j requires 0 <= j < |bs| => provider(bs[j]).value)
  }

  /** The run succeeds exactly when every batch succeeds, and its vectors
      are then the per-batch responses concatenated in batch order. */
  lemma {:induction false} EmbeddedOk<V, E>(provider: seq<string> -> Result<seq<V>, E>, bs: seq<seq<string>>)
    ensures Embedded(provider, bs).Ok? <==> forall j :: 0 <= j < |bs| ==> provider(bs[j]).Ok?
    ensures Embedded(provider, bs).Ok? ==> Embedded(provider, bs).value == Flatten(Responses(provider, bs))
    decreases |bs|
  {
    if bs != [] {
      var init := bs[..|bs| - 1];
      EmbeddedOk(provider, init);
      if forall j :: 0 <= j < |bs| ==> provider(bs[j]).Ok? {
        assert forall j :: 0 <= j < |init| ==> provider(init[j]).Ok? by {
          forall j | 0 <= j < |init| ensures provider(init[j]).Ok? {
            assert init[j] == bs[j];
          }
        }
        var f := Responses(provider, bs);
        assert f[..|f| - 1] == Responses(provider, init);
      } else {
        var j :| 0 <= j < |bs| && !provider(bs[j]).Ok?;
        if j < |init| { assert init[j] == bs[j]; }
      }
    }
  }

  /** A provider that maps each text of a batch to its own vector, in
      order, makes `embed_texts` return one vector per text in text order:
      row `i` of the result belongs to `texts[i]`. */
  lemma EmbedTextsPointwise<V, E>(provider: seq<string> -> Result<seq<V>, E>, embed: string -> V, texts: seq<string>)
    requires forall b :: provider(b) == Ok(Map(embed, b))
    ensures Embedded(provider, Batches(texts)) == Ok(Map(embed, texts))
  {
    var bs := Batches(texts);
    EmbeddedOk(provider, bs);
    MapFlatten(embed, bs);
    assert Responses(provider, bs) == seq(|bs|, j requires 0 <= j < |bs| => Map(embed, bs[j]));
  }

  function Map<A, B>(f: A -> B, xs: seq<A>): (r: seq<B>)
    ensures |r| == |xs| && forall i :: 0 <= i < |xs| ==> r[i] == f(xs[i])
  {
    seq(|xs|, i requires 0 <= i < |xs| => f(xs[i]))
  }

  /** Mapping each list and then flattening is mapping the flattening. */
  lemma {:induction false} MapFlatten<A, B>(f: A -> B, xss: seq<seq<A>>)
    ensures Flatten(seq(|xss|, j requires 0 <= j < |xss| => Map(f, xss[j]))) == Map(f, Flatten(xss))
    decreases |xss|
  {
    var m := seq(|xss|, j requires 0 <= j < |xss| => Map(f, xss[j]));
    if xss != [] {
      var init := xss[..|xss| - 1];
      MapFlatten(f, init);
      assert m[..|m| - 1] == seq(|init|, j requires 0 <= j < |init| => Map(f, init[j]));
      var a, b := Flatten(init), xss[|xss| - 1];
      assert Map(f, a + b) == Map(f, a) + Map(f, b);
    }
  }
}
