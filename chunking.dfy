/** The paragraph chunker of the index builder (`chunk_markdown` in
    RAG/build_resume_index.py).  The text is cut on "\n\n" into blocks; the
    blocks are packed greedily into a buffer `cur`; when the next block does
    not fit, the buffer is sealed as a chunk and a new buffer is seeded with
    the tail of the sealed chunk; every chunk is normalised on the way out. */
module Chunking {
  import opened Prelude
  import opened Text

  /** The paragraph separator. */
  const Sep: string := "\n\n"

  // ---------------------------------------------------------------------
  // Blocks: `[b.strip() for b in md.split("\n\n") if b.strip()]`
  // ---------------------------------------------------------------------

  /** The pieces, joined back together with "\n\n". */
  function Join(ps: seq<string>): string
  {
    if ps == [] then "" else if |ps| == 1 then ps[0] else ps[0] + Sep + Join(ps[1..])
  }

  predicate FreeOfSep(s: string)
  {
    forall i :: 0 <= i < |s| - 1 ==> !(s[i] == '\n' && s[i + 1] == '\n')
  }

  /** `s.split("\n\n")`: separators are found left to right and do not
      overlap, so "\n\n\n" splits into "" and "\n". */
  function Split(s: string): (r: seq<string>)
    ensures |r| >= 1 && |r[0]| <= |s| && r[0] == s[..|r[0]|]
    ensures forall j :: 0 <= j < |r| ==> FreeOfSep(r[j])
    decreases |s|
  {
    if |s| < 2 then [s]
    else if s[0] == '\n' && s[1] == '\n' then [""] + Split(s[2..])
    else
      var rest := Split(s[1..]);
      [[s[0]] + rest[0]] + rest[1..]
  }

  /** A block: non-empty, with no whitespace at either end. */
  predicate IsBlock(b: string) { b != "" && Trimmed(b) }

  /** The stripped pieces that are not blank, in order. */
  function StripNonBlank(ps: seq<string>): (r: seq<string>)
    ensures |r| <= |ps|
    ensures forall j :: 0 <= j < |r| ==> IsBlock(r[j])
  {
    if ps == [] then []
    else (if Strip(ps[0]) != "" then [Strip(ps[0])] else []) + StripNonBlank(ps[1..])
  }

  /** `[b.strip() for b in md.split("\n\n") if b.strip()]`: at most one
      block per piece, each non-empty and trimmed. */
  function Blocks(md: string): (r: seq<string>)
    ensures |r| <= |Split(md)|
    ensures forall j :: 0 <= j < |r| ==> IsBlock(r[j])
  {
    StripNonBlank(Split(md))
  }

  // ---------------------------------------------------------------------
  // The packing loop, as a function of the blocks consumed so far
  // ---------------------------------------------------------------------

  /** The loop's variables `chunks` (here `sealed`) and `cur`, together with
      the blocks that were placed into each sealed chunk and into `cur`;
      the last two are bookkeeping for stating where every block went. */
  datatype PackState = PackState(
    sealed: seq<string>,
    cur: string,
    sealedGroups: seq<seq<string>>,
    curGroup: seq<string>)

  const Start: PackState := PackState([], "", [], [])

  /** `cur[-overlap_chars:] if overlap_chars > 0 else ""`. */
  function Tail(cur: string, overlap: int): (t: string)
    ensures |t| == if overlap > 0 then Min(overlap, |cur|) else 0
    ensures t == cur[|cur| - |t|..]
  {
    if overlap > 0 then cur[|cur| - Min(overlap, |cur|)..] else ""
  }

  /** The buffer that replaces a sealed one: `(tail + "\n\n" + b).strip()`. */
  function Reseed(cur: string, b: string, overlap: int): (r: string)
    ensures Trimmed(r) && |r| <= |Tail(cur, overlap)| + 2 + |b|
  {
    Strip(Tail(cur, overlap) + Sep + b)
  }

  /** One iteration of the loop over the blocks. */
  function Step(st: PackState, b: string, maxChars: int, overlap: int): (r: PackState)
    ensures st.sealed <= r.sealed && |r.sealed| <= |st.sealed| + 1
  {
    if st.cur == "" then
      st.(cur := b, curGroup := [b])
    else if |st.cur| + 2 + |b| <= maxChars then
      st.(cur := st.cur + Sep + b, curGroup := st.curGroup + [b])
    else
      PackState(st.sealed + [st.cur], Reseed(st.cur, b, overlap),
                st.sealedGroups + [st.curGroup], [b])
  }

  /** The state after the loop has consumed `blocks`. */
  function Run(blocks: seq<string>, maxChars: int, overlap: int): (r: PackState)
    ensures |r.sealed| <= |blocks|
  {
    if blocks == [] then Start
    else Step(Run(blocks[..|blocks| - 1], maxChars, overlap), blocks[|blocks| - 1], maxChars, overlap)
  }

  /** Each block seals at most one buffer, and a live buffer holds at
      least the last block: no more chunks than blocks. */
  lemma {:induction false} RunCount(blocks: seq<string>, maxChars: int, overlap: int)
    ensures |Sealed(Run(blocks, maxChars, overlap))| <= |blocks|
    decreases |blocks|
  {
    if blocks != [] {
      RunCount(blocks[..|blocks| - 1], maxChars, overlap);
    }
  }

  /** The chunks once `if cur: chunks.append(cur)` has run. */
  function Sealed(st: PackState): seq<string>
  {
    if st.cur != "" then st.sealed + [st.cur] else st.sealed
  }

  /** The blocks placed into each of `Sealed(st)`. */
  function Groups(st: PackState): seq<seq<string>>
  {
    if st.cur != "" then st.sealedGroups + [st.curGroup] else st.sealedGroups
  }

  /** `[normalize(c) for c in chunks if c.strip()]`. */
  function NormalizeNonBlank(cs: seq<string>): (r: seq<string>)
    ensures |r| <= |cs|
  {
    if cs == [] then []
    else (if Strip(cs[0]) != "" then [Normalize(cs[0])] else []) + NormalizeNonBlank(cs[1..])
  }

  /** The chunks before the final normalisation, and the blocks in each. */
  function RawChunks(md: string, maxChars: int, overlap: int): seq<string>
  {
    Sealed(Run(Blocks(md), maxChars, overlap))
  }

  function Placement(md: string, maxChars: int, overlap: int): seq<seq<string>>
  {
    Groups(Run(Blocks(md), maxChars, overlap))
  }

  /** What `chunk_markdown(md, max_chars, overlap_chars)` returns. */
  function Chunks(md: string, maxChars: int, overlap: int): (r: seq<string>)
    ensures |r| <= |Blocks(md)|
  {
    RunCount(Blocks(md), maxChars, overlap);
    NormalizeNonBlank(RawChunks(md, maxChars, overlap))
  }

  method ChunkMarkdown(md: string, maxChars: int, overlapChars: int) returns (result: seq<string>)
    ensures result == Chunks(md, maxChars, overlapChars)
    ensures |result| <= |Blocks(md)|
    ensures result == [] <==> NonSpaceChars(md) == []
    ensures forall j :: 0 <= j < |result| ==> result[j] != "" && Canonical(result[j])
  {
    var blocks := Blocks(md);
    var chunks: seq<string> := [];
    var cur := "";
    ghost var st := Start;
    for i := 0 to |blocks|
      invariant st == Run(blocks[..i], maxChars, overlapChars)
      invariant st.sealed == chunks && st.cur == cur
    {
      var b := blocks[i];
      RunSnoc(blocks, i, maxChars, overlapChars);
      st := Step(st, b, maxChars, overlapChars);
      if cur == "" {
        cur := b;
      } else if |cur| + 2 + |b| <= maxChars {
        cur := cur + "\n\n" + b;
      } else {
        chunks := chunks + [cur];
        var tail := Tail(cur, overlapChars);
        cur := Strip(tail + Sep + b);
      }
    }
    assert blocks[..|blocks|] == blocks;
    if cur != "" {
      chunks := chunks + [cur];
    }
    assert chunks == RawChunks(md, maxChars, overlapChars);
    result := NormalizeNonBlank(chunks);
    ChunksSpec(md, maxChars, overlapChars);
  }

  lemma RunSnoc(blocks: seq<string>, i: int, maxChars: int, overlap: int)
    requires 0 <= i < |blocks|
    ensures Run(blocks[..i + 1], maxChars, overlap)
         == Step(Run(blocks[..i], maxChars, overlap), blocks[i], maxChars, overlap)
  {
    assert blocks[..i + 1][..i] == blocks[..i];
  }

  // ---------------------------------------------------------------------
  // The invariant of the packing loop
  // ---------------------------------------------------------------------

  /** The left-stripped tail of a sealed chunk and a separator: what the
      next chunk begins with when the overlap is positive. */
  function Overlap(prev: string, overlap: int): string
  {
    LStrip(Tail(prev, overlap)) + Sep
  }

  /** What chunk `j` of `cs` holds before its first block: nothing for the
      first chunk or without overlap, else the overlap of the chunk before. */
  function Lead(cs: seq<string>, j: int, overlap: int): string
    requires 0 <= j < |cs|
  {
    if j == 0 || overlap <= 0 then "" else Overlap(cs[j - 1], overlap)
  }

  /** `cs` are chunks whose blocks are `gs`, packing `blocks` in order:
      every chunk is its lead followed by its blocks; a chunk over the size
      bound holds one block; no chunk could have taken the next block. */
  predicate GroupsNonEmpty(gs: seq<seq<string>>)
  {
    forall j {:trigger gs[j]} :: 0 <= j < |gs| ==> gs[j] != []
  }

  predicate ChunksTrimmed(cs: seq<string>)
  {
    forall j {:trigger cs[j]} :: 0 <= j < |cs| ==> cs[j] != "" && Trimmed(cs[j])
  }

  /** Every chunk is its lead followed by its blocks joined with "\n\n". */
  predicate LeadsJoin(cs: seq<string>, gs: seq<seq<string>>, overlap: int)
    requires |cs| == |gs|
  {
    forall j {:trigger Lead(cs, j, overlap)} :: 0 <= j < |cs| ==> cs[j] == Lead(cs, j, overlap) + Join(gs[j])
  }

  /** Only a chunk of one block may be longer than `maxChars`. */
  predicate SizeRule(cs: seq<string>, gs: seq<seq<string>>, maxChars: int)
    requires |cs| == |gs|
  {
    forall j {:trigger cs[j]} :: 0 <= j < |cs| ==> |cs[j]| <= maxChars || |gs[j]| == 1
  }

  /** A chunk was sealed only when the next block would not have fitted. */
  predicate Greedy(cs: seq<string>, gs: seq<seq<string>>, maxChars: int)
    requires |cs| == |gs| && GroupsNonEmpty(gs)
  {
    forall j {:trigger cs[j]} :: 0 <= j < |cs| - 1 ==> |cs[j]| + 2 + |gs[j + 1][0]| > maxChars
  }

  /** The chunks `cs` are laid over the groups `gs` of `blocks`. */
  predicate Layout(blocks: seq<string>, cs: seq<string>, gs: seq<seq<string>>, maxChars: int, overlap: int)
  {
    && |cs| == |gs|
    && Flatten(gs) == blocks
    && GroupsNonEmpty(gs)
    && ChunksTrimmed(cs)
    && LeadsJoin(cs, gs, overlap)
    && SizeRule(cs, gs, maxChars)
    && Greedy(cs, gs, maxChars)
  }

  predicate Inv(done: seq<string>, st: PackState, maxChars: int, overlap: int)
  {
    && (st.cur == "" ==> st.sealed == [] && st.sealedGroups == [])
    && Layout(done, Sealed(st), Groups(st), maxChars, overlap)
  }

  lemma {:induction false} JoinSnoc(ps: seq<string>, b: string)
    requires ps != []
    ensures Join(ps + [b]) == Join(ps) + Sep + b
    decreases |ps|
  {
    if |ps| > 1 {
      assert (ps + [b])[1..] == ps[1..] + [b];
      JoinSnoc(ps[1..], b);
    }
  }

  lemma {:induction false} LStripPastSpaces(p: string, x: string)
    requires forall i :: 0 <= i < |p| ==> IsSpace(p[i])
    ensures LStrip(p + x) == LStrip(x)
    decreases |p|
  {
    if p != [] {
      assert (p + x)[1..] == p[1..] + x;
      LStripPastSpaces(p[1..], x);
    } else {
      assert p + x == x;
    }
  }

  /** Stripping the left of `t + u` stops inside `t` when `t` ends visibly. */
  lemma {:induction false} LStripAppend(t: string, u: string)
    requires t != [] && !IsSpace(t[|t| - 1])
    ensures LStrip(t + u) == LStrip(t) + u
    decreases |t|
  {
    if IsSpace(t[0]) {
      assert (t + u)[1..] == t[1..] + u;
      LStripAppend(t[1..], u);
    }
  }

  lemma ReseedWithOverlap(cur: string, b: string, overlap: int)
    requires cur != "" && Trimmed(cur) && IsBlock(b) && overlap > 0
    ensures Reseed(cur, b, overlap) == Overlap(cur, overlap) + b
  {
    var t := Tail(cur, overlap);
    assert t != [] && t[|t| - 1] == cur[|cur| - 1];
    SeqAssoc(t, Sep, b);
    LStripAppend(t, Sep + b);
    var l := LStrip(t) + (Sep + b);
    assert l[|l| - 1] == b[|b| - 1];
    RStripVisibleEnd(l);
    SeqAssoc(LStrip(t), Sep, b);
  }

  /** Text that ends with a visible character has nothing to strip on the right. */
  lemma RStripVisibleEnd(s: string)
    requires s != [] && !IsSpace(s[|s| - 1])
    ensures RStrip(s) == s
  {
  }

  lemma ReseedWithoutOverlap(cur: string, b: string, overlap: int)
    requires IsBlock(b) && overlap <= 0
    ensures Reseed(cur, b, overlap) == b
  {
    assert Tail(cur, overlap) + Sep + b == Sep + b;
    LStripPastSpaces(Sep, b);
    assert RStrip(b) == b;
  }

  /** The shape of a new buffer: the lead of the chunk it starts, then the block. */
  lemma ReseedShape(cur: string, b: string, overlap: int)
    requires cur != "" && Trimmed(cur) && IsBlock(b)
    ensures Reseed(cur, b, overlap) == (if overlap > 0 then Overlap(cur, overlap) else "") + b
    ensures Reseed(cur, b, overlap) != "" && Trimmed(Reseed(cur, b, overlap))
  {
    if overlap > 0 {
      ReseedWithOverlap(cur, b, overlap);
    } else {
      ReseedWithoutOverlap(cur, b, overlap);
    }
  }

  /** The lead of chunk `j` depends only on the chunks before it. */
  lemma LeadPrefix(cs: seq<string>, x: string, j: int, overlap: int)
    requires 0 <= j < |cs|
    ensures Lead(cs + [x], j, overlap) == Lead(cs, j, overlap)
  {
    if 0 < j { assert (cs + [x])[j - 1] == cs[j - 1]; }
  }

  lemma LeadSame(cs: seq<string>, x: string, y: string, j: int, overlap: int)
    requires 0 <= j <= |cs|
    ensures Lead(cs + [x], j, overlap) == Lead(cs + [y], j, overlap)
  {
    if 0 < j { assert (cs + [x])[j - 1] == cs[j - 1] == (cs + [y])[j - 1]; }
  }

  /** Appending a chunk keeps an earlier chunk's lead-and-blocks shape. */
  lemma KeepLeadAt(cs: seq<string>, gs: seq<seq<string>>, x: string, g: seq<string>, j: int, overlap: int)
    requires |cs| == |gs| && 0 <= j < |cs|
    requires cs[j] == Lead(cs, j, overlap) + Join(gs[j])
    ensures (cs + [x])[j] == Lead(cs + [x], j, overlap) + Join((gs + [g])[j])
  {
    LeadPrefix(cs, x, j, overlap);
    assert (cs + [x])[j] == cs[j] && (gs + [g])[j] == gs[j];
  }

  /** Dropping the last chunk keeps an earlier chunk's lead-and-blocks shape. */
  lemma DropLeadAt(cs: seq<string>, gs: seq<seq<string>>, x: string, g: seq<string>, j: int, overlap: int)
    requires |cs| == |gs| && 0 <= j < |cs|
    requires (cs + [x])[j] == Lead(cs + [x], j, overlap) + Join((gs + [g])[j])
    ensures cs[j] == Lead(cs, j, overlap) + Join(gs[j])
  {
    LeadPrefix(cs, x, j, overlap);
    assert (cs + [x])[j] == cs[j] && (gs + [g])[j] == gs[j];
  }

  /** Appending a block to the last chunk keeps its lead-and-blocks shape. */
  lemma GrowLeadAt(cs: seq<string>, c: string, g: seq<string>, b: string, overlap: int)
    requires g != []
    requires c == Lead(cs + [c], |cs|, overlap) + Join(g)
    ensures c + Sep + b == Lead(cs + [c + Sep + b], |cs|, overlap) + Join(g + [b])
  {
    LeadSame(cs, c, c + Sep + b, |cs|, overlap);
    var lead := Lead(cs + [c], |cs|, overlap);
    JoinSnoc(g, b);
    assert (lead + Join(g)) + Sep + b == lead + (Join(g) + Sep + b);
  }

  lemma GrowLastLeads(cs: seq<string>, gs: seq<seq<string>>, c: string, g: seq<string>, b: string, overlap: int)
    requires |cs| == |gs| && g != [] && LeadsJoin(cs + [c], gs + [g], overlap)
    ensures LeadsJoin(cs + [c + Sep + b], gs + [g + [b]], overlap)
  {
    GrowLastKeepsEarlier(cs, gs, c, g, b, overlap);
    GrowLastLeadAtEnd(cs, gs, c, g, b, overlap);
    LeadsJoinSnoc(cs, gs, c + Sep + b, g + [b], overlap);
  }

  /** The lead rule holds for all chunks once it holds for the earlier ones
      and for the last. */
  lemma LeadsJoinSnoc(cs: seq<string>, gs: seq<seq<string>>, c: string, g: seq<string>, overlap: int)
    requires |cs| == |gs|
    requires forall j :: 0 <= j < |cs| ==> (cs + [c])[j] == Lead(cs + [c], j, overlap) + Join((gs + [g])[j])
    requires (cs + [c])[|cs|] == Lead(cs + [c], |cs|, overlap) + Join((gs + [g])[|cs|])
    ensures LeadsJoin(cs + [c], gs + [g], overlap)
  {
  }

  lemma GrowLastKeepsEarlier(cs: seq<string>, gs: seq<seq<string>>, c: string, g: seq<string>, b: string, overlap: int)
    requires |cs| == |gs| && LeadsJoin(cs + [c], gs + [g], overlap)
    ensures forall j :: 0 <= j < |cs| ==>
      (cs + [c + Sep + b])[j] == Lead(cs + [c + Sep + b], j, overlap) + Join((gs + [g + [b]])[j])
  {
    var cs0, gs0 := cs + [c], gs + [g];
    forall j | 0 <= j < |cs|
      ensures (cs + [c + Sep + b])[j] == Lead(cs + [c + Sep + b], j, overlap) + Join((gs + [g + [b]])[j])
    {
      assert cs0[j] == Lead(cs0, j, overlap) + Join(gs0[j]);
      DropLeadAt(cs, gs, c, g, j, overlap);
      KeepLeadAt(cs, gs, c + Sep + b, g + [b], j, overlap);
    }
  }

  lemma GrowLastLeadAtEnd(cs: seq<string>, gs: seq<seq<string>>, c: string, g: seq<string>, b: string, overlap: int)
    requires |cs| == |gs| && g != [] && LeadsJoin(cs + [c], gs + [g], overlap)
    ensures var n := |cs|;
      (cs + [c + Sep + b])[n] == Lead(cs + [c + Sep + b], n, overlap) + Join((gs + [g + [b]])[n])
  {
    var cs0, gs0 := cs + [c], gs + [g];
    var cs1, gs1 := cs + [c + Sep + b], gs + [g + [b]];
    var n := |cs|;
    assert cs0[n] == Lead(cs0, n, overlap) + Join(gs0[n]);
    assert cs0[n] == c && gs0[n] == g && cs1[n] == c + Sep + b && gs1[n] == g + [b];
    GrowLeadAt(cs, c, g, b, overlap);
  }

  lemma GrowLastTrimmed(cs: seq<string>, c: string, b: string)
    requires ChunksTrimmed(cs + [c]) && IsBlock(b)
    ensures ChunksTrimmed(cs + [c + Sep + b])
  {
    var cs0, cs1 := cs + [c], cs + [c + Sep + b];
    var n := |cs|;
    forall j | 0 <= j < |cs1|
      ensures cs1[j] != "" && Trimmed(cs1[j])
    {
      if j == n {
        var x := c + Sep + b;
        assert c == cs0[n];
        assert x[0] == c[0] && x[|x| - 1] == b[|b| - 1];
      } else {
        assert cs1[j] == cs0[j];
      }
    }
  }

  lemma GrowLastSize(cs: seq<string>, gs: seq<seq<string>>, c: string, g: seq<string>, b: string, maxChars: int)
    requires |cs| == |gs| && SizeRule(cs + [c], gs + [g], maxChars)
    requires |c| + 2 + |b| <= maxChars
    ensures SizeRule(cs + [c + Sep + b], gs + [g + [b]], maxChars)
  {
    var cs0, gs0 := cs + [c], gs + [g];
    var cs1, gs1 := cs + [c + Sep + b], gs + [g + [b]];
    forall j | 0 <= j < |cs1|
      ensures |cs1[j]| <= maxChars || |gs1[j]| == 1
    {
      if j < |cs| { assert cs1[j] == cs0[j] && gs1[j] == gs0[j]; }
    }
  }

  lemma GrowLastGreedy(cs: seq<string>, gs: seq<seq<string>>, c: string, g: seq<string>, b: string, maxChars: int)
    requires |cs| == |gs| && g != [] && GroupsNonEmpty(gs + [g]) && Greedy(cs + [c], gs + [g], maxChars)
    ensures GroupsNonEmpty(gs + [g + [b]])
    ensures Greedy(cs + [c + Sep + b], gs + [g + [b]], maxChars)
  {
    var cs0, gs0 := cs + [c], gs + [g];
    var cs1, gs1 := cs + [c + Sep + b], gs + [g + [b]];
    forall j | 0 <= j < |gs1|
      ensures gs1[j] != []
    {
      if j < |gs| { assert gs1[j] == gs0[j]; }
    }
    forall j | 0 <= j < |cs1| - 1
      ensures |cs1[j]| + 2 + |gs1[j + 1][0]| > maxChars
    {
      assert cs1[j] == cs0[j] && gs1[j + 1][0] == gs0[j + 1][0];
    }
  }

  /** Appending a block to the last chunk keeps the layout. */
  lemma LayoutGrowLast(blocks: seq<string>, cs: seq<string>, gs: seq<seq<string>>,
                       c: string, g: seq<string>, b: string, maxChars: int, overlap: int)
    requires Layout(blocks, cs + [c], gs + [g], maxChars, overlap) && IsBlock(b)
    requires |c| + 2 + |b| <= maxChars
    ensures Layout(blocks + [b], cs + [c + Sep + b], gs + [g + [b]], maxChars, overlap)
  {
    var n := |cs|;
    assert (gs + [g])[n] == g;
    FlattenSnoc(gs, g);
    FlattenSnoc(gs, g + [b]);
    GrowLastLeads(cs, gs, c, g, b, overlap);
    GrowLastTrimmed(cs, c, b);
    GrowLastSize(cs, gs, c, g, b, maxChars);
    GrowLastGreedy(cs, gs, c, g, b, maxChars);
  }

  /** Appending a chunk leaves the leads of the earlier chunks alone, and
      the new chunk's lead is the overlap of the chunk before it. */
  lemma LeadSnoc(cs: seq<string>, x: string, j: int, overlap: int)
    requires 0 <= j <= |cs|
    ensures Lead(cs + [x], j, overlap) ==
      if j == 0 || overlap <= 0 then "" else Overlap(cs[j - 1], overlap)
  {
    if 0 < j { assert (cs + [x])[j - 1] == cs[j - 1]; }
  }

  /** A chunk started after `cs` is its lead followed by its one block. */
  lemma NewLeadAt(cs: seq<string>, gs: seq<seq<string>>, seed: string, b: string, overlap: int)
    requires cs != [] && |cs| == |gs|
    requires seed == (if overlap > 0 then Overlap(cs[|cs| - 1], overlap) else "") + b
    ensures (cs + [seed])[|cs|] == Lead(cs + [seed], |cs|, overlap) + Join((gs + [[b]])[|cs|])
  {
    LeadSnoc(cs, seed, |cs|, overlap);
    assert (gs + [[b]])[|cs|] == [b];
  }

  lemma AddChunkLeads(cs: seq<string>, gs: seq<seq<string>>, seed: string, b: string, overlap: int)
    requires |cs| == |gs| && LeadsJoin(cs, gs, overlap)
    requires (cs + [seed])[|cs|] == Lead(cs + [seed], |cs|, overlap) + Join((gs + [[b]])[|cs|])
    ensures LeadsJoin(cs + [seed], gs + [[b]], overlap)
  {
    var cs1, gs1 := cs + [seed], gs + [[b]];
    forall j | 0 <= j < |cs|
      ensures cs1[j] == Lead(cs1, j, overlap) + Join(gs1[j])
    {
      assert cs[j] == Lead(cs, j, overlap) + Join(gs[j]);
      KeepLeadAt(cs, gs, seed, [b], j, overlap);
    }
  }

  lemma AddChunkTrimmed(cs: seq<string>, seed: string)
    requires ChunksTrimmed(cs) && seed != "" && Trimmed(seed)
    ensures ChunksTrimmed(cs + [seed])
  {
    var cs1 := cs + [seed];
    forall j | 0 <= j < |cs1|
      ensures cs1[j] != "" && Trimmed(cs1[j])
    {
      if j < |cs| { assert cs1[j] == cs[j]; }
    }
  }

  lemma AddChunkSize(cs: seq<string>, gs: seq<seq<string>>, seed: string, b: string, maxChars: int)
    requires |cs| == |gs| && SizeRule(cs, gs, maxChars)
    ensures SizeRule(cs + [seed], gs + [[b]], maxChars)
  {
    var cs1, gs1 := cs + [seed], gs + [[b]];
    forall j | 0 <= j < |cs1|
      ensures |cs1[j]| <= maxChars || |gs1[j]| == 1
    {
      if j < |cs| { assert cs1[j] == cs[j] && gs1[j] == gs[j]; }
    }
  }

  lemma AddChunkGreedy(cs: seq<string>, gs: seq<seq<string>>, seed: string, b: string, maxChars: int)
    requires |cs| == |gs| && cs != [] && GroupsNonEmpty(gs) && Greedy(cs, gs, maxChars)
    requires |cs[|cs| - 1]| + 2 + |b| > maxChars
    ensures GroupsNonEmpty(gs + [[b]])
    ensures Greedy(cs + [seed], gs + [[b]], maxChars)
  {
    var cs1, gs1 := cs + [seed], gs + [[b]];
    var n := |cs|;
    forall j | 0 <= j < |gs1|
      ensures gs1[j] != []
    {
      if j < n { assert gs1[j] == gs[j]; }
    }
    forall j | 0 <= j < |cs1| - 1
      ensures |cs1[j]| + 2 + |gs1[j + 1][0]| > maxChars
    {
      assert cs1[j] == cs[j];
      if j < n - 1 {
        assert gs1[j + 1] == gs[j + 1];
      } else {
        assert gs1[j + 1][0] == b;
      }
    }
  }

  /** Starting a new chunk with the next block keeps the layout. */
  lemma LayoutAddChunk(blocks: seq<string>, cs: seq<string>, gs: seq<seq<string>>,
                       seed: string, b: string, maxChars: int, overlap: int)
    requires Layout(blocks, cs, gs, maxChars, overlap) && cs != []
    requires |cs[|cs| - 1]| + 2 + |b| > maxChars
    requires seed == (if overlap > 0 then Overlap(cs[|cs| - 1], overlap) else "") + b
    requires seed != "" && Trimmed(seed)
    ensures Layout(blocks + [b], cs + [seed], gs + [[b]], maxChars, overlap)
  {
    FlattenSnoc(gs, [b]);
    NewLeadAt(cs, gs, seed, b, overlap);
    AddChunkLeads(cs, gs, seed, b, overlap);
    AddChunkTrimmed(cs, seed);
    AddChunkSize(cs, gs, seed, b, maxChars);
    AddChunkGreedy(cs, gs, seed, b, maxChars);
  }

  lemma StartInv(maxChars: int, overlap: int)
    ensures Inv([], Start, maxChars, overlap)
  {
  }

  lemma StepFirst(st: PackState, b: string, maxChars: int, overlap: int)
    requires Inv([], st, maxChars, overlap) && st.cur == "" && IsBlock(b)
    ensures Inv([b], Step(st, b, maxChars, overlap), maxChars, overlap)
  {
    var st' := Step(st, b, maxChars, overlap);
    assert Sealed(st') == [b] && Groups(st') == [[b]];
    LayoutSingle(b, maxChars, overlap);
  }

  /** One block on its own is a valid layout of one chunk. */
  lemma LayoutSingle(b: string, maxChars: int, overlap: int)
    requires IsBlock(b)
    ensures Layout([b], [b], [[b]], maxChars, overlap)
  {
    assert Flatten([[b]]) == Flatten([[b]][..0]) + [b];
  }

  lemma StepAppend(done: seq<string>, st: PackState, b: string, maxChars: int, overlap: int)
    requires Inv(done, st, maxChars, overlap) && st.cur != "" && IsBlock(b)
    requires |st.cur| + 2 + |b| <= maxChars
    ensures Inv(done + [b], Step(st, b, maxChars, overlap), maxChars, overlap)
  {
    LayoutGrowLast(done, st.sealed, st.sealedGroups, st.cur, st.curGroup, b, maxChars, overlap);
    var st' := Step(st, b, maxChars, overlap);
    assert Sealed(st') == st.sealed + [st.cur + Sep + b];
    assert Groups(st') == st.sealedGroups + [st.curGroup + [b]];
  }

  lemma StepSeal(done: seq<string>, st: PackState, b: string, maxChars: int, overlap: int)
    requires Inv(done, st, maxChars, overlap) && st.cur != "" && IsBlock(b)
    requires |st.cur| + 2 + |b| > maxChars
    ensures Inv(done + [b], Step(st, b, maxChars, overlap), maxChars, overlap)
  {
    var cs, gs := Sealed(st), Groups(st);
    assert cs[|cs| - 1] == st.cur;
    ReseedShape(st.cur, b, overlap);
    var seed := Reseed(st.cur, b, overlap);
    LayoutAddChunk(done, cs, gs, seed, b, maxChars, overlap);
    var st' := Step(st, b, maxChars, overlap);
    assert Sealed(st') == cs + [seed] && Groups(st') == gs + [[b]];
  }

  lemma StepInv(done: seq<string>, st: PackState, b: string, maxChars: int, overlap: int)
    requires Inv(done, st, maxChars, overlap) && IsBlock(b)
    ensures Inv(done + [b], Step(st, b, maxChars, overlap), maxChars, overlap)
  {
    if st.cur == "" {
      assert done == Flatten([]);
      StepFirst(st, b, maxChars, overlap);
    } else if |st.cur| + 2 + |b| <= maxChars {
      StepAppend(done, st, b, maxChars, overlap);
    } else {
      StepSeal(done, st, b, maxChars, overlap);
    }
  }

  lemma {:induction false} RunInv(blocks: seq<string>, maxChars: int, overlap: int)
    requires forall j :: 0 <= j < |blocks| ==> IsBlock(blocks[j])
    ensures Inv(blocks, Run(blocks, maxChars, overlap), maxChars, overlap)
    decreases |blocks|
  {
    if blocks == [] {
      StartInv(maxChars, overlap);
    } else {
      var init, last := blocks[..|blocks| - 1], blocks[|blocks| - 1];
      var st := Run(init, maxChars, overlap);
      assert blocks == init + [last];
      RunInv(init, maxChars, overlap);
      StepInv(init, st, last, maxChars, overlap);
      assert Run(blocks, maxChars, overlap) == Step(st, last, maxChars, overlap);
    }
  }

  lemma NormalizeNonBlankHead(cs: seq<string>)
    requires cs != [] && cs[0] != "" && Trimmed(cs[0])
    ensures NormalizeNonBlank(cs) == [Normalize(cs[0])] + NormalizeNonBlank(cs[1..])
  {
    assert Strip(cs[0]) == cs[0];
  }

  /** The final filter keeps every chunk, because none is blank. */
  lemma {:induction false} NormalizeNonBlankKeepsAll(cs: seq<string>)
    requires forall j :: 0 <= j < |cs| ==> cs[j] != "" && Trimmed(cs[j])
    ensures |NormalizeNonBlank(cs)| == |cs|
    ensures forall j :: 0 <= j < |cs| ==> NormalizeNonBlank(cs)[j] == Normalize(cs[j])
    decreases |cs|
  {
    if cs != [] {
      var tl := cs[1..];
      NormalizeNonBlankHead(cs);
      assert forall j :: 0 <= j < |tl| ==> tl[j] != "" && Trimmed(tl[j]) by {
        forall j | 0 <= j < |tl| ensures tl[j] != "" && Trimmed(tl[j]) { assert tl[j] == cs[j + 1]; }
      }
      NormalizeNonBlankKeepsAll(tl);
      var rest := NormalizeNonBlank(tl);
      var r := NormalizeNonBlank(cs);
      forall j | 0 <= j < |cs|
        ensures r[j] == Normalize(cs[j])
      {
        if j > 0 { assert r[j] == rest[j - 1] && tl[j - 1] == cs[j]; }
      }
    }
  }

  // ---------------------------------------------------------------------
  // What chunk_markdown promises
  // ---------------------------------------------------------------------

  /** Block coverage and overlap seeding: the chunks correspond one to one
      to non-empty groups of consecutive blocks that together are all the
      blocks in order; every chunk is normalised from its lead followed by
      its blocks joined with "\n\n". */
  lemma ChunkLayout(md: string, maxChars: int, overlap: int)
    ensures var raw, gs, r := RawChunks(md, maxChars, overlap), Placement(md, maxChars, overlap), Chunks(md, maxChars, overlap);
      && |r| == |raw| == |gs|
      && Flatten(gs) == Blocks(md)
      && (forall j :: 0 <= j < |gs| ==> gs[j] != [])
      && (forall j :: 0 <= j < |r| ==> r[j] == Normalize(raw[j]))
      && (forall j :: 0 <= j < |raw| ==> raw[j] == Lead(raw, j, overlap) + Join(gs[j]))
  {
    RunInv(Blocks(md), maxChars, overlap);
    NormalizeNonBlankKeepsAll(RawChunks(md, maxChars, overlap));
  }

  /** The size rule: a chunk longer than `maxChars` holds one block and
      nothing was appended to it, so it is that block alone (the first
      chunk, or any chunk without overlap) or the previous chunk's tail, a
      separator and that block. */
  lemma ChunkSizeBound(md: string, maxChars: int, overlap: int)
    ensures var raw, gs, r := RawChunks(md, maxChars, overlap), Placement(md, maxChars, overlap), Chunks(md, maxChars, overlap);
      && |r| == |raw| == |gs|
      && forall j :: 0 <= j < |r| && |r[j]| > maxChars ==>
        && |r[j]| <= |raw[j]|
        && |gs[j]| == 1
        && raw[j] == Lead(raw, j, overlap) + gs[j][0]
  {
    ChunkLayout(md, maxChars, overlap);
    RunInv(Blocks(md), maxChars, overlap);
  }

  /** Greedy sealing: a chunk sealed inside the loop would have outgrown
      `maxChars` had the next block been appended to it. */
  lemma ChunkGreedy(md: string, maxChars: int, overlap: int)
    ensures var raw, gs := RawChunks(md, maxChars, overlap), Placement(md, maxChars, overlap);
      |raw| == |gs| &&
      forall j :: 0 <= j < |raw| - 1 ==> gs[j + 1] != [] && |raw[j]| + 2 + |gs[j + 1][0]| > maxChars
  {
    RunInv(Blocks(md), maxChars, overlap);
  }

  /** There are never more chunks than blocks. */
  lemma ChunksCount(md: string, maxChars: int, overlap: int)
    ensures |Chunks(md, maxChars, overlap)| <= |Blocks(md)|
  {
    ChunkLayout(md, maxChars, overlap);
    FlattenLength(Placement(md, maxChars, overlap));
  }

  /** Every chunk is non-empty and in normalised form. */
  lemma ChunksCanonical(md: string, maxChars: int, overlap: int)
    ensures forall j :: 0 <= j < |Chunks(md, maxChars, overlap)| ==>
      Chunks(md, maxChars, overlap)[j] != "" && Canonical(Chunks(md, maxChars, overlap)[j])
  {
    var raw, r := RawChunks(md, maxChars, overlap), Chunks(md, maxChars, overlap);
    RawChunksTrimmed(md, maxChars, overlap);
    NormalizeNonBlankKeepsAll(raw);
    forall j | 0 <= j < |r|
      ensures r[j] != "" && Canonical(r[j])
    {
      assert r[j] == Normalize(raw[j]);
      NormalizeCanonical(raw[j]);
      TrimmedVisible(raw[j]);
      NormalizeNotEmpty(raw[j]);
    }
  }

  lemma RawChunksTrimmed(md: string, maxChars: int, overlap: int)
    ensures ChunksTrimmed(RawChunks(md, maxChars, overlap))
  {
    RunInv(Blocks(md), maxChars, overlap);
  }

  /** The promises `chunk_markdown` makes to its callers, together. */
  lemma ChunksSpec(md: string, maxChars: int, overlap: int)
    ensures var r := Chunks(md, maxChars, overlap);
      && |r| <= |Blocks(md)|
      && (r == [] <==> NonSpaceChars(md) == [])
      && forall j :: 0 <= j < |r| ==> r[j] != "" && Canonical(r[j])
  {
    ChunksCount(md, maxChars, overlap);
    ChunksEmptyIff(md, maxChars, overlap);
    ChunksCanonical(md, maxChars, overlap);
  }

  // ---------------------------------------------------------------------
  // No chunks exactly when the text has no visible character
  // ---------------------------------------------------------------------

  lemma StripBlankIff(p: string)
    ensures Strip(p) == "" <==> NonSpaceChars(p) == []
  {
    StripKeeps(p);
    var s := Strip(p);
    if s != "" {
      HeadTail(s);
      NonSpaceCharsAppend([s[0]], s[1..]);
    }
  }

  lemma {:induction false} SplitJoin(s: string)
    ensures Join(Split(s)) == s
    decreases |s|
  {
    if |s| >= 2 {
      if s[0] == '\n' && s[1] == '\n' {
        SplitJoin(s[2..]);
        assert s == Sep + s[2..];
      } else {
        var rest := Split(s[1..]);
        SplitJoin(s[1..]);
        JoinExtendHead(s[0], rest);
        assert s == [s[0]] + s[1..];
      }
    }
  }

  /** Putting a character in front of the first piece puts it in front of
      the joined text. */
  lemma JoinExtendHead(x: char, ps: seq<string>)
    requires ps != []
    ensures Join([[x] + ps[0]] + ps[1..]) == [x] + Join(ps)
  {
    var qs := [[x] + ps[0]] + ps[1..];
    assert qs[0] == [x] + ps[0] && qs[1..] == ps[1..];
    if |ps| > 1 {
      SeqAssoc([x], ps[0], Sep + Join(ps[1..]));
      SeqAssoc([x] + ps[0], Sep, Join(ps[1..]));
      SeqAssoc(ps[0], Sep, Join(ps[1..]));
    }
  }

  lemma {:induction false} JoinBlankIff(ps: seq<string>)
    ensures NonSpaceChars(Join(ps)) == [] <==> forall j :: 0 <= j < |ps| ==> NonSpaceChars(ps[j]) == []
    decreases |ps|
  {
    if |ps| > 1 {
      JoinBlankIff(ps[1..]);
      NonSpaceCharsAppend(ps[0] + Sep, Join(ps[1..]));
      NonSpaceCharsAppend(ps[0], Sep);
      NonSpaceCharsOfSpaces(Sep);
      assert ps[0] + Sep + Join(ps[1..]) == (ps[0] + Sep) + Join(ps[1..]);
      assert forall j :: 1 <= j < |ps| ==> ps[j] == ps[1..][j - 1];
    }
  }

  lemma {:induction false} StripNonBlankEmptyIff(ps: seq<string>)
    ensures StripNonBlank(ps) == [] <==> forall j :: 0 <= j < |ps| ==> NonSpaceChars(ps[j]) == []
    decreases |ps|
  {
    if ps != [] {
      StripBlankIff(ps[0]);
      StripNonBlankEmptyIff(ps[1..]);
      assert forall j :: 1 <= j < |ps| ==> ps[j] == ps[1..][j - 1];
    }
  }

  /** `md` has no non-blank block exactly when it is all whitespace. */
  lemma BlocksEmptyIff(md: string)
    ensures Blocks(md) == [] <==> NonSpaceChars(md) == []
  {
    SplitJoin(md);
    JoinBlankIff(Split(md));
    StripNonBlankEmptyIff(Split(md));
  }

  /** Joining with "\n\n" adds only whitespace to the concatenation. */
  lemma {:induction false} JoinKeeps(ps: seq<string>)
    ensures NonSpaceChars(Join(ps)) == NonSpaceChars(Flatten(ps))
    decreases |ps|
  {
    if ps == [] {
    } else if |ps| == 1 {
      assert ps[..0] == [];
      assert Flatten(ps) == Flatten(ps[..0]) + ps[0] == ps[0];
    } else {
      var rest := ps[1..];
      JoinKeeps(rest);
      assert ps == [ps[0]] + rest;
      FlattenCons(ps[0], rest);
      assert Join(ps) == (ps[0] + Sep) + Join(rest);
      NonSpaceCharsAppend(ps[0] + Sep, Join(rest));
      NonSpaceCharsAppend(ps[0], Sep);
      NonSpaceCharsOfSpaces(Sep);
      NonSpaceCharsAppend(ps[0], Flatten(rest));
    }
  }

  /** Stripping the pieces and dropping the blank ones loses no visible
      character. */
  lemma {:induction false} StripNonBlankKeeps(ps: seq<string>)
    ensures NonSpaceChars(Flatten(StripNonBlank(ps))) == NonSpaceChars(Flatten(ps))
    decreases |ps|
  {
    if ps != [] {
      var rest := ps[1..];
      StripNonBlankKeeps(rest);
      assert ps == [ps[0]] + rest;
      FlattenCons(ps[0], rest);
      NonSpaceCharsAppend(ps[0], Flatten(rest));
      var tail := StripNonBlank(rest);
      if Strip(ps[0]) != "" {
        assert StripNonBlank(ps) == [Strip(ps[0])] + tail;
        FlattenCons(Strip(ps[0]), tail);
        NonSpaceCharsAppend(Strip(ps[0]), Flatten(tail));
        StripKeeps(ps[0]);
      } else {
        assert StripNonBlank(ps) == tail;
        StripBlankIff(ps[0]);
      }
    }
  }

  /** Pieces are stripped and filtered one at a time, in order. */
  lemma {:induction false} StripNonBlankAppend(ps: seq<string>, qs: seq<string>)
    ensures StripNonBlank(ps + qs) == StripNonBlank(ps) + StripNonBlank(qs)
    decreases |ps|
  {
    if ps == [] {
      assert ps + qs == qs;
    } else {
      var h := if Strip(ps[0]) != "" then [Strip(ps[0])] else [];
      StripNonBlankCons(ps[0], ps[1..] + qs);
      ConsAppend(ps, qs);
      StripNonBlankAppend(ps[1..], qs);
      SeqAssoc(h, StripNonBlank(ps[1..]), StripNonBlank(qs));
    }
  }

  lemma StripNonBlankCons(p: string, ps: seq<string>)
    ensures StripNonBlank([p] + ps) == (if Strip(p) != "" then [Strip(p)] else []) + StripNonBlank(ps)
  {
    assert ([p] + ps)[0] == p && ([p] + ps)[1..] == ps;
  }

  lemma ConsAppend(ps: seq<string>, qs: seq<string>)
    requires ps != []
    ensures [ps[0]] + (ps[1..] + qs) == ps + qs
  {
    assert ps == [ps[0]] + ps[1..];
  }

  /** One more piece adds its stripped text as one more block, or nothing
      when it is blank. */
  lemma StripNonBlankSnoc(ps: seq<string>, p: string)
    ensures StripNonBlank(ps + [p]) == StripNonBlank(ps) + (if Strip(p) != "" then [Strip(p)] else [])
  {
    StripNonBlankAppend(ps, [p]);
    assert [p][1..] == [];
  }

  /** Stripping keeps a piece free of the separator. */
  lemma StripFreeOfSep(p: string)
    requires FreeOfSep(p)
    ensures FreeOfSep(Strip(p))
  {
    var r, a := Strip(p), LeadingSpaces(p);
    assert forall i :: 0 <= i < |r| ==> r[i] == p[a + i];
  }

  lemma {:induction false} StripNonBlankFree(ps: seq<string>)
    requires forall j :: 0 <= j < |ps| ==> FreeOfSep(ps[j])
    ensures forall j :: 0 <= j < |StripNonBlank(ps)| ==> FreeOfSep(StripNonBlank(ps)[j])
    decreases |ps|
  {
    if ps != [] {
      StripNonBlankFree(ps[1..]);
      StripFreeOfSep(ps[0]);
    }
  }

  /** No block holds a blank-line separator. */
  lemma BlocksFreeOfSep(md: string)
    ensures forall j :: 0 <= j < |Blocks(md)| ==> FreeOfSep(Blocks(md)[j])
  {
    StripNonBlankFree(Split(md));
  }

  /** No block's content is lost: the blocks hold every visible character
      of `md`, in order, and nothing else. */
  lemma BlocksKeepText(md: string)
    ensures NonSpaceChars(Flatten(Blocks(md))) == NonSpaceChars(md)
  {
    SplitJoin(md);
    JoinKeeps(Split(md));
    StripNonBlankKeeps(Split(md));
  }

  /** `chunk_markdown` returns `[]` exactly when `md` has no non-blank block. */
  lemma ChunksEmptyIff(md: string, maxChars: int, overlap: int)
    ensures Chunks(md, maxChars, overlap) == [] <==> Blocks(md) == []
    ensures Chunks(md, maxChars, overlap) == [] <==> NonSpaceChars(md) == []
  {
    ChunkLayout(md, maxChars, overlap);
    var gs := Placement(md, maxChars, overlap);
    FlattenLength(gs);
    BlocksEmptyIff(md);
  }
}
