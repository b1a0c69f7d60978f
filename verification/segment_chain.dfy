/**
 * `ImmutableChildReferences.Segment`: the lazily loaded, memoised chain of
 * segments behind a segmented index. Each segment remembers the key of the
 * block after it and, once asked, the segment loaded from that block, so a
 * block is fetched at most once per index however often the chain is walked.
 *
 * The chain's state is explicit: the first segment's next key, the segments
 * loaded so far (segment i + 1 of the chain is `loaded[i]`), and a count of
 * block fetches.
 */
module SegmentChains {
  import opened Common
  import opened ChildRefs
  import Mediums
  import opened ChildReferences

  /** A segment loaded from a block: its references and the key of the block after it. */
  datatype Loaded = Loaded(refs: Mediums.Medium, nextKey: Option<string>)

  datatype Chain = Chain(firstNext: Option<string>, loaded: seq<Loaded>, fetches: nat)

  /** The segment a block turns into. */
  function LoadBlock(b: Block): Loaded
  {
    Loaded(BlockRefs(b), BlockNext(b))
  }

  /** The chain of a freshly built segmented index: nothing fetched yet. */
  function NewChain(firstNext: Option<string>): Chain
  {
    Chain(firstNext, [], 0)
  }

  /** The `nextKey` of segment i (0 is the first segment). */
  function NextKeyOf(c: Chain, i: nat): Option<string>
    requires i <= |c.loaded|
  {
    if i == 0 then c.firstNext else c.loaded[i - 1].nextKey
  }

  /**
   * `segment.next(cache)` for segment i: an already loaded successor is
   * returned as is; otherwise a null next key ends the chain, a missing block
   * throws DocumentNotFound and leaves the chain as it was, and a present
   * block is fetched once and remembered. `Ok(true)` means segment i + 1
   * exists (and is `loaded[i]` afterwards), `Ok(false)` means null.
   */
  function Next(c: Chain, i: nat, blocks: map<string, Block>): (r: (Outcome<bool>, Chain))
    requires i <= |c.loaded|
    ensures r.1.firstNext == c.firstNext && c.loaded <= r.1.loaded
    ensures r.0 == Ok(true) <==> i < |r.1.loaded|
    ensures r.0.Fail? ==> r.1 == c && NextKeyOf(c, i).Some? && r.0.error == DocumentNotFound(NextKeyOf(c, i).value)
    ensures r.1.fetches == c.fetches + |r.1.loaded| - |c.loaded|
    ensures |r.1.loaded| <= |c.loaded| + 1
  {
    if i < |c.loaded| then (Ok(true), c)
    else
      match NextKeyOf(c, i)
      case None => (Ok(false), c)
      case Some(key) =>
        if key !in blocks then (Fail(DocumentNotFound(key)), c)
        else (Ok(true), Chain(c.firstNext, c.loaded + [LoadBlock(blocks[key])], c.fetches + 1))
  }

  /** The loaded segments follow the block chain from `k`, one block per segment. */
  ghost predicate Follows(blocks: map<string, Block>, k: Option<string>, loaded: seq<Loaded>)
    decreases |loaded|
  {
    |loaded| == 0
    || (k.Some? && k.value in blocks && loaded[0] == LoadBlock(blocks[k.value])
        && Follows(blocks, loaded[0].nextKey, loaded[1..]))
  }

  /** Every loaded segment came from the chain, and each was fetched exactly once. */
  ghost predicate Consistent(c: Chain, blocks: map<string, Block>)
  {
    c.fetches == |c.loaded| && Follows(blocks, c.firstNext, c.loaded)
  }

  /** The next key after the last loaded segment (the first segment's when none is loaded). */
  function LastKey(k: Option<string>, loaded: seq<Loaded>): Option<string>
  {
    if |loaded| == 0 then k else loaded[|loaded| - 1].nextKey
  }

  function SegmentsOf(loaded: seq<Loaded>): seq<Mediums.Medium>
  {
    seq(|loaded|, j requires 0 <= j < |loaded| => loaded[j].refs)
  }

  // ---------------------------------------------------------------------------
  // Properties
  // ---------------------------------------------------------------------------

  lemma {:induction false} FollowsAppend(blocks: map<string, Block>, k: Option<string>, loaded: seq<Loaded>)
    requires Follows(blocks, k, loaded)
    requires LastKey(k, loaded).Some? && LastKey(k, loaded).value in blocks
    ensures Follows(blocks, k, loaded + [LoadBlock(blocks[LastKey(k, loaded).value])])
    decreases |loaded|
  {
    var l := LoadBlock(blocks[LastKey(k, loaded).value]);
    if |loaded| > 0 {
      assert (loaded + [l])[1..] == loaded[1..] + [l];
      if |loaded| > 1 {
        assert LastKey(loaded[0].nextKey, loaded[1..]) == LastKey(k, loaded);
      }
      FollowsAppend(blocks, loaded[0].nextKey, loaded[1..]);
    }
  }

  /** A fresh chain is consistent and has fetched nothing. */
  lemma NewChainConsistent(firstNext: Option<string>, blocks: map<string, Block>)
    ensures Consistent(NewChain(firstNext), blocks)
    ensures NewChain(firstNext).fetches == 0
  {
  }

  /** `next` keeps the chain consistent: a fetch loads exactly the block the key names. */
  lemma NextPreservesConsistent(c: Chain, i: nat, blocks: map<string, Block>)
    requires i <= |c.loaded| && Consistent(c, blocks)
    ensures Consistent(Next(c, i, blocks).1, blocks)
  {
    if i == |c.loaded| && NextKeyOf(c, i).Some? && NextKeyOf(c, i).value in blocks {
      FollowsAppend(blocks, c.firstNext, c.loaded);
    }
  }

  /**
   * Asking a segment for its successor twice gives the same answer the second
   * time and changes nothing more: in particular no second fetch.
   */
  lemma NextIsMemoised(c: Chain, i: nat, blocks: map<string, Block>)
    requires i <= |c.loaded|
    ensures var (r1, c1) := Next(c, i, blocks);
            i <= |c1.loaded| && Next(c1, i, blocks) == (r1, c1)
  {
  }

  /** A successor already loaded costs no fetch; otherwise at most one. */
  lemma NextFetchesAtMostOnce(c: Chain, i: nat, blocks: map<string, Block>)
    requires i <= |c.loaded|
    ensures i < |c.loaded| ==> Next(c, i, blocks).1.fetches == c.fetches
    ensures Next(c, i, blocks).1.fetches <= c.fetches + 1
  {
  }

  /**
   * The segments a consistent chain has loaded are the first segments of the
   * stateless walk, which carries on from the key after the last of them.
   */
  lemma {:induction false} WalkSplits(blocks: map<string, Block>, k: Option<string>, fuel: nat, loaded: seq<Loaded>)
    requires ChainEnds(blocks, k, fuel) && Follows(blocks, k, loaded)
    ensures |loaded| <= fuel
    ensures ChainEnds(blocks, LastKey(k, loaded), fuel - |loaded|)
    ensures var rest := WalkFrom(blocks, LastKey(k, loaded), fuel - |loaded|);
            WalkFrom(blocks, k, fuel) == Walk(SegmentsOf(loaded) + rest.segments, rest.missing)
    decreases |loaded|
  {
    if |loaded| > 0 {
      var k2 := loaded[0].nextKey;
      WalkSplits(blocks, k2, fuel - 1, loaded[1..]);
      assert LastKey(k2, loaded[1..]) == LastKey(k, loaded);
      assert SegmentsOf(loaded) == [loaded[0].refs] + SegmentsOf(loaded[1..]);
    }
  }

  /**
   * Walking the whole chain through `next`: the segments loaded at the end
   * are exactly those of the stateless walk, a missing block surfaces as
   * DocumentNotFound for its key, and every segment was fetched once. A chain
   * already loaded to its end is walked again without any fetch.
   */
  method LoadAll(c0: Chain, blocks: map<string, Block>) returns (result: Outcome<nat>, c: Chain)
    requires Consistent(c0, blocks) && ChainEnds(blocks, c0.firstNext, |blocks|)
    ensures Consistent(c, blocks) && c.firstNext == c0.firstNext && c0.loaded <= c.loaded
    ensures var w := WalkFrom(blocks, c0.firstNext, |blocks|);
            SegmentsOf(c.loaded) == w.segments
            && (result.Ok? <==> w.missing.None?)
            && (result.Ok? ==> result.value == |w.segments|)
            && (result.Fail? ==> result.error == DocumentNotFound(w.missing.value))
    ensures c.fetches == c0.fetches + |c.loaded| - |c0.loaded|
  {
    var w := WalkFrom(blocks, c0.firstNext, |blocks|);
    c := c0;
    var i := 0;
    WalkSplits(blocks, c.firstNext, |blocks|, c.loaded);
    var step := Next(c, i, blocks);
    NextPreservesConsistent(c, i, blocks);
    while step.0 == Ok(true)
      invariant Consistent(c, blocks) && c.firstNext == c0.firstNext && c0.loaded <= c.loaded
      invariant c.fetches == c0.fetches + |c.loaded| - |c0.loaded|
      invariant i <= |c.loaded| && step == Next(c, i, blocks)
      invariant Consistent(step.1, blocks)
      invariant |c.loaded| <= |w.segments|
      decreases |w.segments| - i
    {
      c := step.1;
      WalkSplits(blocks, c.firstNext, |blocks|, c.loaded);
      i := i + 1;
      step := Next(c, i, blocks);
      NextPreservesConsistent(c, i, blocks);
    }
    WalkSplits(blocks, c.firstNext, |blocks|, c.loaded);
    if step.0.Fail? {
      result := Fail(step.0.error);
    } else {
      result := Ok(i);
    }
  }
}
