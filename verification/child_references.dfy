/**
 * `ImmutableChildReferences`: the read-only child-reference implementations a
 * node's cached document yields — empty, one materialised segment (Medium), a
 * chain of segments stored in separate blocks (Segmented), and the union of a
 * node's own children with those from another source — and the factories
 * that choose among them.
 *
 * A block chain is walked statelessly here; the memoisation of loaded
 * segments is modelled on its own in SegmentChains, which proves it returns
 * the segments this walk visits.
 */
module ChildReferences {
  import opened Common
  import opened ChildRefs
  import Mediums

  /** `ChildReferences.UNKNOWN_SIZE`: the total size a federated parent may report. */
  const UnknownSize: int := -1

  /** `ChildReferencesInfo`: the key of the next block, if any, and the total number of children. */
  datatype SegmentingInfo = SegmentingInfo(nextKey: Option<string>, totalSize: int)

  /** A stored block: its own children array and its segmenting information. */
  datatype Block = Block(children: Option<seq<Option<ChildRef>>>, info: Option<SegmentingInfo>)

  /** The references a block contributes, built as a materialised segment. */
  function BlockRefs(b: Block): Mediums.Medium
  {
    Mediums.FromDocument(b.children)
  }

  /** The key of the block after `b`, if any. */
  function BlockNext(b: Block): Option<string>
  {
    if b.info.Some? then b.info.value.nextKey else None
  }

  /**
   * The workspace cache as the segmented references see it: the blocks by key
   * (`blockFor` returns null for a key not in the map) and the document
   * store's optional answers for parents of unknown size.
   */
  datatype Store = Store(
    blocks: map<string, Block>,
    externalCount: (string, Name) -> int,
    externalByName: (string, Name, int) -> Option<ChildRef>,
    externalByKey: (string, NodeKey) -> Option<ChildRef>)

  datatype Refs =
    | EmptyRefs
    | MediumRefs(index: Mediums.Medium)
    | Segmented(nodeKey: string, totalSize: int, firstSegment: Refs, nextKey: Option<string>)
    | ReferencesUnion(firstRefs: Refs, secondRefs: Refs)

  // ---------------------------------------------------------------------------
  // The block chain
  // ---------------------------------------------------------------------------

  /**
   * Following next-block keys from `k` reaches the end of the chain (a null
   * key) or a missing block within `fuel` steps. With `fuel` the number of
   * blocks this says the chain has no cycle; on a cyclic chain the walking
   * loops never end.
   */
  predicate ChainEnds(blocks: map<string, Block>, k: Option<string>, fuel: nat)
    decreases fuel
  {
    match k
    case None => true
    case Some(key) => key !in blocks || (fuel > 0 && ChainEnds(blocks, BlockNext(blocks[key]), fuel - 1))
  }

  /** The segments a walk loads in order, and the key of a missing block that stops it, if any. */
  datatype Walk = Walk(segments: seq<Mediums.Medium>, missing: Option<string>)

  /**
   * The key `i` steps along the chain from `k`: None once the chain has ended
   * or has reached a missing block.
   */
  function ChainKey(blocks: map<string, Block>, k: Option<string>, i: nat): Option<string>
    decreases i
  {
    if i == 0 then k
    else if k.None? || k.value !in blocks then None
    else ChainKey(blocks, BlockNext(blocks[k.value]), i - 1)
  }

  /**
   * The walk `Segment.next` performs from key `k`: segment i is the block
   * reached after i steps along the chain, and the walk stops at the first
   * key that is null or names a missing block, reporting the latter.
   */
  function WalkFrom(blocks: map<string, Block>, k: Option<string>, fuel: nat): (w: Walk)
    requires ChainEnds(blocks, k, fuel)
    ensures |w.segments| <= fuel
    ensures ChainKey(blocks, k, |w.segments|) == w.missing
    ensures w.missing.Some? ==> w.missing.value !in blocks
    decreases fuel
  {
    match k
    case None => Walk([], None)
    case Some(key) =>
      if key !in blocks then Walk([], Some(key))
      else
        var rest := WalkFrom(blocks, BlockNext(blocks[key]), fuel - 1);
        Walk([BlockRefs(blocks[key])] + rest.segments, rest.missing)
  }

  /** Segment i of a walk is the block reached after i steps along the chain. */
  lemma {:induction false} WalkFollowsChain(blocks: map<string, Block>, k: Option<string>, fuel: nat, i: nat)
    requires ChainEnds(blocks, k, fuel) && i < |WalkFrom(blocks, k, fuel).segments|
    ensures ChainKey(blocks, k, i).Some? && ChainKey(blocks, k, i).value in blocks
    ensures WalkFrom(blocks, k, fuel).segments[i] == BlockRefs(blocks[ChainKey(blocks, k, i).value])
    decreases fuel
  {
    if i > 0 {
      WalkFollowsChain(blocks, BlockNext(blocks[k.value]), fuel - 1, i - 1);
    }
  }

  /** Every chain in `r` ends. */
  predicate WellFormed(r: Refs, store: Store)
  {
    match r
    case EmptyRefs => true
    case MediumRefs(_) => true
    case Segmented(_, _, first, next) => WellFormed(first, store) && ChainEnds(store.blocks, next, |store.blocks|)
    case ReferencesUnion(a, b) => WellFormed(a, store) && WellFormed(b, store)
  }

  /** The segments after the first one of a segmented index. */
  function Later(r: Refs, store: Store): Walk
    requires r.Segmented? && WellFormed(r, store)
  {
    WalkFrom(store.blocks, r.nextKey, |store.blocks|)
  }

  // ---------------------------------------------------------------------------
  // Loops over loaded segments
  // ---------------------------------------------------------------------------

  function CountIn(segs: seq<Mediums.Medium>, name: Name): int
    decreases |segs|
  {
    if |segs| == 0 then 0 else Mediums.ChildCount(segs[0], name) + CountIn(segs[1..], name)
  }

  predicate HasIn(segs: seq<Mediums.Medium>, key: NodeKey)
  {
    exists i :: 0 <= i < |segs| && key in segs[i].byKey
  }

  function KeysIn(segs: seq<Mediums.Medium>): multiset<NodeKey>
    decreases |segs|
  {
    if |segs| == 0 then multiset{} else multiset(segs[0].byKey.Keys) + KeysIn(segs[1..])
  }

  /** The first non-null answer of the segments to `getChild(name, snsIndex, context)`. */
  function FindByNameIn(segs: seq<Mediums.Medium>, name: Name, sns: int, ctx: Context): (r: (Lookup, Context))
    ensures r.1.NullContext? <==> ctx.NullContext?
    ensures r.1.Ctx? ==> r.1.changes == ctx.changes
    decreases |segs|
  {
    if |segs| == 0 then (Ok(None), ctx)
    else
      var (found, after) := Mediums.GetChildByName(segs[0], name, sns, ctx);
      if found != Ok(None) then (found, after) else FindByNameIn(segs[1..], name, sns, after)
  }

  /** The first non-null answer of the segments to `getChild(key, context)`. */
  function FindByKeyIn(segs: seq<Mediums.Medium>, key: NodeKey, ctx: Context): (r: Option<ChildRef>)
    decreases |segs|
  {
    if |segs| == 0 then None
    else
      var found := Mediums.GetChildByKey(segs[0], key, ctx).value;
      if found.Some? then found else FindByKeyIn(segs[1..], key, ctx)
  }

  // ---------------------------------------------------------------------------
  // Queries
  // ---------------------------------------------------------------------------

  /** `size()`: a segmented index reports its recorded total; a union adds its sides. */
  function Size(r: Refs): int
  {
    match r
    case EmptyRefs => 0
    case MediumRefs(m) => Mediums.Size(m)
    case Segmented(_, total, _, _) => total
    case ReferencesUnion(a, b) => Size(b) + Size(a)
  }

  /** `getChildCount(name)`. */
  function ChildCount(r: Refs, name: Name, store: Store): Outcome<int>
    requires WellFormed(r, store)
  {
    match r
    case EmptyRefs => Ok(0)
    case MediumRefs(m) => Ok(Mediums.ChildCount(m, name))
    case Segmented(node, total, first, _) =>
      var external := store.externalCount(node, name);
      if total == UnknownSize && external >= 0 then Ok(external)
      else (
        match ChildCount(first, name, store)
        case Fail(e) => Fail(e)
        case Ok(n) =>
          var w := Later(r, store);
          if w.missing.Some? then Fail(DocumentNotFound(w.missing.value))
          else Ok(n + CountIn(w.segments, name)))
    case ReferencesUnion(a, b) =>
      match ChildCount(b, name, store)
      case Fail(e) => Fail(e)
      case Ok(nb) => (
        match ChildCount(a, name, store)
        case Fail(e) => Fail(e)
        case Ok(na) => Ok(nb + na))
  }

  /** `hasChild(key)`: a union asks its second side first. */
  function HasChild(r: Refs, key: NodeKey, store: Store): Outcome<bool>
    requires WellFormed(r, store)
  {
    match r
    case EmptyRefs => Ok(false)
    case MediumRefs(m) => Ok(Mediums.HasChild(m, key))
    case Segmented(_, _, first, _) => (
      match HasChild(first, key, store)
      case Fail(e) => Fail(e)
      case Ok(found) =>
        var w := Later(r, store);
        if found || HasIn(w.segments, key) then Ok(true)
        else if w.missing.Some? then Fail(DocumentNotFound(w.missing.value))
        else Ok(false))
    case ReferencesUnion(a, b) =>
      match HasChild(b, key, store)
      case Fail(e) => Fail(e)
      case Ok(true) => Ok(true)
      case Ok(false) => HasChild(a, key, store)
  }

  /**
   * `getChild(name, snsIndex, context)`, with the context as the lookup leaves
   * it. A segmented parent of unknown size asks the document store first; a
   * union asks its first side first.
   */
  function GetChildByName(r: Refs, name: Name, sns: int, ctx: Context, store: Store): (res: (Lookup, Context))
    requires WellFormed(r, store)
    ensures res.1.NullContext? <==> ctx.NullContext?
    ensures res.1.Ctx? ==> res.1.changes == ctx.changes
  {
    match r
    case EmptyRefs => (Ok(None), ctx)
    case MediumRefs(m) => Mediums.GetChildByName(m, name, sns, ctx)
    case Segmented(node, total, first, _) =>
      var external := if total == UnknownSize then store.externalByName(node, name, sns) else None;
      if external.Some? then (Ok(external), ctx)
      else
        var (found, after) := GetChildByName(first, name, sns, ctx, store);
        if found != Ok(None) then (found, after)
        else
          var w := Later(r, store);
          var (later, after2) := FindByNameIn(w.segments, name, sns, after);
          if later != Ok(None) then (later, after2)
          else if w.missing.Some? then (Fail(DocumentNotFound(w.missing.value)), after2)
          else (Ok(None), after2)
    case ReferencesUnion(a, b) =>
      var (found, after) := GetChildByName(a, name, sns, ctx, store);
      if found != Ok(None) then (found, after) else GetChildByName(b, name, sns, after, store)
  }

  /** `getChild(key, context)`. */
  function GetChildByKey(r: Refs, key: NodeKey, ctx: Context, store: Store): Lookup
    requires WellFormed(r, store)
  {
    match r
    case EmptyRefs => Ok(None)
    case MediumRefs(m) => Mediums.GetChildByKey(m, key, ctx)
    case Segmented(node, total, first, _) =>
      var external := if total == UnknownSize then store.externalByKey(node, key) else None;
      if external.Some? then Ok(external)
      else (
        match GetChildByKey(first, key, ctx, store)
        case Fail(e) => Fail(e)
        case Ok(Some(c)) => Ok(Some(c))
        case Ok(None) =>
          var w := Later(r, store);
          var later := FindByKeyIn(w.segments, key, ctx);
          if later.Some? then Ok(later)
          else if w.missing.Some? then Fail(DocumentNotFound(w.missing.value))
          else Ok(None))
    case ReferencesUnion(a, b) =>
      match GetChildByKey(a, key, ctx, store)
      case Fail(e) => Fail(e)
      case Ok(Some(c)) => Ok(Some(c))
      case Ok(None) => GetChildByKey(b, key, ctx, store)
  }

  /**
   * Everything `getAllKeys()` enumerates, counted with multiplicity. A union
   * first gathers its second side's keys into a set, then enumerates its
   * first side's keys followed by that set, without removing keys both share.
   */
  function AllKeys(r: Refs, store: Store): Outcome<multiset<NodeKey>>
    requires WellFormed(r, store)
  {
    match r
    case EmptyRefs => Ok(multiset{})
    case MediumRefs(m) => Ok(multiset(Mediums.Keys(m)))
    case Segmented(_, _, first, _) => (
      match AllKeys(first, store)
      case Fail(e) => Fail(e)
      case Ok(ks) =>
        var w := Later(r, store);
        if w.missing.Some? then Fail(DocumentNotFound(w.missing.value))
        else Ok(ks + KeysIn(w.segments)))
    case ReferencesUnion(a, b) =>
      match AllKeys(b, store)
      case Fail(e) => Fail(e)
      case Ok(kb) => (
        match AllKeys(a, store)
        case Fail(e) => Fail(e)
        case Ok(ka) => Ok(ka + multiset(set k | k in kb)))
  }

  // ---------------------------------------------------------------------------
  // Factories
  // ---------------------------------------------------------------------------

  /** `union(first, second)`: an empty side is dropped, two empty sides give the empty instance. */
  function UnionOf(first: Refs, second: Refs): (r: Refs)
    ensures Size(r) == Size(first) + Size(second)
    ensures Size(first) == 0 && Size(second) == 0 ==> r == EmptyRefs
    ensures Size(first) == 0 && Size(second) != 0 ==> r == second
    ensures Size(first) != 0 && Size(second) == 0 ==> r == first
    ensures Size(first) != 0 && Size(second) != 0 ==> r == ReferencesUnion(first, second)
  {
    if Size(first) == 0 && Size(second) == 0 then EmptyRefs
    else if Size(first) == 0 then second
    else if Size(second) == 0 then first
    else ReferencesUnion(first, second)
  }

  /** `create(first, info, cache, nodeKey)`: segmented only when a next block is named. */
  function Create(first: Refs, info: Option<SegmentingInfo>, nodeKey: string): (r: Refs)
    ensures r != first ==> info.Some? && info.value.nextKey.Some? && r.Segmented?
                           && Size(r) == info.value.totalSize && r.firstSegment == first
    ensures r == first <==> info.None? || info.value.nextKey.None?
    ensures info.Some? && info.value.nextKey.Some? ==>
              r.Segmented? && r.nodeKey == nodeKey && r.nextKey == info.value.nextKey
              && r.firstSegment == first && Size(r) == info.value.totalSize
  {
    if info.None? || info.value.nextKey.None? then first
    else Segmented(nodeKey, info.value.totalSize, first, info.value.nextKey)
  }

  /** `create(first, info, second, cache, nodeKey)`. */
  function CreateWithSecond(first: Refs, info: Option<SegmentingInfo>, second: Refs, nodeKey: string): Refs
  {
    if info.None? || info.value.nextKey.None? then UnionOf(first, second)
    else UnionOf(Segmented(nodeKey, info.value.totalSize, first, info.value.nextKey), second)
  }

  // ---------------------------------------------------------------------------
  // Reference semantics: the segments in lookup order
  // ---------------------------------------------------------------------------

  /** No block in any chain of `r` is missing. */
  predicate Complete(r: Refs, store: Store)
    requires WellFormed(r, store)
  {
    match r
    case EmptyRefs => true
    case MediumRefs(_) => true
    case Segmented(_, _, first, _) => Complete(first, store) && Later(r, store).missing.None?
    case ReferencesUnion(a, b) => Complete(a, store) && Complete(b, store)
  }

  /** No segmented part of `r` reports the unknown size, so the document store is never asked. */
  predicate KnownSizes(r: Refs)
  {
    match r
    case EmptyRefs => true
    case MediumRefs(_) => true
    case Segmented(_, total, first, _) => total != UnknownSize && KnownSizes(first)
    case ReferencesUnion(a, b) => KnownSizes(a) && KnownSizes(b)
  }

  /** Every materialised segment of `r`, in the order lookups visit them. */
  function Flat(r: Refs, store: Store): seq<Mediums.Medium>
    requires WellFormed(r, store)
  {
    match r
    case EmptyRefs => []
    case MediumRefs(m) => [m]
    case Segmented(_, _, first, _) => Flat(first, store) + Later(r, store).segments
    case ReferencesUnion(a, b) => Flat(a, store) + Flat(b, store)
  }

  /**
   * Without changes: the first segment, in lookup order, with at least `sns`
   * children of the name supplies the answer. Each segment numbers its own
   * same-name siblings from 1.
   */
  function FirstDeepEnough(segs: seq<Mediums.Medium>, name: Name, sns: int): Option<ChildRef>
    decreases |segs|
  {
    if |segs| == 0 then None
    else if 1 <= sns <= |segs[0].Group(name)| then Some(segs[0].Group(name)[sns - 1])
    else FirstDeepEnough(segs[1..], name, sns)
  }

  /** The by-key entry of the first segment that stores `key`. */
  function FirstStoring(segs: seq<Mediums.Medium>, key: NodeKey): Option<ChildRef>
    decreases |segs|
  {
    if |segs| == 0 then None
    else if key in segs[0].byKey then Some(segs[0].byKey[key])
    else FirstStoring(segs[1..], key)
  }

  lemma {:induction false} CountInAppend(a: seq<Mediums.Medium>, b: seq<Mediums.Medium>, name: Name)
    ensures CountIn(a + b, name) == CountIn(a, name) + CountIn(b, name)
    decreases |a|
  {
    if |a| > 0 {
      assert (a + b)[0] == a[0];
      assert (a + b)[1..] == a[1..] + b;
      CountInAppend(a[1..], b, name);
    } else {
      assert a + b == b;
    }
  }

  lemma {:induction false} KeysInAppend(a: seq<Mediums.Medium>, b: seq<Mediums.Medium>)
    ensures KeysIn(a + b) == KeysIn(a) + KeysIn(b)
    decreases |a|
  {
    if |a| > 0 {
      assert (a + b)[0] == a[0];
      assert (a + b)[1..] == a[1..] + b;
      KeysInAppend(a[1..], b);
    } else {
      assert a + b == b;
    }
  }

  lemma HasInAppend(a: seq<Mediums.Medium>, b: seq<Mediums.Medium>, key: NodeKey)
    ensures HasIn(a + b, key) <==> HasIn(a, key) || HasIn(b, key)
  {
    if HasIn(b, key) {
      var i :| 0 <= i < |b| && key in b[i].byKey;
      assert (a + b)[|a| + i] == b[i];
    }
    if HasIn(a, key) {
      var i :| 0 <= i < |a| && key in a[i].byKey;
      assert (a + b)[i] == a[i];
    }
    if HasIn(a + b, key) {
      var i :| 0 <= i < |a + b| && key in (a + b)[i].byKey;
      if i >= |a| {
        assert (a + b)[i] == b[i - |a|];
      } else {
        assert (a + b)[i] == a[i];
      }
    }
  }

  lemma {:induction false} FirstDeepEnoughAppend(a: seq<Mediums.Medium>, b: seq<Mediums.Medium>, name: Name, sns: int)
    ensures FirstDeepEnough(a + b, name, sns)
            == if FirstDeepEnough(a, name, sns).Some? then FirstDeepEnough(a, name, sns) else FirstDeepEnough(b, name, sns)
    decreases |a|
  {
    if |a| > 0 {
      assert (a + b)[1..] == a[1..] + b;
      FirstDeepEnoughAppend(a[1..], b, name, sns);
    } else {
      assert a + b == b;
    }
  }

  lemma {:induction false} FirstStoringAppend(a: seq<Mediums.Medium>, b: seq<Mediums.Medium>, key: NodeKey)
    ensures FirstStoring(a + b, key)
            == if FirstStoring(a, key).Some? then FirstStoring(a, key) else FirstStoring(b, key)
    decreases |a|
  {
    if |a| > 0 {
      assert (a + b)[1..] == a[1..] + b;
      FirstStoringAppend(a[1..], b, key);
    } else {
      assert a + b == b;
    }
  }

  /** Without changes, scanning loaded segments by name is the reference search. */
  lemma {:induction false} FindByNameInPlain(segs: seq<Mediums.Medium>, name: Name, sns: int, ctx: Context)
    requires ctx.ChangesOrNull().None? && sns >= 1
    ensures FindByNameIn(segs, name, sns, ctx) == (Ok(FirstDeepEnough(segs, name, sns)), ctx)
    decreases |segs|
  {
    if |segs| > 0 {
      FindByNameInPlain(segs[1..], name, sns, ctx);
    }
  }

  /** Without changes, scanning loaded segments by key is the reference search. */
  lemma {:induction false} FindByKeyInPlain(segs: seq<Mediums.Medium>, key: NodeKey, ctx: Context)
    requires ctx.ChangesOrNull().None?
    ensures FindByKeyIn(segs, key, ctx) == FirstStoring(segs, key)
    decreases |segs|
  {
    if |segs| > 0 {
      FindByKeyInPlain(segs[1..], key, ctx);
    }
  }

  /**
   * When every block is present and no size is unknown, `hasChild` is true
   * exactly when some segment stores the key, whatever the nesting of
   * segments and unions.
   */
  lemma {:induction false} HasChildMatchesFlat(r: Refs, key: NodeKey, store: Store)
    requires WellFormed(r, store) && Complete(r, store)
    ensures HasChild(r, key, store) == Ok(HasIn(Flat(r, store), key))
  {
    match r
    case EmptyRefs =>
    case MediumRefs(m) =>
      assert [m][0] == m;
    case Segmented(_, _, first, _) =>
      HasChildMatchesFlat(first, key, store);
      HasInAppend(Flat(first, store), Later(r, store).segments, key);
    case ReferencesUnion(a, b) =>
      HasChildMatchesFlat(a, key, store);
      HasChildMatchesFlat(b, key, store);
      HasInAppend(Flat(a, store), Flat(b, store), key);
  }

  /** With every block present and sizes known, `getChildCount` sums the segments' counts. */
  lemma {:induction false} ChildCountMatchesFlat(r: Refs, name: Name, store: Store)
    requires WellFormed(r, store) && Complete(r, store) && KnownSizes(r)
    ensures ChildCount(r, name, store) == Ok(CountIn(Flat(r, store), name))
  {
    match r
    case EmptyRefs =>
    case MediumRefs(m) =>
      assert CountIn([m], name) == Mediums.ChildCount(m, name) + CountIn([m][1..], name);
    case Segmented(_, _, first, _) =>
      ChildCountMatchesFlat(first, name, store);
      CountInAppend(Flat(first, store), Later(r, store).segments, name);
    case ReferencesUnion(a, b) =>
      ChildCountMatchesFlat(a, name, store);
      ChildCountMatchesFlat(b, name, store);
      CountInAppend(Flat(a, store), Flat(b, store), name);
  }

  /**
   * With every block present, sizes known and no changes, the name lookup of
   * an index of at least 1 answers from the first segment, in lookup order,
   * holding that many children of the name, and leaves the context alone.
   */
  lemma {:induction false} GetChildByNameMatchesFlat(r: Refs, name: Name, sns: int, ctx: Context, store: Store)
    requires WellFormed(r, store) && Complete(r, store) && KnownSizes(r)
    requires ctx.ChangesOrNull().None? && sns >= 1
    ensures GetChildByName(r, name, sns, ctx, store) == (Ok(FirstDeepEnough(Flat(r, store), name, sns)), ctx)
  {
    match r
    case EmptyRefs =>
    case MediumRefs(m) =>
      assert FirstDeepEnough([m][1..], name, sns) == None;
    case Segmented(_, _, first, _) =>
      GetChildByNameMatchesFlat(first, name, sns, ctx, store);
      FindByNameInPlain(Later(r, store).segments, name, sns, ctx);
      FirstDeepEnoughAppend(Flat(first, store), Later(r, store).segments, name, sns);
    case ReferencesUnion(a, b) =>
      GetChildByNameMatchesFlat(a, name, sns, ctx, store);
      GetChildByNameMatchesFlat(b, name, sns, ctx, store);
      FirstDeepEnoughAppend(Flat(a, store), Flat(b, store), name, sns);
  }

  /**
   * With every block present, sizes known and no changes, the key lookup
   * returns the by-key entry of the first segment storing the key.
   */
  lemma {:induction false} GetChildByKeyMatchesFlat(r: Refs, key: NodeKey, ctx: Context, store: Store)
    requires WellFormed(r, store) && Complete(r, store) && KnownSizes(r)
    requires ctx.ChangesOrNull().None?
    ensures GetChildByKey(r, key, ctx, store) == Ok(FirstStoring(Flat(r, store), key))
  {
    match r
    case EmptyRefs =>
    case MediumRefs(m) =>
      assert FirstStoring([m][1..], key) == None;
    case Segmented(_, _, first, _) =>
      GetChildByKeyMatchesFlat(first, key, ctx, store);
      FindByKeyInPlain(Later(r, store).segments, key, ctx);
      FirstStoringAppend(Flat(first, store), Later(r, store).segments, key);
    case ReferencesUnion(a, b) =>
      GetChildByKeyMatchesFlat(a, key, ctx, store);
      GetChildByKeyMatchesFlat(b, key, ctx, store);
      FirstStoringAppend(Flat(a, store), Flat(b, store), key);
  }

  /** Without unions and with every block present, `getAllKeys` lists every segment's keys. */
  lemma {:induction false} AllKeysMatchesFlat(r: Refs, store: Store)
    requires WellFormed(r, store) && Complete(r, store) && !HasUnion(r)
    ensures AllKeys(r, store) == Ok(KeysIn(Flat(r, store)))
  {
    match r
    case EmptyRefs =>
    case MediumRefs(m) =>
      assert [m][1..] == [];
      assert KeysIn([m][1..]) == multiset{};
      assert KeysIn([m]) == multiset(m.byKey.Keys);
    case Segmented(_, _, first, _) =>
      AllKeysMatchesFlat(first, store);
      KeysInAppend(Flat(first, store), Later(r, store).segments);
  }

  predicate HasUnion(r: Refs)
  {
    match r
    case EmptyRefs => false
    case MediumRefs(_) => false
    case Segmented(_, _, first, _) => HasUnion(first)
    case ReferencesUnion(_, _) => true
  }

  /**
   * A union enumerates a key both sides hold twice: once from its first side
   * and once from the set gathered from its second side.
   */
  lemma UnionKeysKeepShared(a: Mediums.Medium, b: Mediums.Medium, key: NodeKey, store: Store)
    requires key in a.byKey && key in b.byKey
    ensures WellFormed(ReferencesUnion(MediumRefs(a), MediumRefs(b)), store)
            && AllKeys(ReferencesUnion(MediumRefs(a), MediumRefs(b)), store).Ok?
    ensures AllKeys(ReferencesUnion(MediumRefs(a), MediumRefs(b)), store).value[key] == 2
  {
    var kb := multiset(b.byKey.Keys);
    assert (set k | k in kb) == b.byKey.Keys;
  }

  /**
   * A missing block surfaces as DocumentNotFound once the walk reaches it:
   * `hasChild` of a key stored nowhere before the gap fails with that block's key.
   */
  lemma MissingBlockFails(r: Refs, key: NodeKey, store: Store)
    requires r.Segmented? && WellFormed(r, store)
    requires HasChild(r.firstSegment, key, store) == Ok(false)
    requires !HasIn(Later(r, store).segments, key) && Later(r, store).missing.Some?
    ensures HasChild(r, key, store) == Fail(DocumentNotFound(Later(r, store).missing.value))
    ensures Later(r, store).missing.value !in store.blocks
  {
  }

  /**
   * A parent of unknown size trusts the document store whenever it answers:
   * a non-negative external count, or an external reference by name or key.
   */
  lemma UnknownSizeAsksStoreFirst(node: string, first: Refs, next: Option<string>, name: Name, sns: int,
                                   key: NodeKey, ctx: Context, store: Store)
    requires WellFormed(Segmented(node, UnknownSize, first, next), store)
    ensures var r := Segmented(node, UnknownSize, first, next);
            (store.externalCount(node, name) >= 0 ==> ChildCount(r, name, store) == Ok(store.externalCount(node, name)))
            && (store.externalByName(node, name, sns).Some? ==>
                  GetChildByName(r, name, sns, ctx, store) == (Ok(store.externalByName(node, name, sns)), ctx))
            && (store.externalByKey(node, key).Some? ==>
                  GetChildByKey(r, key, ctx, store) == Ok(store.externalByKey(node, key)))
  {
  }

  /** A store with no blocks whose document store answers every name lookup with a child named "b". */
  function ForeignNameStore(): Store
  {
    Store(map[], (_, _) => -1, (_, _, _) => Some(ChildRef("kb", "b", 1)), (_, _) => None)
  }

  /**
   * The answer of the document store is returned as is: a parent of unknown
   * size asked for a child named "a" returns the store's child named "b", so a
   * name lookup does not in general find a child of the asked name.
   */
  lemma ExternalAnswerNameUnchecked()
    ensures var r := Segmented("p", UnknownSize, EmptyRefs, None);
            WellFormed(r, ForeignNameStore())
            && GetChildByName(r, "a", 1, NullContext, ForeignNameStore()).0 == Ok(Some(ChildRef("kb", "b", 1)))
  {
  }

  /** Stores that differ only in their external answers. */
  predicate SameBlocks(s1: Store, s2: Store)
  {
    s1.blocks == s2.blocks
  }

  /** A parent whose sizes are all known never consults the document store's external answers. */
  lemma KnownSizeIgnoresStore(r: Refs, name: Name, sns: int, key: NodeKey, ctx: Context, s1: Store, s2: Store)
    requires SameBlocks(s1, s2) && KnownSizes(r) && WellFormed(r, s1)
    ensures WellFormed(r, s2)
    ensures ChildCount(r, name, s1) == ChildCount(r, name, s2)
    ensures GetChildByName(r, name, sns, ctx, s1) == GetChildByName(r, name, sns, ctx, s2)
    ensures GetChildByKey(r, key, ctx, s1) == GetChildByKey(r, key, ctx, s2)
  {
    KnownSizeCount(r, name, s1, s2);
    KnownSizeByName(r, name, sns, ctx, s1, s2);
    KnownSizeByKey(r, key, ctx, s1, s2);
  }

  lemma {:induction false} KnownSizeCount(r: Refs, name: Name, s1: Store, s2: Store)
    requires SameBlocks(s1, s2) && KnownSizes(r) && WellFormed(r, s1)
    ensures WellFormed(r, s2) && ChildCount(r, name, s1) == ChildCount(r, name, s2)
  {
    match r
    case EmptyRefs =>
    case MediumRefs(_) =>
    case Segmented(_, _, first, _) =>
      KnownSizeCount(first, name, s1, s2);
    case ReferencesUnion(a, b) =>
      KnownSizeCount(a, name, s1, s2);
      KnownSizeCount(b, name, s1, s2);
  }

  lemma {:induction false} KnownSizeByName(r: Refs, name: Name, sns: int, ctx: Context, s1: Store, s2: Store)
    requires SameBlocks(s1, s2) && KnownSizes(r) && WellFormed(r, s1)
    ensures WellFormed(r, s2) && GetChildByName(r, name, sns, ctx, s1) == GetChildByName(r, name, sns, ctx, s2)
  {
    match r
    case EmptyRefs =>
    case MediumRefs(_) =>
    case Segmented(_, _, first, _) =>
      KnownSizeByName(first, name, sns, ctx, s1, s2);
    case ReferencesUnion(a, b) =>
      KnownSizeByName(a, name, sns, ctx, s1, s2);
      var (_, after) := GetChildByName(a, name, sns, ctx, s1);
      KnownSizeByName(b, name, sns, after, s1, s2);
  }

  lemma {:induction false} KnownSizeByKey(r: Refs, key: NodeKey, ctx: Context, s1: Store, s2: Store)
    requires SameBlocks(s1, s2) && KnownSizes(r) && WellFormed(r, s1)
    ensures WellFormed(r, s2) && GetChildByKey(r, key, ctx, s1) == GetChildByKey(r, key, ctx, s2)
  {
    match r
    case EmptyRefs =>
    case MediumRefs(_) =>
    case Segmented(_, _, first, _) =>
      KnownSizeByKey(first, key, ctx, s1, s2);
    case ReferencesUnion(a, b) =>
      KnownSizeByKey(a, key, ctx, s1, s2);
      KnownSizeByKey(b, key, ctx, s1, s2);
  }

  /** The five-argument factory is the union of the four-argument one with the second side. */
  lemma CreateWithSecondIsUnion(first: Refs, info: Option<SegmentingInfo>, second: Refs, nodeKey: string)
    ensures CreateWithSecond(first, info, second, nodeKey) == UnionOf(Create(first, info, nodeKey), second)
  {
  }

  /** Without a next block the factory hands back its first argument. */
  lemma CreateWithoutNextIsFirst(first: Refs, info: Option<SegmentingInfo>, nodeKey: string)
    requires info.None? || info.value.nextKey.None?
    ensures Create(first, info, nodeKey) == first
    ensures forall second :: CreateWithSecond(first, info, second, nodeKey) == UnionOf(first, second)
  {
  }

  /** Sides that hold nothing: the empty instance, or a segment built from no references. */
  predicate HoldsNothing(r: Refs)
  {
    r == EmptyRefs || r == MediumRefs(Mediums.EmptyIndex)
  }

  /**
   * Dropping a side of size 0 in `union` changes no count or membership
   * answer, provided the dropped side really holds nothing.
   */
  lemma UnionShortcutCounts(a: Refs, b: Refs, name: Name, key: NodeKey, store: Store)
    requires WellFormed(a, store) && WellFormed(b, store)
    requires Size(a) == 0 ==> HoldsNothing(a)
    requires Size(b) == 0 ==> HoldsNothing(b)
    ensures var u := ReferencesUnion(a, b);
            var s := UnionOf(a, b);
            WellFormed(s, store)
            && ChildCount(s, name, store) == ChildCount(u, name, store)
            && HasChild(s, key, store) == HasChild(u, key, store)
  {
  }

  /**
   * Dropping a side of size 0 in `union` changes no name lookup made without
   * changes and with an index of at least 1, provided the dropped side really
   * holds nothing.
   */
  lemma UnionShortcutByName(a: Refs, b: Refs, name: Name, sns: int, ctx: Context, store: Store)
    requires WellFormed(a, store) && WellFormed(b, store)
    requires Size(a) == 0 ==> HoldsNothing(a)
    requires Size(b) == 0 ==> HoldsNothing(b)
    requires ctx.ChangesOrNull().None? && sns >= 1
    ensures WellFormed(UnionOf(a, b), store)
    ensures GetChildByName(UnionOf(a, b), name, sns, ctx, store).0
            == GetChildByName(ReferencesUnion(a, b), name, sns, ctx, store).0
  {
    if Size(a) == 0 {
      assert GetChildByName(a, name, sns, ctx, store) == (Ok(None), ctx);
    } else if Size(b) == 0 {
      var (found, after) := GetChildByName(a, name, sns, ctx, store);
      assert GetChildByName(b, name, sns, after, store).0 == Ok(None);
    }
  }

  /** The same for the key lookup. */
  lemma UnionShortcutByKey(a: Refs, b: Refs, key: NodeKey, ctx: Context, store: Store)
    requires WellFormed(a, store) && WellFormed(b, store)
    requires Size(a) == 0 ==> HoldsNothing(a)
    requires Size(b) == 0 ==> HoldsNothing(b)
    requires ctx.ChangesOrNull().None?
    ensures WellFormed(UnionOf(a, b), store)
    ensures GetChildByKey(UnionOf(a, b), key, ctx, store) == GetChildByKey(ReferencesUnion(a, b), key, ctx, store)
  {
    var u := GetChildByKey(ReferencesUnion(a, b), key, ctx, store);
    if Size(a) == 0 {
      assert GetChildByKey(a, key, ctx, store) == Ok(None);
      assert u == GetChildByKey(b, key, ctx, store);
      if Size(b) == 0 {
        assert UnionOf(a, b) == EmptyRefs;
        assert GetChildByKey(b, key, ctx, store) == Ok(None);
      } else {
        assert UnionOf(a, b) == b;
      }
    } else if Size(b) == 0 {
      assert UnionOf(a, b) == a;
      assert GetChildByKey(b, key, ctx, store) == Ok(None);
    }
  }

  /** A store holding one block, "b2", with one child named "a" and no successor. */
  function OneBlockStore(): Store
  {
    Store(map["b2" := Block(Some([Some(ChildRef("k2", "a", 0))]), None)],
          (node, name) => -1, (node, name, sns) => None, (node, key) => None)
  }

  /** A segmented index whose first segment holds one child named "a" and whose next block is "b2". */
  function TwoSegments(): Refs
  {
    Segmented("p", 2, MediumRefs(Mediums.Build([ChildRef("k1", "a", 0)])), Some("b2"))
  }

  /** The two segments of the example each number their "a" child 1. */
  lemma TwoSegmentsShape()
    ensures WellFormed(TwoSegments(), OneBlockStore())
    ensures TwoSegments().firstSegment == MediumRefs(OnlyChild("k1"))
    ensures Later(TwoSegments(), OneBlockStore()) == Walk([OnlyChild("k2")], None)
  {
    var store := OneBlockStore();
    Mediums.BuildOne(ChildRef("k1", "a", 0));
    Mediums.BuildOne(ChildRef("k2", "a", 0));
    assert Mediums.Translated([Some(ChildRef("k2", "a", 0))]) == [ChildRef("k2", "a", 0)];
    assert ChainEnds(store.blocks, None, 0);
  }

  /** An index holding one child named "a", under the given key, numbered 1. */
  function OnlyChild(key: NodeKey): Mediums.Medium
  {
    Mediums.Medium(map["a" := [ChildRef(key, "a", 1)]], map[key := ChildRef(key, "a", 1)])
  }

  /**
   * Same-name siblings are numbered per segment: with one child named "a" in
   * the first segment and another in the next block, the name count is 2 but
   * index 2 finds nothing, because each segment's own group holds one child.
   */
  lemma SnsNumberingIsPerSegment()
    ensures WellFormed(TwoSegments(), OneBlockStore())
            && ChildCount(TwoSegments(), "a", OneBlockStore()) == Ok(2)
            && GetChildByName(TwoSegments(), "a", 1, NullContext, OneBlockStore()).0 == Ok(Some(ChildRef("k1", "a", 1)))
            && GetChildByName(TwoSegments(), "a", 2, NullContext, OneBlockStore()).0 == Ok(None)
  {
    var store := OneBlockStore();
    var r := TwoSegments();
    TwoSegmentsShape();
    var segs := [OnlyChild("k2")];
    assert segs[1..] == [];
    assert CountIn(segs, "a") == 1;
    assert GetChildByName(r.firstSegment, "a", 2, NullContext, store) == (Ok(None), NullContext);
    assert FindByNameIn(segs, "a", 2, NullContext) == (Ok(None), NullContext);
  }
}
