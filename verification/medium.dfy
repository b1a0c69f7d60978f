/**
 * `ImmutableChildReferences.Medium`: the fully materialised index of one
 * segment's child references, grouped by name (with the same-name-sibling
 * index precomputed) and keyed by node key.
 */
module Mediums {
  import opened Common
  import opened ChildRefs

  /**
   * `byName` is the list multimap (a name maps to a non-empty list in
   * insertion order) and `byKey` the hash map from node key to reference.
   */
  datatype Medium = Medium(byName: map<Name, seq<ChildRef>>, byKey: map<NodeKey, ChildRef>)
  {
    /** `childReferences.get(name)`: the references stored under `name`, possibly none. */
    function Group(name: Name): seq<ChildRef>
    {
      if name in byName then byName[name] else []
    }
  }

  const EmptyIndex: Medium := Medium(map[], map[])

  /**
   * What a well-built index looks like: the n-th reference of a name group
   * carries that name and SNS index n, and its key is indexed; the by-key entry
   * of a key is the reference stored at its own SNS position in its group.
   */
  ghost predicate Valid(m: Medium)
  {
    NamesNumbered(m) && KeysPlaced(m)
  }

  /** Every name group is numbered 1, 2, ... and holds only indexed keys of that name. */
  ghost predicate NamesNumbered(m: Medium)
  {
    forall n, i :: n in m.byName && 0 <= i < |m.byName[n]| ==>
      m.byName[n][i].name == n && m.byName[n][i].snsIndex == i + 1 && m.byName[n][i].key in m.byKey
  }

  /** Every by-key entry sits at its own SNS position in its name group. */
  ghost predicate KeysPlaced(m: Medium)
  {
    forall k :: k in m.byKey ==>
      m.byKey[k].key == k
      && 1 <= m.byKey[k].snsIndex <= |m.Group(m.byKey[k].name)|
      && m.Group(m.byKey[k].name)[m.byKey[k].snsIndex - 1] == m.byKey[k]
  }

  // ---------------------------------------------------------------------------
  // Construction
  // ---------------------------------------------------------------------------

  /**
   * One pass of the constructor's second loop: a reference whose key is
   * already indexed under the same name is skipped; any other is numbered one
   * past its name group and recorded in both structures.
   */
  function Add(m: Medium, ref: ChildRef): (r: Medium)
    ensures r.byKey.Keys == m.byKey.Keys + {ref.key}
    ensures r.byKey[ref.key].name == ref.name
  {
    if ref.key in m.byKey && m.byKey[ref.key].name == ref.name then m
    else
      var g := m.Group(ref.name);
      var numbered := ref.With(|g| + 1);
      Medium(m.byName[ref.name := g + [numbered]], m.byKey[ref.key := numbered])
  }

  /** The constructor's second loop over the translated references, in order. */
  function Build(entries: seq<ChildRef>): Medium
    decreases |entries|
  {
    if |entries| == 0 then EmptyIndex
    else Add(Build(entries[..|entries| - 1]), entries[|entries| - 1])
  }

  /** The constructor's first loop: the values the translator turned into references. */
  function Translated(values: seq<Option<ChildRef>>): (refs: seq<ChildRef>)
    ensures forall r :: r in refs <==> Some(r) in values
    decreases |values|
  {
    if |values| == 0 then []
    else
      var rest := Translated(values[1..]);
      assert forall r :: Some(r) in values <==> Some(r) == values[0] || Some(r) in values[1..];
      if values[0].Some? then [values[0].value] + rest else rest
  }

  /**
   * The first loop keeps document order and multiplicity: translating two
   * runs of values one after the other gives the two runs' references one
   * after the other.
   */
  lemma {:induction false} TranslatedAppend(a: seq<Option<ChildRef>>, b: seq<Option<ChildRef>>)
    ensures Translated(a + b) == Translated(a) + Translated(b)
    decreases |a|
  {
    if |a| == 0 {
      assert a + b == b;
    } else {
      assert (a + b)[0] == a[0] && (a + b)[1..] == a[1..] + b;
      TranslatedAppend(a[1..], b);
    }
  }

  /** A null translation contributes nothing; any other contributes its reference once. */
  lemma TranslatedOne(v: Option<ChildRef>)
    ensures Translated([v]) == if v.Some? then [v.value] else []
  {
    assert [v][1..] == [];
  }

  /** The constructor: a missing children array yields the empty index. */
  function FromDocument(children: Option<seq<Option<ChildRef>>>): Medium
  {
    if children.None? then EmptyIndex else Build(Translated(children.value))
  }

  // ---------------------------------------------------------------------------
  // Queries
  // ---------------------------------------------------------------------------

  function Size(m: Medium): int
  {
    |m.byKey|
  }

  function ChildCount(m: Medium, name: Name): int
  {
    |m.Group(name)|
  }

  predicate HasChild(m: Medium, key: NodeKey)
  {
    key in m.byKey
  }

  /** `getChild(key)` without a context: the precomputed by-key entry. */
  function GetChildByKeyAlone(m: Medium, key: NodeKey): Option<ChildRef>
  {
    if key in m.byKey then Some(m.byKey[key]) else None
  }

  /** The keys `getAllKeys` enumerates. */
  function Keys(m: Medium): set<NodeKey>
  {
    m.byKey.Keys
  }

  /** The first reference carrying SNS index `sns`. */
  function FirstWithSns(refs: seq<ChildRef>, sns: int): (r: Option<ChildRef>)
    ensures r.Some? ==> r.value in refs && r.value.snsIndex == sns
    ensures r.None? ==> forall i :: 0 <= i < |refs| ==> refs[i].snsIndex != sns
    decreases |refs|
  {
    if |refs| == 0 then None
    else if refs[0].snsIndex == sns then Some(refs[0])
    else FirstWithSns(refs[1..], sns)
  }

  /** The first reference with key `key`. */
  function FindKey(refs: seq<ChildRef>, key: NodeKey): (r: Option<ChildRef>)
    ensures r.Some? ==> r.value in refs && r.value.key == key
    ensures r.None? ==> forall i :: 0 <= i < |refs| ==> refs[i].key != key
    decreases |refs|
  {
    if |refs| == 0 then None
    else if refs[0].key == key then Some(refs[0])
    else FindKey(refs[1..], key)
  }

  /** A stored reference the overlay has neither removed nor renamed away. */
  predicate Visible(ch: Changes, r: ChildRef)
  {
    !ch.IsRemoved(r) && !ch.IsRenamed(r)
  }

  /** The last loop of `getChild(name, snsIndex, context)`. */
  function FirstVisibleWithSns(refs: seq<ChildRef>, ch: Changes, sns: int): (r: Option<ChildRef>)
    ensures r.Some? ==> r.value in refs && Visible(ch, r.value) && r.value.snsIndex == sns
    decreases |refs|
  {
    if |refs| == 0 then None
    else if !Visible(ch, refs[0]) then FirstVisibleWithSns(refs[1..], ch, sns)
    else if refs[0].snsIndex == sns then Some(refs[0])
    else FirstVisibleWithSns(refs[1..], ch, sns)
  }

  /**
   * The loop over inserted references: each one consumes the next index for
   * its name, and the first whose index is `sns` is returned under that index.
   */
  function ScanInserted(refs: seq<ChildRef>, sns: int, c: Counters): (r: (Option<ChildRef>, Counters))
    ensures r.0.Some? ==> r.0.value.snsIndex == sns
    decreases |refs|
  {
    if |refs| == 0 then (None, c)
    else
      var (index, c1) := Consume(c, refs[0].name);
      if index == sns then (Some(refs[0].With(index)), c1)
      else ScanInserted(refs[1..], sns, c1)
  }

  /**
   * `getChild(name, snsIndex, context)`, returning the context as the lookup
   * leaves it (only the insertion scan advances its counters). The only
   * exception is the no-changes lookup of an index below 1.
   */
  function GetChildByName(m: Medium, name: Name, sns: int, ctx: Context): (r: (Lookup, Context))
    ensures r.0.Fail? <==> ctx.ChangesOrNull().None? && sns <= |m.Group(name)| && sns < 1
    ensures r.0.Fail? ==> r.0.error == IndexOutOfBounds(sns - 1)
    ensures r.1.NullContext? <==> ctx.NullContext?
    ensures r.1.Ctx? ==> r.1.changes == ctx.changes
    ensures ctx.ChangesOrNull().Some? && r.0.value.Some? ==> r.0.value.value.snsIndex == sns
  {
    var group := m.Group(name);
    match ctx.ChangesOrNull()
    case None =>
      if sns > |group| then (Ok(None), ctx)
      else if sns - 1 < 0 then (Fail(IndexOutOfBounds(sns - 1)), ctx)
      else (Ok(Some(group[sns - 1])), ctx)
    case Some(ch) =>
      var includeRenames := ch.IsRenamedTo(name);
      if |group| == 0 && !includeRenames then
        if name !in ch.insertions then (Ok(None), ctx)
        else
          var (found, c) := ScanInserted(Flatten(ch.insertions[name]), sns, ctx.counters);
          (Ok(found), ctx.(counters := c))
      else if name in ch.insertions || includeRenames then
        (Ok(FirstWithSns(ch.view(name, group), sns)), ctx)
      else
        (Ok(FirstVisibleWithSns(group, ch, sns)), ctx)
  }

  /**
   * `getChild(key, context)`. It never throws; when the overlay names an
   * inserted reference its view does not list, that inserted reference is
   * returned as the overlay recorded it.
   */
  function GetChildByKey(m: Medium, key: NodeKey, ctx: Context): (r: Lookup)
    ensures r.Ok?
    ensures r.value.Some? ==> key in m.byKey || (ctx.ChangesOrNull().Some? && key in ctx.ChangesOrNull().value.inserted)
    ensures key !in m.byKey && (ctx.ChangesOrNull().None? || key !in ctx.ChangesOrNull().value.inserted)
            ==> r.value.None?
  {
    if key !in m.byKey then
      match ctx.ChangesOrNull()
      case None => Ok(None)
      case Some(ch) =>
        if key !in ch.inserted then Ok(None)
        else
          var ins := ch.inserted[key];
          match FindKey(ch.view(ins.name, m.Group(ins.name)), key)
          case Some(child) => Ok(Some(child))
          case None => Ok(Some(ins))
    else
      var stored := m.byKey[key];
      match ctx.ChangesOrNull()
      case None => Ok(Some(stored))
      case Some(ch) =>
        var renamed := ch.IsRenamed(stored);
        var ref := if renamed then stored.WithName(ch.renamed[stored.key], 1) else stored;
        var scanned :=
          if ref.name in ch.insertions || renamed then FindKey(ch.view(ref.name, m.Group(ref.name)), key)
          else None;
        if scanned.Some? then Ok(scanned)
        else if ch.IsRemoved(ref) then Ok(None)
        else Ok(Some(ref))
  }

  // ---------------------------------------------------------------------------
  // Reference definitions
  // ---------------------------------------------------------------------------

  /** The keys of a list of references. */
  function KeysOf(entries: seq<ChildRef>): set<NodeKey>
  {
    set i | 0 <= i < |entries| :: entries[i].key
  }

  /** The name of the last entry with key `k`, if any. */
  function LastName(entries: seq<ChildRef>, k: NodeKey): Option<Name>
    decreases |entries|
  {
    if |entries| == 0 then None
    else if entries[|entries| - 1].key == k then Some(entries[|entries| - 1].name)
    else LastName(entries[..|entries| - 1], k)
  }

  /** The entries named `n`, in order. */
  function Named(entries: seq<ChildRef>, n: Name): seq<ChildRef>
    decreases |entries|
  {
    if |entries| == 0 then []
    else
      var last := entries[|entries| - 1];
      if last.name == n then Named(entries[..|entries| - 1], n) + [last]
      else Named(entries[..|entries| - 1], n)
  }

  /** The same references, numbered 1, 2, 3, ... */
  function Numbered(refs: seq<ChildRef>): seq<ChildRef>
  {
    seq(|refs|, i requires 0 <= i < |refs| => refs[i].With(i + 1))
  }

  predicate DistinctKeys(entries: seq<ChildRef>)
  {
    forall i, j :: 0 <= i < j < |entries| ==> entries[i].key != entries[j].key
  }

  // ---------------------------------------------------------------------------
  // Properties of construction
  // ---------------------------------------------------------------------------

  /** Adding a reference keeps the index well built. */
  lemma AddValid(m: Medium, ref: ChildRef)
    requires Valid(m)
    ensures Valid(Add(m, ref))
  {
    AddNamesNumbered(m, ref);
    AddKeysPlaced(m, ref);
  }

  /** Adding a reference keeps every name group numbered. */
  lemma AddNamesNumbered(m: Medium, ref: ChildRef)
    requires NamesNumbered(m)
    ensures NamesNumbered(Add(m, ref))
  {
    if !(ref.key in m.byKey && m.byKey[ref.key].name == ref.name) {
      var r := Add(m, ref);
      var g := m.Group(ref.name);
      assert r.Group(ref.name) == g + [ref.With(|g| + 1)];
      forall n, i | n in r.byName && 0 <= i < |r.byName[n]|
        ensures r.byName[n][i].name == n && r.byName[n][i].snsIndex == i + 1 && r.byName[n][i].key in r.byKey
      {
        if n == ref.name && i < |g| {
          assert r.byName[n][i] == m.byName[n][i];
        }
      }
    }
  }

  /** Adding a reference keeps every by-key entry at its place. */
  lemma AddKeysPlaced(m: Medium, ref: ChildRef)
    requires KeysPlaced(m)
    ensures KeysPlaced(Add(m, ref))
  {
    if !(ref.key in m.byKey && m.byKey[ref.key].name == ref.name) {
      var r := Add(m, ref);
      var g := m.Group(ref.name);
      assert r.Group(ref.name) == g + [ref.With(|g| + 1)];
      forall k | k in r.byKey
        ensures r.byKey[k].key == k
          && 1 <= r.byKey[k].snsIndex <= |r.Group(r.byKey[k].name)|
          && r.Group(r.byKey[k].name)[r.byKey[k].snsIndex - 1] == r.byKey[k]
      {
        if k != ref.key {
          var old_ := m.byKey[k];
          assert r.byKey[k] == old_;
          if old_.name == ref.name {
            assert r.Group(old_.name)[old_.snsIndex - 1] == g[old_.snsIndex - 1];
          } else {
            assert r.Group(old_.name) == m.Group(old_.name);
          }
        }
      }
    }
  }

  /** A single reference is indexed alone, numbered 1. */
  lemma BuildOne(ref: ChildRef)
    ensures Build([ref]) == Medium(map[ref.name := [ref.With(1)]], map[ref.key := ref.With(1)])
  {
    assert [ref][..0] == [];
    var g := EmptyIndex.Group(ref.name);
    assert g == [] && g + [ref.With(|g| + 1)] == [ref.With(1)];
    assert Build([ref]) == Add(EmptyIndex, ref);
  }

  /** The constructor always yields a well-built index. */
  lemma {:induction false} BuildValid(entries: seq<ChildRef>)
    ensures Valid(Build(entries))
    decreases |entries|
  {
    if |entries| > 0 {
      BuildValid(entries[..|entries| - 1]);
      AddValid(Build(entries[..|entries| - 1]), entries[|entries| - 1]);
    }
  }

  /**
   * The by-key map holds every key of the document exactly once, under the
   * name of the last entry that carried it.
   */
  lemma BuildLatestName(entries: seq<ChildRef>)
    ensures Build(entries).byKey.Keys == KeysOf(entries)
    ensures forall k :: k in Build(entries).byKey <==> LastName(entries, k).Some?
    ensures forall k :: k in Build(entries).byKey ==> Build(entries).byKey[k].name == LastName(entries, k).value
  {
    BuildKeys(entries);
    BuildNames(entries);
  }

  lemma {:induction false} BuildKeys(entries: seq<ChildRef>)
    ensures Build(entries).byKey.Keys == KeysOf(entries)
    decreases |entries|
  {
    if |entries| > 0 {
      var pre := entries[..|entries| - 1];
      var e := entries[|entries| - 1];
      BuildKeys(pre);
      assert Build(entries) == Add(Build(pre), e);
      assert KeysOf(entries) == KeysOf(pre) + {e.key} by {
        forall i | 0 <= i < |pre| ensures pre[i] == entries[i] { }
      }
    }
  }

  lemma {:induction false} BuildNames(entries: seq<ChildRef>)
    ensures forall k :: k in Build(entries).byKey <==> LastName(entries, k).Some?
    ensures forall k :: k in Build(entries).byKey ==> Build(entries).byKey[k].name == LastName(entries, k).value
    decreases |entries|
  {
    if |entries| > 0 {
      var pre := entries[..|entries| - 1];
      var e := entries[|entries| - 1];
      BuildNames(pre);
      var m := Build(pre);
      assert Build(entries) == Add(m, e);
      forall k | k in Build(entries).byKey
        ensures Build(entries).byKey[k].name == LastName(entries, k).value
      {
        if k != e.key && !(e.key in m.byKey && m.byKey[e.key].name == e.name) {
          assert Build(entries).byKey[k] == m.byKey[k];
        }
      }
    }
  }

  /** A document yields an index of size 0 only when it yields no reference at all. */
  lemma EmptyOnlyWhenNoReferences(children: Option<seq<Option<ChildRef>>>)
    ensures Size(FromDocument(children)) == 0 <==> FromDocument(children) == EmptyIndex
  {
    if children.Some? {
      var entries := Translated(children.value);
      BuildLatestName(entries);
      if |entries| > 0 {
        assert entries[0].key in KeysOf(entries);
      }
    }
  }

  /** `size()` counts distinct keys. */
  lemma SizeIsDistinctKeys(entries: seq<ChildRef>)
    ensures Size(Build(entries)) == |KeysOf(entries)|
  {
    BuildLatestName(entries);
  }

  /**
   * A reference whose key was last seen under the same name is skipped: the
   * index is exactly what it was before.
   */
  lemma RepeatIsDropped(entries: seq<ChildRef>, e: ChildRef)
    requires LastName(entries, e.key) == Some(e.name)
    ensures Build(entries + [e]) == Build(entries)
  {
    var m := Build(entries);
    assert (entries + [e])[..|entries|] == entries;
    assert Build(entries + [e]) == Add(m, e);
    KeyNameOfBuild(entries, e.key);
  }

  /**
   * Any other reference is appended to its name group under the next SNS index
   * and becomes the by-key entry of its key; other groups are untouched.
   */
  lemma NewEntryIsNumbered(entries: seq<ChildRef>, e: ChildRef)
    requires LastName(entries, e.key) != Some(e.name)
    ensures var before := Build(entries);
            var after := Build(entries + [e]);
            var numbered := e.With(|before.Group(e.name)| + 1);
            after.Group(e.name) == before.Group(e.name) + [numbered]
            && after.byKey[e.key] == numbered
            && (forall n :: n != e.name ==> after.Group(n) == before.Group(n))
  {
    var m := Build(entries);
    assert (entries + [e])[..|entries|] == entries;
    assert Build(entries + [e]) == Add(m, e);
    KeyNameOfBuild(entries, e.key);
    AddNumbers(m, e);
  }

  /** The by-key entry of a built index carries the latest name given to the key. */
  lemma KeyNameOfBuild(entries: seq<ChildRef>, k: NodeKey)
    ensures k in Build(entries).byKey <==> LastName(entries, k).Some?
    ensures k in Build(entries).byKey ==> Build(entries).byKey[k].name == LastName(entries, k).value
  {
    BuildLatestName(entries);
  }

  /** A reference not already indexed under its name is appended to its group, numbered one past it. */
  lemma AddNumbers(m: Medium, e: ChildRef)
    requires !(e.key in m.byKey && m.byKey[e.key].name == e.name)
    ensures var numbered := e.With(|m.Group(e.name)| + 1);
            Add(m, e).Group(e.name) == m.Group(e.name) + [numbered]
            && Add(m, e).byKey[e.key] == numbered
            && (forall n :: n != e.name ==> Add(m, e).Group(n) == m.Group(n))
  {
  }

  /**
   * With no repeated key (the normal case), every entry is kept, `size()` is
   * the number of entries, and each name group lists exactly the entries of
   * that name, in document order, numbered 1, 2, 3, ...
   */
  lemma {:induction false} DistinctKeysGroups(entries: seq<ChildRef>, n: Name)
    requires DistinctKeys(entries)
    ensures Build(entries).Group(n) == Numbered(Named(entries, n))
    decreases |entries|
  {
    if |entries| > 0 {
      var pre := entries[..|entries| - 1];
      var e := entries[|entries| - 1];
      LastKeyIsNew(entries);
      DistinctKeysGroups(pre, n);
      var m := Build(pre);
      assert Build(entries) == Add(m, e);
      var named := Named(pre, n);
      if e.name == n {
        assert Named(entries, n) == named + [e];
        assert Build(entries).Group(n) == m.Group(n) + [e.With(|m.Group(n)| + 1)];
        NumberedSnoc(named, e);
      } else {
        assert Named(entries, n) == named;
        assert Build(entries).Group(n) == m.Group(n);
      }
    }
  }

  /** With no repeated key, the last entry's key is not yet indexed by the entries before it. */
  lemma LastKeyIsNew(entries: seq<ChildRef>)
    requires DistinctKeys(entries) && |entries| > 0
    ensures DistinctKeys(entries[..|entries| - 1])
    ensures entries[|entries| - 1].key !in Build(entries[..|entries| - 1]).byKey
  {
    var pre := entries[..|entries| - 1];
    var e := entries[|entries| - 1];
    BuildLatestName(pre);
    assert forall i :: 0 <= i < |pre| ==> pre[i].key != e.key by {
      forall i | 0 <= i < |pre| ensures pre[i].key != e.key {
        assert pre[i] == entries[i];
      }
    }
  }

  /** Numbering one more reference appends it under the next index. */
  lemma NumberedSnoc(refs: seq<ChildRef>, e: ChildRef)
    ensures Numbered(refs + [e]) == Numbered(refs) + [e.With(|refs| + 1)]
  {
  }


  /** With no repeated key, `size()` is the number of entries. */
  lemma {:induction false} DistinctKeysSize(entries: seq<ChildRef>)
    requires DistinctKeys(entries)
    ensures Size(Build(entries)) == |entries|
    decreases |entries|
  {
    BuildLatestName(entries);
    if |entries| > 0 {
      var pre := entries[..|entries| - 1];
      var e := entries[|entries| - 1];
      assert DistinctKeys(pre);
      DistinctKeysSize(pre);
      BuildLatestName(pre);
      assert forall i :: 0 <= i < |pre| ==> pre[i].key != e.key by {
        forall i | 0 <= i < |pre| ensures pre[i].key != e.key {
          assert pre[i] == entries[i];
        }
      }
      assert e.key !in KeysOf(pre);
    }
  }

  // ---------------------------------------------------------------------------
  // Properties of lookup
  // ---------------------------------------------------------------------------

  /**
   * Without changes, the SNS indexes of a name are dense: index s in 1..count
   * finds the s-th child of that name, carrying index s; one past the count
   * finds nothing; an index below 1 throws, even for an empty group.
   */
  lemma SnsDensity(m: Medium, name: Name, sns: int, ctx: Context)
    requires NamesNumbered(m)
    requires ctx.ChangesOrNull().None?
    ensures var (r, after) := GetChildByName(m, name, sns, ctx);
            after == ctx
            && (1 <= sns <= ChildCount(m, name) ==>
                  r.Ok? && r.value.Some? && r.value.value.name == name && r.value.value.snsIndex == sns
                  && r.value.value == m.Group(name)[sns - 1])
            && (sns > ChildCount(m, name) ==> r == Ok(None))
            && (sns < 1 ==> r == Fail(IndexOutOfBounds(sns - 1)))
  {
    var g := m.Group(name);
    if 1 <= sns <= ChildCount(m, name) {
      assert name in m.byName;
      assert g[sns - 1].snsIndex == sns && g[sns - 1].name == name;
      assert GetChildByName(m, name, sns, ctx) == (Ok(Some(g[sns - 1])), ctx);
    }
  }

  /**
   * Without changes, the key lookup returns the by-key entry, and that entry
   * is what the name lookup finds under its own name and index.
   */
  lemma KeyAndNameAgree(m: Medium, key: NodeKey, ctx: Context)
    requires KeysPlaced(m)
    requires ctx.ChangesOrNull().None?
    ensures GetChildByKey(m, key, ctx) == Ok(GetChildByKeyAlone(m, key))
    ensures key in m.byKey ==>
              var r := m.byKey[key];
              r.key == key && GetChildByName(m, r.name, r.snsIndex, ctx).0 == Ok(Some(r))
  {
  }

  /** `hasChild(key)` holds exactly when the key lookup finds a reference. */
  lemma HasChildIffFound(m: Medium, key: NodeKey)
    ensures HasChild(m, key) <==> GetChildByKey(m, key, NullContext).value.Some?
    ensures HasChild(m, key) <==> GetChildByKeyAlone(m, key).Some?
  {
  }

  /**
   * The visible references of a group numbered from `offset + 1` on: the
   * scan for index s finds the reference at position s, provided the overlay
   * has neither removed nor renamed it.
   */
  lemma {:induction false} VisibleScanNumbered(refs: seq<ChildRef>, ch: Changes, sns: int, offset: int)
    requires forall i :: 0 <= i < |refs| ==> refs[i].snsIndex == offset + i + 1
    ensures FirstVisibleWithSns(refs, ch, sns)
            == if offset < sns <= offset + |refs| && Visible(ch, refs[sns - offset - 1])
               then Some(refs[sns - offset - 1]) else None
    decreases |refs|
  {
    if |refs| > 0 {
      VisibleScanNumbered(refs[1..], ch, sns, offset + 1);
    }
  }

  /**
   * With changes that neither insert under nor rename to the name, the lookup
   * keeps the stored numbering: index s finds the s-th stored child of that
   * name unless it was removed or renamed (no renumbering of the rest).
   */
  lemma ChangesKeepStoredNumbering(m: Medium, name: Name, sns: int, ctx: Context)
    requires Valid(m)
    requires ctx.ChangesOrNull().Some?
    requires name !in ctx.changes.value.insertions && !ctx.changes.value.IsRenamedTo(name)
    ensures var g := m.Group(name);
            GetChildByName(m, name, sns, ctx)
            == (Ok(if 1 <= sns <= |g| && Visible(ctx.changes.value, g[sns - 1]) then Some(g[sns - 1]) else None), ctx)
  {
    GroupNumbered(m, name);
    NumberedGroupLookup(m, name, sns, ctx);
  }

  /** The lookup of `ChangesKeepStoredNumbering` for any group numbered 1, 2, ... */
  lemma NumberedGroupLookup(m: Medium, name: Name, sns: int, ctx: Context)
    requires forall i :: 0 <= i < |m.Group(name)| ==> m.Group(name)[i].snsIndex == 0 + i + 1
    requires ctx.ChangesOrNull().Some?
    requires name !in ctx.changes.value.insertions && !ctx.changes.value.IsRenamedTo(name)
    ensures var g := m.Group(name);
            GetChildByName(m, name, sns, ctx)
            == (Ok(if 1 <= sns <= |g| && Visible(ctx.changes.value, g[sns - 1]) then Some(g[sns - 1]) else None), ctx)
  {
    var g := m.Group(name);
    var ch := ctx.changes.value;
    if |g| > 0 {
      assert GetChildByName(m, name, sns, ctx) == (Ok(FirstVisibleWithSns(g, ch, sns)), ctx);
      VisibleScanNumbered(g, ch, sns, 0);
    } else {
      assert GetChildByName(m, name, sns, ctx) == (Ok(None), ctx);
    }
  }

  /** In a valid index the group of a name is numbered 1, 2, ... in order. */
  lemma GroupNumbered(m: Medium, name: Name)
    requires NamesNumbered(m)
    ensures forall i :: 0 <= i < |m.Group(name)| ==> m.Group(name)[i].snsIndex == 0 + i + 1
  {
  }

  /**
   * Scanning inserted references that all carry `name` numbers them on from
   * the counter: the one found for index s is the (s - c)-th, re-indexed s,
   * and a scan that finds nothing advances the counter by the number scanned.
   */
  lemma {:induction false} ScanInsertedSameName(refs: seq<ChildRef>, name: Name, sns: int, c: Counters)
    requires forall i :: 0 <= i < |refs| ==> refs[i].name == name
    ensures var c0 := Consumed(c, name);
            var (found, after) := ScanInserted(refs, sns, c);
            found == (if c0 < sns <= c0 + |refs| then Some(refs[sns - c0 - 1].With(sns)) else None)
            && (found.None? ==> Consumed(after, name) == c0 + |refs|)
            && (found.Some? ==> Consumed(after, name) == sns)
    decreases |refs|
  {
    if |refs| > 0 {
      var (index, c1) := Consume(c, name);
      if index != sns {
        ScanInsertedSameName(refs[1..], name, sns, c1);
      }
    }
  }

  /**
   * A name with no stored children but inserted ones: with a counter that has
   * handed out c indexes for the name, index s finds the (s - c)-th inserted
   * child under index s; with a fresh counter, the s-th.
   */
  lemma InsertedOnlyNumbering(m: Medium, name: Name, sns: int, ctx: Context)
    requires ctx.ChangesOrNull().Some?
    requires |m.Group(name)| == 0 && !ctx.changes.value.IsRenamedTo(name)
    requires name in ctx.changes.value.insertions
    requires forall r :: r in Flatten(ctx.changes.value.insertions[name]) ==> r.name == name
    ensures var ins := Flatten(ctx.changes.value.insertions[name]);
            var c0 := Consumed(ctx.counters, name);
            GetChildByName(m, name, sns, ctx).0
            == Ok(if c0 < sns <= c0 + |ins| then Some(ins[sns - c0 - 1].With(sns)) else None)
  {
    var ins := Flatten(ctx.changes.value.insertions[name]);
    assert forall i :: 0 <= i < |ins| ==> ins[i] in ins;
    ScanInsertedSameName(ins, name, sns, ctx.counters);
  }

  /**
   * A stored child that the overlay removed, and whose name gets no insertions
   * and which was not renamed, is hidden; an unremoved one is returned as stored.
   */
  lemma RemovedChildHidden(m: Medium, key: NodeKey, ctx: Context)
    requires Valid(m)
    requires ctx.ChangesOrNull().Some? && key in m.byKey
    requires var ch := ctx.changes.value;
             !ch.IsRenamed(m.byKey[key]) && m.byKey[key].name !in ch.insertions
    ensures GetChildByKey(m, key, ctx)
            == if key in ctx.changes.value.removed then Ok(None) else Ok(Some(m.byKey[key]))
  {
  }

  /**
   * The scan of the overlay's view runs before the removal test: when the
   * view lists the key, its reference wins even for a removed child.
   */
  lemma ViewBeatsRemoval(m: Medium, key: NodeKey, ctx: Context, child: ChildRef)
    requires ctx.ChangesOrNull().Some? && key in m.byKey
    requires var ch := ctx.changes.value;
             var name := m.byKey[key].name;
             !ch.IsRenamed(m.byKey[key]) && name in ch.insertions
             && FindKey(ch.view(name, m.Group(name)), key) == Some(child)
    ensures GetChildByKey(m, key, ctx) == Ok(Some(child))
  {
  }

  /**
   * A renamed child the view does not list comes back under its new name with
   * SNS index 1, unless it was also removed.
   */
  lemma RenamedChildFallback(m: Medium, key: NodeKey, ctx: Context)
    requires Valid(m)
    requires ctx.ChangesOrNull().Some? && key in m.byKey
    requires var ch := ctx.changes.value;
             ch.IsRenamed(m.byKey[key])
             && FindKey(ch.view(ch.renamed[key], m.Group(ch.renamed[key])), key).None?
    ensures var ch := ctx.changes.value;
            GetChildByKey(m, key, ctx)
            == if key in ch.removed then Ok(None) else Ok(Some(m.byKey[key].WithName(ch.renamed[key], 1)))
  {
  }

  /**
   * A key this segment does not store but the overlay inserted is looked up
   * in the view of its name; if the view does not list it, the inserted
   * reference itself is returned.
   */
  lemma InsertedKeyLookup(m: Medium, key: NodeKey, ctx: Context)
    requires ctx.ChangesOrNull().Some? && key !in m.byKey
    requires key in ctx.changes.value.inserted
    ensures var ch := ctx.changes.value;
            var ins := ch.inserted[key];
            var seen := FindKey(ch.view(ins.name, m.Group(ins.name)), key);
            GetChildByKey(m, key, ctx) == Ok(Some(if seen.Some? then seen.value else ins))
  {
  }
}
