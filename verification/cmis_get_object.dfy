/**
 * The pure parts of the CMIS connector's `CmisGetObjectOperation`: the filter
 * deciding which CMIS properties of an object are projected into JCR, the
 * insertion-ordered property map built from them, and the rule giving a
 * document its parent ids.
 *
 * The type mapping (`toJcrProperty`), value conversion (`jcrValues`), the id
 * encoder (`ObjectId.toString`) and `Constants.CMIS_PREFIX` are parameters.
 */
module CmisGetObject {
  import opened Common

  datatype Updatability = ReadOnly | ReadWrite | WhenCheckedOut | OnCreate

  datatype PropertyDefinition = PropertyDefinition(updatability: Updatability, required: bool)

  /** A CMIS type: its id and its property definitions by property id. */
  datatype TypeDefinition = TypeDefinition(id: string, definitions: map<string, PropertyDefinition>)

  /** A property of a CMIS object: its id and its raw values. */
  datatype CmisProperty = CmisProperty(id: string, values: seq<string>)

  /** Converted JCR values. */
  type Values = seq<string>

  /** The collaborators of `processProperties`. */
  datatype Env = Env(
    typeDef: TypeDefinition,
    toJcrProperty: string -> Option<string>,
    jcrValues: CmisProperty -> Values,
    cmisPrefix: string)

  /** The base document type id of section 2.1.4 of the CMIS 1.0 standard. */
  const BaseDocumentType: string := "cmis:document"
  const JcrPrefix: string := "jcr:"

  /** `processProperties` dereferences a missing property definition. */
  datatype GetObjectError = NullDefinition(propertyId: string)

  datatype Outcome<+T> = Ok(value: T) | Fail(error: GetObjectError)

  // ---------------------------------------------------------------------------
  // The property filter
  // ---------------------------------------------------------------------------

  /**
   * `getShouldHandleCustomProperty`: a property whose JCR name lacks the
   * `jcr:` prefix is dropped when it is read-only or the type is the base
   * document type; any property whose JCR name carries the CMIS prefix is
   * dropped; everything else is handled.
   */
  predicate ShouldHandle(typeId: string, jcrName: string, def: PropertyDefinition, cmisPrefix: string)
  {
    var noCustomAllowed := typeId == BaseDocumentType;
    var readOnly := def.updatability == ReadOnly;
    var isCustom := !StartsWith(jcrName, JcrPrefix);
    if isCustom && (readOnly || noCustomAllowed) then false
    else !StartsWith(jcrName, cmisPrefix)
  }

  // ---------------------------------------------------------------------------
  // An insertion-ordered map (LinkedHashMap)
  // ---------------------------------------------------------------------------

  /** Entries in first-insertion order, each key at most once. */
  type PropMap = seq<(string, Values)>

  function Keys(m: PropMap): (ks: seq<string>)
    ensures |ks| == |m| && forall i :: 0 <= i < |m| ==> ks[i] == m[i].0
  {
    seq(|m|, i requires 0 <= i < |m| => m[i].0)
  }

  predicate DistinctKeys(m: PropMap)
  {
    forall i, j :: 0 <= i < j < |m| ==> m[i].0 != m[j].0
  }

  /** The value stored under `k`, if any. */
  function Lookup(m: PropMap, k: string): (r: Option<Values>)
    ensures r.None? <==> k !in Keys(m)
    ensures r.Some? ==> (k, r.value) in m
    decreases |m|
  {
    if |m| == 0 then None
    else if m[0].0 == k then Some(m[0].1)
    else
      assert Keys(m) == [m[0].0] + Keys(m[1..]);
      Lookup(m[1..], k)
  }

  /** `map.put(k, v)`: a present key keeps its place and takes the new value; a new key goes last. */
  function Put(m: PropMap, k: string, v: Values): (r: PropMap)
    requires DistinctKeys(m)
    ensures DistinctKeys(r)
    ensures Lookup(r, k) == Some(v)
    ensures forall k' :: k' != k ==> Lookup(r, k') == Lookup(m, k')
    ensures Keys(r) == if k in Keys(m) then Keys(m) else Keys(m) + [k]
  {
    if k in Keys(m) then
      var i :| 0 <= i < |m| && m[i].0 == k;
      var r := m[i := (k, v)];
      assert Keys(r) == Keys(m);
      LookupDistinct(r, k, i);
      forall k' | k' != k
        ensures Lookup(r, k') == Lookup(m, k')
      {
        LookupOtherSlot(m, i, (k, v), k');
      }
      r
    else
      var r := m + [(k, v)];
      assert Keys(r) == Keys(m) + [k];
      LookupDistinct(r, k, |m|);
      forall k' | k' != k
        ensures Lookup(r, k') == Lookup(m, k')
      {
        LookupAppend(m, (k, v), k');
      }
      r
  }

  /** In a map with distinct keys, the entry at slot i is what Lookup finds for its key. */
  lemma {:induction false} LookupDistinct(m: PropMap, k: string, i: nat)
    requires DistinctKeys(m) && i < |m| && m[i].0 == k
    ensures Lookup(m, k) == Some(m[i].1)
    decreases |m|
  {
    if i > 0 {
      assert m[0].0 != k;
      assert m[1..][i - 1] == m[i];
      LookupDistinct(m[1..], k, i - 1);
    }
  }

  lemma {:induction false} LookupOtherSlot(m: PropMap, i: nat, e: (string, Values), k: string)
    requires i < |m| && m[i].0 == e.0 && k != e.0
    ensures Lookup(m[i := e], k) == Lookup(m, k)
    decreases |m|
  {
    if |m| > 0 && m[0].0 != k && i > 0 {
      assert m[i := e][1..] == m[1..][i - 1 := e];
      LookupOtherSlot(m[1..], i - 1, e, k);
    }
  }

  lemma {:induction false} LookupAppend(m: PropMap, e: (string, Values), k: string)
    requires k != e.0
    ensures Lookup(m + [e], k) == Lookup(m, k)
    decreases |m|
  {
    if |m| == 0 {
      assert [e][1..] == [];
    } else {
      assert (m + [e])[0] == m[0] && (m + [e])[1..] == m[1..] + [e];
      LookupAppend(m[1..], e, k);
    }
  }

  /** `set.remove(x)` on an insertion-ordered set. */
  function Remove(s: seq<string>, x: string): (r: seq<string>)
    ensures forall y :: y in r <==> y in s && y != x
    decreases |s|
  {
    if |s| == 0 then s
    else if s[0] == x then Remove(s[1..], x)
    else [s[0]] + Remove(s[1..], x)
  }

  // ---------------------------------------------------------------------------
  // processProperties
  // ---------------------------------------------------------------------------

  /** The ids of the given properties, in order. */
  function Ids(props: seq<CmisProperty>): (r: seq<string>)
    ensures |r| == |props| && forall i :: 0 <= i < |props| ==> r[i] == props[i].id
  {
    seq(|props|, i requires 0 <= i < |props| => props[i].id)
  }

  /** The property makes `processProperties` throw: it is mapped but has no definition. */
  predicate Throws(env: Env, p: CmisProperty)
  {
    env.toJcrProperty(p.id).Some? && p.id !in env.typeDef.definitions
  }

  /** The property ends up in the result. */
  predicate Survives(env: Env, p: CmisProperty)
  {
    env.toJcrProperty(p.id).Some? && p.id in env.typeDef.definitions
    && ShouldHandle(env.typeDef.id, env.toJcrProperty(p.id).value, env.typeDef.definitions[p.id], env.cmisPrefix)
  }

  /**
   * The loop of `processProperties` from an accumulated map: each property's
   * id is first removed from the pending definitions; unmapped or filtered
   * properties are skipped; the rest are put under their JCR name. The
   * definitions set is returned whether or not the loop throws.
   */
  function ProcessFrom(env: Env, props: seq<CmisProperty>, acc: PropMap, defs: seq<string>): (r: (Outcome<PropMap>, seq<string>))
    requires DistinctKeys(acc)
    ensures r.0.Ok? ==> DistinctKeys(r.0.value)
    decreases |props|
  {
    if |props| == 0 then (Ok(acc), defs)
    else
      var p := props[0];
      var pending := Remove(defs, p.id);
      match env.toJcrProperty(p.id)
      case None => ProcessFrom(env, props[1..], acc, pending)
      case Some(name) =>
        if p.id !in env.typeDef.definitions then (Fail(NullDefinition(p.id)), pending)
        else if !ShouldHandle(env.typeDef.id, name, env.typeDef.definitions[p.id], env.cmisPrefix) then
          ProcessFrom(env, props[1..], acc, pending)
        else ProcessFrom(env, props[1..], Put(acc, name, env.jcrValues(p)), pending)
  }

  /** `processProperties(cmisProperties, type, typeMapping, propertyDefinitions)`. */
  function ProcessProperties(env: Env, props: seq<CmisProperty>, defs: seq<string>): (r: (Outcome<PropMap>, seq<string>))
    ensures r.0.Ok? ==> DistinctKeys(r.0.value)
  {
    ProcessFrom(env, props, [], defs)
  }

  /** The accumulated map after a property that does not throw. */
  function Absorb(env: Env, p: CmisProperty, acc: PropMap): (r: PropMap)
    requires DistinctKeys(acc)
    ensures DistinctKeys(r)
  {
    if Survives(env, p) then Put(acc, env.toJcrProperty(p.id).value, env.jcrValues(p)) else acc
  }

  /** One turn of the loop: a throw ends it, any other property is absorbed. */
  lemma ProcessFromStep(env: Env, props: seq<CmisProperty>, acc: PropMap, defs: seq<string>)
    requires DistinctKeys(acc) && |props| > 0
    ensures Throws(env, props[0]) ==>
              ProcessFrom(env, props, acc, defs) == (Fail(NullDefinition(props[0].id)), Remove(defs, props[0].id))
    ensures !Throws(env, props[0]) ==>
              ProcessFrom(env, props, acc, defs)
              == ProcessFrom(env, props[1..], Absorb(env, props[0], acc), Remove(defs, props[0].id))
  {
  }

  /** The index of the first property that makes the loop throw, if any. */
  function FirstThrow(env: Env, props: seq<CmisProperty>): (k: Option<nat>)
    ensures k.None? <==> forall i :: 0 <= i < |props| ==> !Throws(env, props[i])
    ensures k.Some? ==> k.value < |props| && Throws(env, props[k.value])
                        && forall j :: 0 <= j < k.value ==> !Throws(env, props[j])
    decreases |props|
  {
    if |props| == 0 then None
    else if Throws(env, props[0]) then Some(0)
    else
      assert forall i :: 0 < i < |props| ==> props[i] == props[1..][i - 1];
      match FirstThrow(env, props[1..])
      case None => None
      case Some(k) => Some(k + 1)
  }

  /** Past a property that does not throw, the first throw moves one index on. */
  lemma FirstThrowPast(env: Env, props: seq<CmisProperty>)
    requires |props| > 0 && !Throws(env, props[0])
    ensures FirstThrow(env, props).None? <==> FirstThrow(env, props[1..]).None?
    ensures FirstThrow(env, props).Some? ==> FirstThrow(env, props).value == FirstThrow(env, props[1..]).value + 1
  {
  }

  /** The loop throws exactly when some property is mapped but undefined, and then for the first such property. */
  lemma {:induction false} ProcessFromFailsAtFirstThrow(env: Env, props: seq<CmisProperty>, acc: PropMap, defs: seq<string>)
    requires DistinctKeys(acc)
    ensures var r := ProcessFrom(env, props, acc, defs);
            var k := FirstThrow(env, props);
            (r.0.Fail? <==> k.Some?) && (k.Some? ==> r.0.error == NullDefinition(props[k.value].id))
    decreases |props|
  {
    if |props| > 0 {
      var p := props[0];
      var pending := Remove(defs, p.id);
      if !Throws(env, p) {
        var acc' := Absorb(env, p, acc);
        ProcessFromStep(env, props, acc, defs);
        ProcessFromFailsAtFirstThrow(env, props[1..], acc', pending);
        FirstThrowPast(env, props);
      }
    }
  }

  /**
   * When the loop throws, the ids visited up to and including the throwing
   * property are gone from the pending definitions, and nothing else is.
   */
  lemma {:induction false} ProcessFromFailureDefs(env: Env, props: seq<CmisProperty>, acc: PropMap, defs: seq<string>)
    requires DistinctKeys(acc)
    requires FirstThrow(env, props).Some?
    ensures var k := FirstThrow(env, props).value;
            forall d :: d in ProcessFrom(env, props, acc, defs).1 <==> d in defs && d !in Ids(props[..k + 1])
    decreases |props|
  {
    var p := props[0];
    var pending := Remove(defs, p.id);
    ProcessFromStep(env, props, acc, defs);
    if Throws(env, p) {
      assert FirstThrow(env, props) == Some(0);
      assert Ids(props[..1]) == [p.id];
    } else {
      var acc' := Absorb(env, p, acc);
      var rest := ProcessFrom(env, props[1..], acc', pending);
      FirstThrowPast(env, props);
      ProcessFromFailureDefs(env, props[1..], acc', pending);
      var k := FirstThrow(env, props).value;
      assert props[..k + 1][1..] == props[1..][..k];
      var visited := Ids(props[1..][..k]);
      assert Ids(props[..k + 1]) == [p.id] + visited;
      forall d
        ensures d in rest.1 <==> d in defs && d !in [p.id] + visited
      {
        assert d in rest.1 <==> d in pending && d !in visited;
      }
    }
  }

  /**
   * When the loop completes, every visited property id is gone from the
   * pending definitions, including those of skipped properties, and nothing
   * else is.
   */
  lemma {:induction false} ProcessFromRemovesVisited(env: Env, props: seq<CmisProperty>, acc: PropMap, defs: seq<string>)
    requires DistinctKeys(acc)
    requires ProcessFrom(env, props, acc, defs).0.Ok?
    ensures forall d :: d in ProcessFrom(env, props, acc, defs).1 <==> d in defs && d !in Ids(props)
    decreases |props|
  {
    if |props| > 0 {
      var p := props[0];
      var pending := Remove(defs, p.id);
      var acc' := Absorb(env, p, acc);
      ProcessFromStep(env, props, acc, defs);
      ProcessFromRemovesVisited(env, props[1..], acc', pending);
      assert Ids(props) == [p.id] + Ids(props[1..]);
    }
  }

  // ---------------------------------------------------------------------------
  // Reference definitions for the result
  // ---------------------------------------------------------------------------

  /** The JCR names of the surviving properties, in order. */
  function SurvivorNames(env: Env, props: seq<CmisProperty>): seq<string>
    decreases |props|
  {
    if |props| == 0 then []
    else (if Survives(env, props[0]) then [env.toJcrProperty(props[0].id).value] else [])
         + SurvivorNames(env, props[1..])
  }

  /** `ks` followed by each name not seen before, in order of first appearance. */
  function AddNew(ks: seq<string>, names: seq<string>): seq<string>
    decreases |names|
  {
    if |names| == 0 then ks
    else AddNew(if names[0] in ks then ks else ks + [names[0]], names[1..])
  }

  /** The values of the last surviving property mapped to `k`. */
  function LastValue(env: Env, props: seq<CmisProperty>, k: string): Option<Values>
    decreases |props|
  {
    if |props| == 0 then None
    else
      var p := props[|props| - 1];
      if Survives(env, p) && env.toJcrProperty(p.id).value == k then Some(env.jcrValues(p))
      else LastValue(env, props[..|props| - 1], k)
  }

  lemma {:induction false} LastValueCons(env: Env, p: CmisProperty, rest: seq<CmisProperty>, k: string)
    ensures LastValue(env, [p] + rest, k)
            == if LastValue(env, rest, k).Some? then LastValue(env, rest, k)
               else if Survives(env, p) && env.toJcrProperty(p.id).value == k then Some(env.jcrValues(p))
               else None
    decreases |rest|
  {
    var all := [p] + rest;
    if |rest| == 0 {
      assert all[..0] == [];
    } else {
      assert all[|all| - 1] == rest[|rest| - 1];
      assert all[..|all| - 1] == [p] + rest[..|rest| - 1];
      LastValueCons(env, p, rest[..|rest| - 1], k);
    }
  }

  /**
   * The map `processProperties` builds holds the surviving JCR names in order
   * of first insertion, each mapped to the values of the last property that
   * survived under that name.
   */
  lemma {:induction false} ProcessFromBuildsMap(env: Env, props: seq<CmisProperty>, acc: PropMap, defs: seq<string>)
    requires DistinctKeys(acc)
    requires ProcessFrom(env, props, acc, defs).0.Ok?
    ensures var m := ProcessFrom(env, props, acc, defs).0.value;
            Keys(m) == AddNew(Keys(acc), SurvivorNames(env, props))
            && forall k :: Lookup(m, k) == if LastValue(env, props, k).Some? then LastValue(env, props, k) else Lookup(acc, k)
    decreases |props|
  {
    if |props| > 0 {
      var p := props[0];
      var rest := props[1..];
      assert props == [p] + rest;
      var pending := Remove(defs, p.id);
      forall k ensures LastValue(env, props, k) == LastValue(env, [p] + rest, k) { }
      if Survives(env, p) {
        var name := env.toJcrProperty(p.id).value;
        var acc' := Put(acc, name, env.jcrValues(p));
        ProcessFromBuildsMap(env, rest, acc', pending);
        assert SurvivorNames(env, props) == [name] + SurvivorNames(env, rest);
        forall k ensures Lookup(ProcessFrom(env, props, acc, defs).0.value, k)
                         == if LastValue(env, props, k).Some? then LastValue(env, props, k) else Lookup(acc, k)
        {
          LastValueCons(env, p, rest, k);
        }
      } else {
        ProcessFromBuildsMap(env, rest, acc, pending);
        assert SurvivorNames(env, props) == SurvivorNames(env, rest);
        forall k ensures Lookup(ProcessFrom(env, props, acc, defs).0.value, k)
                         == if LastValue(env, props, k).Some? then LastValue(env, props, k) else Lookup(acc, k)
        {
          LastValueCons(env, p, rest, k);
        }
      }
    }
  }

  /** The same from the empty map `processProperties` starts with. */
  lemma ProcessPropertiesBuildsMap(env: Env, props: seq<CmisProperty>, defs: seq<string>)
    requires ProcessProperties(env, props, defs).0.Ok?
    ensures var m := ProcessProperties(env, props, defs).0.value;
            Keys(m) == AddNew([], SurvivorNames(env, props))
            && forall k :: Lookup(m, k) == LastValue(env, props, k)
  {
    ProcessFromBuildsMap(env, props, [], defs);
  }

  /** On the base document type only `jcr:` properties can be projected. */
  lemma BaseDocumentOnlyJcr(jcrName: string, def: PropertyDefinition, cmisPrefix: string)
    requires ShouldHandle(BaseDocumentType, jcrName, def, cmisPrefix)
    ensures StartsWith(jcrName, JcrPrefix) && !StartsWith(jcrName, cmisPrefix)
  {
  }

  /**
   * The filter in full: handled exactly when the name is not CMIS-prefixed and
   * is either a `jcr:` name or a writable custom property of a non-base type.
   */
  lemma ShouldHandleIff(typeId: string, jcrName: string, def: PropertyDefinition, cmisPrefix: string)
    ensures ShouldHandle(typeId, jcrName, def, cmisPrefix)
            <==> !StartsWith(jcrName, cmisPrefix)
                 && (StartsWith(jcrName, JcrPrefix) || (def.updatability != ReadOnly && typeId != BaseDocumentType))
  {
  }

  // ---------------------------------------------------------------------------
  // The parent rule of cmisDocument
  // ---------------------------------------------------------------------------

  datatype IdType = Object | UnfiledStorage | Content | RepositoryInfo

  /**
   * A document's parents: the OBJECT ids of its parent folders in order, or,
   * with no parent folder, the single unfiled-storage id.
   */
  method DocumentParents(folderIds: seq<string>, objectId: (IdType, string) -> string) returns (parents: seq<string>)
    ensures |folderIds| == 0 ==> parents == [objectId(UnfiledStorage, "")]
    ensures |folderIds| > 0 ==> |parents| == |folderIds|
                                && forall i :: 0 <= i < |folderIds| ==> parents[i] == objectId(Object, folderIds[i])
  {
    parents := [];
    var i := 0;
    while i < |folderIds|
      invariant 0 <= i <= |folderIds| && |parents| == i
      invariant forall j :: 0 <= j < i ==> parents[j] == objectId(Object, folderIds[j])
    {
      parents := parents + [objectId(Object, folderIds[i])];
      i := i + 1;
    }
    if |parents| == 0 {
      parents := parents + [objectId(UnfiledStorage, "")];
    }
  }
}
