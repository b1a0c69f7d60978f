/**
 * `Nodes` of the CMIS connector: the ordered list of relations between CMIS
 * object type names and JCR node type names, with lookups in both directions
 * and the replacement of a mapping.
 */
module CmisNodes {
  import opened Common

  /** One relation between a CMIS type name and a JCR type name. */
  datatype Relation = Relation(cmisName: string, jcrName: string)

  /**
   * A JCR `Name` seen through its two renderings: `getString()` and
   * `toString()`. Nothing here assumes they agree.
   */
  datatype JcrName = JcrName(asString: string, display: string)

  // The base type ids of the CMIS 1.0 standard (section 2.1.2) and the JCR
  // node types of section 3.7 of JSR 283 they map to.
  const CmisFolder: string := "cmis:folder"
  const CmisDocument: string := "cmis:document"
  const NtFolder: string := "nt:folder"
  const NtFile: string := "nt:file"

  /** The mapping lines the constructor parses. */
  const MappingLines: seq<string> := [CmisFolder + " = " + NtFolder, CmisDocument + " = " + NtFile]

  /** `tokens = line.split("=")` and a relation of the two trimmed tokens; None where `tokens[1]` would throw. */
  function RelationOf(line: string): Option<Relation>
  {
    var tokens := JavaSplit(line, '=');
    if |tokens| < 2 then None else Some(Relation(Trim(tokens[0]), Trim(tokens[1])))
  }

  function RelationsOf(lines: seq<string>): Option<seq<Relation>>
    decreases |lines|
  {
    if |lines| == 0 then Some([])
    else
      match RelationOf(lines[0])
      case None => None
      case Some(r) =>
        match RelationsOf(lines[1..])
        case None => None
        case Some(rest) => Some([r] + rest)
  }

  /** A trimmed word: not empty, no separator, no blank at either end. */
  predicate Word(s: string)
  {
    |s| > 0 && s[0] > ' ' && s[|s| - 1] > ' ' && '=' !in s
  }

  /** `"a = b"` parses into the relation (a, b). */
  lemma RelationOfMapping(a: string, b: string)
    requires Word(a) && Word(b)
    ensures RelationOf(a + " = " + b) == Some(Relation(a, b))
  {
    var line := a + " = " + b;
    assert line == (a + " ") + ['='] + (" " + b);
    assert '=' !in a + " " && '=' !in " " + b;
    SplitAllCons(a + " ", '=', " " + b);
    SplitAllNoSep(" " + b, '=');
    assert line[|a| + 1] == '=';
    assert SplitAll(line, '=') == [a + " ", " " + b];
    assert JavaSplit(line, '=') == [a + " ", " " + b];
    assert (a + " ")[..|a|] == a;
    assert Trim(a) == a;
    assert Trim(a + " ") == a;
    assert (" " + b)[1..] == b;
    assert Trim(b) == b;
    assert Trim(" " + b) == b;
  }

  lemma BaseNamesAreWords()
    ensures Word(CmisFolder) && Word(CmisDocument) && Word(NtFolder) && Word(NtFile)
  {
    assert forall i :: 0 <= i < |CmisFolder| ==> CmisFolder[i] != '=';
    assert forall i :: 0 <= i < |CmisDocument| ==> CmisDocument[i] != '=';
    assert forall i :: 0 <= i < |NtFolder| ==> NtFolder[i] != '=';
    assert forall i :: 0 <= i < |NtFile| ==> NtFile[i] != '=';
  }

  /** The constructor: a fresh list holds exactly the two base relations. */
  function NewNodes(): (r: Option<seq<Relation>>)
    ensures r == Some([Relation(CmisFolder, NtFolder), Relation(CmisDocument, NtFile)])
  {
    BaseNamesAreWords();
    RelationOfMapping(CmisFolder, NtFolder);
    RelationOfMapping(CmisDocument, NtFile);
    var lines := MappingLines;
    assert lines[0] == CmisFolder + " = " + NtFolder;
    assert lines[1..] == [CmisDocument + " = " + NtFile];
    assert lines[1..][1..] == [];
    assert RelationsOf(lines[1..][1..]) == Some([]);
    var second := Relation(CmisDocument, NtFile);
    assert RelationOf(lines[1..][0]) == Some(second);
    assert [second] + [] == [second];
    assert RelationsOf(lines[1..]) == Some([second]);
    assert RelationOf(lines[0]) == Some(Relation(CmisFolder, NtFolder));
    assert [Relation(CmisFolder, NtFolder)] + [second] == [Relation(CmisFolder, NtFolder), second];
    RelationsOf(lines)
  }

  /** The index of the first relation with this CMIS name, if any. */
  function FirstCmis(rels: seq<Relation>, cmisName: string): (k: Option<nat>)
    ensures k.None? <==> forall i :: 0 <= i < |rels| ==> rels[i].cmisName != cmisName
    ensures k.Some? ==> k.value < |rels| && rels[k.value].cmisName == cmisName
                        && forall j :: 0 <= j < k.value ==> rels[j].cmisName != cmisName
    decreases |rels|
  {
    if |rels| == 0 then None
    else if rels[0].cmisName == cmisName then Some(0)
    else
      assert forall i :: 1 <= i < |rels| ==> rels[i] == rels[1..][i - 1];
      match FirstCmis(rels[1..], cmisName)
      case None => None
      case Some(k) => Some(k + 1)
  }

  /** The index of the first relation with this JCR name, if any. */
  function FirstJcr(rels: seq<Relation>, jcrName: string): (k: Option<nat>)
    ensures k.None? <==> forall i :: 0 <= i < |rels| ==> rels[i].jcrName != jcrName
    ensures k.Some? ==> k.value < |rels| && rels[k.value].jcrName == jcrName
                        && forall j :: 0 <= j < k.value ==> rels[j].jcrName != jcrName
    decreases |rels|
  {
    if |rels| == 0 then None
    else if rels[0].jcrName == jcrName then Some(0)
    else
      assert forall i :: 1 <= i < |rels| ==> rels[i] == rels[1..][i - 1];
      match FirstJcr(rels[1..], jcrName)
      case None => None
      case Some(k) => Some(k + 1)
  }

  /** `findJcrName`: the JCR name of the first relation with this CMIS name, else the name itself. */
  function FindJcrName(rels: seq<Relation>, cmisName: string): (r: string)
    ensures FirstCmis(rels, cmisName).None? ==> r == cmisName
    ensures FirstCmis(rels, cmisName).Some? ==> r == rels[FirstCmis(rels, cmisName).value].jcrName
    decreases |rels|
  {
    if |rels| == 0 then cmisName
    else if rels[0].cmisName == cmisName then rels[0].jcrName
    else FindJcrName(rels[1..], cmisName)
  }

  /** `findCmisName(String)`: the CMIS name of the first relation with this JCR name, else the name itself. */
  function FindCmisName(rels: seq<Relation>, jcrName: string): (r: string)
    ensures FirstJcr(rels, jcrName).None? ==> r == jcrName
    ensures FirstJcr(rels, jcrName).Some? ==> r == rels[FirstJcr(rels, jcrName).value].cmisName
    decreases |rels|
  {
    if |rels| == 0 then jcrName
    else if rels[0].jcrName == jcrName then rels[0].cmisName
    else FindCmisName(rels[1..], jcrName)
  }

  /** `findCmisName(Name)`: looks the name up by its `toString()` rendering. */
  function FindCmisNameOf(rels: seq<Relation>, n: JcrName): (r: string)
    ensures FirstJcr(rels, n.display).None? ==> r == n.display
    ensures FirstJcr(rels, n.display).Some? ==> r == rels[FirstJcr(rels, n.display).value].cmisName
  {
    FindCmisName(rels, n.display)
  }

  /** The list without its first relation whose JCR name is `jcrName`. */
  function RemoveFirst(rels: seq<Relation>, jcrName: string): seq<Relation>
  {
    match FirstJcr(rels, jcrName)
    case None => rels
    case Some(i) => rels[..i] + rels[i + 1..]
  }

  /**
   * `addTypeMapping(jcrName, cmisName)`: drops the first relation whose JCR
   * name equals `jcrName.getString()` and appends (cmisName, jcrName.toString()).
   */
  function AddTypeMapping(rels: seq<Relation>, n: JcrName, cmisName: string): (r: seq<Relation>)
    ensures |r| == if FirstJcr(rels, n.asString).Some? then |rels| else |rels| + 1
    ensures r[|r| - 1] == Relation(cmisName, n.display)
    ensures forall x :: x in r[..|r| - 1] ==> x in rels
    ensures forall x :: x in rels && x.jcrName != n.asString ==> x in r[..|r| - 1]
  {
    var rest := RemoveFirst(rels, n.asString);
    RemoveFirstKeeps(rels, n.asString);
    var r := rest + [Relation(cmisName, n.display)];
    assert r[..|r| - 1] == rest;
    r
  }

  /** The iterator loop of `addTypeMapping`, with its `remove` and `break`. */
  method AddTypeMappingLoop(rels: seq<Relation>, n: JcrName, cmisName: string) returns (r: seq<Relation>)
    ensures r == AddTypeMapping(rels, n, cmisName)
  {
    var i := 0;
    r := rels;
    while i < |rels|
      invariant 0 <= i <= |rels| && r == rels
      invariant forall j :: 0 <= j < i ==> rels[j].jcrName != n.asString
    {
      if rels[i].jcrName == n.asString {
        r := rels[..i] + rels[i + 1..];
        break;
      }
      i := i + 1;
    }
    r := r + [Relation(cmisName, n.display)];
  }

  /** No two relations share a JCR name. */
  predicate UniqueJcr(rels: seq<Relation>)
  {
    forall i, j :: 0 <= i < j < |rels| ==> rels[i].jcrName != rels[j].jcrName
  }

  // ---------------------------------------------------------------------------
  // Properties
  // ---------------------------------------------------------------------------

  /** Removal keeps every relation with another JCR name and adds none. */
  lemma RemoveFirstKeeps(rels: seq<Relation>, jcrName: string)
    ensures forall x :: x in RemoveFirst(rels, jcrName) ==> x in rels
    ensures forall x :: x in rels && x.jcrName != jcrName ==> x in RemoveFirst(rels, jcrName)
  {
    if FirstJcr(rels, jcrName).Some? {
      var i := FirstJcr(rels, jcrName).value;
      DropMembers(rels, i);
    }
  }

  /** Dropping the element at `i` shifts every later element down by one. */
  lemma DropShifts<T>(s: seq<T>, i: nat, r: seq<T>)
    requires i < |s| && r == s[..i] + s[i + 1..]
    ensures |r| == |s| - 1
    ensures forall p :: 0 <= p < i ==> r[p] == s[p]
    ensures forall p :: i <= p < |r| ==> r[p] == s[p + 1]
  {
  }

  /** Dropping the element at `i` keeps every other element and adds none. */
  lemma DropMembers<T>(s: seq<T>, i: nat)
    requires i < |s|
    ensures forall x :: x in s[..i] + s[i + 1..] ==> x in s
    ensures forall x :: x in s && x != s[i] ==> x in s[..i] + s[i + 1..]
  {
    assert s == s[..i] + [s[i]] + s[i + 1..];
  }

  /** Removal from a list with unique JCR names leaves none with that name. */
  lemma RemoveFirstUnique(rels: seq<Relation>, jcrName: string)
    requires UniqueJcr(rels)
    ensures var r := RemoveFirst(rels, jcrName);
            UniqueJcr(r) && forall x :: x in r ==> x.jcrName != jcrName
  {
    var r := RemoveFirst(rels, jcrName);
    if FirstJcr(rels, jcrName).Some? {
      var i := FirstJcr(rels, jcrName).value;
      assert r == rels[..i] + rels[i + 1..];
      DropShifts(rels, i, r);
      forall p, q | 0 <= p < q < |r|
        ensures r[p].jcrName != r[q].jcrName
      {
        var p' := if p < i then p else p + 1;
        var q' := if q < i then q else q + 1;
        assert r[p] == rels[p'] && r[q] == rels[q'];
      }
      forall x | x in r
        ensures x.jcrName != jcrName
      {
        var m :| 0 <= m < |r| && r[m] == x;
        if m < i { assert r[m] == rels[m]; } else { assert r[m] == rels[m + 1]; }
      }
    } else {
      forall x | x in r
        ensures x.jcrName != jcrName
      {
        var m :| 0 <= m < |r| && r[m] == x;
      }
    }
  }

  /** A relation appended after all others is found only when no earlier one has its JCR name. */
  lemma {:induction false} FindCmisNameAppend(rels: seq<Relation>, x: Relation, name: string)
    ensures FindCmisName(rels + [x], name)
            == if FirstJcr(rels, name).Some? || x.jcrName != name then FindCmisName(rels, name) else x.cmisName
    decreases |rels|
  {
    if |rels| == 0 {
      assert [x][1..] == [];
    } else {
      assert (rels + [x])[0] == rels[0] && (rels + [x])[1..] == rels[1..] + [x];
      FindCmisNameAppend(rels[1..], x, name);
    }
  }

  /**
   * When the two renderings of the name agree and JCR names are unique,
   * `addTypeMapping` makes the name map to the new CMIS name and keeps the JCR
   * names unique.
   */
  lemma AddThenFindCmis(rels: seq<Relation>, n: JcrName, cmisName: string)
    requires n.asString == n.display && UniqueJcr(rels)
    ensures var r := AddTypeMapping(rels, n, cmisName);
            FindCmisNameOf(r, n) == cmisName && UniqueJcr(r)
  {
    var rest := RemoveFirst(rels, n.asString);
    var x := Relation(cmisName, n.display);
    var r := AddTypeMapping(rels, n, cmisName);
    assert r == rest + [x];
    RemoveFirstUnique(rels, n.asString);
    assert forall j :: 0 <= j < |rest| ==> rest[j] in rest;
    assert FirstJcr(rest, n.display).None?;
    FindCmisNameAppend(rest, x, n.display);
    forall p, q | 0 <= p < q < |r|
      ensures r[p].jcrName != r[q].jcrName
    {
      assert r[p] == rest[p];
      if q < |rest| { assert r[q] == rest[q]; }
    }
  }

  /**
   * A mapping for any other JCR name is unaffected: the name resolves to the
   * same CMIS name before and after.
   */
  lemma AddKeepsOtherMappings(rels: seq<Relation>, n: JcrName, cmisName: string, other: string)
    requires other != n.asString && other != n.display
    ensures FindCmisName(AddTypeMapping(rels, n, cmisName), other) == FindCmisName(rels, other)
  {
    var rest := RemoveFirst(rels, n.asString);
    assert AddTypeMapping(rels, n, cmisName) == rest + [Relation(cmisName, n.display)];
    FindCmisNameSkipsRemoved(rels, n.asString, other);
    FindCmisNameAppend(rest, Relation(cmisName, n.display), other);
  }

  lemma {:induction false} FindCmisNameSkipsRemoved(rels: seq<Relation>, removed: string, other: string)
    requires other != removed
    ensures FindCmisName(RemoveFirst(rels, removed), other) == FindCmisName(rels, other)
    ensures FirstJcr(RemoveFirst(rels, removed), other).Some? <==> FirstJcr(rels, other).Some?
    decreases |rels|
  {
    if |rels| == 0 {
      assert RemoveFirst(rels, removed) == rels;
    } else if rels[0].jcrName == removed {
      assert FirstJcr(rels, removed) == Some(0);
      assert RemoveFirst(rels, removed) == rels[1..];
      assert FindCmisName(rels, other) == FindCmisName(rels[1..], other);
      assert FirstJcr(rels, other).Some? <==> FirstJcr(rels[1..], other).Some?;
    } else {
      RemoveFirstPastHead(rels, removed);
      var r := [rels[0]] + RemoveFirst(rels[1..], removed);
      assert r[0] == rels[0] && r[1..] == RemoveFirst(rels[1..], removed);
      if rels[0].jcrName == other {
        assert FirstJcr(r, other) == Some(0) && FirstJcr(rels, other) == Some(0);
      } else {
        FindCmisNameSkipsRemoved(rels[1..], removed, other);
        assert FindCmisName(r, other) == FindCmisName(r[1..], other);
        assert FindCmisName(rels, other) == FindCmisName(rels[1..], other);
        assert FirstJcr(rels, other).Some? <==> FirstJcr(rels[1..], other).Some?;
        assert FirstJcr(r, other).Some? <==> FirstJcr(r[1..], other).Some?;
      }
    }
  }

  /** Removal past a head with another JCR name keeps the head and removes from the tail. */
  lemma RemoveFirstPastHead(rels: seq<Relation>, removed: string)
    requires |rels| > 0 && rels[0].jcrName != removed
    ensures RemoveFirst(rels, removed) == [rels[0]] + RemoveFirst(rels[1..], removed)
  {
    var tail := rels[1..];
    match FirstJcr(tail, removed)
    case None =>
      assert FirstJcr(rels, removed).None?;
      assert [rels[0]] + tail == rels;
    case Some(i) =>
      assert FirstJcr(rels, removed) == Some(i + 1);
      assert [rels[0]] + (tail[..i] + tail[i + 1..]) == rels[..i + 1] + rels[i + 2..];
  }

  /**
   * When `getString()` and `toString()` differ, the relation a previous mapping
   * appended under `toString()` is not the one removed, and stays first: the
   * name keeps resolving to its old CMIS name.
   */
  lemma StaleMappingWins(rels: seq<Relation>, n: JcrName, cmisName: string)
    requires n.asString != n.display
    ensures FindCmisNameOf(AddTypeMapping(rels, n, cmisName), n)
            == if FirstJcr(rels, n.display).Some? then FindCmisNameOf(rels, n) else cmisName
  {
    var rest := RemoveFirst(rels, n.asString);
    assert AddTypeMapping(rels, n, cmisName) == rest + [Relation(cmisName, n.display)];
    FindCmisNameSkipsRemoved(rels, n.asString, n.display);
    FindCmisNameAppend(rest, Relation(cmisName, n.display), n.display);
  }

  /** In the fresh list, the two base types map both ways and other names map to themselves. */
  lemma BaseMappings(name: string)
    requires name != CmisFolder && name != CmisDocument && name != NtFolder && name != NtFile
    ensures var rels := NewNodes().value;
            FindJcrName(rels, CmisFolder) == NtFolder && FindJcrName(rels, CmisDocument) == NtFile
            && FindCmisName(rels, NtFolder) == CmisFolder && FindCmisName(rels, NtFile) == CmisDocument
            && FindJcrName(rels, name) == name && FindCmisName(rels, name) == name
  {
  }
}
