/**
 * `JcrObservationManager.JcrListenerAdapter`: turns one repository change set
 * into the ordered JCR events a registered listener receives. A change set is
 * first screened as a whole (originating session and workspace); each node
 * change then passes a chain of filters (UUID, path, read permission,
 * lock-area suppression, node type) and is expanded into events gated by the
 * listener's event-type mask. Moves, renames and reorders become a
 * NODE_MOVED event followed by the NODE_ADDED / NODE_REMOVED pair that JCR 1.0
 * listeners expect.
 *
 * The session's services (node identifiers, permission checks, path parsing,
 * node lookup and node-type derivation) are fields of the `Session` value.
 */
module Observation {
  import opened Common

  /** A JCR event-type mask (a Java int). */
  type Mask = bv32

  // The event types of section 12.2 of JSR 283 (javax.jcr.observation.Event).
  const NodeAddedType: Mask := 0x1
  const NodeRemovedType: Mask := 0x2
  const PropertyAddedType: Mask := 0x4
  const PropertyRemovedType: Mask := 0x8
  const PropertyChangedType: Mask := 0x10
  const NodeMovedType: Mask := 0x20
  // ModeShape's sequencing event types; their declaring interface is not part of this model.
  const NodeSequencedType: Mask := 0x80
  const NodeSequencingFailureType: Mask := 0x100

  /** A mask that listens for every event type. */
  const AllTypes: Mask := 0xFFFF_FFFF

  /** One path segment: a name and its same-name-sibling index. */
  datatype Segment = Segment(name: string, index: int)

  /** An absolute path; the root is the empty path. */
  type Path = seq<Segment>

  const SystemName: string := "jcr:system"
  const LocksName: string := "mode:locks"

  /** `a.isAtOrAbove(b)`: `a` is `b` or one of its ancestors. */
  predicate IsAtOrAbove(a: Path, b: Path)
  {
    |a| <= |b| && b[..|a|] == a
  }

  function LastSegment(p: Path): Option<Segment>
  {
    if |p| == 0 then None else Some(p[|p| - 1])
  }

  /** The path of a property of the node at `p`. */
  function PropertyPath(p: Path, propertyName: string): (r: Path)
    ensures |r| == |p| + 1 && r[..|p|] == p
  {
    p + [Segment(propertyName, 1)]
  }

  /** The primary type and mixin types of a node. */
  datatype NodeTypes = NodeTypes(primary: string, mixins: seq<string>)

  /**
   * The listener's session. `typesOfNode` and `typesAtPath` look a node up by
   * key or by path and give its types, or None when the lookup throws a
   * RepositoryException; `isDerivedFrom` likewise answers None when it throws.
   */
  datatype Session = Session(
    id: string,
    workspaceName: string,
    systemWorkspaceName: string,
    nodeIdentifier: string -> string,
    canRead: Path -> bool,
    parsePath: string -> Path,
    typesOfNode: string -> Option<NodeTypes>,
    typesAtPath: Path -> Option<NodeTypes>,
    isDerivedFrom: (seq<string>, string, seq<string>) -> Option<bool>)

  /** The adapter's registration: a null `uuids` or `nodeTypeNames` means "no restriction". */
  datatype Listener = Listener(
    eventTypes: Mask,
    absPath: Option<string>,
    isDeep: bool,
    uuids: Option<set<string>>,
    nodeTypeNames: Option<seq<string>>,
    noLocal: bool)

  /** The adapter's constructor: the UUID array becomes a set, null staying null. */
  function NewListener(eventTypes: Mask, absPath: Option<string>, isDeep: bool, uuids: Option<seq<string>>,
                       nodeTypeNames: Option<seq<string>>, noLocal: bool): (l: Listener)
    ensures l.uuids.None? <==> uuids.None?
    ensures uuids.Some? ==> forall u :: u in l.uuids.value <==> u in uuids.value
    ensures l.eventTypes == eventTypes && l.absPath == absPath && l.isDeep == isDeep
    ensures l.nodeTypeNames == nodeTypeNames && l.noLocal == noLocal
  {
    var ids := if uuids.None? then None
               else if |uuids.value| == 0 then Some({})
               else Some(set u | u in uuids.value);
    Listener(eventTypes, absPath, isDeep, ids, nodeTypeNames, noLocal)
  }

  /** A property as an event reports it: one value (null if none) or the array of values. */
  datatype Property = Property(name: string, values: seq<string>, multiple: bool)

  datatype PropertyValue = Single(value: Option<string>) | Multiple(values: seq<string>)

  function ValueOf(p: Property): PropertyValue
  {
    if p.multiple then Multiple(p.values)
    else if |p.values| == 0 then Single(None)
    else Single(Some(p.values[0]))
  }

  /** What a sequencing change records besides its node. */
  datatype SequencingDetails = SequencingDetails(outputPath: string, selectedPath: string, sequencerName: string, userId: string)

  /** The kinds of node change (the subclasses of AbstractNodeChange, taken as disjoint). */
  datatype Kind =
    | NodeAdded
    | NodeRemoved
    | NodeMoved(oldPath: Path)
    | NodeRenamed(oldSegment: Segment)
    | NodeReordered(oldLocation: Option<Path>, reorderedBefore: Option<Path>)
    | PropertyAdded(property: Property)
    | PropertyChanged(newProperty: Property, oldProperty: Property)
    | PropertyRemoved(property: Property)
    | NodeSequenced(outputNodePath: Path, outputNodeKey: string, details: SequencingDetails)
    | NodeSequencingFailure(failed: SequencingDetails, cause: string)
    | OtherNodeChange
  {
    predicate IsPropertyChange()
    {
      PropertyAdded? || PropertyChanged? || PropertyRemoved?
    }
  }

  /** A change: either a node change (with the node's key and path) or some other change. */
  datatype Change = NonNodeChange | NodeChange(key: string, path: Path, kind: Kind)

  datatype ChangeSet = ChangeSet(sessionId: Option<string>, workspaceName: Option<string>, changes: seq<Change>)

  /**
   * The information map of an event. For a reorder, `dest` is the destination
   * entry (present, null when reordered to the end) and the source entry is
   * present only when `hasSrc`.
   */
  datatype Info =
    | NoInfo
    | MoveInfo(from: Path, to: Path)
    | ReorderInfo(dest: Option<Segment>, hasSrc: bool, src: Option<Segment>)
    | PropertyInfo(current: PropertyValue, previous: Option<PropertyValue>)
    | SequencingInfo(sequencedPath: Path, sequencedId: string, details: SequencingDetails, cause: Option<string>)

  /** An event; its path is null only for the removal half of a reorder with no old path. */
  datatype Event = Event(eventType: Mask, path: Option<Path>, identifier: string, info: Info)

  /** The exception a change can raise: the old path of a renamed root has no parent. */
  datatype ObservationError = InvalidSubpath

  datatype Result<T> = Ok(value: T) | Err(error: ObservationError)

  /** What `notify` does with a change set. */
  datatype Delivery = NotDelivered | Delivered(events: seq<Event>) | Aborted(error: ObservationError)

  // ---------------------------------------------------------------------------
  // Filters
  // ---------------------------------------------------------------------------

  /** `eventListenedFor`: every bit of `t` is in the mask. */
  predicate Listened(mask: Mask, t: Mask)
  {
    mask & t == t
  }

  predicate AcceptsSession(l: Listener, s: Session, cs: ChangeSet)
  {
    !l.noLocal || cs.sessionId != Some(s.id)
  }

  predicate AcceptsWorkspace(s: Session, cs: ChangeSet)
  {
    EqualsIgnoreCase(s.workspaceName, cs.workspaceName) || EqualsIgnoreCase(s.systemWorkspaceName, cs.workspaceName)
  }

  /** `shouldReject(changeSet)`. */
  predicate RejectsChangeSet(l: Listener, s: Session, cs: ChangeSet)
  {
    !AcceptsSession(l, s, cs) || !AcceptsWorkspace(s, cs)
  }

  /** `parentNodePathOfChange`: the node itself for property changes, the root for the root, else the parent. */
  function ParentPathOf(path: Path, kind: Kind): (p: Path)
    ensures IsAtOrAbove(p, path)
    ensures kind.IsPropertyChange() || |path| == 0 ==> p == path
    ensures !kind.IsPropertyChange() && |path| > 0 ==> |p| == |path| - 1
  {
    if kind.IsPropertyChange() then path
    else if |path| == 0 then path
    else path[..|path| - 1]
  }

  /** The UUID filter of section 12.5.3.4.2 of JSR 283. */
  predicate AcceptsUuid(l: Listener, s: Session, key: string)
  {
    l.uuids.None? || (l.uuids.value != {} && s.nodeIdentifier(key) in l.uuids.value)
  }

  predicate AcceptsPath(l: Listener, s: Session, path: Path, kind: Kind)
  {
    IsBlank(l.absPath)
    || (var matchPath := s.parsePath(l.absPath.value);
        var parent := ParentPathOf(path, kind);
        if l.isDeep then IsAtOrAbove(matchPath, parent) else matchPath == parent)
  }

  predicate AcceptsPermission(s: Session, path: Path, kind: Kind)
  {
    s.canRead(ParentPathOf(path, kind))
  }

  /** `acceptIfLockChange`: property changes on nodes directly below `/jcr:system/.../mode:locks` are dropped. */
  predicate AcceptsLockChange(path: Path, kind: Kind)
  {
    !kind.IsPropertyChange()
    || |path| < 2
    || !(path[0].name == SystemName && path[|path| - 2].name == LocksName)
  }

  /** The node-type filter of section 12.5.3.4.3 of JSR 283; a lookup that throws rejects. */
  predicate AcceptsNodeType(l: Listener, s: Session, key: string, path: Path, kind: Kind)
  {
    if l.nodeTypeNames == Some([]) then false
    else if l.nodeTypeNames.Some? then
      var types := if kind.IsPropertyChange() then s.typesOfNode(key) else s.typesAtPath(ParentPathOf(path, kind));
      match types
      case None => false
      case Some(t) => s.isDerivedFrom(l.nodeTypeNames.value, t.primary, t.mixins) == Some(true)
    else true
  }

  /** The negation of `shouldReject(nodeChange)`. */
  predicate AcceptsChange(l: Listener, s: Session, key: string, path: Path, kind: Kind)
  {
    AcceptsUuid(l, s, key) && AcceptsPath(l, s, path, kind) && AcceptsPermission(s, path, kind)
    && AcceptsLockChange(path, kind) && AcceptsNodeType(l, s, key, path, kind)
  }

  // ---------------------------------------------------------------------------
  // Event production
  // ---------------------------------------------------------------------------

  /** The event, if the mask listens for its type. */
  function Gate(l: Listener, e: Event): (r: seq<Event>)
    ensures r == [] || r == [e]
    ensures |r| == 1 <==> Listened(l.eventTypes, e.eventType)
  {
    if Listened(l.eventTypes, e.eventType) then [e] else []
  }

  /** `fireExtraEventsForMove`: NODE_ADDED at the new path, then NODE_REMOVED at the old one. */
  function ExtraEventsForMove(l: Listener, newPath: Path, id: string, oldPath: Option<Path>): seq<Event>
  {
    Gate(l, Event(NodeAddedType, Some(newPath), id, NoInfo))
    + Gate(l, Event(NodeRemovedType, oldPath, id, NoInfo))
  }

  /** `fireNodeMoved`: NODE_MOVED with both paths, then the extra pair. */
  function FireNodeMoved(l: Listener, newPath: Path, id: string, oldPath: Path): seq<Event>
  {
    Gate(l, Event(NodeMovedType, Some(newPath), id, MoveInfo(oldPath, newPath)))
    + ExtraEventsForMove(l, newPath, id, Some(oldPath))
  }

  /** The three gated events of a move, one after the other. */
  lemma FireNodeMovedInOrder(l: Listener, newPath: Path, id: string, oldPath: Path)
    ensures FireNodeMoved(l, newPath, id, oldPath)
            == Gate(l, Event(NodeMovedType, Some(newPath), id, MoveInfo(oldPath, newPath)))
               + Gate(l, Event(NodeAddedType, Some(newPath), id, NoInfo))
               + Gate(l, Event(NodeRemovedType, Some(oldPath), id, NoInfo))
  {
  }

  /** The reorder's information map. */
  function ReorderInfoOf(oldPath: Option<Path>, reorderedBefore: Option<Path>): Info
  {
    ReorderInfo(if reorderedBefore.Some? then LastSegment(reorderedBefore.value) else None,
                oldPath.Some?,
                if oldPath.Some? then LastSegment(oldPath.value) else None)
  }

  function SequencingInfoOf(s: Session, key: string, path: Path, d: SequencingDetails, cause: Option<string>): Info
  {
    SequencingInfo(path, s.nodeIdentifier(key), d, cause)
  }

  /** `processChange`: the events one change contributes. */
  function ProcessChange(l: Listener, s: Session, c: Change): (r: Result<seq<Event>>)
    ensures r.Err? ==> c.NodeChange? && c.kind.NodeRenamed? && c.path == []
    ensures r.Ok? && r.value != [] ==> c.NodeChange? && AcceptsChange(l, s, c.key, c.path, c.kind)
  {
    match c
    case NonNodeChange => Ok([])
    case NodeChange(key, path, kind) =>
      if !AcceptsChange(l, s, key, path, kind) then Ok([])
      else
        var id := s.nodeIdentifier(key);
        match kind
        case NodeMoved(oldPath) => Ok(FireNodeMoved(l, path, id, oldPath))
        case NodeRenamed(oldSegment) =>
          if |path| == 0 then Err(InvalidSubpath)
          else Ok(FireNodeMoved(l, path, id, path[..|path| - 1] + [oldSegment]))
        case NodeReordered(oldPath, before) =>
          Ok(Gate(l, Event(NodeMovedType, Some(path), id, ReorderInfoOf(oldPath, before)))
             + ExtraEventsForMove(l, path, id, oldPath))
        case NodeAdded => Ok(Gate(l, Event(NodeAddedType, Some(path), id, NoInfo)))
        case NodeRemoved => Ok(Gate(l, Event(NodeRemovedType, Some(path), id, NoInfo)))
        case PropertyChanged(newProperty, oldProperty) =>
          Ok(Gate(l, Event(PropertyChangedType, Some(PropertyPath(path, newProperty.name)), id,
                           PropertyInfo(ValueOf(newProperty), Some(ValueOf(oldProperty))))))
        case PropertyAdded(property) =>
          Ok(Gate(l, Event(PropertyAddedType, Some(PropertyPath(path, property.name)), id,
                           PropertyInfo(ValueOf(property), None))))
        case PropertyRemoved(property) =>
          Ok(Gate(l, Event(PropertyRemovedType, Some(PropertyPath(path, property.name)), id,
                           PropertyInfo(ValueOf(property), None))))
        case NodeSequenced(outputPath, outputKey, details) =>
          Ok(Gate(l, Event(NodeSequencedType, Some(outputPath), s.nodeIdentifier(outputKey),
                           SequencingInfoOf(s, key, path, details, None))))
        case NodeSequencingFailure(details, cause) =>
          Ok(Gate(l, Event(NodeSequencingFailureType, Some(path), id,
                           SequencingInfoOf(s, key, path, details, Some(cause)))))
        case OtherNodeChange => Ok([])
  }

  /** The outcome of each change, in order. */
  function PerChange(l: Listener, s: Session, changes: seq<Change>): (rs: seq<Result<seq<Event>>>)
    ensures |rs| == |changes|
    ensures forall i :: 0 <= i < |changes| ==> rs[i] == ProcessChange(l, s, changes[i])
  {
    seq(|changes|, i requires 0 <= i < |changes| => ProcessChange(l, s, changes[i]))
  }

  /** The events of a run of outcomes, one after the other; the first exception aborts. */
  function Collect(rs: seq<Result<seq<Event>>>): (r: Result<seq<Event>>)
    ensures r.Ok? <==> forall i :: 0 <= i < |rs| ==> rs[i].Ok?
    decreases |rs|
  {
    if |rs| == 0 then Ok([])
    else
      match rs[0]
      case Err(e) => Err(e)
      case Ok(first) =>
        match Collect(rs[1..])
        case Err(e) => Err(e)
        case Ok(rest) => Ok(first + rest)
  }

  /** The events `notify` collects for a change set. */
  function EventsFor(l: Listener, s: Session, changes: seq<Change>): Result<seq<Event>>
  {
    Collect(PerChange(l, s, changes))
  }

  /**
   * `notify(changeSet)`: a rejected change set is dropped; otherwise the
   * delegate is called once with all the events, and not at all when there
   * are none.
   */
  function Notify(l: Listener, s: Session, cs: ChangeSet): (d: Delivery)
    ensures RejectsChangeSet(l, s, cs) ==> d == NotDelivered
    ensures d.Delivered? ==> |d.events| > 0 && EventsFor(l, s, cs.changes) == Ok(d.events)
    ensures d.Aborted? ==> EventsFor(l, s, cs.changes).Err?
  {
    if RejectsChangeSet(l, s, cs) then NotDelivered
    else
      match EventsFor(l, s, cs.changes)
      case Err(e) => Aborted(e)
      case Ok(events) => if |events| == 0 then NotDelivered else Delivered(events)
  }

  // ---------------------------------------------------------------------------
  // Reference definition: the mask only filters
  // ---------------------------------------------------------------------------

  /** The events whose type the mask listens for, in order. */
  function FilterByMask(events: seq<Event>, mask: Mask): (r: seq<Event>)
    ensures |r| <= |events|
    ensures forall e :: e in r ==> e in events && Listened(mask, e.eventType)
    decreases |events|
  {
    if |events| == 0 then []
    else if Listened(mask, events[0].eventType) then [events[0]] + FilterByMask(events[1..], mask)
    else FilterByMask(events[1..], mask)
  }

  lemma {:induction false} FilterByMaskAppend(a: seq<Event>, b: seq<Event>, mask: Mask)
    ensures FilterByMask(a + b, mask) == FilterByMask(a, mask) + FilterByMask(b, mask)
    decreases |a|
  {
    if |a| == 0 {
      assert a + b == b;
    } else {
      assert (a + b)[0] == a[0];
      assert (a + b)[1..] == a[1..] + b;
      FilterByMaskAppend(a[1..], b, mask);
    }
  }

  /** Gating one event is filtering it; a listener for every type lets it through. */
  lemma GateIsFilter(l: Listener, e: Event)
    ensures Gate(l, e) == FilterByMask([e], l.eventTypes)
    ensures Gate(l.(eventTypes := AllTypes), e) == [e]
  {
    assert [e][1..] == [];
  }

  /** Gating three events one by one is filtering the three of them. */
  lemma GateThreeIsFilter(l: Listener, x: Event, y: Event, z: Event)
    ensures Gate(l, x) + Gate(l, y) + Gate(l, z) == FilterByMask([x, y, z], l.eventTypes)
    ensures Gate(l.(eventTypes := AllTypes), x) + Gate(l.(eventTypes := AllTypes), y)
            + Gate(l.(eventTypes := AllTypes), z) == [x, y, z]
  {
    GateIsFilter(l, x);
    GateIsFilter(l, y);
    GateIsFilter(l, z);
    FilterByMaskAppend([x], [y], l.eventTypes);
    FilterByMaskAppend([x] + [y], [z], l.eventTypes);
    assert [x] + [y] + [z] == [x, y, z];
  }

  /** The filters do not look at the event-type mask. */
  lemma AcceptsIgnoresMask(l: Listener, m: Mask, s: Session, key: string, path: Path, kind: Kind)
    ensures AcceptsChange(l.(eventTypes := m), s, key, path, kind) == AcceptsChange(l, s, key, path, kind)
  {
  }

  /**
   * An accepted addition, removal or property change yields one event when
   * the mask listens for its type and none otherwise. The event is on the
   * node's path for a node, and on the node's path followed by the property
   * name for a property. It carries the node's identifier and, for a
   * property, the current value and, for a change only, the previous one.
   */
  lemma NodeAndPropertyEvents(l: Listener, s: Session, key: string, path: Path, kind: Kind)
    requires kind.NodeAdded? || kind.NodeRemoved? || kind.IsPropertyChange()
    requires AcceptsChange(l, s, key, path, kind)
    ensures var r := ProcessChange(l, s, NodeChange(key, path, kind));
            var t := if kind.NodeAdded? then NodeAddedType
                     else if kind.NodeRemoved? then NodeRemovedType
                     else if kind.PropertyAdded? then PropertyAddedType
                     else if kind.PropertyChanged? then PropertyChangedType
                     else PropertyRemovedType;
            r.Ok? && |r.value| <= 1
            && (|r.value| == 1 <==> Listened(l.eventTypes, t))
            && (|r.value| == 1 ==>
                  var e := r.value[0];
                  e.eventType == t && e.identifier == s.nodeIdentifier(key)
                  && (kind.NodeAdded? || kind.NodeRemoved? ==> e.path == Some(path) && e.info == NoInfo)
                  && (kind.PropertyAdded? || kind.PropertyRemoved? ==>
                        e.path == Some(path + [Segment(kind.property.name, 1)])
                        && e.info == PropertyInfo(ValueOf(kind.property), None))
                  && (kind.PropertyChanged? ==>
                        e.path == Some(path + [Segment(kind.newProperty.name, 1)])
                        && e.info == PropertyInfo(ValueOf(kind.newProperty), Some(ValueOf(kind.oldProperty)))))
  {
  }

  /**
   * An accepted sequencing change yields one event when the mask listens for
   * its type. A sequenced node is reported at the output node's path under the
   * output node's identifier; a failure at the input node's path under its own
   * identifier, with the cause. Both carry the input node's path and identifier.
   */
  lemma SequencingEvents(l: Listener, s: Session, key: string, path: Path, kind: Kind)
    requires kind.NodeSequenced? || kind.NodeSequencingFailure?
    requires AcceptsChange(l, s, key, path, kind)
    ensures var r := ProcessChange(l, s, NodeChange(key, path, kind));
            var t := if kind.NodeSequenced? then NodeSequencedType else NodeSequencingFailureType;
            r.Ok? && |r.value| <= 1
            && (|r.value| == 1 <==> Listened(l.eventTypes, t))
            && (|r.value| == 1 ==>
                  var e := r.value[0];
                  e.eventType == t
                  && e.info.SequencingInfo? && e.info.sequencedPath == path
                  && e.info.sequencedId == s.nodeIdentifier(key)
                  && (kind.NodeSequenced? ==>
                        e.path == Some(kind.outputNodePath) && e.identifier == s.nodeIdentifier(kind.outputNodeKey)
                        && e.info.details == kind.details && e.info.cause.None?)
                  && (kind.NodeSequencingFailure? ==>
                        e.path == Some(path) && e.identifier == s.nodeIdentifier(key)
                        && e.info.details == kind.failed && e.info.cause == Some(kind.cause)))
  {
  }

  /** The events of an accepted move, rename or reorder, for any mask. */
  lemma MoveLikeEvents(l: Listener, s: Session, key: string, path: Path, kind: Kind)
    requires kind.NodeMoved? || (kind.NodeRenamed? && |path| > 0) || kind.NodeReordered?
    requires AcceptsChange(l, s, key, path, kind)
    ensures var id := s.nodeIdentifier(key);
            var oldPath := if kind.NodeMoved? then Some(kind.oldPath)
                           else if kind.NodeRenamed? then Some(path[..|path| - 1] + [kind.oldSegment])
                           else kind.oldLocation;
            var info := if kind.NodeReordered? then ReorderInfoOf(kind.oldLocation, kind.reorderedBefore)
                        else MoveInfo(oldPath.value, path);
            ProcessChange(l, s, NodeChange(key, path, kind))
            == Ok(Gate(l, Event(NodeMovedType, Some(path), id, info))
                  + Gate(l, Event(NodeAddedType, Some(path), id, NoInfo))
                  + Gate(l, Event(NodeRemovedType, oldPath, id, NoInfo)))
  {
    var id := s.nodeIdentifier(key);
    match kind
    case NodeMoved(oldPath) =>
      assert ProcessChange(l, s, NodeChange(key, path, kind)) == Ok(FireNodeMoved(l, path, id, oldPath));
      FireNodeMovedInOrder(l, path, id, oldPath);
    case NodeRenamed(oldSegment) =>
      var oldPath := path[..|path| - 1] + [oldSegment];
      assert ProcessChange(l, s, NodeChange(key, path, kind)) == Ok(FireNodeMoved(l, path, id, oldPath));
      FireNodeMovedInOrder(l, path, id, oldPath);
    case NodeReordered(oldLocation, before) =>
      var moved := Gate(l, Event(NodeMovedType, Some(path), id, ReorderInfoOf(oldLocation, before)));
      var extra := ExtraEventsForMove(l, path, id, oldLocation);
      assert ProcessChange(l, s, NodeChange(key, path, kind)) == Ok(moved + extra);
      assert moved + extra == moved + Gate(l, Event(NodeAddedType, Some(path), id, NoInfo))
                                    + Gate(l, Event(NodeRemovedType, oldLocation, id, NoInfo));
  }

  /** The mask-filter property for the kinds that expand into a move. */
  lemma MoveMaskOnlyFilters(l: Listener, s: Session, key: string, path: Path, kind: Kind)
    requires kind.NodeMoved? || (kind.NodeRenamed? && |path| > 0) || kind.NodeReordered?
    requires AcceptsChange(l, s, key, path, kind)
    ensures var all := ProcessChange(l.(eventTypes := AllTypes), s, NodeChange(key, path, kind));
            var some := ProcessChange(l, s, NodeChange(key, path, kind));
            all.Ok? && some.Ok? && some.value == FilterByMask(all.value, l.eventTypes)
  {
    var la := l.(eventTypes := AllTypes);
    AcceptsIgnoresMask(l, AllTypes, s, key, path, kind);
    MoveLikeEvents(l, s, key, path, kind);
    MoveLikeEvents(la, s, key, path, kind);
    var id := s.nodeIdentifier(key);
    var oldPath := if kind.NodeMoved? then Some(kind.oldPath)
                   else if kind.NodeRenamed? then Some(path[..|path| - 1] + [kind.oldSegment])
                   else kind.oldLocation;
    var info := if kind.NodeReordered? then ReorderInfoOf(kind.oldLocation, kind.reorderedBefore)
                else MoveInfo(oldPath.value, path);
    GateThreeIsFilter(l, Event(NodeMovedType, Some(path), id, info), Event(NodeAddedType, Some(path), id, NoInfo),
                      Event(NodeRemovedType, oldPath, id, NoInfo));
  }

  /**
   * A listener's mask only selects among the events a listener for every type
   * would get: same order, same contents, nothing else.
   */
  lemma MaskOnlyFilters(l: Listener, s: Session, c: Change)
    ensures var all := ProcessChange(l.(eventTypes := AllTypes), s, c);
            var some := ProcessChange(l, s, c);
            (all.Ok? <==> some.Ok?)
            && (all.Ok? ==> some.value == FilterByMask(all.value, l.eventTypes))
  {
    if c.NodeChange? && AcceptsChange(l, s, c.key, c.path, c.kind) {
      var kind := c.kind;
      AcceptsIgnoresMask(l, AllTypes, s, c.key, c.path, kind);
      if kind.NodeMoved? || (kind.NodeRenamed? && |c.path| > 0) || kind.NodeReordered? {
        MoveMaskOnlyFilters(l, s, c.key, c.path, kind);
      } else if kind.OtherNodeChange? || kind.NodeRenamed? {
      } else {
        var r := ProcessChange(l.(eventTypes := AllTypes), s, c).value;
        assert |r| == 1;
        GateIsFilter(l, r[0]);
      }
    }
  }

  /** Collecting commutes with filtering each outcome by the mask. */
  lemma {:induction false} CollectFilters(all: seq<Result<seq<Event>>>, some: seq<Result<seq<Event>>>, mask: Mask)
    requires |all| == |some|
    requires forall i :: 0 <= i < |all| ==>
               (all[i].Ok? <==> some[i].Ok?) && (all[i].Ok? ==> some[i].value == FilterByMask(all[i].value, mask))
    ensures Collect(all).Ok? <==> Collect(some).Ok?
    ensures Collect(all).Ok? ==> Collect(some).value == FilterByMask(Collect(all).value, mask)
    decreases |all|
  {
    if |all| > 0 {
      CollectFilters(all[1..], some[1..], mask);
      if Collect(all).Ok? {
        FilterByMaskAppend(all[0].value, Collect(all[1..]).value, mask);
      }
    }
  }

  /** The same for a whole sequence of changes. */
  lemma MaskOnlyFiltersAll(l: Listener, s: Session, changes: seq<Change>)
    ensures var all := EventsFor(l.(eventTypes := AllTypes), s, changes);
            var some := EventsFor(l, s, changes);
            (all.Ok? <==> some.Ok?)
            && (all.Ok? ==> some.value == FilterByMask(all.value, l.eventTypes))
  {
    forall i | 0 <= i < |changes|
      ensures var a := ProcessChange(l.(eventTypes := AllTypes), s, changes[i]);
              var b := ProcessChange(l, s, changes[i]);
              (a.Ok? <==> b.Ok?) && (a.Ok? ==> b.value == FilterByMask(a.value, l.eventTypes))
    {
      MaskOnlyFilters(l, s, changes[i]);
    }
    CollectFilters(PerChange(l.(eventTypes := AllTypes), s, changes), PerChange(l, s, changes), l.eventTypes);
  }

  // ---------------------------------------------------------------------------
  // Properties
  // ---------------------------------------------------------------------------

  /** Every event of a change has a type the listener's mask listens for. */
  lemma EventsAreListenedFor(l: Listener, s: Session, c: Change)
    requires ProcessChange(l, s, c).Ok?
    ensures forall e :: e in ProcessChange(l, s, c).value ==> Listened(l.eventTypes, e.eventType)
  {
    MaskOnlyFilters(l, s, c);
  }

  lemma {:induction false} CollectAppend(a: seq<Result<seq<Event>>>, b: seq<Result<seq<Event>>>)
    requires Collect(a).Ok? && Collect(b).Ok?
    ensures Collect(a + b) == Ok(Collect(a).value + Collect(b).value)
    decreases |a|
  {
    if |a| == 0 {
      assert a + b == b;
      assert [] + Collect(b).value == Collect(b).value;
    } else {
      assert (a + b)[0] == a[0];
      assert (a + b)[1..] == a[1..] + b;
      CollectAppend(a[1..], b);
      assert a[0].value + (Collect(a[1..]).value + Collect(b).value)
             == a[0].value + Collect(a[1..]).value + Collect(b).value;
    }
  }

  lemma PerChangeAppend(l: Listener, s: Session, a: seq<Change>, b: seq<Change>)
    ensures PerChange(l, s, a + b) == PerChange(l, s, a) + PerChange(l, s, b)
  {
    var ab := PerChange(l, s, a + b);
    var pa := PerChange(l, s, a);
    var pb := PerChange(l, s, b);
    forall i | 0 <= i < |a| + |b|
      ensures ab[i] == (pa + pb)[i]
    {
      if i < |a| {
        assert (a + b)[i] == a[i];
      } else {
        assert (a + b)[i] == b[i - |a|];
      }
    }
  }

  /** The events of consecutive change runs are the runs' events, one after the other. */
  lemma EventsInChangeOrder(l: Listener, s: Session, a: seq<Change>, b: seq<Change>)
    requires EventsFor(l, s, a).Ok? && EventsFor(l, s, b).Ok?
    ensures EventsFor(l, s, a + b) == Ok(EventsFor(l, s, a).value + EventsFor(l, s, b).value)
  {
    PerChangeAppend(l, s, a, b);
    CollectAppend(PerChange(l, s, a), PerChange(l, s, b));
  }

  lemma {:induction false} CollectStopsAtError(a: seq<Result<seq<Event>>>, e: Result<seq<Event>>, b: seq<Result<seq<Event>>>)
    requires Collect(a).Ok? && e.Err?
    ensures Collect(a + [e] + b) == Err(e.error)
    decreases |a|
  {
    if |a| == 0 {
      assert a + [e] + b == [e] + b;
      assert ([e] + b)[0] == e;
    } else {
      assert (a + [e] + b)[0] == a[0];
      assert (a + [e] + b)[1..] == a[1..] + [e] + b;
      CollectStopsAtError(a[1..], e, b);
    }
  }

  /** The first change that raises an exception aborts the whole change set, whatever follows. */
  lemma ExceptionAborts(l: Listener, s: Session, a: seq<Change>, c: Change, b: seq<Change>)
    requires EventsFor(l, s, a).Ok? && ProcessChange(l, s, c).Err?
    ensures EventsFor(l, s, a + [c] + b) == Err(ProcessChange(l, s, c).error)
  {
    var pc := PerChange(l, s, [c]);
    assert pc == [ProcessChange(l, s, c)];
    PerChangeAppend(l, s, a + [c], b);
    PerChangeAppend(l, s, a, [c]);
    CollectStopsAtError(PerChange(l, s, a), pc[0], PerChange(l, s, b));
  }

  /** A change set from this listener's own session, with noLocal set, is never delivered. */
  lemma NoLocalDropsOwnChanges(l: Listener, s: Session, cs: ChangeSet)
    requires l.noLocal && cs.sessionId == Some(s.id)
    ensures Notify(l, s, cs) == NotDelivered
  {
  }

  /** A change set from any workspace other than this one or the system workspace is never delivered. */
  lemma ForeignWorkspaceDropped(l: Listener, s: Session, cs: ChangeSet)
    requires !EqualsIgnoreCase(s.workspaceName, cs.workspaceName)
    requires !EqualsIgnoreCase(s.systemWorkspaceName, cs.workspaceName)
    ensures Notify(l, s, cs) == NotDelivered
  {
  }

  /**
   * Workspace names are compared ignoring ASCII case; a null name never
   * matches. When the session filter lets the change set through, it is
   * accepted exactly when its workspace name, upper-cased, equals this
   * workspace's or the system workspace's upper-cased name.
   */
  lemma WorkspaceMatchIgnoresCase(l: Listener, s: Session, cs: ChangeSet)
    requires AcceptsSession(l, s, cs)
    ensures cs.workspaceName.None? ==> RejectsChangeSet(l, s, cs)
    ensures !RejectsChangeSet(l, s, cs) <==>
              cs.workspaceName.Some?
              && (UpperString(cs.workspaceName.value) == UpperString(s.workspaceName)
                  || UpperString(cs.workspaceName.value) == UpperString(s.systemWorkspaceName))
  {
    if cs.workspaceName.Some? {
      EqualsIgnoreCaseIffUpper(s.workspaceName, cs.workspaceName.value);
      EqualsIgnoreCaseIffUpper(s.systemWorkspaceName, cs.workspaceName.value);
    }
  }

  lemma {:induction false} CollectNothing(rs: seq<Result<seq<Event>>>)
    requires forall i :: 0 <= i < |rs| ==> rs[i] == Ok([])
    ensures Collect(rs) == Ok([])
    decreases |rs|
  {
    if |rs| > 0 {
      assert rs[0] == Ok([]);
      assert forall i :: 0 <= i < |rs[1..]| ==> rs[1..][i] == rs[i + 1];
      CollectNothing(rs[1..]);
      var none: seq<Event> := [];
      assert none + none == none;
    }
  }

  /** A change that no filter lets through yields no event. */
  lemma AllRejectedDeliversNothing(l: Listener, s: Session, changes: seq<Change>)
    requires forall i :: 0 <= i < |changes| ==> changes[i].NodeChange? ==>
               !AcceptsChange(l, s, changes[i].key, changes[i].path, changes[i].kind)
    ensures EventsFor(l, s, changes) == Ok([])
  {
    CollectNothing(PerChange(l, s, changes));
  }

  /** An empty UUID array rejects every change, so nothing is ever delivered. */
  lemma EmptyUuidsDeliverNothing(l: Listener, s: Session, cs: ChangeSet)
    requires l.uuids == Some({})
    ensures Notify(l, s, cs) == NotDelivered
  {
    AllRejectedDeliversNothing(l, s, cs.changes);
  }

  /** An empty node-type array rejects every change, so nothing is ever delivered. */
  lemma EmptyNodeTypesDeliverNothing(l: Listener, s: Session, cs: ChangeSet)
    requires l.nodeTypeNames == Some([])
    ensures Notify(l, s, cs) == NotDelivered
  {
    AllRejectedDeliversNothing(l, s, cs.changes);
  }

  /** The constructor's UUID handling: null accepts all, empty rejects all, else membership. */
  lemma UuidFilterOfConstructor(eventTypes: Mask, absPath: Option<string>, isDeep: bool, uuids: Option<seq<string>>,
                                nodeTypeNames: Option<seq<string>>, noLocal: bool, s: Session, key: string)
    ensures var l := NewListener(eventTypes, absPath, isDeep, uuids, nodeTypeNames, noLocal);
            AcceptsUuid(l, s, key) <==> uuids.None? || s.nodeIdentifier(key) in uuids.value
  {
  }

  /** A node-type lookup or derivation check that throws rejects the change. */
  lemma NodeTypeFailureRejects(l: Listener, s: Session, key: string, path: Path, kind: Kind)
    requires l.nodeTypeNames.Some?
    requires var types := if kind.IsPropertyChange() then s.typesOfNode(key) else s.typesAtPath(ParentPathOf(path, kind));
             types.None? || s.isDerivedFrom(l.nodeTypeNames.value, types.value.primary, types.value.mixins).None?
    ensures !AcceptsChange(l, s, key, path, kind)
  {
  }

  /** A shallow path filter is stricter than the deep one on the same path. */
  lemma ShallowImpliesDeep(l: Listener, s: Session, path: Path, kind: Kind)
    requires AcceptsPath(l.(isDeep := false), s, path, kind)
    ensures AcceptsPath(l.(isDeep := true), s, path, kind)
  {
  }

  /**
   * A deep filter on path P accepts a node added, removed or moved anywhere
   * strictly below P, and a property change on P or any node below it.
   */
  lemma DeepFilterAcceptsDescendants(l: Listener, s: Session, path: Path, kind: Kind)
    requires l.isDeep && !IsBlank(l.absPath)
    requires var p := s.parsePath(l.absPath.value);
             if kind.IsPropertyChange() then IsAtOrAbove(p, path)
             else IsAtOrAbove(p, path) && |path| > |p|
    ensures AcceptsPath(l, s, path, kind)
  {
    var p := s.parsePath(l.absPath.value);
    if !kind.IsPropertyChange() {
      assert path[..|path| - 1][..|p|] == path[..|p|];
    }
  }

  /** Property changes on a lock node under `/jcr:system/.../mode:locks` produce no event. */
  lemma LockChangesSuppressed(l: Listener, s: Session, key: string, path: Path, kind: Kind)
    requires kind.IsPropertyChange() && |path| >= 2
    requires path[0].name == SystemName && path[|path| - 2].name == LocksName
    ensures ProcessChange(l, s, NodeChange(key, path, kind)) == Ok([])
  {
  }

  /**
   * With a mask listening for moves, additions and removals, an accepted move
   * yields exactly three events: NODE_MOVED with both paths, NODE_ADDED at the
   * new path and NODE_REMOVED at the old one, all for the moved node.
   */
  lemma MoveExpandsToThreeEvents(l: Listener, s: Session, key: string, path: Path, oldPath: Path)
    requires AcceptsChange(l, s, key, path, NodeMoved(oldPath))
    requires Listened(l.eventTypes, NodeMovedType | NodeAddedType | NodeRemovedType)
    ensures var id := s.nodeIdentifier(key);
            ProcessChange(l, s, NodeChange(key, path, NodeMoved(oldPath)))
            == Ok([Event(NodeMovedType, Some(path), id, MoveInfo(oldPath, path)),
                   Event(NodeAddedType, Some(path), id, NoInfo),
                   Event(NodeRemovedType, Some(oldPath), id, NoInfo)])
  {
    assert Listened(l.eventTypes, NodeMovedType);
    assert Listened(l.eventTypes, NodeAddedType);
    assert Listened(l.eventTypes, NodeRemovedType);
    var id := s.nodeIdentifier(key);
    assert ProcessChange(l, s, NodeChange(key, path, NodeMoved(oldPath))) == Ok(FireNodeMoved(l, path, id, oldPath));
    FireNodeMovedInOrder(l, path, id, oldPath);
    var moved := Event(NodeMovedType, Some(path), id, MoveInfo(oldPath, path));
    var added := Event(NodeAddedType, Some(path), id, NoInfo);
    var removed := Event(NodeRemovedType, Some(oldPath), id, NoInfo);
    assert Gate(l, moved) == [moved] && Gate(l, added) == [added] && Gate(l, removed) == [removed];
    assert [moved] + [added] + [removed] == [moved, added, removed];
  }

  /**
   * A rename is a move whose old path is the new path's parent plus the old
   * segment: same length, same ancestors, only the last segment differs.
   */
  lemma RenameIsMoveFromOldSegment(l: Listener, s: Session, key: string, path: Path, oldSegment: Segment)
    requires |path| > 0
    ensures var oldPath := path[..|path| - 1] + [oldSegment];
            |oldPath| == |path| && oldPath[..|path| - 1] == path[..|path| - 1]
            && LastSegment(oldPath) == Some(oldSegment)
            && (AcceptsChange(l, s, key, path, NodeRenamed(oldSegment)) ==>
                  AcceptsChange(l, s, key, path, NodeMoved(oldPath))
                  && ProcessChange(l, s, NodeChange(key, path, NodeRenamed(oldSegment)))
                     == ProcessChange(l, s, NodeChange(key, path, NodeMoved(oldPath))))
  {
  }

  /** Renaming the root cannot compute an old path and aborts the notification. */
  lemma RenamedRootAborts(l: Listener, s: Session, key: string, oldSegment: Segment)
    requires AcceptsChange(l, s, key, [], NodeRenamed(oldSegment))
    ensures ProcessChange(l, s, NodeChange(key, [], NodeRenamed(oldSegment))) == Err(InvalidSubpath)
  {
  }

  /**
   * A reorder's NODE_MOVED event names the destination sibling (null when
   * moved to the end) and names a source only when the old path is known; its
   * NODE_REMOVED companion carries the old path, null when unknown.
   */
  lemma ReorderEvents(l: Listener, s: Session, key: string, path: Path, oldPath: Option<Path>, before: Option<Path>)
    requires AcceptsChange(l, s, key, path, NodeReordered(oldPath, before))
    requires Listened(l.eventTypes, NodeMovedType | NodeRemovedType) && !Listened(l.eventTypes, NodeAddedType)
    ensures var r := ProcessChange(l, s, NodeChange(key, path, NodeReordered(oldPath, before)));
            r.Ok? && |r.value| == 2
            && r.value[0].eventType == NodeMovedType && r.value[1].eventType == NodeRemovedType
            && r.value[0].info.ReorderInfo?
            && (before.None? ==> r.value[0].info.dest.None?)
            && (before.Some? && |before.value| > 0 ==> r.value[0].info.dest == Some(before.value[|before.value| - 1]))
            && (r.value[0].info.hasSrc <==> oldPath.Some?)
            && r.value[1].path == oldPath
  {
    assert Listened(l.eventTypes, NodeMovedType);
    assert Listened(l.eventTypes, NodeRemovedType);
  }

  /**
   * A change set is delivered exactly when it is not rejected, no change
   * aborts, and at least one event results; the delivery then carries the
   * events of all changes in order.
   */
  lemma DeliveredIffEvents(l: Listener, s: Session, cs: ChangeSet)
    ensures Notify(l, s, cs).Delivered?
            <==> !RejectsChangeSet(l, s, cs) && EventsFor(l, s, cs.changes).Ok? && EventsFor(l, s, cs.changes).value != []
  {
  }
}
