/**
 * The values the child-reference index works with: a child reference, the
 * failures a lookup can raise, and the overlay of unsaved changes a caller may
 * pass in (the `Context` / `Changes` collaborators).
 */
module ChildRefs {
  import opened Common

  type NodeKey = string
  type Name = string

  /** An immutable (key, name, same-name-sibling index) triple. */
  datatype ChildRef = ChildRef(key: NodeKey, name: Name, snsIndex: int)
  {
    /** `ref.with(index)`: the same child under another SNS index. */
    function With(sns: int): ChildRef
    {
      ChildRef(key, name, sns)
    }

    /** `ref.with(name, index)`: the same child under another name and index. */
    function WithName(newName: Name, sns: int): ChildRef
    {
      ChildRef(key, newName, sns)
    }
  }

  /** The exceptions a lookup lets escape. */
  datatype Error =
    | DocumentNotFound(blockKey: string) // a next-block key names no block
    | IndexOutOfBounds(index: int)       // list.get(snsIndex - 1) with snsIndex < 1

  /** A result, or the exception that ended the operation. */
  datatype Outcome<+T> = Ok(value: T) | Fail(error: Error)

  /** What `getChild` returns: a reference, null, or an exception. */
  type Lookup = Outcome<Option<ChildRef>>

  /**
   * The overlay of unsaved changes (`Changes`). Each query the index asks of it
   * is a field:
   *  - insertions(name): absent means null, present means the batches of
   *    references inserted under that name;
   *  - isRemoved(ref) / isRenamed(ref) by the reference's key, renamed(key);
   *  - isRenamed(name): some child was renamed to that name;
   *  - inserted(key);
   *  - view(name, stored): what the shared context-aware iterator yields for
   *    the stored same-name references of one segment once the overlay is
   *    applied (that iterator lives outside the modelled file).
   */
  datatype Changes = Changes(
    insertions: map<Name, seq<seq<ChildRef>>>,
    removed: set<NodeKey>,
    renamed: map<NodeKey, Name>,
    renamedNames: set<Name>,
    inserted: map<NodeKey, ChildRef>,
    view: (Name, seq<ChildRef>) -> seq<ChildRef>)
  {
    predicate IsRemoved(r: ChildRef)
    {
      r.key in removed
    }

    predicate IsRenamed(r: ChildRef)
    {
      r.key in renamed
    }

    predicate IsRenamedTo(n: Name)
    {
      n in renamedNames
    }
  }

  /** The per-name counters behind `Context.consume`. */
  type Counters = map<Name, nat>

  /**
   * The optional context of a lookup: null, or a context whose `changes()`
   * may itself be null, together with the consume counters it has advanced.
   */
  datatype Context = NullContext | Ctx(changes: Option<Changes>, counters: Counters)
  {
    /** `context == null ? null : context.changes()`. */
    function ChangesOrNull(): Option<Changes>
    {
      if NullContext? then None else changes
    }
  }

  /** How many indexes `consume` has handed out for `name` so far. */
  function Consumed(c: Counters, name: Name): nat
  {
    if name in c then c[name] else 0
  }

  /**
   * `context.consume(name, key)`: hands out the next same-name-sibling index
   * for `name`, starting at 1, and advances the counter.
   */
  function Consume(c: Counters, name: Name): (r: (nat, Counters))
    ensures r.0 == Consumed(c, name) + 1
    ensures Consumed(r.1, name) == r.0
    ensures forall n :: n != name ==> Consumed(r.1, n) == Consumed(c, n)
  {
    var next := Consumed(c, name) + 1;
    (next, c[name := next])
  }

  /** The batches of an insertion iterator, in the order they are visited. */
  function Flatten(batches: seq<seq<ChildRef>>): (refs: seq<ChildRef>)
    ensures forall r :: r in refs ==> exists b :: b in batches && r in b
    ensures forall b, r :: b in batches && r in b ==> r in refs
    ensures |refs| == TotalLength(batches)
    decreases |batches|
  {
    if |batches| == 0 then [] else batches[0] + Flatten(batches[1..])
  }

  /** How many references the batches hold altogether. */
  function TotalLength(batches: seq<seq<ChildRef>>): nat
    decreases |batches|
  {
    if |batches| == 0 then 0 else |batches[0]| + TotalLength(batches[1..])
  }
}
