/**
 * `BackupObserver`: the change-set listener a backup runs. It forwards the
 * keys of changed nodes to the backup's queue and tracks which binary values
 * became used and which became unused while it listened. A use and an unuse
 * of the same binary value cancel each other out.
 *
 * Two loops are modelled: the one as written, whose `break` ends processing
 * of the whole change set at the first cancellation, and the evidently
 * intended one that only skips the rest of that change.
 */
module Backup {
  import opened Common

  type NodeKey = string
  type BinaryKey = string

  /** The changes the observer tells apart; every other change is ignored. */
  datatype Change = BinaryValueUsed(key: BinaryKey) | BinaryValueUnused(key: BinaryKey) | OtherChange

  datatype ChangeSet = ChangeSet(changedNodes: seq<NodeKey>, changes: seq<Change>)

  /** The queue handed in at construction and the two key sets. */
  datatype Observer = Observer(queue: seq<NodeKey>, used: set<BinaryKey>, unused: set<BinaryKey>)

  /** No binary key is both used and unused. */
  predicate Disjoint(o: Observer)
  {
    o.used !! o.unused
  }

  /** A freshly constructed observer: the given queue and no binary keys. */
  function NewObserver(queue: seq<NodeKey>): (o: Observer)
    ensures Disjoint(o) && o.queue == queue && o.used == {} && o.unused == {}
  {
    Observer(queue, {}, {})
  }

  /**
   * One iteration of the loop: the observer after the change and whether the
   * change cancelled an earlier opposite one (where the loop says `break`).
   */
  function Step(o: Observer, c: Change): (r: (Observer, bool))
    ensures r.0.queue == o.queue
    ensures Disjoint(o) ==> Disjoint(r.0)
    ensures r.1 <==> (c.BinaryValueUnused? && c.key in o.used) || (c.BinaryValueUsed? && c.key in o.unused)
  {
    match c
    case BinaryValueUnused(k) =>
      if k in o.used then (o.(used := o.used - {k}), true) else (o.(unused := o.unused + {k}), false)
    case BinaryValueUsed(k) =>
      if k in o.unused then (o.(unused := o.unused - {k}), true) else (o.(used := o.used + {k}), false)
    case OtherChange => (o, false)
  }

  /** The loop as written: it stops after the first cancelling change. */
  function RunAsWritten(o: Observer, changes: seq<Change>): Observer
    decreases |changes|
  {
    if |changes| == 0 then o
    else
      var (next, stop) := Step(o, changes[0]);
      if stop then next else RunAsWritten(next, changes[1..])
  }

  /** The loop as intended: every change is processed. */
  function Run(o: Observer, changes: seq<Change>): Observer
    decreases |changes|
  {
    if |changes| == 0 then o else Run(Step(o, changes[0]).0, changes[1..])
  }

  /** `notify(changeSet)` as written: null is ignored, the nodes are queued, then the loop. */
  function NotifyAsWritten(o: Observer, cs: Option<ChangeSet>): Observer
  {
    match cs
    case None => o
    case Some(s) => RunAsWritten(o.(queue := o.queue + s.changedNodes), s.changes)
  }

  /** `notify(changeSet)` with the loop as intended. */
  function Notify(o: Observer, cs: Option<ChangeSet>): Observer
  {
    match cs
    case None => o
    case Some(s) => Run(o.(queue := o.queue + s.changedNodes), s.changes)
  }

  /** The loop of `notify` as written, with its early exit. */
  method NotifyLoop(o0: Observer, cs: Option<ChangeSet>) returns (o: Observer)
    ensures o == NotifyAsWritten(o0, cs)
    ensures Disjoint(o0) ==> Disjoint(o)
    ensures cs.Some? ==> o.queue == o0.queue + cs.value.changedNodes
    ensures cs.None? ==> o == o0
  {
    if cs.None? {
      return o0;
    }
    var changes := cs.value.changes;
    o := o0.(queue := o0.queue + cs.value.changedNodes);
    var i := 0;
    while i < |changes|
      invariant 0 <= i <= |changes|
      invariant RunAsWritten(o, changes[i..]) == NotifyAsWritten(o0, cs)
      invariant o.queue == o0.queue + cs.value.changedNodes
      invariant Disjoint(o0) ==> Disjoint(o)
    {
      var (next, stop) := Step(o, changes[i]);
      assert changes[i..][0] == changes[i] && changes[i..][1..] == changes[i + 1..];
      o := next;
      if stop {
        break;
      }
      i := i + 1;
    }
  }

  // ---------------------------------------------------------------------------
  // Properties
  // ---------------------------------------------------------------------------

  /** Both loops keep the queue and keep the key sets disjoint. */
  lemma {:induction false} RunKeepsDisjoint(o: Observer, changes: seq<Change>)
    requires Disjoint(o)
    ensures Disjoint(Run(o, changes)) && Run(o, changes).queue == o.queue
    ensures Disjoint(RunAsWritten(o, changes)) && RunAsWritten(o, changes).queue == o.queue
    decreases |changes|
  {
    if |changes| > 0 {
      RunKeepsDisjoint(Step(o, changes[0]).0, changes[1..]);
    }
  }

  /**
   * `notify` ignores null, appends the change set's nodes to the queue in
   * order, and never lets a binary key be both used and unused.
   */
  lemma NotifyQueuesAndKeepsDisjoint(o: Observer, cs: Option<ChangeSet>)
    requires Disjoint(o)
    ensures cs.None? ==> Notify(o, cs) == o && NotifyAsWritten(o, cs) == o
    ensures cs.Some? ==> Notify(o, cs).queue == o.queue + cs.value.changedNodes
                         && NotifyAsWritten(o, cs).queue == o.queue + cs.value.changedNodes
    ensures Disjoint(Notify(o, cs)) && Disjoint(NotifyAsWritten(o, cs))
  {
    if cs.Some? {
      RunKeepsDisjoint(o.(queue := o.queue + cs.value.changedNodes), cs.value.changes);
    }
  }

  /** A key's standing: 1 used, -1 unused, 0 neither. */
  function Standing(o: Observer, k: BinaryKey): int
  {
    if k in o.used then 1 else if k in o.unused then -1 else 0
  }

  /** What a change does to the standing of `k`, as a signed step. */
  function Delta(c: Change, k: BinaryKey): int
  {
    if c == BinaryValueUsed(k) then 1 else if c == BinaryValueUnused(k) then -1 else 0
  }

  /** The reference account: a counter kept within -1..1, stepped by each change in turn. */
  function Saturate(start: int, changes: seq<Change>, k: BinaryKey): int
    decreases |changes|
  {
    if |changes| == 0 then start
    else
      var n := start + Delta(changes[0], k);
      Saturate(if n > 1 then 1 else if n < -1 then -1 else n, changes[1..], k)
  }

  /**
   * The intended loop keeps, for every binary key, the counter that adds one
   * per use and subtracts one per unuse, saturating at used and at unused.
   */
  lemma {:induction false} RunIsSaturatingCount(o: Observer, changes: seq<Change>, k: BinaryKey)
    requires Disjoint(o)
    ensures Standing(Run(o, changes), k) == Saturate(Standing(o, k), changes, k)
    decreases |changes|
  {
    if |changes| > 0 {
      var next := Step(o, changes[0]).0;
      var n := Standing(o, k) + Delta(changes[0], k);
      assert Standing(next, k) == (if n > 1 then 1 else if n < -1 then -1 else n);
      RunKeepsDisjoint(next, []);
      RunIsSaturatingCount(next, changes[1..], k);
    }
  }

  /** Keys no change mentions keep their standing. */
  lemma {:induction false} UnmentionedKeysUntouched(o: Observer, changes: seq<Change>, k: BinaryKey)
    requires forall i :: 0 <= i < |changes| ==> changes[i] != BinaryValueUsed(k) && changes[i] != BinaryValueUnused(k)
    ensures (k in Run(o, changes).used <==> k in o.used) && (k in Run(o, changes).unused <==> k in o.unused)
    ensures (k in RunAsWritten(o, changes).used <==> k in o.used)
            && (k in RunAsWritten(o, changes).unused <==> k in o.unused)
    decreases |changes|
  {
    if |changes| > 0 {
      assert changes[0] != BinaryValueUsed(k) && changes[0] != BinaryValueUnused(k);
      assert forall i :: 0 <= i < |changes[1..]| ==> changes[1..][i] == changes[i + 1];
      UnmentionedKeysUntouched(Step(o, changes[0]).0, changes[1..], k);
    }
  }

  /** Changes processed in two runs give what one run over both gives. */
  lemma {:induction false} RunConcat(o: Observer, a: seq<Change>, b: seq<Change>)
    ensures Run(o, a + b) == Run(Run(o, a), b)
    decreases |a|
  {
    if |a| == 0 {
      assert a + b == b;
    } else {
      assert (a + b)[0] == a[0] && (a + b)[1..] == a[1..] + b;
      RunConcat(Step(o, a[0]).0, a[1..], b);
    }
  }

  /** How many changes the loop as written processes before it stops. */
  function Processed(o: Observer, changes: seq<Change>): (n: nat)
    ensures n <= |changes|
    ensures n == 0 <==> |changes| == 0
    decreases |changes|
  {
    if |changes| == 0 then 0
    else
      var (next, stop) := Step(o, changes[0]);
      if stop then 1 else 1 + Processed(next, changes[1..])
  }

  /**
   * The loop as written is the intended loop cut short at the first
   * cancelling change: it processes a prefix of the changes, no change before
   * the last one processed cancels, and it stops early only right after a
   * cancelling change.
   */
  lemma {:induction false} AsWrittenIsPrefix(o: Observer, changes: seq<Change>)
    ensures var n := Processed(o, changes);
            RunAsWritten(o, changes) == Run(o, changes[..n])
            && (n < |changes| ==> n > 0 && Step(Run(o, changes[..n - 1]), changes[n - 1]).1)
    ensures forall j :: 0 <= j < Processed(o, changes) - 1 ==> !Step(Run(o, changes[..j]), changes[j]).1
    decreases |changes|
  {
    if |changes| > 0 {
      var (next, stop) := Step(o, changes[0]);
      var n := Processed(o, changes);
      if stop {
        assert changes[..1][1..] == [];
        assert changes[..0] == [];
      } else {
        AsWrittenIsPrefix(next, changes[1..]);
        var m := Processed(next, changes[1..]);
        forall j | 0 <= j < n - 1
          ensures !Step(Run(o, changes[..j]), changes[j]).1
        {
          if j > 0 {
            assert changes[..j][0] == changes[0] && changes[..j][1..] == changes[1..][..j - 1];
            assert changes[j] == changes[1..][j - 1];
          } else {
            assert changes[..0] == [];
          }
        }
        assert changes[..n][0] == changes[0] && changes[..n][1..] == changes[1..][..m];
        if m > 0 && m < |changes[1..]| {
          assert changes[..n - 1][0] == changes[0] && changes[..n - 1][1..] == changes[1..][..m - 1];
          assert changes[n - 1] == changes[1..][m - 1];
        }
      }
    }
  }

  /**
   * The early exit loses changes: once a binary value is unused after being
   * used, a later use of another value in the same change set is not recorded.
   */
  lemma BreakDropsLaterChanges()
    ensures var o := Observer([], {"a"}, {});
            var cs := Some(ChangeSet([], [BinaryValueUnused("a"), BinaryValueUsed("b")]));
            "b" !in NotifyAsWritten(o, cs).used && "b" in Notify(o, cs).used
  {
    var o := Observer([], {"a"}, {});
    var changes := [BinaryValueUnused("a"), BinaryValueUsed("b")];
    assert changes[1..] == [BinaryValueUsed("b")];
    assert Step(o, changes[0]).1;
    var after := Step(o, changes[0]).0;
    assert "b" !in after.used;
    assert RunAsWritten(o, changes) == after;
    assert "b" in Step(after, changes[1]).0.used;
  }
}
