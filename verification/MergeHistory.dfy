/**
 What holds of every history the merge log can reach, in terms of the history itself.
 */
module MergeHistory {
  import opened Wrappers
  import opened Domain
  import opened AliasForest
  import opened MergeLog

  // No two merges share an id, and none absorbs its own canonical entity.
  ghost predicate WellFormedRecords(s: LogState) {
    && (forall i, j :: 0 <= i < j < |s.merges| ==> s.merges[i].eventId != s.merges[j].eventId)
    && (forall i :: 0 <= i < |s.merges| ==> s.merges[i].canonical !in s.merges[i].merged)
  }

  // A merge in effect holds the alias entries of the entities it absorbed.
  ghost predicate MergesOwnEntries(s: LogState) {
    forall i, d :: InEffect(s, i) && d in s.merges[i].merged ==>
      d in s.aliasOf && s.aliasOf[d] == s.merges[i].canonical
  }

  ghost predicate EntriesHaveMerges(s: LogState) {
    forall d :: d in s.aliasOf ==> exists i :: InEffect(s, i) && d in s.merges[i].merged
  }

  // No entity is absorbed by two merges in effect.
  ghost predicate OneMergePerEntity(s: LogState) {
    forall i, j, d :: InEffect(s, i) && InEffect(s, j) && d in s.merges[i].merged && d in s.merges[j].merged ==> i == j
  }

  // The alias table is exactly the merges not undone, each entity under one parent, and a forest.
  ghost predicate Consistent(s: LogState) {
    && WellFormedRecords(s) && MergesOwnEntries(s) && EntriesHaveMerges(s) && OneMergePerEntity(s)
    && Forest(s.aliasOf)
  }

  lemma MergeKeepsEntries(s: LogState, ev: Event)
    requires MergesOwnEntries(s) && EntriesHaveMerges(s) && OneMergePerEntity(s) && ev.Merged? && Accepts(s, ev)
    ensures MergesOwnEntries(Apply(s, ev)) && EntriesHaveMerges(Apply(s, ev)) && OneMergePerEntity(Apply(s, ev))
  {
    hide Coherent, FreshId;
    var s', n := Apply(s, ev), |s.merges|;
    assert s'.merges[n] == RecordOf(ev, false);
    assert forall i :: 0 <= i < n ==> s'.merges[i] == s.merges[i];
    assert forall i :: InEffect(s', i) <==> InEffect(s, i) || i == n;
    assert MergesOwnEntries(s') && OneMergePerEntity(s');
    forall d | d in s'.aliasOf ensures exists i :: InEffect(s', i) && d in s'.merges[i].merged {
      if d in ev.merged {
        assert InEffect(s', n);
      } else {
        var i :| InEffect(s, i) && d in s.merges[i].merged;
        assert InEffect(s', i);
      }
    }
  }

  lemma MergeKeepsConsistent(s: LogState, ev: Event)
    requires Consistent(s) && ev.Merged? && Accepts(s, ev)
    ensures Consistent(Apply(s, ev))
  {
    MergeKeepsEntries(s, ev);
    AbsorbKeepsForest(s.aliasOf, ev.canonical, ev.merged);
  }

  // Undoing flags exactly the one record that carries the id.
  lemma UndoFlagsOneRecord(s: LogState, ev: Event) returns (u: nat)
    requires WellFormedRecords(s) && ev.Undone? && Accepts(s, ev)
    ensures InEffect(s, u) && ev == UndoOf(s.merges[u]) && s.merges[u].eventId == ev.mergeEventId
    ensures Apply(s, ev).merges == s.merges[u := s.merges[u].(undone := true)]
    ensures forall i :: InEffect(Apply(s, ev), i) <==> InEffect(s, i) && i != u
  {
    u :| InEffect(s, u) && s.merges[u].eventId == ev.mergeEventId && ev == UndoOf(s.merges[u]);
    var flagged := s.merges[u := s.merges[u].(undone := true)];
    assert forall i :: 0 <= i < |s.merges| ==> MarkUndone(s.merges, ev.mergeEventId)[i] == flagged[i];
  }

  lemma UndoKeepsEntries(s: LogState, ev: Event)
    requires Consistent(s) && ev.Undone? && Accepts(s, ev)
    ensures MergesOwnEntries(Apply(s, ev)) && EntriesHaveMerges(Apply(s, ev)) && OneMergePerEntity(Apply(s, ev))
  {
    hide Forest, WellFormedRecords, Accepts, MarkUndone;
    var s' := Apply(s, ev);
    var u := UndoFlagsOneRecord(s, ev);
    forall d | d in s'.aliasOf ensures exists i :: InEffect(s', i) && d in s'.merges[i].merged {
      var i :| InEffect(s, i) && d in s.merges[i].merged;
      assert InEffect(s', i);
    }
    forall i, d | InEffect(s', i) && d in s'.merges[i].merged
      ensures d in s'.aliasOf && s'.aliasOf[d] == s'.merges[i].canonical
    {
      assert InEffect(s, i) && InEffect(s, u);
    }
  }

  lemma UndoKeepsConsistent(s: LogState, ev: Event)
    requires Consistent(s) && ev.Undone? && Accepts(s, ev)
    ensures Consistent(Apply(s, ev))
  {
    var u := UndoFlagsOneRecord(s, ev);
    UndoKeepsEntries(s, ev);
    ReleaseKeepsForest(s.aliasOf, ev.unmerged);
  }

  // Every reachable log state is consistent.
  lemma {:induction false} LegalLogsAreConsistent(log: seq<Event>)
    requires Legal(log)
    ensures Consistent(Replay(log))
    decreases |log|
  {
    if log != [] {
      var before, ev := log[..|log| - 1], log[|log| - 1];
      LegalLogsAreConsistent(before);
      match ev
      case Extracted(_, _, _) =>
      case Merged(_, _, _, _, _) => MergeKeepsConsistent(Replay(before), ev);
      case Undone(_, _, _, _, _) => UndoKeepsConsistent(Replay(before), ev);
    }
  }

  // ----- the same facts about positions of the history, with no aggregate state

  ghost predicate UndoneLater(log: seq<Event>, p: int) {
    0 <= p < |log| && log[p].Merged?
    && exists q :: p < q < |log| && log[q].Undone? && log[q].mergeEventId == log[p].eventId
  }

  ghost predicate StandsAt(log: seq<Event>, p: int) {
    0 <= p < |log| && log[p].Merged? && !UndoneLater(log, p)
  }

  // The records are the merge events of the history, each flagged exactly when a later undo names it.
  ghost predicate RecordsMirror(log: seq<Event>, merges: seq<MergeRecord>) {
    && (forall p :: 0 <= p < |log| && log[p].Merged? ==> RecordOf(log[p], UndoneLater(log, p)) in merges)
    && (forall r :: r in merges ==> exists p :: 0 <= p < |log| && log[p].Merged? && r == RecordOf(log[p], UndoneLater(log, p)))
  }

  lemma UndoneLaterOneMore(log: seq<Event>, ev: Event, p: int)
    requires 0 <= p < |log| && log[p].Merged?
    ensures UndoneLater(log + [ev], p) <==>
            UndoneLater(log, p) || (ev.Undone? && ev.mergeEventId == log[p].eventId)
  {
    var longer := log + [ev];
    if UndoneLater(log, p) {
      var q :| p < q < |log| && log[q].Undone? && log[q].mergeEventId == log[p].eventId;
      assert longer[q] == log[q];
    }
    if ev.Undone? && ev.mergeEventId == log[p].eventId {
      assert longer[|log|] == ev;
    }
  }

  lemma {:induction false} RecordsMirrorHistory(log: seq<Event>)
    requires Legal(log)
    ensures RecordsMirror(log, Replay(log).merges)
    decreases |log|
  {
    if log != [] {
      var before, ev := log[..|log| - 1], log[|log| - 1];
      assert before + [ev] == log;
      RecordsMirrorHistory(before);
      var prior, later := Replay(before).merges, Replay(log).merges;
      forall p | 0 <= p < |log| && log[p].Merged? ensures RecordOf(log[p], UndoneLater(log, p)) in later {
        if p == |before| {
          assert later[|prior|] == RecordOf(ev, false);
          assert !UndoneLater(log, p);
        } else {
          UndoneLaterOneMore(before, ev, p);
          RecordAfter(before, ev, RecordOf(before[p], UndoneLater(before, p)));
        }
      }
      forall r | r in later ensures exists p :: 0 <= p < |log| && log[p].Merged? && r == RecordOf(log[p], UndoneLater(log, p)) {
        var k :| 0 <= k < |later| && later[k] == r;
        if k == |prior| {
          assert log[|before|].Merged? && !UndoneLater(log, |before|);
        } else {
          assert prior[k] in prior;
          var p :| 0 <= p < |before| && before[p].Merged? && prior[k] == RecordOf(before[p], UndoneLater(before, p));
          UndoneLaterOneMore(before, ev, p);
          assert log[p].Merged? && r == RecordOf(log[p], UndoneLater(log, p));
        }
      }
    }
  }

  lemma RecordAfter(log: seq<Event>, ev: Event, r: MergeRecord)
    requires r in Replay(log).merges
    ensures r.(undone := r.undone || (ev.Undone? && ev.mergeEventId == r.eventId)) in Apply(Replay(log), ev).merges
  {
    var prior, later := Replay(log).merges, Apply(Replay(log), ev).merges;
    var k :| 0 <= k < |prior| && prior[k] == r;
    assert later[k] == r.(undone := r.undone || (ev.Undone? && ev.mergeEventId == r.eventId));
  }

  // `alias_of` is the union of the merges not undone: an entity has a parent exactly when a
  // standing merge absorbed it, and that merge's canonical entity is the parent.
  lemma AliasesAreTheMergesNotUndone(log: seq<Event>, e: EntityId, c: EntityId)
    requires Legal(log)
    ensures (e in Replay(log).aliasOf && Replay(log).aliasOf[e] == c) <==>
            exists p :: StandsAt(log, p) && e in log[p].merged && log[p].canonical == c
  {
    hide Legal, Replay, Forest, OneMergePerEntity, WellFormedRecords;
    var s := Replay(log);
    LegalLogsAreConsistent(log);
    RecordsMirrorHistory(log);
    if e in s.aliasOf && s.aliasOf[e] == c {
      var i :| InEffect(s, i) && e in s.merges[i].merged;
      assert s.merges[i] in s.merges;
      var p :| 0 <= p < |log| && log[p].Merged? && s.merges[i] == RecordOf(log[p], UndoneLater(log, p));
      assert StandsAt(log, p);
    }
    if p :| StandsAt(log, p) && e in log[p].merged && log[p].canonical == c {
      assert RecordOf(log[p], UndoneLater(log, p)) in s.merges;
      var i :| 0 <= i < |s.merges| && s.merges[i] == RecordOf(log[p], UndoneLater(log, p));
      assert InEffect(s, i);
    }
  }

  // Two standing merges never absorb the same entity.
  lemma OneParentPerAlias(log: seq<Event>, p: int, q: int, e: EntityId)
    requires Legal(log) && StandsAt(log, p) && StandsAt(log, q)
    requires e in log[p].merged && e in log[q].merged
    ensures log[p].eventId == log[q].eventId && log[p].canonical == log[q].canonical
  {
    var s := Replay(log);
    LegalLogsAreConsistent(log);
    RecordsMirrorHistory(log);
    assert RecordOf(log[p], UndoneLater(log, p)) in s.merges && RecordOf(log[q], UndoneLater(log, q)) in s.merges;
    var i :| 0 <= i < |s.merges| && s.merges[i] == RecordOf(log[p], UndoneLater(log, p));
    var j :| 0 <= j < |s.merges| && s.merges[j] == RecordOf(log[q], UndoneLater(log, q));
    assert InEffect(s, i) && InEffect(s, j);
  }

  // Resolution in a reachable state ends on a non-alias within as many hops as there are aliases.
  lemma ResolutionTerminates(log: seq<Event>, e: EntityId)
    requires Legal(log)
    ensures var m := Replay(log).aliasOf;
            Walk(m, e, |m|) == Some(Resolve(m, e)) && Resolve(m, e) !in m
  {
    LegalLogsAreConsistent(log);
    ResolvesOffTheTable(Replay(log).aliasOf, e);
  }

  // The aggregate once popped an alias only while it still pointed at the undone merge's
  // canonical entity.  With that guard:
  function GuardedRelease(m: AliasTable, canonical: EntityId, ds: seq<EntityId>): AliasTable {
    map e | e in m && !(e in ds && m[e] == canonical) :: m[e]
  }

  // No legal history could tell the guarded pop from the unguarded one.
  lemma TheRemovedGuardWasUnreachable(log: seq<Event>, ev: Event)
    requires Legal(log) && ev.Undone? && Accepts(Replay(log), ev)
    ensures forall d :: d in ev.unmerged ==> d in Replay(log).aliasOf && Replay(log).aliasOf[d] == ev.canonical
    ensures GuardedRelease(Replay(log).aliasOf, ev.canonical, ev.unmerged) == Apply(Replay(log), ev).aliasOf
  {
    hide Legal, Replay, Forest, OneMergePerEntity, EntriesHaveMerges, Accepts;
    LegalLogsAreConsistent(log);
    var u := UndoFlagsOneRecord(Replay(log), ev);
  }
}
