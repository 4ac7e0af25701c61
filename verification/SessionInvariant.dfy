/**
 * What every reachable saved state satisfies, and that each kind of change the
 * controller makes to the entries keeps it and passes the validators.
 */
module SessionInvariant {
  import opened Prelude
  import opened Projection
  import opened SessionState

  // -------------------------------------------------------------------------
  // The invariant
  // -------------------------------------------------------------------------

  predicate Attempt(s: Status) {
    s != Queued && s != Cancelled
  }

  /** Every attempted chat carries its admission. */
  ghost predicate Marked(entries: seq<Entry>) {
    forall i | 0 <= i < |entries| ::
      EntryValid(entries[i]) && (IsChat(entries[i]) && Attempt(entries[i].status) ==> entries[i].admission.Some?)
  }

  /** Steering points strictly backwards, to a chat that was dispatched. */
  ghost predicate Steered(entries: seq<Entry>) {
    forall i | 0 <= i < |entries| && entries[i].steeringFor.Some? ::
      entries[i].steeringFor.value < i && entries[entries[i].steeringFor.value].admission.Some?
  }

  function Admitted(entries: seq<Entry>): set<nat> {
    set i: nat | 0 <= i < |entries| && entries[i].admission.Some?
  }

  ghost predicate EntriesInv(entries: seq<Entry>, consumed: nat, revision: nat) {
    && |entries| <= MAX_ENTRIES
    && Marked(entries)
    && Steered(entries)
    && AdmissionsValid(entries, consumed, revision)
    && consumed == |Admitted(entries)|
    && OneRunning(entries)
  }

  /** One dispatch for each started message and one end for each that is over. */
  ghost predicate Keyed(dispatched: set<nat>, ended: set<nat>, entries: seq<Entry>) {
    forall i | 0 <= i < |entries| ::
      && (i in dispatched ==> entries[i].status != Queued)
      && (IsChat(entries[i]) ==> (i in dispatched <==> entries[i].admission.Some?))
      && (Attempt(entries[i].status) ==> i in dispatched)
      && (i in ended <==> i in dispatched && entries[i].status != Running)
  }

  ghost predicate JournalTracks(events: seq<Event>, entries: seq<Entry>) {
    EventsMatch(events, entries) && Keyed(DispatchKeys(events), TerminalKeys(events), entries)
  }

  ghost predicate JournalInv(events: seq<Event>, revision: nat) {
    && Ordered(events)
    && LastRevision(events) <= revision
    && (forall e | e in events :: 1 <= e.revision <= revision)
    && |events| == |DispatchKeys(events)| + |TerminalKeys(events)|
  }

  ghost predicate RecordingInv(s: State) {
    RecordingValid(s) && (s.mode == Recorded ==> s.consumed <= |s.recording|)
  }

  ghost predicate StateInv(s: State) {
    && EntriesInv(s.entries, s.consumed, s.revision)
    && CompactionsValid(s.compactions, s.entries, s.revision)
    && RecordingInv(s)
    && JournalInv(s.journal, s.revision)
    && JournalTracks(s.journal, s.entries)
  }

  // -------------------------------------------------------------------------
  // Counting
  // -------------------------------------------------------------------------

  /** The two ways the validator counts attempts agree with the admissions. */
  lemma CountsAgree(entries: seq<Entry>)
    requires Marked(entries) && Steered(entries)
    ensures CountValid(entries, |Admitted(entries)|)
  {
    var attempted, cancelled := Attempted(entries), AttemptedThenCancelled(entries);
    forall i | i in Admitted(entries) ensures i in attempted + cancelled {
      assert EntryValid(entries[i]);
    }
    forall i | i in attempted + cancelled ensures i in Admitted(entries) {
      if i in cancelled && i in Targets(entries) {
        var k :| 0 <= k < |entries| && entries[k].steeringFor.Some? && entries[k].steeringFor.value == i;
      }
    }
    assert Admitted(entries) == attempted + cancelled;
    assert attempted !! cancelled;
    forall i | i in Admitted(entries) ensures i in Started(entries) {
      assert EntryValid(entries[i]);
    }
    SubsetSize(Admitted(entries), Started(entries));
  }

  // -------------------------------------------------------------------------
  // The validators admit every state that satisfies the invariant
  // -------------------------------------------------------------------------

  lemma ConsumedBounded(entries: seq<Entry>)
    ensures |Admitted(entries)| <= |entries|
  {
    Below(|entries|, Admitted(entries));
  }

  lemma SteeredValid(entries: seq<Entry>)
    requires Marked(entries) && Steered(entries)
    ensures SteeringValid(entries)
  {
    forall i | 0 <= i < |entries| && entries[i].steeringFor.Some?
      ensures entries[i].steeringFor.value < i
      ensures entries[entries[i].steeringFor.value].status != Queued
      ensures IsChat(entries[entries[i].steeringFor.value])
    {
      assert EntryValid(entries[entries[i].steeringFor.value]);
    }
  }

  /** No validator check can fail on entries, counts, links and lineage that keep the invariant. */
  lemma InvariantProgresses(s: State)
    requires EntriesInv(s.entries, s.consumed, s.revision)
    requires CompactionsValid(s.compactions, s.entries, s.revision) && RecordingValid(s)
    requires forall e | e in s.journal :: e.revision <= s.revision
    requires EventsMatch(s.journal, s.entries)
    ensures Progress(s)
  {
    ConsumedBounded(s.entries);
    CountsAgree(s.entries);
    SteeredValid(s.entries);
  }

  lemma JournalFits(events: seq<Event>, entries: seq<Entry>, revision: nat)
    requires |entries| <= MAX_ENTRIES
    requires JournalInv(events, revision) && EventsMatch(events, entries)
    ensures JournalAdmits(events, revision)
  {
    Below(MAX_ENTRIES, DispatchKeys(events));
    Below(MAX_ENTRIES, TerminalKeys(events));
  }

  // -------------------------------------------------------------------------
  // Changes that leave every attempt where it was
  // -------------------------------------------------------------------------

  /** One entry moves on without a new attempt. */
  ghost predicate Quiet(e: Entry, e': Entry) {
    && e'.text == e.text && e'.kind == e.kind && e'.steeringFor == e.steeringFor && e'.admission == e.admission
    && EntryValid(e')
    && (e'.status == e.status
        || (e.status == Queued && e'.status == Cancelled)
        || (e.status == Running && Settled(e'.status)))
    && (e'.status == e.status ==> e'.answer == e.answer)
    && (e.memory.Some? ==> e'.memory == e.memory)
  }

  ghost predicate QuietAll(entries: seq<Entry>, entries': seq<Entry>) {
    |entries'| == |entries| && forall i | 0 <= i < |entries| :: Quiet(entries[i], entries'[i])
  }

  lemma QuietAdmissions(entries: seq<Entry>, entries': seq<Entry>, consumed: nat, revision: nat)
    requires QuietAll(entries, entries') && AdmissionsValid(entries, consumed, revision)
    ensures AdmissionsValid(entries', consumed, revision + 1)
    ensures Admitted(entries') == Admitted(entries)
  {
    assert forall i | 0 <= i < |entries| :: entries'[i].admission == entries[i].admission;
  }

  lemma QuietKeeps(entries: seq<Entry>, entries': seq<Entry>, consumed: nat, revision: nat)
    requires QuietAll(entries, entries') && EntriesInv(entries, consumed, revision)
    ensures EntriesInv(entries', consumed, revision + 1)
  {
    QuietAdmissions(entries, entries', consumed, revision);
    assert forall i | 0 <= i < |entries| :: Quiet(entries[i], entries'[i]);
  }

  /** A compaction survives any change that leaves settled entries as they are. */
  lemma CompactionsKept(compactions: seq<Lineage>, entries: seq<Entry>, entries': seq<Entry>, revision: nat)
    requires CompactionsValid(compactions, entries, revision)
    requires |entries| <= |entries'|
    requires forall k, i | 0 <= k < |compactions| && 0 <= i <= compactions[k].through ::
               i < |entries| && entries'[i] == entries[i]
    ensures CompactionsValid(compactions, entries', revision + 1)
  {
    forall k | 0 <= k < |compactions| ensures Reconstructs(compactions[k], entries', revision + 1) {
      assert Reconstructs(compactions[k], entries, revision);
      assert BindingsOf(entries', compactions[k].through) == BindingsOf(entries, compactions[k].through);
    }
  }

  /** The entries a compaction covers are settled. */
  lemma CoveredSettled(compactions: seq<Lineage>, entries: seq<Entry>, revision: nat, k: nat, i: nat)
    requires CompactionsValid(compactions, entries, revision)
    requires k < |compactions| && i <= compactions[k].through
    ensures i < |entries| && Settled(entries[i].status)
  {
    assert Reconstructs(compactions[k], entries, revision);
  }

  // -------------------------------------------------------------------------
  // The journal of a change
  // -------------------------------------------------------------------------

  /** Only entry k starts or stops running. */
  ghost predicate OnlyTurn(before: seq<Entry>, after: seq<Entry>, k: nat) {
    && |before| <= |after|
    && (forall i | 0 <= i < |after| && i != k ::
          after[i].status == Running <==> i < |before| && before[i].status == Running)
  }

  lemma {:induction false} JournalOne(
      events: seq<Event>, before: seq<Entry>, after: seq<Entry>, revision: nat, n: nat, k: nat)
    requires n <= |after| && OnlyTurn(before, after, k)
    ensures JournalUpto(events, before, after, revision, n)
            == events + if k < n then Change(events, before, after, revision, k) else []
    decreases n
  {
    if n > 0 {
      JournalOne(events, before, after, revision, n - 1, k);
    }
  }

  lemma Appended(events: seq<Event>, e: Event)
    ensures (events + [e])[..|events + [e]| - 1] == events
    ensures DispatchKeys(events + [e]) == DispatchKeys(events) + if e.phase.Dispatched? then {e.key} else {}
    ensures TerminalKeys(events + [e]) == TerminalKeys(events) + if e.phase.Dispatched? then {} else {e.key}
  {
    var more := events + [e];
    assert more[..|more| - 1] == events;
    forall x | x in events ensures x in more {}
    assert e in more by { assert more[|events|] == e; }
    forall x | x in more ensures x in events || x == e {}
  }

  /** Appending the dispatch of a new operation, or the end of an open one, keeps the journal sound. */
  lemma JournalGrows(events: seq<Event>, revision: nat, e: Event)
    requires JournalInv(events, revision) && e.revision == revision + 1
    requires if e.phase.Dispatched? then e.key !in DispatchKeys(events)
             else e.key in DispatchKeys(events) && e.key !in TerminalKeys(events)
    ensures JournalInv(events + [e], revision + 1)
  {
    Appended(events, e);
    var more := events + [e];
    assert Ordered(more);
    forall x | x in more ensures 1 <= x.revision <= revision + 1 {
      if x !in events { assert x == e; }
    }
  }

  lemma MatchesMore(events: seq<Event>, e: Event, entries: seq<Entry>)
    requires EventsMatch(events, entries)
    requires e.key < |entries| && (e.phase.Completion? ==> e.phase.result == ResultOf(entries[e.key]))
    ensures EventsMatch(events + [e], entries)
  {
    forall x | x in events + [e]
      ensures x.key < |entries| && (x.phase.Completion? ==> x.phase.result == ResultOf(entries[x.key]))
    {
      if x !in events { assert x == e; }
    }
  }

  /** Old completions still match: a settled entry keeps its result. */
  lemma MatchesKept(events: seq<Event>, entries: seq<Entry>, entries': seq<Entry>)
    requires EventsMatch(events, entries) && JournalTracks(events, entries)
    requires |entries| <= |entries'|
    requires forall i | 0 <= i < |entries| && i in TerminalKeys(events) :: ResultOf(entries'[i]) == ResultOf(entries[i])
    ensures EventsMatch(events, entries')
  {
  }
}
