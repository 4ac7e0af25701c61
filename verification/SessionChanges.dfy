/**
 * The four kinds of change a save can make to the entries: nothing starts or
 * stops, one message starts, the running message stops, a message is appended.
 * Each keeps the invariant of SessionInvariant and its journal.
 */
module SessionChanges {
  import opened Prelude
  import opened Projection
  import opened SessionState
  import opened SessionInvariant

  /** Nothing starts or stops: queued entries may be cancelled, memory may be bound, queued entries may be appended. */
  ghost predicate Idles(e: Entry, e': Entry) {
    && e'.kind == e.kind && e'.admission == e.admission
    && (e'.status == e.status || (e.status == Queued && e'.status == Cancelled))
    && (Settled(e.status) ==> ResultOf(e') == ResultOf(e))
    && (e.memory.Some? ==> e'.memory == e.memory)
  }

  ghost predicate IdlesAll(entries: seq<Entry>, entries': seq<Entry>) {
    && |entries| <= |entries'|
    && (forall i | 0 <= i < |entries| :: Idles(entries[i], entries'[i]))
    && (forall i | |entries| <= i < |entries'| :: entries'[i].status == Queued && entries'[i].admission.None?)
  }

  lemma IdleJournal(events: seq<Event>, entries: seq<Entry>, entries': seq<Entry>, revision: nat)
    requires JournalTracks(events, entries) && IdlesAll(entries, entries')
    ensures JournalUpto(events, entries, entries', revision, |entries'|) == events
    ensures JournalTracks(events, entries')
  {
    assert OnlyTurn(entries, entries', |entries'|) by {
      assert forall i | 0 <= i < |entries| :: Idles(entries[i], entries'[i]);
    }
    JournalOne(events, entries, entries', revision, |entries'|, |entries'|);
    assert forall i | 0 <= i < |entries| :: Idles(entries[i], entries'[i]);
    MatchesKept(events, entries, entries');
    forall i | |entries| <= i < |entries'| ensures i !in DispatchKeys(events) && i !in TerminalKeys(events) {
    }
  }

  // -------------------------------------------------------------------------
  // A message starts
  // -------------------------------------------------------------------------

  /** Entry k has never been dispatched and becomes the only running one. */
  ghost predicate Starts(s: State, k: nat, e: Entry) {
    && k < |s.entries|
    && s.entries[k].admission.None? && s.entries[k].memory.None?
    && s.entries[k].status in {Queued, Cancelled}
    && k !in DispatchKeys(s.journal)
    && (forall c | 0 <= c < |s.compactions| :: s.compactions[c].through < k)
    && (forall i | 0 <= i < |s.entries| :: s.entries[i].status != Running)
    && e.status == Running
    && EntryValid(e)
    && e.text == s.entries[k].text && e.kind == s.entries[k].kind && e.steeringFor == s.entries[k].steeringFor
    && e.admission == if IsChat(e) then Some(Admission(k, s.revision, |s.entries|, s.consumed)) else None
  }

  function After(e: Entry, consumed: nat): nat {
    if IsChat(e) then consumed + 1 else consumed
  }

  lemma StartAdmitted(s: State, k: nat, e: Entry)
    requires Starts(s, k, e)
    ensures var entries' := s.entries[k := e];
            && Admitted(entries') == Admitted(s.entries) + (if IsChat(e) then {k} else {})
            && |Admitted(entries')| == After(e, |Admitted(s.entries)|)
  {
    var entries' := s.entries[k := e];
    forall i | i in Admitted(entries')
      ensures i in Admitted(s.entries) + (if IsChat(e) then {k} else {})
    {
      if i != k { assert entries'[i] == s.entries[i]; }
    }
    forall i | i in Admitted(s.entries) ensures i in Admitted(entries') {
      assert entries'[i] == s.entries[i];
    }
    assert k !in Admitted(s.entries);
  }

  lemma StartAdmissions(s: State, k: nat, e: Entry)
    requires Starts(s, k, e) && AdmissionsValid(s.entries, s.consumed, s.revision)
    ensures AdmissionsValid(s.entries[k := e], After(e, s.consumed), s.revision + 1)
  {
    var entries' := s.entries[k := e];
    forall i | 0 <= i < |entries'| && entries'[i].admission.Some?
      ensures AdmissionValid(entries'[i].admission.value, i, |entries'|, After(e, s.consumed), s.revision + 1)
    {
    }
  }

  lemma StartEntries(s: State, k: nat, e: Entry)
    requires Starts(s, k, e) && EntriesInv(s.entries, s.consumed, s.revision)
    ensures EntriesInv(s.entries[k := e], After(e, s.consumed), s.revision + 1)
  {
    StartAdmissions(s, k, e);
    StartAdmitted(s, k, e);
    StartMarked(s, k, e);
  }

  lemma StartMarked(s: State, k: nat, e: Entry)
    requires Starts(s, k, e) && Marked(s.entries) && Steered(s.entries)
    ensures Marked(s.entries[k := e]) && Steered(s.entries[k := e]) && OneRunning(s.entries[k := e])
  {
    var entries' := s.entries[k := e];
    forall i | 0 <= i < |entries'| && entries'[i].steeringFor.Some?
      ensures entries'[i].steeringFor.value < i && entries'[entries'[i].steeringFor.value].admission.Some?
    {
      assert entries'[i].steeringFor == s.entries[i].steeringFor;
    }
  }

  lemma StartKeys(s: State, k: nat, e: Entry, dispatched: set<nat>, ended: set<nat>)
    requires Starts(s, k, e) && Keyed(dispatched, ended, s.entries) && k !in dispatched
    ensures Keyed(dispatched + {k}, ended, s.entries[k := e])
  {
    assert k !in ended;
  }

  lemma StartMatches(s: State, k: nat, e: Entry, event: Event)
    requires Starts(s, k, e) && JournalTracks(s.journal, s.entries)
    requires event.key == k && event.phase.Dispatched?
    ensures EventsMatch(s.journal + [event], s.entries[k := e])
  {
    MatchesKept(s.journal, s.entries, s.entries[k := e]);
    MatchesMore(s.journal, event, s.entries[k := e]);
  }

  lemma StartEvent(s: State, k: nat, e: Entry)
    requires Starts(s, k, e)
    ensures JournalUpto(s.journal, s.entries, s.entries[k := e], s.revision + 1, |s.entries|)
            == s.journal + [Event(k, s.revision + 1, Dispatched)]
  {
    assert OnlyTurn(s.entries, s.entries[k := e], k);
    JournalOne(s.journal, s.entries, s.entries[k := e], s.revision + 1, |s.entries|, k);
  }

  lemma StartJournal(s: State, k: nat, e: Entry)
    requires Starts(s, k, e) && JournalInv(s.journal, s.revision) && JournalTracks(s.journal, s.entries)
    ensures var entries' := s.entries[k := e];
            var journal' := s.journal + [Event(k, s.revision + 1, Dispatched)];
            && JournalUpto(s.journal, s.entries, entries', s.revision + 1, |entries'|) == journal'
            && JournalInv(journal', s.revision + 1)
            && JournalTracks(journal', entries')
  {
    hide EventsMatch, Keyed, JournalInv, DispatchKeys, TerminalKeys, EntryValid;
    var event := Event(k, s.revision + 1, Dispatched);
    StartEvent(s, k, e);
    JournalGrows(s.journal, s.revision, event);
    Appended(s.journal, event);
    StartMatches(s, k, e, event);
    StartKeys(s, k, e, DispatchKeys(s.journal), TerminalKeys(s.journal));
    assert TerminalKeys(s.journal + [event]) == TerminalKeys(s.journal);
  }

  // -------------------------------------------------------------------------
  // The running message stops
  // -------------------------------------------------------------------------

  ghost predicate Stops(s: State, k: nat, e: Entry) {
    && k < |s.entries|
    && s.entries[k].status == Running
    && Settled(e.status)
    && Quiet(s.entries[k], e)
  }

  lemma StopEntries(s: State, k: nat, e: Entry)
    requires Stops(s, k, e) && EntriesInv(s.entries, s.consumed, s.revision)
    ensures EntriesInv(s.entries[k := e], s.consumed, s.revision + 1)
  {
    var entries' := s.entries[k := e];
    forall i | 0 <= i < |s.entries| ensures Quiet(s.entries[i], entries'[i]) {
      if i != k { assert entries'[i] == s.entries[i]; }
    }
    QuietKeeps(s.entries, entries', s.consumed, s.revision);
  }

  lemma StopKeys(s: State, k: nat, e: Entry, dispatched: set<nat>, ended: set<nat>)
    requires Stops(s, k, e) && Keyed(dispatched, ended, s.entries)
    ensures k in dispatched && k !in ended
    ensures Keyed(dispatched, ended + {k}, s.entries[k := e])
  {
  }

  /** The journal event of a message that stops. */
  function EndOf(k: nat, e: Entry, revision: nat): Event {
    Event(k, revision,
          if e.status == Completed || (!IsChat(e) && e.answer.Some?) then Completion(ResultOf(e)) else Uncertain)
  }

  lemma StopMatches(s: State, k: nat, e: Entry)
    requires Stops(s, k, e) && JournalTracks(s.journal, s.entries)
    ensures EventsMatch(s.journal + [EndOf(k, e, s.revision + 1)], s.entries[k := e])
  {
    StopKeys(s, k, e, DispatchKeys(s.journal), TerminalKeys(s.journal));
    MatchesKept(s.journal, s.entries, s.entries[k := e]);
    MatchesMore(s.journal, EndOf(k, e, s.revision + 1), s.entries[k := e]);
  }

  lemma StopEvent(s: State, k: nat, e: Entry)
    requires Stops(s, k, e)
    requires k in DispatchKeys(s.journal) && k !in TerminalKeys(s.journal)
    requires OneRunning(s.entries)
    ensures JournalUpto(s.journal, s.entries, s.entries[k := e], s.revision + 1, |s.entries|)
            == s.journal + [EndOf(k, e, s.revision + 1)]
  {
    assert OnlyTurn(s.entries, s.entries[k := e], k);
    JournalOne(s.journal, s.entries, s.entries[k := e], s.revision + 1, |s.entries|, k);
  }

  lemma StopJournal(s: State, k: nat, e: Entry)
    requires Stops(s, k, e) && OneRunning(s.entries)
    requires JournalInv(s.journal, s.revision) && JournalTracks(s.journal, s.entries)
    ensures var entries' := s.entries[k := e];
            var journal' := s.journal + [EndOf(k, e, s.revision + 1)];
            && JournalUpto(s.journal, s.entries, entries', s.revision + 1, |entries'|) == journal'
            && JournalInv(journal', s.revision + 1)
            && JournalTracks(journal', entries')
  {
    hide EventsMatch, Keyed, JournalInv, OneRunning, DispatchKeys, TerminalKeys, Quiet;
    var event := EndOf(k, e, s.revision + 1);
    StopKeys(s, k, e, DispatchKeys(s.journal), TerminalKeys(s.journal));
    StopEvent(s, k, e);
    JournalGrows(s.journal, s.revision, event);
    Appended(s.journal, event);
    StopMatches(s, k, e);
    assert DispatchKeys(s.journal + [event]) == DispatchKeys(s.journal);
    assert TerminalKeys(s.journal + [event]) == TerminalKeys(s.journal) + {k};
  }

  lemma StopCompactions(s: State, k: nat, e: Entry)
    requires Stops(s, k, e) && CompactionsValid(s.compactions, s.entries, s.revision)
    ensures CompactionsValid(s.compactions, s.entries[k := e], s.revision + 1)
  {
    forall c, i | 0 <= c < |s.compactions| && 0 <= i <= s.compactions[c].through
      ensures i < |s.entries| && s.entries[k := e][i] == s.entries[i]
    {
      CoveredSettled(s.compactions, s.entries, s.revision, c, i);
    }
    CompactionsKept(s.compactions, s.entries, s.entries[k := e], s.revision);
  }

  lemma StartCompactions(s: State, k: nat, e: Entry)
    requires Starts(s, k, e) && CompactionsValid(s.compactions, s.entries, s.revision)
    ensures CompactionsValid(s.compactions, s.entries[k := e], s.revision + 1)
  {
    forall c, i | 0 <= c < |s.compactions| && 0 <= i <= s.compactions[c].through
      ensures i < |s.entries| && s.entries[k := e][i] == s.entries[i]
    {
      CoveredSettled(s.compactions, s.entries, s.revision, c, i);
    }
    CompactionsKept(s.compactions, s.entries, s.entries[k := e], s.revision);
  }

  // -------------------------------------------------------------------------
  // A message is appended; queued messages are cancelled
  // -------------------------------------------------------------------------

  /** A new queued entry, steering at most a running chat. */
  ghost predicate Appendable(entries: seq<Entry>, e: Entry) {
    && EntryValid(e) && e.status == Queued
    && (e.steeringFor.Some? ==>
          e.steeringFor.value < |entries| && IsChat(entries[e.steeringFor.value])
          && entries[e.steeringFor.value].status == Running)
  }

  lemma AppendAdmissions(entries: seq<Entry>, e: Entry, consumed: nat, revision: nat)
    requires e.admission.None? && AdmissionsValid(entries, consumed, revision)
    ensures AdmissionsValid(entries + [e], consumed, revision + 1)
    ensures Admitted(entries + [e]) == Admitted(entries)
  {
    var entries' := entries + [e];
    assert forall i | 0 <= i < |entries| :: entries'[i] == entries[i];
    forall i | 0 <= i < |entries'| && entries'[i].admission.Some?
      ensures AdmissionValid(entries'[i].admission.value, i, |entries'|, consumed, revision + 1)
    {
    }
  }

  lemma AppendEntries(entries: seq<Entry>, e: Entry, consumed: nat, revision: nat)
    requires Appendable(entries, e) && |entries| < MAX_ENTRIES
    requires EntriesInv(entries, consumed, revision)
    ensures EntriesInv(entries + [e], consumed, revision + 1)
  {
    AppendAdmissions(entries, e, consumed, revision);
    var entries' := entries + [e];
    assert forall i | 0 <= i < |entries| :: entries'[i] == entries[i];
    assert Marked(entries');
    assert Steered(entries') by {
      forall i | 0 <= i < |entries'| && entries'[i].steeringFor.Some?
        ensures entries'[i].steeringFor.value < i && entries'[entries'[i].steeringFor.value].admission.Some?
      {
        if i < |entries| { assert entries'[i] == entries[i]; }
      }
    }
  }

  lemma AppendIdles(entries: seq<Entry>, e: Entry)
    requires e.status == Queued && e.admission.None?
    ensures IdlesAll(entries, entries + [e])
  {
    forall i | 0 <= i < |entries| ensures Idles(entries[i], (entries + [e])[i]) {
      assert (entries + [e])[i] == entries[i];
    }
  }

  lemma SameCompactions(s: State, entries': seq<Entry>)
    requires CompactionsValid(s.compactions, s.entries, s.revision)
    requires |s.entries| <= |entries'|
    requires forall i | 0 <= i < |s.entries| && Settled(s.entries[i].status) :: entries'[i] == s.entries[i]
    ensures CompactionsValid(s.compactions, entries', s.revision + 1)
  {
    forall c, i | 0 <= c < |s.compactions| && 0 <= i <= s.compactions[c].through
      ensures i < |s.entries| && entries'[i] == s.entries[i]
    {
      CoveredSettled(s.compactions, s.entries, s.revision, c, i);
    }
    CompactionsKept(s.compactions, s.entries, entries', s.revision);
  }
}
