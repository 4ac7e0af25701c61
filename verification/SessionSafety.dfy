/**
 * Safety over whole runs of the conversation controller: saves that fail before
 * or after they persist, crashes between any two effects, and reopening.
 */
module SessionSafety {
  import opened Prelude
  import opened Projection
  import opened SessionState
  import opened SessionMachine
  import opened SessionInvariant
  import opened SessionChanges

  // -------------------------------------------------------------------------
  // The system invariant
  // -------------------------------------------------------------------------

  /** Every dispatch is of a message whose start was saved, with the exchange that message owns. */
  ghost predicate Accounted(d: Dispatch, s: State) {
    && d.message < |s.entries|
    && d.message in DispatchKeys(s.journal)
    && (d.exchange.Some? <==> IsChat(s.entries[d.message]))
    && (d.exchange.Some? ==>
          && s.entries[d.message].admission.Some?
          && s.entries[d.message].admission.value.exchangeIndex == d.exchange.value
          && (s.mode == Recorded ==>
                d.exchange.value < |s.recording| && d.content == Some(s.recording[d.exchange.value])))
  }

  ghost predicate LogTracks(log: seq<Dispatch>, s: State) {
    && (forall i | 0 <= i < |log| :: Accounted(log[i], s))
    && (forall i, j | 0 <= i < j < |log| :: log[i].message != log[j].message)
  }

  ghost predicate FrameTracks(f: Frame, s: State) {
    match f
    case Idle => true
    case Revalidating(i, e) =>
      && i < |s.entries|
      && EntryValid(e) && e.status == Queued && e.kind == Review(true)
      && (s.entries[i] == e || s.entries[i] == e.(status := Cancelled))
      && i !in DispatchKeys(s.journal)
      && (forall c | 0 <= c < |s.compactions| :: s.compactions[c].through < i)
    case InFlight(i, e) =>
      i < |s.entries| && s.entries[i] == e.(status := Running)
  }

  /** A working controller agrees with the durable state; a broken one is only a shell. */
  ghost predicate LiveTracks(c: Controller, s: State) {
    && Shaped(c)
    && (c.busy <==> c.frame != Idle)
    && (!c.broken ==> c.state == s && c.cassette == s.recording && FrameTracks(c.frame, s))
  }

  ghost predicate Inv(sys: System) {
    && StateInv(sys.durable)
    && LogTracks(sys.log, sys.durable)
    && (sys.live.Some? ==> StateInv(sys.live.value.state) && LiveTracks(sys.live.value, sys.durable))
  }

  /** What never goes back from one durable state to a later one. */
  ghost predicate Later(s: State, s': State) {
    && s'.mode == s.mode
    && s.consumed <= s'.consumed
    && |s.entries| <= |s'.entries|
    && (forall i | 0 <= i < |s.entries| ::
          && s'.entries[i].text == s.entries[i].text
          && s'.entries[i].kind == s.entries[i].kind
          && s'.entries[i].steeringFor == s.entries[i].steeringFor
          && (s.entries[i].admission.Some? ==> s'.entries[i].admission == s.entries[i].admission)
          && (s.entries[i].memory.Some? ==> s'.entries[i].memory == s.entries[i].memory))
    && DispatchKeys(s.journal) <= DispatchKeys(s'.journal)
    && (s.mode == Recorded ==> PreservesPrefix(s.recording, s'.recording, s.consumed))
  }

  lemma LogKept(log: seq<Dispatch>, s: State, s': State)
    requires LogTracks(log, s) && Later(s, s') && AdmissionsValid(s.entries, s.consumed, s.revision)
    ensures LogTracks(log, s')
  {
    forall i | 0 <= i < |log| ensures Accounted(log[i], s') {
      assert Accounted(log[i], s);
      var d := log[i];
      if d.exchange.Some? && s.mode == Recorded {
        assert AdmissionValid(s.entries[d.message].admission.value, d.message, |s.entries|, s.consumed, s.revision);
        assert s'.recording[..s.consumed][d.exchange.value] == s.recording[..s.consumed][d.exchange.value];
      }
    }
  }

  // -------------------------------------------------------------------------
  // Saving a state that keeps the invariant
  // -------------------------------------------------------------------------

  function Next(s: State, entries: seq<Entry>, consumed: nat, journal: seq<Event>): State {
    Updated(s, entries, consumed).(journal := journal)
  }

  /** The three outcomes of a save that the validators admit. */
  ghost predicate SavedAs(c: Controller, target: State, save: Save, w: Written) {
    && (w.ok <==> save == Saved)
    && w.durable == (if save == RaisedUnsaved then c.state else target)
    && w.c == if save == Saved then c.(state := target) else c.(broken := true)
  }

  lemma UpdateAdmitted(c: Controller, entries: seq<Entry>, consumed: nat, journal: seq<Event>, save: Save)
    requires !c.broken
    requires EntriesInv(entries, consumed, c.state.revision + 1)
    requires CompactionsValid(c.state.compactions, entries, c.state.revision + 1)
    requires RecordingInv(Updated(c.state, entries, consumed))
    requires EventsMatch(c.state.journal, entries)
    requires forall e | e in c.state.journal :: e.revision <= c.state.revision
    requires JournalUpto(c.state.journal, c.state.entries, entries, c.state.revision + 1, |entries|) == journal
    requires JournalInv(journal, c.state.revision + 1) && JournalTracks(journal, entries)
    ensures StateInv(Next(c.state, entries, consumed, journal))
    ensures SavedAs(c, Next(c.state, entries, consumed, journal), save, Update(c, c.state, entries, consumed, save))
  {
    var updated := Updated(c.state, entries, consumed);
    InvariantProgresses(updated);
    JournalFits(journal, entries, c.state.revision + 1);
  }

  // The definitions stay folded in the lemmas that only put pieces together.

  lemma StateParts(s: State)
    requires StateInv(s)
    ensures EntriesInv(s.entries, s.consumed, s.revision) && OneRunning(s.entries)
    ensures AdmissionsValid(s.entries, s.consumed, s.revision)
    ensures CompactionsValid(s.compactions, s.entries, s.revision)
    ensures RecordingInv(s)
    ensures JournalInv(s.journal, s.revision) && JournalTracks(s.journal, s.entries)
    ensures forall e | e in s.journal :: e.revision <= s.revision
  {
  }

  lemma StopUnfolds(s: State, k: nat, e: Entry)
    requires Stops(s, k, e)
    ensures k < |s.entries|
    ensures StopState(s, k, e) == Next(s, s.entries[k := e], s.consumed, s.journal + [EndOf(k, e, s.revision + 1)])
  {
  }

  lemma StartUnfolds(s: State, k: nat, e: Entry)
    requires Starts(s, k, e)
    ensures k < |s.entries|
    ensures StartState(s, k, e)
            == Next(s, s.entries[k := e], SessionChanges.After(e, s.consumed),
                    s.journal + [Event(k, s.revision + 1, Dispatched)])
  {
  }

  lemma IdleUnfolds(s: State, entries: seq<Entry>)
    requires IdlesAll(s.entries, entries)
    ensures |s.entries| <= |entries|
    ensures IdleState(s, entries) == Next(s, entries, s.consumed, s.journal)
  {
  }

  lemma TracksMatch(events: seq<Event>, entries: seq<Entry>)
    requires JournalTracks(events, entries)
    ensures EventsMatch(events, entries)
  {
  }

  lemma SameRecording(s: State, entries: seq<Entry>)
    requires RecordingInv(s)
    ensures RecordingInv(Updated(s, entries, s.consumed))
  {
  }

  /** The event list before a change still matches the entries after it. */
  lemma StopOldMatches(s: State, k: nat, e: Entry)
    requires Stops(s, k, e) && JournalTracks(s.journal, s.entries)
    ensures EventsMatch(s.journal, s.entries[k := e])
  {
    StopKeys(s, k, e, DispatchKeys(s.journal), TerminalKeys(s.journal));
    MatchesKept(s.journal, s.entries, s.entries[k := e]);
  }

  function StopState(s: State, k: nat, e: Entry): State
    requires k < |s.entries|
  {
    Next(s, s.entries[k := e], s.consumed, s.journal + [EndOf(k, e, s.revision + 1)])
  }

  function StartState(s: State, k: nat, e: Entry): State
    requires k < |s.entries|
  {
    Next(s, s.entries[k := e], SessionChanges.After(e, s.consumed), s.journal + [Event(k, s.revision + 1, Dispatched)])
  }

  lemma UpdateStops(c: Controller, k: nat, e: Entry, save: Save)
    requires !c.broken && StateInv(c.state) && Stops(c.state, k, e)
    ensures StateInv(StopState(c.state, k, e))
    ensures SavedAs(c, StopState(c.state, k, e), save,
                    Update(c, c.state, c.state.entries[k := e], c.state.consumed, save))
  {
    hide *;
    var s := c.state;
    StateParts(s);
    StopUnfolds(s, k, e);
    SameRecording(s, s.entries[k := e]);
    StopEntries(s, k, e);
    StopCompactions(s, k, e);
    StopJournal(s, k, e);
    StopOldMatches(s, k, e);
    UpdateAdmitted(c, s.entries[k := e], s.consumed, s.journal + [EndOf(k, e, s.revision + 1)], save);
  }

  lemma StopLater(s: State, k: nat, e: Entry)
    requires Stops(s, k, e) && RecordingInv(s)
    ensures Later(s, StopState(s, k, e))
  {
    Appended(s.journal, EndOf(k, e, s.revision + 1));
  }

  lemma StartLater(s: State, k: nat, e: Entry)
    requires Starts(s, k, e) && RecordingInv(s)
    ensures Later(s, StartState(s, k, e))
  {
    Appended(s.journal, Event(k, s.revision + 1, Dispatched));
  }

  lemma StartOldMatches(s: State, k: nat, e: Entry)
    requires Starts(s, k, e) && JournalTracks(s.journal, s.entries)
    ensures EventsMatch(s.journal, s.entries[k := e])
  {
    MatchesKept(s.journal, s.entries, s.entries[k := e]);
  }

  lemma StartRecording(s: State, k: nat, e: Entry)
    requires k < |s.entries| && RecordingInv(s)
    requires IsChat(e) && s.mode == Recorded ==> s.consumed < |s.recording|
    ensures RecordingInv(Updated(s, s.entries[k := e], SessionChanges.After(e, s.consumed)))
  {
  }

  lemma UpdateStarts(c: Controller, k: nat, e: Entry, save: Save)
    requires !c.broken && StateInv(c.state) && Starts(c.state, k, e)
    requires IsChat(e) && c.state.mode == Recorded ==> c.state.consumed < |c.state.recording|
    ensures StateInv(StartState(c.state, k, e))
    ensures SavedAs(c, StartState(c.state, k, e), save,
                    Update(c, c.state, c.state.entries[k := e], SessionChanges.After(e, c.state.consumed), save))
  {
    hide *;
    var s := c.state;
    StateParts(s);
    StartUnfolds(s, k, e);
    StartRecording(s, k, e);
    StartEntries(s, k, e);
    StartCompactions(s, k, e);
    StartJournal(s, k, e);
    StartOldMatches(s, k, e);
    UpdateAdmitted(c, s.entries[k := e], SessionChanges.After(e, s.consumed),
                   s.journal + [Event(k, s.revision + 1, Dispatched)], save);
  }

  /** While a message is running, no other can start: the validator refuses before anything is saved. */
  lemma SecondStartRefused(c: Controller, k: nat, r: nat, e: Entry, consumed: nat, save: Save)
    requires k < |c.state.entries| && r < |c.state.entries| && r != k
    requires c.state.entries[r].status == Running && e.status == Running
    ensures Update(c, c.state, c.state.entries[k := e], consumed, save) == Written(c, c.state, false)
  {
    var entries' := c.state.entries[k := e];
    assert entries'[r].status == Running && entries'[k].status == Running;
    assert !OneRunning(entries') by {
      if k < r { } else { }
    }
  }

  function IdleState(s: State, entries: seq<Entry>): State {
    Next(s, entries, s.consumed, s.journal)
  }

  lemma UpdateIdles(c: Controller, entries: seq<Entry>, save: Save)
    requires !c.broken && StateInv(c.state)
    requires IdlesAll(c.state.entries, entries)
    requires EntriesInv(entries, c.state.consumed, c.state.revision + 1)
    requires forall i | 0 <= i < |c.state.entries| && Settled(c.state.entries[i].status) ::
               entries[i] == c.state.entries[i]
    ensures StateInv(IdleState(c.state, entries))
    ensures SavedAs(c, IdleState(c.state, entries), save, Update(c, c.state, entries, c.state.consumed, save))
  {
    hide *;
    var s := c.state;
    StateParts(s);
    IdleUnfolds(s, entries);
    SameRecording(s, entries);
    SameCompactions(s, entries);
    IdleJournal(s.journal, s.entries, entries, s.revision + 1);
    JournalLater(s.journal, s.revision);
    TracksMatch(s.journal, entries);
    UpdateAdmitted(c, entries, s.consumed, s.journal, save);
  }

  lemma JournalLater(events: seq<Event>, revision: nat)
    requires JournalInv(events, revision)
    ensures JournalInv(events, revision + 1)
  {
  }

  lemma IdleLater(s: State, entries: seq<Entry>)
    requires IdlesAll(s.entries, entries) && RecordingInv(s)
    requires forall i | 0 <= i < |s.entries| ::
               entries[i].text == s.entries[i].text && entries[i].steeringFor == s.entries[i].steeringFor
    ensures Later(s, IdleState(s, entries))
  {
    assert forall i | 0 <= i < |s.entries| :: Idles(s.entries[i], entries[i]);
  }
}
