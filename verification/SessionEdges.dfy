/**
 * Edges of the conversation controller: only a failed save breaks it, a message
 * left running with nothing in flight blocks every later dispatch until the
 * session is reopened, exactly when refreshes and compactions are accepted, and a
 * cancelled review that runs.
 */
module SessionEdges {
  import opened Prelude
  import opened Projection
  import opened SessionState
  import opened SessionMachine
  import opened SessionInvariant
  import opened SessionChanges
  import opened SessionSafety
  import opened SessionRuns
  import opened SessionTheorems
  import opened SessionOutcomes

  // -------------------------------------------------------------------------
  // Only a failed save breaks a controller
  // -------------------------------------------------------------------------

  predicate EverySaveWorks(a: Action) {
    match a
    case Crash => true
    case Open(_, save) => save == Saved
    case Submit(_, save) => save == Saved
    case SubmitReview(_, save) => save == Saved
    case CancelQueued(save) => save == Saved
    case RefreshMemory(_, _, save) => save == Saved
    case CompactAuthor(_, _, _, save) => save == Saved
    case Step(_, save, gate) => save == Saved && (gate.Refuse? ==> gate.save == Saved)
    case ResumeRevalidated(_, _, save, gate) => save == Saved && (gate.Refuse? ==> gate.save == Saved)
    case Settle(_, save) => save == Saved
  }

  lemma LaunchUnbroken(sys: System, c: Controller, index: nat, e: Entry, admits: bool, gate: Gate)
    requires Inv(sys) && sys.live == Some(c) && Selectable(c.state, index, e) && !c.broken
    requires gate.Refuse? ==> gate.save == Saved
    ensures index < |c.state.entries|
    ensures !IsBroken(Launch(sys, c, index, e, admits, Saved, gate).sys)
  {
    hide Inv, StateInv, Starts, StartState, LaunchWrite, Launch, Begun, Admit, Update, Stops, StopState, DispatchOf;
    SelectablePlace(c.state, index, e);
    if Blocked(sys, c, index, e, admits) {
      BlockedLaunch(sys, c, index, e, admits, Saved, gate);
    } else {
      AdmittedLaunch(sys, c, index, e, admits, Saved, gate);
      BegunParts(sys, c, index, e);
      BegunInv(sys, c, index, e);
      if gate.Refuse? {
        var w := LaunchWrite(sys, c, index, e, Saved);
        var failed := Admit(c, index, e).(status := Failed);
        FailStops(w.durable, index, Admit(c, index, e), failed);
        UpdateStops(w.c, index, failed, gate.save);
      }
    }
  }

  lemma SelectablePlace(s: State, index: nat, e: Entry)
    requires Selectable(s, index, e)
    ensures index < |s.entries|
  {
  }

  lemma SettleUnbroken(sys: System, c: Controller, outcome: Outcome)
    requires Inv(sys) && sys.live == Some(c) && !c.broken
    ensures Shaped(c)
    ensures !IsBroken(DoSettle(sys, c, outcome, Saved).sys)
  {
    hide StateInv, Update, Stops, StopState, LogTracks;
    if c.frame.InFlight? && !outcome.Escaped? {
      FinishStops(c.state, c.frame.index, c.frame.entry, outcome);
      UpdateStops(c, c.frame.index, Finished(c.frame.entry, outcome), Saved);
    }
  }

  lemma OpenUnbroken(sys: System, cassette: seq<Exchange>)
    requires Inv(sys) && sys.live.None?
    ensures !IsBroken(DoOpen(sys, cassette, Saved).sys)
  {
    hide Update, StateInv, LogTracks, Advances, Each;
    var s := sys.durable;
    if cassette == s.recording && AnyRunning(s.entries) {
      var k :| 0 <= k < |s.entries| && s.entries[k].status == Running;
      OpenInterrupts(sys, Controller(s, cassette, false, false, Idle), k, Saved);
    }
  }

  lemma AppendUnbroken(sys: System, c: Controller, e: Entry)
    requires Inv(sys) && sys.live == Some(c) && !c.broken && Appendable(c.state.entries, e)
    ensures !IsBroken(DoAppend(sys, c, e, Saved).sys)
  {
    hide Update, StateInv, LogTracks, FrameTracks, Appendable;
    if |c.state.entries| >= MAX_ENTRIES {
      FullRefuses(c, e, Saved);
    } else {
      AppendTarget(c, e, Saved);
    }
  }

  lemma SubmitUnbroken(sys: System, c: Controller, text: string)
    requires Inv(sys) && sys.live == Some(c) && !c.broken
    ensures !IsBroken(DoSubmit(sys, c, text, Saved).sys)
  {
    hide DoAppend, StateInv, LogTracks, FrameTracks;
    if !Blank(text) {
      FirstFound(c.state.entries, IsActiveChat, 0);
      AppendUnbroken(sys, c, ChatEntry(text, ActiveChatIndex(c.state.entries)));
    }
  }

  lemma RefreshUnbroken(sys: System, c: Controller, memory: Option<string>, cassette: seq<Exchange>)
    requires Inv(sys) && sys.live == Some(c) && !c.broken
    ensures !IsBroken(DoRefresh(sys, c, memory, cassette, Saved).sys)
  {
    hide Commit, Refreshed, StateInv, LogTracks, Progress, PreservesPrefix, AnyRunning;
    WorkingState(sys, c);
    LiveState(sys, c);
    if Progress(Refreshed(c.state, memory, cassette))
       && (c.state.mode == Recorded ==> PreservesPrefix(c.cassette, cassette, c.state.consumed)) {
      RefreshedInv(c.state, memory, cassette);
      RefreshedJournal(c.state, memory, cassette);
      CommitsAs(c, Refreshed(c.state, memory, cassette), Saved);
    }
  }

  lemma RefreshedJournal(s: State, memory: Option<string>, cassette: seq<Exchange>)
    ensures Refreshed(s, memory, cassette).journal == s.journal
  {
  }

  lemma CompactUnbroken(sys: System, c: Controller, id: string, through: nat, fits: bool)
    requires Inv(sys) && sys.live == Some(c) && !c.broken
    ensures !IsBroken(DoCompact(sys, c, id, through, fits, Saved).sys)
  {
    hide Commit, StateInv, LogTracks, Progress, AnyPending;
    WorkingState(sys, c);
    LiveState(sys, c);
    if through < |c.state.entries| && Progress(WithCompaction(c.state, id, through)) {
      CompactedInv(c.state, id, through);
      CommitsAs(c, WithCompaction(c.state, id, through), Saved);
    }
  }

  /** No validator and no journal check ever breaks a working controller: only a raising save does. */
  lemma OnlySavesBreak(sys: System, a: Action)
    requires Inv(sys) && !IsBroken(sys) && EverySaveWorks(a)
    ensures WellShaped(sys)
    ensures !IsBroken(Apply(sys, a).sys)
  {
    hide Inv, StateInv, DoOpen, DoSubmit, DoAppend, DoCancel, DoRefresh, DoCompact, DoSettle, Launch, Selectable;
    if sys.live.None? {
      if a.Open? { OpenUnbroken(sys, a.cassette); }
    } else {
      var c := sys.live.value;
      LiveState(sys, c);
      match a
      case Open(_, _) =>
      case Crash =>
      case Submit(text, _) => SubmitUnbroken(sys, c, text);
      case SubmitReview(gitScoped, _) => AppendUnbroken(sys, c, ReviewEntry(gitScoped));
      case CancelQueued(_) => CancelUnbroken(sys, c);
      case RefreshMemory(memory, cassette, _) => RefreshUnbroken(sys, c, memory, cassette);
      case CompactAuthor(id, through, fits, _) => CompactUnbroken(sys, c, id, through, fits);
      case Settle(outcome, _) => SettleUnbroken(sys, c, outcome);
      case Step(admits, _, gate) =>
        if !c.busy && NextQueued(c.state.entries).Some? {
          var i := NextQueued(c.state.entries).value;
          FirstFound(c.state.entries, IsQueued, 0);
          NextSelectable(c.state, i);
          LaunchUnbroken(sys, c, i, c.state.entries[i], admits, gate);
        }
      case ResumeRevalidated(ok, admits, _, gate) =>
        if c.frame.Revalidating? {
          FrameSelects(sys, c);
          LaunchUnbroken(sys, c, c.frame.index, c.frame.entry, admits, gate);
        }
    }
  }

  lemma CancelUnbroken(sys: System, c: Controller)
    requires Inv(sys) && sys.live == Some(c) && !c.broken
    ensures !IsBroken(DoCancel(sys, c, Saved).sys)
  {
    hide Update, StateInv, LogTracks, Each;
    WorkingState(sys, c);
    LiveState(sys, c);
    CancelTarget(c, Saved);
  }

  // -------------------------------------------------------------------------
  // A message left running
  // -------------------------------------------------------------------------

  /** A message is marked running but nothing is in flight for it. */
  ghost predicate Stuck(sys: System) {
    && sys.live.Some?
    && !sys.live.value.frame.InFlight?
    && (sys.live.value.broken || AnyRunning(sys.live.value.state.entries))
  }

  lemma StuckLaunch(sys: System, c: Controller, index: nat, e: Entry, admits: bool, save: Save, gate: Gate)
    requires Inv(sys) && sys.live == Some(c) && index < |c.state.entries|
    requires !c.broken ==> Selectable(c.state, index, e)
    requires c.broken || AnyRunning(c.state.entries)
    ensures var d := Launch(sys, c, index, e, admits, save, gate).sys; Stuck(d) && d.log == sys.log
  {
    hide Inv, Selectable, Launch, AnyRunning;
    BlockedLaunch(sys, c, index, e, admits, save, gate);
  }

  lemma RunningStays(entries: seq<Entry>, more: seq<Entry>)
    requires AnyRunning(entries) && |entries| <= |more|
    requires forall i | 0 <= i < |entries| && entries[i].status == Running :: more[i].status == Running
    ensures AnyRunning(more)
  {
    var i :| 0 <= i < |entries| && entries[i].status == Running;
    assert more[i].status == Running;
  }

  lemma StuckStep(sys: System, a: Action)
    requires Inv(sys) && Stuck(sys) && !a.Crash?
    ensures WellShaped(sys)
    ensures Stuck(Apply(sys, a).sys) && Apply(sys, a).sys.log == sys.log
  {
    hide Inv, StateInv, Launch, Update, Selectable, Commit, Progress;
    var c := sys.live.value;
    LiveState(sys, c);
    match a
    case Step(admits, save, gate) =>
      if !c.busy && NextQueued(c.state.entries).Some? {
        var i := NextQueued(c.state.entries).value;
        FirstFound(c.state.entries, IsQueued, 0);
        NextSelectable(c.state, i);
        StuckLaunch(sys, c, i, c.state.entries[i], admits, save, gate);
      }
    case ResumeRevalidated(ok, admits, save, gate) =>
      if c.frame.Revalidating? {
        if !c.broken { FrameSelects(sys, c); }
        StuckLaunch(sys, c, c.frame.index, c.frame.entry, admits, save, gate);
      }
    case Submit(text, save) =>
      StuckWrites(sys, c, c.state.entries + [ChatEntry(text, ActiveChatIndex(c.state.entries))], save);
    case SubmitReview(gitScoped, save) => StuckWrites(sys, c, c.state.entries + [ReviewEntry(gitScoped)], save);
    case CancelQueued(save) => StuckWrites(sys, c, Each(c.state.entries, Cancel), save);
    case CompactAuthor(_, _, _, _) => PendingToo(c.state.entries);
      if c.broken { BrokenStep(sys, a); }
    case RefreshMemory(_, _, _) =>
      if c.broken { BrokenStep(sys, a); }
    case _ =>
  }

  lemma PendingToo(entries: seq<Entry>)
    ensures AnyRunning(entries) ==> AnyPending(entries)
  {
    if AnyRunning(entries) {
      var i :| 0 <= i < |entries| && entries[i].status == Running;
      assert !Settled(entries[i].status);
    }
  }

  lemma StuckWrites(sys: System, c: Controller, entries: seq<Entry>, save: Save)
    requires sys.live == Some(c) && Stuck(sys) && |c.state.entries| <= |entries|
    requires forall i | 0 <= i < |c.state.entries| && c.state.
               entries[i].status == Running :: entries[i].status == Running
    ensures var d := Wrote(sys, Update(c, sys.durable, entries, c.state.consumed, save)).sys;
            Stuck(d) && d.log == sys.log
  {
    hide Progress, Commit, AnyRunning;
    if AnyRunning(c.state.entries) {
      RunningStays(c.state.entries, entries);
    }
  }

  /** Until the process ends, a stuck session dispatches nothing, whatever is submitted, cancelled or retried. */
  lemma {:induction false} StuckUntilReopened(sys: System, run: seq<Action>)
    requires Inv(sys) && Stuck(sys)
    requires forall a | a in run :: !a.Crash?
    ensures Stuck(Run(sys, run)) && Run(sys, run).log == sys.log
  {
    hide Inv, Apply, Stuck;
    if run != [] {
      StuckUntilReopened(sys, run[..|run| - 1]);
      StuckStep(Run(sys, run[..|run| - 1]), run[|run| - 1]);
    }
  }

  // -------------------------------------------------------------------------
  // Refresh after compaction
  // -------------------------------------------------------------------------

  /** Every compacted chat message already carries its memory context. */
  ghost predicate MemoryBound(s: State) {
    forall k, p | 0 <= k < |s.compactions| && 0 <= p <= s.compactions[k].through
                && p < |s.entries| && IsChat(s.entries[p]) ::
      s.entries[p].memory.Some?
  }

  lemma BoundReconstructs(s: State, memory: Option<string>, cassette: seq<Exchange>, k: nat)
    requires CompactionsValid(s.compactions, s.entries, s.revision) && k < |s.compactions|
    ensures var c, t := s.compactions[k], Refreshed(s, memory, cassette);
            Reconstructs(c, t.entries, t.revision)
            <==> forall p | 0 <= p <= c.through && p < |s.entries| && IsChat(s.entries[p]) :: s.entries[p].memory.Some?
  {
    var c, t := s.compactions[k], Refreshed(s, memory, cassette);
    assert Reconstructs(c, s.entries, s.revision);
    assert forall p | 0 <= p < |s.entries| :: t.entries[p] == Freeze(s.entries[p], s.memory);
    if forall p | 0 <= p <= c.through && p < |s.entries| && IsChat(s.entries[p]) :: s.entries[p].memory.Some? {
      forall p | 0 <= p <= c.through ensures t.entries[p] == s.entries[p] {
        assert Settled(s.entries[p].status);
      }
      assert BindingsOf(t.entries, c.through) == BindingsOf(s.entries, c.through);
    } else {
      var p :| 0 <= p <= c.through && p < |s.entries| && IsChat(s.entries[p]) && s.entries[p].memory.None?;
      assert Settled(s.entries[p].status);
      assert t.entries[p].memory.Some?;
      assert BindingsOf(t.entries, c.through)[p] != BindingsOf(s.entries, c.through)[p];
    }
  }

  lemma BoundCompactions(s: State, memory: Option<string>, cassette: seq<Exchange>)
    requires StateInv(s)
    ensures var t := Refreshed(s, memory, cassette);
            CompactionsValid(t.compactions, t.entries, t.revision) <==> MemoryBound(s)
  {
    hide EntriesInv, JournalInv, JournalTracks, RecordingInv, Reconstructs;
    var t := Refreshed(s, memory, cassette);
    forall k | 0 <= k < |s.compactions|
      ensures Reconstructs(s.compactions[k], t.entries, t.revision)
              <==> forall p | 0 <= p <= s.compactions[k].through && p < |s.entries| && IsChat(s.entries[p]) ::
                     s.entries[p].memory.Some?
    {
      BoundReconstructs(s, memory, cassette, k);
    }
  }

  lemma RefreshValid(s: State, memory: Option<string>, cassette: seq<Exchange>)
    requires StateInv(s)
    requires s.mode == Recorded ==> PreservesPrefix(s.recording, cassette, s.consumed)
    ensures Revalidates(Refreshed(s, memory, cassette)) <==> MemoryBound(s)
  {
    hide MemoryBound;
    var t := Refreshed(s, memory, cassette);
    BoundCompactions(s, memory, cassette);
    if MemoryBound(s) {
      FreezeQuiet(s);
      assert t.entries == Refreshed(s, None, []).entries;
      QuietKeeps(s.entries, t.entries, s.consumed, s.revision);
      IdleJournal(s.journal, s.entries, t.entries, t.revision);
      JournalLater(s.journal, s.revision);
      InvariantProgresses(t);
      JournalFits(t.journal, t.entries, t.revision);
    }
  }

  /**
   * A refresh is accepted exactly on an idle working session whose consumed
   * exchanges it preserves, and whose compacted chat messages all carry a memory
   * context.
   */
  lemma RefreshExactly(sys: System, c: Controller, memory: Option<string>, cassette: seq<Exchange>, save: Save)
    requires Inv(sys) && sys.live == Some(c) && !c.broken
    ensures DoRefresh(sys, c, memory, cassette, save).reply == Returned(true) <==>
              && !c.busy && !AnyRunning(c.state.entries)
              && (c.state.mode == Recorded ==> PreservesPrefix(c.cassette, cassette, c.state.consumed))
              && MemoryBound(c.state)
              && save == Saved
  {
    hide Commit, Refreshed, StateInv, LogTracks, Revalidates, PreservesPrefix, AnyRunning, MemoryBound;
    WorkingState(sys, c);
    LiveState(sys, c);
    if c.state.mode == Recorded ==> PreservesPrefix(c.cassette, cassette, c.state.consumed) {
      RefreshValid(c.state, memory, cassette);
      if Revalidates(Refreshed(c.state, memory, cassette)) {
        ProgressOf(Refreshed(c.state, memory, cassette));
        RefreshedInv(c.state, memory, cassette);
        RefreshedJournal(c.state, memory, cassette);
        CommitsAs(c, Refreshed(c.state, memory, cassette), save);
      }
    }
  }

  /** After a refresh no dispatched or cancelled chat message is open to the new memory. */
  lemma RefreshSeals(sys: System, c: Controller, memory: Option<string>, cassette: seq<Exchange>, save: Save, i: nat)
    requires Inv(sys) && sys.live == Some(c) && DoRefresh(sys, c, memory, cassette, save).reply == Returned(true)
    requires i < |c.state.entries| && IsChat(c.state.entries[i]) && c.state.entries[i].status != Queued
    ensures var d := DoRefresh(sys, c, memory, cassette, save).sys.durable;
            && i < |d.entries| && d.memory == memory && d.recording == cassette
            && d.entries[i].memory
               == if c.state.entries[i].memory.Some? then c.state.entries[i].memory else Some(c.state.memory)
  {
    hide Revalidates, PreservesPrefix, AnyRunning, StateInv, LogTracks, FrameTracks, TransitionJournal, JournalAdmits;
    assert Refreshed(c.state, memory, cassette).entries[i] == Freeze(c.state.entries[i], c.state.memory);
  }

  lemma ProgressOf(s: State)
    requires Revalidates(s)
    ensures Progress(s)
  {
  }

  // -------------------------------------------------------------------------
  // What the other operations leave behind
  // -------------------------------------------------------------------------

  /** After reopening nothing runs: what ran is interrupted, everything else is as it was saved. */
  lemma ReopenInterrupts(sys: System, cassette: seq<Exchange>, save: Save, i: nat)
    requires Inv(sys) && sys.live.None? && DoOpen(sys, cassette, save).sys.live.Some?
    requires i < |sys.durable.entries|
    ensures var d := DoOpen(sys, cassette, save).sys;
            && d.live == Some(Controller(d.durable, cassette, false, false, Idle)) && d.log == sys.log
            && d.durable.consumed == sys.durable.consumed && d.durable.memory == sys.durable.memory
            && d.durable.recording == sys.durable.recording && d.durable.retained == sys.durable.retained
            && d.durable.compactions == sys.durable.compactions && |d.durable.entries| == |sys.durable.entries|
            && d.durable.entries[i].status != Running
            && d.durable.entries[i] == if sys.durable.entries[i].status == Running
                                       then sys.durable.entries[i].(status := Interrupted) else sys.durable.entries[i]
  {
    hide Update, StateInv, LogTracks, Advances;
    var s := sys.durable;
    if AnyRunning(s.entries) {
      var k :| 0 <= k < |s.entries| && s.entries[k].status == Running;
      OpenInterrupts(sys, Controller(s, cassette, false, false, Idle), k, save);
      assert DoOpen(sys, cassette, save).sys.durable.entries == Each(s.entries, Interrupt);
    }
  }

  /** After a successful cancel a step finds nothing to do. */
  lemma CancelEmptiesQueue(sys: System, c: Controller, admits: bool, save: Save, gate: Gate)
    requires Inv(sys) && sys.live == Some(c) && DoCancel(sys, c, Saved).reply == Returned(true)
    ensures var d := DoCancel(sys, c, Saved).sys;
            && d.live.Some? && NextQueued(d.live.value.state.entries).None?
            && (!d.live.value.busy ==> DoStep(d, d.live.value, admits, save, gate) == Done(d, Returned(false)))
  {
    hide Update, StateInv, LogTracks;
    CancelledEntries(sys, c);
    FirstFound(Each(c.state.entries, Cancel), IsQueued, 0);
  }

  lemma CancelledEntries(sys: System, c: Controller)
    requires Inv(sys) && sys.live == Some(c) && DoCancel(sys, c, Saved).reply == Returned(true)
    ensures var d := DoCancel(sys, c, Saved).sys;
            d.live.Some? && d.live.value.state.entries == Each(c.state.entries, Cancel)
  {
  }

  /** The end of a request records its outcome in its own message and in no other. */
  lemma SettleRecords(sys: System, c: Controller, outcome: Outcome, i: nat)
    requires Inv(sys) && sys.live == Some(c) && !c.broken && c.frame.InFlight? && !outcome.Escaped?
    requires i < |c.state.entries|
    ensures var d, e := DoSettle(sys, c, outcome, Saved).sys.durable, c.state.entries[i];
            && |d.entries| == |c.state.entries| && d.consumed == c.state.consumed
            && d.entries[i]
               == if i != c.frame.index then e
                  else match outcome
                       case WasCancelled => e.(status := Cancelled)
                       case DidFail => e.(status := Failed)
                       case Answered(answer, failed) =>
                         e.(answer := Some(answer), status := if failed && !IsChat(e) then Failed else Completed)
  {
    hide Update, StateInv, LogTracks, Stops;
    WorkingState(sys, c);
    LiveState(sys, c);
    FinishStops(c.state, c.frame.index, c.frame.entry, outcome);
    UpdateStops(c, c.frame.index, Finished(c.frame.entry, outcome), Saved);
  }

  lemma CompactionAdded(s: State, id: string, through: nat)
    requires StateInv(s) && through < |s.entries| && !AnyPending(s.entries) && |s.compactions| < MAX_COMPACTIONS
    requires s.compactions != [] ==> s.compactions[|s.compactions| - 1].through < through
    ensures Revalidates(WithCompaction(s, id, through))
  {
    hide JournalTracks, RecordingInv, RecordingValid;
    var t := WithCompaction(s, id, through);
    forall k | 0 <= k < |t.compactions| ensures Reconstructs(t.compactions[k], t.entries, t.revision) {
      if k < |s.compactions| {
        assert Reconstructs(s.compactions[k], s.entries, s.revision);
      }
    }
    CompactionRest(s, id, through);
  }

  lemma CompactionRest(s: State, id: string, through: nat)
    requires StateInv(s) && through < |s.entries|
    requires var t := WithCompaction(s, id, through); CompactionsValid(t.compactions, t.entries, t.revision)
    ensures Revalidates(WithCompaction(s, id, through))
  {
    hide CompactionsValid;
    var t := WithCompaction(s, id, through);
    SameEntries(s);
    JournalLater(s.journal, s.revision);
    InvariantProgresses(t);
    JournalFits(t.journal, t.entries, t.revision);
  }

  /** A compaction is accepted exactly on an idle working session without pending work, within its own conditions. */
  lemma CompactExactly(sys: System, c: Controller, id: string, through: nat, fits: bool, save: Save)
    requires Inv(sys) && sys.live == Some(c) && !c.broken
    ensures DoCompact(sys, c, id, through, fits, save).reply == Returned(true)
            <==> !c.busy && !AnyPending(c.state.entries) && Compactable(c.state, through, fits) && save == Saved
  {
    hide Commit, StateInv, LogTracks, Revalidates, AnyPending, WithCompaction;
    WorkingState(sys, c);
    LiveState(sys, c);
    if !c.busy && !AnyPending(c.state.entries) && Compactable(c.state, through, fits) {
      CompactionAdded(c.state, id, through);
      ProgressOf(WithCompaction(c.state, id, through));
      CompactedInv(c.state, id, through);
      CompactedJournal(c.state, id, through);
      CommitsAs(c, WithCompaction(c.state, id, through), save);
    }
  }

  lemma CompactedJournal(s: State, id: string, through: nat)
    requires through < |s.entries|
    ensures WithCompaction(s, id, through).journal == s.journal
  {
  }

  // -------------------------------------------------------------------------
  // A cancelled review that runs
  // -------------------------------------------------------------------------

  lemma OpenIdle(sys: System)
    requires sys.live.None? && sys.durable.entries == [] && sys.durable.consumed == 0
    ensures Apply(sys, Open(sys.durable.recording, Saved)).sys
            == sys.(live := Some(Controller(sys.durable, sys.durable.recording, false, false, Idle)))
  {
  }

  lemma ReviewSubmitted(sys: System, c: Controller)
    requires Inv(sys) && sys.live == Some(c) && !c.broken && c.state.entries == []
    ensures WellShaped(sys)
    ensures var d := Apply(sys, SubmitReview(true, Saved)).sys;
            && d.live == Some(c.(state := d.durable)) && d.durable.entries == [ReviewEntry(true)] && d.log == sys.log
  {
    hide Update, StateInv, LogTracks, FrameTracks;
    WorkingState(sys, c);
    LiveState(sys, c);
    AppendTarget(c, ReviewEntry(true), Saved);
  }

  lemma ReviewWaits(sys: System, c: Controller)
    requires Inv(sys) && sys.live == Some(c) && !c.busy && c.state.entries == [ReviewEntry(true)]
    ensures WellShaped(sys)
    ensures Apply(sys, Step(true, Saved, Proceed)).sys
            == sys.(live := Some(c.(busy := true, frame := Revalidating(0, ReviewEntry(true)))))
  {
    hide Launch, StateInv, LogTracks, FrameTracks;
    LiveState(sys, c);
  }

  lemma ReviewCancelled(sys: System, c: Controller)
    requires Inv(sys) && sys.live == Some(c) && !c.broken && c.state.entries == [ReviewEntry(true)]
    ensures WellShaped(sys)
    ensures var d := Apply(sys, CancelQueued(Saved)).sys;
            && d.live == Some(c.(state := d.durable)) && d.log == sys.log
            && d.durable.entries == [ReviewEntry(true).(status := Cancelled)]
  {
    hide Update, StateInv, LogTracks, FrameTracks;
    WorkingState(sys, c);
    LiveState(sys, c);
    CancelTarget(c, Saved);
  }

  lemma RunSnoc(sys: System, run: seq<Action>, a: Action)
    requires Inv(sys)
    ensures WellShaped(Run(sys, run))
    ensures Run(sys, run + [a]) == Apply(Run(sys, run), a).sys
  {
    hide Inv, Apply;
    ApplyKeeps(Run(sys, run), a);
    assert (run + [a])[..|run|] == run;
  }

  function WaitingRun(recording: seq<Exchange>): seq<Action> {
    [Open(recording, Saved)] + [SubmitReview(true, Saved)] + [Step(true, Saved, Proceed)]
  }

  /** After these three events a Git-scoped review waits for its revalidation. */
  lemma ReviewWaiting(mode: Mode, memory: Option<string>, recording: seq<Exchange>) returns (c: Controller)
    ensures Session(mode, memory, recording, WaitingRun(recording)).live == Some(c)
    ensures !c.broken && c.frame == Revalidating(0, ReviewEntry(true)) && c.state.entries == [ReviewEntry(true)]
  {
    hide Inv, Apply;
    FreshInv(mode, memory, recording);
    var first := Fresh(mode, memory, recording);
    var open := Run(first, [Open(recording, Saved)]);
    RunSnoc(first, [], Open(recording, Saved));
    OpenIdle(first);
    var submitted := Run(first, [Open(recording, Saved)] + [SubmitReview(true, Saved)]);
    RunSnoc(first, [Open(recording, Saved)], SubmitReview(true, Saved));
    ReviewSubmitted(open, open.live.value);
    RunSnoc(first, [Open(recording, Saved)] + [SubmitReview(true, Saved)], Step(true, Saved, Proceed));
    ReviewWaits(submitted, submitted.live.value);
    c := Session(mode, memory, recording, WaitingRun(recording)).live.value;
  }

  /**
   * The exception of SettledChangesExactly is reachable: after these four events
   * the only message is a cancelled review, and the fifth event runs it.
   */
  lemma CancelledReviewRuns(mode: Mode, memory: Option<string>, recording: seq<Exchange>)
    ensures var waiting := Session(mode, memory, recording, WaitingRun(recording) + [CancelQueued(Saved)]);
            && Revives(waiting, ResumeRevalidated(true, true, Saved, Proceed))
            && waiting.durable.entries == [ReviewEntry(true).(status := Cancelled)]
  {
    hide Inv, Apply;
    FreshInv(mode, memory, recording);
    var c := ReviewWaiting(mode, memory, recording);
    RunSnoc(Fresh(mode, memory, recording), WaitingRun(recording), CancelQueued(Saved));
    ReviewCancelled(Session(mode, memory, recording, WaitingRun(recording)), c);
  }
}
