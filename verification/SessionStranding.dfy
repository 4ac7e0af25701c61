/**
 * Messages left running with nothing in flight: exactly which events leave one,
 * and sessions that reach it; memory refreshes that a compaction has made
 * impossible for good, and a session that reaches that.
 */
module SessionStranding {
  import opened Prelude
  import opened Projection
  import opened SessionState
  import opened SessionMachine
  import opened SessionInvariant
  import opened SessionChanges
  import opened SessionSafety
  import opened SessionRuns
  import opened SessionTheorems
  import opened SessionOutcomes
  import opened SessionEdges

  // -------------------------------------------------------------------------
  // Exactly which events strand a message
  // -------------------------------------------------------------------------

  /** A working controller has a running message, and nothing is in flight for it. */
  ghost predicate Stranded(sys: System) {
    && sys.live.Some?
    && var c := sys.live.value;
    && !c.broken && !c.frame.InFlight? && AnyRunning(c.state.entries)
  }

  /**
   * The events that strand a message: an exception of a dispatched request that
   * the controller does not handle, or one between a saved start and its dispatch,
   * in a step or in the resumption of a waiting review.
   */
  ghost predicate Strands(c: Controller, a: Action) {
    match a
    case Settle(outcome, _) => outcome.Escaped? && c.frame.InFlight?
    case Step(admits, save, gate) =>
      && save == Saved && gate == Escape
      && NextQueued(c.state.entries).Some? && CanDispatch(c, NextQueued(c.state.entries).value, admits)
    case ResumeRevalidated(ok, admits, save, gate) =>
      ok && admits && save == Saved && gate == Escape && c.frame.Revalidating? && !AnyRunning(c.state.entries)
    case _ => false
  }

  lemma OnlyAt(entries: seq<Entry>, k: nat)
    requires OneRunning(entries) && k < |entries| && entries[k].status == Running
    ensures forall i | 0 <= i < |entries| && i != k :: entries[i].status != Running
  {
    forall i | 0 <= i < |entries| && i != k ensures entries[i].status != Running {
      if i < k { } else { }
    }
  }

  lemma SettleStrands(sys: System, c: Controller, outcome: Outcome, save: Save)
    requires Inv(sys) && sys.live == Some(c) && !c.broken && c.frame.InFlight?
    ensures Shaped(c)
    ensures Stranded(DoSettle(sys, c, outcome, save).sys) <==> outcome.Escaped?
  {
    hide Update, Stops, LogTracks, CompactionsValid, JournalInv, JournalTracks, RecordingInv;
    var k, e := c.frame.index, c.frame.entry;
    OnlyAt(c.state.entries, k);
    if !outcome.Escaped? {
      FinishStops(c.state, k, e, outcome);
      UpdateStops(c, k, Finished(e, outcome), save);
    }
  }

  lemma RefuseStrandsNot(sys: System, c: Controller, index: nat, e: Entry, second: Save)
    requires Begun(sys, c, index, e) && !AnyRunning(c.state.entries)
    requires index < |c.state.entries|
    ensures var target := StartState(c.state, index, LaunchedEntry(c, index, e));
            var x := Update(c.(state := target), target,
                            target.entries[index := Admit(c, index, e).(status := Failed)], target.consumed, second);
            x.c.broken || !AnyRunning(x.c.state.entries)
  {
    hide StateInv, Starts, Begun, Admit, Update, Stops, LogTracks, Advances;
    BegunParts(sys, c, index, e);
    var target := StartState(c.state, index, LaunchedEntry(c, index, e));
    var failed := Admit(c, index, e).(status := Failed);
    FailStops(target, index, Admit(c, index, e), failed);
    UpdateStops(c.(state := target), index, failed, second);
  }

  lemma LaunchStrands(sys: System, c: Controller, index: nat, e: Entry, admits: bool, save: Save, gate: Gate)
    requires Inv(sys) && sys.live == Some(c) && !c.broken
    requires Selectable(c.state, index, e) && !AnyRunning(c.state.entries)
    ensures index < |c.state.entries|
    ensures Stranded(Launch(sys, c, index, e, admits, save, gate).sys)
            <==> !Blocked(sys, c, index, e, admits) && save == Saved && gate == Escape
  {
    hide Inv, StateInv, Starts, StartState, LaunchWrite, Launch, Begun, Admit, Update, DispatchOf;
    SelectablePlace(c.state, index, e);
    if Blocked(sys, c, index, e, admits) {
      BlockedLaunch(sys, c, index, e, admits, save, gate);
    } else {
      AdmittedLaunch(sys, c, index, e, admits, save, gate);
      BegunParts(sys, c, index, e);
      BegunInv(sys, c, index, e);
      if save == Saved && gate.Refuse? {
        RefuseStrandsNot(sys, c, index, e, gate.save);
      }
    }
  }

  lemma StepStrands(sys: System, c: Controller, admits: bool, save: Save, gate: Gate)
    requires Inv(sys) && sys.live == Some(c) && !c.broken && !c.frame.InFlight? && !AnyRunning(c.state.entries)
    ensures Stranded(DoStep(sys, c, admits, save, gate).sys) <==> Strands(c, Step(admits, save, gate))
  {
    hide Inv, StateInv, Selectable, Launch, Project, AnyRunning, FirstFrom;
    LiveState(sys, c);
    var next := NextQueued(c.state.entries);
    if !c.busy && next.Some? {
      var i := next.value;
      QueuedOf(c.state.entries, i);
      NextSelectable(c.state, i);
      QueuedProjects(c.state, i);
      if c.state.entries[i].kind != Review(true) {
        StepUnfolds(sys, c, i, admits, save, gate);
        LaunchStrands(sys, c, i, c.state.entries[i], admits, save, gate);
      }
    }
  }

  lemma ResumeStrands(sys: System, c: Controller, ok: bool, admits: bool, save: Save, gate: Gate)
    requires Inv(sys) && sys.live == Some(c) && !c.broken && !c.frame.InFlight? && !AnyRunning(c.state.entries)
    ensures Shaped(c)
    ensures Stranded(DoResume(sys, c, ok, admits, save, gate).sys)
            <==> Strands(c, ResumeRevalidated(ok, admits, save, gate))
  {
    hide Inv, StateInv, Selectable, Launch, Project, AnyRunning;
    LiveState(sys, c);
    if c.frame.Revalidating? && ok {
      FrameSelects(sys, c);
      LaunchStrands(sys, c, c.frame.index, c.frame.entry, admits, save, gate);
    }
  }

  /** The events that dispatch nothing leave a message running only if it was. */
  lemma OthersStrandNot(sys: System, a: Action)
    requires Inv(sys) && sys.live.Some? && !sys.live.value.broken && !Stranded(sys)
    requires !a.Step? && !a.ResumeRevalidated? && !a.Settle?
    ensures WellShaped(sys)
    ensures !Stranded(Apply(sys, a).sys)
  {
    hide Inv, StateInv, Progress, Revalidates, TransitionJournal, JournalAdmits, PreservesPrefix, Compactable;
    LiveState(sys, sys.live.value);
  }

  lemma OpenStrandsNot(sys: System, cassette: seq<Exchange>, save: Save)
    requires sys.live.None?
    ensures !Stranded(DoOpen(sys, cassette, save).sys)
  {
    hide Progress, Commit;
  }

  /** A message is stranded exactly by the events of Strands in a working session. */
  lemma StrandedExactly(sys: System, a: Action)
    requires Inv(sys) && !Stranded(sys)
    ensures WellShaped(sys)
    ensures Stranded(Apply(sys, a).sys) <==> sys.live.Some? && !sys.live.value.broken && Strands(sys.live.value, a)
  {
    hide Inv, DoOpen, DoSubmit, DoAppend, DoCancel, DoRefresh, DoCompact, DoStep, DoResume, DoSettle, StateInv, Launch;
    if sys.live.None? {
      if a.Open? { OpenStrandsNot(sys, a.cassette, a.save); }
    } else {
      var c := sys.live.value;
      LiveState(sys, c);
      if a.Crash? {
      } else if c.broken {
        BrokenStep(sys, a);
      } else if a.Settle? {
        if c.frame.InFlight? {
          SettleStrands(sys, c, a.outcome, a.save);
        } else {
          IdleSettle(sys, c, a.outcome, a.save);
        }
      } else if a.Step? || a.ResumeRevalidated? {
        if c.frame.InFlight? {
          BusyWaits(sys, c, a);
        } else if a.Step? {
          StepStrands(sys, c, a.admits, a.save, a.gate);
        } else {
          ResumeStrands(sys, c, a.ok, a.admits, a.save, a.gate);
        }
      } else {
        OthersStrandNot(sys, a);
      }
    }
  }

  lemma IdleSettle(sys: System, c: Controller, outcome: Outcome, save: Save)
    requires Shaped(c) && !c.frame.InFlight?
    ensures DoSettle(sys, c, outcome, save).sys == sys
  {
  }

  lemma BusyWaits(sys: System, c: Controller, a: Action)
    requires sys.live == Some(c) && Shaped(c) && c.frame.InFlight? && c.busy && (a.Step? || a.ResumeRevalidated?)
    ensures Apply(sys, a).sys == sys && !Strands(c, a)
  {
  }

  /** A stranded session is stuck, so until the process ends it dispatches nothing. */
  lemma StrandedSilent(sys: System, run: seq<Action>)
    requires Inv(sys) && Stranded(sys)
    requires forall a | a in run :: !a.Crash?
    ensures Stuck(Run(sys, run)) && Run(sys, run).log == sys.log
  {
    hide Inv, Run;
    StuckUntilReopened(sys, run);
  }

  // -------------------------------------------------------------------------
  // Sessions that strand a message
  // -------------------------------------------------------------------------

  /** An idle session whose only message is a queued chat, before any refresh or compaction. */
  ghost predicate Ready(sys: System, text: string) {
    && Inv(sys) && sys.live.Some?
    && var c := sys.live.value;
    && !c.broken && !c.busy
    && c.state.entries == [ChatEntry(text, None)] && c.state.consumed == 0
    && c.state.retained.None? && c.state.compactions == []
    && (c.state.mode == Recorded ==> c.cassette != [])
  }

  function ChatRun(recording: seq<Exchange>, text: string): seq<Action> {
    [Open(recording, Saved)] + [Submit(text, Saved)]
  }

  lemma ChatReady(mode: Mode, memory: Option<string>, recording: seq<Exchange>, text: string)
    requires !Blank(text) && (mode == Recorded ==> recording != [])
    ensures Ready(Session(mode, memory, recording, ChatRun(recording, text)), text)
  {
    hide Inv, DoOpen, DoSubmit, Update, Blank;
    FreshInv(mode, memory, recording);
    var first := Fresh(mode, memory, recording);
    RunSnoc(first, [], Open(recording, Saved));
    OpenIdle(first);
    var open := Run(first, [Open(recording, Saved)]);
    RunSnoc(first, [Open(recording, Saved)], Submit(text, Saved));
    ChatSubmitted(open, open.live.value, text);
  }

  lemma ChatSubmitted(sys: System, c: Controller, text: string)
    requires Inv(sys) && sys.live == Some(c) && !c.broken && c.state.entries == [] && !Blank(text)
    ensures var d := DoSubmit(sys, c, text, Saved).sys;
            && d.live == Some(c.(state := d.durable)) && d.durable.entries == [ChatEntry(text, None)]
            && d.durable.consumed == c.state.consumed && d.durable.retained == c.state.retained
            && d.durable.compactions == c.state.compactions && d.durable.mode == c.state.mode
  {
    hide Update, StateInv, LogTracks, FrameTracks, Blank;
    WorkingState(sys, c);
    LiveState(sys, c);
    AppendTarget(c, ChatEntry(text, None), Saved);
  }

  lemma ReadyDispatches(sys: System, text: string)
    requires Ready(sys, text)
    ensures CanDispatch(sys.live.value, 0, true) && NextQueued(sys.live.value.state.entries) == Some(0)
    ensures !Stranded(sys)
  {
    FirstFound(sys.live.value.state.entries, IsQueued, 0);
  }

  /** The message in flight: its start is saved, and it is bound to no memory context. */
  ghost predicate Flying(sys: System, e: Entry) {
    && Inv(sys) && sys.live.Some?
    && var c := sys.live.value;
    && !c.broken && c.frame == InFlight(0, e) && IsChat(e) && e.memory.None?
    && c.state.entries == [e.(status := Running)] && c.state.compactions == []
  }

  lemma ReadyFlies(sys: System, text: string) returns (e: Entry)
    requires Ready(sys, text)
    ensures Flying(DoStep(sys, sys.live.value, true, Saved, Proceed).sys, e)
  {
    hide StateInv, Starts, LaunchWrite, Launch, Begun, Project, Selectable, LogTracks, FrameTracks, Advances, FirstFrom;
    var c := sys.live.value;
    ReadyDispatches(sys, text);
    StepUnfolds(sys, c, 0, true, Saved, Proceed);
    LiveState(sys, c);
    NextSelectable(c.state, 0);
    QueuedProjects(c.state, 0);
    AdmittedLaunch(sys, c, 0, c.state.entries[0], true, Saved, Proceed);
    BegunParts(sys, c, 0, c.state.entries[0]);
    StepKeeps(sys, c, true, Saved, Proceed);
    e := Admit(c, 0, c.state.entries[0]);
  }

  lemma ChatEscapes(sys: System, text: string)
    requires Ready(sys, text)
    ensures WellShaped(sys)
    ensures Stranded(Apply(sys, Step(true, Saved, Escape)).sys)
  {
    hide Apply, CanDispatch, Inv;
    ReadyDispatches(sys, text);
    StrandedExactly(sys, Step(true, Saved, Escape));
  }

  lemma RequestEscapes(sys: System, e: Entry)
    requires Flying(sys, e)
    ensures WellShaped(sys)
    ensures Stranded(Apply(sys, Settle(Escaped, Saved)).sys)
  {
    hide Apply, Inv;
    StrandedExactly(sys, Settle(Escaped, Saved));
  }

  lemma ReviewEscapes(sys: System, c: Controller)
    requires Inv(sys) && sys.live == Some(c) && !c.broken
    requires c.frame == Revalidating(0, ReviewEntry(true)) && c.state.entries == [ReviewEntry(true)]
    ensures WellShaped(sys)
    ensures Stranded(Apply(sys, ResumeRevalidated(true, true, Saved, Escape)).sys)
  {
    hide Apply, Inv;
    StrandedExactly(sys, ResumeRevalidated(true, true, Saved, Escape));
  }

  /** Each of the three ways to strand a message is reached by a short session. */
  lemma StrandingReached(mode: Mode, memory: Option<string>, recording: seq<Exchange>, text: string)
    requires !Blank(text) && (mode == Recorded ==> recording != [])
    ensures Stranded(Session(mode, memory, recording, ChatRun(recording, text) + [Step(true, Saved, Escape)]))
    ensures Stranded(Session(mode, memory, recording, FlyingRun(recording, text) + [Settle(Escaped, Saved)]))
    ensures Stranded(Session(mode, memory, recording,
                             WaitingRun(recording) + [ResumeRevalidated(true, true, Saved, Escape)]))
  {
    hide Inv, Apply, Stranded, Ready, Flying, ChatRun, FlyingRun, WaitingRun, Blank;
    FreshInv(mode, memory, recording);
    var first := Fresh(mode, memory, recording);
    ChatReady(mode, memory, recording, text);
    RunSnoc(first, ChatRun(recording, text), Step(true, Saved, Escape));
    ChatEscapes(Run(first, ChatRun(recording, text)), text);
    var e := ChatFlies(mode, memory, recording, text);
    RunSnoc(first, FlyingRun(recording, text), Settle(Escaped, Saved));
    RequestEscapes(Run(first, FlyingRun(recording, text)), e);
    var c := ReviewWaiting(mode, memory, recording);
    RunSnoc(first, WaitingRun(recording), ResumeRevalidated(true, true, Saved, Escape));
    ReviewEscapes(Run(first, WaitingRun(recording)), c);
  }

  function FlyingRun(recording: seq<Exchange>, text: string): seq<Action> {
    ChatRun(recording, text) + [Step(true, Saved, Proceed)]
  }

  lemma ReadyStep(sys: System, text: string)
    requires Ready(sys, text)
    ensures WellShaped(sys) && sys.live.Some?
    ensures Apply(sys, Step(true, Saved, Proceed)) == DoStep(sys, sys.live.value, true, Saved, Proceed)
  {
    hide DoStep, StateInv;
    LiveState(sys, sys.live.value);
  }

  lemma ChatFlies(mode: Mode, memory: Option<string>, recording: seq<Exchange>, text: string) returns (e: Entry)
    requires !Blank(text) && (mode == Recorded ==> recording != [])
    ensures Flying(Session(mode, memory, recording, FlyingRun(recording, text)), e)
  {
    hide Inv, Apply, Ready, Flying, DoStep, ChatRun, Blank;
    FreshInv(mode, memory, recording);
    var first := Fresh(mode, memory, recording);
    ChatReady(mode, memory, recording, text);
    RunSnoc(first, ChatRun(recording, text), Step(true, Saved, Proceed));
    ReadyStep(Run(first, ChatRun(recording, text)), text);
    e := ReadyFlies(Run(first, ChatRun(recording, text)), text);
  }

  // -------------------------------------------------------------------------
  // Refreshes lost for good
  // -------------------------------------------------------------------------

  /** Only a compaction changes the compactions, and it adds one. */
  lemma CompactionsMove(sys: System, a: Action)
    requires Inv(sys)
    ensures WellShaped(sys)
    ensures var t := Apply(sys, a).sys.durable.compactions;
            || t == sys.durable.compactions
            || (&& a.CompactAuthor? && a.through < |sys.durable.entries|
                && t == WithCompaction(sys.durable, a.id, a.through).compactions)
  {
    hide Inv, StateInv, Progress, Revalidates, TransitionJournal, JournalAdmits, PreservesPrefix, Compactable,
         Launchable, Project, Admit, BindingsOf, DoCompact;
    if sys.live.Some? {
      LiveState(sys, sys.live.value);
      if a.Crash? {
      } else if sys.live.value.broken {
        BrokenStep(sys, a);
      } else {
        WorkingState(sys, sys.live.value);
        if a.CompactAuthor? {
          CompactMoves(sys, sys.live.value, a.id, a.through, a.fits, a.save);
        }
      }
    }
  }

  lemma CompactMoves(sys: System, c: Controller, id: string, through: nat, fits: bool, save: Save)
    requires sys.live == Some(c) && c.state == sys.durable
    ensures var t := DoCompact(sys, c, id, through, fits, save).sys.durable.compactions;
            || t == sys.durable.compactions
            || (through < |sys.durable.entries| && t == WithCompaction(sys.durable, id, through).compactions)
  {
    hide Revalidates, TransitionJournal, JournalAdmits;
  }

  /** A compaction records whether each message it covers was bound. */
  lemma BoundByLineage(s: State, k: nat, p: nat)
    requires StateInv(s) && k < |s.compactions| && p <= s.compactions[k].through
    ensures p < |s.entries| && p < |s.compactions[k].bindings|
    ensures s.compactions[k].bindings[p] == BindingOf(s.entries[p])
  {
    assert Reconstructs(s.compactions[k], s.entries, s.revision);
  }

  lemma UnboundKept(s: State, t: State)
    requires StateInv(s) && StateInv(t) && s.compactions <= t.compactions && !MemoryBound(s)
    ensures !MemoryBound(t)
  {
    hide StateInv;
    var k, p :| 0 <= k < |s.compactions| && 0 <= p <= s.compactions[k].through && p < |s.entries|
                && IsChat(s.entries[p]) && s.entries[p].memory.None?;
    assert t.compactions[k] == s.compactions[k];
    BoundByLineage(s, k, p);
    BoundByLineage(t, k, p);
  }

  lemma UnboundStays(sys: System, a: Action)
    requires Inv(sys) && !MemoryBound(sys.durable)
    ensures WellShaped(sys)
    ensures !MemoryBound(Apply(sys, a).sys.durable)
  {
    hide Inv, StateInv, Apply, Advances, MemoryBound, BindingsOf;
    CompactionsMove(sys, a);
    ApplyKeeps(sys, a);
    InvLog(sys);
    InvLog(Apply(sys, a).sys);
    UnboundKept(sys.durable, Apply(sys, a).sys.durable);
  }

  lemma UnboundRefuses(sys: System, memory: Option<string>, cassette: seq<Exchange>, save: Save)
    requires Inv(sys) && !MemoryBound(sys.durable)
    ensures WellShaped(sys)
    ensures Apply(sys, RefreshMemory(memory, cassette, save)) == Done(sys, Raised)
  {
    hide StateInv, LogTracks, FrameTracks, MemoryBound, Revalidates, Refreshed, TransitionJournal, JournalAdmits;
    if sys.live.Some? {
      var c := sys.live.value;
      LiveState(sys, c);
      if !c.broken && (c.state.mode == Recorded ==> PreservesPrefix(c.cassette, cassette, c.state.consumed)) {
        RefreshValid(c.state, memory, cassette);
      }
    }
  }

  /** Once a compacted chat message has no memory context, no later event of any run makes a refresh succeed. */
  lemma {:induction false} RefreshLostForGood(
      sys: System, run: seq<Action>, memory: Option<string>, cassette: seq<Exchange>, save: Save)
    requires Inv(sys) && !MemoryBound(sys.durable)
    ensures !MemoryBound(Run(sys, run).durable) && WellShaped(Run(sys, run))
    ensures Apply(Run(sys, run), RefreshMemory(memory, cassette, save)) == Done(Run(sys, run), Raised)
  {
    hide Inv, Apply, MemoryBound;
    if run != [] {
      RefreshLostForGood(sys, run[..|run| - 1], memory, cassette, save);
      UnboundStays(Run(sys, run[..|run| - 1]), run[|run| - 1]);
    }
    UnboundRefuses(Run(sys, run), memory, cassette, save);
  }

  /** A compaction that would cover a chat message without a memory context. */
  ghost predicate LosesRefresh(c: Controller, a: Action) {
    && a.CompactAuthor? && a.save != RaisedUnsaved
    && !c.busy && !AnyPending(c.state.entries) && Compactable(c.state, a.through, a.fits)
    && exists p | 0 <= p <= a.through :: IsChat(c.state.entries[p]) && c.state.entries[p].memory.None?
  }

  lemma CompactWrites(sys: System, c: Controller, id: string, through: nat, fits: bool, save: Save)
    requires Inv(sys) && sys.live == Some(c) && !c.broken
    ensures var t := DoCompact(sys, c, id, through, fits, save).sys.durable;
            t == if !c.busy && !AnyPending(c.state.entries) && Compactable(c.state, through, fits)
                     && save != RaisedUnsaved
                 then WithCompaction(sys.durable, id, through) else sys.durable
  {
    hide Commit, StateInv, LogTracks, Revalidates, AnyPending, WithCompaction;
    WorkingState(sys, c);
    LiveState(sys, c);
    if !c.busy && !AnyPending(c.state.entries) && Compactable(c.state, through, fits) {
      CompactionAdded(c.state, id, through);
      ProgressOf(WithCompaction(c.state, id, through));
      CompactedInv(c.state, id, through);
      CompactedJournal(c.state, id, through);
      CommitsAs(c, WithCompaction(c.state, id, through), save);
    }
  }

  lemma BoundStays(s: State, t: State)
    requires MemoryBound(s) && Later(s, t) && t.compactions == s.compactions
    requires CompactionsValid(s.compactions, s.entries, s.revision)
    ensures MemoryBound(t)
  {
    hide BindingsOf;
    forall k, p | 0 <= k < |t.compactions| && 0 <= p <= t.compactions[k].through && p < |t.entries|
                && IsChat(t.entries[p])
      ensures t.entries[p].memory.Some?
    {
      assert Reconstructs(s.compactions[k], s.entries, s.revision);
      assert IsChat(s.entries[p]);
    }
  }

  lemma BoundCompacted(s: State, id: string, through: nat)
    requires MemoryBound(s) && through < |s.entries|
    ensures MemoryBound(WithCompaction(s, id, through)) <==>
              forall p | 0 <= p <= through && IsChat(s.entries[p]) :: s.entries[p].memory.Some?
  {
    hide BindingsOf;
    var t := WithCompaction(s, id, through);
    assert t.compactions[|s.compactions|].through == through;
    assert forall k | 0 <= k < |s.compactions| :: t.compactions[k] == s.compactions[k];
  }

  /** A session loses its memory refreshes exactly by a saved compaction that covers an unbound chat message. */
  lemma RefreshLostExactly(sys: System, a: Action)
    requires Inv(sys) && MemoryBound(sys.durable)
    ensures WellShaped(sys)
    ensures !MemoryBound(Apply(sys, a).sys.durable)
            <==> sys.live.Some? && !sys.live.value.broken && LosesRefresh(sys.live.value, a)
  {
    hide Inv, StateInv, MemoryBound, Advances, Later, DoCompact, AnyPending, WithCompaction, CompactionsValid;
    ApplyKeeps(sys, a);
    CompactionsMove(sys, a);
    InvLog(sys);
    StateParts(sys.durable);
    var t := Apply(sys, a).sys.durable;
    AdvancesLater(sys.durable, t, RevivedBy(sys, a));
    if t.compactions == sys.durable.compactions {
      BoundStays(sys.durable, t);
    }
    if sys.live.Some? && !sys.live.value.broken && a.CompactAuthor? {
      var c := sys.live.value;
      WorkingState(sys, c);
      CompactWrites(sys, c, a.id, a.through, a.fits, a.save);
      if a.through < |sys.durable.entries| {
        BoundCompacted(sys.durable, a.id, a.through);
      }
    } else if a.CompactAuthor? {
      IdleCompact(sys, a);
    }
  }

  lemma AdvancesLater(s: State, t: State, x: Option<nat>)
    requires Advances(s, t, x)
    ensures Later(s, t)
  {
  }

  lemma IdleCompact(sys: System, a: Action)
    requires Inv(sys) && a.CompactAuthor? && (sys.live.None? || sys.live.value.broken)
    ensures WellShaped(sys)
    ensures Apply(sys, a).sys.durable == sys.durable
  {
    hide Inv, StateInv, Apply;
    if sys.live.Some? {
      BrokenStep(sys, a);
    } else {
      Closed(sys, a);
    }
  }

  lemma Closed(sys: System, a: Action)
    requires sys.live.None? && !a.Open?
    ensures Apply(sys, a).sys == sys
  {
  }

  // -------------------------------------------------------------------------
  // A session that loses its refreshes
  // -------------------------------------------------------------------------

  /** An idle session whose only message is an answered chat without a memory context. */
  ghost predicate Unbound(sys: System) {
    && Inv(sys) && sys.live.Some?
    && var c := sys.live.value;
    && !c.broken && !c.busy && c.state.compactions == []
    && |c.state.entries| == 1
    && var e := c.state.entries[0];
    && IsChat(e) && e.memory.None? && e.status == Completed && e.answer.Some?
  }

  lemma AnswerLands(sys: System, e: Entry, answer: string)
    requires Flying(sys, e)
    ensures WellShaped(sys)
    ensures Unbound(Apply(sys, Settle(Answered(answer, false), Saved)).sys)
  {
    hide Update, StateInv, LogTracks, Stops, Advances;
    var c := sys.live.value;
    WorkingState(sys, c);
    LiveState(sys, c);
    FinishStops(c.state, 0, e, Answered(answer, false));
    UpdateStops(c, 0, Finished(e, Answered(answer, false)), Saved);
    ApplyKeeps(sys, Settle(Answered(answer, false), Saved));
  }

  lemma UnboundCompacts(sys: System, id: string)
    requires Unbound(sys)
    ensures WellShaped(sys)
    ensures !MemoryBound(Apply(sys, CompactAuthor(id, 0, true, Saved)).sys.durable)
  {
    hide Inv, Apply;
    var c := sys.live.value;
    WorkingState(sys, c);
    assert MemoryBound(sys.durable);
    assert LosesRefresh(c, CompactAuthor(id, 0, true, Saved));
    RefreshLostExactly(sys, CompactAuthor(id, 0, true, Saved));
  }

  function CompactedRun(recording: seq<Exchange>, text: string, answer: string, id: string): seq<Action> {
    FlyingRun(recording, text) + [Settle(Answered(answer, false), Saved)] + [CompactAuthor(id, 0, true, Saved)]
  }

  /**
   * One chat answered and compacted before the first refresh is enough: after these
   * five events every refresh is refused, whatever happens next.
   */
  lemma RefreshLostReached(
      mode: Mode, memory: Option<string>, recording: seq<Exchange>, text: string, answer: string, id: string,
      run: seq<Action>, other: Option<string>, cassette: seq<Exchange>, save: Save)
    requires !Blank(text) && (mode == Recorded ==> recording != [])
    ensures var late := Run(Session(mode, memory, recording, CompactedRun(recording, text, answer, id)), run);
            WellShaped(late) && Apply(late, RefreshMemory(other, cassette, save)) == Done(late, Raised)
  {
    hide Inv, Apply, MemoryBound, Unbound, Flying, FlyingRun, Blank;
    FreshInv(mode, memory, recording);
    var first := Fresh(mode, memory, recording);
    var e := ChatFlies(mode, memory, recording, text);
    var flying := FlyingRun(recording, text);
    RunSnoc(first, flying, Settle(Answered(answer, false), Saved));
    AnswerLands(Run(first, flying), e, answer);
    var answered := flying + [Settle(Answered(answer, false), Saved)];
    RunSnoc(first, answered, CompactAuthor(id, 0, true, Saved));
    UnboundCompacts(Run(first, answered), id);
    RefreshLostForGood(Session(mode, memory, recording, CompactedRun(recording, text, answer, id)),
                       run, other, cassette, save);
  }
}
