/**
 * What each event of the controller writes, field by field: what a dispatched
 * message is bound to, what a refresh, a compaction, a cancellation and a refused
 * start leave, and that a chat carries the memory of the last refresh before it.
 */
module SessionBinding {
  import opened Prelude
  import opened Projection
  import opened SessionState
  import opened SessionMachine
  import opened SessionInvariant
  import opened SessionChanges
  import opened SessionSafety
  import opened SessionRuns
  import opened SessionTheorems
  import opened SessionOutcomes
  import opened SessionEdges
  import opened SessionStranding

  // -------------------------------------------------------------------------
  // A dispatch
  // -------------------------------------------------------------------------

  /** Apart from entry i, the counts and the journal, t is s. */
  ghost predicate OnlyEntry(s: State, t: State, i: nat) {
    && i < |s.entries| == |t.entries|
    && (forall k | 0 <= k < |s.entries| && k != i :: t.entries[k] == s.entries[k])
    && t.mode == s.mode && t.memory == s.memory && t.recording == s.recording && t.retained == s.retained
    && t.compactions == s.compactions
  }

  /** The saved start of a chat: bound to the session's memory, admitted with the next exchange, which is shown. */
  ghost predicate ChatStarted(s: State, t: State, d: Dispatch) {
    && OnlyEntry(s, t, d.message)
    && var e := s.entries[d.message];
    && IsChat(e)
    && t.entries[d.message]
       == Entry(e.text, e.kind, Running, None, e.steeringFor,
                Some(Admission(d.message, s.revision, |s.entries|, s.consumed)),
                if s.retained.Some? then Some(s.memory) else None)
    && t.consumed == s.consumed + 1
    && d.exchange == Some(s.consumed)
    && (if s.mode == Recorded then s.consumed < |s.recording| && d.content == Some(s.recording[s.consumed])
        else d.content == None)
  }

  /** The saved start of a review: no memory, no admission, no exchange. */
  ghost predicate ReviewStarted(s: State, t: State, d: Dispatch) {
    && OnlyEntry(s, t, d.message)
    && var e := s.entries[d.message];
    && !IsChat(e)
    && t.entries[d.message] == Entry(e.text, e.kind, Running, None, None, None, None)
    && t.consumed == s.consumed
    && d.exchange == None && d.content == None
  }

  ghost predicate Started(sys: System, after: System) {
    && after.log != [] && after.log == sys.log + [after.log[|after.log| - 1]]
    && var s, t, d := sys.durable, after.durable, after.log[|after.log| - 1];
    && (ChatStarted(s, t, d) || ReviewStarted(s, t, d))
    && t.revision == s.revision + 1
    && t.journal == s.journal + [Event(d.message, s.revision + 1, SessionState.Dispatched)]
    && after.live.Some?
    && var c := after.live.value;
    && c.state == t && c.busy && !c.broken && c.frame == InFlight(d.message, t.entries[d.message].(status := Queued))
  }

  lemma SelectedFields(s: State, index: nat, e: Entry)
    requires Selectable(s, index, e)
    ensures index < |s.entries|
    ensures e.text == s.entries[index].text && e.kind == s.entries[index].kind && e.status == Queued
    ensures e.steeringFor == s.entries[index].steeringFor && (!IsChat(e) ==> e.steeringFor.None?)
    ensures e.answer.None? && e.admission.None? && e.memory.None?
  {
  }

  lemma LaunchWritesStart(sys: System, c: Controller, index: nat, e: Entry, admits: bool)
    requires Inv(sys) && sys.live == Some(c) && Selectable(c.state, index, e) && !Blocked(sys, c, index, e, admits)
    ensures index < |c.state.entries|
    ensures Started(sys, Launch(sys, c, index, e, admits, Saved, Proceed).sys)
  {
    hide Inv, StateInv, Selectable, Starts, LaunchWrite, Launch, Begun, Update, LogTracks, Advances, Project;
    SelectedFields(c.state, index, e);
    AdmittedLaunch(sys, c, index, e, admits, Saved, Proceed);
    BegunParts(sys, c, index, e);
    BegunInv(sys, c, index, e);
    var target := StartState(c.state, index, LaunchedEntry(c, index, e));
    assert target.entries == c.state.entries[index := LaunchedEntry(c, index, e)];
    var d := DispatchOf(c, index, Admit(c, index, e), c.state.consumed);
    var after := Launch(sys, c, index, e, admits, Saved, Proceed).sys;
    assert after.log == sys.log + [d];
  }

  lemma LaunchStarts(sys: System, c: Controller, index: nat, e: Entry, admits: bool, save: Save, gate: Gate)
    requires Inv(sys) && sys.live == Some(c) && index < |c.state.entries|
    requires !c.broken ==> Selectable(c.state, index, e)
    ensures var after := Launch(sys, c, index, e, admits, save, gate).sys;
            after.log == sys.log || (Started(sys, after) && after.log[|sys.log|].message == index)
  {
    hide Inv, StateInv, Selectable, Launch, Started, Blocked;
    if Blocked(sys, c, index, e, admits) {
      BlockedLaunch(sys, c, index, e, admits, save, gate);
    } else if save == Saved && gate == Proceed {
      NotBlocked(sys, c, index, e, admits);
      LaunchWritesStart(sys, c, index, e, admits);
      LaunchNames(sys, c, index, e, admits);
    } else {
      NotBlocked(sys, c, index, e, admits);
      HaltedLog(sys, c, index, e, admits, save, gate);
    }
  }

  lemma NotBlocked(sys: System, c: Controller, index: nat, e: Entry, admits: bool)
    requires !Blocked(sys, c, index, e, admits)
    ensures !c.broken
  {
  }

  lemma LaunchNames(sys: System, c: Controller, index: nat, e: Entry, admits: bool)
    requires Inv(sys) && sys.live == Some(c) && Selectable(c.state, index, e) && !Blocked(sys, c, index, e, admits)
    ensures index < |c.state.entries|
    ensures var log := Launch(sys, c, index, e, admits, Saved, Proceed).sys.log;
            |log| == |sys.log| + 1 && log[|sys.log|].message == index
  {
    hide Inv, StateInv, Selectable, Starts, StartState, LaunchWrite, Launch, Begun, Admit, Project;
    SelectedFields(c.state, index, e);
    AdmittedLaunch(sys, c, index, e, admits, Saved, Proceed);
    BegunParts(sys, c, index, e);
  }

  /** The message an event can dispatch: the first queued one, or the review that waits for its scope. */
  ghost predicate Chosen(c: Controller, a: Action, i: nat) {
    if a.Step? then
      && i < |c.state.entries| && c.state.entries[i].status == Queued
      && forall k | 0 <= k < i :: c.state.entries[k].status != Queued
    else a.ResumeRevalidated? && c.frame.Revalidating? && c.frame.index == i
  }

  /**
   * What a dispatching event writes. The message is the first queued one or the
   * waiting review; a chat is bound to the memory of the session, if that is
   * retained, and admitted with the next exchange, which is the one shown.
   */
  lemma DispatchWrites(sys: System, a: Action)
    requires Inv(sys)
    ensures WellShaped(sys)
    ensures var after := Apply(sys, a).sys;
            after.log != sys.log ==>
              && Started(sys, after) && sys.live.Some?
              && Chosen(sys.live.value, a, after.log[|sys.log|].message)
  {
    hide Inv, StateInv, Launch, Selectable, Started, SessionTheorems.Dispatched;
    WriteBeforeDispatch(sys, a);
    if sys.live.Some? {
      var c := sys.live.value;
      LiveState(sys, c);
      if a.Step? && !c.busy && NextQueued(c.state.entries).Some? {
        var i := NextQueued(c.state.entries).value;
        FirstFound(c.state.entries, IsQueued, 0);
        NextSelectable(c.state, i);
        StepUnfolds(sys, c, i, a.admits, a.save, a.gate);
        LaunchStarts(sys, c, i, c.state.entries[i], a.admits, a.save, a.gate);
      } else if a.ResumeRevalidated? && c.frame.Revalidating? {
        if !c.broken { FrameSelects(sys, c); }
        LaunchStarts(sys, c, c.frame.index, c.frame.entry, a.admits, a.save, a.gate);
      }
    }
  }

  // -------------------------------------------------------------------------
  // A refresh, and the chats after it
  // -------------------------------------------------------------------------

  /** The state an accepted refresh saves: only chats that left the queue unbound are bound, to the old memory. */
  lemma RefreshWrites(sys: System, c: Controller, memory: Option<string>, cassette: seq<Exchange>, save: Save)
    requires Inv(sys) && sys.live == Some(c) && DoRefresh(sys, c, memory, cassette, save).reply == Returned(true)
    ensures var s, d := c.state, DoRefresh(sys, c, memory, cassette, save).sys;
            var t := d.durable;
            && t == State(s.mode, s.revision + 1, s.consumed, t.entries, memory, cassette,
                          if s.mode == Recorded then Some(cassette) else None, s.compactions, s.journal)
            && |t.entries| == |s.entries|
            && d.live == Some(c.(state := t, cassette := cassette)) && d.log == sys.log
    ensures var s, t := c.state, DoRefresh(sys, c, memory, cassette, save).sys.durable;
            forall i | 0 <= i < |s.entries| ::
              t.entries[i] == if s.entries[i].status != Queued && IsChat(s.entries[i]) && s.entries[i].memory.None?
                              then s.entries[i].(memory := Some(s.memory)) else s.entries[i]
  {
    hide Commit, Refreshed, StateInv, LogTracks, Revalidates, PreservesPrefix, AnyRunning;
    LiveState(sys, c);
    RefreshUnbroken(sys, c, memory, cassette);
    WorkingState(sys, c);
    ProgressOf(Refreshed(c.state, memory, cassette));
    RefreshedInv(c.state, memory, cassette);
    RefreshedJournal(c.state, memory, cassette);
    CommitsAs(c, Refreshed(c.state, memory, cassette), save);
    RefreshedFields(c.state, memory, cassette);
  }

  lemma RefreshedFields(s: State, memory: Option<string>, cassette: seq<Exchange>)
    ensures var t := Refreshed(s, memory, cassette);
            && t == State(s.mode, s.revision + 1, s.consumed, t.entries, memory, cassette,
                          if s.mode == Recorded then Some(cassette) else None, s.compactions, s.journal)
            && |t.entries| == |s.entries|
            && forall i | 0 <= i < |s.entries| ::
                 t.entries[i] == if s.entries[i].status != Queued && IsChat(s.entries[i]) && s.entries[i].memory.None?
                                 then s.entries[i].(memory := Some(s.memory)) else s.entries[i]
  {
  }

  /** Only a refresh changes the memory of the session or what it retains. */
  lemma MemoryHeld(sys: System, a: Action)
    requires Inv(sys) && !a.RefreshMemory?
    ensures WellShaped(sys)
    ensures var t := Apply(sys, a).sys.durable;
            t.memory == sys.durable.memory && t.retained == sys.durable.retained && t.mode == sys.durable.mode
  {
    hide Inv, StateInv, Progress, Revalidates, TransitionJournal, JournalAdmits, Compactable, Launchable, Project,
         Admit, BindingsOf;
    if sys.live.Some? {
      LiveState(sys, sys.live.value);
      if a.Crash? {
      } else if sys.live.value.broken {
        BrokenStep(sys, a);
      } else {
        WorkingState(sys, sys.live.value);
      }
    }
  }

  lemma {:induction false} MemoryHeldOver(sys: System, run: seq<Action>)
    requires Inv(sys) && forall a | a in run :: !a.RefreshMemory?
    ensures var t := Run(sys, run).durable;
            t.memory == sys.durable.memory && t.retained == sys.durable.retained && t.mode == sys.durable.mode
  {
    hide Inv, Apply;
    if run != [] {
      assert run[|run| - 1] in run;
      MemoryHeldOver(sys, run[..|run| - 1]);
      MemoryHeld(Run(sys, run[..|run| - 1]), run[|run| - 1]);
    }
  }

  lemma StartedMemory(sys: System, after: System)
    requires Started(sys, after)
    ensures |after.log| == |sys.log| + 1
    ensures var i := after.log[|sys.log|].message;
            && i < |after.durable.entries|
            && (IsChat(after.durable.entries[i]) ==>
                  after.durable.entries[i].memory ==
                    if sys.durable.retained.Some? then Some(sys.durable.memory) else None)
  {
  }

  /**
   * A chat dispatched after an accepted refresh, with no other refresh between,
   * carries the memory that refresh selected, whatever else happened meanwhile; in
   * a live session, which retains no recording, it carries none.
   */
  lemma RefreshBinds(
      sys: System, memory: Option<string>, cassette: seq<Exchange>, save: Save, more: seq<Action>, a: Action)
    requires Inv(sys) && WellShaped(sys)
    requires Apply(sys, RefreshMemory(memory, cassette, save)).reply == Returned(true)
    requires forall b | b in more :: !b.RefreshMemory?
    ensures Inv(Apply(sys, RefreshMemory(memory, cassette, save)).sys)
    ensures var late := Run(Apply(sys, RefreshMemory(memory, cassette, save)).sys, more);
            && WellShaped(late)
            && (Apply(late, a).sys.log != late.log ==>
                  var d := Apply(late, a).sys;
                  && |d.log| == |late.log| + 1
                  && var i := d.log[|late.log|].message;
                  && i < |d.durable.entries|
                  && (IsChat(d.durable.entries[i]) ==>
                        d.durable.entries[i].memory == if late.durable.mode == Recorded then Some(memory) else None))
  {
    hide Inv, Run, DoRefresh, Started, StateInv, DoStep, DoResume, DoSettle, DoCompact,
         DoCancel, DoSubmit, DoAppend, DoOpen;
    ApplyKeeps(sys, RefreshMemory(memory, cassette, save));
    RefreshWrites(sys, sys.live.value, memory, cassette, save);
    var start := Apply(sys, RefreshMemory(memory, cassette, save)).sys;
    MemoryHeldOver(start, more);
    var late := Run(start, more);
    DispatchWrites(late, a);
    if Apply(late, a).sys.log != late.log {
      StartedMemory(late, Apply(late, a).sys);
    }
  }

  /** Before the first refresh a chat is dispatched without a memory context. */
  lemma UnboundBeforeRefresh(mode: Mode, memory: Option<string>, recording: seq<Exchange>, run: seq<Action>, a: Action)
    requires forall b | b in run :: !b.RefreshMemory?
    ensures var late := Session(mode, memory, recording, run);
            && WellShaped(late)
            && (Apply(late, a).sys.log != late.log ==>
                  var d := Apply(late, a).sys;
                  && |d.log| == |late.log| + 1
                  && var i := d.log[|late.log|].message;
                  i < |d.durable.entries| && (IsChat(d.durable.entries[i]) ==> d.durable.entries[i].memory.None?))
  {
    hide Inv, Run, Started, StateInv, Apply;
    FreshInv(mode, memory, recording);
    MemoryHeldOver(Fresh(mode, memory, recording), run);
    var late := Session(mode, memory, recording, run);
    DispatchWrites(late, a);
    if Apply(late, a).sys.log != late.log {
      StartedMemory(late, Apply(late, a).sys);
    }
  }

  // -------------------------------------------------------------------------
  // Compaction, cancellation, a refused start, the end of a request
  // -------------------------------------------------------------------------

  /** An accepted compaction adds one lineage, with what each covered message was, and changes nothing else. */
  lemma CompactionRecords(sys: System, c: Controller, id: string, through: nat, fits: bool, save: Save)
    requires Inv(sys) && sys.live == Some(c) && DoCompact(sys, c, id, through, fits, save).reply == Returned(true)
    ensures var s, t := c.state, DoCompact(sys, c, id, through, fits, save).sys.durable;
            && t == s.(compactions := t.compactions, revision := s.revision + 1)
            && |t.compactions| == |s.compactions| + 1 && t.compactions[..|s.compactions|] == s.compactions
            && var added := t.compactions[|s.compactions|];
            && added.id == id && added.through == through && added.sourceRevision == s.revision
            && through < |s.entries| && |added.bindings| == through + 1
            && forall p | 0 <= p <= through ::
                 added.bindings[p] == Binding(s.entries[p].text, s.entries[p].answer, s.entries[p].status,
                                              s.entries[p].steeringFor, s.entries[p].kind.Review?,
                                              s.entries[p].memory.Some?, s.entries[p].admission)
  {
    hide StateInv, LogTracks, AnyPending, WithCompaction, Commit;
    CompactUnbrokenAt(sys, c, id, through, fits, save);
    WorkingState(sys, c);
    CompactWrites(sys, c, id, through, fits, save);
    CompactExactly(sys, c, id, through, fits, save);
    CompactionFields(c.state, id, through);
  }

  lemma CompactUnbrokenAt(sys: System, c: Controller, id: string, through: nat, fits: bool, save: Save)
    requires DoCompact(sys, c, id, through, fits, save).reply == Returned(true)
    ensures !c.broken && through < |c.state.entries|
  {
    hide Revalidates, TransitionJournal, JournalAdmits;
  }

  lemma CompactionFields(s: State, id: string, through: nat)
    requires through < |s.entries|
    ensures var t := WithCompaction(s, id, through);
            && t == s.(compactions := t.compactions, revision := s.revision + 1)
            && |t.compactions| == |s.compactions| + 1 && t.compactions[..|s.compactions|] == s.compactions
            && var added := t.compactions[|s.compactions|];
            && added.id == id && added.through == through && added.sourceRevision == s.revision
            && |added.bindings| == through + 1
            && forall p | 0 <= p <= through ::
                 added.bindings[p] == Binding(s.entries[p].text, s.entries[p].answer, s.entries[p].status,
                                              s.entries[p].steeringFor, s.entries[p].kind.Review?,
                                              s.entries[p].memory.Some?, s.entries[p].admission)
  {
  }

  /** A successful cancel changes the status of the queued messages and nothing else. */
  lemma CancelWrites(sys: System, c: Controller)
    requires Inv(sys) && sys.live == Some(c) && !c.broken
    ensures var s, t := c.state, DoCancel(sys, c, Saved).sys.durable;
            && t == s.(entries := t.entries, revision := s.revision + 1)
            && |t.entries| == |s.entries|
            && forall i | 0 <= i < |s.entries| ::
                 t.entries[i] == if s.entries[i].status == Queued then s.entries[i].(status := Cancelled)
                                 else s.entries[i]
  {
    hide Update, StateInv, LogTracks, FrameTracks;
    WorkingState(sys, c);
    LiveState(sys, c);
    CancelTarget(c, Saved);
  }

  /** A start that is refused after it was saved fails its message, and the exchange it took stays spent. */
  lemma RefusalFails(sys: System, c: Controller, admits: bool)
    requires Inv(sys) && sys.live == Some(c)
    requires NextQueued(c.state.entries).Some? && CanDispatch(c, NextQueued(c.state.entries).value, admits)
    ensures var i, d := NextQueued(c.state.entries).value, DoStep(sys, c, admits, Saved, Refuse(Saved)).sys;
            && i < |c.state.entries| && OnlyEntry(c.state, d.durable, i)
            && d.durable.entries[i].status == Failed && d.durable.entries[i].answer.None?
            && d.durable.consumed == c.state.consumed + (if IsChat(c.state.entries[i]) then 1 else 0)
            && d.durable.journal == c.state.journal + [Event(i, c.state.revision + 1, SessionState.Dispatched)]
                                    + [Event(i, c.state.revision + 2, Uncertain)]
            && d.log == sys.log
            && d.live == Some(c.(state := d.durable))
  {
    hide Inv, StateInv, Selectable, Starts, LaunchWrite, Launch, Begun, Update, LogTracks, Advances, Project, FirstFrom;
    var i := NextQueued(c.state.entries).value;
    var e := c.state.entries[i];
    LiveState(sys, c);
    NextSelectable(c.state, i);
    QueuedOf(c.state.entries, i);
    SelectedFields(c.state, i, e);
    QueuedProjects(c.state, i);
    StepUnfolds(sys, c, i, admits, Saved, Refuse(Saved));
    AdmittedLaunch(sys, c, i, e, admits, Saved, Refuse(Saved));
    BegunParts(sys, c, i, e);
    var target := StartState(c.state, i, LaunchedEntry(c, i, e));
    var failed := Admit(c, i, e).(status := Failed);
    FailStops(target, i, Admit(c, i, e), failed);
    UpdateStops(c.(state := target), i, failed, Saved);
  }

  /** The end of a request closes its dispatch in the journal: with its result if it has one, else as uncertain. */
  lemma SettleCloses(sys: System, c: Controller, outcome: Outcome)
    requires Inv(sys) && sys.live == Some(c) && !c.broken && c.frame.InFlight? && !outcome.Escaped?
    ensures var s, d := c.state, DoSettle(sys, c, outcome, Saved).sys;
            var i := c.frame.index;
            && i < |s.entries| && OnlyEntry(s, d.durable, i)
            && d.durable.consumed == s.consumed && d.durable.revision == s.revision + 1
            && d.log == sys.log && d.live == Some(c.(state := d.durable, busy := false, frame := Idle))
            && var e := d.durable.entries[i];
            d.durable.journal
            == s.journal + [Event(i, s.revision + 1,
                                  if outcome.Answered?
                                     then Completion(TurnResult(e.text, e.answer, e.admission, e.status))
                                  else Uncertain)]
    ensures DoSettle(sys, c, outcome, Saved).reply == Returned(true)
            <==> outcome.Answered? && (IsChat(c.state.entries[c.frame.index]) || !outcome.infrastructureError)
    ensures DoSettle(sys, c, outcome, Saved).reply in {Returned(true), Raised}
  {
    hide Update, StateInv, LogTracks, Stops, EventsMatch;
    WorkingState(sys, c);
    LiveState(sys, c);
    FinishStops(c.state, c.frame.index, c.frame.entry, outcome);
    UpdateStops(c, c.frame.index, Finished(c.frame.entry, outcome), Saved);
    QuietEntry(c.state, c.frame.index, c.frame.entry);
  }

  lemma QuietEntry(s: State, i: nat, e: Entry)
    requires StateInv(s) && i < |s.entries| && s.entries[i] == e.(status := Running)
    ensures e.answer.None?
  {
    assert EntryValid(s.entries[i]);
  }

  // -------------------------------------------------------------------------
  // What a chat is shown
  // -------------------------------------------------------------------------

  /** A message steers none, or one that has completed or is covered by the latest compaction. */
  predicate Unlinked(s: State, p: nat)
    requires p < |s.entries|
  {
    match s.entries[p].steeringFor
    case None => true
    case Some(t) =>
      || (t < |s.entries| && s.entries[t].status == Completed)
      || (s.compactions != [] && t <= s.compactions[|s.compactions| - 1].through)
  }

  /**
   * The history a queued message of the session is launched with: its turns show
   * the texts and answers of the session's own messages, its own text last; each
   * text after the first of a turn steers the one before it, and the first steers
   * none that is unanswered and shown; what the latest compaction covers is
   * reported as such.
   */
  lemma ShownFromSession(s: State, i: nat, j: nat, k: nat)
    requires StateInv(s) && i < |s.entries| && s.entries[i].status == Queued
    ensures Project(MessagesOf(s.entries), i, LatestCompaction(s.compactions)).Ok?
    ensures var view := Project(MessagesOf(s.entries), i, LatestCompaction(s.compactions)).value;
            && |view.turns| == |view.selection.turnSources|
            && (j < |view.turns| && k < |view.turns[j].blocks| ==>
                  var at, shown := view.selection.turnSources[j].positions, view.turns[j].blocks[k];
                  && |at| == |view.turns[j].blocks| && at[k] <= i
                  && (if j % 2 == 0 then shown == s.entries[at[k]].text else s.entries[at[k]].answer == Some(shown))
                  && (j == |view.turns| - 1 && k == |at| - 1 ==> shown == s.entries[i].text)
                  && (j % 2 == 0 && k > 0 ==>
                        && at[k - 1] < at[k] && s.entries[at[k]].steeringFor == Some(at[k - 1])
                        && s.entries[at[k - 1]].status != Completed)
                  && (j % 2 == 0 && k == 0 ==> Unlinked(s, at[0])))
    ensures var selection := Project(MessagesOf(s.entries), i, LatestCompaction(s.compactions)).value.selection;
            if s.compactions == [] then selection.policyVersion == 1 && selection.compactedPositions == []
            else
              var last := s.compactions[|s.compactions| - 1];
              && selection.policyVersion == 2 && selection.compactionId == Some(last.id)
              && |selection.compactedPositions| == last.through + 1
  {
    hide StateInv, Project, Exchanges;
    var m, c := MessagesOf(s.entries), LatestCompaction(s.compactions);
    QueuedProjects(s, i);
    ProjectRecords(m, i, c);
    var view := Project(m, i, c).value;
    ProjectedTurns(m, i, c);
    if j < |view.turns| && k < |view.turns[j].blocks| {
      TurnsShow(m, i, c, j, k);
      TurnsAlternate(m, i, c, j);
      if j % 2 == 0 {
        UserTurnChains(m, i, c, j);
        SteeredBack(s, i, view.selection.turnSources[j].positions[k]);
        if k > 0 {
          assert Steers(m, if c.None? then -1 else c.value.through, view.selection.turnSources[j].positions, k);
        }
      }
    }
  }

  lemma ProjectedTurns(m: seq<Message>, i: int, c: Option<Compaction>)
    requires Project(m, i, c).Ok?
    ensures |Project(m, i, c).value.turns| == |Project(m, i, c).value.selection.turnSources|
  {
  }

  lemma SteeredBack(s: State, i: nat, p: nat)
    requires StateInv(s) && p <= i < |s.entries|
    ensures s.entries[p].steeringFor.Some? ==> s.entries[p].steeringFor.value < p
  {
  }

  /** The first queued message is a review that first looks at its scope. */
  ghost predicate ScopeFirst(entries: seq<Entry>, i: nat) {
    && i < |entries| && entries[i].status == Queued && entries[i].kind == Review(true)
    && forall k | 0 <= k < i :: entries[k].status != Queued
  }

  /** A step reports that there is nothing to do, or waits for a request or for a scope; it never reports success. */
  lemma StepReplies(sys: System, c: Controller, admits: bool, save: Save, gate: Gate)
    requires Inv(sys) && sys.live == Some(c)
    ensures var d := DoStep(sys, c, admits, save, gate);
            && d.reply != Returned(true)
            && (d.reply == Returned(false) <==> !c.busy && forall e | e in c.state.entries :: e.status != Queued)
            && (d.reply == Suspended <==>
                  d.sys.log != sys.log || (!c.busy && exists i :: ScopeFirst(c.state.entries, i)))
            && (d.reply == Died <==> d.sys.live.None?)
  {
    hide Inv, StateInv, Selectable, LaunchWrite, Admit, Launchable, Project, AnyRunning, FirstFrom;
    FirstFound(c.state.entries, IsQueued, 0);
    if !c.busy && NextQueued(c.state.entries).Some? {
      var i := NextQueued(c.state.entries).value;
      assert c.state.entries[i] in c.state.entries;
      assert c.state.entries[i].kind == Review(true) ==> ScopeFirst(c.state.entries, i);
    }
  }

  /** What a compaction needs in an idle session: an answered chat to keep, a later end than the last, and room. */
  lemma CompactableExactly(s: State, through: nat, fits: bool)
    ensures Compactable(s, through, fits) <==>
              && through < |s.entries| && |s.compactions| < 3 && fits
              && (s.compactions != [] ==> s.compactions[|s.compactions| - 1].through < through)
              && (exists p | 0 <= p <= through ::
                    s.entries[p].kind.Chat? && s.entries[p].status == Completed && s.entries[p].answer.Some?)
  {
  }
}
