/**
 * Consequences of the run invariant: what a broken or stuck controller can still
 * do, how a settled message changes, and exactly when operations succeed.
 */
module SessionOutcomes {
  import opened Prelude
  import opened Projection
  import opened SessionState
  import opened SessionMachine
  import opened SessionInvariant
  import opened SessionChanges
  import opened SessionSafety
  import opened SessionRuns
  import opened SessionTheorems

  // -------------------------------------------------------------------------
  // A broken controller is silent
  // -------------------------------------------------------------------------

  ghost predicate IsBroken(sys: System) {
    sys.live.Some? && sys.live.value.broken
  }

  lemma BrokenLaunch(sys: System, c: Controller, index: nat, e: Entry, admits: bool, save: Save, gate: Gate)
    requires Inv(sys) && sys.live == Some(c) && c.broken && index < |c.state.entries|
    ensures Launch(sys, c, index, e, admits, save, gate) == Done(sys.(live := Some(Rest(c))), Raised)
  {
    BlockedLaunch(sys, c, index, e, admits, save, gate);
  }

  lemma BrokenStep(sys: System, a: Action)
    requires Inv(sys) && IsBroken(sys) && !a.Crash?
    ensures WellShaped(sys)
    ensures var d := Apply(sys, a).sys; d.durable == sys.durable && d.log == sys.log && IsBroken(d)
  {
    hide Inv, Launch, Progress, Revalidates, Project, TransitionJournal;
    var c := sys.live.value;
    LiveState(sys, c);
    if a.Step? && !c.busy && NextQueued(c.state.entries).Some? {
      FirstFound(c.state.entries, IsQueued, 0);
      var i := NextQueued(c.state.entries).value;
      BrokenLaunch(sys, c, i, c.state.entries[i], a.admits, a.save, a.gate);
    } else if a.ResumeRevalidated? && c.frame.Revalidating? {
      BrokenLaunch(sys, c, c.frame.index, c.frame.entry, a.admits, a.save, a.gate);
    }
  }

  /** After a failed save nothing is written and nothing is dispatched until the process ends. */
  lemma {:induction false} BrokenStaysSilent(sys: System, run: seq<Action>)
    requires Inv(sys) && IsBroken(sys)
    requires forall a | a in run :: !a.Crash?
    ensures var later := Run(sys, run);
            later.durable == sys.durable && later.log == sys.log && IsBroken(later)
  {
    hide Inv, Apply;
    if run != [] {
      BrokenStaysSilent(sys, run[..|run| - 1]);
      BrokenStep(Run(sys, run[..|run| - 1]), run[|run| - 1]);
    }
  }

  // -------------------------------------------------------------------------
  // Settled messages
  // -------------------------------------------------------------------------

  lemma SettledOthers(s: State, s': State, x: Option<nat>, m: nat)
    requires Advances(s, s', x) && m < |s.entries| && Settled(s.entries[m].status) && x != Some(m)
    ensures m < |s'.entries| && ResultOf(s'.entries[m]) == ResultOf(s.entries[m])
  {
  }

  lemma PassMoves(sys: System, c: Controller, index: nat, e: Entry, w: Written, gate: Gate)
    requires Begun(sys, c, index, e)
    requires w == Written(c.(state := StartState(c.state, index, LaunchedEntry(c, index, e))),
                          StartState(c.state, index, LaunchedEntry(c, index, e)), true)
    requires index < |w.c.state.entries|
    requires IsChat(Admit(c, index, e)) && w.c.state.mode == Recorded ==> c.state.consumed < |w.c.cassette|
    ensures var t := Pass(sys, w, index, Admit(c, index, e), c.state.consumed, gate).sys.durable;
            index < |t.entries| && t.entries[index].status in {Running, Failed}
  {
    hide Inv, StateInv, Starts, StartState, Begun, Update, Stops, StopState, LogTracks, Admit, DispatchOf;
    BegunParts(sys, c, index, e);
    if gate.Refuse? {
      var failed := Admit(c, index, e).(status := Failed);
      FailStops(w.durable, index, Admit(c, index, e), failed);
      UpdateStops(w.c, index, failed, gate.save);
      StopShows(w.durable, index, failed);
    }
  }

  lemma StopShows(s: State, k: nat, e: Entry)
    requires k < |s.entries|
    ensures k < |StopState(s, k, e).entries| && StopState(s, k, e).entries[k] == e
  {
  }

  lemma LaunchMoves(sys: System, c: Controller, index: nat, e: Entry, admits: bool, save: Save, gate: Gate)
    requires Inv(sys) && sys.live == Some(c) && Selectable(c.state, index, e)
    requires !Blocked(sys, c, index, e, admits) && save != RaisedUnsaved
    ensures var t := Launch(sys, c, index, e, admits, save, gate).sys.durable;
            index < |t.entries| && t.entries[index].status in {Running, Failed}
  {
    hide Inv, StateInv, Selectable, Starts, StartState, LaunchWrite, Launch, Begun, Admit, LogTracks, Advances;
    AdmittedLaunch(sys, c, index, e, admits, save, gate);
    BegunParts(sys, c, index, e);
    BegunInv(sys, c, index, e);
    if save == Saved {
      PassMoves(sys, c, index, e, LaunchWrite(sys, c, index, e, save), gate);
    }
  }

  lemma ReviveMoves(sys: System, a: Action)
    requires Inv(sys) && Revives(sys, a)
    ensures WellShaped(sys)
    ensures var i, t := sys.live.value.frame.index, Apply(sys, a).sys.durable;
            i < |t.entries| && t.entries[i].status in {Running, Failed}
  {
    hide Inv, StateInv, Selectable, Launch;
    var c := sys.live.value;
    LiveState(sys, c);
    FrameSelects(sys, c);
    LaunchMoves(sys, c, c.frame.index, c.frame.entry, a.admits, a.save, a.gate);
  }

  lemma WorkingState(sys: System, c: Controller)
    requires Inv(sys) && sys.live == Some(c) && !c.broken
    ensures c.state == sys.durable && c.cassette == sys.durable.recording && FrameTracks(c.frame, sys.durable)
  {
  }

  /**
   * A settled message keeps its text, answer, admission and status in every step
   * but one: the resumption of a Git-scoped review that was cancelled while its
   * scope was revalidated. That step always replaces the cancelled status.
   */
  lemma SettledChangesExactly(sys: System, a: Action, m: nat)
    requires Inv(sys) && m < |sys.durable.entries| && Settled(sys.durable.entries[m].status)
    ensures WellShaped(sys) && m < |Apply(sys, a).sys.durable.entries|
    ensures ResultOf(Apply(sys, a).sys.durable.entries[m]) != ResultOf(sys.durable.entries[m])
            <==> Revives(sys, a) && sys.live.value.frame.index == m
  {
    hide Inv, Apply, Advances, FrameTracks, ResultOf, AnyRunning;
    ApplyKeeps(sys, a);
    if Revives(sys, a) && sys.live.value.frame.index == m {
      ReviveMoves(sys, a);
      WorkingState(sys, sys.live.value);
      StatusShows(sys.durable.entries[m], Apply(sys, a).sys.durable.entries[m]);
    } else {
      SettledOthers(sys.durable, Apply(sys, a).sys.durable, RevivedBy(sys, a), m);
    }
  }

  lemma StatusShows(e: Entry, e': Entry)
    requires e.status != e'.status
    ensures ResultOf(e) != ResultOf(e')
  {
  }

  // -------------------------------------------------------------------------
  // Checks that never fail
  // -------------------------------------------------------------------------

  lemma BackwardsFrom(entries: seq<Entry>, n: nat)
    requires Steered(entries) && n <= |entries|
    ensures BackwardLinks(MessagesOf(entries), n)
  {
    var messages := MessagesOf(entries);
    forall p | 0 <= p < n && messages[p].steeringFor.Some? ensures 0 <= messages[p].steeringFor.value < p {
      assert messages[p] == MessageOf(entries[p]);
    }
  }

  /** The history check of a step never fails: every queued entry of a live controller projects. */
  lemma StepAlwaysProjects(mode: Mode, memory: Option<string>, recording: seq<Exchange>, run: seq<Action>, i: nat)
    requires var sys := Session(mode, memory, recording, run);
             sys.live.Some? && i < |sys.live.value.state.entries| && sys.live.value.state.entries[i].status == Queued
    ensures var s := Session(mode, memory, recording, run).live.value.state;
            Project(MessagesOf(s.entries), i, LatestCompaction(s.compactions)).Ok?
  {
    hide Session, Inv, Project;
    var sys := Session(mode, memory, recording, run);
    LiveState(sys, sys.live.value);
    QueuedProjects(sys.live.value.state, i);
  }

  lemma QueuedProjects(s: State, i: nat)
    requires StateInv(s) && i < |s.entries| && s.entries[i].status == Queued
    ensures Project(MessagesOf(s.entries), i, LatestCompaction(s.compactions)).Ok?
  {
    hide Project, JournalInv, JournalTracks;
    BackwardsFrom(s.entries, i + 1);
    if s.compactions != [] {
      var k := |s.compactions| - 1;
      if i <= s.compactions[k].through {
        CoveredSettled(s.compactions, s.entries, s.revision, k, i);
      }
    }
    ProjectSucceedsExactly(MessagesOf(s.entries), i, LatestCompaction(s.compactions));
  }

  lemma PendingBeyond(s: State, k: nat, i: nat)
    requires CompactionsValid(s.compactions, s.entries, s.revision)
    requires k < |s.compactions| && i < |s.entries| && !Settled(s.entries[i].status)
    ensures s.compactions[k].through < i
  {
    assert Reconstructs(s.compactions[k], s.entries, s.revision);
  }

  /** The shape of every durable state: at most one message runs, links point back, compactions end before the queue. */
  lemma DurableShape(mode: Mode, memory: Option<string>, recording: seq<Exchange>, run: seq<Action>)
    ensures var s := Session(mode, memory, recording, run).durable;
            && |s.entries| <= MAX_ENTRIES
            && OneRunning(s.entries)
            && BackwardLinks(MessagesOf(s.entries), |s.entries|)
            && Revalidates(s)
    ensures var s := Session(mode, memory, recording, run).durable;
            forall i, k | 0 <= i < |s.entries| && 0 <= k < |s.compactions| && !Settled(s.entries[i].status) ::
              s.compactions[k].through < i
  {
    hide Session, Inv;
    var sys := Session(mode, memory, recording, run);
    InvLog(sys);
    BackwardsFrom(sys.durable.entries, |sys.durable.entries|);
    InvariantProgresses(sys.durable);
    JournalFits(sys.durable.journal, sys.durable.entries, sys.durable.revision);
    forall i, k | 0 <= i < |sys.durable.entries| && 0 <= k < |sys.durable.compactions|
                  && !Settled(sys.durable.entries[i].status)
      ensures sys.durable.compactions[k].through < i
    {
      PendingBeyond(sys.durable, k, i);
    }
  }

  // -------------------------------------------------------------------------
  // Exactly when an operation takes effect
  // -------------------------------------------------------------------------

  /** Everything the next step needs in order to dispatch message i; the history check is not part of it. */
  ghost predicate CanDispatch(c: Controller, i: nat, admits: bool) {
    && !c.busy && !c.broken
    && NextQueued(c.state.entries) == Some(i) && i < |c.state.entries|
    && c.state.entries[i].kind != Review(true)
    && admits
    && !AnyRunning(c.state.entries)
    && (IsChat(c.state.entries[i]) && c.state.mode == Recorded ==> c.state.consumed < |c.cassette|)
  }

  lemma LaunchDispatches(sys: System, c: Controller, i: nat, admits: bool, save: Save, gate: Gate)
    requires Inv(sys) && sys.live == Some(c) && CanDispatch(c, i, admits)
    requires save == Saved && gate == Proceed
    ensures var d := Launch(sys, c, i, c.state.entries[i], admits, save, gate);
            |d.sys.log| == |sys.log| + 1 && d.sys.log[|sys.log|].message == i
  {
    hide Inv, StateInv, Selectable, Starts, StartState, LaunchWrite, Launch, Begun, Admit, Project, AnyRunning;
    var e := c.state.entries[i];
    LiveState(sys, c);
    NextSelectable(c.state, i);
    QueuedOf(c.state.entries, i);
    QueuedProjects(c.state, i);
    AdmittedLaunch(sys, c, i, e, admits, save, gate);
    BegunParts(sys, c, i, e);
  }

  lemma QueuedOf(entries: seq<Entry>, i: nat)
    requires NextQueued(entries) == Some(i)
    ensures i < |entries| && entries[i].status == Queued
  {
    FirstFound(entries, IsQueued, 0);
  }

  lemma StepUnfolds(sys: System, c: Controller, i: nat, admits: bool, save: Save, gate: Gate)
    requires NextQueued(c.state.entries) == Some(i) && !c.busy
    ensures i < |c.state.entries|
    ensures c.state.entries[i].kind != Review(true) ==>
              DoStep(sys, c, admits, save, gate) == Launch(sys, c, i, c.state.entries[i], admits, save, gate)
    ensures c.state.entries[i].kind == Review(true) ==> DoStep(sys, c, admits, save, gate).sys.log == sys.log
  {
    hide Launch;
    QueuedOf(c.state.entries, i);
  }

  /** A step dispatches its message exactly when the message can be dispatched and its start is saved. */
  lemma StepDispatchesExactly(sys: System, c: Controller, admits: bool, save: Save, gate: Gate)
    requires Inv(sys) && sys.live == Some(c)
    ensures DoStep(sys, c, admits, save, gate).sys.log != sys.log <==>
              && NextQueued(c.state.entries).Some?
              && CanDispatch(c, NextQueued(c.state.entries).value, admits)
              && save == Saved && gate == Proceed
  {
    hide Inv, StateInv, Selectable, LaunchWrite, Launch, Admit, Project, AnyRunning, FirstFrom;
    var next := NextQueued(c.state.entries);
    if !c.busy && next.Some? {
      var i := next.value;
      StepUnfolds(sys, c, i, admits, save, gate);
      var e := c.state.entries[i];
      LiveState(sys, c);
      NextSelectable(c.state, i);
      if CanDispatch(c, i, admits) && save == Saved && gate == Proceed {
        LaunchDispatches(sys, c, i, admits, save, gate);
      } else if e.kind != Review(true) {
        if Blocked(sys, c, i, e, admits) {
          BlockedLaunch(sys, c, i, e, admits, save, gate);
        } else {
          HaltedLog(sys, c, i, e, admits, save, gate);
        }
      }
    }
  }

  lemma HaltedLog(sys: System, c: Controller, i: nat, e: Entry, admits: bool, save: Save, gate: Gate)
    requires Inv(sys) && sys.live == Some(c) && Selectable(c.state, i, e) && !Blocked(sys, c, i, e, admits)
    requires save != Saved || gate != Proceed
    ensures i < |c.state.entries|
    ensures Launch(sys, c, i, e, admits, save, gate).sys.log == sys.log
  {
    hide Inv, StateInv, Selectable, Starts, StartState, LaunchWrite, Launch, Begun, Admit, Update;
    AdmittedLaunch(sys, c, i, e, admits, save, gate);
    BegunParts(sys, c, i, e);
  }

  /** Submitting succeeds exactly on non-blank text, a working controller, a free place and a save. */
  lemma SubmitExactly(sys: System, c: Controller, text: string, save: Save)
    requires Inv(sys) && sys.live == Some(c)
    ensures DoSubmit(sys, c, text, save).reply == Returned(true)
            <==> !Blank(text) && !c.broken && save == Saved && |c.state.entries| < MAX_ENTRIES
    ensures DoSubmit(sys, c, text, save).reply == Returned(true) ==>
              var d, active := DoSubmit(sys, c, text, save).sys.durable, ActiveChatIndex(c.state.entries);
              && d.entries == sys.durable.entries + [ChatEntry(text, active)]
              && (forall i | 0 <= i < |c.state.entries| :: Some(i) == active <==> IsActiveChat(c.state.entries[i]))
  {
    hide Update;
    if !Blank(text) {
      FirstFound(c.state.entries, IsActiveChat, 0);
      var e := ChatEntry(text, ActiveChatIndex(c.state.entries));
      AppendKeeps(sys, c, e, save);
      LiveState(sys, c);
      OneActive(c.state.entries, c.state.consumed, c.state.revision);
    }
  }

  lemma OneActive(entries: seq<Entry>, consumed: nat, revision: nat)
    requires EntriesInv(entries, consumed, revision)
    ensures forall i | 0 <= i < |entries| :: Some(i) == ActiveChatIndex(entries) <==> IsActiveChat(entries[i])
  {
    FirstFound(entries, IsActiveChat, 0);
    forall i | 0 <= i < |entries| && IsActiveChat(entries[i]) ensures Some(i) == ActiveChatIndex(entries) {
      var k := ActiveChatIndex(entries).value;
      assert k <= i;
    }
  }
}
