/**
 * What holds over every run of the conversation controller: at-most-once
 * dispatch, write before dispatch, silence of a broken controller, preservation
 * of what was recorded, the exact way a settled message can change, and that no
 * check inside a step can fail on a state the controller produced.
 */
module SessionTheorems {
  import opened Prelude
  import opened Projection
  import opened SessionState
  import opened SessionMachine
  import opened SessionInvariant
  import opened SessionChanges
  import opened SessionSafety
  import opened SessionRuns

  // -------------------------------------------------------------------------
  // One step
  // -------------------------------------------------------------------------

  /** A review that waits for its Git scope goes on although it was cancelled meanwhile. */
  ghost predicate Revives(sys: System, a: Action) {
    && sys.live.Some? && !sys.live.value.broken
    && var c := sys.live.value;
    && a.ResumeRevalidated? && a.ok && a.admits && a.save != RaisedUnsaved
    && c.frame.Revalidating? && c.frame.index < |c.state.entries|
    && c.state.entries[c.frame.index].status == Cancelled
    && !AnyRunning(c.state.entries)
  }

  ghost function RevivedBy(sys: System, a: Action): Option<nat> {
    if Revives(sys, a) then Some(sys.live.value.frame.index) else None
  }

  lemma FrameSelects(sys: System, c: Controller)
    requires Inv(sys) && sys.live == Some(c) && !c.broken && c.frame.Revalidating?
    ensures Selectable(c.state, c.frame.index, c.frame.entry) && !IsChat(c.frame.entry)
  {
  }

  lemma WaitKeeps(sys: System, c: Controller, i: nat, d: Done)
    requires Inv(sys) && sys.live == Some(c)
    requires i < |c.state.entries| && c.state.entries[i].kind == Review(true)
    requires Selectable(c.state, i, c.state.entries[i])
    requires d.sys == sys.(live := Some(c.(busy := true, frame := Revalidating(i, c.state.entries[i]))))
    ensures Keeps(sys, d, None)
  {
    AdvanceNone(sys.durable);
  }

  lemma LiveState(sys: System, c: Controller)
    requires Inv(sys) && sys.live == Some(c)
    ensures StateInv(c.state) && Shaped(c) && (c.busy <==> c.frame != Idle)
  {
  }

  lemma StepKeeps(sys: System, c: Controller, admits: bool, save: Save, gate: Gate)
    requires Inv(sys) && sys.live == Some(c)
    ensures Keeps(sys, DoStep(sys, c, admits, save, gate), None)
  {
    hide Inv, Keeps, Launch, StateInv, Selectable;
    LiveState(sys, c);
    var d := DoStep(sys, c, admits, save, gate);
    var next := NextQueued(c.state.entries);
    if c.busy || next.None? {
      Unchanged(sys, d);
    } else {
      var i := next.value;
      FirstFound(c.state.entries, IsQueued, 0);
      NextSelectable(c.state, i);
      if c.state.entries[i].kind == Review(true) {
        WaitKeeps(sys, c, i, d);
      } else {
        LaunchKeeps(sys, c, i, c.state.entries[i], admits, save, gate);
      }
    }
  }

  /** A launch that is blocked, or whose save fails before it persists, leaves the durable state. */
  lemma LaunchUnsaved(sys: System, c: Controller, index: nat, e: Entry, admits: bool, save: Save, gate: Gate)
    requires Inv(sys) && sys.live == Some(c) && index < |c.state.entries|
    requires !c.broken ==> Selectable(c.state, index, e)
    requires Blocked(sys, c, index, e, admits) || save == RaisedUnsaved
    ensures Launch(sys, c, index, e, admits, save, gate).sys.durable == sys.durable
    ensures Launch(sys, c, index, e, admits, save, gate).sys.log == sys.log
  {
    hide StateInv, Selectable, LogTracks, Starts, StartState, LaunchWrite, Launch, FrameTracks, Begun;
    if Blocked(sys, c, index, e, admits) {
      BlockedLaunch(sys, c, index, e, admits, save, gate);
    } else {
      AdmittedLaunch(sys, c, index, e, admits, save, gate);
    }
  }

  lemma KeepsSame(sys: System, d: Done, x: Option<nat>)
    requires Keeps(sys, d, x) && d.sys.durable == sys.durable
    ensures Keeps(sys, d, None)
  {
    AdvanceNone(sys.durable);
  }

  lemma ResumeKeeps(sys: System, c: Controller, ok: bool, admits: bool, save: Save, gate: Gate)
    requires Inv(sys) && sys.live == Some(c)
    ensures Shaped(c)
    ensures Keeps(sys, DoResume(sys, c, ok, admits, save, gate),
                  RevivedBy(sys, ResumeRevalidated(ok, admits, save, gate)))
  {
    hide Inv, Keeps, Launch, StateInv, Selectable, Project;
    LiveState(sys, c);
    var d := DoResume(sys, c, ok, admits, save, gate);
    if !c.frame.Revalidating? {
      Unchanged(sys, d);
    } else if !ok {
      RestKeeps(sys, c, d);
    } else {
      var i, e := c.frame.index, c.frame.entry;
      if !c.broken {
        FrameSelects(sys, c);
      }
      LaunchKeeps(sys, c, i, e, admits, save, gate);
      if !Revives(sys, ResumeRevalidated(ok, admits, save, gate)) && Revived(c.state, i) != None {
        LaunchUnsaved(sys, c, i, e, admits, save, gate);
        KeepsSame(sys, d, Revived(c.state, i));
      }
    }
  }

  /** Every event keeps the system invariant and only moves the durable state forward. */
  lemma ApplyKeeps(sys: System, a: Action)
    requires Inv(sys)
    ensures WellShaped(sys)
    ensures Inv(Apply(sys, a).sys)
    ensures Advances(sys.durable, Apply(sys, a).sys.durable, RevivedBy(sys, a))
  {
    hide DoOpen, DoSubmit, DoAppend, DoCancel, DoRefresh, DoCompact, DoStep, DoResume, DoSettle,
         StateInv, Advances, LogTracks, LiveTracks;
    AdvanceNone(sys.durable);
    if sys.live.Some? {
      LiveState(sys, sys.live.value);
    }
    if a.Crash? || (sys.live.None? && !a.Open?) || (sys.live.Some? && a.Open?) {
    } else if sys.live.None? {
      OpenKeeps(sys, a.cassette, a.save);
    } else {
      var c := sys.live.value;
      match a
      case Submit(text, save) => SubmitKeeps(sys, c, text, save);
      case SubmitReview(gitScoped, save) => AppendKeeps(sys, c, ReviewEntry(gitScoped), save);
      case CancelQueued(save) => CancelKeeps(sys, c, save);
      case RefreshMemory(memory, cassette, save) => RefreshKeeps(sys, c, memory, cassette, save);
      case CompactAuthor(id, through, fits, save) => CompactKeeps(sys, c, id, through, fits, save);
      case Step(admits, save, gate) => StepKeeps(sys, c, admits, save, gate);
      case ResumeRevalidated(ok, admits, save, gate) => ResumeKeeps(sys, c, ok, admits, save, gate);
      case Settle(outcome, save) => SettleKeeps(sys, c, outcome, save);
    }
  }

  // -------------------------------------------------------------------------
  // Write before dispatch
  // -------------------------------------------------------------------------

  /** One dispatch was added; its start was already durable, and would have been had the process died first. */
  ghost predicate Dispatched(sys: System, d: Done, killed: Done) {
    && d.sys.log != [] && d.sys.log[..|d.sys.log| - 1] == sys.log
    && var last := d.sys.log[|d.sys.log| - 1];
    && d.reply == Suspended && d.sys.live.Some? && !d.sys.live.value.broken
    && killed.sys == System(d.sys.durable, sys.log, None)
    && last.message < |d.sys.durable.entries|
    && d.sys.durable.entries[last.message].status == Running
    && last.message !in DispatchKeys(sys.durable.journal)
    && last.message in DispatchKeys(d.sys.durable.journal)
    && (last.exchange.Some? ==> last.exchange.value == sys.durable.consumed < d.sys.durable.consumed)
  }

  lemma StartFacts(s: State, k: nat, e: Entry)
    requires Starts(s, k, e)
    ensures var t := StartState(s, k, e);
            && k < |t.entries| && t.entries[k] == e && e.status == Running && t.mode == s.mode
            && k !in DispatchKeys(s.journal) && k in DispatchKeys(t.journal)
            && t.consumed == SessionChanges.After(e, s.consumed)
  {
    Appended(s.journal, Event(k, s.revision + 1, SessionState.Dispatched));
  }

  lemma StartDispatches(sys: System, c: Controller, index: nat, e: Entry, d: Done, killed: Done)
    requires Begun(sys, c, index, e)
    requires var w := Written(c.(state := StartState(c.state, index, LaunchedEntry(c, index, e))),
                              StartState(c.state, index, LaunchedEntry(c, index, e)), true);
             && d == Pass(sys, w, index, Admit(c, index, e), c.state.consumed, Proceed)
             && killed == Pass(sys, w, index, Admit(c, index, e), c.state.consumed, Kill)
    ensures Dispatched(sys, d, killed)
  {
    hide Inv, StateInv, Starts, StartState, Begun, DispatchKeys;
    BegunParts(sys, c, index, e);
    BegunInv(sys, c, index, e);
    BegunStarts(sys, c, index, e);
    StartFacts(c.state, index, LaunchedEntry(c, index, e));
    assert d.sys.log[..|d.sys.log| - 1] == sys.log;
  }

  lemma BegunStarts(sys: System, c: Controller, index: nat, e: Entry)
    requires Begun(sys, c, index, e)
    ensures Starts(c.state, index, LaunchedEntry(c, index, e))
  {
  }

  lemma LaunchLog(sys: System, c: Controller, index: nat, e: Entry, admits: bool, save: Save, gate: Gate)
    requires Inv(sys) && sys.live == Some(c) && index < |c.state.entries|
    requires !c.broken ==> Selectable(c.state, index, e)
    ensures var d := Launch(sys, c, index, e, admits, save, gate);
            d.sys.log == sys.log || Dispatched(sys, d, Launch(sys, c, index, e, admits, save, Kill))
  {
    hide Inv, StateInv, Selectable, Starts, StartState, LaunchWrite, Launch, Begun, Dispatched, Replace, LaunchedEntry;
    if Blocked(sys, c, index, e, admits) {
      BlockedLaunch(sys, c, index, e, admits, save, gate);
    } else {
      AdmittedLaunch(sys, c, index, e, admits, save, gate);
      AdmittedLaunch(sys, c, index, e, admits, save, Kill);
      if save == Saved && gate == Proceed {
        BegunParts(sys, c, index, e);
        BegunInv(sys, c, index, e);
        StartDispatches(sys, c, index, e,
                        Launch(sys, c, index, e, admits, save, gate), Launch(sys, c, index, e, admits, save, Kill));
      }
    }
  }

  function WithGate(a: Action, gate: Gate): Action {
    match a
    case Step(admits, save, _) => Step(admits, save, gate)
    case ResumeRevalidated(ok, admits, save, _) => ResumeRevalidated(ok, admits, save, gate)
    case _ => a
  }

  lemma StepLog(sys: System, c: Controller, admits: bool, save: Save, gate: Gate)
    requires Inv(sys) && sys.live == Some(c)
    ensures var d := DoStep(sys, c, admits, save, gate);
            d.sys.log == sys.log || Dispatched(sys, d, DoStep(sys, c, admits, save, Kill))
  {
    hide Inv, Launch, StateInv, Selectable, Dispatched;
    LiveState(sys, c);
    var next := NextQueued(c.state.entries);
    if next.Some? {
      FirstFound(c.state.entries, IsQueued, 0);
      NextSelectable(c.state, next.value);
      LaunchLog(sys, c, next.value, c.state.entries[next.value], admits, save, gate);
    }
  }

  lemma ResumeLog(sys: System, c: Controller, ok: bool, admits: bool, save: Save, gate: Gate)
    requires Inv(sys) && sys.live == Some(c)
    ensures Shaped(c)
    ensures var d := DoResume(sys, c, ok, admits, save, gate);
            d.sys.log == sys.log || Dispatched(sys, d, DoResume(sys, c, ok, admits, save, Kill))
  {
    hide Inv, Launch, StateInv, Selectable, Dispatched;
    LiveState(sys, c);
    if c.frame.Revalidating? {
      if !c.broken {
        FrameSelects(sys, c);
      }
      LaunchLog(sys, c, c.frame.index, c.frame.entry, admits, save, gate);
    }
  }

  /**
   * A provider or reviewer is called only after the start of its message is
   * durable: the consumed count has passed its exchange, and dying between the
   * save and the call leaves the same durable state.
   */
  lemma WriteBeforeDispatch(sys: System, a: Action)
    requires Inv(sys)
    ensures WellShaped(sys)
    ensures Apply(sys, a).sys.log == sys.log || Dispatched(sys, Apply(sys, a), Apply(sys, WithGate(a, Kill)))
  {
    hide Inv, DoStep, DoResume, StateInv, Dispatched;
    if sys.live.Some? {
      var c := sys.live.value;
      LiveState(sys, c);
      if a.Step? {
        StepLog(sys, c, a.admits, a.save, a.gate);
      } else if a.ResumeRevalidated? {
        ResumeLog(sys, c, a.ok, a.admits, a.save, a.gate);
      }
    }
  }

  // -------------------------------------------------------------------------
  // Runs
  // -------------------------------------------------------------------------

  lemma FreshInv(mode: Mode, memory: Option<string>, recording: seq<Exchange>)
    ensures Inv(Fresh(mode, memory, recording))
  {
    var s := Fresh(mode, memory, recording).durable;
    assert Admitted(s.entries) == {} && DispatchKeys(s.journal) == {} && TerminalKeys(s.journal) == {};
  }

  /** The system after a run of events. */
  ghost function Run(sys: System, run: seq<Action>): (r: System)
    requires Inv(sys)
    ensures Inv(r)
  {
    if run == [] then sys
    else
      var before := Run(sys, run[..|run| - 1]);
      ApplyKeeps(before, run[|run| - 1]);
      Apply(before, run[|run| - 1]).sys
  }

  ghost function Session(mode: Mode, memory: Option<string>, recording: seq<Exchange>, run: seq<Action>): (r: System)
    ensures Inv(r)
  {
    FreshInv(mode, memory, recording);
    Run(Fresh(mode, memory, recording), run)
  }

  lemma LaterTrans(a: State, b: State, c: State)
    requires Later(a, b) && Later(b, c)
    ensures Later(a, c)
  {
    if a.mode == Recorded {
      PrefixTrans(a.recording, b.recording, c.recording, a.consumed, b.consumed);
    }
  }

  /** Over any run the durable state only moves forward and the log of dispatches only grows. */
  lemma {:induction false} RunForward(sys: System, run: seq<Action>)
    requires Inv(sys)
    ensures Later(sys.durable, Run(sys, run).durable)
    ensures sys.log <= Run(sys, run).log
  {
    hide Inv, Later, Dispatched, Apply;
    if run == [] {
      DurableLater(sys);
    } else {
      var before := Run(sys, run[..|run| - 1]);
      RunForward(sys, run[..|run| - 1]);
      StepForward(before, run[|run| - 1]);
      LaterTrans(sys.durable, before.durable, Apply(before, run[|run| - 1]).sys.durable);
    }
  }

  lemma DurableLater(sys: System)
    requires Inv(sys)
    ensures Later(sys.durable, sys.durable)
  {
    AdvanceNone(sys.durable);
    assert Advances(sys.durable, sys.durable, None);
  }

  lemma StepForward(sys: System, a: Action)
    requires Inv(sys)
    ensures WellShaped(sys)
    ensures Later(sys.durable, Apply(sys, a).sys.durable)
    ensures sys.log <= Apply(sys, a).sys.log
  {
    hide Inv, Later, Apply, WithGate;
    ApplyKeeps(sys, a);
    WriteBeforeDispatch(sys, a);
  }

  // -------------------------------------------------------------------------
  // At most once
  // -------------------------------------------------------------------------

  lemma LogEntry(sys: System, i: nat)
    requires Inv(sys) && i < |sys.log|
    ensures Accounted(sys.log[i], sys.durable)
    ensures AdmissionsValid(sys.durable.entries, sys.durable.consumed, sys.durable.revision)
    ensures forall j | 0 <= j < |sys.log| && j != i :: sys.log[i].message != sys.log[j].message
  {
    forall j | 0 <= j < |sys.log| && j != i ensures sys.log[i].message != sys.log[j].message {
      if i < j { } else { }
    }
  }

  /**
   * At-most-once dispatch. Over every run with crashes, failed saves and
   * reopening, each dispatched exchange is one the durable state counts as
   * consumed, a recorded dispatch showed the exchange that the current recording
   * still holds, and every other dispatch is of another message and exchange.
   */
  lemma AtMostOnce(mode: Mode, memory: Option<string>, recording: seq<Exchange>, run: seq<Action>, i: nat)
    requires i < |Session(mode, memory, recording, run).log|
    ensures var sys := Session(mode, memory, recording, run);
            var a := sys.log[i];
            && (a.exchange.Some? ==> a.exchange.value < sys.durable.consumed)
            && (a.exchange.Some? && mode == Recorded ==>
                  && a.exchange.value < |sys.durable.recording|
                  && a.content == Some(sys.durable.recording[a.exchange.value]))
    ensures var sys := Session(mode, memory, recording, run);
            var a := sys.log[i];
            forall j | 0 <= j < |sys.log| && j != i ::
              && sys.log[j].message != a.message
              && (a.exchange.Some? ==> sys.log[j].exchange != a.exchange)
  {
    hide Session, Inv;
    var sys := Session(mode, memory, recording, run);
    var a := sys.log[i];
    LogEntry(sys, i);
    SameMode(mode, memory, recording, run);
    Consumed(sys, a);
    forall j | 0 <= j < |sys.log| && j != i
      ensures sys.log[j].message != a.message
      ensures a.exchange.Some? ==> sys.log[j].exchange != a.exchange
    {
      LogEntry(sys, j);
      OneOwner(sys, a, sys.log[j]);
    }
  }

  lemma SameMode(mode: Mode, memory: Option<string>, recording: seq<Exchange>, run: seq<Action>)
    ensures Session(mode, memory, recording, run).durable.mode == mode
  {
    FreshInv(mode, memory, recording);
    RunForward(Fresh(mode, memory, recording), run);
  }

  lemma Consumed(sys: System, a: Dispatch)
    requires Accounted(a, sys.durable)
    requires AdmissionsValid(sys.durable.entries, sys.durable.consumed, sys.durable.revision)
    ensures a.exchange.Some? ==> a.exchange.value < sys.durable.consumed
  {
    if a.exchange.Some? {
      var s := sys.durable;
      assert AdmissionValid(s.entries[a.message].admission.value, a.message, |s.entries|, s.consumed, s.revision);
    }
  }

  lemma OneOwner(sys: System, a: Dispatch, b: Dispatch)
    requires Accounted(a, sys.durable) && Accounted(b, sys.durable) && a.message != b.message
    requires AdmissionsValid(sys.durable.entries, sys.durable.consumed, sys.durable.revision)
    ensures a.exchange.Some? && b.exchange.Some? ==> a.exchange != b.exchange
  {
    if a.exchange.Some? && b.exchange.Some? {
      var entries := sys.durable.entries;
      if a.message < b.message {
        assert entries[a.message].admission.value.exchangeIndex != entries[b.message].admission.value.exchangeIndex;
      } else {
        assert entries[b.message].admission.value.exchangeIndex != entries[a.message].admission.value.exchangeIndex;
      }
    }
  }

  /** Each consumed exchange belongs to exactly one message, in every durable state. */
  lemma EachExchangeOwned(
      mode: Mode, memory: Option<string>, recording: seq<Exchange>, run: seq<Action>, k: nat) returns (m: nat)
    requires k < Session(mode, memory, recording, run).durable.consumed
    ensures var entries := Session(mode, memory, recording, run).durable.entries;
            && m < |entries| && entries[m].admission.Some? && entries[m].admission.value.exchangeIndex == k
            && forall i | 0 <= i < |entries| && entries[i].admission.Some? ::
                 entries[i].admission.value.exchangeIndex == k ==> i == m
  {
    hide Session, Inv;
    var sys := Session(mode, memory, recording, run);
    InvLog(sys);
    m := Owner(sys.durable, k);
  }

  lemma Filled(owned: set<nat>, n: nat, k: nat)
    requires (forall x | x in owned :: x < n) && |owned| == n && k < n
    ensures k in owned
  {
    if k !in owned {
      Below(n, owned + {k});
    }
  }

  lemma {:induction false} Image(
      entries: seq<Entry>, members: set<nat>, consumed: nat, revision: nat)
    returns (owned: set<nat>)
    requires AdmissionsValid(entries, consumed, revision)
    requires forall i | i in members :: i < |entries| && entries[i].admission.Some?
    ensures |owned| == |members|
    ensures forall x | x in owned :: x < consumed &&
              exists i :: i in members && entries[i].admission.value.exchangeIndex == x
    decreases members
  {
    if members == {} {
      owned := {};
    } else {
      var i :| i in members;
      var rest := members - {i};
      var fewer := Image(entries, rest, consumed, revision);
      var x := entries[i].admission.value.exchangeIndex;
      assert AdmissionValid(entries[i].admission.value, i, |entries|, consumed, revision);
      if x in fewer {
        var j :| j in rest && entries[j].admission.value.exchangeIndex == x;
        Distinct(entries, i, j, consumed, revision);
      }
      owned := fewer + {x};
    }
  }

  lemma Distinct(entries: seq<Entry>, i: nat, j: nat, consumed: nat, revision: nat)
    requires AdmissionsValid(entries, consumed, revision)
    requires i < |entries| && j < |entries| && entries[i].admission.Some? && entries[j].admission.Some?
    requires entries[i].admission.value.exchangeIndex == entries[j].admission.value.exchangeIndex
    ensures i == j
  {
    if i < j { } else if j < i { }
  }

  lemma Owner(s: State, k: nat) returns (m: nat)
    requires StateInv(s) && k < s.consumed
    ensures m < |s.entries| && s.entries[m].admission.Some? && s.entries[m].admission.value.exchangeIndex == k
    ensures forall i | 0 <= i < |s.entries| && s.entries[i].admission.Some? ::
              s.entries[i].admission.value.exchangeIndex == k ==> i == m
  {
    hide JournalInv, JournalTracks, CompactionsValid, RecordingInv, Marked, Steered, OneRunning;
    var owned := Image(s.entries, Admitted(s.entries), s.consumed, s.revision);
    Filled(owned, s.consumed, k);
    m :| m in Admitted(s.entries) && s.entries[m].admission.value.exchangeIndex == k;
    forall i | 0 <= i < |s.entries| && s.entries[i].admission.Some? && s.entries[i].admission.value.exchangeIndex == k
      ensures i == m
    {
      Distinct(s.entries, i, m, s.consumed, s.revision);
    }
  }

  /** No run changes an exchange once it is consumed, whatever recordings a refresh brings in. */
  lemma ConsumedPrefixKept(
      mode: Mode, memory: Option<string>, recording: seq<Exchange>, run: seq<Action>, more: seq<Action>)
    requires mode == Recorded
    ensures var early, late := Session(mode, memory, recording, run), Run(Session(mode, memory, recording, run), more);
            && early.durable.consumed <= late.durable.consumed
            && PreservesPrefix(early.durable.recording, late.durable.recording, early.durable.consumed)
  {
    SameMode(mode, memory, recording, run);
    RunForward(Session(mode, memory, recording, run), more);
  }

  /** Once a message is bound to a memory context, no later event binds it to another. */
  lemma MemoryNeverRebound(
      mode: Mode, memory: Option<string>, recording: seq<Exchange>, run: seq<Action>, more: seq<Action>, i: nat)
    requires i < |Session(mode, memory, recording, run).durable.entries|
    requires Session(mode, memory, recording, run).durable.entries[i].memory.Some?
    ensures var late := Run(Session(mode, memory, recording, run), more).durable;
            && i < |late.entries|
            && late.entries[i].memory == Session(mode, memory, recording, run).durable.entries[i].memory
            && late.entries[i].text == Session(mode, memory, recording, run).durable.entries[i].text
  {
    hide Session, Inv;
    RunForward(Session(mode, memory, recording, run), more);
  }
}
