/**
 * Every operation of the controller keeps the system invariant, so the safety
 * results hold over every run: at-most-once dispatch, write before dispatch,
 * silence of a broken controller, stability of settled messages, and no failed
 * projection or validation.
 */
module SessionRuns {
  import opened Prelude
  import opened Projection
  import opened SessionState
  import opened SessionMachine
  import opened SessionInvariant
  import opened SessionChanges
  import opened SessionSafety

  // -------------------------------------------------------------------------
  // How one durable state follows another
  // -------------------------------------------------------------------------

  /** Settled messages keep their text, status and result, except possibly message x. */
  ghost predicate SettledKept(s: State, s': State, x: Option<nat>) {
    && |s.entries| <= |s'.entries|
    && forall i | 0 <= i < |s.entries| && Settled(s.entries[i].status) && Some(i) != x ::
         ResultOf(s'.entries[i]) == ResultOf(s.entries[i])
  }

  ghost predicate Advances(s: State, s': State, x: Option<nat>) {
    Later(s, s') && SettledKept(s, s', x)
  }

  lemma AdvanceNone(s: State)
    requires StateInv(s)
    ensures forall x :: Advances(s, s, x)
  {
  }

  lemma PrefixTrans(a: seq<Exchange>, b: seq<Exchange>, c: seq<Exchange>, n: nat, m: nat)
    requires n <= m && PreservesPrefix(a, b, n) && PreservesPrefix(b, c, m)
    ensures PreservesPrefix(a, c, n)
  {
    assert c[..n] == c[..m][..n] == b[..m][..n] == b[..n];
  }

  lemma AdvanceTrans(a: State, b: State, c: State, x: Option<nat>)
    requires Advances(a, b, x) && Advances(b, c, None)
    ensures Advances(a, c, x)
  {
    if a.mode == Recorded {
      PrefixTrans(a.recording, b.recording, c.recording, a.consumed, b.consumed);
    }
    forall i | 0 <= i < |a.entries| && Settled(a.entries[i].status) && Some(i) != x
      ensures ResultOf(c.entries[i]) == ResultOf(a.entries[i])
    {
      assert ResultOf(b.entries[i]) == ResultOf(a.entries[i]);
    }
  }

  lemma StopAdvances(s: State, k: nat, e: Entry)
    requires Stops(s, k, e) && RecordingInv(s)
    ensures Advances(s, StopState(s, k, e), None)
  {
    StopLater(s, k, e);
  }

  lemma StartAdvances(s: State, k: nat, e: Entry)
    requires Starts(s, k, e) && RecordingInv(s)
    ensures Advances(s, StartState(s, k, e), if s.entries[k].status == Cancelled then Some(k) else None)
  {
    StartLater(s, k, e);
  }

  lemma IdleAdvances(s: State, entries: seq<Entry>)
    requires IdlesAll(s.entries, entries) && RecordingInv(s)
    requires forall i | 0 <= i < |s.entries| ::
               entries[i].text == s.entries[i].text && entries[i].steeringFor == s.entries[i].steeringFor
    ensures Advances(s, IdleState(s, entries), None)
  {
    IdleLater(s, entries);
    assert forall i | 0 <= i < |s.entries| :: Idles(s.entries[i], entries[i]);
  }

  // -------------------------------------------------------------------------
  // Operations that write once and leave the frame alone
  // -------------------------------------------------------------------------

  ghost predicate Keeps(sys: System, d: Done, x: Option<nat>) {
    && Inv(d.sys)
    && Advances(sys.durable, d.sys.durable, x)
  }

  lemma Unchanged(sys: System, d: Done)
    requires Inv(sys) && d.sys == sys
    ensures Keeps(sys, d, None)
  {
    AdvanceNone(sys.durable);
  }

  lemma SavedKeeps(sys: System, c: Controller, target: State, save: Save, w: Written)
    requires Inv(sys) && sys.live == Some(c) && !c.broken
    requires StateInv(target) && Advances(c.state, target, None)
    requires FrameTracks(c.frame, target) && target.recording == c.cassette
    requires SavedAs(c, target, save, w)
    ensures Keeps(sys, Wrote(sys, w), None)
  {
    AdvanceNone(sys.durable);
    LogKept(sys.log, sys.durable, target);
  }

  /** A broken controller raises before it writes. */
  lemma BrokenWrites(sys: System, c: Controller, entries: seq<Entry>, consumed: nat, save: Save)
    requires Inv(sys) && sys.live == Some(c) && c.broken
    ensures Update(c, sys.durable, entries, consumed, save) == Written(c, sys.durable, false)
    ensures Keeps(sys, Wrote(sys, Update(c, sys.durable, entries, consumed, save)), None)
  {
    AdvanceNone(sys.durable);
    assert Wrote(sys, Written(c, sys.durable, false)).sys == sys;
  }

  lemma FrameAppends(f: Frame, s: State, e: Entry)
    requires FrameTracks(f, s)
    ensures FrameTracks(f, IdleState(s, s.entries + [e]))
  {
    assert forall i | 0 <= i < |s.entries| :: (s.entries + [e])[i] == s.entries[i];
  }

  lemma FrameCancels(f: Frame, s: State)
    requires FrameTracks(f, s)
    ensures FrameTracks(f, IdleState(s, Each(s.entries, Cancel)))
  {
  }

  lemma AppendTarget(c: Controller, e: Entry, save: Save)
    requires !c.broken && StateInv(c.state) && Appendable(c.state.entries, e) && |c.state.entries| < MAX_ENTRIES
    ensures var entries := c.state.entries + [e];
            && StateInv(IdleState(c.state, entries))
            && Advances(c.state, IdleState(c.state, entries), None)
            && SavedAs(c, IdleState(c.state, entries), save, Update(c, c.state, entries, c.state.consumed, save))
  {
    var s := c.state;
    AppendEntries(s.entries, e, s.consumed, s.revision);
    AppendIdles(s.entries, e);
    assert forall i | 0 <= i < |s.entries| :: (s.entries + [e])[i] == s.entries[i];
    IdleAdvances(s, s.entries + [e]);
    UpdateIdles(c, s.entries + [e], save);
  }

  lemma FullRefuses(c: Controller, e: Entry, save: Save)
    requires |c.state.entries| >= MAX_ENTRIES
    ensures Update(c, c.state, c.state.entries + [e], c.state.consumed, save) == Written(c, c.state, false)
  {
  }

  lemma AppendKeeps(sys: System, c: Controller, e: Entry, save: Save)
    requires Inv(sys) && sys.live == Some(c)
    requires !c.broken ==> Appendable(c.state.entries, e)
    ensures Keeps(sys, DoAppend(sys, c, e, save), None)
    ensures DoAppend(sys, c, e, save).reply == Returned(true)
            <==> !c.broken && save == Saved && |c.state.entries| < MAX_ENTRIES
  {
    if c.broken {
      BrokenWrites(sys, c, c.state.entries + [e], c.state.consumed, save);
    } else if |c.state.entries| >= MAX_ENTRIES {
      FullRefuses(c, e, save);
      Unchanged(sys, DoAppend(sys, c, e, save));
    } else {
      AppendTarget(c, e, save);
      FrameAppends(c.frame, c.state, e);
      SavedKeeps(sys, c, IdleState(c.state, c.state.entries + [e]), save,
                 Update(c, c.state, c.state.entries + [e], c.state.consumed, save));
    }
  }

  lemma SubmitKeeps(sys: System, c: Controller, text: string, save: Save)
    requires Inv(sys) && sys.live == Some(c)
    ensures Keeps(sys, DoSubmit(sys, c, text, save), None)
  {
    if Blank(text) {
      Unchanged(sys, DoSubmit(sys, c, text, save));
    } else {
      FirstFound(c.state.entries, IsActiveChat, 0);
      AppendKeeps(sys, c, ChatEntry(text, ActiveChatIndex(c.state.entries)), save);
    }
  }

  lemma CancelTarget(c: Controller, save: Save)
    requires !c.broken && StateInv(c.state)
    ensures var entries := Each(c.state.entries, Cancel);
            && StateInv(IdleState(c.state, entries))
            && Advances(c.state, IdleState(c.state, entries), None)
            && SavedAs(c, IdleState(c.state, entries), save, Update(c, c.state, entries, c.state.consumed, save))
  {
    var s := c.state;
    var entries := Each(s.entries, Cancel);
    forall i | 0 <= i < |s.entries| ensures Quiet(s.entries[i], entries[i]) && Idles(s.entries[i], entries[i]) {
      assert EntryValid(s.entries[i]);
    }
    QuietKeeps(s.entries, entries, s.consumed, s.revision);
    IdleAdvances(s, entries);
    UpdateIdles(c, entries, save);
  }

  lemma CancelKeeps(sys: System, c: Controller, save: Save)
    requires Inv(sys) && sys.live == Some(c)
    ensures Keeps(sys, DoCancel(sys, c, save), None)
    ensures DoCancel(sys, c, save).reply == Returned(true) <==> !c.broken && save == Saved
  {
    var entries := Each(c.state.entries, Cancel);
    if c.broken {
      BrokenWrites(sys, c, entries, c.state.consumed, save);
    } else {
      CancelTarget(c, save);
      FrameCancels(c.frame, c.state);
      SavedKeeps(sys, c, IdleState(c.state, entries), save, Update(c, c.state, entries, c.state.consumed, save));
    }
  }

  // -------------------------------------------------------------------------
  // Memory refresh and compaction
  // -------------------------------------------------------------------------

  lemma FreezeQuiet(s: State)
    requires Marked(s.entries)
    ensures var entries := Refreshed(s, None, []).entries;
            QuietAll(s.entries, entries) && IdlesAll(s.entries, entries)
  {
    var entries := Each(s.entries, e => Freeze(e, s.memory));
    forall i | 0 <= i < |s.entries| ensures Quiet(s.entries[i], entries[i]) && Idles(s.entries[i], entries[i]) {
      assert EntryValid(s.entries[i]);
    }
  }

  lemma RefreshedInv(s: State, memory: Option<string>, cassette: seq<Exchange>)
    requires StateInv(s) && Progress(Refreshed(s, memory, cassette))
    requires s.mode == Recorded ==> PreservesPrefix(s.recording, cassette, s.consumed)
    ensures StateInv(Refreshed(s, memory, cassette))
    ensures TransitionJournal(s, Refreshed(s, memory, cassette)) == s.journal
  {
    var t := Refreshed(s, memory, cassette);
    FreezeQuiet(s);
    assert t.entries == Refreshed(s, None, []).entries;
    QuietKeeps(s.entries, t.entries, s.consumed, s.revision);
    IdleJournal(s.journal, s.entries, t.entries, t.revision);
    JournalLater(s.journal, s.revision);
  }

  lemma RefreshedAdvances(s: State, memory: Option<string>, cassette: seq<Exchange>)
    requires StateInv(s)
    requires s.mode == Recorded ==> PreservesPrefix(s.recording, cassette, s.consumed)
    ensures Advances(s, Refreshed(s, memory, cassette), None)
  {
    var t := Refreshed(s, memory, cassette);
    assert forall i | 0 <= i < |s.entries| :: t.entries[i] == Freeze(s.entries[i], s.memory);
  }

  lemma CommitsAs(c: Controller, target: State, save: Save)
    requires !c.broken
    requires StateInv(target) && TransitionJournal(c.state, target) == target.journal
    ensures SavedAs(c, target, save, Commit(c, c.state, target, save))
  {
    JournalFits(target.journal, target.entries, target.revision);
    assert target.(journal := target.journal) == target;
  }

  lemma RefreshSaved(sys: System, c: Controller, target: State, save: Save, w: Written)
    requires Inv(sys) && sys.live == Some(c) && !c.broken && c.frame == Idle
    requires StateInv(target) && Advances(c.state, target, None)
    requires SavedAs(c, target, save, w)
    ensures Keeps(sys, Wrote(sys, if w.ok then w.(c := w.c.(cassette := target.recording)) else w), None)
  {
    AdvanceNone(sys.durable);
    LogKept(sys.log, sys.durable, target);
  }

  lemma RefreshKeeps(sys: System, c: Controller, memory: Option<string>, cassette: seq<Exchange>, save: Save)
    requires Inv(sys) && sys.live == Some(c)
    ensures Keeps(sys, DoRefresh(sys, c, memory, cassette, save), None)
  {
    var d := DoRefresh(sys, c, memory, cassette, save);
    var target := Refreshed(c.state, memory, cassette);
    if c.broken || d.sys == sys {
      assert d.sys == sys;
      Unchanged(sys, d);
    } else {
      RefreshedInv(c.state, memory, cassette);
      RefreshedAdvances(c.state, memory, cassette);
      CommitsAs(c, target, save);
      RefreshSaved(sys, c, target, save, Commit(c, sys.durable, target, save));
    }
  }

  lemma CompactedInv(s: State, id: string, through: nat)
    requires StateInv(s) && through < |s.entries| && Progress(WithCompaction(s, id, through))
    ensures StateInv(WithCompaction(s, id, through))
    ensures TransitionJournal(s, WithCompaction(s, id, through)) == s.journal
  {
    var t := WithCompaction(s, id, through);
    IdleJournal(s.journal, s.entries, s.entries, t.revision);
    JournalLater(s.journal, s.revision);
    SameEntries(s);
  }

  lemma SameEntries(s: State)
    requires EntriesInv(s.entries, s.consumed, s.revision)
    ensures EntriesInv(s.entries, s.consumed, s.revision + 1)
  {
    QuietKeeps(s.entries, s.entries, s.consumed, s.revision);
  }

  lemma CompactedAdvances(s: State, id: string, through: nat)
    requires RecordingInv(s) && through < |s.entries|
    ensures Advances(s, WithCompaction(s, id, through), None)
  {
  }

  lemma CompactKeeps(sys: System, c: Controller, id: string, through: nat, fits: bool, save: Save)
    requires Inv(sys) && sys.live == Some(c)
    ensures Keeps(sys, DoCompact(sys, c, id, through, fits, save), None)
  {
    var d := DoCompact(sys, c, id, through, fits, save);
    if c.broken || d.sys == sys {
      assert d.sys == sys;
      Unchanged(sys, d);
    } else {
      var target := WithCompaction(c.state, id, through);
      CompactedInv(c.state, id, through);
      CompactedAdvances(c.state, id, through);
      CommitsAs(c, target, save);
      SavedKeeps(sys, c, target, save, Commit(c, sys.durable, target, save));
    }
  }

  // -------------------------------------------------------------------------
  // Opening
  // -------------------------------------------------------------------------

  lemma InterruptStops(s: State, k: nat)
    requires StateInv(s) && k < |s.entries| && s.entries[k].status == Running
    ensures Each(s.entries, Interrupt) == s.entries[k := Interrupt(s.entries[k])]
    ensures Stops(s, k, Interrupt(s.entries[k]))
  {
    var entries := Each(s.entries, Interrupt);
    forall i | 0 <= i < |s.entries| ensures entries[i] == s.entries[k := Interrupt(s.entries[k])][i] {
      if i != k {
        assert s.entries[i].status != Running by {
          if i < k { } else { }
        }
      }
    }
    assert EntryValid(s.entries[k]);
  }

  lemma OpenInterrupts(sys: System, c: Controller, k: nat, save: Save)
    requires Inv(sys) && c == Controller(sys.durable, sys.durable.recording, false, false, Idle)
    requires k < |sys.durable.entries| && sys.durable.entries[k].status == Running
    ensures var s := sys.durable;
            var target := StopState(s, k, Interrupt(s.entries[k]));
            && SavedAs(c, target, save, Update(c, s, Each(s.entries, Interrupt), s.consumed, save))
            && StateInv(target) && Advances(s, target, None) && LogTracks(sys.log, target)
  {
    var s := sys.durable;
    InterruptStops(s, k);
    UpdateStops(c, k, Interrupt(s.entries[k]), save);
    StopAdvances(s, k, Interrupt(s.entries[k]));
    LogKept(sys.log, s, StopState(s, k, Interrupt(s.entries[k])));
  }

  lemma OpenedKeeps(sys: System, d: Done)
    requires Inv(sys) && sys.live.None?
    requires d.sys in {sys, sys.(live := Some(Controller(sys.durable, sys.durable.recording, false, false, Idle)))}
    ensures Keeps(sys, d, None)
  {
    AdvanceNone(sys.durable);
  }

  lemma InterruptedKeeps(sys: System, target: State, save: Save, d: Done)
    requires Inv(sys) && sys.live.None?
    requires StateInv(target) && Advances(sys.durable, target, None) && LogTracks(sys.log, target)
    requires target.recording == sys.durable.recording
    requires d.sys == match save
                      case RaisedUnsaved => sys
                      case RaisedSaved => sys.(durable := target)
                      case Saved =>
                        System(target, sys.log, Some(Controller(target, target.recording, false, false, Idle)))
    ensures Keeps(sys, d, None)
  {
    AdvanceNone(sys.durable);
  }

  lemma OpenKeeps(sys: System, cassette: seq<Exchange>, save: Save)
    requires Inv(sys) && sys.live.None?
    ensures Keeps(sys, DoOpen(sys, cassette, save), None)
  {
    hide Keeps, Inv, Update, StateInv, LogTracks, Advances;
    var s := sys.durable;
    var d := DoOpen(sys, cassette, save);
    if cassette == s.recording && AnyRunning(s.entries) && d.sys != sys {
      var k :| 0 <= k < |s.entries| && s.entries[k].status == Running;
      OpenInterrupts(sys, Controller(s, cassette, false, false, Idle), k, save);
      InterruptedKeeps(sys, StopState(s, k, Interrupt(s.entries[k])), save, d);
    } else {
      OpenedKeeps(sys, d);
    }
  }

  /** Reopening succeeds exactly with the recording the state names, if the interruption is saved. */
  lemma OpenSucceeds(sys: System, cassette: seq<Exchange>, save: Save)
    requires Inv(sys) && sys.live.None?
    ensures DoOpen(sys, cassette, save).reply == Returned(true)
            <==> cassette == sys.durable.recording && (save == Saved || !AnyRunning(sys.durable.entries))
  {
    hide Update, StateInv, LogTracks, Advances, Each;
    var s := sys.durable;
    RecordingLongEnough(sys);
    if cassette == s.recording && AnyRunning(s.entries) {
      var k :| 0 <= k < |s.entries| && s.entries[k].status == Running;
      OpenInterrupts(sys, Controller(s, cassette, false, false, Idle), k, save);
    }
  }

  lemma RecordingLongEnough(sys: System)
    requires Inv(sys)
    ensures sys.durable.mode == Recorded ==> sys.durable.consumed <= |sys.durable.recording|
  {
  }

  // -------------------------------------------------------------------------
  // Starting a message
  // -------------------------------------------------------------------------

  /** A step may launch this selected entry: it was queued and nothing was dispatched for it. */
  ghost predicate Selectable(s: State, index: nat, e: Entry) {
    && index < |s.entries|
    && EntryValid(e) && e.status == Queued
    && (s.entries[index] == e || (!IsChat(e) && s.entries[index] == e.(status := Cancelled)))
    && index !in DispatchKeys(s.journal)
    && (forall c | 0 <= c < |s.compactions| :: s.compactions[c].through < index)
  }

  lemma SelectedStarts(c: Controller, index: nat, e: Entry)
    requires Selectable(c.state, index, e) && !AnyRunning(c.state.entries)
    ensures Starts(c.state, index, LaunchedEntry(c, index, e))
  {
  }

  /** The queued entry a step selects can be launched. */
  lemma NextSelectable(s: State, i: nat)
    requires StateInv(s) && NextQueued(s.entries) == Some(i)
    ensures i < |s.entries| && Selectable(s, i, s.entries[i])
  {
    FirstFound(s.entries, IsQueued, 0);
    assert EntryValid(s.entries[i]);
    forall c | 0 <= c < |s.compactions| ensures s.compactions[c].through < i {
      if i <= s.compactions[c].through {
        CoveredSettled(s.compactions, s.entries, s.revision, c, i);
      }
    }
  }

  lemma RefusedWrite(sys: System, c: Controller, index: nat, e: Entry, save: Save)
    requires c.state == sys.durable && index < |c.state.entries| && AnyRunning(c.state.entries)
    requires c.state.entries[index].status != Running
    ensures LaunchWrite(sys, c, index, e, save) == Written(c, sys.durable, false)
  {
    var launched := LaunchedEntry(c, index, e);
    var r :| 0 <= r < |c.state.entries| && c.state.entries[r].status == Running;
    SecondStartRefused(c, index, r, launched, SessionChanges.After(launched, c.state.consumed), save);
  }

  /** The durable write of a launch: refused when another message runs, else saved as one start. */
  lemma LaunchWrites(sys: System, c: Controller, index: nat, e: Entry, save: Save)
    requires Inv(sys) && sys.live == Some(c) && !c.broken
    requires Selectable(c.state, index, e)
    requires IsChat(e) && c.state.mode == Recorded ==> c.state.consumed < |c.cassette|
    ensures AnyRunning(c.state.entries) ==> LaunchWrite(sys, c, index, e, save) == Written(c, sys.durable, false)
    ensures !AnyRunning(c.state.entries) ==>
              && Starts(c.state, index, LaunchedEntry(c, index, e))
              && StateInv(StartState(c.state, index, LaunchedEntry(c, index, e)))
              && SavedAs(c, StartState(c.state, index, LaunchedEntry(c, index, e)),
                         save, LaunchWrite(sys, c, index, e, save))
  {
    hide Update, StateInv, Starts, StartState, SavedAs, LogTracks, FrameTracks;
    if AnyRunning(c.state.entries) {
      RefusedWrite(sys, c, index, e, save);
    } else {
      SelectedStarts(c, index, e);
      UpdateStarts(c, index, LaunchedEntry(c, index, e), save);
    }
  }

  /** The message a launch can bring back from a settled status: only one cancelled after its selection. */
  function Revived(s: State, index: nat): Option<nat>
    requires index < |s.entries|
  {
    if s.entries[index].status == Cancelled then Some(index) else None
  }

  lemma AppendLog(log: seq<Dispatch>, d: Dispatch, t: State)
    requires LogTracks(log, t) && Accounted(d, t)
    requires forall i | 0 <= i < |log| :: log[i].message != d.message
    ensures LogTracks(log + [d], t)
  {
    var more := log + [d];
    forall i | 0 <= i < |more| ensures Accounted(more[i], t) {
      if i < |log| { assert more[i] == log[i]; }
    }
  }

  lemma StartAccounted(s: State, c: Controller, index: nat, e: Entry)
    requires c.state == s && c.cassette == s.recording
    requires Starts(s, index, LaunchedEntry(c, index, e))
    requires IsChat(e) && s.mode == Recorded ==> s.consumed < |c.cassette|
    ensures Accounted(DispatchOf(c, index, Admit(c, index, e), s.consumed),
                      StartState(s, index, LaunchedEntry(c, index, e)))
  {
    Appended(s.journal, Event(index, s.revision + 1, Dispatched));
  }

  /** A dispatch that follows the saved start of its message is accounted for. */
  lemma DispatchAccounted(log: seq<Dispatch>, s: State, c: Controller, index: nat, e: Entry)
    requires c.state == s && c.cassette == s.recording
    requires StateInv(s) && LogTracks(log, s)
    requires Starts(s, index, LaunchedEntry(c, index, e))
    requires IsChat(e) && s.mode == Recorded ==> s.consumed < |c.cassette|
    ensures LogTracks(log + [DispatchOf(c, index, Admit(c, index, e), s.consumed)],
                      StartState(s, index, LaunchedEntry(c, index, e)))
  {
    var t := StartState(s, index, LaunchedEntry(c, index, e));
    StartLater(s, index, LaunchedEntry(c, index, e));
    LogKept(log, s, t);
    StartAccounted(s, c, index, e);
    forall i | 0 <= i < |log| ensures log[i].message != index {
      assert Accounted(log[i], s);
    }
    AppendLog(log, DispatchOf(c, index, Admit(c, index, e), s.consumed), t);
  }

  // -------------------------------------------------------------------------
  // The gate after the start, and the end of a message
  // -------------------------------------------------------------------------

  lemma FailStops(s: State, index: nat, e: Entry, failed: Entry)
    requires StateInv(s) && index < |s.entries|
    requires s.entries[index] == e.(status := Running) && failed in {e.(status := Failed), e.(status := Cancelled)}
    ensures Stops(s, index, failed)
  {
    assert EntryValid(s.entries[index]);
  }

  lemma FinishStops(s: State, index: nat, e: Entry, outcome: Outcome)
    requires StateInv(s) && index < |s.entries| && !outcome.Escaped?
    requires s.entries[index] == e.(status := Running)
    ensures Stops(s, index, Finished(e, outcome))
  {
    assert EntryValid(s.entries[index]);
  }

  /** Writing the end of a running message from a working controller. */
  lemma StopWrites(sys: System, c: Controller, index: nat, stopped: Entry, save: Save, d: System)
    requires StateInv(sys.durable) && LogTracks(sys.log, sys.durable)
    requires c.state == sys.durable && !c.broken && c.cassette == sys.durable.recording
    requires Stops(c.state, index, stopped)
    requires var w := Replace(c, sys.durable, index, stopped, c.state.consumed, save);
             d == sys.(durable := w.durable, live := Some(Rest(w.c)))
    ensures Inv(d) && Advances(sys.durable, d.durable, None)
    ensures Replace(c, sys.durable, index, stopped, c.state.consumed, save).ok <==> save == Saved
  {
    UpdateStops(c, index, stopped, save);
    StopAdvances(c.state, index, stopped);
    AdvanceNone(sys.durable);
    LogKept(sys.log, sys.durable, StopState(c.state, index, stopped));
  }

  lemma SettleKeeps(sys: System, c: Controller, outcome: Outcome, save: Save)
    requires Inv(sys) && sys.live == Some(c)
    ensures Keeps(sys, DoSettle(sys, c, outcome, save), None)
  {
    var d := DoSettle(sys, c, outcome, save);
    AdvanceNone(sys.durable);
    if c.frame.InFlight? && !outcome.Escaped? {
      var stopped := Finished(c.frame.entry, outcome);
      if c.broken {
        BrokenWrites(sys, c, c.state.entries[c.frame.index := stopped], c.state.consumed, save);
      } else {
        FinishStops(c.state, c.frame.index, c.frame.entry, outcome);
        StopWrites(sys, c, c.frame.index, stopped, save, d.sys);
      }
    }
  }

  ghost predicate Blocked(sys: System, c: Controller, index: nat, e: Entry, admits: bool) {
    c.broken || AnyRunning(c.state.entries) || !Launchable(c, index, e, admits)
  }

  lemma RestKeeps(sys: System, c: Controller, d: Done)
    requires Inv(sys) && sys.live == Some(c)
    requires d.sys == sys.(live := Some(Rest(c)))
    ensures Keeps(sys, d, None)
  {
    AdvanceNone(sys.durable);
  }

  /** A launch that is not admitted, or comes while another message runs, or after a failed save, writes nothing. */
  lemma BlockedLaunch(sys: System, c: Controller, index: nat, e: Entry, admits: bool, save: Save, gate: Gate)
    requires Inv(sys) && sys.live == Some(c) && index < |c.state.entries|
    requires !c.broken ==> Selectable(c.state, index, e)
    requires Blocked(sys, c, index, e, admits)
    ensures Launch(sys, c, index, e, admits, save, gate) == Done(sys.(live := Some(Rest(c))), Raised)
  {
    if Launchable(c, index, e, admits) {
      if c.broken {
        BrokenWrites(sys, c, c.state.entries[index := LaunchedEntry(c, index, e)],
                     SessionChanges.After(LaunchedEntry(c, index, e), c.state.consumed), save);
      } else {
        LaunchWrites(sys, c, index, e, save);
      }
      assert LaunchWrite(sys, c, index, e, save) == Written(c, sys.durable, false);
    }
  }

  /** An admitted launch is one saved start, then the gate. */
  lemma AdmittedLaunch(sys: System, c: Controller, index: nat, e: Entry, admits: bool, save: Save, gate: Gate)
    requires Inv(sys) && sys.live == Some(c) && Selectable(c.state, index, e)
    requires !Blocked(sys, c, index, e, admits)
    ensures Begun(sys, c, index, e)
    ensures SavedAs(c, StartState(c.state, index, LaunchedEntry(c, index, e)),
                    save, LaunchWrite(sys, c, index, e, save))
    ensures var w := LaunchWrite(sys, c, index, e, save);
            Launch(sys, c, index, e, admits, save, gate)
            == if !w.ok then Done(sys.(durable := w.durable, live := Some(Rest(w.c))), Raised)
               else Pass(sys, w, index, Admit(c, index, e), c.state.consumed, gate)
  {
    LaunchWrites(sys, c, index, e, save);
  }

  /** The start a launch saves. */
  ghost predicate Begun(sys: System, c: Controller, index: nat, e: Entry) {
    && Inv(sys) && sys.live == Some(c) && !c.broken
    && Starts(c.state, index, LaunchedEntry(c, index, e))
    && StateInv(StartState(c.state, index, LaunchedEntry(c, index, e)))
    && (IsChat(e) && c.state.mode == Recorded ==> c.state.consumed < |c.cassette|)
  }

  lemma BegunParts(sys: System, c: Controller, index: nat, e: Entry)
    requires Begun(sys, c, index, e)
    ensures index < |c.state.entries| && c.state == sys.durable && c.cassette == sys.durable.recording && !c.broken
    ensures var target := StartState(c.state, index, LaunchedEntry(c, index, e));
            && StateInv(target) && LogTracks(sys.log, target)
            && Advances(sys.durable, target, Revived(c.state, index))
            && target.entries[index] == Admit(c, index, e).(status := Running)
            && target.recording == c.cassette && target.mode == c.state.mode
            && index < |target.entries|
    ensures IsChat(Admit(c, index, e)) <==> IsChat(e)
  {
    StartAdvances(c.state, index, LaunchedEntry(c, index, e));
    LogKept(sys.log, c.state, StartState(c.state, index, LaunchedEntry(c, index, e)));
  }

  /** A start that was saved but not followed by a dispatch. */
  lemma HaltedKeeps(sys: System, target: State, d: Done, x: Option<nat>)
    requires StateInv(target) && LogTracks(sys.log, target) && Advances(sys.durable, target, x)
    requires d.sys.durable == target && d.sys.log == sys.log
    requires d.sys.live.Some? ==>
               && StateInv(d.sys.live.value.state)
               && d.sys.live.value.frame == Idle && !d.sys.live.value.busy
               && (!d.sys.live.value.broken ==>
                     d.sys.live.value.state == target && d.sys.live.value.cassette == target.recording)
    ensures Keeps(sys, d, x)
  {
  }

  lemma RefuseKeeps(sys: System, c: Controller, index: nat, e: Entry, w: Written, second: Save)
    requires Begun(sys, c, index, e)
    requires w == Written(c.(state := StartState(c.state, index, LaunchedEntry(c, index, e))),
                          StartState(c.state, index, LaunchedEntry(c, index, e)), true)
    requires index < |w.c.state.entries|
    requires IsChat(Admit(c, index, e)) && w.c.state.mode == Recorded ==> c.state.consumed < |w.c.cassette|
    ensures Keeps(sys, Pass(sys, w, index, Admit(c, index, e), c.state.consumed, Refuse(second)),
                  Revived(c.state, index))
  {
    hide Inv, Update, StateInv, LogTracks, Advances, Starts, Stops, Begun, Admit, StartState, DispatchOf;
    BegunParts(sys, c, index, e);
    var failed := Admit(c, index, e).(status := Failed);
    FailStops(w.durable, index, Admit(c, index, e), failed);
    var x := Replace(w.c, w.durable, index, failed, w.c.state.consumed, second);
    var mid := System(w.durable, sys.log, Some(w.c));
    var last := mid.(durable := x.durable, live := Some(Rest(x.c)));
    StopWrites(mid, w.c, index, failed, second, last);
    AdvanceTrans(sys.durable, w.durable, last.durable, Revived(c.state, index));
  }

  lemma ProceedKeeps(sys: System, c: Controller, index: nat, e: Entry, w: Written)
    requires Begun(sys, c, index, e)
    requires w == Written(c.(state := StartState(c.state, index, LaunchedEntry(c, index, e))),
                          StartState(c.state, index, LaunchedEntry(c, index, e)), true)
    requires index < |w.c.state.entries|
    requires IsChat(Admit(c, index, e)) && w.c.state.mode == Recorded ==> c.state.consumed < |w.c.cassette|
    ensures Keeps(sys, Pass(sys, w, index, Admit(c, index, e), c.state.consumed, Proceed), Revived(c.state, index))
  {
    hide Update, StateInv, LogTracks, Advances, Starts, StartState;
    BegunParts(sys, c, index, e);
    InvLog(sys);
    DispatchAccounted(sys.log, c.state, c, index, e);
  }

  lemma InvLog(sys: System)
    requires Inv(sys)
    ensures StateInv(sys.durable) && LogTracks(sys.log, sys.durable)
  {
  }

  lemma LaunchKeeps(sys: System, c: Controller, index: nat, e: Entry, admits: bool, save: Save, gate: Gate)
    requires Inv(sys) && sys.live == Some(c) && index < |c.state.entries|
    requires !c.broken ==> Selectable(c.state, index, e)
    ensures Keeps(sys, Launch(sys, c, index, e, admits, save, gate), Revived(c.state, index))
  {
    hide Inv, StateInv, LogTracks, Advances, Starts, StartState, Selectable, LaunchWrite, Keeps, Launch, Begun;
    if Blocked(sys, c, index, e, admits) {
      BlockedLaunch(sys, c, index, e, admits, save, gate);
      RestKeeps(sys, c, Launch(sys, c, index, e, admits, save, gate));
      KeepsWeaker(sys, Launch(sys, c, index, e, admits, save, gate), Revived(c.state, index));
    } else {
      AdmittedLaunch(sys, c, index, e, admits, save, gate);
      AdmittedKeeps(sys, c, index, e, save, gate);
    }
  }

  lemma KeepsWeaker(sys: System, d: Done, x: Option<nat>)
    requires Keeps(sys, d, None)
    ensures Keeps(sys, d, x)
  {
  }

  lemma AdmittedKeeps(sys: System, c: Controller, index: nat, e: Entry, save: Save, gate: Gate)
    requires Begun(sys, c, index, e) && index < |c.state.entries|
    requires SavedAs(c, StartState(c.state, index, LaunchedEntry(c, index, e)),
                     save, LaunchWrite(sys, c, index, e, save))
    ensures var w := LaunchWrite(sys, c, index, e, save);
            Keeps(sys,
                  if !w.ok then Done(sys.(durable := w.durable, live := Some(Rest(w.c))), Raised)
                  else Pass(sys, w, index, Admit(c, index, e), c.state.consumed, gate),
                  Revived(c.state, index))
  {
    hide Inv, StateInv, LogTracks, Advances, Starts, StartState, Selectable, LaunchWrite, Keeps, Begun, Update;
    BegunParts(sys, c, index, e);
    BegunInv(sys, c, index, e);
    var w := LaunchWrite(sys, c, index, e, save);
    if save == RaisedUnsaved {
      var d := Done(sys.(durable := w.durable, live := Some(Rest(w.c))), Raised);
      BrokenRest(sys, c, d);
      KeepsWeaker(sys, d, Revived(c.state, index));
    } else if save == RaisedSaved {
      HaltedKeeps(sys, w.durable,
                  Done(sys.(durable := w.durable, live := Some(Rest(w.c))), Raised),
                  Revived(c.state, index));
    } else if gate.Refuse? {
      RefuseKeeps(sys, c, index, e, w, gate.save);
    } else if gate == Proceed {
      ProceedKeeps(sys, c, index, e, w);
    } else {
      HaltedKeeps(sys, w.durable,
                  Pass(sys, w, index, Admit(c, index, e), c.state.consumed, gate),
                  Revived(c.state, index));
    }
  }

  lemma BegunInv(sys: System, c: Controller, index: nat, e: Entry)
    requires Begun(sys, c, index, e)
    ensures Inv(sys) && sys.live == Some(c)
    ensures IsChat(e) && c.state.mode == Recorded ==> c.state.consumed < |c.cassette|
  {
  }

  lemma BrokenRest(sys: System, c: Controller, d: Done)
    requires Inv(sys) && sys.live == Some(c)
    requires d.sys == sys.(live := Some(Rest(c.(broken := true))))
    ensures Keeps(sys, d, None)
  {
    AdvanceNone(sys.durable);
  }
}
