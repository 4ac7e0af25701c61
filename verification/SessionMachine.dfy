/**
 * What each controller operation does to the saved state, the live controller
 * and the provider (src/mos_eisley/conversation.py). Every operation names the
 * outcome of the saves it makes, so one value of Action is one possible event.
 */
module SessionMachine {
  import opened Prelude
  import opened Projection
  import opened SessionState

  /** save may fail before or after the new state is durable. */
  datatype Save = Saved | RaisedUnsaved | RaisedSaved

  /** Between the durable start of a message and its dispatch. */
  datatype Gate = Proceed | Refuse(save: Save) | Escape | Kill

  datatype Outcome = Answered(answer: string, infrastructureError: bool) | WasCancelled | DidFail | Escaped

  /** A suspended step keeps its own copy of the entry it selected. */
  datatype Frame = Idle | Revalidating(index: nat, entry: Entry) | InFlight(index: nat, entry: Entry)

  datatype Controller = Controller(
    state: State,
    cassette: seq<Exchange>,
    busy: bool,
    broken: bool,
    frame: Frame)

  /** One call to a provider or reviewer: the message, and for a chat its exchange. */
  datatype Dispatch = Dispatch(message: nat, exchange: Option<nat>, content: Option<Exchange>)

  datatype System = System(durable: State, log: seq<Dispatch>, live: Option<Controller>)

  datatype Reply = Returned(progressed: bool) | Raised | Suspended | Died

  datatype Action =
    | Open(cassette: seq<Exchange>, save: Save)
    | Crash
    | Submit(text: string, save: Save)
    | SubmitReview(gitScoped: bool, save: Save)
    | CancelQueued(save: Save)
    | RefreshMemory(memory: Option<string>, cassette: seq<Exchange>, save: Save)
    | CompactAuthor(id: string, through: nat, fits: bool, save: Save)
    | Step(admits: bool, save: Save, gate: Gate)
    | ResumeRevalidated(ok: bool, admits: bool, save: Save, gate: Gate)
    | Settle(outcome: Outcome, save: Save)

  const REVIEW_PROMPT := "Review this change."

  // -------------------------------------------------------------------------
  // Saving (lines 595 to 663)
  // -------------------------------------------------------------------------

  /** A controller and the durable state it writes to; ok means nothing was raised. */
  datatype Written = Written(c: Controller, durable: State, ok: bool)

  function Commit(c: Controller, durable: State, updated: State, save: Save): (w: Written)
    ensures w.ok ==> !c.broken && save == Saved && w.durable == w.c.state
    ensures w.c == c.(state := w.c.state, broken := w.c.broken)
    ensures w.c.state.entries == if w.ok then updated.entries else c.state.entries
    ensures w.c.state.mode == if w.ok then updated.mode else c.state.mode
  {
    if c.broken then Written(c, durable, false)
    else
      var journal := TransitionJournal(c.state, updated);
      var saved := updated.(journal := journal);
      if !JournalAdmits(journal, updated.revision) then Written(c.(broken := true), durable, false)
      else
        match save
        case Saved => Written(c.(state := saved), saved, true)
        case RaisedUnsaved => Written(c.(broken := true), durable, false)
        case RaisedSaved => Written(c.(broken := true), saved, false)
  }

  function Updated(s: State, entries: seq<Entry>, consumed: nat): State {
    s.(entries := entries, consumed := consumed, revision := s.revision + 1)
  }

  function Update(c: Controller, durable: State, entries: seq<Entry>, consumed: nat, save: Save): (w: Written)
    ensures w.ok ==> !c.broken && save == Saved && w.durable == w.c.state
    ensures w.c == c.(state := w.c.state, broken := w.c.broken)
    ensures w.c.state.entries == if w.ok then entries else c.state.entries
    ensures w.c.state.mode == c.state.mode
  {
    if c.broken then Written(c, durable, false)
    else
      var updated := Updated(c.state, entries, consumed);
      if !Progress(updated) then Written(c, durable, false) else Commit(c, durable, updated, save)
  }

  // -------------------------------------------------------------------------
  // Small queries
  // -------------------------------------------------------------------------

  function FirstFrom(entries: seq<Entry>, wanted: Entry -> bool, i: nat): Option<nat>
    requires i <= |entries|
    decreases |entries| - i
  {
    if i == |entries| then None
    else if wanted(entries[i]) then Some(i)
    else FirstFrom(entries, wanted, i + 1)
  }

  predicate IsQueued(e: Entry) {
    e.status == Queued
  }

  predicate IsActiveChat(e: Entry) {
    e.status == Running && IsChat(e)
  }

  function NextQueued(entries: seq<Entry>): Option<nat> {
    FirstFrom(entries, IsQueued, 0)
  }

  function ActiveChatIndex(entries: seq<Entry>): Option<nat> {
    FirstFrom(entries, IsActiveChat, 0)
  }

  predicate AnyRunning(entries: seq<Entry>) {
    exists i :: 0 <= i < |entries| && entries[i].status == Running
  }

  predicate AnyPending(entries: seq<Entry>) {
    exists i :: 0 <= i < |entries| && !Settled(entries[i].status)
  }

  predicate IsSpace(c: char) {
    var n := c as int;
    || 9 <= n <= 13 || 28 <= n <= 32 || n == 0x85 || n == 0xA0 || n == 0x1680
    || 0x2000 <= n <= 0x200A || n in {0x2028, 0x2029, 0x202F, 0x205F, 0x3000}
  }

  predicate Blank(text: string) {
    forall c | c in text :: IsSpace(c)
  }

  function Each(entries: seq<Entry>, f: Entry -> Entry): (r: seq<Entry>)
    ensures |r| == |entries|
    ensures forall i :: 0 <= i < |entries| ==> r[i] == f(entries[i])
  {
    seq(|entries|, i requires 0 <= i < |entries| => f(entries[i]))
  }

  function Interrupt(e: Entry): Entry {
    if e.status == Running then e.(status := Interrupted) else e
  }

  function Cancel(e: Entry): Entry {
    if e.status == Queued then e.(status := Cancelled) else e
  }

  /** Legacy entries inherit the old session memory; refresh freezes it in them. */
  function Freeze(e: Entry, memory: Option<string>): Entry {
    if e.status != Queued && IsChat(e) && e.memory.None? then e.(memory := Some(memory)) else e
  }

  // -------------------------------------------------------------------------
  // Operations
  // -------------------------------------------------------------------------

  datatype Done = Done(sys: System, reply: Reply)

  function Wrote(sys: System, w: Written): Done {
    Done(sys.(durable := w.durable, live := Some(w.c)), if w.ok then Returned(true) else Raised)
  }

  /** The constructor: refuse another cassette, then interrupt what was running (lines 379 to 530). */
  function DoOpen(sys: System, cassette: seq<Exchange>, save: Save): Done {
    var s := sys.durable;
    if cassette != s.recording || (s.mode == Recorded && s.consumed > |cassette|) then Done(sys, Raised)
    else
      var c := Controller(s, cassette, false, false, Idle);
      if !AnyRunning(s.entries) then Done(sys.(live := Some(c)), Returned(true))
      else
        var w := Update(c, s, Each(s.entries, Interrupt), s.consumed, save);
        if w.ok then Wrote(sys, w) else Done(sys.(durable := w.durable), Raised)
  }

  function ChatEntry(text: string, steeringFor: Option<nat>): Entry {
    Entry(text, Chat, Queued, None, steeringFor, None, None)
  }

  function ReviewEntry(gitScoped: bool): Entry {
    Entry(REVIEW_PROMPT, Review(gitScoped), Queued, None, None, None, None)
  }

  function DoAppend(sys: System, c: Controller, e: Entry, save: Save): Done {
    Wrote(sys, Update(c, sys.durable, c.state.entries + [e], c.state.consumed, save))
  }

  function DoSubmit(sys: System, c: Controller, text: string, save: Save): Done {
    if Blank(text) then Done(sys, Raised)
    else DoAppend(sys, c, ChatEntry(text, ActiveChatIndex(c.state.entries)), save)
  }

  function DoCancel(sys: System, c: Controller, save: Save): Done {
    Wrote(sys, Update(c, sys.durable, Each(c.state.entries, Cancel), c.state.consumed, save))
  }

  function Refreshed(s: State, memory: Option<string>, cassette: seq<Exchange>): State {
    s.(revision := s.revision + 1,
       entries := Each(s.entries, e => Freeze(e, s.memory)),
       memory := memory,
       recording := cassette,
       retained := if s.mode == Recorded then Some(cassette) else None)
  }

  predicate PreservesPrefix(old': seq<Exchange>, new': seq<Exchange>, consumed: nat) {
    consumed <= |new'| && consumed <= |old'| && new'[..consumed] == old'[..consumed]
  }

  function DoRefresh(sys: System, c: Controller, memory: Option<string>, cassette: seq<Exchange>, save: Save): Done {
    var s := c.state;
    if c.busy || AnyRunning(s.entries) then Done(sys, Raised)
    else if s.mode == Recorded && !PreservesPrefix(c.cassette, cassette, s.consumed) then Done(sys, Raised)
    else
      var updated := Refreshed(s, memory, cassette);
      if !Revalidates(updated) then Done(sys, Raised)
      else
        var w := Commit(c, sys.durable, updated, save);
        Wrote(sys, if w.ok then w.(c := w.c.(cassette := cassette)) else w)
  }

  predicate Compactable(s: State, through: nat, fits: bool) {
    && through < |s.entries|
    && (exists p :: 0 <= p <= through && IsChat(s.entries[p]) && s.entries[p].status == Completed
                    && s.entries[p].answer.Some?)
    && |s.compactions| < MAX_COMPACTIONS
    && (s.compactions != [] ==> s.compactions[|s.compactions| - 1].through < through)
    && fits
  }

  function WithCompaction(s: State, id: string, through: nat): State
    requires through < |s.entries|
  {
    s.(compactions := s.compactions + [Lineage(id, through, s.revision, BindingsOf(s.entries, through))],
       revision := s.revision + 1)
  }

  function DoCompact(sys: System, c: Controller, id: string, through: nat, fits: bool, save: Save): Done {
    var s := c.state;
    if c.busy || AnyPending(s.entries) || !Compactable(s, through, fits) then Done(sys, Raised)
    else
      var updated := WithCompaction(s, id, through);
      if !Revalidates(updated) then Done(sys, Raised) else Wrote(sys, Commit(c, sys.durable, updated, save))
  }

  function Rest(c: Controller): Controller {
    c.(busy := false, frame := Idle)
  }

  /** replace: put one entry back and save (lines 1604 to 1610). */
  function Replace(c: Controller, durable: State, index: nat, e: Entry, consumed: nat, save: Save): Written
    requires index < |c.state.entries|
  {
    Update(c, durable, c.state.entries[index := e], consumed, save)
  }

  /** The entry as it is admitted, still with its queued status (lines 1264 to 1594). */
  function Admit(c: Controller, index: nat, e: Entry): Entry {
    if !IsChat(e) then e
    else
      var bound := if c.state.retained.Some? then e.(memory := Some(c.state.memory)) else e;
      bound.(admission := Some(Admission(index, c.state.revision, |c.state.entries|, c.state.consumed)))
  }

  /** What must hold before anything is saved: an exchange is left, the history projects, budgets admit. */
  ghost predicate Launchable(c: Controller, index: nat, e: Entry, admits: bool) {
    && (IsChat(e) ==>
          && (c.state.mode == Recorded ==> c.state.consumed < |c.cassette|)
          && Project(MessagesOf(c.state.entries), index, LatestCompaction(c.state.compactions)).Ok?)
    && admits
  }

  function DispatchOf(c: Controller, index: nat, e: Entry, consumed: nat): Dispatch
    requires IsChat(e) && c.state.mode == Recorded ==> consumed < |c.cassette|
  {
    if IsChat(e) then
      Dispatch(index, Some(consumed), if c.state.mode == Recorded then Some(c.cassette[consumed]) else None)
    else Dispatch(index, None, None)
  }

  /** Between the durable start of a message and its dispatch (lines 1614 to 1691). */
  ghost function Pass(sys: System, w: Written, index: nat, e: Entry, consumed: nat, gate: Gate): Done
    requires index < |w.c.state.entries|
    requires IsChat(e) && w.c.state.mode == Recorded ==> consumed < |w.c.cassette|
  {
    match gate
    case Kill => Done(sys.(durable := w.durable, live := None), Died)
    case Escape => Done(sys.(durable := w.durable, live := Some(Rest(w.c))), Raised)
    case Refuse(second) =>
      var x := Replace(w.c, w.durable, index, e.(status := Failed), w.c.state.consumed, second);
      Done(sys.(durable := x.durable, live := Some(Rest(x.c))), Raised)
    case Proceed =>
      Done(System(w.durable, sys.log + [DispatchOf(w.c, index, e, consumed)],
                  Some(w.c.(busy := true, frame := InFlight(index, e)))), Suspended)
  }

  function LaunchedEntry(c: Controller, index: nat, e: Entry): Entry {
    Admit(c, index, e).(status := Running)
  }

  /** The durable write that starts a message; only a chat moves the consumed count. */
  function LaunchWrite(sys: System, c: Controller, index: nat, e: Entry, save: Save): Written
    requires index < |c.state.entries|
  {
    var consumed := c.state.consumed;
    Replace(c, sys.durable, index, LaunchedEntry(c, index, e), if IsChat(e) then consumed + 1 else consumed, save)
  }

  /** From the admission of a selected entry to its dispatch (lines 1248 to 1691). */
  ghost function Launch(
      sys: System, c: Controller, index: nat, selected: Entry, admits: bool, save: Save, gate: Gate): Done
    requires index < |c.state.entries|
  {
    if !Launchable(c, index, selected, admits) then Done(sys.(live := Some(Rest(c))), Raised)
    else
      var w := LaunchWrite(sys, c, index, selected, save);
      if !w.ok then Done(sys.(durable := w.durable, live := Some(Rest(w.c))), Raised)
      else Pass(sys, w, index, Admit(c, index, selected), c.state.consumed, gate)
  }

  ghost function DoStep(sys: System, c: Controller, admits: bool, save: Save, gate: Gate): Done {
    if c.busy then Done(sys, Raised)
    else
      var next := NextQueued(c.state.entries);
      if next.None? then Done(sys, Returned(false))
      else
        FirstFound(c.state.entries, IsQueued, 0);
        var e := c.state.entries[next.value];
        if e.kind == Review(true) then
          Done(sys.(live := Some(c.(busy := true, frame := Revalidating(next.value, e)))), Suspended)
        else Launch(sys, c, next.value, e, admits, save, gate)
  }

  /** A Git-scoped review goes on after its revalidation await with the entry it selected before it. */
  ghost function DoResume(sys: System, c: Controller, ok: bool, admits: bool, save: Save, gate: Gate): Done
    requires Shaped(c)
  {
    if !c.frame.Revalidating? then Done(sys, Raised)
    else if !ok then Done(sys.(live := Some(Rest(c))), Raised)
    else Launch(sys, c, c.frame.index, c.frame.entry, admits, save, gate)
  }

  function Finished(e: Entry, outcome: Outcome): Entry
    requires !outcome.Escaped?
  {
    match outcome
    case Answered(answer, infrastructureError) =>
      e.(status := if !IsChat(e) && infrastructureError then Failed else Completed, answer := Some(answer))
    case WasCancelled => e.(status := Cancelled)
    case DidFail => e.(status := Failed)
  }

  /** The end of a dispatched request (lines 1656 to 1736). */
  function DoSettle(sys: System, c: Controller, outcome: Outcome, save: Save): Done
    requires Shaped(c)
  {
    if !c.frame.InFlight? then Done(sys, Raised)
    else if outcome.Escaped? then Done(sys.(live := Some(Rest(c))), Raised)
    else
      var w := Replace(c, sys.durable, c.frame.index, Finished(c.frame.entry, outcome), c.state.consumed, save);
      Done(sys.(durable := w.durable, live := Some(Rest(w.c))),
           if w.ok && outcome.Answered? && Finished(c.frame.entry, outcome).status == Completed
           then Returned(true) else Raised)
  }

  // -------------------------------------------------------------------------
  // One event, and a run of events
  // -------------------------------------------------------------------------

  predicate Shaped(c: Controller) {
    c.frame != Idle ==> c.frame.index < |c.state.entries|
  }

  predicate WellShaped(sys: System) {
    sys.live.Some? ==> Shaped(sys.live.value)
  }

  lemma {:induction false} FirstFound(entries: seq<Entry>, wanted: Entry -> bool, i: nat)
    requires i <= |entries|
    ensures var r := FirstFrom(entries, wanted, i);
            && (r.Some? ==> i <= r.value < |entries| && wanted(entries[r.value])
                            && forall k :: i <= k < r.value ==> !wanted(entries[k]))
            && (r.None? ==> forall k :: i <= k < |entries| ==> !wanted(entries[k]))
    decreases |entries| - i
  {
    if i < |entries| && !wanted(entries[i]) {
      FirstFound(entries, wanted, i + 1);
    }
  }

  ghost function Apply(sys: System, a: Action): (d: Done)
    requires WellShaped(sys)
  {
    if a.Crash? then Done(sys.(live := None), Died)
    else if sys.live.None? then
      if a.Open? then DoOpen(sys, a.cassette, a.save) else Done(sys, Raised)
    else
      var c := sys.live.value;
      match a
      case Open(_, _) => Done(sys, Raised)
      case Submit(text, save) => DoSubmit(sys, c, text, save)
      case SubmitReview(gitScoped, save) => DoAppend(sys, c, ReviewEntry(gitScoped), save)
      case CancelQueued(save) => DoCancel(sys, c, save)
      case RefreshMemory(memory, cassette, save) => DoRefresh(sys, c, memory, cassette, save)
      case CompactAuthor(id, through, fits, save) => DoCompact(sys, c, id, through, fits, save)
      case Step(admits, save, gate) => DoStep(sys, c, admits, save, gate)
      case ResumeRevalidated(ok, admits, save, gate) => DoResume(sys, c, ok, admits, save, gate)
      case Settle(outcome, save) => DoSettle(sys, c, outcome, save)
  }

  function Fresh(mode: Mode, memory: Option<string>, recording: seq<Exchange>): System {
    System(State(mode, 0, 0, [], memory, recording, None, [], []), [], None)
  }
}
