/**
 * The conversation controller as it is written: an object that rewrites its own
 * state, saves before each change and calls the provider
 * (src/mos_eisley/conversation.py). Every method is proved to take the system
 * exactly to the state SessionMachine describes, so the results about runs are
 * results about this object.
 */
module SessionController {
  import opened Prelude
  import opened Projection
  import opened SessionState
  import opened SessionMachine

  /** The saved snapshot. */
  class Store {
    var durable: State

    constructor (initial: State)
      ensures durable == initial
    {
      durable := initial;
    }

    /** Persist, or raise before or after persisting. */
    method Persist(updated: State, save: Save) returns (ok: bool)
      modifies this
      ensures ok <==> save == Saved
      ensures durable == if save == RaisedUnsaved then old(durable) else updated
    {
      if save != RaisedUnsaved {
        durable := updated;
      }
      ok := save == Saved;
    }
  }

  /** What the provider and the reviewer were asked to do. */
  class Provider {
    var log: seq<Dispatch>

    constructor ()
      ensures log == []
    {
      log := [];
    }

    method Call(d: Dispatch)
      modifies this
      ensures log == old(log) + [d]
    {
      log := log + [d];
    }
  }

  /** One pass over the entries, as the list comprehensions of the controller make it. */
  method MapEntries(entries: seq<Entry>, f: Entry -> Entry) returns (r: seq<Entry>)
    ensures r == Each(entries, f)
  {
    r := [];
    for i := 0 to |entries|
      invariant r == Each(entries, f)[..i]
    {
      r := r + [f(entries[i])];
    }
    assert r == Each(entries, f);
  }

  /** next(...) over the entries from the front. */
  method FindFirst(entries: seq<Entry>, wanted: Entry -> bool) returns (r: Option<nat>)
    ensures r == FirstFrom(entries, wanted, 0)
    ensures r.Some? ==> r.value < |entries| && wanted(entries[r.value])
  {
    for i := 0 to |entries|
      invariant FirstFrom(entries, wanted, 0) == FirstFrom(entries, wanted, i)
    {
      if wanted(entries[i]) {
        return Some(i);
      }
    }
    return None;
  }

  /** The loop of transition_journal (conversation_recovery.py, lines 192 to 225). */
  method ExtendJournal(before: State, after: State) returns (events: seq<Event>)
    ensures events == TransitionJournal(before, after)
  {
    events := before.journal;
    for i := 0 to |after.entries|
      invariant events == JournalUpto(before.journal, before.entries, after.entries, after.revision, i)
    {
      events := events + Change(events, before.entries, after.entries, after.revision, i);
    }
  }

  class ConversationController {
    const store: Store
    const provider: Provider
    var state: State
    var cassette: seq<Exchange>
    var busy: bool
    var broken: bool
    var frame: Frame
    var alive: bool

    ghost function Now(): Controller
      reads this
    {
      Controller(state, cassette, busy, broken, frame)
    }

    ghost function View(): System
      reads this, store, provider
    {
      System(store.durable, provider.log, if alive then Some(Now()) else None)
    }

    /** __init__: refuse another recording, then interrupt whatever was running (lines 379 to 530). */
    constructor (s: Store, p: Provider, recording: seq<Exchange>, save: Save)
      modifies s
      ensures store == s && provider == p
      ensures View() == DoOpen(System(old(s.durable), old(p.log), None), recording, save).sys
    {
      store, provider := s, p;
      state, cassette, busy, broken, frame := s.durable, recording, false, false, Idle;
      alive := recording == s.durable.recording && !(s.durable.mode == Recorded && s.durable.consumed > |recording|);
      new;
      if alive && AnyRunning(state.entries) {
        var entries := MapEntries(state.entries, Interrupt);
        alive := Update(entries, state.consumed, save);
      }
    }

    /** _commit (lines 648 to 663). */
    method Commit(updated: State, save: Save) returns (ok: bool)
      modifies this, store
      ensures var w := SessionMachine.Commit(old(Now()), old(store.durable), updated, save);
              w == Written(Now(), store.durable, ok)
      ensures alive == old(alive)
    {
      if broken {
        return false;
      }
      var journal := ExtendJournal(state, updated);
      if !JournalAdmits(journal, updated.revision) {
        broken := true;
        return false;
      }
      ok := store.Persist(updated.(journal := journal), save);
      if ok {
        state := updated.(journal := journal);
      } else {
        broken := true;
      }
    }

    /** _update (lines 595 to 646). */
    method Update(entries: seq<Entry>, consumed: nat, save: Save) returns (ok: bool)
      modifies this, store
      ensures var w := SessionMachine.Update(old(Now()), old(store.durable), entries, consumed, save);
              w == Written(Now(), store.durable, ok)
      ensures alive == old(alive)
    {
      hide Progress, SessionMachine.Commit;
      if broken {
        return false;
      }
      var updated := Updated(state, entries, consumed);
      if !Progress(updated) {
        return false;
      }
      ok := Commit(updated, save);
    }

    /** submit and _append (lines 1082 to 1170). */
    method Submit(text: string, save: Save) returns (reply: Reply)
      requires alive && WellShaped(View())
      modifies this, store
      ensures Done(View(), reply) == Apply(old(View()), SessionMachine.Submit(text, save))
    {
      hide SessionMachine.Update;
      if Blank(text) {
        return Raised;
      }
      var active := FindFirst(state.entries, IsActiveChat);
      var ok := Update(state.entries + [ChatEntry(text, active)], state.consumed, save);
      reply := if ok then Returned(true) else Raised;
    }

    method SubmitReview(gitScoped: bool, save: Save) returns (reply: Reply)
      requires alive && WellShaped(View())
      modifies this, store
      ensures Done(View(), reply) == Apply(old(View()), SessionMachine.SubmitReview(gitScoped, save))
    {
      hide SessionMachine.Update;
      var ok := Update(state.entries + [ReviewEntry(gitScoped)], state.consumed, save);
      reply := if ok then Returned(true) else Raised;
    }

    /** cancel_queued (lines 1208 to 1216). */
    method CancelQueued(save: Save) returns (reply: Reply)
      requires alive && WellShaped(View())
      modifies this, store
      ensures Done(View(), reply) == Apply(old(View()), SessionMachine.CancelQueued(save))
    {
      hide SessionMachine.Update, Each;
      var entries := MapEntries(state.entries, Cancel);
      var ok := Update(entries, state.consumed, save);
      reply := if ok then Returned(true) else Raised;
    }

    /** refresh_memory (lines 693 to 786). */
    method RefreshMemory(memory: Option<string>, recording: seq<Exchange>, save: Save) returns (reply: Reply)
      requires alive && WellShaped(View())
      modifies this, store
      ensures Done(View(), reply) == Apply(old(View()), SessionMachine.RefreshMemory(memory, recording, save))
    {
      hide SessionMachine.Commit, Revalidates, Each, AnyRunning, PreservesPrefix;
      if busy || AnyRunning(state.entries) {
        return Raised;
      }
      if state.mode == Recorded && !PreservesPrefix(cassette, recording, state.consumed) {
        return Raised;
      }
      var s := state;
      var entries := MapEntries(s.entries, e => Freeze(e, s.memory));
      var updated := s.(revision := s.revision + 1, entries := entries, memory := memory, recording := recording,
                        retained := if s.mode == Recorded then Some(recording) else None);
      FreezeAgrees(s);
      assert updated == Refreshed(s, memory, recording);
      if !Revalidates(updated) {
        return Raised;
      }
      var ok := Commit(updated, save);
      if ok {
        cassette := recording;
      }
      reply := if ok then Returned(true) else Raised;
    }

    /** compact_author (lines 819 to 887). */
    method CompactAuthor(id: string, through: nat, fits: bool, save: Save) returns (reply: Reply)
      requires alive && WellShaped(View())
      modifies this, store
      ensures Done(View(), reply) == Apply(old(View()), SessionMachine.CompactAuthor(id, through, fits, save))
    {
      hide SessionMachine.Commit, Revalidates, Compactable, AnyPending;
      if busy || AnyPending(state.entries) || !Compactable(state, through, fits) {
        return Raised;
      }
      CompactableInside(state, through, fits);
      var updated := WithCompaction(state, id, through);
      if !Revalidates(updated) {
        return Raised;
      }
      var ok := Commit(updated, save);
      reply := if ok then Returned(true) else Raised;
    }

    /** replace, the inner function of step (lines 1604 to 1610). */
    method Replace(index: nat, e: Entry, consumed: nat, save: Save) returns (ok: bool)
      requires index < |state.entries|
      modifies this, store
      ensures var w := SessionMachine.Replace(old(Now()), old(store.durable), index, e, consumed, save);
              w == Written(Now(), store.durable, ok)
      ensures alive == old(alive)
    {
      hide SessionMachine.Update;
      ok := Update(state.entries[index := e], consumed, save);
    }

    /** Between the durable start of a message and its dispatch (lines 1614 to 1691). */
    method Pass(index: nat, e: Entry, consumed: nat, gate: Gate) returns (reply: Reply)
      requires alive && index < |state.entries|
      requires IsChat(e) && state.mode == Recorded ==> consumed < |cassette|
      modifies this, store, provider
      ensures Done(View(), reply)
              == SessionMachine.Pass(old(View()), Written(old(Now()), old(store.durable), true),
                                   index, e, consumed, gate)
    {
      hide SessionMachine.Replace;
      match gate {
        case Kill =>
          alive := false;
          reply := Died;
        case Escape =>
          busy, frame := false, Idle;
          reply := Raised;
        case Refuse(second) =>
          var _ := Replace(index, e.(status := Failed), state.consumed, second);
          busy, frame := false, Idle;
          reply := Raised;
        case Proceed =>
          var exchange := if IsChat(e) then Some(consumed) else None;
          var content := if IsChat(e) && state.mode == Recorded then Some(cassette[consumed]) else None;
          provider.Call(Dispatch(index, exchange, content));
          busy, frame := true, InFlight(index, e);
          reply := Suspended;
      }
    }

    /** The checks made before anything is saved (lines 1264 to 1594). */
    method Check(index: nat, selected: Entry, admits: bool) returns (ok: bool)
      requires index < |state.entries|
      ensures ok <==> Launchable(Now(), index, selected, admits)
    {
      hide Project;
      if IsChat(selected) {
        if state.mode == Recorded && state.consumed >= |cassette| {
          return false;
        }
        var view := ProjectContext(MessagesOf(state.entries), index, LatestCompaction(state.compactions));
        if view.Err? {
          return false;
        }
      }
      ok := admits;
    }

    /** The part of step from the admission of the selected entry to its dispatch (lines 1248 to 1691). */
    method Launch(index: nat, selected: Entry, admits: bool, save: Save, gate: Gate) returns (reply: Reply)
      requires alive && index < |state.entries|
      modifies this, store, provider
      ensures Done(View(), reply)
              == SessionMachine.Launch(old(View()), old(Now()), index, selected, admits, save, gate)
    {
      hide SessionMachine.Update, Project, Admit, SessionMachine.Pass;
      AdmitKind(Now(), index, selected);
      var ready := Check(index, selected, admits);
      if !ready {
        busy, frame := false, Idle;
        return Raised;
      }
      var consumed := state.consumed;
      var e := AdmitEntry(index, selected);
      var ok := Replace(index, e.(status := Running), if IsChat(e) then consumed + 1 else consumed, save);
      if !ok {
        busy, frame := false, Idle;
        return Raised;
      }
      ghost var saved := View();
      reply := Pass(index, e, consumed, gate);
      PassReads(old(View()), saved, Written(saved.live.value, saved.durable, true), index, e, consumed, gate);
    }

    method AdmitEntry(index: nat, selected: Entry) returns (e: Entry)
      ensures e == Admit(Now(), index, selected)
    {
      e := selected;
      if IsChat(selected) {
        if state.retained.Some? {
          e := e.(memory := Some(state.memory));
        }
        e := e.(admission := Some(Admission(index, state.revision, |state.entries|, state.consumed)));
      }
    }

    /** step, up to its first suspension (lines 1218 to 1262). */
    method Step(admits: bool, save: Save, gate: Gate) returns (reply: Reply)
      requires alive && WellShaped(View())
      modifies this, store, provider
      ensures Done(View(), reply) == Apply(old(View()), SessionMachine.Step(admits, save, gate))
    {
      hide SessionMachine.Launch;
      if busy {
        return Raised;
      }
      var next := FindFirst(state.entries, IsQueued);
      if next.None? {
        return Returned(false);
      }
      var e := state.entries[next.value];
      if e.kind == Review(true) {
        busy, frame := true, Revalidating(next.value, e);
        return Suspended;
      }
      reply := Launch(next.value, e, admits, save, gate);
    }

    /** step, after the revalidation of a Git scope (lines 1258 to 1263). */
    method ResumeRevalidated(ok: bool, admits: bool, save: Save, gate: Gate) returns (reply: Reply)
      requires alive && WellShaped(View())
      modifies this, store, provider
      ensures Done(View(), reply) == Apply(old(View()), SessionMachine.ResumeRevalidated(ok, admits, save, gate))
    {
      hide SessionMachine.Launch;
      if !frame.Revalidating? {
        return Raised;
      }
      if !ok {
        busy, frame := false, Idle;
        return Raised;
      }
      reply := Launch(frame.index, frame.entry, admits, save, gate);
    }

    static method Finish(e: Entry, outcome: Outcome) returns (r: Entry)
      requires !outcome.Escaped?
      ensures r == Finished(e, outcome)
    {
      match outcome {
        case Answered(answer, infrastructureError) =>
          r := e.(status := if !IsChat(e) && infrastructureError then Failed else Completed, answer := Some(answer));
        case WasCancelled =>
          r := e.(status := Cancelled);
        case DidFail =>
          r := e.(status := Failed);
      }
    }

    /** step, after the provider or reviewer ends (lines 1622 to 1736). */
    method Settle(outcome: Outcome, save: Save) returns (reply: Reply)
      requires alive && WellShaped(View())
      modifies this, store
      ensures Done(View(), reply) == Apply(old(View()), SessionMachine.Settle(outcome, save))
    {
      hide SessionMachine.Replace, Finished;
      if !frame.InFlight? {
        return Raised;
      }
      if outcome.Escaped? {
        busy, frame := false, Idle;
        return Raised;
      }
      var e := Finish(frame.entry, outcome);
      var ok := Replace(frame.index, e, state.consumed, save);
      reply := if ok && outcome.Answered? && e.status == Completed then Returned(true) else Raised;
      busy, frame := false, Idle;
    }
  }

  /** Of the system before it, the part after the saved start only reads the log. */
  lemma PassReads(a: System, b: System, w: Written, index: nat, e: Entry, consumed: nat, gate: Gate)
    requires a.log == b.log && index < |w.c.state.entries|
    requires IsChat(e) && w.c.state.mode == Recorded ==> consumed < |w.c.cassette|
    ensures SessionMachine.Pass(a, w, index, e, consumed, gate) == SessionMachine.Pass(b, w, index, e, consumed, gate)
  {
  }

  lemma FreezeAgrees(s: State)
    ensures Each(s.entries, e => Freeze(e, s.memory)) == Refreshed(s, None, []).entries
  {
    assert forall i | 0 <= i < |s.entries| :: Refreshed(s, None, []).entries[i] == Freeze(s.entries[i], s.memory);
  }

  lemma CompactableInside(s: State, through: nat, fits: bool)
    requires Compactable(s, through, fits)
    ensures through < |s.entries|
  {
  }

  lemma AdmitKind(c: Controller, index: nat, e: Entry)
    ensures Admit(c, index, e).kind == e.kind
  {
  }
}
