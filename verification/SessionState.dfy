/**
 * The saved state of a conversation, the validator every save passes, and the
 * recovery journal kept inside it (src/mos_eisley/conversation_state.py and
 * src/mos_eisley/conversation_recovery.py).
 */
module SessionState {
  import opened Prelude
  import opened Projection

  datatype Mode = Recorded | Live

  datatype Kind = Chat | Review(gitScoped: bool)

  type Exchange = string

  /** The part of a request admission that the saved state checks. */
  datatype Admission = Admission(messageIndex: nat, sourceRevision: nat, messageCount: nat, exchangeIndex: nat)

  /** memory is None until the entry binds a context; the context itself may be empty. */
  datatype Entry = Entry(
    text: string,
    kind: Kind,
    status: Status,
    answer: Option<string>,
    steeringFor: Option<nat>,
    admission: Option<Admission>,
    memory: Option<Option<string>>)

  datatype TurnResult = TurnResult(text: string, answer: Option<string>, admission: Option<Admission>, status: Status)

  datatype Phase = Dispatched | Completion(result: TurnResult) | Uncertain

  /** One journal event; key is the position of its turn. */
  datatype Event = Event(key: nat, revision: nat, phase: Phase)

  datatype Binding = Binding(
    text: string,
    answer: Option<string>,
    status: Status,
    steeringFor: Option<nat>,
    isReview: bool,
    hasMemory: bool,
    admission: Option<Admission>)

  datatype Lineage = Lineage(id: string, through: nat, sourceRevision: nat, bindings: seq<Binding>)

  /** recording is the cassette that the saved digest names. */
  datatype State = State(
    mode: Mode,
    revision: nat,
    consumed: nat,
    entries: seq<Entry>,
    memory: Option<string>,
    recording: seq<Exchange>,
    retained: Option<seq<Exchange>>,
    compactions: seq<Lineage>,
    journal: seq<Event>)

  const MAX_ENTRIES := 16
  const MAX_COMPACTIONS := 3
  const MAX_EVENTS := 96

  predicate Settled(s: Status) {
    s != Queued && s != Running
  }

  predicate IsChat(e: Entry) {
    e.kind.Chat?
  }

  // -------------------------------------------------------------------------
  // The entry validator (conversation_state.py, lines 132 to 212)
  // -------------------------------------------------------------------------

  predicate EntryValid(e: Entry) {
    && (e.admission.Some? ==> e.status != Queued && IsChat(e))
    && (e.memory.Some? ==> e.status != Queued && IsChat(e))
    && (!IsChat(e) ==>
          && e.steeringFor.None?
          && (e.answer.Some? ==> e.status in {Completed, Failed})
          && (e.status == Completed ==> e.answer.Some?))
    && (IsChat(e) ==> (e.status == Completed <==> e.answer.Some?))
  }

  // -------------------------------------------------------------------------
  // The recovery journal (conversation_recovery.py, lines 73 to 100 and 139 to 150)
  // -------------------------------------------------------------------------

  function DispatchKeys(events: seq<Event>): set<nat> {
    set e | e in events && e.phase.Dispatched? :: e.key
  }

  function TerminalKeys(events: seq<Event>): set<nat> {
    set e | e in events && !e.phase.Dispatched? :: e.key
  }

  function LastRevision(events: seq<Event>): nat {
    if events == [] then 0 else events[|events| - 1].revision
  }

  /** The loop of the journal validator: one dispatch per operation, one end per open dispatch. */
  predicate Ordered(events: seq<Event>) {
    if events == [] then true
    else
      var before, last := events[..|events| - 1], events[|events| - 1];
      && Ordered(before)
      && last.revision >= LastRevision(before)
      && (if last.phase.Dispatched? then last.key !in DispatchKeys(before)
          else last.key in DispatchKeys(before) && last.key !in TerminalKeys(before))
  }

  predicate JournalAdmits(events: seq<Event>, revision: nat) {
    && |events| <= MAX_EVENTS
    && Ordered(events)
    && (forall e | e in events :: 1 <= e.revision <= revision)
  }

  function ResultOf(e: Entry): TurnResult {
    TurnResult(e.text, e.answer, e.admission, e.status)
  }

  /** The event the change of one entry adds, if any (lines 192 to 225). */
  function Change(events: seq<Event>, before: seq<Entry>, after: seq<Entry>, revision: nat, i: nat): seq<Event>
    requires i < |after|
  {
    var e := after[i];
    if e.status == Running then
      if i < |before| && before[i].status == Running then [] else [Event(i, revision, Dispatched)]
    else if i < |before| && before[i].status == Running
            && i in DispatchKeys(events) && i !in TerminalKeys(events) then
      [Event(i, revision,
             if e.status == Completed || (!IsChat(e) && e.answer.Some?) then Completion(ResultOf(e)) else Uncertain)]
    else []
  }

  function JournalUpto(events: seq<Event>, before: seq<Entry>, after: seq<Entry>, revision: nat, n: nat): seq<Event>
    requires n <= |after|
  {
    if n == 0 then events
    else
      var sofar := JournalUpto(events, before, after, revision, n - 1);
      sofar + Change(sofar, before, after, revision, n - 1)
  }

  /** transition_journal: the events of the new state. */
  function TransitionJournal(before: State, after: State): seq<Event> {
    JournalUpto(before.journal, before.entries, after.entries, after.revision, |after.entries|)
  }

  // -------------------------------------------------------------------------
  // The state validator (conversation_state.py, lines 700 to 715 and 742 to 895)
  // -------------------------------------------------------------------------

  function BindingOf(e: Entry): Binding {
    Binding(e.text, e.answer, e.status, e.steeringFor, !IsChat(e), e.memory.Some?, e.admission)
  }

  function BindingsOf(entries: seq<Entry>, through: nat): (b: seq<Binding>)
    requires through < |entries|
    ensures |b| == through + 1
    ensures forall p :: 0 <= p <= through ==> b[p] == BindingOf(entries[p])
  {
    seq(through + 1, p requires 0 <= p <= through => BindingOf(entries[p]))
  }

  /** A compaction can be rebuilt from the settled originals it names. */
  predicate Reconstructs(c: Lineage, entries: seq<Entry>, revision: nat) {
    && c.sourceRevision < revision
    && c.through < |entries|
    && (forall p | 0 <= p <= c.through :: Settled(entries[p].status))
    && c.bindings == BindingsOf(entries, c.through)
  }

  predicate CompactionsValid(compactions: seq<Lineage>, entries: seq<Entry>, revision: nat) {
    && |compactions| <= MAX_COMPACTIONS
    && (forall k | 0 <= k < |compactions| :: Reconstructs(compactions[k], entries, revision))
    && (forall k | 0 < k < |compactions| :: compactions[k - 1].through < compactions[k].through)
  }

  predicate RecordingValid(s: State) {
    && (s.retained.Some? ==> s.retained.value == s.recording && s.consumed <= |s.retained.value|)
    && (s.mode == Live ==> s.retained.None?)
  }

  predicate AdmissionValid(a: Admission, i: nat, count: nat, consumed: nat, revision: nat) {
    a.messageIndex == i && a.sourceRevision < revision && a.messageCount <= count && a.exchangeIndex < consumed
  }

  predicate AdmissionsValid(entries: seq<Entry>, consumed: nat, revision: nat) {
    && (forall i | 0 <= i < |entries| && entries[i].admission.Some? ::
          AdmissionValid(entries[i].admission.value, i, |entries|, consumed, revision))
    && (forall i, j | 0 <= i < j < |entries| && entries[i].admission.Some? && entries[j].admission.Some? ::
          entries[i].admission.value.exchangeIndex != entries[j].admission.value.exchangeIndex)
  }

  predicate SteeringValid(entries: seq<Entry>) {
    forall i | 0 <= i < |entries| && entries[i].steeringFor.Some? ::
      && entries[i].steeringFor.value < i
      && entries[entries[i].steeringFor.value].status != Queued
      && IsChat(entries[entries[i].steeringFor.value])
  }

  function Targets(entries: seq<Entry>): set<nat> {
    set i | 0 <= i < |entries| && entries[i].steeringFor.Some? :: entries[i].steeringFor.value
  }

  function Started(entries: seq<Entry>): set<nat> {
    set i: nat | 0 <= i < |entries| && entries[i].status != Queued && IsChat(entries[i])
  }

  function Attempted(entries: seq<Entry>): set<nat> {
    set i: nat | 0 <= i < |entries| && entries[i].status != Queued && entries[i].status != Cancelled
                  && IsChat(entries[i])
  }

  function AttemptedThenCancelled(entries: seq<Entry>): set<nat> {
    set i: nat | 0 <= i < |entries| && entries[i].status == Cancelled
                 && (i in Targets(entries) || entries[i].admission.Some?)
  }

  predicate CountValid(entries: seq<Entry>, consumed: nat) {
    |Attempted(entries)| + |AttemptedThenCancelled(entries)| <= consumed <= |Started(entries)|
  }

  predicate OneRunning(entries: seq<Entry>) {
    forall i, j | 0 <= i < j < |entries| :: entries[i].status != Running || entries[j].status != Running
  }

  predicate EventsMatch(events: seq<Event>, entries: seq<Entry>) {
    forall e | e in events ::
      e.key < |entries| && (e.phase.Completion? ==> e.phase.result == ResultOf(entries[e.key]))
  }

  /** The state validator. It does not look inside entries that were already built. */
  predicate Progress(s: State) {
    && |s.entries| <= MAX_ENTRIES
    && s.consumed <= MAX_ENTRIES
    && CompactionsValid(s.compactions, s.entries, s.revision)
    && RecordingValid(s)
    && AdmissionsValid(s.entries, s.consumed, s.revision)
    && SteeringValid(s.entries)
    && CountValid(s.entries, s.consumed)
    && OneRunning(s.entries)
    && (forall e | e in s.journal :: e.revision <= s.revision)
    && EventsMatch(s.journal, s.entries)
  }

  /** validate_runtime_state also validates the nested records again. */
  predicate Revalidates(s: State) {
    && Progress(s)
    && (forall i | 0 <= i < |s.entries| :: EntryValid(s.entries[i]))
    && JournalAdmits(s.journal, s.revision)
  }

  // -------------------------------------------------------------------------
  // The view of an entry that projection uses
  // -------------------------------------------------------------------------

  function MessageOf(e: Entry): Message {
    Message(e.text, e.status, e.answer, if e.steeringFor.None? then None else Some(e.steeringFor.value))
  }

  function MessagesOf(entries: seq<Entry>): (m: seq<Message>)
    ensures |m| == |entries|
    ensures forall i :: 0 <= i < |entries| ==> m[i] == MessageOf(entries[i])
  {
    seq(|entries|, i requires 0 <= i < |entries| => MessageOf(entries[i]))
  }

  function LatestCompaction(compactions: seq<Lineage>): Option<Compaction> {
    if compactions == [] then None
    else
      var c := compactions[|compactions| - 1];
      Some(Compaction(c.id, c.through))
  }
}
