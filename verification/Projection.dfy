/**
 * The model-visible history of a conversation: which messages a request shows,
 * in which turns (src/mos_eisley/conversation_context.py).
 *
 * ProjectContext follows the source's loops; Project is its specification, and
 * the lemmas below state what a projection promises about the messages.
 */
module Projection {
  import opened Prelude

  datatype Status = Queued | Running | Completed | Cancelled | Interrupted | Failed

  datatype Message = Message(text: string, status: Status, answer: Option<string>, steeringFor: Option<int>)

  datatype Compaction = Compaction(id: string, through: nat)

  datatype Role = User | Assistant

  datatype Source = Source(role: Role, positions: seq<nat>)

  datatype Turn = Turn(role: Role, blocks: seq<string>)

  datatype Reason = AfterTarget | NoCompletedAnswerOrRequiredLink

  datatype Omission = Omission(position: nat, reason: Reason)

  datatype Selection = Selection(
    policyVersion: nat,
    messageIndex: nat,
    turnSources: seq<Source>,
    omitted: seq<Omission>,
    compactionId: Option<string>,
    compactedPositions: seq<nat>)

  datatype View = View(turns: seq<Turn>, selection: Selection)

  datatype Fault = InvalidPosition | CompactionCoversTarget | SteeringNotEarlier | ContractRejected

  const MAX_MESSAGES := 16

  // -------------------------------------------------------------------------
  // The declared bounds of a selection record
  // -------------------------------------------------------------------------

  predicate ConsistentCompaction(s: Selection) {
    var compacted := s.compactedPositions;
    if s.policyVersion == 1 then
      s.compactionId.None? && compacted == []
    else
      && s.compactionId.Some?
      && compacted != []
      && compacted == Range(compacted[|compacted| - 1] + 1)
      && compacted[|compacted| - 1] < s.messageIndex
  }

  predicate PositionsInRange(positions: seq<nat>) {
    forall p | p in positions :: p <= 15
  }

  predicate SourceAdmissible(s: Source) {
    1 <= |s.positions| <= 16 && PositionsInRange(s.positions)
  }

  /** The field bounds and the validator of a selection, lines 33 to 73. */
  predicate ContractAdmits(s: Selection) {
    && s.policyVersion in {1, 2}
    && s.messageIndex <= 15
    && 1 <= |s.turnSources| <= 31
    && (forall t | t in s.turnSources :: SourceAdmissible(t))
    && |s.omitted| <= 15
    && (forall o | o in s.omitted :: o.position <= 15)
    && |s.compactedPositions| <= 16
    && PositionsInRange(s.compactedPositions)
    && ConsistentCompaction(s)
  }

  function Range(n: nat): (r: seq<nat>)
    ensures |r| == n
    ensures forall i :: 0 <= i < n ==> r[i] == i
  {
    seq(n, i => i)
  }

  // -------------------------------------------------------------------------
  // Specification
  // -------------------------------------------------------------------------

  /** Every steering link of the first n messages points strictly backwards. */
  ghost predicate BackwardLinks(entries: seq<Message>, n: nat)
    requires n <= |entries|
  {
    forall p | 0 <= p < n && entries[p].steeringFor.Some? :: 0 <= entries[p].steeringFor.value < p
  }

  /** The earlier unanswered message after the boundary c that the text at p must follow, if any. */
  ghost function Link(entries: seq<Message>, c: int, p: nat): (t: Option<nat>)
    requires p < |entries|
    ensures t.Some? ==> c < t.value < p && entries[t.value].status != Completed
  {
    var t := entries[p].steeringFor;
    if t.Some? && 0 <= t.value < p && entries[t.value].status != Completed && t.value > c then Some(t.value) else None
  }

  ghost function Chain(entries: seq<Message>, c: int, p: nat): (chain: seq<nat>)
    requires p < |entries|
    ensures chain != [] && chain[|chain| - 1] == p
  {
    var t := Link(entries, c, p);
    if t.Some? then Chain(entries, c, t.value) + [p] else [p]
  }

  predicate Answered(m: Message) {
    m.status == Completed && m.answer.Some?
  }

  ghost function SourcesOf(entries: seq<Message>, c: int, p: nat): seq<Source>
    requires p < |entries|
  {
    if Answered(entries[p]) then [Source(User, Chain(entries, c, p)), Source(Assistant, [p])] else []
  }

  /** The turn sources of the messages from lo up to (not including) hi. */
  ghost function History(entries: seq<Message>, c: int, lo: nat, hi: nat): seq<Source>
    requires lo <= hi <= |entries|
    decreases hi
  {
    if lo == hi then [] else History(entries, c, lo, hi - 1) + SourcesOf(entries, c, hi - 1)
  }

  ghost function Sources(entries: seq<Message>, c: int, index: nat): seq<Source>
    requires -1 <= c < index < |entries|
  {
    History(entries, c, c + 1, index) + [Source(User, Chain(entries, c, index))]
  }

  function Selected(sources: seq<Source>): set<nat> {
    set s, p | s in sources && p in s.positions :: p
  }

  function Omitted(n: nat, index: nat, covered: set<nat>): seq<Omission> {
    if n == 0 then []
    else
      Omitted(n - 1, index, covered)
      + (if n - 1 in covered then []
         else [Omission(n - 1, if n - 1 > index then AfterTarget else NoCompletedAnswerOrRequiredLink)])
  }

  function Through(compaction: Option<Compaction>): (c: int)
    ensures c >= -1
  {
    if compaction.None? then -1 else compaction.value.through
  }

  function Covered(sources: seq<Source>, compacted: seq<nat>): set<nat> {
    Selected(sources) + (set p | p in compacted)
  }

  function Select(count: nat, index: nat, compaction: Option<Compaction>, sources: seq<Source>): Selection {
    var compacted := Range(Through(compaction) + 1);
    Selection(
      if compaction.Some? then 2 else 1,
      index,
      sources,
      Omitted(count, index, Covered(sources, compacted)),
      if compaction.None? then None else Some(compaction.value.id),
      compacted)
  }

  /** The text shown for one position of a turn with the given role. */
  function Block(entries: seq<Message>, role: Role, p: nat): string {
    if p >= |entries| then ""
    else if role == User then entries[p].text
    else if entries[p].answer.Some? then entries[p].answer.value else ""
  }

  ghost function Blocks(entries: seq<Message>, s: Source): seq<string> {
    seq(|s.positions|, i requires 0 <= i < |s.positions| => Block(entries, s.role, s.positions[i]))
  }

  ghost function Render(entries: seq<Message>, sources: seq<Source>): (turns: seq<Turn>)
    ensures |turns| == |sources|
    ensures forall i :: 0 <= i < |sources| ==> turns[i] == Turn(sources[i].role, Blocks(entries, sources[i]))
  {
    seq(|sources|, i requires 0 <= i < |sources| => Turn(sources[i].role, Blocks(entries, sources[i])))
  }

  ghost function Project(entries: seq<Message>, index: int, compaction: Option<Compaction>): Result<View, Fault> {
    var c := Through(compaction);
    if !(0 <= index < |entries| <= MAX_MESSAGES) then Err(InvalidPosition)
    else if c >= index then Err(CompactionCoversTarget)
    else if !BackwardLinks(entries, index + 1) then Err(SteeringNotEarlier)
    else
      var sources := Sources(entries, c, index);
      var selection := Select(|entries|, index, compaction, sources);
      if !ContractAdmits(selection) then Err(ContractRejected)
      else Ok(View(Render(entries, sources), selection))
  }

  // -------------------------------------------------------------------------
  // Steering chains
  // -------------------------------------------------------------------------

  ghost predicate Ascending(s: seq<nat>) {
    forall i, j :: 0 <= i < j < |s| ==> s[i] < s[j]
  }

  /** What a steering chain is, said without recursion: a maximal ascending run of links to p. */
  ghost predicate IsChain(entries: seq<Message>, c: int, chain: seq<nat>, p: nat)
    requires p < |entries|
  {
    && chain != []
    && chain[|chain| - 1] == p
    && Ascending(chain)
    && (forall i :: 0 < i < |chain| ==> Link(entries, c, chain[i]) == Some(chain[i - 1]))
    && Link(entries, c, chain[0]) == None
  }

  lemma {:induction false} ChainIsChain(entries: seq<Message>, c: int, p: nat)
    requires p < |entries|
    ensures IsChain(entries, c, Chain(entries, c, p), p)
    decreases p
  {
    var t := Link(entries, c, p);
    if t.Some? {
      ChainIsChain(entries, c, t.value);
    }
  }

  lemma {:induction false} ChainUnique(entries: seq<Message>, c: int, p: nat, chain: seq<nat>)
    requires p < |entries| && IsChain(entries, c, chain, p)
    ensures chain == Chain(entries, c, p)
    decreases p
  {
    var last := |chain| - 1;
    assert chain == chain[..last] + [p];
    if last > 0 {
      assert Link(entries, c, chain[last]) == Some(chain[last - 1]);
      ChainUnique(entries, c, chain[last - 1], chain[..last]);
    }
  }

  /** The chain is the one such sequence. */
  lemma ChainCharacterised(entries: seq<Message>, c: int, p: nat, chain: seq<nat>)
    requires p < |entries|
    ensures IsChain(entries, c, chain, p) <==> chain == Chain(entries, c, p)
  {
    ChainIsChain(entries, c, p);
    if IsChain(entries, c, chain, p) {
      ChainUnique(entries, c, p, chain);
    }
  }

  /** A chain holds p itself and otherwise only unanswered messages after the boundary. */
  lemma {:induction false} ChainMembers(entries: seq<Message>, c: int, p: nat, q: nat)
    requires p < |entries| && q in Chain(entries, c, p)
    ensures q == p || (c < q < p && entries[q].status != Completed)
    decreases p
  {
    var t := Link(entries, c, p);
    if t.Some? && q != p {
      ChainMembers(entries, c, t.value, q);
    }
  }

  lemma {:induction false} ChainLength(entries: seq<Message>, c: int, p: nat)
    requires p < |entries|
    ensures 1 <= |Chain(entries, c, p)| <= p + 1
    decreases p
  {
    var t := Link(entries, c, p);
    if t.Some? {
      ChainLength(entries, c, t.value);
    }
  }

  // -------------------------------------------------------------------------
  // The source list
  // -------------------------------------------------------------------------

  /** The position whose exchange a source belongs to: the last one it shows. */
  ghost function Own(s: Source): nat {
    if s.positions == [] then 0 else s.positions[|s.positions| - 1]
  }

  /** How many messages from lo up to hi have an answer to show. */
  ghost function Exchanges(entries: seq<Message>, lo: nat, hi: nat): (n: nat)
    requires lo <= hi <= |entries|
    ensures n <= hi - lo
    decreases hi
  {
    if lo == hi then 0 else Exchanges(entries, lo, hi - 1) + if Answered(entries[hi - 1]) then 1 else 0
  }

  lemma {:induction false} HistorySize(entries: seq<Message>, c: int, lo: nat, hi: nat)
    requires lo <= hi <= |entries|
    ensures |History(entries, c, lo, hi)| == 2 * Exchanges(entries, lo, hi)
    decreases hi
  {
    if lo < hi {
      HistorySize(entries, c, lo, hi - 1);
    }
  }

  lemma SourcesOfRoles(entries: seq<Message>, c: int, p: nat)
    requires p < |entries|
    ensures |SourcesOf(entries, c, p)| == if Answered(entries[p]) then 2 else 0
    ensures Answered(entries[p]) ==>
              SourcesOf(entries, c, p)[0].role == User && SourcesOf(entries, c, p)[1].role == Assistant
  {
    hide Chain;
  }

  lemma {:induction false} HistoryRole(entries: seq<Message>, c: int, lo: nat, hi: nat, i: nat)
    requires lo <= hi <= |entries| && i < |History(entries, c, lo, hi)|
    ensures History(entries, c, lo, hi)[i].role == if i % 2 == 0 then User else Assistant
    decreases hi
  {
    hide SourcesOf, Chain, Answered;
    HistorySize(entries, c, lo, hi - 1);
    SourcesOfRoles(entries, c, hi - 1);
    var before := |History(entries, c, lo, hi - 1)|;
    if i < before {
      HistoryRole(entries, c, lo, hi - 1, i);
    } else {
      assert History(entries, c, lo, hi)[i] == SourcesOf(entries, c, hi - 1)[i - before];
    }
  }

  /** The source at place i of a history is one of the two of an answered message. */
  lemma {:induction false} HistoryOrigin(entries: seq<Message>, c: int, lo: nat, hi: nat, i: nat) returns (m: nat)
    requires lo <= hi <= |entries| && i < |History(entries, c, lo, hi)|
    ensures lo <= m < hi && Answered(entries[m])
    ensures History(entries, c, lo, hi)[i] in SourcesOf(entries, c, m)
    ensures Own(History(entries, c, lo, hi)[i]) == m
    decreases hi
  {
    var before := |History(entries, c, lo, hi - 1)|;
    if i < before {
      m := HistoryOrigin(entries, c, lo, hi - 1, i);
    } else {
      m := hi - 1;
      assert History(entries, c, lo, hi)[i] == SourcesOf(entries, c, m)[i - before];
    }
  }

  lemma {:induction false} HistoryComplete(entries: seq<Message>, c: int, lo: nat, hi: nat, m: nat) returns (i: nat)
    requires lo <= m < hi <= |entries| && Answered(entries[m])
    ensures i + 1 < |History(entries, c, lo, hi)|
    ensures History(entries, c, lo, hi)[i] == Source(User, Chain(entries, c, m))
    ensures History(entries, c, lo, hi)[i + 1] == Source(Assistant, [m])
    decreases hi
  {
    if m == hi - 1 {
      i := |History(entries, c, lo, m)|;
    } else {
      i := HistoryComplete(entries, c, lo, hi - 1, m);
    }
  }

  /** In a history the sources stand in message order, a message's question before its answer. */
  lemma {:induction false} HistoryOrder(entries: seq<Message>, c: int, lo: nat, hi: nat, i: nat, j: nat)
    requires lo <= hi <= |entries| && i < j < |History(entries, c, lo, hi)|
    ensures Own(History(entries, c, lo, hi)[i]) < Own(History(entries, c, lo, hi)[j])
            || (History(entries, c, lo, hi)[i].role == User && History(entries, c, lo, hi)[j].role == Assistant)
    decreases hi
  {
    var before := |History(entries, c, lo, hi - 1)|;
    if j < before {
      HistoryOrder(entries, c, lo, hi - 1, i, j);
    } else if i < before {
      var m := HistoryOrigin(entries, c, lo, hi - 1, i);
      var n := HistoryOrigin(entries, c, lo, hi, j);
      assert n == hi - 1 by { LastSources(entries, c, lo, hi, j); }
    } else {
      assert i == before && j == before + 1;
    }
  }

  lemma LastSources(entries: seq<Message>, c: int, lo: nat, hi: nat, j: nat)
    requires lo < hi <= |entries|
    requires |History(entries, c, lo, hi - 1)| <= j < |History(entries, c, lo, hi)|
    ensures Own(History(entries, c, lo, hi)[j]) == hi - 1
  {
    var before := |History(entries, c, lo, hi - 1)|;
    assert History(entries, c, lo, hi)[j] == SourcesOf(entries, c, hi - 1)[j - before];
  }

  /** What the source at place i of a projection contains. */
  lemma SourceAt(entries: seq<Message>, c: int, index: nat, i: nat) returns (m: nat)
    requires -1 <= c < index < |entries| && i < |Sources(entries, c, index)|
    ensures c < m <= index && m == Own(Sources(entries, c, index)[i])
    ensures m == index <==> i == |Sources(entries, c, index)| - 1
    ensures m < index ==> Answered(entries[m])
    ensures Sources(entries, c, index)[i].positions
            == if Sources(entries, c, index)[i].role == User then Chain(entries, c, m) else [m]
    ensures m == index ==> Sources(entries, c, index)[i].role == User
  {
    if i < |History(entries, c, c + 1, index)| {
      m := HistoryOrigin(entries, c, c + 1, index, i);
    } else {
      m := index;
    }
  }

  // -------------------------------------------------------------------------
  // What a projection promises
  // -------------------------------------------------------------------------

  lemma {:induction false} OmittedSound(n: nat, index: nat, covered: set<nat>, k: nat)
    requires k < |Omitted(n, index, covered)|
    ensures var o := Omitted(n, index, covered)[k];
            o.position < n && o.position !in covered && (o.reason == AfterTarget <==> o.position > index)
    decreases n
  {
    if k < |Omitted(n - 1, index, covered)| {
      OmittedSound(n - 1, index, covered, k);
    }
  }

  lemma {:induction false} OmittedComplete(n: nat, index: nat, covered: set<nat>, p: nat)
    requires p < n && p !in covered
    ensures Omission(p, if p > index then AfterTarget else NoCompletedAnswerOrRequiredLink)
            in Omitted(n, index, covered)
    decreases n
  {
    if p < n - 1 {
      OmittedComplete(n - 1, index, covered, p);
    }
  }

  lemma {:induction false} OmittedSize(n: nat, index: nat, covered: set<nat>)
    ensures |Omitted(n, index, covered)| <= n
    ensures index < n && index in covered ==> |Omitted(n, index, covered)| < n
    decreases n
  {
    if n > 0 {
      OmittedSize(n - 1, index, covered);
    }
  }

  lemma TargetSelected(entries: seq<Message>, c: int, index: nat)
    requires -1 <= c < index < |entries|
    ensures index in Selected(Sources(entries, c, index))
  {
    var sources := Sources(entries, c, index);
    var last := sources[|sources| - 1];
    assert last in sources;
    assert last.positions[|last.positions| - 1] in last.positions;
  }

  lemma SourcesAdmissible(entries: seq<Message>, c: int, index: nat, i: nat)
    requires -1 <= c < index < |entries| <= MAX_MESSAGES && i < |Sources(entries, c, index)|
    ensures SourceAdmissible(Sources(entries, c, index)[i])
  {
    var m := SourceAt(entries, c, index, i);
    ChainLength(entries, c, m);
    forall p | p in Chain(entries, c, m) ensures p <= 15 {
      ChainMembers(entries, c, m, p);
    }
  }

  /** The declared limits 31, 16 and 15 and the compaction validator can never reject. */
  lemma LimitsNeverReject(entries: seq<Message>, index: nat, compaction: Option<Compaction>)
    requires Through(compaction) < index < |entries| <= MAX_MESSAGES
    ensures ContractAdmits(Select(|entries|, index, compaction, Sources(entries, Through(compaction), index)))
  {
    var c := Through(compaction);
    var sources := Sources(entries, c, index);
    var selection := Select(|entries|, index, compaction, sources);
    HistorySize(entries, c, c + 1, index);
    forall s | s in sources ensures SourceAdmissible(s) {
      var i :| 0 <= i < |sources| && sources[i] == s;
      SourcesAdmissible(entries, c, index, i);
    }
    var covered := Covered(sources, selection.compactedPositions);
    TargetSelected(entries, c, index);
    OmittedSize(|entries|, index, covered);
    forall o | o in selection.omitted ensures o.position <= 15 {
      var k :| 0 <= k < |selection.omitted| && selection.omitted[k] == o;
      OmittedSound(|entries|, index, covered, k);
    }
  }

  /** A projection succeeds exactly on an admissible history; it fails for no other reason. */
  lemma ProjectSucceedsExactly(entries: seq<Message>, index: int, compaction: Option<Compaction>)
    ensures Project(entries, index, compaction).Ok? <==>
              && 0 <= index < |entries| <= MAX_MESSAGES
              && Through(compaction) < index
              && BackwardLinks(entries, index + 1)
  {
    if 0 <= index < |entries| <= MAX_MESSAGES && Through(compaction) < index && BackwardLinks(entries, index + 1) {
      LimitsNeverReject(entries, index, compaction);
    }
  }

  lemma SourceRole(entries: seq<Message>, c: int, index: nat, i: nat)
    requires -1 <= c < index < |entries| && i < |Sources(entries, c, index)|
    ensures |Sources(entries, c, index)| == 2 * Exchanges(entries, c + 1, index) + 1
    ensures Sources(entries, c, index)[i].role == if i % 2 == 0 then User else Assistant
  {
    HistorySize(entries, c, c + 1, index);
    if i < |History(entries, c, c + 1, index)| {
      HistoryRole(entries, c, c + 1, index, i);
    }
  }

  /** The turn at place i has the alternating role; the last one is the target's, two per exchange precede it. */
  lemma TurnsAlternate(entries: seq<Message>, index: int, compaction: Option<Compaction>, i: nat)
    requires Project(entries, index, compaction).Ok?
    requires i < |Project(entries, index, compaction).value.turns|
    ensures var turns := Project(entries, index, compaction).value.turns;
            && |turns| == 2 * Exchanges(entries, Through(compaction) + 1, index) + 1
            && turns[i].role == (if i % 2 == 0 then User else Assistant)
            && (i == |turns| - 1 ==>
                turns[i].blocks != [] && turns[i].blocks[|turns[i].blocks| - 1] == entries[index].text)
  {
    SourceRole(entries, Through(compaction), index, i);
  }

  /** Each answered message between the boundary and the target has exactly one assistant turn. */
  lemma AnsweredExactlyOnce(entries: seq<Message>, index: int, compaction: Option<Compaction>, m: nat)
    returns (place: nat)
    requires Project(entries, index, compaction).Ok?
    requires Through(compaction) < m < index && Answered(entries[m])
    ensures var sources := Project(entries, index, compaction).value.selection.turnSources;
            && place < |sources|
            && sources[place] == Source(Assistant, [m])
            && (forall i | 0 <= i < |sources| && sources[i].role == Assistant && m in sources[i].positions ::
                i == place)
  {
    var c := Through(compaction);
    var sources := Sources(entries, c, index);
    var first := HistoryComplete(entries, c, c + 1, index, m);
    place := first + 1;
    forall i | 0 <= i < |sources| && sources[i].role == Assistant && m in sources[i].positions
      ensures i == place
    {
      var own := SourceAt(entries, c, index, i);
      OneAssistantPlace(entries, c, index, i, place);
    }
  }

  lemma OneAssistantPlace(entries: seq<Message>, c: int, index: nat, i: nat, j: nat)
    requires -1 <= c < index < |entries|
    requires i < |Sources(entries, c, index)| && j < |Sources(entries, c, index)|
    requires Sources(entries, c, index)[i].role == Assistant && Sources(entries, c, index)[j].role == Assistant
    requires Own(Sources(entries, c, index)[i]) == Own(Sources(entries, c, index)[j])
    ensures i == j
  {
    var a := SourceAt(entries, c, index, i);
    var b := SourceAt(entries, c, index, j);
    if i < j {
      HistoryOrder(entries, c, c + 1, index, i, j);
    } else if j < i {
      HistoryOrder(entries, c, c + 1, index, j, i);
    }
  }

  /** An answered message before the target is shown in no other message's user turn. */
  lemma AnsweredNotBorrowed(entries: seq<Message>, index: int, compaction: Option<Compaction>, m: nat, i: nat)
    requires Project(entries, index, compaction).Ok?
    requires m < index && Answered(entries[m])
    requires i < |Project(entries, index, compaction).value.selection.turnSources|
    requires m in Project(entries, index, compaction).value.selection.turnSources[i].positions
    ensures Own(Project(entries, index, compaction).value.selection.turnSources[i]) == m
  {
    var c := Through(compaction);
    var own := SourceAt(entries, c, index, i);
    if Sources(entries, c, index)[i].role == User {
      ChainMembers(entries, c, own, m);
    }
  }

  lemma SelectedAfterBoundary(entries: seq<Message>, c: int, index: nat, p: nat)
    requires -1 <= c < index < |entries|
    requires p in Selected(Sources(entries, c, index))
    ensures c < p <= index
  {
    var sources := Sources(entries, c, index);
    var s :| s in sources && p in s.positions;
    var i :| 0 <= i < |sources| && sources[i] == s;
    var m := SourceAt(entries, c, index, i);
    if s.role == User {
      ChainMembers(entries, c, m, p);
    }
  }

  /** Where position p ends up in a selection. */
  datatype Place = IsSelected | IsCompacted | IsOmitted(reason: Reason)

  ghost predicate PlacedAt(sel: Selection, p: nat, place: Place) {
    match place
    case IsSelected => p in Selected(sel.turnSources)
    case IsCompacted => p in sel.compactedPositions
    case IsOmitted(reason) => Omission(p, reason) in sel.omitted
  }

  /** Positions split exactly into selected, compacted and omitted: each has one place. */
  lemma PositionsPartition(entries: seq<Message>, index: int, compaction: Option<Compaction>, p: nat)
    returns (place: Place)
    requires Project(entries, index, compaction).Ok? && p < |entries|
    ensures var sel := Project(entries, index, compaction).value.selection;
            forall other :: PlacedAt(sel, p, other) <==> other == place
    ensures place == IsCompacted <==> p <= Through(compaction)
    ensures p > index ==> place == IsOmitted(AfterTarget)
  {
    var c := Through(compaction);
    var sources := Sources(entries, c, index);
    var sel := Project(entries, index, compaction).value.selection;
    var covered := Covered(sources, sel.compactedPositions);
    var reason := if p > index then AfterTarget else NoCompletedAnswerOrRequiredLink;
    if p <= c {
      assert sel.compactedPositions[p] == p;
    }
    if p in Selected(sources) {
      SelectedAfterBoundary(entries, c, index, p);
    }
    place := if p <= c then IsCompacted else if p in Selected(sources) then IsSelected else IsOmitted(reason);
    if p !in covered {
      OmittedComplete(|entries|, index, covered, p);
    }
    forall other | PlacedAt(sel, p, other) ensures other == place {
      if other.IsOmitted? {
        var k :| 0 <= k < |sel.omitted| && sel.omitted[k] == Omission(p, other.reason);
        OmittedSound(|entries|, index, covered, k);
      }
    }
  }

  // -------------------------------------------------------------------------
  // Later messages and compaction
  // -------------------------------------------------------------------------

  lemma {:induction false} ChainPrefix(entries: seq<Message>, more: seq<Message>, c: int, p: nat)
    requires p < |entries|
    ensures Chain(entries + more, c, p) == Chain(entries, c, p)
    decreases p
  {
    var t := Link(entries, c, p);
    assert (entries + more)[p] == entries[p];
    if t.Some? {
      ChainPrefix(entries, more, c, t.value);
    }
  }

  lemma SourcesOfPrefix(entries: seq<Message>, more: seq<Message>, c: int, m: nat)
    requires m < |entries|
    ensures SourcesOf(entries + more, c, m) == SourcesOf(entries, c, m)
  {
    ChainPrefix(entries, more, c, m);
    assert (entries + more)[m] == entries[m];
  }

  lemma {:induction false} HistoryPrefix(entries: seq<Message>, more: seq<Message>, c: int, lo: nat, hi: nat)
    requires lo <= hi <= |entries|
    ensures History(entries + more, c, lo, hi) == History(entries, c, lo, hi)
    decreases hi
  {
    if lo < hi {
      HistoryPrefix(entries, more, c, lo, hi - 1);
      hide Chain, Answered, SourcesOf;
      SourcesOfPrefix(entries, more, c, hi - 1);
    }
  }

  lemma BlocksPrefix(entries: seq<Message>, more: seq<Message>, c: int, index: nat, i: nat)
    requires -1 <= c < index < |entries| && i < |Sources(entries, c, index)|
    ensures Blocks(entries + more, Sources(entries, c, index)[i]) == Blocks(entries, Sources(entries, c, index)[i])
  {
    var s := Sources(entries, c, index)[i];
    var m := SourceAt(entries, c, index, i);
    forall k | 0 <= k < |s.positions| ensures s.positions[k] <= m {
      if s.role == User {
        ChainMembers(entries, c, m, s.positions[k]);
      }
    }
  }

  /** Messages after the target never change the turns. */
  lemma LaterMessagesIrrelevant(
      entries: seq<Message>, more: seq<Message>, index: int, compaction: Option<Compaction>)
    requires Project(entries, index, compaction).Ok?
    requires |entries + more| <= MAX_MESSAGES
    ensures Project(entries + more, index, compaction).Ok?
    ensures Project(entries + more, index, compaction).value.turns == Project(entries, index, compaction).value.turns
  {
    var c := Through(compaction);
    var sources := Sources(entries, c, index);
    assert BackwardLinks(entries + more, index + 1) by {
      assert forall q :: 0 <= q < |entries| ==> (entries + more)[q] == entries[q];
    }
    ProjectSucceedsExactly(entries + more, index, compaction);
    ChainPrefix(entries, more, c, index);
    HistoryPrefix(entries, more, c, c + 1, index);
    assert Sources(entries + more, c, index) == sources;
    forall i | 0 <= i < |sources|
      ensures Render(entries + more, sources)[i] == Render(entries, sources)[i]
    {
      BlocksPrefix(entries, more, c, index, i);
    }
    assert Render(entries + more, sources) == Render(entries, sources);
  }

  function After(positions: seq<nat>, c: int): seq<nat> {
    if positions == [] then []
    else
      var last := |positions| - 1;
      After(positions[..last], c) + (if positions[last] > c then [positions[last]] else [])
  }

  ghost function CompactOne(s: Source, c: int): seq<Source> {
    if Own(s) > c then [Source(s.role, After(s.positions, c))] else []
  }

  /** Drop the exchanges at or before c, then the positions at or before c in what remains. */
  ghost function Compact(sources: seq<Source>, c: int): seq<Source> {
    if sources == [] then []
    else Compact(sources[..|sources| - 1], c) + CompactOne(sources[|sources| - 1], c)
  }

  lemma {:induction false} CompactAppend(a: seq<Source>, b: seq<Source>, c: int)
    ensures Compact(a + b, c) == Compact(a, c) + Compact(b, c)
    decreases |b|
  {
    if b == [] {
      assert a + b == a;
    } else {
      var last := |b| - 1;
      assert (a + b)[..|a + b| - 1] == a + b[..last];
      CompactAppend(a, b[..last], c);
    }
  }

  lemma CompactSingle(s: Source, c: int)
    ensures Compact([s], c) == CompactOne(s, c)
  {
    assert [s][..0] == [];
  }

  lemma {:induction false} ChainCompacts(entries: seq<Message>, c: int, p: nat)
    requires p < |entries| && -1 <= c
    ensures After(Chain(entries, -1, p), c) == if c < p then Chain(entries, c, p) else []
    decreases p
  {
    var t := Link(entries, -1, p);
    if t.Some? {
      ChainCompacts(entries, c, t.value);
      var whole := Chain(entries, -1, p);
      assert whole[..|whole| - 1] == Chain(entries, -1, t.value);
    } else {
      assert [p][..0] == [];
    }
  }

  lemma SourcesOfCompact(entries: seq<Message>, c: int, m: nat)
    requires m < |entries| && -1 <= c
    ensures Compact(SourcesOf(entries, -1, m), c) == if c < m then SourcesOf(entries, c, m) else []
  {
    if Answered(entries[m]) {
      var user, answer := Source(User, Chain(entries, -1, m)), Source(Assistant, [m]);
      ChainCompacts(entries, c, m);
      CompactAppend([user], [answer], c);
      CompactSingle(user, c);
      CompactSingle(answer, c);
      assert [user] + [answer] == SourcesOf(entries, -1, m);
      assert [m][..0] == [] && After([], c) == [];
      assert After([m], c) == if m > c then [m] else [];
      if c < m {
        assert CompactOne(user, c) == [Source(User, Chain(entries, c, m))];
        assert CompactOne(answer, c) == [answer];
      }
    } else {
      assert SourcesOf(entries, -1, m) == [];
    }
  }

  lemma {:induction false} HistoryCompacts(entries: seq<Message>, c: int, hi: nat)
    requires -1 <= c && hi <= |entries|
    ensures Compact(History(entries, -1, 0, hi), c) == if c + 1 <= hi then History(entries, c, c + 1, hi) else []
    decreases hi
  {
    if hi > 0 {
      HistoryCompacts(entries, c, hi - 1);
      SourcesOfCompact(entries, c, hi - 1);
      CompactAppend(History(entries, -1, 0, hi - 1), SourcesOf(entries, -1, hi - 1), c);
    }
  }

  lemma SourcesCompact(entries: seq<Message>, c: int, index: nat)
    requires -1 <= c < index < |entries|
    ensures Sources(entries, c, index) == Compact(Sources(entries, -1, index), c)
  {
    var last := Source(User, Chain(entries, -1, index));
    HistoryCompacts(entries, c, index);
    ChainCompacts(entries, c, index);
    CompactSingle(last, c);
    CompactAppend(History(entries, -1, 0, index), [last], c);
  }

  /**
   * Compaction refines projection: the sources with boundary c are those without
   * one, less the exchanges at or before c, less the positions at or before c.
   */
  lemma CompactionRefines(entries: seq<Message>, index: int, compaction: Compaction)
    requires Project(entries, index, Some(compaction)).Ok?
    ensures Project(entries, index, None).Ok?
    ensures Project(entries, index, Some(compaction)).value.selection.turnSources
            == Compact(Project(entries, index, None).value.selection.turnSources, compaction.through)
  {
    hide Compact, History, Chain;
    ProjectSucceedsExactly(entries, index, None);
    SourcesCompact(entries, compaction.through, index);
  }

  // -------------------------------------------------------------------------
  // The implementation
  // -------------------------------------------------------------------------

  lemma ChainUnfold(entries: seq<Message>, c: int, p: nat, shown: seq<nat>)
    requires p < |entries|
    ensures var t := Link(entries, c, p);
            Chain(entries, c, p) + shown == (if t.Some? then Chain(entries, c, t.value) else []) + ([p] + shown)
  {
  }

  /** The inner loop user_positions: follow the links down, then reverse. */
  method UserPositions(entries: seq<Message>, c: int, start: nat) returns (r: seq<nat>)
    requires start < |entries| && BackwardLinks(entries, start + 1)
    ensures r == Chain(entries, c, start)
  {
    var positions := [start];
    var position: nat := start;
    ghost var shown: seq<nat> := [];
    var open := true;
    while open
      invariant position <= start
      invariant Reverse(positions) == [position] + shown
      invariant Chain(entries, c, start) == (if open then Chain(entries, c, position) else [position]) + shown
      decreases open, position
    {
      var link := entries[position].steeringFor;
      if link.None? || entries[link.value].status == Completed || link.value <= c {
        ChainUnfold(entries, c, position, shown);
        open := false;
      } else {
        ReverseSnoc(positions, link.value);
        ChainUnfold(entries, c, position, shown);
        positions := positions + [link.value];
        shown := [position] + shown;
        position := link.value;
      }
    }
    r := Reverse(positions);
  }

  method CheckLinks(entries: seq<Message>, n: nat) returns (ok: bool)
    requires n <= |entries|
    ensures ok <==> BackwardLinks(entries, n)
  {
    for position := 0 to n
      invariant BackwardLinks(entries, position)
    {
      var link := entries[position].steeringFor;
      if link.Some? && !(0 <= link.value < position) {
        return false;
      }
    }
    return true;
  }

  method CollectSources(entries: seq<Message>, c: int, index: nat) returns (sources: seq<Source>)
    requires -1 <= c < index < |entries| && BackwardLinks(entries, index + 1)
    ensures sources == Sources(entries, c, index)
  {
    sources := [];
    for position := c + 1 to index
      invariant sources == History(entries, c, c + 1, position)
    {
      if Answered(entries[position]) {
        var shown := UserPositions(entries, c, position);
        sources := sources + [Source(User, shown), Source(Assistant, [position])];
      }
    }
    var target := UserPositions(entries, c, index);
    sources := sources + [Source(User, target)];
  }

  method RenderTurns(entries: seq<Message>, sources: seq<Source>) returns (turns: seq<Turn>)
    ensures turns == Render(entries, sources)
  {
    turns := [];
    for i := 0 to |sources|
      invariant turns == Render(entries, sources)[..i]
    {
      var blocks: seq<string> := [];
      for k := 0 to |sources[i].positions|
        invariant blocks == Blocks(entries, sources[i])[..k]
      {
        blocks := blocks + [Block(entries, sources[i].role, sources[i].positions[k])];
      }
      assert blocks == Blocks(entries, sources[i]);
      turns := turns + [Turn(sources[i].role, blocks)];
    }
    assert turns == Render(entries, sources);
  }

  /** project_context: the checks, the source loop, the selection and the turn loop. */
  method ProjectContext(entries: seq<Message>, index: int, compaction: Option<Compaction>)
    returns (r: Result<View, Fault>)
    ensures r == Project(entries, index, compaction)
  {
    if !(0 <= index < |entries| <= MAX_MESSAGES) {
      return Err(InvalidPosition);
    }
    var c := Through(compaction);
    if c >= index {
      return Err(CompactionCoversTarget);
    }
    var ordered := CheckLinks(entries, index + 1);
    if !ordered {
      return Err(SteeringNotEarlier);
    }
    var sources := CollectSources(entries, c, index);
    var selection := Select(|entries|, index, compaction, sources);
    if !ContractAdmits(selection) {
      return Err(ContractRejected);
    }
    var turns := RenderTurns(entries, sources);
    r := Ok(View(turns, selection));
  }

  /** The source's assertion that an assistant turn always has a text: block texts are real. */
  lemma AssistantTextExists(entries: seq<Message>, index: int, compaction: Option<Compaction>, i: nat)
    requires Project(entries, index, compaction).Ok?
    requires i < |Project(entries, index, compaction).value.turns|
    requires Project(entries, index, compaction).value.turns[i].role == Assistant
    ensures var view := Project(entries, index, compaction).value;
            exists m: nat :: m < index && view.selection.turnSources[i] == Source(Assistant, [m])
              && Answered(entries[m]) && view.turns[i].blocks == [entries[m].answer.value]
  {
    var c := Through(compaction);
    var m := SourceAt(entries, c, index, i);
    var s := Sources(entries, c, index)[i];
    assert Blocks(entries, s) == [entries[m].answer.value];
  }

  // -------------------------------------------------------------------------
  // What a projection shows, said without the specification functions
  // -------------------------------------------------------------------------

  /**
   * Each turn has the role of its source and one block for each position of it. A
   * user turn shows the texts of those messages, an assistant turn their answers.
   */
  lemma TurnsShow(entries: seq<Message>, index: int, compaction: Option<Compaction>, i: nat, k: nat)
    requires Project(entries, index, compaction).Ok?
    requires i < |Project(entries, index, compaction).value.turns|
    ensures var view := Project(entries, index, compaction).value;
            && |view.turns| == |view.selection.turnSources|
            && view.turns[i].role == view.selection.turnSources[i].role
            && |view.turns[i].blocks| == |view.selection.turnSources[i].positions|
    ensures var view := Project(entries, index, compaction).value;
            k < |view.turns[i].blocks| ==>
              var p := view.selection.turnSources[i].positions[k];
              && p <= index
              && (view.turns[i].role == User ==> view.turns[i].blocks[k] == entries[p].text)
              && (view.turns[i].role == Assistant ==> entries[p].answer == Some(view.turns[i].blocks[k]))
  {
    var c := Through(compaction);
    var m := SourceAt(entries, c, index, i);
    var s := Sources(entries, c, index)[i];
    if k < |s.positions| && s.role == User {
      ChainMembers(entries, c, m, s.positions[k]);
    }
  }

  /** Where the steering of a message ends: it has none, or what it steers is answered for or compacted. */
  predicate SteersNothing(entries: seq<Message>, boundary: int, p: nat)
    requires p < |entries|
  {
    match entries[p].steeringFor
    case None => true
    case Some(t) => !(0 <= t < |entries|) || entries[t].status == Completed || t <= boundary
  }

  /** The message shown at place k steers the one shown before it, which has not completed and is not compacted. */
  predicate Steers(entries: seq<Message>, boundary: int, at: seq<nat>, k: nat)
    requires 0 < k < |at| && at[k] < |entries| && at[k - 1] < |entries|
  {
    && entries[at[k]].steeringFor == Some(at[k - 1])
    && entries[at[k - 1]].status != Completed && at[k - 1] > boundary
  }

  /**
   * The positions of a user turn are the whole chain of steering links behind its
   * last message: each message steers the one shown before it, and the first one
   * steers nothing that could be shown.
   */
  lemma UserTurnChains(entries: seq<Message>, index: int, compaction: Option<Compaction>, i: nat)
    requires Project(entries, index, compaction).Ok?
    requires i < |Project(entries, index, compaction).value.selection.turnSources|
    requires Project(entries, index, compaction).value.selection.turnSources[i].role == User
    ensures var at := Project(entries, index, compaction).value.selection.turnSources[i].positions;
            var boundary := if compaction.None? then -1 else compaction.value.through;
            && at != []
            && (forall k | 0 <= k < |at| :: at[k] < |entries|)
            && (forall k | 0 < k < |at| :: Steers(entries, boundary, at, k))
            && SteersNothing(entries, boundary, at[0])
  {
    hide Chain, History;
    var c := Through(compaction);
    var m := SourceAt(entries, c, index, i);
    ChainSteers(entries, c, m);
    ProjectSucceedsExactly(entries, index, compaction);
  }

  lemma ChainSteers(entries: seq<Message>, c: int, m: nat)
    requires m < |entries|
    ensures var at := Chain(entries, c, m);
            && at != []
            && (forall k | 0 <= k < |at| :: at[k] < |entries|)
            && (forall k | 0 < k < |at| :: Steers(entries, c, at, k))
    ensures BackwardLinks(entries, m + 1) ==> SteersNothing(entries, c, Chain(entries, c, m)[0])
  {
    hide Chain;
    var at := Chain(entries, c, m);
    ChainIsChain(entries, c, m);
    forall k | 0 <= k < |at| ensures at[k] <= m {
      ChainMembers(entries, c, m, at[k]);
    }
    forall k | 0 < k < |at| ensures Steers(entries, c, at, k) {
      assert Link(entries, c, at[k]) == Some(at[k - 1]);
    }
    assert Link(entries, c, at[0]) == None;
  }

  /** The record of a projection, and which error a refused one raises. */
  lemma ProjectRecords(entries: seq<Message>, index: int, compaction: Option<Compaction>)
    ensures var r, boundary := Project(entries, index, compaction),
              if compaction.None? then -1 else compaction.value.through;
            && (r == Err(InvalidPosition) <==> !(0 <= index < |entries| <= 16))
            && (r == Err(CompactionCoversTarget) <==> 0 <= index < |entries| <= 16 && boundary >= index)
            && (r == Err(SteeringNotEarlier) <==>
                  && 0 <= index < |entries| <= 16 && boundary < index
                  && exists p :: 0 <= p <= index && entries[p].steeringFor.Some?
                                 && !(0 <= entries[p].steeringFor.value < p))
    ensures var r, boundary := Project(entries, index, compaction),
              if compaction.None? then -1 else compaction.value.through;
            r.Ok? ==>
              && r.value.selection.messageIndex == index
              && r.value.selection.policyVersion == (if compaction.None? then 1 else 2)
              && r.value.selection.compactionId == (if compaction.None? then None else Some(compaction.value.id))
              && |r.value.selection.compactedPositions| == boundary + 1
              && forall k | 0 <= k <= boundary :: r.value.selection.compactedPositions[k] == k
  {
    ProjectSucceedsExactly(entries, index, compaction);
    hide Sources, Render, Omitted, ContractAdmits;
  }
}
