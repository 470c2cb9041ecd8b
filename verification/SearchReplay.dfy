/** The independent validator of exported search ledgers. */
module SearchReplay {
  import opened Wrappers
  import opened Ledger

  datatype Kind = SeedKind | ExpandKind | ReviseKind | AblateKind

  datatype Candidate = Candidate(id: string, formula: string, parent: Option<string>, kind: Kind, prior: real)

  datatype State =
    | Seed | Expand | Minimize | Validate | Evaluate | Reject | Rank | ResultState | Stop | Unsupported

  datatype Status = BudgetExhausted | ResultFound | InsufficientInformation

  datatype Reason =
    | Blank | DeclaredSeed | CandidateSelected | InvalidCandidate | GatePassed | GateFailed | CandidateRanked
    | ActivatedBy(parent: string) | Finished(status: Status)

  datatype Data =
    | NoData
    | Activation(candidate: Candidate)
    | Failure(error: string)
    | Quality(width: real, passed: bool)
    | Standing(variables: nat, width: real, prior: real, likelihood: real)

  /** What an event says, apart from its identity. */
  datatype Note = Note(candidate: string, state: State, round: int, reason: Reason, data: Data)

  datatype Event = Event(eventId: string, runId: string, note: Note)

  datatype ReplayError =
    | BadSequence | BadRecordType | HashMismatch | RunMismatch | BadEventId | StableIdMismatch
    | BadRevision | NotInitial | BadState | BadRound | RoundBackwards | NoReason | AfterTerminal
    | ActivatedTwice | BadValidate | BadCompletion | BadRank | BadResult | BadStop

  datatype Activated = Activated(id: string, offset: nat, data: Data)

  datatype Completed = Completed(outcome: State, round: int, reason: Reason, data: Data)

  datatype Terminal = Terminal(state: State, candidate: string, round: int, reason: Reason)

  /** The recoverable state the validator rebuilds. */
  datatype Progress = Progress(activated: seq<Activated>, validated: set<string>, evaluated: map<string, Completed>,
                               ranked: set<string>, terminal: Option<Terminal>, lastRound: int,
                               lastState: Option<State>)

  const EMPTY := Progress([], {}, map[], {}, None, 0, None)

  predicate IsActivated(p: Progress, id: string) {
    exists i :: 0 <= i < |p.activated| && p.activated[i].id == id
  }

  predicate ActivationState(s: State) {
    s.Seed? || s.Expand? || s.Minimize?
  }

  function Check(ok: bool, error: ReplayError, rest: Result<Progress, ReplayError>): Result<Progress, ReplayError> {
    if ok then rest else Err(error)
  }

  /** The transition of one event, its identity already checked. */
  function Transition(p: Progress, n: Note, offset: nat): Result<Progress, ReplayError> {
    match n.state
    case Seed | Expand | Minimize =>
      Check(n.candidate != "" && !IsActivated(p, n.candidate), ActivatedTwice,
            Ok(p.(activated := p.activated + [Activated(n.candidate, offset, n.data)])))
    case Validate =>
      Check(IsActivated(p, n.candidate) && n.candidate !in p.evaluated && n.candidate !in p.validated, BadValidate,
            Ok(p.(validated := p.validated + {n.candidate})))
    case Evaluate | Reject =>
      Check(n.candidate in p.validated && n.candidate !in p.evaluated, BadCompletion,
            Ok(p.(evaluated := p.evaluated[n.candidate := Completed(n.state, n.round, n.reason, n.data)])))
    case Rank =>
      Check(n.candidate in p.evaluated && p.evaluated[n.candidate].outcome == Evaluate
        && n.candidate !in p.ranked, BadRank,
            Ok(p.(ranked := p.ranked + {n.candidate})))
    case ResultState =>
      Check(n.candidate != "" && n.candidate in p.evaluated, BadResult,
            Ok(p.(terminal := Some(Terminal(n.state, n.candidate, n.round, n.reason)))))
    case Stop =>
      Check(n.candidate == "", BadStop,
            Ok(p.(terminal := Some(Terminal(n.state, n.candidate, n.round, n.reason)))))
    case Unsupported => Err(BadState)
  }

  function Advance(p: Progress, n: Note, offset: nat): Result<Progress, ReplayError> {
    if n.state.Unsupported? then Err(BadState)
    else if n.round < 0 then Err(BadRound)
    else if n.round < p.lastRound then Err(RoundBackwards)
    else if n.reason.Blank? then Err(NoReason)
    else if p.terminal.Some? then Err(AfterTerminal)
    else
      match Transition(p, n, offset)
      case Ok(q) => Ok(q.(lastRound := n.round, lastState := Some(n.state)))
      case Err(e) => Err(e)
  }

  function Progressed(notes: seq<Note>): Result<Progress, ReplayError> {
    if notes == [] then Ok(EMPTY)
    else
      match Progressed(notes[..|notes| - 1])
      case Ok(p) => Advance(p, notes[|notes| - 1], |notes|)
      case Err(e) => Err(e)
  }

  /** The identity checks of the entry at `offset`, counted from one. */
  function Identity(entry: Entry<Event>, offset: nat, runId: string, hash: Record<Event> -> string,
                    seenEvents: set<string>, seenRevisions: set<string>): Option<ReplayError>
  {
    var event := entry.payload.body;
    if entry.sequence != offset then Some(BadSequence)
    else if entry.recordType != "search_event" then Some(BadRecordType)
    else if entry.payloadHash != hash(entry.payload) then Some(HashMismatch)
    else if entry.payload.revision.None? then Some(BadRevision)
    else if event.runId != runId then Some(RunMismatch)
    else if event.eventId == "" || event.eventId in seenEvents then Some(BadEventId)
    else if entry.stableId != event.eventId then Some(StableIdMismatch)
    else
      var revision := entry.payload.revision.value;
      if revision.id == "" || revision.id in seenRevisions || entry.revisionId != revision.id then Some(BadRevision)
      else if revision.sequence != 1 || revision.supersedes != "" then Some(NotInitial)
      else None
  }

  function EventIds(entries: seq<Entry<Event>>): set<string> {
    set i | 0 <= i < |entries| :: entries[i].payload.body.eventId
  }

  function RevisionIds(entries: seq<Entry<Event>>): set<string> {
    set i | 0 <= i < |entries| :: entries[i].revisionId
  }

  /** The whole validation, entry by entry. */
  function Replay(entries: seq<Entry<Event>>, runId: string, hash: Record<Event> -> string)
    : Result<Progress, ReplayError>
  {
    if entries == [] then Ok(EMPTY)
    else
      var before := entries[..|entries| - 1];
      var last := entries[|entries| - 1];
      match Replay(before, runId, hash)
      case Err(e) => Err(e)
      case Ok(p) =>
        match Identity(last, |entries|, runId, hash, EventIds(before), RevisionIds(before))
        case Some(e) => Err(e)
        case None => Advance(p, last.payload.body.note, |entries|)
  }

  /** Activated candidates that were never completed, in activation order. */
  function Pending(activated: seq<Activated>, evaluated: set<string>): seq<Activated> {
    if activated == [] then []
    else
      var last := activated[|activated| - 1];
      Pending(activated[..|activated| - 1], evaluated) + if last.id in evaluated then [] else [last]
  }

  datatype Recovered = Recovered(eventCount: nat, currentState: Option<State>, terminal: Option<Terminal>,
                                 evaluated: map<string, Completed>, pending: seq<Activated>)

  function Recover(entries: seq<Entry<Event>>, p: Progress): Recovered {
    Recovered(|entries|, p.lastState, p.terminal, p.evaluated, Pending(p.activated, p.evaluated.Keys))
  }

  method CollectPending(p: Progress) returns (pending: seq<Activated>)
    ensures pending == Pending(p.activated, p.evaluated.Keys)
  {
    pending := [];
    for i := 0 to |p.activated|
      invariant pending == Pending(p.activated[..i], p.evaluated.Keys)
    {
      assert p.activated[..i + 1][..i] == p.activated[..i];
      if p.activated[i].id !in p.evaluated { pending := pending + [p.activated[i]]; }
    }
    assert p.activated[..|p.activated|] == p.activated;
  }

  method ReplaySearchLedger(entries: seq<Entry<Event>>, runId: string, hash: Record<Event> -> string)
    returns (result: Result<Recovered, ReplayError>)
    ensures runId == "" ==> result.Err?
    ensures runId != "" ==>
      match Replay(entries, runId, hash)
      case Ok(p) => result == Ok(Recover(entries, p))
      case Err(e) => result == Err(e)
  {
    if runId == "" { return Err(RunMismatch); }
    var seenEvents: set<string>, seenRevisions: set<string> := {}, {};
    var p := EMPTY;
    for i := 0 to |entries|
      invariant Replay(entries[..i], runId, hash) == Ok(p)
      invariant seenEvents == EventIds(entries[..i]) && seenRevisions == RevisionIds(entries[..i])
    {
      var entry := entries[i];
      assert entries[..i + 1][..i] == entries[..i];
      var problem := Identity(entry, i + 1, runId, hash, seenEvents, seenRevisions);
      if problem.Some? {
        ErrorIsFinal(entries, i + 1, runId, hash);
        return Err(problem.value);
      }
      var next := Advance(p, entry.payload.body.note, i + 1);
      if next.Err? {
        ErrorIsFinal(entries, i + 1, runId, hash);
        return Err(next.error);
      }
      p := next.value;
      SeenGrow(entries, i);
      seenEvents := seenEvents + {entry.payload.body.eventId};
      seenRevisions := seenRevisions + {entry.revisionId};
    }
    assert entries[..|entries|] == entries;
    var pending := CollectPending(p);
    result := Ok(Recovered(|entries|, p.lastState, p.terminal, p.evaluated, pending));
  }

  lemma {:induction false} SeenGrow(entries: seq<Entry<Event>>, i: nat)
    requires i < |entries|
    ensures EventIds(entries[..i + 1]) == EventIds(entries[..i]) + {entries[i].payload.body.eventId}
    ensures RevisionIds(entries[..i + 1]) == RevisionIds(entries[..i]) + {entries[i].revisionId}
  {
    var a, b := entries[..i + 1], entries[..i];
    forall x | x in EventIds(b) + {entries[i].payload.body.eventId} ensures x in EventIds(a) {
      if x in EventIds(b) {
        var k :| 0 <= k < i && b[k].payload.body.eventId == x;
        assert a[k].payload.body.eventId == x;
      } else {
        assert a[i].payload.body.eventId == x;
      }
    }
    forall x | x in RevisionIds(b) + {entries[i].revisionId} ensures x in RevisionIds(a) {
      if x in RevisionIds(b) {
        var k :| 0 <= k < i && b[k].revisionId == x;
        assert a[k].revisionId == x;
      } else {
        assert a[i].revisionId == x;
      }
    }
  }

  lemma {:induction false} ErrorIsFinal(entries: seq<Entry<Event>>, k: nat, runId: string,
                                        hash: Record<Event> -> string)
    requires k <= |entries| && Replay(entries[..k], runId, hash).Err?
    ensures Replay(entries, runId, hash) == Err(Replay(entries[..k], runId, hash).error)
    decreases |entries|
  {
    if k == |entries| {
      assert entries[..k] == entries;
    } else {
      var before := entries[..|entries| - 1];
      assert before[..k] == entries[..k];
      ErrorIsFinal(before, k, runId, hash);
    }
  }

  // --- what acceptance guarantees -------------------------------------------------------------

  ghost predicate ActivationsOk(activated: seq<Activated>, length: nat) {
    && (forall i :: 0 <= i < |activated| ==> activated[i].id != "" && activated[i].offset <= length)
    && (forall i, j :: 0 <= i < j < |activated| ==>
      activated[i].id != activated[j].id && activated[i].offset < activated[j].offset)
  }

  ghost predicate EvaluationsOk(p: Progress) {
    && p.evaluated.Keys <= p.validated
    && p.ranked <= p.evaluated.Keys
    && (forall id :: id in p.evaluated ==> p.evaluated[id].outcome == Evaluate || p.evaluated[id].outcome == Reject)
    && (forall id :: id in p.ranked ==> p.evaluated[id].outcome == Evaluate)
    && (forall id :: id in p.evaluated ==> 0 <= p.evaluated[id].round <= p.lastRound)
    && (p.terminal.Some? && p.terminal.value.state == ResultState ==> p.terminal.value.candidate in p.evaluated)
  }

  /** Every accepted ledger describes a coherent search: a candidate is activated once, validated only
      after that, completed once, ranked only after an evaluation, and a result was evaluated. */
  ghost predicate Coherent(p: Progress, length: nat) {
    && ActivationsOk(p.activated, length)
    && (forall id :: id in p.validated ==> IsActivated(p, id))
    && EvaluationsOk(p)
  }

  lemma {:induction false} AdvanceActivations(p: Progress, n: Note, offset: nat)
    requires ActivationsOk(p.activated, offset) && Advance(p, n, offset + 1).Ok?
    ensures ActivationsOk(Advance(p, n, offset + 1).value.activated, offset + 1)
  {
    if n.state.Seed? || n.state.Expand? || n.state.Minimize? {
      forall i | 0 <= i < |p.activated| ensures p.activated[i].id != n.candidate {
        assert p.activated[i].id == n.candidate ==> IsActivated(p, n.candidate);
      }
    }
    hide IsActivated;
  }

  lemma {:induction false} AdvanceEvaluations(p: Progress, n: Note, offset: nat)
    requires EvaluationsOk(p) && Advance(p, n, offset).Ok?
    ensures EvaluationsOk(Advance(p, n, offset).value)
  {
    hide IsActivated;
  }

  lemma {:induction false} AdvanceValidated(p: Progress, n: Note, offset: nat)
    requires forall id :: id in p.validated ==> IsActivated(p, id)
    requires Advance(p, n, offset).Ok?
    ensures forall id :: id in Advance(p, n, offset).value.validated ==> IsActivated(Advance(p, n, offset).value, id)
  {
    var q := Advance(p, n, offset).value;
    forall id | IsActivated(p, id) ensures IsActivated(q, id) {
      var i :| 0 <= i < |p.activated| && p.activated[i].id == id;
      assert q.activated[i].id == id;
    }
    hide IsActivated;
  }

  lemma {:induction false} AcceptedIsCoherent(entries: seq<Entry<Event>>, runId: string, hash: Record<Event> -> string)
    requires Replay(entries, runId, hash).Ok?
    ensures Coherent(Replay(entries, runId, hash).value, |entries|)
  {
    if entries != [] {
      var before := entries[..|entries| - 1];
      AcceptedIsCoherent(before, runId, hash);
      hide Advance, ActivationsOk, EvaluationsOk, IsActivated;
      var p, n := Replay(before, runId, hash).value, entries[|entries| - 1].payload.body.note;
      AdvanceActivations(p, n, |before|);
      AdvanceEvaluations(p, n, |entries|);
      AdvanceValidated(p, n, |entries|);
    }
  }

  lemma {:induction false} PendingExactly(activated: seq<Activated>, evaluated: set<string>, a: Activated)
    ensures a in Pending(activated, evaluated) <==> a in activated && a.id !in evaluated
  {
    if activated != [] {
      PendingExactly(activated[..|activated| - 1], evaluated, a);
      assert activated == activated[..|activated| - 1] + [activated[|activated| - 1]];
    }
  }
}
