/**
 The append-only event log: strict (ACTION, RESULT) alternation, the revision chain,
 and the exported document it is persisted as.
 */
module Trajectories {
  import opened Wrappers
  import opened Docs

  const SCHEMA_VERSION := "1.0.0"
  const PROTOCOL_VERSION := "track-c/1.0.0"

  datatype EventKind = Action | Outcome

  datatype EventStatus = Accepted | Rejected | RolledBack

  /** One event.  ACTION events leave the outcome fields `None` and conversely. */
  datatype Event = Event(
    sequence: nat,
    kind: EventKind,
    action: Option<string>,
    payload: Option<Doc>,
    payloadDigest: Option<string>,
    parent: Option<nat>,
    prior: Option<string>,
    resultRevision: Option<string>,
    digestAfter: Option<string>,
    status: Option<EventStatus>,
    error: Option<Doc>,
    target: Option<int>,
    metadata: Doc)

  datatype Pair = Pair(act: Event, res: Event)

  datatype TrajectoryError =
    | MissingAction | WrongParity | TargetOnlyOnRollback | TargetNotPrior
    | RolledBackOutcome | NoPrecedingAction | AcceptedNeedsRevision | AcceptedNeedsDigest
    | UnsupportedVersion | MissingSession | SequenceMismatch | UnknownKind | PriorMismatch
    | MissingDigest | DigestMismatch | UnknownStatus | ParentMismatch | FieldMismatch

  // --- append -----------------------------------------------------------

  /** The ACTION event `record_action` appends to a log of `events`. */
  function NewAction(digest: Doc -> string, events: seq<Event>, action: string, payload: Doc,
                     prior: Option<string>, target: Option<int>, metadata: Doc): Result<Event, TrajectoryError>
  {
    var sequence := |events| + 1;
    if action == "" then Err(MissingAction)
    else if sequence % 2 != 1 then Err(WrongParity)
    else if target.Some? && action != "rollback" then Err(TargetOnlyOnRollback)
    else if target.Some? && !(1 <= target.value < sequence) then Err(TargetNotPrior)
    else Ok(Event(sequence, Action, Some(action), Some(payload), Some(digest(payload)), None, prior,
                  None, None, None, None, target, metadata))
  }

  /** An empty error mapping is stored as no error at all. */
  function Truthy(error: Option<Doc>): Option<Doc> {
    if error == Some(map[]) then None else error
  }

  /** The RESULT event `record_result` appends to a log of `events`. */
  function NewOutcome(events: seq<Event>, status: EventStatus, resultRevision: Option<string>,
                      digestAfter: Option<string>, error: Option<Doc>, metadata: Doc): Result<Event, TrajectoryError>
  {
    if status == RolledBack then Err(RolledBackOutcome)
    else if events == [] then Err(NoPrecedingAction)
    else
      var sequence := |events| + 1;
      var parent := events[|events| - 1];
      if sequence % 2 != 0 then Err(WrongParity)
      else if parent.kind != Action then Err(NoPrecedingAction)
      else if status == Accepted && resultRevision.None? then Err(AcceptedNeedsRevision)
      else if status == Accepted && digestAfter.None? then Err(AcceptedNeedsDigest)
      else Ok(Event(sequence, Outcome, None, None, None, Some(parent.sequence), parent.prior,
                    resultRevision, digestAfter, Some(status), Truthy(error), None, metadata))
  }

  // --- what a log looks like --------------------------------------------

  /** Every event is one the append operations could have produced at its position. */
  ghost predicate EventOk(digest: Doc -> string, events: seq<Event>, i: nat)
    requires i < |events|
  {
    var e := events[i];
    && e.sequence == i + 1
    && if i % 2 == 0 then
         && e.kind == Action
         && e.action.Some? && e.action != Some("") && e.payload.Some?
         && e.payloadDigest == Some(digest(e.payload.value))
         && e.parent == None && e.resultRevision == None && e.digestAfter == None && e.status == None && e.error == None
         && (e.target.Some? ==> e.action == Some("rollback") && 1 <= e.target.value <= i)
       else
         && e.kind == Outcome
         && e.action == None && e.payload == None && e.payloadDigest == None && e.target == None
         && e.parent == Some(i) && e.prior == events[i - 1].prior
         && e.status.Some? && e.status != Some(RolledBack) && e.error != Some(map[])
         && (e.status == Some(Accepted) ==> e.resultRevision.Some? && e.digestAfter.Some?)
  }

  ghost predicate WellFormed(digest: Doc -> string, events: seq<Event>) {
    forall i :: 0 <= i < |events| ==> EventOk(digest, events, i)
  }

  /** The most recent recorded state digest. */
  function LastRevision(events: seq<Event>): Option<string> {
    if events == [] then None
    else
      var last := events[|events| - 1];
      if last.kind == Outcome && last.digestAfter.Some? then last.digestAfter
      else LastRevision(events[..|events| - 1])
  }

  /** Every ACTION names the revision it was issued against. */
  ghost predicate PriorChain(events: seq<Event>) {
    forall i :: 0 <= i < |events| && events[i].kind == Action ==> events[i].prior == LastRevision(events[..i])
  }

  /** The complete (action, result) pairs, in append order. */
  function PairsOf(events: seq<Event>): seq<Pair> {
    seq(|events| / 2, i requires 0 <= i < |events| / 2 => Pair(events[2 * i], events[2 * i + 1]))
  }

  predicate AcceptedRollback(p: Pair) {
    p.res.status == Some(Accepted) && p.act.action == Some("rollback") && p.act.target.Some?
  }

  /** Sequences whose effect an accepted rollback has taken back. */
  function RolledBackIn(pairs: seq<Pair>): set<int> {
    if pairs == [] then {}
    else
      var last := pairs[|pairs| - 1];
      RolledBackIn(pairs[..|pairs| - 1]) + if AcceptedRollback(last) then {last.act.target.value} else {}
  }

  lemma {:induction false} AppendPair(events: seq<Event>, a: Event, r: Event)
    requires |events| % 2 == 0
    ensures PairsOf(events + [a, r]) == PairsOf(events) + [Pair(a, r)]
    ensures |PairsOf(events)| * 2 == |events|
  {
  }

  lemma {:induction false} PairCount(events: seq<Event>)
    requires |events| % 2 == 0
    ensures 2 * |PairsOf(events)| == |events|
  {
  }

  /** Appending a pair moves the revision exactly when its result carries a digest. */
  lemma {:induction false} RevisionAfterPair(events: seq<Event>, a: Event, r: Event)
    requires a.kind == Action && r.kind == Outcome
    ensures LastRevision(events + [a, r]) == if r.digestAfter.Some? then r.digestAfter else LastRevision(events)
  {
    var all := events + [a, r];
    assert all[..|all| - 1] == events + [a];
    assert (events + [a])[..|events|] == events;
  }

  // --- persistence ------------------------------------------------------

  /** One exported event: the JSON object's fields, `None` where the object holds null. */
  datatype RawEvent = RawEvent(
    sequence: Option<int>,
    kind: string,
    action: Option<string>,
    payload: Option<Doc>,
    payloadDigest: Option<string>,
    parent: Option<int>,
    prior: Option<string>,
    resultRevision: Option<string>,
    digestAfter: Option<string>,
    status: Option<string>,
    error: Option<Doc>,
    target: Option<int>,
    metadata: Option<Doc>)

  datatype TrajectoryDoc = TrajectoryDoc(schemaVersion: string, protocolVersion: string, sessionId: string,
                                         events: seq<RawEvent>)

  function KindName(k: EventKind): string {
    match k case Action => "action" case Outcome => "result"
  }

  function StatusName(s: EventStatus): string {
    match s case Accepted => "accepted" case Rejected => "rejected" case RolledBack => "rolled_back"
  }

  function ParseStatus(s: Option<string>): Option<EventStatus> {
    if s == Some("accepted") then Some(Accepted)
    else if s == Some("rejected") then Some(Rejected)
    else if s == Some("rolled_back") then Some(RolledBack)
    else None
  }

  function ToDict(e: Event): RawEvent {
    RawEvent(Some(e.sequence), KindName(e.kind), e.action, e.payload, e.payloadDigest,
             (match e.parent case None => None case Some(p) => Some(p)), e.prior, e.resultRevision, e.digestAfter,
             (match e.status case None => None case Some(s) => Some(StatusName(s))), e.error, e.target,
               Some(e.metadata))
  }

  function ExportEvents(events: seq<Event>): seq<RawEvent> {
    seq(|events|, i requires 0 <= i < |events| => ToDict(events[i]))
  }

  function OrEmpty(d: Option<Doc>): Doc {
    match d case None => map[] case Some(x) => x
  }

  function ImportAction(digest: Doc -> string, events: seq<Event>, raw: RawEvent): Result<Event, TrajectoryError> {
    if raw.action.None? || raw.action == Some("") then Err(MissingAction)
    else if raw.prior != LastRevision(events) then Err(PriorMismatch)
    else if raw.payloadDigest.None? || raw.payloadDigest == Some("") then Err(MissingDigest)
    else if digest(OrEmpty(raw.payload)) != raw.payloadDigest.value then Err(DigestMismatch)
    else NewAction(digest, events, raw.action.value, OrEmpty(raw.payload), raw.prior, raw.target, OrEmpty(raw.metadata))
  }

  function ImportOutcome(events: seq<Event>, raw: RawEvent): Result<Event, TrajectoryError> {
    match ParseStatus(raw.status)
    case None => Err(UnknownStatus)
    case Some(status) =>
      var expectedParent: Option<int> := if events == [] then None else Some(events[|events| - 1].sequence);
      if raw.parent != expectedParent then Err(ParentMismatch)
      else
        match NewOutcome(events, status, raw.resultRevision, raw.digestAfter, raw.error, OrEmpty(raw.metadata))
        case Err(e) => Err(e)
        case Ok(stored) =>
          if raw.resultRevision != stored.resultRevision || raw.digestAfter != stored.digestAfter
          then Err(FieldMismatch) else Ok(stored)
  }

  /** One turn of the import loop: the event `raw` becomes after a log of `events`. */
  function ImportEvent(digest: Doc -> string, events: seq<Event>, raw: RawEvent): Result<Event, TrajectoryError> {
    if raw.sequence != Some(|events| + 1) then Err(SequenceMismatch)
    else if raw.kind == "action" then ImportAction(digest, events, raw)
    else if raw.kind == "result" then ImportOutcome(events, raw)
    else Err(UnknownKind)
  }

  /** The log an exported event list rebuilds. */
  function ImportEvents(digest: Doc -> string, raws: seq<RawEvent>): Result<seq<Event>, TrajectoryError> {
    if raws == [] then Ok([])
    else
      match ImportEvents(digest, raws[..|raws| - 1])
      case Err(e) => Err(e)
      case Ok(events) =>
        match ImportEvent(digest, events, raws[|raws| - 1])
        case Err(e) => Err(e)
        case Ok(event) => Ok(events + [event])
  }

  function Import(digest: Doc -> string, doc: TrajectoryDoc): Result<seq<Event>, TrajectoryError> {
    if doc.schemaVersion != SCHEMA_VERSION || doc.protocolVersion != PROTOCOL_VERSION then Err(UnsupportedVersion)
    else if doc.sessionId == "" then Err(MissingSession)
    else ImportEvents(digest, doc.events)
  }

  lemma {:induction false} WellFormedAppend(digest: Doc -> string, events: seq<Event>, e: Event)
    requires WellFormed(digest, events) && EventOk(digest, events + [e], |events|)
    ensures WellFormed(digest, events + [e])
  {
    var all := events + [e];
    forall i | 0 <= i < |all| ensures EventOk(digest, all, i) {
      if i < |events| {
        assert EventOk(digest, events, i);
        assert all[i] == events[i] && (i > 0 ==> all[i - 1] == events[i - 1]);
      }
    }
  }

  lemma {:induction false} NewActionOk(digest: Doc -> string, events: seq<Event>, action: string, payload: Doc,
                    prior: Option<string>, target: Option<int>, metadata: Doc)
    requires NewAction(digest, events, action, payload, prior, target, metadata).Ok?
    ensures
      var e := NewAction(digest, events, action, payload, prior, target, metadata).value;
      e.prior == prior && EventOk(digest, events + [e], |events|)
  {
  }

  lemma {:induction false} NewOutcomeOk(digest: Doc -> string, events: seq<Event>, status: EventStatus,
                                        resultRevision: Option<string>,
                     digestAfter: Option<string>, error: Option<Doc>, metadata: Doc)
    requires WellFormed(digest, events)
    requires NewOutcome(events, status, resultRevision, digestAfter, error, metadata).Ok?
    ensures
      var e := NewOutcome(events, status, resultRevision, digestAfter, error, metadata).value;
      e.kind == Outcome && EventOk(digest, events + [e], |events|)
  {
    assert EventOk(digest, events, |events| - 1);
  }

  lemma {:induction false} ImportedActionOk(digest: Doc -> string, events: seq<Event>, raw: RawEvent)
    requires ImportAction(digest, events, raw).Ok?
    ensures
      var e := ImportAction(digest, events, raw).value;
      EventOk(digest, events + [e], |events|) && e.prior == LastRevision(events)
  {
    NewActionOk(digest, events, raw.action.value, OrEmpty(raw.payload), raw.prior, raw.target, OrEmpty(raw.metadata));
  }

  lemma {:induction false} ImportedOutcomeOk(digest: Doc -> string, events: seq<Event>, raw: RawEvent)
    requires WellFormed(digest, events) && ImportOutcome(events, raw).Ok?
    ensures
      var e := ImportOutcome(events, raw).value;
      e.kind == Outcome && EventOk(digest, events + [e], |events|)
  {
    NewOutcomeOk(digest, events, ParseStatus(raw.status).value, raw.resultRevision, raw.digestAfter, raw.error,
                 OrEmpty(raw.metadata));
  }

  lemma {:induction false} ImportedEventOk(digest: Doc -> string, events: seq<Event>, raw: RawEvent)
    requires WellFormed(digest, events) && ImportEvent(digest, events, raw).Ok?
    ensures
      var e := ImportEvent(digest, events, raw).value;
      EventOk(digest, events + [e], |events|) && (e.kind == Action ==> e.prior == LastRevision(events))
  {
    if raw.kind == "action" {
      ImportedActionOk(digest, events, raw);
    } else {
      ImportedOutcomeOk(digest, events, raw);
    }
  }

  /** A log `from_export` accepts alternates strictly, is contiguous, has true parents and
      payload digests, and carries the revision chain: no tampered document slips through. */
  lemma {:induction false} ImportIsWellFormed(digest: Doc -> string, raws: seq<RawEvent>)
    requires ImportEvents(digest, raws).Ok?
    ensures |ImportEvents(digest, raws).value| == |raws|
    ensures WellFormed(digest, ImportEvents(digest, raws).value)
    ensures PriorChain(ImportEvents(digest, raws).value)
  {
    if raws == [] {
    } else {
      ImportIsWellFormed(digest, raws[..|raws| - 1]);
      var events := ImportEvents(digest, raws[..|raws| - 1]).value;
      var e := ImportEvent(digest, events, raws[|raws| - 1]).value;
      ImportedEventOk(digest, events, raws[|raws| - 1]);
      WellFormedAppend(digest, events, e);
      ChainAppend(events, e);
    }
  }

  lemma {:induction false} ChainAppend(events: seq<Event>, e: Event)
    requires PriorChain(events) && (e.kind == Action ==> e.prior == LastRevision(events))
    ensures PriorChain(events + [e])
  {
    var all := events + [e];
    forall i | 0 <= i < |all| && all[i].kind == Action
      ensures all[i].prior == LastRevision(all[..i])
    {
      assert all[..i] == if i < |events| then events[..i] else events;
    }
  }

  lemma {:induction false} ActionRoundTrip(digest: Doc -> string, events: seq<Event>, e: Event)
    requires forall d :: digest(d) != ""
    requires EventOk(digest, events + [e], |events|) && e.kind == Action && e.prior == LastRevision(events)
    ensures ImportEvent(digest, events, ToDict(e)) == Ok(e)
  {
  }

  lemma {:induction false} OutcomeRoundTrip(digest: Doc -> string, events: seq<Event>, e: Event)
    requires WellFormed(digest, events) && EventOk(digest, events + [e], |events|) && e.kind == Outcome
    ensures ImportEvent(digest, events, ToDict(e)) == Ok(e)
  {
    assert EventOk(digest, events, |events| - 1);
    assert ParseStatus(Some(StatusName(e.status.value))) == e.status;
  }

  /** A well-formed, chained log survives export and import unchanged. */
  lemma {:induction false} ExportRoundTrip(digest: Doc -> string, events: seq<Event>)
    requires forall d :: digest(d) != ""
    requires WellFormed(digest, events) && PriorChain(events)
    ensures ImportEvents(digest, ExportEvents(events)) == Ok(events)
  {
    if events == [] {
    } else {
      var n := |events| - 1;
      var front, e := events[..n], events[n];
      assert events == front + [e];
      assert ExportEvents(events)[..n] == ExportEvents(front);
      FrontIsWellFormed(digest, front, e);
      ExportRoundTrip(digest, front);
      assert EventOk(digest, events, n);
      if e.kind == Action { ActionRoundTrip(digest, front, e); } else { OutcomeRoundTrip(digest, front, e); }
    }
  }

  lemma {:induction false} FrontIsWellFormed(digest: Doc -> string, front: seq<Event>, e: Event)
    requires WellFormed(digest, front + [e]) && PriorChain(front + [e])
    ensures WellFormed(digest, front) && PriorChain(front)
    ensures e.kind == Action ==> e.prior == LastRevision(front)
  {
    var all := front + [e];
    assert all[..|front|] == front;
    forall i | 0 <= i < |front| ensures EventOk(digest, front, i) {
      assert EventOk(digest, all, i);
      assert all[i] == front[i] && (i > 0 ==> all[i - 1] == front[i - 1]);
    }
    forall i | 0 <= i < |front| && front[i].kind == Action ensures front[i].prior == LastRevision(front[..i]) {
      assert front[..i] == all[..i] && all[i] == front[i];
    }
  }

  /** The logs that survive export and import are exactly the well-formed chained ones. */
  lemma {:induction false} RoundTripExactly(digest: Doc -> string, events: seq<Event>)
    requires forall d :: digest(d) != ""
    ensures ImportEvents(digest, ExportEvents(events)) == Ok(events)
      <==> WellFormed(digest, events) && PriorChain(events)
  {
    if WellFormed(digest, events) && PriorChain(events) {
      ExportRoundTrip(digest, events);
    }
    if ImportEvents(digest, ExportEvents(events)) == Ok(events) {
      ImportIsWellFormed(digest, ExportEvents(events));
    }
  }

  // --- the log object ---------------------------------------------------

  class Trajectory {
    const sessionId: string
    const digest: Doc -> string
    var events: seq<Event>

    ghost predicate Valid()
      reads this
    {
      WellFormed(digest, events)
    }

    constructor (sessionId: string, digest: Doc -> string)
      requires sessionId != ""
      ensures Valid() && events == []
      ensures this.sessionId == sessionId && this.digest == digest
    {
      this.sessionId := sessionId;
      this.digest := digest;
      this.events := [];
    }

    method RecordAction(action: string, payload: Doc, prior: Option<string>, target: Option<int>, metadata: Doc)
      returns (r: Result<Event, TrajectoryError>)
      requires Valid()
      modifies this
      ensures Valid()
      ensures r == NewAction(digest, old(events), action, payload, prior, target, metadata)
      ensures events == if r.Ok? then old(events) + [r.value] else old(events)
    {
      if action == "" { return Err(MissingAction); }
      var sequence := |events| + 1;
      if sequence % 2 != 1 { return Err(WrongParity); }
      if target.Some? {
        if action != "rollback" { return Err(TargetOnlyOnRollback); }
        if target.value < 1 || target.value >= sequence { return Err(TargetNotPrior); }
      }
      var event := Event(sequence, Action, Some(action), Some(payload), Some(digest(payload)), None, prior,
                         None, None, None, None, target, metadata);
      WellFormedAppend(digest, events, event);
      events := events + [event];
      return Ok(event);
    }

    method RecordResult(status: EventStatus, resultRevision: Option<string>, digestAfter: Option<string>,
                        error: Option<Doc>, metadata: Doc)
      returns (r: Result<Event, TrajectoryError>)
      requires Valid()
      modifies this
      ensures Valid()
      ensures r == NewOutcome(old(events), status, resultRevision, digestAfter, error, metadata)
      ensures events == if r.Ok? then old(events) + [r.value] else old(events)
    {
      if status == RolledBack { return Err(RolledBackOutcome); }
      if |events| == 0 { return Err(NoPrecedingAction); }
      var sequence := |events| + 1;
      if sequence % 2 != 0 { return Err(WrongParity); }
      var parent := events[|events| - 1];
      if parent.kind != Action { return Err(NoPrecedingAction); }
      if status == Accepted {
        if resultRevision.None? { return Err(AcceptedNeedsRevision); }
        if digestAfter.None? { return Err(AcceptedNeedsDigest); }
      }
      var event := Event(sequence, Outcome, None, None, None, Some(parent.sequence), parent.prior,
                         resultRevision, digestAfter, Some(status), Truthy(error), None, metadata);
      assert EventOk(digest, events, |events| - 1);
      WellFormedAppend(digest, events, event);
      events := events + [event];
      return Ok(event);
    }

    /** Scan backwards for the latest result that carries a digest. */
    method FindLastRevision() returns (r: Option<string>)
      ensures r == LastRevision(events)
    {
      var i := |events|;
      assert events[..i] == events;
      while i > 0
        invariant 0 <= i <= |events|
        invariant LastRevision(events) == LastRevision(events[..i])
      {
        i := i - 1;
        assert events[..i + 1][..i] == events[..i];
        if events[i].kind == Outcome && events[i].digestAfter.Some? {
          return events[i].digestAfter;
        }
      }
      return None;
    }

    method CollectPairs() returns (pairs: seq<Pair>)
      requires Valid()
      ensures pairs == PairsOf(events)
    {
      pairs := [];
      var index := 0;
      while index < |events| - 1
        invariant index % 2 == 0 && 0 <= index <= |events|
        invariant |pairs| == index / 2
        invariant forall i :: 0 <= i < |pairs| ==> pairs[i] == Pair(events[2 * i], events[2 * i + 1])
      {
        assert EventOk(digest, events, index) && EventOk(digest, events, index + 1);
        pairs := pairs + [Pair(events[index], events[index + 1])];
        index := index + 2;
      }
    }

    method RolledBackSequences() returns (rolled: set<int>)
      requires Valid()
      ensures rolled == RolledBackIn(PairsOf(events))
    {
      var pairs := CollectPairs();
      rolled := {};
      for i := 0 to |pairs|
        invariant rolled == RolledBackIn(pairs[..i])
      {
        assert pairs[..i + 1][..i] == pairs[..i];
        if AcceptedRollback(pairs[i]) {
          rolled := rolled + {pairs[i].act.target.value};
        }
      }
      assert pairs[..|pairs|] == pairs;
    }

    method Export() returns (doc: TrajectoryDoc)
      ensures doc == TrajectoryDoc(SCHEMA_VERSION, PROTOCOL_VERSION, sessionId, ExportEvents(events))
    {
      var raws: seq<RawEvent> := [];
      for i := 0 to |events|
        invariant |raws| == i
        invariant forall j :: 0 <= j < i ==> raws[j] == ToDict(events[j])
      {
        raws := raws + [ToDict(events[i])];
      }
      return TrajectoryDoc(SCHEMA_VERSION, PROTOCOL_VERSION, sessionId, raws);
    }
  }

  /** Rebuild a log by re-recording every exported event through the checked append operations. */
  method FromExport(digest: Doc -> string, doc: TrajectoryDoc) returns (r: Result<Trajectory, TrajectoryError>)
    ensures r.Ok? <==> Import(digest, doc).Ok?
    ensures r.Ok? ==> fresh(r.value) && r.value.Valid() && r.value.events == Import(digest, doc).value
    ensures r.Ok? ==> r.value.sessionId == doc.sessionId && r.value.digest == digest
    ensures r.Err? ==> r.error == Import(digest, doc).error
  {
    if doc.schemaVersion != SCHEMA_VERSION || doc.protocolVersion != PROTOCOL_VERSION {
      return Err(UnsupportedVersion);
    }
    if doc.sessionId == "" { return Err(MissingSession); }
    var trajectory := new Trajectory(doc.sessionId, digest);
    var raws := doc.events;
    for i := 0 to |raws|
      invariant fresh(trajectory) && trajectory.Valid()
      invariant ImportEvents(digest, raws[..i]) == Ok(trajectory.events)
    {
      ImportStep(digest, raws, i);
      var raw, events := raws[i], trajectory.events;
      if raw.sequence != Some(|events| + 1) { return Err(SequenceMismatch); }
      if raw.kind == "action" {
        if raw.action.None? || raw.action == Some("") { return Err(MissingAction); }
        var expectedPrior := trajectory.FindLastRevision();
        if raw.prior != expectedPrior { return Err(PriorMismatch); }
        if raw.payloadDigest.None? || raw.payloadDigest == Some("") { return Err(MissingDigest); }
        if digest(OrEmpty(raw.payload)) != raw.payloadDigest.value { return Err(DigestMismatch); }
        var recorded := trajectory.RecordAction(raw.action.value, OrEmpty(raw.payload), raw.prior, raw.target,
                                                OrEmpty(raw.metadata));
        if recorded.Err? { return Err(recorded.error); }
      } else if raw.kind == "result" {
        var status := ParseStatus(raw.status);
        if status.None? { return Err(UnknownStatus); }
        var expectedParent: Option<int> := if events == [] then None else Some(events[|events| - 1].sequence);
        if raw.parent != expectedParent { return Err(ParentMismatch); }
        var recorded := trajectory.RecordResult(status.value, raw.resultRevision, raw.digestAfter, raw.error,
                                                OrEmpty(raw.metadata));
        if recorded.Err? { return Err(recorded.error); }
        var stored := recorded.value;
        if raw.resultRevision != stored.resultRevision || raw.digestAfter != stored.digestAfter {
          return Err(FieldMismatch);
        }
      } else {
        return Err(UnknownKind);
      }
    }
    assert raws[..|raws|] == raws;
    return Ok(trajectory);
  }

  /** How one more raw event extends, or once and for all refuses, an import. */
  lemma {:induction false} ImportStep(digest: Doc -> string, raws: seq<RawEvent>, i: nat)
    requires i < |raws| && ImportEvents(digest, raws[..i]).Ok?
    ensures
      var events := ImportEvents(digest, raws[..i]).value;
      match ImportEvent(digest, events, raws[i])
      case Ok(e) => ImportEvents(digest, raws[..i + 1]) == Ok(events + [e])
      case Err(e) => ImportEvents(digest, raws) == Err(e)
  {
    assert raws[..i + 1][..i] == raws[..i];
    var events := ImportEvents(digest, raws[..i]).value;
    if ImportEvent(digest, events, raws[i]).Err? {
      ImportErrorStays(digest, raws, i + 1);
    }
  }

  lemma {:induction false} ImportErrorStays(digest: Doc -> string, raws: seq<RawEvent>, i: nat)
    requires i <= |raws| && ImportEvents(digest, raws[..i]).Err?
    ensures ImportEvents(digest, raws) == ImportEvents(digest, raws[..i])
  {
    if i == |raws| {
      assert raws[..i] == raws;
    } else {
      var front := raws[..|raws| - 1];
      assert front[..i] == raws[..i];
      ImportErrorStays(digest, front, i);
    }
  }
}
