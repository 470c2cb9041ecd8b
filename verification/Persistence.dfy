/** The exported session document, how a runtime is rebuilt from one, and when that is a session the
    runtime could have had. */
module Persistence {
  import opened Wrappers
  import opened Docs
  import opened Trajectories
  import opened Runtime
  import opened RuntimeInvariants
  import opened AgentRuntimes
  import opened Reproductions
  import opened Replays

  datatype SessionDoc = SessionDoc(
    schemaVersion: string,
    protocolVersion: string,
    sessionId: string,
    question: string,
    status: string,
    state: Doc,
    budgets: Budgets,
    counters: Counters,
    frontier: Option<Evaluation>,
    trajectory: TrajectoryDoc)

  datatype RehydrateError = BadVersion | BadTrajectory(error: TrajectoryError) | StateMismatch | BadStatus | NoSessionId

  function ParseSessionStatus(s: string): Option<Status> {
    if s == "active" then Some(Active)
    else if s == "certified" then Some(Certified)
    else if s == "insufficient" then Some(Insufficient)
    else if s == "partial" then Some(Partial)
    else if s == "invalid" then Some(Invalid)
    else None
  }

  lemma {:induction false} StatusRoundTrip(s: Status)
    ensures ParseSessionStatus(StatusText(s)) == Some(s)
  {
  }

  function ExportSession(env: Env, s: Session): SessionDoc {
    SessionDoc(SCHEMA_VERSION, PROTOCOL_VERSION, env.sessionId, env.question, StatusText(s.status), s.state,
               env.budgets, s.counters, s.frontier,
               TrajectoryDoc(SCHEMA_VERSION, PROTOCOL_VERSION, env.sessionId, ExportEvents(s.events)))
  }

  function EnvOf(kernel: Kernel, digest: Doc -> string, doc: SessionDoc): Env {
    Env(doc.sessionId, doc.question, kernel, doc.budgets, digest)
  }

  /** The session a document stands for, if it is accepted. */
  function Rehydrated(digest: Doc -> string, doc: SessionDoc): Result<Session, RehydrateError> {
    if doc.schemaVersion != SCHEMA_VERSION || doc.protocolVersion != PROTOCOL_VERSION then Err(BadVersion)
    else
      match Import(digest, doc.trajectory)
      case Err(e) => Err(BadTrajectory(e))
      case Ok(events) =>
        var expected := LastRevision(events);
        if expected.Some? && digest(doc.state) != expected.value then Err(StateMismatch)
        else
          match ParseSessionStatus(doc.status)
          case None => Err(BadStatus)
          case Some(status) =>
            if doc.sessionId == "" then Err(NoSessionId)
            else Ok(Session(events, doc.state, doc.counters, status, doc.frontier))
  }

  /** Export then rehydrate gives back the very session: log, state, counters, status, evaluation. */
  lemma {:induction false} SessionRoundTrip(env: Env, s: Session)
    requires SessionOk(env, s) && env.sessionId != "" && forall d :: env.digest(d) != ""
    ensures Rehydrated(env.digest, ExportSession(env, s)) == Ok(s)
    ensures EnvOf(env.kernel, env.digest, ExportSession(env, s)) == env
  {
    ExportRoundTrip(env.digest, s.events);
    StatusRoundTrip(s.status);
  }

  /** Whatever rehydration accepts has a well-formed, chained log whose last revision its state bears. */
  lemma {:induction false} RehydratedIsConsistent(digest: Doc -> string, doc: SessionDoc)
    requires Rehydrated(digest, doc).Ok?
    ensures
      var s := Rehydrated(digest, doc).value;
      && WellFormed(digest, s.events) && PriorChain(s.events) && |s.events| == |doc.trajectory.events|
      && (LastRevision(s.events).Some? ==> LastRevision(s.events) == Some(digest(s.state)))
  {
    ImportIsWellFormed(digest, doc.trajectory.events);
  }

  // --- what rehydration does not look at ---------------------------------------------------------

  /** An exported session with everything changed that rehydration takes at its word. */
  function Altered(doc: SessionDoc, sessionId: string, question: string, budgets: Budgets, counters: Counters,
                   status: Status, frontier: Option<Evaluation>): SessionDoc
  {
    doc.(sessionId := sessionId, question := question, budgets := budgets, counters := counters,
         status := StatusText(status), frontier := frontier)
  }

  /** Every such alteration is accepted. */
  lemma {:induction false} AlterationsAccepted(env: Env, s: Session, sessionId: string, question: string,
                                               budgets: Budgets,
                                               counters: Counters, status: Status, frontier: Option<Evaluation>)
    requires SessionOk(env, s) && env.sessionId != "" && sessionId != "" && forall d :: env.digest(d) != ""
    ensures
      Rehydrated(env.digest, Altered(ExportSession(env, s), sessionId, question, budgets, counters, status, frontier))
        == Ok(s.(counters := counters, status := status, frontier := frontier))
  {
    ExportRoundTrip(env.digest, s.events);
    StatusRoundTrip(status);
    hide LogOk;
  }

  // --- when the rehydrated session meets the invariant --------------------------------------------------

  /** The pair records the digest of the log's projection up to it; a rollback names a live action. */
  predicate PairProjects(env: Env, before: seq<Pair>, p: Pair) {
    p.res.status == Some(Accepted) ==>
      var state := Projection(env, AcceptedItems(before + [p]));
      && state.Ok? && p.res.digestAfter == Some(env.digest(state.value))
      && (p.act.action == Some("rollback") ==>
            p.act.target.Some? && Rollbackable(before, RolledBackIn(before), p.act.target.value))
  }

  /** One pass over the pairs: each agrees with the kernel run so far. */
  predicate Projects(env: Env, pairs: seq<Pair>) {
    pairs == [] || (Projects(env, pairs[..|pairs| - 1]) && PairProjects(env, pairs[..|pairs| - 1], pairs[|pairs| - 1]))
  }

  /** The log over the kernel and the question: it starts, every pair agrees, and the state is where it ends. */
  predicate LogProjects(env: Env, events: seq<Event>, state: Doc) {
    && env.kernel.initialState(env.question).Ok?
    && Projects(env, PairsOf(events)) && Projection(env, LogItems(events)) == Ok(state)
  }

  /** The counters are those of the log, and an active session has room in every cap but that of actions. */
  predicate Accounts(budgets: Budgets, counters: Counters, status: Status, pairs: seq<Pair>) {
    && counters.actions == |pairs| && counters.compute == TotalCost(pairs)
    && (status == Active ==>
          && !Spent(counters.evaluations, budgets.maxEvaluations)
          && !Spent(counters.compute, budgets.maxCompute)
          && !Spent(counters.depth, budgets.maxDepth))
  }

  /** What a caller can check of a document, with the kernel at hand, before resuming from it. */
  predicate Resumable(kernel: Kernel, digest: Doc -> string, doc: SessionDoc) {
    match Rehydrated(digest, doc)
    case Err(_) => false
    case Ok(s) =>
      && doc.sessionId == doc.trajectory.sessionId
      && |s.events| % 2 == 0 && LastRevision(s.events).Some?
      && LogProjects(EnvOf(kernel, digest, doc), s.events, s.state)
      && Accounts(doc.budgets, s.counters, s.status, PairsOf(s.events))
  }

  lemma {:induction false} ProjectsExactly(env: Env, pairs: seq<Pair>)
    ensures Projects(env, pairs) <==> forall i :: 0 <= i < |pairs| ==> FaithfulAt(env, pairs, i) && TargetAt(pairs, i)
  {
    hide Projection, AcceptedItems, RolledBackIn, Rollbackable;
    if pairs != [] {
      var n := |pairs| - 1;
      var front := pairs[..n];
      ProjectsExactly(env, front);
      forall i | 0 <= i < n
        ensures FaithfulAt(env, front, i) && TargetAt(front, i) <==> FaithfulAt(env, pairs, i) && TargetAt(pairs, i)
      {
        assert front[..i + 1] == pairs[..i + 1] && front[..i] == pairs[..i] && front[i] == pairs[i];
      }
      assert front + [pairs[n]] == pairs[..n + 1];
      assert PairProjects(env, front, pairs[n]) <==> FaithfulAt(env, pairs, n) && TargetAt(pairs, n);
      hide FaithfulAt, TargetAt, PairProjects;
    }
  }

  lemma {:induction false} SequencesCount(digest: Doc -> string, events: seq<Event>)
    requires WellFormed(digest, events)
    ensures forall i :: 0 <= i < |PairsOf(events)| ==> PairsOf(events)[i].act.sequence == 2 * i + 1
  {
    forall i | 0 <= i < |PairsOf(events)| ensures PairsOf(events)[i].act.sequence == 2 * i + 1 {
      assert EventOk(digest, events, 2 * i);
    }
  }

  lemma {:induction false} LogProjectsExactly(env: Env, events: seq<Event>, state: Doc)
    requires EventsOk(env, events)
    ensures LogProjects(env, events, state) <==> LogOk(env, events, state)
  {
    ProjectsExactly(env, PairsOf(events));
    SequencesCount(env.digest, events);
    hide Projection, WellFormed, PriorChain, FaithfulAt, TargetAt, Projects, PairsOf;
  }

  /** The session an accepted document stands for meets the runtime's invariant, so that all the runtime
      does with it from then on is as specified, if and only if the document passes these checks. */
  lemma {:induction false} ResumableExactly(kernel: Kernel, digest: Doc -> string, doc: SessionDoc)
    requires Rehydrated(digest, doc).Ok?
    ensures Resumable(kernel, digest, doc)
       <==> && SessionOk(EnvOf(kernel, digest, doc), Rehydrated(digest, doc).value)
            && doc.sessionId == doc.trajectory.sessionId
  {
    var env, s := EnvOf(kernel, digest, doc), Rehydrated(digest, doc).value;
    RehydratedIsConsistent(digest, doc);
    hide Rehydrated;
    if |s.events| % 2 == 0 { LogProjectsExactly(env, s.events, s.state); }
    hide LogOk, LogProjects, LastRevision, WellFormed, PriorChain, Spent, TotalCost;
  }

  /** Whatever a resumed session is asked to do, the invariant holds and replay reconstructs its state. */
  lemma {:induction false} ResumedRunsOn(kernel: Kernel, digest: Doc -> string, doc: SessionDoc, requests: seq<Request>)
    requires Resumable(kernel, digest, doc)
    ensures
      var env, s := EnvOf(kernel, digest, doc), Rehydrated(digest, doc).value;
      var u := Run(env, s, requests);
      SessionOk(env, u) && (WalkLog(env, u.events).aborted || WalkLog(env, u.events).state == u.state)
  {
    var env, s := EnvOf(kernel, digest, doc), Rehydrated(digest, doc).value;
    ResumableExactly(kernel, digest, doc);
    RunKeeps(env, s, requests);
    ReplayReconstructsState(env, Run(env, s, requests));
    hide Resumable, Rehydrated, SessionOk, WalkLog;
  }

  // --- altered documents --------------------------------------------------------------------------------

  /** Sessions that start from one state project alike, whatever they are called and whatever their caps. */
  lemma {:induction false} FoldSameStart(env: Env, env': Env, items: seq<Item>, rolled: set<int>)
    requires env'.kernel == env.kernel
    requires env'.kernel.initialState(env'.question) == env.kernel.initialState(env.question)
    ensures Fold(env', items, rolled) == Fold(env, items, rolled)
  {
    if items != [] { FoldSameStart(env, env', items[..|items| - 1], rolled); }
  }

  lemma {:induction false} ProjectsSameStart(env: Env, env': Env, pairs: seq<Pair>)
    requires env'.kernel == env.kernel && env'.digest == env.digest
    requires env'.kernel.initialState(env'.question) == env.kernel.initialState(env.question)
    ensures Projects(env', pairs) == Projects(env, pairs)
  {
    if pairs != [] {
      var n := |pairs| - 1;
      var items := AcceptedItems(pairs[..n] + [pairs[n]]);
      ProjectsSameStart(env, env', pairs[..n]);
      FoldSameStart(env, env', items, Targets(items));
      hide AcceptedItems, RolledBackIn, Rollbackable, Fold, Targets;
    }
  }

  /** Of the altered documents, all of them accepted, those give a session that meets the invariant whose
      counters are still the log's, whose active status still has room in its caps, and whose question the
      log still projects over; the last is so whenever the kernel starts both questions alike. */
  lemma {:induction false} AlteredExactly(env: Env, s: Session, sessionId: string, question: string, budgets: Budgets,
                                          counters: Counters, status: Status, frontier: Option<Evaluation>)
    requires SessionOk(env, s)
    ensures
      var env' := Env(sessionId, question, env.kernel, budgets, env.digest);
      && (SessionOk(env', s.(counters := counters, status := status, frontier := frontier))
          <==> LogProjects(env', s.events, s.state) && Accounts(budgets, counters, status, PairsOf(s.events)))
      && (env.kernel.initialState(question) == env.kernel.initialState(env.question) ==>
            LogProjects(env', s.events, s.state))
  {
    var env' := Env(sessionId, question, env.kernel, budgets, env.digest);
    LogProjectsExactly(env', s.events, s.state);
    LogProjectsExactly(env, s.events, s.state);
    if env.kernel.initialState(question) == env.kernel.initialState(env.question) {
      ProjectsSameStart(env, env', PairsOf(s.events));
      FoldSameStart(env, env', LogItems(s.events), Targets(LogItems(s.events)));
    }
    hide LogOk, LastRevision, WellFormed, PriorChain, Spent, TotalCost, LogItems, Targets, Fold;
  }

  /** Every session keeps the pair it started with. */
  lemma {:induction false} StartIsKept(env: Env, s: Session) returns (metadata: Doc)
    requires Reachable(env, s)
    ensures env.kernel.initialState(env.question).Ok? && |s.events| >= 2
    ensures s.events[..2] == Started(env, env.kernel.initialState(env.question).value, metadata).events
  {
    hide Started, Run;
    var m, requests :| ReachableBy(env, s, m, requests);
    metadata := m;
    var start := Started(env, env.kernel.initialState(env.question).value, m);
    assert |start.events| == 2 by { StartHasTwo(env, env.kernel.initialState(env.question).value, m); }
    RunExtends(env, start, requests);
  }

  lemma {:induction false} StartHasTwo(env: Env, initial: Doc, metadata: Doc)
    ensures
      var s := Started(env, initial, metadata);
      && |s.events| == 2
      && s.events[0].payload == Some(StartPayload(env, metadata)) && IsControl(Name(s.events[0].action))
      && s.events[1].status == Some(Accepted) && s.events[1].digestAfter == Some(env.digest(initial))
  {
  }

  lemma {:induction false} RunExtends(env: Env, s: Session, requests: seq<Request>)
    requires |s.events| >= 2
    ensures |Run(env, s, requests).events| >= 2 && Run(env, s, requests).events[..2] == s.events[..2]
  {
    hide Step, Next;
    if requests != [] {
      var t := Run(env, s, requests[..|requests| - 1]);
      RunExtends(env, s, requests[..|requests| - 1]);
      StepReadsBack(env, t, requests[|requests| - 1]);
      var u := Run(env, s, requests);
      assert u.events[..|t.events|] == t.events;
      assert u.events[..2] == t.events[..2];
    }
  }

  /** A log that starts with a recorded start and projects over a question records that question's start. */
  lemma {:induction false} ProjectionStarts(env: Env, events: seq<Event>, state: Doc, start: string)
    requires |events| >= 2 && IsControl(Name(events[0].action)) && events[1].status == Some(Accepted)
    requires events[1].digestAfter == Some(start) && LogProjects(env, events, state)
    ensures env.kernel.initialState(env.question).Ok?
    ensures env.digest(env.kernel.initialState(env.question).value) == start
  {
    var pairs := PairsOf(events);
    assert pairs[0] == Pair(events[0], events[1]);
    ProjectsExactly(env, pairs);
    assert FaithfulAt(env, pairs, 0);
    FirstProjection(env, pairs);
    hide Projects, Projection, AcceptedItems, LogItems, PairsOf, TargetAt, IsControl;
  }

  /** Where digests tell states apart, the log of a live session projects over another question exactly
      when the kernel starts that question in the same state. */
  lemma {:induction false} QuestionExactly(env: Env, s: Session, question: string)
    requires Reachable(env, s) && forall d, d' :: env.digest(d) == env.digest(d') ==> d == d'
    ensures LogProjects(env.(question := question), s.events, s.state)
       <==> env.kernel.initialState(question) == env.kernel.initialState(env.question)
  {
    hide Reachable, SessionOk, LogProjects, Accounts, Started, IsControl, PairsOf;
    var initial := env.kernel.initialState(env.question);
    StateIsProjection(env, s);
    AlteredExactly(env, s, env.sessionId, question, env.budgets, s.counters, s.status, s.frontier);
    var metadata := StartIsKept(env, s);
    StartHasTwo(env, initial.value, metadata);
    assert s.events[0] == s.events[..2][0] && s.events[1] == s.events[..2][1];
    if LogProjects(env.(question := question), s.events, s.state) {
      ProjectionStarts(env.(question := question), s.events, s.state, env.digest(initial.value));
    }
  }

  lemma {:induction false} FirstProjection(env: Env, pairs: seq<Pair>)
    requires pairs != [] && IsControl(Name(pairs[0].act.action))
    ensures Projection(env, AcceptedItems(pairs[..1])) == env.kernel.initialState(env.question)
  {
    var p := pairs[0];
    assert pairs[..1] == [] + [p];
    AppendItems([], p);
    var items := AcceptedItems(pairs[..1]);
    if items != [] {
      assert items == [ItemOf(p)] && items[..0] == [];
      assert ApplyItem(env.kernel, Fold(env, [], Targets(items)), ItemOf(p), Targets(items))
        == Fold(env, [], Targets(items));
    }
  }

  // --- sessions the runtime could have produced ---------------------------------------------------------

  /** The session an accepted document stands for is one that requests can bring about if and only if
      re-running its log, pair by pair, gives it back. */
  lemma {:induction false} ProducedExactly(kernel: Kernel, digest: Doc -> string, doc: SessionDoc)
    requires Rehydrated(digest, doc).Ok?
    ensures
      var env, s := EnvOf(kernel, digest, doc), Rehydrated(digest, doc).value;
      && (Reachable(env, s) <==> Reproduced(env, s.events) == Some(s))
      && (Reachable(env, s) && doc.sessionId == doc.trajectory.sessionId ==> Resumable(kernel, digest, doc))
  {
    var env, s := EnvOf(kernel, digest, doc), Rehydrated(digest, doc).value;
    ReachableExactly(env, s);
    ResumableExactly(kernel, digest, doc);
    if Reachable(env, s) { StateIsProjection(env, s); }
    hide Reachable, Reproduced, Resumable, Rehydrated, SessionOk;
  }

  /** Nothing the runtime does depends on the session's identifier. */
  lemma {:induction false} StepIgnoresId(env: Env, sessionId: string, s: Session, r: Request)
    ensures Step(env.(sessionId := sessionId), s, r) == Step(env, s, r)
  {
    match r
    case Finalize => FinalizeIgnoresId(env, sessionId, s);
    case Apply(action, payload, prior, given, cost) =>
      if action != "" { ApplyIgnoresId(env, sessionId, s, action, payload, prior, given, cost); }
      hide Gate, Projection, Reject, Accept;
  }

  lemma {:induction false} FinalizeIgnoresId(env: Env, sessionId: string, s: Session)
    ensures FinalizeStep(env.(sessionId := sessionId), s) == FinalizeStep(env, s)
  {
    hide LastRevision, Demote, VerdictStatus;
  }

  lemma {:induction false} ApplyIgnoresId(env: Env, sessionId: string, s: Session, action: string, payload: Doc,
                                          prior: Option<string>, given: Option<int>, cost: Option<int>)
    requires action != ""
    ensures ApplyStep(env.(sessionId := sessionId), s, action, payload, prior, given, cost).0
         == ApplyStep(env, s, action, payload, prior, given, cost).0
  {
    var env' := env.(sessionId := sessionId);
    var target := ResolveTarget(action, payload, given);
    var items := LogItems(s.events) + [ItemAfter(s, action, payload, target)];
    FoldSameStart(env, env', items, Targets(items));
    ApplyPastGate(env, s, action, payload, prior, given, cost);
    ApplyPastGate(env', s, action, payload, prior, given, cost);
    PairIgnoresId(env, sessionId, s, action, payload, prior, target, cost);
    hide ApplyStep, Gate, Fold, Targets, LogItems, Reject, Accept, ResolveTarget, Cost;
  }

  lemma {:induction false} PairIgnoresId(env: Env, sessionId: string, s: Session, action: string, payload: Doc,
                                         prior: Option<string>, target: Option<int>, cost: Option<int>)
    ensures
      var env' := env.(sessionId := sessionId);
      && Gate(env', s, action, prior, target, cost) == Gate(env, s, action, prior, target, cost)
      && (forall issues :: Reject(env', s, action, payload, issues) == Reject(env, s, action, payload, issues))
      && (forall c, state ::
         Accept(env', s, action, payload, target, c, state) == Accept(env, s, action, payload, target, c, state))
  {
    hide LastRevision, PairsOf, RolledBackIn, Rollbackable;
  }

  lemma {:induction false} RunIgnoresId(env: Env, sessionId: string, s: Session, requests: seq<Request>)
    ensures Run(env.(sessionId := sessionId), s, requests) == Run(env, s, requests)
  {
    hide Step;
    if requests != [] {
      var n := |requests| - 1;
      RunIgnoresId(env, sessionId, s, requests[..n]);
      StepIgnoresId(env, sessionId, Run(env, s, requests[..n]), requests[n]);
    }
  }

  lemma {:induction false} ReachableIgnoresId(env: Env, sessionId: string, s: Session)
    requires Reachable(env, s)
    ensures Reachable(env.(sessionId := sessionId), s)
  {
    var metadata, requests :| ReachableBy(env, s, metadata, requests);
    var start := Started(env, env.kernel.initialState(env.question).value, metadata);
    assert Started(env.(sessionId := sessionId), env.kernel.initialState(env.question).value, metadata) == start;
    RunIgnoresId(env, sessionId, start, requests);
    hide Run, Started;
    assert ReachableBy(env.(sessionId := sessionId), s, metadata, requests);
  }

  /** Under the caps it was exported with, an altered session is one the runtime could have produced
      exactly when nothing but its identifier was altered: the log leaves no choice of counters, status,
      evaluation or question. */
  lemma {:induction false} AlteredIsProducedExactly(env: Env, s: Session, sessionId: string, question: string,
                                                    counters: Counters, status: Status, frontier: Option<Evaluation>)
    requires Reachable(env, s)
    ensures
      Reachable(env.(sessionId := sessionId, question := question),
        s.(counters := counters, status := status, frontier := frontier))
      <==> question == env.question && counters == s.counters && status == s.status && frontier == s.frontier
  {
    var other := s.(counters := counters, status := status, frontier := frontier);
    var env' := env.(sessionId := sessionId, question := question);
    ReachableIgnoresId(env, sessionId, s);
    if Reachable(env', other) {
      var metadata := StartIsKept(env, s);
      var metadata' := StartIsKept(env', other);
      StartHasTwo(env, env.kernel.initialState(env.question).value, metadata);
      StartHasTwo(env', env'.kernel.initialState(env'.question).value, metadata');
      hide Started, Reachable;
      assert StartPayload(env, metadata)["question"] == StartPayload(env', metadata')["question"];
      assert env' == env.(sessionId := sessionId);
      LogDeterminesSession(env', s, other);
    }
  }

  /** A kernel that remembers the question and nothing else. */
  const ECHO := Env("session", "question",
                    Kernel(q => Ok(map["question" := Str(q)]), (a, p, d) => [], (a, p, d) => Ok(d), d => None, {}, {}),
                    Budgets(None, None, None, None), d => "digest")

  const ECHO_STARTED := Started(ECHO, map["question" := Str("question")], map[])

  /** The document is accepted, and its session is neither resumable nor one the runtime could have produced. */
  ghost predicate AcceptedAndBroken(env: Env, doc: SessionDoc) {
    && Rehydrated(env.digest, doc).Ok?
    && !Resumable(env.kernel, env.digest, doc)
    && !Reachable(EnvOf(env.kernel, env.digest, doc), Rehydrated(env.digest, doc).value)
  }

  lemma {:induction false} EchoStarts()
    ensures Reachable(ECHO, ECHO_STARTED) && SessionOk(ECHO, ECHO_STARTED)
    ensures ECHO_STARTED.counters == Counters(1, 0, 1, 0) && ECHO_STARTED.status == Active
  {
    ReachableStart(ECHO, map[]);
    StateIsProjection(ECHO, ECHO_STARTED);
  }

  lemma {:induction false} AlteredIsBroken(env: Env, s: Session, question: string, budgets: Budgets, counters: Counters)
    requires SessionOk(env, s) && env.sessionId != "" && forall d :: env.digest(d) != ""
    requires
      var env' := env.(question := question, budgets := budgets);
      !LogProjects(env', s.events, s.state) || !Accounts(budgets, counters, s.status, PairsOf(s.events))
    ensures AcceptedAndBroken(env,
      Altered(ExportSession(env, s), env.sessionId, question, budgets, counters, s.status, s.frontier))
  {
    var doc := Altered(ExportSession(env, s), env.sessionId, question, budgets, counters, s.status, s.frontier);
    AlterationsAccepted(env, s, env.sessionId, question, budgets, counters, s.status, s.frontier);
    AlteredExactly(env, s, env.sessionId, question, budgets, counters, s.status, s.frontier);
    ResumableExactly(env.kernel, env.digest, doc);
    ProducedExactly(env.kernel, env.digest, doc);
    hide Rehydrated, SessionOk, Resumable, Reachable, LogProjects, Accounts, ExportEvents;
  }

  /** Three documents of a session that has just started, all accepted: with another action count, with a
      compute cap already spent, and with another question, whose initial state is not the session's. */
  lemma {:induction false} BrokenDocuments()
    ensures
      var doc := ExportSession(ECHO, ECHO_STARTED);
      && AcceptedAndBroken(ECHO, doc.(counters := Counters(0, 0, 1, 0)))
      && AcceptedAndBroken(ECHO, doc.(budgets := Budgets(None, None, None, Some(1))))
      && AcceptedAndBroken(ECHO, doc.(question := "another question"))
  {
    var s, doc := ECHO_STARTED, ExportSession(ECHO, ECHO_STARTED);
    var caps := Budgets(None, None, None, Some(1));
    EchoStarts();
    assert |PairsOf(s.events)| == 1;
    EchoProjects("another question");
    AlteredIsBroken(ECHO, s, ECHO.question, ECHO.budgets, Counters(0, 0, 1, 0));
    AlteredIsBroken(ECHO, s, ECHO.question, caps, s.counters);
    AlteredIsBroken(ECHO, s, "another question", ECHO.budgets, s.counters);
    assert doc.(counters := Counters(0, 0, 1, 0))
        == Altered(doc, ECHO.sessionId, ECHO.question, ECHO.budgets, Counters(0, 0, 1, 0), s.status, s.frontier);
    assert doc.(budgets := caps) == Altered(doc, ECHO.sessionId, ECHO.question, caps, s.counters, s.status, s.frontier);
    assert doc.(question := "another question")
        == Altered(doc, ECHO.sessionId, "another question", ECHO.budgets, s.counters, s.status, s.frontier);
    hide AcceptedAndBroken, ExportEvents, LogProjects;
  }

  lemma {:induction false} EchoProjects(question: string)
    requires question != ECHO.question
    ensures !LogProjects(ECHO.(question := question), ECHO_STARTED.events, ECHO_STARTED.state)
  {
    var env := ECHO.(question := question);
    var pairs := PairsOf(ECHO_STARTED.events);
    assert |pairs| == 1 && pairs[..1] == pairs;
    assert IsControl(Name(pairs[0].act.action));
    FirstProjection(env, pairs);
    var other: Doc := map["question" := Str(question)];
    assert Projection(env, LogItems(ECHO_STARTED.events)) == Ok(other);
    assert other["question"] != ECHO_STARTED.state["question"];
  }

  method Export(runtime: AgentRuntime) returns (doc: SessionDoc)
    requires runtime.Valid()
    ensures doc == ExportSession(runtime.env, runtime.View())
  {
    var trajectory := runtime.trajectory.Export();
    return SessionDoc(SCHEMA_VERSION, PROTOCOL_VERSION, runtime.env.sessionId, runtime.env.question,
                      StatusText(runtime.status), runtime.state, runtime.env.budgets, runtime.counters,
                        runtime.frontier,
                      trajectory);
  }

  method Rehydrate(kernel: Kernel, digest: Doc -> string, doc: SessionDoc)
    returns (r: Result<AgentRuntime, RehydrateError>)
    ensures r.Ok? <==> Rehydrated(digest, doc).Ok?
    ensures r.Err? ==> r.error == Rehydrated(digest, doc).error
    ensures r.Ok? ==> r.value.env == EnvOf(kernel, digest, doc) && r.value.View() == Rehydrated(digest, doc).value
    ensures r.Ok? ==>
      fresh(r.value) && fresh(r.value.trajectory) && r.value.trajectory.Valid() && r.value.trajectory.digest == digest
    ensures r.Ok? ==> r.value.trajectory.sessionId == doc.trajectory.sessionId
    ensures r.Ok? ==> (r.value.Valid() <==> Resumable(kernel, digest, doc))
  {
    if doc.schemaVersion != SCHEMA_VERSION || doc.protocolVersion != PROTOCOL_VERSION { return Err(BadVersion); }
    hide Import;
    var imported := FromExport(digest, doc.trajectory);
    if imported.Err? { return Err(BadTrajectory(imported.error)); }
    var trajectory := imported.value;
    var expected := trajectory.FindLastRevision();
    if expected.Some? && digest(doc.state) != expected.value { return Err(StateMismatch); }
    var status := ParseSessionStatus(doc.status);
    if status.None? { return Err(BadStatus); }
    if doc.sessionId == "" { return Err(NoSessionId); }
    ResumableExactly(kernel, digest, doc);
    hide Resumable, SessionOk;
    var runtime := new AgentRuntime(EnvOf(kernel, digest, doc), trajectory, doc.state, doc.counters, status.value,
      doc.frontier);
    return Ok(runtime);
  }
}
