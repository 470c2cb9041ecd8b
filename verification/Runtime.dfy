/**
 The event-sourced agent runtime as a transition system on values: the kernel contract,
 the projection of accepted live actions, budgets, and the effect of every request.
 */
module Runtime {
  import opened Wrappers
  import opened Docs
  import opened Trajectories

  // --- the injected kernel and the session's constants -------------------

  datatype Evaluation = Evaluation(status: string, reasons: seq<string>)

  /** A deterministic kernel.  `initialState` and `execute` may raise (`Err`); `evaluateFrontier`
      is `None` when the kernel's evaluation is malformed. */
  datatype Kernel = Kernel(
    initialState: string -> Result<Doc, string>,
    validate: (string, Doc, Doc) -> seq<Json>,
    execute: (string, Doc, Doc) -> Result<Doc, string>,
    evaluateFrontier: Doc -> Option<Evaluation>,
    evaluationActions: set<string>,
    depthActions: set<string>)

  /** Caps; `None` disables a check. */
  datatype Budgets = Budgets(maxActions: Option<int>, maxDepth: Option<int>, maxEvaluations: Option<int>,
                             maxCompute: Option<int>)

  datatype Counters = Counters(actions: int, evaluations: int, compute: int, depth: int)

  datatype Status = Active | Certified | Insufficient | Partial | Invalid

  datatype Env = Env(sessionId: string, question: string, kernel: Kernel, budgets: Budgets, digest: Doc -> string)

  datatype Session = Session(events: seq<Event>, state: Doc, counters: Counters, status: Status,
                             frontier: Option<Evaluation>)

  // --- projection --------------------------------------------------------

  /** An accepted action as the projection sees it. */
  datatype Item = Item(sequence: int, action: string, payload: Doc, target: Option<int>)

  predicate IsControl(action: string) {
    action == "start" || action == "rollback" || action == "finalize"
  }

  function Name(action: Option<string>): string {
    match action case None => "" case Some(a) => a
  }

  function ItemOf(p: Pair): Item {
    Item(p.act.sequence, Name(p.act.action), OrEmpty(p.act.payload), p.act.target)
  }

  function AcceptedItems(pairs: seq<Pair>): seq<Item> {
    if pairs == [] then []
    else
      var last := pairs[|pairs| - 1];
      AcceptedItems(pairs[..|pairs| - 1]) + if last.res.status == Some(Accepted) then [ItemOf(last)] else []
  }

  function TargetOf(x: Item): set<int> {
    if x.action == "rollback" && x.target.Some? then {x.target.value} else {}
  }

  function Targets(items: seq<Item>): set<int> {
    if items == [] then {} else Targets(items[..|items| - 1]) + TargetOf(items[|items| - 1])
  }

  /** One accepted item applied to a projected state, skipping control and rolled-back actions. */
  function ApplyItem(k: Kernel, state: Result<Doc, string>, x: Item, rolled: set<int>): Result<Doc, string> {
    if state.Err? || IsControl(x.action) || x.sequence in rolled then state
    else k.execute(x.action, x.payload, state.value)
  }

  function Fold(env: Env, items: seq<Item>, rolled: set<int>): Result<Doc, string> {
    if items == [] then env.kernel.initialState(env.question)
    else ApplyItem(env.kernel, Fold(env, items[..|items| - 1], rolled), items[|items| - 1], rolled)
  }

  /** The state the accepted, not-rolled-back actions produce: the meaning of a log. */
  function Projection(env: Env, items: seq<Item>): Result<Doc, string> {
    Fold(env, items, Targets(items))
  }

  function LogItems(events: seq<Event>): seq<Item> {
    AcceptedItems(PairsOf(events))
  }

  // --- budgets -----------------------------------------------------------

  function DefaultCost(action: string): int {
    if action == "evaluate" || action == "finalize" || action == "certify" then 5
    else if action == "rollback" then 3
    else 1
  }

  function Cost(action: string, cost: Option<int>): int {
    match cost case None => DefaultCost(action) case Some(c) => c
  }

  predicate Over(used: int, cap: Option<int>) {
    cap.Some? && used > cap.value
  }

  predicate Spent(used: int, cap: Option<int>) {
    cap.Some? && used >= cap.value
  }

  /** The path of the first budget the action would overrun. */
  function BudgetViolation(env: Env, c: Counters, action: string, cost: Option<int>): Option<string> {
    if Over(c.actions + 1, env.budgets.maxActions) then Some("$.actions")
    else if action in env.kernel.evaluationActions && Over(c.evaluations + 1, env.budgets.maxEvaluations)
    then Some("$.evaluations")
    else if Over(c.compute + Cost(action, cost), env.budgets.maxCompute) then Some("$.compute")
    else if action in env.kernel.depthActions && Over(c.depth + 1, env.budgets.maxDepth) then Some("$.depth")
    else None
  }

  predicate Exhausted(b: Budgets, c: Counters) {
    Spent(c.actions, b.maxActions) || Spent(c.evaluations, b.maxEvaluations)
    || Spent(c.compute, b.maxCompute) || Spent(c.depth, b.maxDepth)
  }

  function MarkPartial(b: Budgets, c: Counters, status: Status): Status {
    if status == Certified then status else if Exhausted(b, c) then Partial else status
  }

  function CandidateDepth(state: Doc, c: Counters): int {
    if "depth" in state && state["depth"].Int? then state["depth"].n else c.depth
  }

  // --- requests ----------------------------------------------------------

  datatype Request =
    | Apply(action: string, payload: Doc, prior: Option<string>, target: Option<int>, cost: Option<int>)
    | Finalize

  datatype Response =
    | Unrecorded(code: string)
    | Refused(sequence: nat, issues: seq<Json>, prior: Option<string>)
    | Done(sequence: nat, revision: string, prior: Option<string>, cost: int, partial: bool)
    | Finalized(sequence: nat, evaluation: Evaluation, status: Status)
    | NoOp
    | MalformedEvaluation

  function Issue(code: string, path: string): Json {
    Obj(map["code" := Str(code), "path" := Str(path)])
  }

  function ActionEvent(env: Env, events: seq<Event>, action: string, payload: Doc, target: Option<int>): Event {
    Event(|events| + 1, Action, Some(action), Some(payload), Some(env.digest(payload)), None, LastRevision(events),
          None, None, None, None, target, map[])
  }

  function RejectedEvent(events: seq<Event>, issues: seq<Json>): Event {
    Event(|events| + 2, Outcome, None, None, None, Some(|events| + 1), LastRevision(events),
          None, None, Some(Rejected), Some(map["issues" := Arr(issues)]), None, map[])
  }

  function AcceptedEvent(events: seq<Event>, revision: string, metadata: Doc): Event {
    Event(|events| + 2, Outcome, None, None, None, Some(|events| + 1), LastRevision(events),
          Some(revision), Some(revision), Some(Accepted), None, None, metadata)
  }

  /** A refused action stays in history and costs one action, nothing else. */
  function Reject(env: Env, s: Session, action: string, payload: Doc, issues: seq<Json>): (Session, Response) {
    (s.(events := s.events + [ActionEvent(env, s.events, action, payload, None), RejectedEvent(s.events, issues)],
        counters := s.counters.(actions := s.counters.actions + 1)),
     Refused(|s.events| + 1, issues, LastRevision(s.events)))
  }

  /** A rollback may name its target in the payload. */
  function ResolveTarget(action: string, payload: Doc, target: Option<int>): Option<int> {
    if action == "rollback" && target.None? && "target_sequence" in payload && payload["target_sequence"].Int?
    then Some(payload["target_sequence"].n) else target
  }

  /** The pair whose ACTION has sequence `t` decides whether `t` may be rolled back. */
  predicate Rollbackable(pairs: seq<Pair>, rolled: set<int>, t: int) {
    exists i :: 0 <= i < |pairs| && pairs[i].act.sequence == t && pairs[i].res.status == Some(Accepted)
      && !IsControl(Name(pairs[i].act.action)) && t !in rolled
  }

  function NextCounters(env: Env, c: Counters, action: string, cost: int, state: Doc): Counters {
    Counters(c.actions + 1,
             if action in env.kernel.evaluationActions then c.evaluations + 1 else c.evaluations,
             c.compute + cost, CandidateDepth(state, c))
  }

  function Accept(env: Env, s: Session, action: string, payload: Doc, target: Option<int>, cost: int, state: Doc)
    : (Session, Response)
  {
    var revision := env.digest(state);
    var counters := NextCounters(env, s.counters, action, cost, state);
    var status := MarkPartial(env.budgets, counters, s.status);
    (s.(events := s.events + [ActionEvent(env, s.events, action, payload, target),
                              AcceptedEvent(s.events, revision, map["compute_cost" := Int(cost)])],
        state := state, counters := counters, status := status),
     Done(|s.events| + 1, revision, LastRevision(s.events), cost, status == Partial))
  }

  /** What `apply` refuses before it looks at the kernel. */
  function Gate(env: Env, s: Session, action: string, prior: Option<string>, target: Option<int>, cost: Option<int>)
    : Option<Json>
  {
    if action == "finalize" then Some(Issue("use_finalize_method", "$"))
    else
      match BudgetViolation(env, s.counters, action, cost)
      case Some(path) => Some(Issue("budget_exhausted", path))
      case None =>
        if s.status != Active then Some(Issue("session_not_active", "$"))
        else if prior.Some? && prior != LastRevision(s.events) then Some(Issue("stale_revision", "$"))
        else if action == "rollback"
                && (target.None? || !Rollbackable(PairsOf(s.events), RolledBackIn(PairsOf(s.events)), target.value))
        then Some(Issue("invalid_rollback_target", "$"))
        else None
  }

  function ApplyStep(env: Env, s: Session, action: string, payload: Doc, prior: Option<string>,
                     givenTarget: Option<int>, cost: Option<int>): (Session, Response)
  {
    var target := ResolveTarget(action, payload, givenTarget);
    if action == "" then (s, Unrecorded("missing_action"))
    else
      match Gate(env, s, action, prior, target, cost)
      case Some(issue) => Reject(env, s, action, payload, [issue])
      case None =>
        var errors := env.kernel.validate(action, payload, s.state);
        if errors != [] then Reject(env, s, action, payload, errors)
        else
          match Projection(env, LogItems(s.events) + [Item(|s.events| + 1, action, payload, target)])
          case Err(_) => Reject(env, s, action, payload, [Issue("projection_failed", "$")])
          case Ok(state) =>
            // The log refuses a target on anything but a rollback; nothing is recorded then.
            if target.Some? && action != "rollback" then (s, Unrecorded("recording_failed"))
            else Accept(env, s, action, payload, target, Cost(action, cost), state)
  }

  /** Stands for the sentence the source appends to the reasons. */
  const BUDGET_NOTE := "budget"

  /** An exhausted budget demotes a `certified` verdict to `partial`. */
  function Demote(exhausted: bool, e: Evaluation): Evaluation {
    if exhausted && e.status == "certified"
    then Evaluation("partial", e.reasons + [BUDGET_NOTE])
    else e
  }

  function VerdictStatus(verdict: string): Status {
    if verdict == "certified" then Certified
    else if verdict == "partial" || verdict == "ineligible" then Partial
    else Insufficient
  }

  function CountersDoc(c: Counters): Doc {
    map["actions" := Int(c.actions), "evaluations" := Int(c.evaluations), "compute" := Int(c.compute),
        "depth" := Int(c.depth)]
  }

  function StatusText(s: Status): string {
    match s case Active => "active" case Certified => "certified" case Insufficient => "insufficient"
    case Partial => "partial" case Invalid => "invalid"
  }

  /** Record the finalize pair and move the session to the status the evaluation earns. */
  function Finish(env: Env, s: Session, raw: Evaluation, payload: Doc, metadata: Doc): (Session, Response) {
    var counters := Counters(s.counters.actions + 1, s.counters.evaluations + 1,
                             s.counters.compute + DefaultCost("finalize"), s.counters.depth);
    var evaluation := Demote(Exhausted(env.budgets, counters), raw);
    var status := VerdictStatus(evaluation.status);
    (Session(s.events + [ActionEvent(env, s.events, "finalize", payload, None),
                         AcceptedEvent(s.events, env.digest(s.state), metadata)],
             s.state, counters, status, Some(evaluation)),
     Finalized(|s.events| + 1, evaluation, status))
  }

  function FinalizePayload(c: Counters): Doc {
    map["counters" := Obj(CountersDoc(c))]
  }

  function FinalizeMetadata(previous: Status): Doc {
    map["finalize" := Bool(true), "previous_status" := Str(StatusText(previous))]
  }

  function FinalizeStep(env: Env, s: Session): (Session, Response) {
    if s.status != Active then (s, NoOp)
    else
      match env.kernel.evaluateFrontier(s.state)
      case None => (s, MalformedEvaluation)
      case Some(raw) => Finish(env, s, raw, FinalizePayload(s.counters), FinalizeMetadata(s.status))
  }

  function Step(env: Env, s: Session, r: Request): Session {
    match r
    case Apply(action, payload, prior, target, cost) => ApplyStep(env, s, action, payload, prior, target, cost).0
    case Finalize => FinalizeStep(env, s).0
  }

  function StartPayload(env: Env, metadata: Doc): Doc {
    map["question" := Str(env.question), "metadata" := Obj(metadata)]
  }

  const START_METADATA: Doc := map["initial_state" := Bool(true)]

  /** A session right after `start`, over the kernel's initial state. */
  function Started(env: Env, initial: Doc, metadata: Doc): Session {
    var counters := Counters(1, 0, 1, 0);
    Session([ActionEvent(env, [], "start", StartPayload(env, metadata), None),
             AcceptedEvent([], env.digest(initial), START_METADATA)],
            initial, counters, MarkPartial(env.budgets, counters, Active), None)
  }

  function Run(env: Env, s: Session, requests: seq<Request>): Session {
    if requests == [] then s
    else Step(env, Run(env, s, requests[..|requests| - 1]), requests[|requests| - 1])
  }

  /** The sessions a client can bring about. */
  ghost predicate Reachable(env: Env, s: Session) {
    exists metadata: Doc, requests: seq<Request> :: ReachableBy(env, s, metadata, requests)
  }

  ghost predicate ReachableBy(env: Env, s: Session, metadata: Doc, requests: seq<Request>) {
    env.kernel.initialState(env.question).Ok?
    && s == Run(env, Started(env, env.kernel.initialState(env.question).value, metadata), requests)
  }
}
