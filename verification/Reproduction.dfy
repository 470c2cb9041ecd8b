/**
 Which logs a client can bring about: the log determines the whole session, and running a few
 candidate requests for each of its pairs tells whether there is such a session.
 */
module Reproductions {
  import opened Wrappers
  import opened Docs
  import opened Trajectories
  import opened Runtime
  import opened RuntimeInvariants

  // --- what one request adds, read back from the log ---------------------------------------------

  function LoggedCost(res: Event): Option<int> {
    if "compute_cost" in res.metadata && res.metadata["compute_cost"].Int? then Some(res.metadata["compute_cost"].n)
    else None
  }

  function Logged(res: Event): int {
    match LoggedCost(res) case None => 0 case Some(c) => c
  }

  function StateOr(r: Result<Doc, string>, otherwise: Doc): Doc {
    match r case Ok(state) => state case Err(_) => otherwise
  }

  function ItemAfter(s: Session, action: string, payload: Doc, target: Option<int>): Item {
    Item(|s.events| + 1, action, payload, target)
  }

  /** The session one pair leads to, whatever request was behind it. */
  function Next(env: Env, s: Session, act: Event, res: Event): Session {
    var action, payload := Name(act.action), OrEmpty(act.payload);
    if res.status == Some(Rejected) then
      s.(events := s.events + [act, res], counters := s.counters.(actions := s.counters.actions + 1))
    else if action == "finalize" then FinalizeStep(env, s).0
    else
      var state := StateOr(Projection(env, LogItems(s.events) + [ItemAfter(s, action, payload, act.target)]), s.state);
      Accept(env, s, action, payload, act.target, Logged(res), state).0
  }

  /** A request either leaves the session as it is or adds one pair, from which the rest follows. */
  ghost predicate ReadsBack(env: Env, s: Session, u: Session) {
    || u == s
    || (&& |u.events| == |s.events| + 2 && u.events[..|s.events|] == s.events
        && u == Next(env, s, u.events[|s.events|], u.events[|s.events| + 1]))
  }

  lemma {:induction false} RejectReadsBack(env: Env, s: Session, action: string, payload: Doc, issues: seq<Json>)
    ensures ReadsBack(env, s, Reject(env, s, action, payload, issues).0)
  {
  }

  lemma {:induction false} AcceptReadsBack(env: Env, s: Session, action: string, payload: Doc, target: Option<int>,
                                           cost: int, state: Doc)
    requires action != "finalize"
    requires Projection(env, LogItems(s.events) + [ItemAfter(s, action, payload, target)]) == Ok(state)
    ensures ReadsBack(env, s, Accept(env, s, action, payload, target, cost, state).0)
  {
    hide Projection, LogItems, LastRevision, MarkPartial, NextCounters;
    var u := Accept(env, s, action, payload, target, cost, state).0;
    assert Logged(u.events[|s.events| + 1]) == cost;
  }

  lemma {:induction false} StepReadsBack(env: Env, s: Session, r: Request)
    ensures ReadsBack(env, s, Step(env, s, r))
  {
    hide ReadsBack, Projection, LogItems, LastRevision, Accept, Reject, Finish, Gate, ResolveTarget;
    match r
    case Finalize => FinalizeReadsBack(env, s);
    case Apply(action, payload, prior, given, cost) =>
      var target := ResolveTarget(action, payload, given);
      Unchanged(env, s);
      forall issues ensures ReadsBack(env, s, Reject(env, s, action, payload, issues).0) {
        RejectReadsBack(env, s, action, payload, issues);
      }
      var projected := Projection(env, LogItems(s.events) + [ItemAfter(s, action, payload, target)]);
      FinalizeIsGated(env, s, prior, target, cost);
      if action != "finalize" && projected.Ok? {
        AcceptReadsBack(env, s, action, payload, target, Cost(action, cost), projected.value);
      }
  }

  lemma {:induction false} Unchanged(env: Env, s: Session)
    ensures ReadsBack(env, s, s)
  {
  }

  lemma {:induction false} FinalizeIsGated(env: Env, s: Session, prior: Option<string>, target: Option<int>,
                                           cost: Option<int>)
    ensures Gate(env, s, "finalize", prior, target, cost).Some?
  {
  }

  lemma {:induction false} FinalizeReadsBack(env: Env, s: Session)
    ensures ReadsBack(env, s, FinalizeStep(env, s).0)
  {
    hide LastRevision, MarkPartial, Demote, VerdictStatus, Exhausted;
  }

  /** Two requests that leave the same log leave the same session. */
  lemma {:induction false} SameLogSameStep(env: Env, s: Session, r: Request, r': Request)
    requires Step(env, s, r).events == Step(env, s, r').events
    ensures Step(env, s, r) == Step(env, s, r')
  {
    StepReadsBack(env, s, r);
    StepReadsBack(env, s, r');
    hide Step, Next;
  }

  // --- candidates ------------------------------------------------------------------------------------

  /** A revision other than the latest. */
  function Stale(last: Option<string>): string {
    match last case None => "" case Some(revision) => revision + "*"
  }

  /** The dearest action the compute budget has room for. */
  function Room(env: Env, s: Session): int {
    match env.budgets.maxCompute case None => 0 case Some(cap) => cap - s.counters.compute
  }

  /** A request for an action, with a current or a stale prior, within or beyond the compute budget. */
  function Attempt(env: Env, s: Session, action: string, payload: Doc, target: Option<int>, stale: bool, beyond: bool)
    : Request
  {
    Apply(action, payload, if stale then Some(Stale(LastRevision(s.events))) else None, target,
          Some(Room(env, s) + if beyond then 1 else 0))
  }

  function Attempts(env: Env, s: Session, action: string, payload: Doc, targets: seq<Option<int>>): seq<Request> {
    if targets == [] then []
    else
      [Attempt(env, s, action, payload, targets[0], false, false),
       Attempt(env, s, action, payload, targets[0], false, true),
       Attempt(env, s, action, payload, targets[0], true, false),
       Attempt(env, s, action, payload, targets[0], true, true)]
      + Attempts(env, s, action, payload, targets[1..])
  }

  /** No target, one that names nothing, and every action of the log. */
  function PossibleTargets(pairs: seq<Pair>): seq<Option<int>> {
    if pairs == [] then [None, Some(-1)]
    else PossibleTargets(pairs[..|pairs| - 1]) + [Some(pairs[|pairs| - 1].act.sequence)]
  }

  /** The requests that can be behind a pair. */
  function Candidates(env: Env, s: Session, act: Event, res: Event): seq<Request> {
    var action, payload := Name(act.action), OrEmpty(act.payload);
    [Finalize, Apply(action, payload, None, act.target, Some(Logged(res)))]
    + Attempts(env, s, action, payload, PossibleTargets(PairsOf(s.events)))
  }

  lemma {:induction false} AttemptListed(env: Env, s: Session, action: string, payload: Doc, targets: seq<Option<int>>,
                                         target: Option<int>, stale: bool, beyond: bool)
    requires target in targets
    ensures Attempt(env, s, action, payload, target, stale, beyond) in Attempts(env, s, action, payload, targets)
  {
    hide Attempt;
    var four := [Attempt(env, s, action, payload, targets[0], false, false),
                 Attempt(env, s, action, payload, targets[0], false, true),
                 Attempt(env, s, action, payload, targets[0], true, false),
                 Attempt(env, s, action, payload, targets[0], true, true)];
    if target == targets[0] {
      var k := (if stale then 2 else 0) + if beyond then 1 else 0;
      assert four[k] == Attempt(env, s, action, payload, target, stale, beyond);
      assert four[k] in four;
    } else {
      assert targets == [targets[0]] + targets[1..];
      AttemptListed(env, s, action, payload, targets[1..], target, stale, beyond);
    }
  }

  lemma {:induction false} TargetsListed(pairs: seq<Pair>)
    ensures None in PossibleTargets(pairs) && Some(-1) in PossibleTargets(pairs)
    ensures forall i :: 0 <= i < |pairs| ==> Some(pairs[i].act.sequence as int) in PossibleTargets(pairs)
  {
    if pairs != [] {
      var n := |pairs| - 1;
      TargetsListed(pairs[..n]);
      var front := PossibleTargets(pairs[..n]);
      forall i | 0 <= i < |pairs| ensures Some(pairs[i].act.sequence as int) in PossibleTargets(pairs) {
        if i < n { assert pairs[..n][i] == pairs[i]; }
      }
    }
  }

  // --- a refused request has a candidate that is refused alike -------------------------------------------

  lemma {:induction false} TargetUnused(env: Env, items: seq<Item>, x: Item, y: Item)
    requires x.action != "rollback" && y == x.(target := None)
    ensures Projection(env, items + [x]) == Projection(env, items + [y])
  {
    AppendTargets(items, x);
    AppendTargets(items, y);
    assert (items + [x])[..|items|] == items && (items + [y])[..|items|] == items;
    assert TargetOf(x) == {} && TargetOf(y) == {};
  }

  /** The target of the candidate: the named one if it can be rolled back, else one that cannot. */
  function CandidateTarget(s: Session, action: string, target: Option<int>): Option<int> {
    if action != "rollback" then None
    else if target.Some? && Rollbackable(PairsOf(s.events), RolledBackIn(PairsOf(s.events)), target.value) then target
    else Some(-1)
  }

  lemma {:induction false} CandidateTargetListed(s: Session, action: string, target: Option<int>)
    ensures CandidateTarget(s, action, target) in PossibleTargets(PairsOf(s.events))
  {
    TargetsListed(PairsOf(s.events));
    hide PairsOf, RolledBackIn;
  }

  predicate IsStale(s: Session, prior: Option<string>) {
    prior.Some? && prior != LastRevision(s.events)
  }

  /** The gate looks at a request only through these three facts. */
  lemma {:induction false} GateLooksAt(env: Env, s: Session, action: string, prior: Option<string>, target: Option<int>,
                                       cost: Option<int>)
    ensures
      var beyond := Over(s.counters.compute + Cost(action, cost), env.budgets.maxCompute);
      var c := Attempt(env, s, action, map[], None, IsStale(s, prior), beyond);
      Gate(env, s, action, c.prior, CandidateTarget(s, action, target), c.cost)
        == Gate(env, s, action, prior, target, cost)
  {
    var pairs := PairsOf(s.events);
    assert !Rollbackable(pairs, RolledBackIn(pairs), -1);
    StaleIsNew(LastRevision(s.events));
    hide PairsOf, RolledBackIn, Rollbackable, LastRevision, Stale;
  }

  lemma {:induction false} StaleIsNew(last: Option<string>)
    ensures Some(Stale(last)) != last
  {
    if last.Some? { assert |Stale(last)| == |last.value| + 1; }
  }

  /** The request was refused on the record. */
  ghost predicate Refuses(env: Env, s: Session, action: string, payload: Doc, u: Session) {
    exists issues :: u == Reject(env, s, action, payload, issues).0
  }

  /** Nothing but a refusal is a refusal. */
  lemma {:induction false} OnlyRefusalRefuses(env: Env, s: Session, action: string, payload: Doc, target: Option<int>,
                                              cost: int, state: Doc)
    ensures !Refuses(env, s, action, payload, s)
    ensures !Refuses(env, s, action, payload, Accept(env, s, action, payload, target, cost, state).0)
  {
    forall issues
      ensures |Reject(env, s, action, payload, issues).0.events| == |s.events| + 2
      ensures Reject(env, s, action, payload, issues).0.events[|s.events| + 1].status == Some(Rejected)
    {
    }
    var u := Accept(env, s, action, payload, target, cost, state).0;
    assert u.events[|s.events| + 1].status == Some(Accepted);
    hide Accept, Reject;
  }

  /** Past the gate, the candidate's target changes nothing about the projection. */
  lemma {:induction false} CandidateProjects(env: Env, s: Session, action: string, payload: Doc, prior: Option<string>,
                                             target: Option<int>, cost: Option<int>)
    requires Gate(env, s, action, prior, target, cost).None?
    ensures
      var other := CandidateTarget(s, action, target);
      Projection(env, LogItems(s.events) + [ItemAfter(s, action, payload, other)])
        == Projection(env, LogItems(s.events) + [ItemAfter(s, action, payload, target)])
  {
    hide Projection, LogItems, PairsOf, RolledBackIn, Rollbackable, BudgetViolation, LastRevision;
    if action != "rollback" {
      TargetUnused(env, LogItems(s.events), ItemAfter(s, action, payload, target), ItemAfter(s, action, payload, None));
    }
  }

  /** What is left of an application once the gate has spoken. */
  function PastGate(env: Env, s: Session, action: string, payload: Doc, gate: Option<Json>, target: Option<int>,
                    cost: int)
    : Session
  {
    if gate.Some? then Reject(env, s, action, payload, [gate.value]).0
    else
      var errors := env.kernel.validate(action, payload, s.state);
      if errors != [] then Reject(env, s, action, payload, errors).0
      else
        match Projection(env, LogItems(s.events) + [ItemAfter(s, action, payload, target)])
        case Err(_) => Reject(env, s, action, payload, [Issue("projection_failed", "$")]).0
        case Ok(state) =>
          if target.Some? && action != "rollback" then s else Accept(env, s, action, payload, target, cost, state).0
  }

  lemma {:induction false} ApplyPastGate(env: Env, s: Session, action: string, payload: Doc, prior: Option<string>,
                                         given: Option<int>, cost: Option<int>)
    requires action != ""
    ensures
      var target := ResolveTarget(action, payload, given);
      ApplyStep(env, s, action, payload, prior, given, cost).0
        == PastGate(env, s, action, payload, Gate(env, s, action, prior, target, cost), target, Cost(action, cost))
  {
    hide Gate, Projection, LogItems, LastRevision, Reject, Accept, ResolveTarget, Cost;
  }

  lemma {:induction false} CandidateResolves(s: Session, action: string, payload: Doc, target: Option<int>)
    ensures ResolveTarget(action, payload, CandidateTarget(s, action, target)) == CandidateTarget(s, action, target)
  {
    hide PairsOf, RolledBackIn, Rollbackable;
  }

  lemma {:induction false} RefusedAlike(env: Env, s: Session, action: string, payload: Doc, prior: Option<string>,
                                        given: Option<int>, cost: Option<int>)
    requires action != ""
    requires Refuses(env, s, action, payload, ApplyStep(env, s, action, payload, prior, given, cost).0)
    ensures
      var target := ResolveTarget(action, payload, given);
      var beyond := Over(s.counters.compute + Cost(action, cost), env.budgets.maxCompute);
      Step(env, s, Attempt(env, s, action, payload, CandidateTarget(s, action, target), IsStale(s, prior), beyond))
        == ApplyStep(env, s, action, payload, prior, given, cost).0
  {
    var target := ResolveTarget(action, payload, given);
    var other := CandidateTarget(s, action, target);
    var beyond := Over(s.counters.compute + Cost(action, cost), env.budgets.maxCompute);
    var c := Attempt(env, s, action, payload, other, IsStale(s, prior), beyond);
    GateLooksAt(env, s, action, prior, target, cost);
    CandidateResolves(s, action, payload, target);
    ApplyPastGate(env, s, action, payload, prior, given, cost);
    ApplyPastGate(env, s, action, payload, c.prior, other, c.cost);
    if Gate(env, s, action, prior, target, cost).None? {
      CandidateProjects(env, s, action, payload, prior, target, cost);
    }
    forall cost, state
      ensures !Refuses(env, s, action, payload, Accept(env, s, action, payload, target, cost, state).0)
    {
      OnlyRefusalRefuses(env, s, action, payload, target, cost, state);
    }
    OnlyRefusalRefuses(env, s, action, payload, target, 0, map[]);
    hide Gate, CandidateTarget, Projection, LogItems, LastRevision, Reject, Accept, Refuses, ResolveTarget, IsStale,
         Cost, Over, Room,
         ApplyStep;
  }

  /** Behind every pair some candidate stands. */
  ghost predicate HasCandidate(env: Env, s: Session, u: Session, rs: seq<Request>) {
    exists r :: r in rs && Step(env, s, r) == u
  }

  lemma {:induction false} RefusalHasCandidate(env: Env, s: Session, action: string, payload: Doc,
                                               prior: Option<string>,
                                               given: Option<int>, cost: Option<int>, act: Event, res: Event)
    requires action != "" && Name(act.action) == action && OrEmpty(act.payload) == payload
    requires Refuses(env, s, action, payload, ApplyStep(env, s, action, payload, prior, given, cost).0)
    ensures HasCandidate(env, s, ApplyStep(env, s, action, payload, prior, given, cost).0, Candidates(env, s, act, res))
  {
    var target := ResolveTarget(action, payload, given);
    var beyond := Over(s.counters.compute + Cost(action, cost), env.budgets.maxCompute);
    var other := CandidateTarget(s, action, target);
    RefusedAlike(env, s, action, payload, prior, given, cost);
    CandidateTargetListed(s, action, target);
    AttemptListed(env, s, action, payload, PossibleTargets(PairsOf(s.events)), other, IsStale(s, prior), beyond);
    hide Step, ApplyStep, Attempt, Attempts, CandidateTarget, PossibleTargets, PairsOf, IsStale, Refuses;
    assert Attempt(env, s, action, payload, other, IsStale(s, prior), beyond) in Candidates(env, s, act, res);
  }

  lemma {:induction false} AcceptanceHasCandidate(env: Env, s: Session, action: string, payload: Doc,
                                                  prior: Option<string>,
                                                  given: Option<int>, cost: Option<int>, state: Doc)
    requires action != ""
    requires
      var target := ResolveTarget(action, payload, given);
      ApplyStep(env, s, action, payload, prior, given, cost).0
        == Accept(env, s, action, payload, target, Cost(action, cost), state).0
    ensures
      var u := ApplyStep(env, s, action, payload, prior, given, cost).0;
      && |u.events| == |s.events| + 2
      && HasCandidate(env, s, u, Candidates(env, s, u.events[|s.events|], u.events[|s.events| + 1]))
  {
    var target := ResolveTarget(action, payload, given);
    var u := ApplyStep(env, s, action, payload, prior, given, cost).0;
    var c := Apply(action, payload, None, target, Some(Cost(action, cost)));
    AcceptedGate(env, s, action, payload, prior, given, cost, state);
    assert ResolveTarget(action, payload, target) == target;
    ApplyPastGate(env, s, action, payload, prior, given, cost);
    ApplyPastGate(env, s, action, payload, None, target, Some(Cost(action, cost)));
    AcceptReadsPair(env, s, action, payload, target, Cost(action, cost), state);
    hide Gate, Projection, LogItems, LastRevision, Reject, Accept, ResolveTarget, ApplyStep, Attempts, PossibleTargets;
    assert Step(env, s, c) == u;
    assert Candidates(env, s, u.events[|s.events|], u.events[|s.events| + 1])[1] == c;
  }

  lemma {:induction false} AcceptReadsPair(env: Env, s: Session, action: string, payload: Doc, target: Option<int>,
                                           cost: int, state: Doc)
    ensures
      var u := Accept(env, s, action, payload, target, cost, state).0;
      && |u.events| == |s.events| + 2
      && Name(u.events[|s.events|].action) == action && OrEmpty(u.events[|s.events|].payload) == payload
      && u.events[|s.events|].target == target && Logged(u.events[|s.events| + 1]) == cost
  {
  }

  /** What was accepted passes the gate with no prior as well. */
  lemma {:induction false} AcceptedGate(env: Env, s: Session, action: string, payload: Doc, prior: Option<string>,
                                        given: Option<int>, cost: Option<int>, state: Doc)
    requires action != ""
    requires
      var target := ResolveTarget(action, payload, given);
      ApplyStep(env, s, action, payload, prior, given, cost).0
        == Accept(env, s, action, payload, target, Cost(action, cost), state).0
    ensures
      var target := ResolveTarget(action, payload, given);
      Gate(env, s, action, prior, target, cost).None?
        && Gate(env, s, action, None, target, Some(Cost(action, cost))).None?
  {
    var target := ResolveTarget(action, payload, given);
    ApplyPastGate(env, s, action, payload, prior, given, cost);
    OnlyRefusalRefuses(env, s, action, payload, target, Cost(action, cost), state);
    var gate := Gate(env, s, action, prior, target, cost);
    hide ApplyStep, Projection, LogItems, LastRevision, Reject, Accept, ResolveTarget, PairsOf, RolledBackIn;
    forall issue: Json ensures Refuses(env, s, action, payload, Reject(env, s, action, payload, [issue]).0) {}
  }

  lemma {:induction false} StepHasCandidate(env: Env, s: Session, r: Request)
    ensures
      var u := Step(env, s, r);
      u == s || (|u.events| == |s.events| + 2
                 && HasCandidate(env, s, u, Candidates(env, s, u.events[|s.events|], u.events[|s.events| + 1])))
  {
    StepReadsBack(env, s, r);
    var u := Step(env, s, r);
    hide Next, Candidates, ApplyStep, FinalizeStep;
    if u != s {
      match r
      case Finalize => FinalizeIsCandidate(env, s, u.events[|s.events|], u.events[|s.events| + 1]);
      case Apply(action, payload, prior, given, cost) => ApplyHasCandidate(env, s, action, payload, prior, given, cost);
    }
  }

  lemma {:induction false} FinalizeIsCandidate(env: Env, s: Session, act: Event, res: Event)
    ensures HasCandidate(env, s, Step(env, s, Finalize), Candidates(env, s, act, res))
  {
    assert Candidates(env, s, act, res)[0] == Finalize;
    assert Finalize in Candidates(env, s, act, res);
    hide Candidates, Step;
  }

  lemma {:induction false} ApplyHasCandidate(env: Env, s: Session, action: string, payload: Doc, prior: Option<string>,
                                             given: Option<int>, cost: Option<int>)
    requires ApplyStep(env, s, action, payload, prior, given, cost).0 != s
    ensures
      var u := ApplyStep(env, s, action, payload, prior, given, cost).0;
      && |u.events| == |s.events| + 2
      && HasCandidate(env, s, u, Candidates(env, s, u.events[|s.events|], u.events[|s.events| + 1]))
  {
    var target := ResolveTarget(action, payload, given);
    var u := ApplyStep(env, s, action, payload, prior, given, cost).0;
    assert action != "";
    ApplyPastGate(env, s, action, payload, prior, given, cost);
    var projected := Projection(env, LogItems(s.events) + [ItemAfter(s, action, payload, target)]);
    var accepted := Accept(env, s, action, payload, target, Cost(action, cost), StateOr(projected, s.state)).0;
    hide ApplyStep, Gate, Projection, LogItems, LastRevision, Reject, Accept, ResolveTarget, Candidates, HasCandidate;
    if u == accepted {
      AcceptanceHasCandidate(env, s, action, payload, prior, given, cost, StateOr(projected, s.state));
    } else {
      assert Refuses(env, s, action, payload, u);
      RefusalReadsPair(env, s, action, payload, u);
      RefusalHasCandidate(env, s, action, payload, prior, given, cost, u.events[|s.events|], u.events[|s.events| + 1]);
    }
  }

  lemma {:induction false} RefusalReadsPair(env: Env, s: Session, action: string, payload: Doc, u: Session)
    requires Refuses(env, s, action, payload, u)
    ensures |u.events| == |s.events| + 2
    ensures Name(u.events[|s.events|].action) == action && OrEmpty(u.events[|s.events|].payload) == payload
  {
  }

  // --- re-running a log -------------------------------------------------------------------------------

  /** The session of the first candidate that leaves this log. */
  function FirstThat(env: Env, s: Session, rs: seq<Request>, events: seq<Event>): Option<Session> {
    if rs == [] then None
    else if Step(env, s, rs[0]).events == events then Some(Step(env, s, rs[0]))
    else FirstThat(env, s, rs[1..], events)
  }

  lemma {:induction false} FirstThatIsStep(env: Env, s: Session, rs: seq<Request>, events: seq<Event>)
    ensures FirstThat(env, s, rs, events).Some? ==>
      exists r :: FirstThat(env, s, rs, events).value == Step(env, s, r) && Step(env, s, r).events == events
  {
    hide Step;
    if rs != [] { FirstThatIsStep(env, s, rs[1..], events); }
  }

  lemma {:induction false} FirstThatFinds(env: Env, s: Session, u: Session, rs: seq<Request>)
    requires HasCandidate(env, s, u, rs)
    ensures FirstThat(env, s, rs, u.events) == Some(u)
  {
    hide Step;
    var r :| r in rs && Step(env, s, r) == u;
    if Step(env, s, rs[0]).events == u.events {
      SameLogSameStep(env, s, rs[0], r);
    } else {
      assert rs == [rs[0]] + rs[1..];
      FirstThatFinds(env, s, u, rs[1..]);
    }
  }

  function MetadataOf(act: Event): Doc {
    if act.payload.Some? && "metadata" in act.payload.value && act.payload.value["metadata"].Obj?
    then act.payload.value["metadata"].fields else map[]
  }

  /** The session right after the start pair, if this is one. */
  function Restarted(env: Env, events: seq<Event>): Option<Session>
    requires |events| == 2
  {
    match env.kernel.initialState(env.question)
    case Err(_) => None
    case Ok(initial) =>
      var s := Started(env, initial, MetadataOf(events[0]));
      if s.events == events then Some(s) else None
  }

  /** Re-run a log pair by pair: the session it stands for, or `None` if no client can bring it about. */
  function Reproduced(env: Env, events: seq<Event>): Option<Session> {
    if |events| < 2 then None
    else if |events| == 2 then Restarted(env, events)
    else
      var n := |events| - 2;
      match Reproduced(env, events[..n])
      case None => None
      case Some(s) => FirstThat(env, s, Candidates(env, s, events[n], events[n + 1]), events)
  }

  lemma {:induction false} ReachableStep(env: Env, s: Session, r: Request)
    requires Reachable(env, s)
    ensures Reachable(env, Step(env, s, r))
  {
    hide Step, Started;
    var metadata, requests :| ReachableBy(env, s, metadata, requests);
    var more := requests + [r];
    assert more[..|requests|] == requests;
    assert ReachableBy(env, Step(env, s, r), metadata, more);
  }

  lemma {:induction false} ReachableStart(env: Env, metadata: Doc)
    requires env.kernel.initialState(env.question).Ok?
    ensures Reachable(env, Started(env, env.kernel.initialState(env.question).value, metadata))
  {
    hide Started;
    var s := Started(env, env.kernel.initialState(env.question).value, metadata);
    assert Run(env, s, []) == s;
    assert ReachableBy(env, s, metadata, []);
  }

  /** Whatever is reproduced is a session a client can bring about, with that log. */
  lemma {:induction false} ReproducedIsReachable(env: Env, events: seq<Event>)
    requires Reproduced(env, events).Some?
    ensures Reachable(env, Reproduced(env, events).value) && Reproduced(env, events).value.events == events
  {
    hide Reachable, Started, Step, Candidates;
    if |events| == 2 {
      ReachableStart(env, MetadataOf(events[0]));
    } else {
      var n := |events| - 2;
      ReproducedIsReachable(env, events[..n]);
      var s := Reproduced(env, events[..n]).value;
      FirstThatIsStep(env, s, Candidates(env, s, events[n], events[n + 1]), events);
      var r :| Reproduced(env, events).value == Step(env, s, r) && Step(env, s, r).events == events;
      ReachableStep(env, s, r);
    }
  }

  lemma {:induction false} StartReproduced(env: Env, metadata: Doc)
    requires env.kernel.initialState(env.question).Ok?
    ensures
      var s := Started(env, env.kernel.initialState(env.question).value, metadata);
      Reproduced(env, s.events) == Some(s)
  {
    var s := Started(env, env.kernel.initialState(env.question).value, metadata);
    assert MetadataOf(s.events[0]) == metadata;
    hide Started;
  }

  lemma {:induction false} StepReproduced(env: Env, s: Session, r: Request)
    requires Reproduced(env, s.events) == Some(s)
    ensures Reproduced(env, Step(env, s, r).events) == Some(Step(env, s, r))
  {
    StepHasCandidate(env, s, r);
    StepReadsBack(env, s, r);
    hide Step, Candidates, Next;
    var u := Step(env, s, r);
    if u != s {
      var n := |s.events|;
      assert n >= 2;
      FirstThatFinds(env, s, u, Candidates(env, s, u.events[n], u.events[n + 1]));
    }
  }

  lemma {:induction false} RunReproduced(env: Env, s: Session, requests: seq<Request>)
    requires Reproduced(env, s.events) == Some(s)
    ensures Reproduced(env, Run(env, s, requests).events) == Some(Run(env, s, requests))
  {
    hide Reproduced, Step;
    if requests != [] {
      var n := |requests| - 1;
      RunReproduced(env, s, requests[..n]);
      StepReproduced(env, Run(env, s, requests[..n]), requests[n]);
    }
  }

  /** A session can be brought about by a client if and only if re-running its own log gives it back. */
  lemma {:induction false} ReachableExactly(env: Env, s: Session)
    ensures Reachable(env, s) <==> Reproduced(env, s.events) == Some(s)
  {
    hide Reproduced, Started, Run;
    if Reachable(env, s) {
      var metadata, requests :| ReachableBy(env, s, metadata, requests);
      StartReproduced(env, metadata);
      RunReproduced(env, Started(env, env.kernel.initialState(env.question).value, metadata), requests);
    }
    if Reproduced(env, s.events) == Some(s) { ReproducedIsReachable(env, s.events); }
  }

  /** The log determines the session: its state, its counters, its status and its evaluation. */
  lemma {:induction false} LogDeterminesSession(env: Env, s: Session, s': Session)
    requires Reachable(env, s) && Reachable(env, s') && s.events == s'.events
    ensures s == s'
  {
    ReachableExactly(env, s);
    ReachableExactly(env, s');
    hide Reproduced, Reachable;
  }
}
