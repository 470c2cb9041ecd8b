/**
 The runtime object: the log, the current state, counters and status, updated in place by
 the same branches as the source, each proved to take the step the transition system takes.
 */
module AgentRuntimes {
  import opened Wrappers
  import opened Docs
  import opened Trajectories
  import opened Runtime
  import opened RuntimeInvariants
  import opened Replays

  datatype Verdict = Match | Differing

  // --- the recording steps compute the specified events -------------------------

  lemma {:induction false} RecordsAction(env: Env, events: seq<Event>, action: string, payload: Doc,
                                         target: Option<int>)
    requires |events| % 2 == 0 && action != ""
    requires target.Some? ==> action == "rollback" && 1 <= target.value <= |events|
    ensures NewAction(env.digest, events, action, payload, LastRevision(events), target, map[])
            == Ok(ActionEvent(env, events, action, payload, target))
  {
  }

  lemma {:induction false} RecordsRejection(env: Env, events: seq<Event>, a: Event, issues: seq<Json>)
    requires |events| % 2 == 0 && a.kind == Action && a.sequence == |events| + 1 && a.prior == LastRevision(events)
    ensures NewOutcome(events + [a], Rejected, None, None, Some(map["issues" := Arr(issues)]), map[])
            == Ok(RejectedEvent(events, issues))
  {
    var error: Doc := map["issues" := Arr(issues)];
    assert "issues" in error && error != map[];
  }

  lemma {:induction false} RecordsAcceptance(env: Env, events: seq<Event>, a: Event, revision: string, metadata: Doc)
    requires |events| % 2 == 0 && a.kind == Action && a.sequence == |events| + 1 && a.prior == LastRevision(events)
    ensures NewOutcome(events + [a], Accepted, Some(revision), Some(revision), None, metadata)
            == Ok(AcceptedEvent(events, revision, metadata))
  {
    hide LastRevision;
    assert (events + [a])[|events|] == a && |events + [a]| == |events| + 1;
  }

  lemma {:induction false} FoldErrorStays(env: Env, items: seq<Item>, i: nat, rolled: set<int>)
    requires i <= |items| && Fold(env, items[..i], rolled).Err?
    ensures Fold(env, items, rolled) == Fold(env, items[..i], rolled)
  {
    if i == |items| {
      assert items[..i] == items;
    } else {
      assert items[..|items| - 1][..i] == items[..i];
      FoldErrorStays(env, items[..|items| - 1], i, rolled);
    }
  }

  /** What an action that passed every check may rely on. */
  lemma {:induction false} GateOpen(env: Env, s: Session, action: string, prior: Option<string>, target: Option<int>,
                                    cost: Option<int>)
    requires Gate(env, s, action, prior, target, cost).None?
    ensures action != "finalize" && s.status == Active
    ensures action == "rollback" ==>
      target.Some? && Rollbackable(PairsOf(s.events), RolledBackIn(PairsOf(s.events)), target.value)
  {
  }

  /** An accepted action may be recorded, and leaves the session in order. */
  lemma {:induction false} CommitReady(env: Env, s: Session, action: string, payload: Doc, target: Option<int>,
                                       cost: int, state: Doc)
    requires SessionOk(env, s) && s.status == Active && action != "" && action != "finalize"
    requires Projection(env, LogItems(s.events) + [Item(|s.events| + 1, action, payload, target)]) == Ok(state)
    requires action == "rollback" ==>
      target.Some? && Rollbackable(PairsOf(s.events), RolledBackIn(PairsOf(s.events)), target.value)
    ensures |s.events| % 2 == 0
    ensures action == "rollback" ==> 1 <= target.value <= |s.events|
    ensures target.None? || action == "rollback" ==>
      SessionOk(env, Accept(env, s, action, payload, target, cost, state).0)
  {
    if target.None? || action == "rollback" {
      AcceptKeeps(env, s, action, payload, target, cost, state);
    }
    if action == "rollback" { TargetInLog(env, s.events, target.value); }
  }

  // --- projection -----------------------------------------------------------------

  /** The first pass: the accepted items, and the sequences they roll back. */
  method CollectItems(pairs: seq<Pair>, extra: Option<Item>) returns (accepted: seq<Item>, rolled: set<int>)
    ensures accepted == AcceptedItems(pairs) + if extra.Some? then [extra.value] else []
    ensures rolled == Targets(accepted)
  {
    accepted, rolled := [], {};
    for i := 0 to |pairs|
      invariant accepted == AcceptedItems(pairs[..i]) && rolled == Targets(accepted)
    {
      assert pairs[..i + 1] == pairs[..i] + [pairs[i]];
      AppendItems(pairs[..i], pairs[i]);
      if pairs[i].res.status == Some(Accepted) {
        var item := ItemOf(pairs[i]);
        AppendTargets(accepted, item);
        accepted := accepted + [item];
        if item.action == "rollback" && item.target.Some? { rolled := rolled + {item.target.value}; }
      }
    }
    assert pairs[..|pairs|] == pairs;
    if extra.Some? {
      AppendTargets(accepted, extra.value);
      accepted := accepted + [extra.value];
      if extra.value.action == "rollback" && extra.value.target.Some? { rolled := rolled + {extra.value.target.value}; }
    }
  }

  /** Rebuild visible state from accepted live actions: collect them, then run the kernel over
      whatever is neither a control action nor rolled back. */
  method ProjectState(env: Env, pairs: seq<Pair>, extra: Option<Item>) returns (r: Result<Doc, string>)
    ensures r == Projection(env, AcceptedItems(pairs) + if extra.Some? then [extra.value] else [])
  {
    var items, rolled := CollectItems(pairs, extra);
    hide AcceptedItems, Targets;
    assert items[..0] == [];
    r := env.kernel.initialState(env.question);
    if r.Err? {
      FoldErrorStays(env, items, 0, rolled);
      return;
    }
    for i := 0 to |items|
      invariant r.Ok? && r == Fold(env, items[..i], rolled)
    {
      assert items[..i + 1][..i] == items[..i];
      var x := items[i];
      if IsControl(x.action) { continue; }
      if x.sequence in rolled { continue; }
      r := env.kernel.execute(x.action, x.payload, r.value);
      if r.Err? {
        FoldErrorStays(env, items, i + 1, rolled);
        return;
      }
    }
    assert items[..|items|] == items;
  }

  class AgentRuntime {
    const env: Env
    const trajectory: Trajectory
    var state: Doc
    var counters: Counters
    var status: Status
    var frontier: Option<Evaluation>

    /** The session this object holds. */
    ghost function View(): Session
      reads this, trajectory
    {
      Session(trajectory.events, state, counters, status, frontier)
    }

    ghost predicate Valid()
      reads this, trajectory
    {
      && trajectory.Valid() && trajectory.digest == env.digest && trajectory.sessionId == env.sessionId
      && SessionOk(env, View())
    }

    constructor (env: Env, trajectory: Trajectory, state: Doc, counters: Counters, status: Status,
                 frontier: Option<Evaluation>)
      ensures this.env == env && this.trajectory == trajectory
      ensures View() == Session(trajectory.events, state, counters, status, frontier)
    {
      this.env := env;
      this.trajectory := trajectory;
      this.state := state;
      this.counters := counters;
      this.status := status;
      this.frontier := frontier;
    }

    method MarkBudgetPartial()
      modifies this`status
      ensures status == MarkPartial(env.budgets, counters, old(status))
    {
      if status == Certified { return; }
      if Exhausted(env.budgets, counters) { status := Partial; }
    }

    /** Replace the current state by the one the log stands for; on a valid runtime nothing moves. */
    method RebuildProjection() returns (r: Result<Doc, string>)
      requires Valid()
      modifies this`state
      ensures Valid() && View() == old(View()) && r == Ok(state)
    {
      var pairs := trajectory.CollectPairs();
      r := ProjectState(env, pairs, None);
      assert LogItems(trajectory.events) + [] == LogItems(trajectory.events);
      if r.Ok? { state := r.value; }
    }

    /** Scan the pairs for the target; refuse what is not an accepted, live kernel action. */
    method ValidateRollbackTarget(target: Option<int>) returns (ok: bool)
      requires Valid()
      ensures ok <==> target.Some?
                      && Rollbackable(PairsOf(trajectory.events), RolledBackIn(PairsOf(trajectory.events)),
                         target.value)
    {
      if target.None? { return false; }
      var pairs := trajectory.CollectPairs();
      for i := 0 to |pairs|
        invariant forall j :: 0 <= j < i ==> pairs[j].act.sequence != target.value
      {
        if pairs[i].act.sequence != target.value { continue; }
        assert forall j :: 0 <= j < |pairs| && j != i ==> pairs[j].act.sequence != target.value by {
          assert forall j :: 0 <= j < |pairs| ==> pairs[j].act.sequence == 2 * j + 1;
        }
        if pairs[i].res.status != Some(Accepted) { return false; }
        if IsControl(Name(pairs[i].act.action)) { return false; }
        var rolled := trajectory.RolledBackSequences();
        return target.value !in rolled;
      }
      return false;
    }

    /** Append a rejected pair to the log. */
    method LogRejected(action: string, payload: Doc, issues: seq<Json>) returns (act: Event)
      requires trajectory.Valid() && trajectory.digest == env.digest && |trajectory.events| % 2 == 0 && action != ""
      modifies trajectory
      ensures trajectory.Valid()
      ensures act == ActionEvent(env, old(trajectory.events), action, payload, None)
      ensures trajectory.events == old(trajectory.events) + [act, RejectedEvent(old(trajectory.events), issues)]
    {
      ghost var events := trajectory.events;
      RecordsAction(env, events, action, payload, None);
      RecordsRejection(env, events, ActionEvent(env, events, action, payload, None), issues);
      var revision := trajectory.FindLastRevision();
      var recorded := trajectory.RecordAction(action, payload, revision, None, map[]);
      act := recorded.value;
      var res := trajectory.RecordResult(Rejected, None, None, Some(map["issues" := Arr(issues)]), map[]);
    }

    /** A refused action is logged and counted, and changes nothing else. */
    method RecordRejected(action: string, payload: Doc, issues: seq<Json>) returns (response: Response)
      requires Valid() && action != ""
      modifies this, trajectory
      ensures Valid()
      ensures (View(), response) == Reject(env, old(View()), action, payload, issues)
    {
      RejectKeeps(env, View(), action, payload, issues);
      assert |trajectory.events| % 2 == 0;
      hide SessionOk, WellFormed, LastRevision, LogItems, NewAction, NewOutcome;
      var act := LogRejected(action, payload, issues);
      counters := counters.(actions := counters.actions + 1);
      response := Refused(act.sequence, issues, act.prior);
    }

    /** Append an accepted pair; nothing is recorded when the log refuses the action. */
    method RecordAccepted(action: string, payload: Doc, target: Option<int>, revision: string, metadata: Doc)
      returns (recorded: Result<Event, TrajectoryError>)
      requires trajectory.Valid() && trajectory.digest == env.digest && |trajectory.events| % 2 == 0 && action != ""
      requires action == "rollback" && target.Some? ==> 1 <= target.value <= |trajectory.events|
      modifies trajectory
      ensures trajectory.Valid()
      ensures recorded.Err? <==> target.Some? && action != "rollback"
      ensures recorded.Err? ==> trajectory.events == old(trajectory.events)
      ensures recorded.Ok? ==>
        && recorded.value == ActionEvent(env, old(trajectory.events), action, payload, target)
        && trajectory.events
           == old(trajectory.events) + [recorded.value, AcceptedEvent(old(trajectory.events), revision, metadata)]
    {
      ghost var events := trajectory.events;
      var prior := trajectory.FindLastRevision();
      if target.None? || action == "rollback" {
        RecordsAction(env, events, action, payload, target);
        RecordsAcceptance(env, events, ActionEvent(env, events, action, payload, target), revision, metadata);
      }
      recorded := trajectory.RecordAction(action, payload, prior, target, map[]);
      if recorded.Ok? {
        var res := trajectory.RecordResult(Accepted, Some(revision), Some(revision), None, metadata);
      }
    }

    /** What `apply` checks before it consults the kernel, in the source's order. */
    method CheckGate(action: string, prior: Option<string>, target: Option<int>, cost: Option<int>)
      returns (issue: Option<Json>)
      requires Valid()
      ensures issue == Gate(env, View(), action, prior, target, cost)
    {
      if action == "finalize" { return Some(Issue("use_finalize_method", "$")); }
      var violation := BudgetViolation(env, counters, action, cost);
      if violation.Some? { return Some(Issue("budget_exhausted", violation.value)); }
      if status != Active { return Some(Issue("session_not_active", "$")); }
      var revision := trajectory.FindLastRevision();
      if prior.Some? && prior != revision { return Some(Issue("stale_revision", "$")); }
      if action == "rollback" {
        var ok := ValidateRollbackTarget(target);
        if !ok { return Some(Issue("invalid_rollback_target", "$")); }
      }
      return None;
    }

    /** Validate, execute and record one action. */
    method ApplyAction(action: string, payload: Doc, prior: Option<string>, givenTarget: Option<int>, cost: Option<int>)
      returns (response: Response)
      requires Valid()
      modifies this, trajectory
      ensures Valid()
      ensures (View(), response) == ApplyStep(env, old(View()), action, payload, prior, givenTarget, cost)
    {
      hide SessionOk, Projection, Gate, Reject, Accept;
      ApplyKeeps(env, View(), action, payload, prior, givenTarget, cost);
      var target := ResolveTarget(action, payload, givenTarget);
      if action == "" { return Unrecorded("missing_action"); }
      var issue := CheckGate(action, prior, target, cost);
      if issue.Some? {
        response := RecordRejected(action, payload, [issue.value]);
        return;
      }
      GateOpen(env, View(), action, prior, target, cost);
      var errors := env.kernel.validate(action, payload, state);
      if errors != [] {
        response := RecordRejected(action, payload, errors);
        return;
      }
      var pairs := trajectory.CollectPairs();
      var next := ProjectState(env, pairs, Some(Item(|trajectory.events| + 1, action, payload, target)));
      if next.Err? {
        response := RecordRejected(action, payload, [Issue("projection_failed", "$")]);
        return;
      }
      response := CommitAccepted(action, payload, target, Cost(action, cost), next.value);
    }

    /** The log first, then state, counters and status. */
    method CommitAccepted(action: string, payload: Doc, target: Option<int>, applied: int, next: Doc)
      returns (response: Response)
      requires Valid() && status == Active && action != "" && action != "finalize"
      requires action == "rollback" ==>
        target.Some? && Rollbackable(PairsOf(trajectory.events), RolledBackIn(PairsOf(trajectory.events)), target.value)
      requires Projection(env, LogItems(trajectory.events) + [Item(|trajectory.events| + 1, action, payload, target)])
        == Ok(next)
      modifies this, trajectory
      ensures Valid()
      ensures (View(), response) ==
              if target.Some? && action != "rollback" then (old(View()), Unrecorded("recording_failed"))
              else Accept(env, old(View()), action, payload, target, applied, next)
    {
      hide SessionOk, WellFormed, Projection, Rollbackable, LastRevision, LogItems;
      CommitReady(env, View(), action, payload, target, applied, next);
      var revision := env.digest(next);
      var prior := trajectory.FindLastRevision();
      var recorded := RecordAccepted(action, payload, target, revision, map["compute_cost" := Int(applied)]);
      if recorded.Err? { return Unrecorded("recording_failed"); }
      counters := NextCounters(env, counters, action, applied, next);
      state := next;
      MarkBudgetPartial();
      response := Done(recorded.value.sequence, revision, prior, applied, status == Partial);
    }

    /** Log the finalize pair, then take the status the evaluation earns within the budgets. */
    method RecordFinalize(raw: Evaluation) returns (response: Response)
      requires trajectory.Valid() && trajectory.digest == env.digest && |trajectory.events| % 2 == 0
      modifies this, trajectory
      ensures trajectory.Valid()
      ensures (View(), response) ==
              Finish(env, old(View()), raw, FinalizePayload(old(counters)), FinalizeMetadata(old(status)))
    {
      hide LastRevision, FinalizePayload, FinalizeMetadata, Exhausted, VerdictStatus, WellFormed;
      var projected := Counters(counters.actions + 1, counters.evaluations + 1,
                                counters.compute + DefaultCost("finalize"), counters.depth);
      var evaluation := raw;
      if Exhausted(env.budgets, projected) && evaluation.status == "certified" {
        evaluation := Evaluation("partial", evaluation.reasons + [BUDGET_NOTE]);
      }
      var recorded := RecordAccepted("finalize", FinalizePayload(counters), None, env.digest(state),
        FinalizeMetadata(status));
      frontier := Some(evaluation);
      status := VerdictStatus(evaluation.status);
      counters := projected;
      response := Finalized(recorded.value.sequence, evaluation, status);
    }

    /** Request a frontier evaluation and end the session; a no-op once it has ended. */
    method RequestFinalize() returns (response: Response)
      requires Valid()
      modifies this, trajectory
      ensures Valid()
      ensures (View(), response) == FinalizeStep(env, old(View()))
    {
      FinalizeKeeps(env, View());
      assert |trajectory.events| % 2 == 0;
      hide SessionOk, WellFormed, Finish;
      if status != Active { return NoOp; }
      var raw := env.kernel.evaluateFrontier(state);
      if raw.None? { return MalformedEvaluation; }
      response := RecordFinalize(raw.value);
    }

    /** Re-run the log in a sandbox and compare digests. */
    method Replay() returns (walk: Walk, verdict: Verdict)
      requires Valid()
      ensures walk == WalkLog(env, trajectory.events)
      ensures verdict == if walk.mismatches == [] then Match else Differing
    {
      var initial := env.kernel.initialState(env.question);
      var current: Doc := match initial case Ok(d) => d case Err(_) => map[];
      var matches: seq<nat> := [];
      var mismatches: seq<Mismatch> := [];
      var rolled := trajectory.RolledBackSequences();
      var pairs := trajectory.CollectPairs();
      var i := 0;
      var aborted := false;
      while i < |pairs| && !aborted
        invariant 0 <= i <= |pairs|
        invariant Walk(current, matches, mismatches, aborted) == WalkFrom(env, pairs[..i], rolled)
      {
        var p := pairs[i];
        WalkUnfold(env, pairs, i, rolled);
        i := i + 1;
        if p.res.status != Some(Accepted) { continue; }
        if p.act.sequence in rolled { continue; }
        var candidate;
        if IsControl(Name(p.act.action)) {
          candidate := ProjectState(env, pairs[..i], None);
          assert AcceptedItems(pairs[..i]) + [] == AcceptedItems(pairs[..i]);
        } else {
          candidate := env.kernel.execute(Name(p.act.action), OrEmpty(p.act.payload), current);
        }
        match candidate
        case Err(e) =>
          mismatches := mismatches + [Raised(p.act.sequence, e)];
          aborted := true;
        case Ok(c) =>
          var actual := env.digest(c);
          if Some(actual) == p.res.digestAfter {
            current := c;
            matches := matches + [p.act.sequence];
          } else {
            mismatches := mismatches + [Differs(p.act.sequence, p.res.digestAfter, actual)];
          }
      }
      AbortedStays(env, pairs, i, rolled);
      walk := Walk(current, matches, mismatches, aborted);
      verdict := if mismatches == [] then Match else Differing;
    }
  }

  lemma {:induction false} AbortedStays(env: Env, pairs: seq<Pair>, i: nat, rolled: set<int>)
    requires i <= |pairs| && (i == |pairs| || WalkFrom(env, pairs[..i], rolled).aborted)
    ensures WalkFrom(env, pairs, rolled) == WalkFrom(env, pairs[..i], rolled)
    decreases |pairs| - i
  {
    if i == |pairs| {
      assert pairs[..i] == pairs;
    } else {
      WalkUnfold(env, pairs, i, rolled);
      AbortedStays(env, pairs, i + 1, rolled);
    }
  }

  /** Open a session: the `start` action is recorded eagerly. */
  method Start(env: Env, metadata: Doc) returns (r: Result<AgentRuntime, string>)
    ensures r.Ok? <==> env.question != "" && env.sessionId != "" && env.kernel.initialState(env.question).Ok?
    ensures r.Ok? ==> fresh(r.value) && fresh(r.value.trajectory) && r.value.Valid() && r.value.env == env
    ensures r.Ok? ==> r.value.View() == Started(env, env.kernel.initialState(env.question).value, metadata)
  {
    if env.question == "" { return Err("question is required"); }
    if env.sessionId == "" { return Err("session_id is required"); }
    var trajectory := new Trajectory(env.sessionId, env.digest);
    var initial := env.kernel.initialState(env.question);
    if initial.Err? { return Err(initial.error); }
    StartedOk(env, metadata);
    hide SessionOk, LastRevision, StartPayload, WellFormed, Exhausted, ActionEvent, AcceptedEvent, MarkPartial,
         NewAction, NewOutcome;
    var runtime := new AgentRuntime(env, trajectory, initial.value, Counters(0, 0, 0, 0), Active, None);
    var recorded := runtime.RecordAccepted("start", StartPayload(env, metadata), None, env.digest(initial.value),
      START_METADATA);
    assert trajectory.events == [recorded.value, AcceptedEvent([], env.digest(initial.value), START_METADATA)];
    var counted := runtime.counters.(actions := runtime.counters.actions + 1);
    runtime.counters := counted.(compute := counted.compute + 1);
    runtime.MarkBudgetPartial();
    return Ok(runtime);
  }
}
