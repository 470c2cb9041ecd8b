/**
 What every request keeps: the in-memory state is the projection of the log, the log is
 faithful about it, budgets are accounted for, and a session that ended stays ended.
 */
module RuntimeInvariants {
  import opened Wrappers
  import opened Docs
  import opened Trajectories
  import opened Runtime

  predicate Survives(p: Pair) {
    p.res.status == Some(Accepted) && !IsControl(Name(p.act.action))
  }

  /** An accepted pair's recorded digest is that of the projection up to and including it. */
  ghost predicate FaithfulAt(env: Env, pairs: seq<Pair>, i: nat)
    requires i < |pairs|
  {
    pairs[i].res.status == Some(Accepted) ==>
      var p := Projection(env, AcceptedItems(pairs[..i + 1]));
      p.Ok? && pairs[i].res.digestAfter == Some(env.digest(p.value))
  }

  /** An accepted rollback names an earlier, accepted, then-live kernel action. */
  ghost predicate TargetAt(pairs: seq<Pair>, i: nat)
    requires i < |pairs|
  {
    pairs[i].res.status == Some(Accepted) && pairs[i].act.action == Some("rollback") ==>
      pairs[i].act.target.Some? && Rollbackable(pairs[..i], RolledBackIn(pairs[..i]), pairs[i].act.target.value)
  }

  ghost predicate PairsOk(env: Env, pairs: seq<Pair>) {
    && (forall i :: 0 <= i < |pairs| ==> pairs[i].act.sequence == 2 * i + 1)
    && (forall i :: 0 <= i < |pairs| ==> FaithfulAt(env, pairs, i) && TargetAt(pairs, i))
    && env.kernel.initialState(env.question).Ok?
  }

  ghost predicate EventsOk(env: Env, events: seq<Event>) {
    |events| % 2 == 0 && WellFormed(env.digest, events) && PriorChain(events)
  }

  /** The log and the state it stands for. */
  ghost predicate LogOk(env: Env, events: seq<Event>, state: Doc) {
    && EventsOk(env, events)
    && PairsOk(env, PairsOf(events))
    && Projection(env, LogItems(events)) == Ok(state)
  }

  function ChargedCost(p: Pair): int {
    if p.res.status != Some(Accepted) then 0
    else if "compute_cost" in p.res.metadata && p.res.metadata["compute_cost"].Int?
    then p.res.metadata["compute_cost"].n
    else if p.act.action == Some("finalize") then 5
    else 1
  }

  function TotalCost(pairs: seq<Pair>): int {
    if pairs == [] then 0 else TotalCost(pairs[..|pairs| - 1]) + ChargedCost(pairs[|pairs| - 1])
  }

  /** What holds between any two requests. */
  ghost predicate SessionOk(env: Env, s: Session) {
    && LogOk(env, s.events, s.state)
    && LastRevision(s.events) == Some(env.digest(s.state))
    && s.counters.actions == |PairsOf(s.events)|
    && s.counters.compute == TotalCost(PairsOf(s.events))
    && (s.status == Active ==>
          !Spent(s.counters.evaluations, env.budgets.maxEvaluations)
          && !Spent(s.counters.compute, env.budgets.maxCompute)
          && !Spent(s.counters.depth, env.budgets.maxDepth))
  }

  // --- projections of a growing log ---------------------------------------

  lemma {:induction false} AppendItems(pairs: seq<Pair>, p: Pair)
    ensures AcceptedItems(pairs + [p]) ==
            AcceptedItems(pairs) + if p.res.status == Some(Accepted) then [ItemOf(p)] else []
    ensures RolledBackIn(pairs + [p]) == RolledBackIn(pairs) + if AcceptedRollback(p) then {p.act.target.value} else {}
    ensures TotalCost(pairs + [p]) == TotalCost(pairs) + ChargedCost(p)
  {
    assert (pairs + [p])[..|pairs|] == pairs;
  }

  lemma {:induction false} AppendTargets(items: seq<Item>, x: Item)
    ensures Targets(items + [x]) == Targets(items) + TargetOf(x)
  {
    assert (items + [x])[..|items|] == items;
  }

  lemma {:induction false} TargetsAreRolledBack(pairs: seq<Pair>)
    ensures Targets(AcceptedItems(pairs)) == RolledBackIn(pairs)
  {
    if pairs == [] {
    } else {
      var front, last := pairs[..|pairs| - 1], pairs[|pairs| - 1];
      TargetsAreRolledBack(front);
      assert pairs == front + [last];
      AppendItems(front, last);
      if last.res.status == Some(Accepted) {
        AppendTargets(AcceptedItems(front), ItemOf(last));
        assert TargetOf(ItemOf(last)) == if AcceptedRollback(last) then {last.act.target.value} else {};
      } else {
        assert AcceptedItems(pairs) == AcceptedItems(front);
      }
    }
  }

  /** Everything an item list mentions lies before sequence `n`. */
  ghost predicate Below(items: seq<Item>, n: int) {
    forall i :: 0 <= i < |items| ==> items[i].sequence < n && forall t :: t in TargetOf(items[i]) ==> t < n
  }

  lemma {:induction false} BelowTargets(items: seq<Item>, n: int)
    requires Below(items, n)
    ensures forall t :: t in Targets(items) ==> t < n
  {
    if items == [] {
    } else {
      BelowTargets(items[..|items| - 1], n);
    }
  }

  lemma {:induction false} ItemsBelow(pairs: seq<Pair>, n: int)
    requires forall i :: 0 <= i < |pairs| ==> pairs[i].act.sequence < n
    requires forall i :: 0 <= i < |pairs| ==> AcceptedRollback(pairs[i]) ==> pairs[i].act.target.value < n
    ensures Below(AcceptedItems(pairs), n)
  {
    if pairs == [] {
    } else {
      ItemsBelow(pairs[..|pairs| - 1], n);
    }
  }

  /** Only the rolled-back sequences that occur in a list matter to its fold. */
  lemma {:induction false} FoldCongruence(env: Env, items: seq<Item>, r: set<int>, r': set<int>)
    requires forall i :: 0 <= i < |items| ==> (items[i].sequence in r <==> items[i].sequence in r')
    ensures Fold(env, items, r) == Fold(env, items, r')
  {
    if items == [] {
    } else {
      FoldCongruence(env, items[..|items| - 1], r, r');
    }
  }

  /** A new item that rolls nothing back costs one step; a control item costs none. */
  lemma {:induction false} ProjectionStep(env: Env, items: seq<Item>, x: Item)
    requires Below(items, x.sequence) && TargetOf(x) == {}
    ensures Projection(env, items + [x]) ==
            if Projection(env, items).Err? || IsControl(x.action) then Projection(env, items)
            else env.kernel.execute(x.action, x.payload, Projection(env, items).value)
  {
    AppendTargets(items, x);
    BelowTargets(items, x.sequence);
    assert (items + [x])[..|items|] == items;
    assert Targets(items + [x]) == Targets(items);
  }

  lemma {:induction false} LogBelow(env: Env, pairs: seq<Pair>)
    requires PairsOk(env, pairs)
    ensures Below(AcceptedItems(pairs), 2 * |pairs| + 1)
  {
    forall i | 0 <= i < |pairs| && AcceptedRollback(pairs[i])
      ensures pairs[i].act.target.value < 2 * |pairs| + 1
    {
      assert TargetAt(pairs, i);
    }
    ItemsBelow(pairs, 2 * |pairs| + 1);
  }

  lemma {:induction false} PrefixOk(env: Env, pairs: seq<Pair>, n: nat)
    requires PairsOk(env, pairs) && n <= |pairs|
    ensures PairsOk(env, pairs[..n])
  {
    var front := pairs[..n];
    forall i | 0 <= i < n ensures FaithfulAt(env, front, i) && TargetAt(front, i) {
      assert front[..i + 1] == pairs[..i + 1] && front[..i] == pairs[..i];
      assert FaithfulAt(env, pairs, i) && TargetAt(pairs, i);
    }
  }

  lemma {:induction false} PairsExtend(env: Env, pairs: seq<Pair>, p: Pair)
    requires PairsOk(env, pairs) && p.act.sequence == 2 * |pairs| + 1
    requires FaithfulAt(env, pairs + [p], |pairs|) && TargetAt(pairs + [p], |pairs|)
    ensures PairsOk(env, pairs + [p])
  {
    var all := pairs + [p];
    forall i | 0 <= i < |all| ensures FaithfulAt(env, all, i) && TargetAt(all, i) {
      if i < |pairs| {
        assert all[..i + 1] == pairs[..i + 1] && all[..i] == pairs[..i];
        assert FaithfulAt(env, pairs, i) && TargetAt(pairs, i);
      }
    }
  }

  // --- each way a request can extend the log --------------------------------

  lemma {:induction false} ActionEventOk(env: Env, events: seq<Event>, action: string, payload: Doc,
                                         target: Option<int>)
    requires |events| % 2 == 0 && action != ""
    requires target.Some? ==> action == "rollback" && 1 <= target.value <= |events|
    ensures EventOk(env.digest, events + [ActionEvent(env, events, action, payload, target)], |events|)
  {
  }

  lemma {:induction false} RejectedEventOk(env: Env, events: seq<Event>, a: Event, issues: seq<Json>)
    requires |events| % 2 == 0 && a.prior == LastRevision(events)
    ensures EventOk(env.digest, events + [a] + [RejectedEvent(events, issues)], |events| + 1)
  {
    var error: Doc := map["issues" := Arr(issues)];
    assert "issues" in error && error != map[];
  }

  lemma {:induction false} AcceptedEventOk(env: Env, events: seq<Event>, a: Event, revision: string, metadata: Doc)
    requires |events| % 2 == 0 && a.prior == LastRevision(events)
    ensures EventOk(env.digest, events + [a] + [AcceptedEvent(events, revision, metadata)], |events| + 1)
  {
  }

  lemma {:induction false} EventsExtend(env: Env, events: seq<Event>, a: Event, r: Event)
    requires |events| % 2 == 0 && WellFormed(env.digest, events) && PriorChain(events)
    requires EventOk(env.digest, events + [a], |events|) && a.prior == LastRevision(events)
    requires EventOk(env.digest, events + [a] + [r], |events| + 1) && r.kind == Outcome
    ensures WellFormed(env.digest, events + [a, r]) && PriorChain(events + [a, r])
  {
    WellFormedAppend(env.digest, events, a);
    WellFormedAppend(env.digest, events + [a], r);
    ChainAppend(events, a);
    ChainAppend(events + [a], r);
    assert events + [a] + [r] == events + [a, r];
  }

  /** The event layer of recording a rejected action. */
  lemma {:induction false} RejectedEvents(env: Env, events: seq<Event>, action: string, payload: Doc, issues: seq<Json>)
    requires EventsOk(env, events) && action != ""
    ensures
      var a, r := ActionEvent(env, events, action, payload, None), RejectedEvent(events, issues);
      && EventsOk(env, events + [a, r])
      && PairsOf(events + [a, r]) == PairsOf(events) + [Pair(a, r)]
      && LastRevision(events + [a, r]) == LastRevision(events)
  {
    var a, r := ActionEvent(env, events, action, payload, None), RejectedEvent(events, issues);
    ActionEventOk(env, events, action, payload, None);
    RejectedEventOk(env, events, a, issues);
    EventsExtend(env, events, a, r);
    AppendPair(events, a, r);
    RevisionAfterPair(events, a, r);
  }

  /** The event layer of recording an accepted action. */
  lemma {:induction false} AcceptedEvents(env: Env, events: seq<Event>, action: string, payload: Doc,
                                          target: Option<int>,
                       revision: string, metadata: Doc)
    requires EventsOk(env, events) && action != ""
    requires target.Some? ==> action == "rollback" && 1 <= target.value <= |events|
    ensures
      var a, r := ActionEvent(env, events, action, payload, target), AcceptedEvent(events, revision, metadata);
      && EventsOk(env, events + [a, r])
      && PairsOf(events + [a, r]) == PairsOf(events) + [Pair(a, r)]
      && LastRevision(events + [a, r]) == Some(revision)
  {
    var a, r := ActionEvent(env, events, action, payload, target), AcceptedEvent(events, revision, metadata);
    ActionEventOk(env, events, action, payload, target);
    AcceptedEventOk(env, events, a, revision, metadata);
    EventsExtend(env, events, a, r);
    AppendPair(events, a, r);
    RevisionAfterPair(events, a, r);
  }

  lemma {:induction false} RejectKeeps(env: Env, s: Session, action: string, payload: Doc, issues: seq<Json>)
    requires SessionOk(env, s) && action != ""
    ensures SessionOk(env, Reject(env, s, action, payload, issues).0)
    ensures LogItems(Reject(env, s, action, payload, issues).0.events) == LogItems(s.events)
  {
    var a, r := ActionEvent(env, s.events, action, payload, None), RejectedEvent(s.events, issues);
    RejectedEvents(env, s.events, action, payload, issues);
    RejectedPair(env, PairsOf(s.events), Pair(a, r));
    AppendPair(s.events, a, r);
  }

  lemma {:induction false} RejectedPair(env: Env, pairs: seq<Pair>, p: Pair)
    requires PairsOk(env, pairs) && p.act.sequence == 2 * |pairs| + 1 && p.res.status == Some(Rejected)
    ensures PairsOk(env, pairs + [p])
    ensures AcceptedItems(pairs + [p]) == AcceptedItems(pairs) && TotalCost(pairs + [p]) == TotalCost(pairs)
  {
    AppendItems(pairs, p);
    PairsExtend(env, pairs, p);
  }

  lemma {:induction false} AcceptedPair(env: Env, pairs: seq<Pair>, p: Pair, state: Doc)
    requires PairsOk(env, pairs) && p.act.sequence == 2 * |pairs| + 1
    requires p.res.status == Some(Accepted) && p.res.digestAfter == Some(env.digest(state))
    requires Projection(env, AcceptedItems(pairs) + [ItemOf(p)]) == Ok(state)
    requires p.act.action == Some("rollback") ==>
      p.act.target.Some? && Rollbackable(pairs, RolledBackIn(pairs), p.act.target.value)
    ensures PairsOk(env, pairs + [p])
    ensures AcceptedItems(pairs + [p]) == AcceptedItems(pairs) + [ItemOf(p)]
    ensures TotalCost(pairs + [p]) == TotalCost(pairs) + ChargedCost(p)
  {
    AppendItems(pairs, p);
    assert (pairs + [p])[..|pairs| + 1] == pairs + [p] && (pairs + [p])[..|pairs|] == pairs;
    PairsExtend(env, pairs, p);
  }

  lemma {:induction false} TargetInLog(env: Env, events: seq<Event>, t: int)
    requires EventsOk(env, events) && PairsOk(env, PairsOf(events))
    requires Rollbackable(PairsOf(events), RolledBackIn(PairsOf(events)), t)
    ensures 1 <= t <= |events|
  {
    var pairs := PairsOf(events);
    var i :| 0 <= i < |pairs| && pairs[i].act.sequence == t;
    assert t == 2 * i + 1;
  }

  /** Recording an accepted action together with the projection it leads to. */
  lemma {:induction false} AcceptedLogOk(env: Env, events: seq<Event>, action: string, payload: Doc,
                                         target: Option<int>, metadata: Doc,
                      state: Doc)
    requires EventsOk(env, events) && PairsOk(env, PairsOf(events))
    requires action != "" && (target.Some? ==> action == "rollback")
    requires Projection(env, LogItems(events) + [Item(|events| + 1, action, payload, target)]) == Ok(state)
    requires action == "rollback" ==>
      target.Some? && Rollbackable(PairsOf(events), RolledBackIn(PairsOf(events)), target.value)
    ensures
      var a, r := ActionEvent(env, events, action, payload, target), AcceptedEvent(events, env.digest(state), metadata);
      && LogOk(env, events + [a, r], state)
      && PairsOf(events + [a, r]) == PairsOf(events) + [Pair(a, r)]
      && TotalCost(PairsOf(events + [a, r])) == TotalCost(PairsOf(events)) + ChargedCost(Pair(a, r))
      && LastRevision(events + [a, r]) == Some(env.digest(state))
  {
    var a, r := ActionEvent(env, events, action, payload, target), AcceptedEvent(events, env.digest(state), metadata);
    if target.Some? { TargetInLog(env, events, target.value); }
    AppendPair(events, a, r);
    AcceptedEvents(env, events, action, payload, target, env.digest(state), metadata);
    AcceptedPair(env, PairsOf(events), Pair(a, r), state);
  }

  lemma {:induction false} ChargedAction(a: Event, events: seq<Event>, revision: string, cost: int)
    ensures ChargedCost(Pair(a, AcceptedEvent(events, revision, map["compute_cost" := Int(cost)]))) == cost
  {
  }

  lemma {:induction false} ChargedControl(a: Event, events: seq<Event>, revision: string, metadata: Doc)
    requires "compute_cost" !in metadata
    ensures ChargedCost(Pair(a, AcceptedEvent(events, revision, metadata)))
         == if a.action == Some("finalize") then 5 else 1
  {
  }

  lemma {:induction false} AcceptKeeps(env: Env, s: Session, action: string, payload: Doc, target: Option<int>,
                                       cost: int, state: Doc)
    requires SessionOk(env, s) && s.status == Active && action != "" && action != "finalize"
    requires Projection(env, LogItems(s.events) + [Item(|s.events| + 1, action, payload, target)]) == Ok(state)
    requires target.Some? ==> action == "rollback"
    requires action == "rollback" ==>
      target.Some? && Rollbackable(PairsOf(s.events), RolledBackIn(PairsOf(s.events)), target.value)
    ensures SessionOk(env, Accept(env, s, action, payload, target, cost, state).0)
  {
    hide Projection, LogItems, EventsOk, PairsOk, PairsOf, Rollbackable, LastRevision, ActionEvent, AcceptedEvent,
         ChargedCost;
    var metadata: Doc := map["compute_cost" := Int(cost)];
    AcceptedLogOk(env, s.events, action, payload, target, metadata, state);
    ChargedAction(ActionEvent(env, s.events, action, payload, target), s.events, env.digest(state), cost);
  }

  /** Recording a control action that rolls nothing back leaves the projection alone. */
  lemma {:induction false} ControlProjection(env: Env, events: seq<Event>, action: string, payload: Doc)
    requires |events| % 2 == 0 && PairsOk(env, PairsOf(events)) && IsControl(action) && action != "rollback"
    ensures Projection(env, LogItems(events) + [Item(|events| + 1, action, payload, None)])
      == Projection(env, LogItems(events))
  {
    LogBelow(env, PairsOf(events));
    PairCount(events);
    ProjectionStep(env, LogItems(events), Item(|events| + 1, action, payload, None));
  }

  lemma {:induction false} FinishKeeps(env: Env, s: Session, raw: Evaluation, payload: Doc, metadata: Doc)
    requires SessionOk(env, s) && "compute_cost" !in metadata
    ensures SessionOk(env, Finish(env, s, raw, payload, metadata).0)
  {
    ControlProjection(env, s.events, "finalize", payload);
    hide Projection, LogItems, PairsOf, LastRevision, AcceptedEvent, ChargedCost;
    AcceptedLogOk(env, s.events, "finalize", payload, None, metadata, s.state);
    ChargedControl(ActionEvent(env, s.events, "finalize", payload, None), s.events, env.digest(s.state), metadata);
  }

  lemma {:induction false} FinalizeKeeps(env: Env, s: Session)
    requires SessionOk(env, s)
    ensures SessionOk(env, FinalizeStep(env, s).0)
  {
    if s.status == Active && env.kernel.evaluateFrontier(s.state).Some? {
      assert "compute_cost" !in FinalizeMetadata(s.status);
      FinishKeeps(env, s, env.kernel.evaluateFrontier(s.state).value, FinalizePayload(s.counters),
        FinalizeMetadata(s.status));
    }
  }

  lemma {:induction false} ApplyKeeps(env: Env, s: Session, action: string, payload: Doc, prior: Option<string>,
                                      target: Option<int>,
                   cost: Option<int>)
    requires SessionOk(env, s)
    ensures SessionOk(env, ApplyStep(env, s, action, payload, prior, target, cost).0)
  {
    hide SessionOk, Projection, Reject, Accept;
    var t := ResolveTarget(action, payload, target);
    if action != "" {
      var gate := Gate(env, s, action, prior, t, cost);
      if gate.Some? {
        RejectKeeps(env, s, action, payload, [gate.value]);
      } else {
        var errors := env.kernel.validate(action, payload, s.state);
        var next := Projection(env, LogItems(s.events) + [Item(|s.events| + 1, action, payload, t)]);
        if errors != [] {
          RejectKeeps(env, s, action, payload, errors);
        } else if next.Err? {
          RejectKeeps(env, s, action, payload, [Issue("projection_failed", "$")]);
        } else if t.None? || action == "rollback" {
          AcceptKeeps(env, s, action, payload, t, Cost(action, cost), next.value);
        }
      }
    }
  }

  lemma {:induction false} StepKeeps(env: Env, s: Session, r: Request)
    requires SessionOk(env, s)
    ensures SessionOk(env, Step(env, s, r))
  {
    match r
    case Apply(action, payload, prior, target, cost) => ApplyKeeps(env, s, action, payload, prior, target, cost);
    case Finalize => FinalizeKeeps(env, s);
  }

  lemma {:induction false} StartLogOk(env: Env, initial: Doc, payload: Doc, metadata: Doc)
    requires env.kernel.initialState(env.question) == Ok(initial) && "compute_cost" !in metadata
    ensures
      var events := [ActionEvent(env, [], "start", payload, None), AcceptedEvent([], env.digest(initial), metadata)];
      && LogOk(env, events, initial) && LastRevision(events) == Some(env.digest(initial))
      && |PairsOf(events)| == 1 && TotalCost(PairsOf(events)) == 1
  {
    assert PairsOk(env, PairsOf([])) && Projection(env, LogItems([])) == Ok(initial);
    ControlProjection(env, [], "start", payload);
    AcceptedLogOk(env, [], "start", payload, None, metadata, initial);
    var a, r := ActionEvent(env, [], "start", payload, None), AcceptedEvent([], env.digest(initial), metadata);
    assert [] + [a, r] == [a, r];
    ChargedControl(a, [], env.digest(initial), metadata);
  }

  lemma {:induction false} StartedOk(env: Env, metadata: Doc)
    requires env.kernel.initialState(env.question).Ok?
    ensures SessionOk(env, Started(env, env.kernel.initialState(env.question).value, metadata))
  {
    assert "compute_cost" !in START_METADATA;
    StartLogOk(env, env.kernel.initialState(env.question).value, StartPayload(env, metadata), START_METADATA);
  }

  lemma {:induction false} RunKeeps(env: Env, s: Session, requests: seq<Request>)
    requires SessionOk(env, s)
    ensures SessionOk(env, Run(env, s, requests))
  {
    if requests == [] {
    } else {
      RunKeeps(env, s, requests[..|requests| - 1]);
      StepKeeps(env, Run(env, s, requests[..|requests| - 1]), requests[|requests| - 1]);
    }
  }

  // --- main results over every run -------------------------------------------

  /** State is always the projection: after any run, the in-memory state is the fold of the
      accepted, not-rolled-back actions of the whole log, its digest is the log's last revision,
      every pair is counted and every cost is charged. */
  lemma {:induction false} StateIsProjection(env: Env, s: Session)
    requires Reachable(env, s)
    ensures SessionOk(env, s)
  {
    var metadata, requests :| ReachableBy(env, s, metadata, requests);
    StartedOk(env, metadata);
    RunKeeps(env, Started(env, env.kernel.initialState(env.question).value, metadata), requests);
  }

  /** For a kernel action, re-projecting the whole log is one kernel step on the current state. */
  lemma {:induction false} ReprojectionIsOneStep(env: Env, s: Session, action: string, payload: Doc)
    requires SessionOk(env, s) && !IsControl(action)
    ensures Projection(env, LogItems(s.events) + [Item(|s.events| + 1, action, payload, None)]) ==
            env.kernel.execute(action, payload, s.state)
  {
    LogBelow(env, PairsOf(s.events));
    ProjectionStep(env, LogItems(s.events), Item(|s.events| + 1, action, payload, None));
  }

  /** A rollback that targets the latest item drops exactly that item from the projection. */
  lemma {:induction false} UndoLatest(env: Env, items: seq<Item>, x: Item, y: Item)
    requires Below(items, x.sequence) && !IsControl(x.action)
    requires y.action == "rollback" && y.target == Some(x.sequence)
    ensures Projection(env, items + [x] + [y]) == Projection(env, items)
  {
    var rolled := Targets(items) + {x.sequence};
    AppendTargets(items, x);
    AppendTargets(items + [x], y);
    assert Targets(items + [x] + [y]) == rolled;
    assert (items + [x] + [y])[..|items| + 1] == items + [x] && (items + [x])[..|items|] == items;
    assert Fold(env, items + [x] + [y], rolled) == Fold(env, items + [x], rolled);
    assert Fold(env, items + [x], rolled) == Fold(env, items, rolled);
    BelowTargets(items, x.sequence);
    FoldCongruence(env, items, rolled, Targets(items));
  }

  lemma {:induction false} ItemsAfterAccept(env: Env, s: Session, action: string, payload: Doc, cost: int, state: Doc)
    requires |s.events| % 2 == 0
    ensures LogItems(Accept(env, s, action, payload, None, cost, state).0.events) ==
            LogItems(s.events) + [Item(|s.events| + 1, action, payload, None)]
  {
    var a := ActionEvent(env, s.events, action, payload, None);
    var r := AcceptedEvent(s.events, env.digest(state), map["compute_cost" := Int(cost)]);
    AppendPair(s.events, a, r);
    hide AcceptedItems, LastRevision;
    AppendItems(PairsOf(s.events), Pair(a, r));
  }

  /** Rolling back the action just accepted projects back to the state it started from. */
  lemma {:induction false} RollbackUndoes(env: Env, s: Session, action: string, payload: Doc, cost: int, state: Doc,
                                          undo: Doc)
    requires SessionOk(env, s) && !IsControl(action) && action != ""
    requires env.kernel.execute(action, payload, s.state) == Ok(state)
    ensures
      var s1 := Accept(env, s, action, payload, None, cost, state).0;
      var y := Item(|s1.events| + 1, "rollback", undo, Some(|s.events| + 1));
      Projection(env, LogItems(s1.events) + [y]) == Ok(s.state)
  {
    LogBelow(env, PairsOf(s.events));
    PairCount(s.events);
    ItemsAfterAccept(env, s, action, payload, cost, state);
    hide IsControl, Projection, Accept, AcceptedItems, LastRevision, WellFormed, PairsOk;
    var n := |Accept(env, s, action, payload, None, cost, state).0.events|;
    UndoLatest(env, LogItems(s.events), Item(|s.events| + 1, action, payload, None),
               Item(n + 1, "rollback", undo, Some(|s.events| + 1)));
  }

  lemma {:induction false} ApplyNeverCertifies(env: Env, s: Session, action: string, payload: Doc,
                                               prior: Option<string>, target: Option<int>, cost: Option<int>)
    ensures ApplyStep(env, s, action, payload, prior, target, cost).0.status == Certified ==> s.status == Certified
  {
    hide Projection, Gate;
  }

  /** `certified` is entered only by finalize, and only when the counters it leaves behind are
      strictly inside every configured budget. */
  lemma {:induction false} CertifiedIsEarned(env: Env, s: Session, r: Request)
    requires s.status != Certified && Step(env, s, r).status == Certified
    ensures r == Finalize && s.status == Active
    ensures !Exhausted(env.budgets, Step(env, s, r).counters)
    ensures env.kernel.evaluateFrontier(s.state).Some?
            && env.kernel.evaluateFrontier(s.state).value.status == "certified"
  {
    hide ApplyStep, Exhausted;
    if r.Apply? {
      ApplyNeverCertifies(env, s, r.action, r.payload, r.prior, r.target, r.cost);
    }
  }

  /** Once a session is not active its status, state, revision and every counter but `actions`
      are frozen, and the log grows only by rejected pairs. */
  lemma {:induction false} TerminalStepFrozen(env: Env, s: Session, r: Request)
    requires SessionOk(env, s) && s.status != Active
    ensures
      var s' := Step(env, s, r);
      && s'.status == s.status && s'.state == s.state && s'.frontier == s.frontier
      && LastRevision(s'.events) == LastRevision(s.events)
      && s'.counters.(actions := 0) == s.counters.(actions := 0)
      && (s'.events == s.events || exists a, x :: s'.events == s.events + [a, x] && x.status == Some(Rejected))
  {
    if r.Apply? && r.action != "" {
      var gate := Gate(env, s, r.action, r.prior, ResolveTarget(r.action, r.payload, r.target), r.cost);
      assert gate.Some?;
      RejectKeeps(env, s, r.action, r.payload, [gate.value]);
      assert Step(env, s, r) == Reject(env, s, r.action, r.payload, [gate.value]).0;
      var a, x := ActionEvent(env, s.events, r.action, r.payload, None), RejectedEvent(s.events, [gate.value]);
      assert Step(env, s, r).events == s.events + [a, x] && x.status == Some(Rejected);
    }
  }

  lemma {:induction false} TerminalRunFrozen(env: Env, s: Session, requests: seq<Request>)
    requires SessionOk(env, s) && s.status != Active
    ensures
      var s' := Run(env, s, requests);
      && s'.status == s.status && s'.state == s.state && s'.frontier == s.frontier
      && LastRevision(s'.events) == LastRevision(s.events)
      && s'.counters.(actions := 0) == s.counters.(actions := 0)
      && LogItems(s'.events) == LogItems(s.events)
  {
    if requests == [] {
    } else {
      var front, last := requests[..|requests| - 1], requests[|requests| - 1];
      TerminalRunFrozen(env, s, front);
      RunKeeps(env, s, front);
      var m := Run(env, s, front);
      TerminalStepFrozen(env, m, last);
      if Step(env, m, last).events != m.events {
        var a, x :| Step(env, m, last).events == m.events + [a, x] && x.status == Some(Rejected);
        AppendPair(m.events, a, x);
        AppendItems(PairsOf(m.events), Pair(a, x));
      }
    }
  }
}
