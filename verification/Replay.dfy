/**
 Re-running a log through the kernel: what `replay` reconstructs, and exactly when its
 verdict is "match".
 */
module Replays {
  import opened Wrappers
  import opened Docs
  import opened Trajectories
  import opened Runtime
  import opened RuntimeInvariants

  datatype Mismatch =
    | Raised(sequence: nat, error: string)
    | Differs(sequence: nat, expected: Option<string>, actual: string)

  /** The loop state of `replay`; `aborted` once the kernel has raised. */
  datatype Walk = Walk(state: Doc, matches: seq<nat>, mismatches: seq<Mismatch>, aborted: bool)

  function WalkStart(env: Env): Walk {
    Walk(match env.kernel.initialState(env.question) case Ok(d) => d case Err(_) => map[], [], [], false)
  }

  /** What replay believes the state after `p` to be: control pairs re-project the log so far. */
  function Candidate(env: Env, before: seq<Pair>, state: Doc, p: Pair): Result<Doc, string> {
    if IsControl(Name(p.act.action)) then Projection(env, AcceptedItems(before + [p]))
    else env.kernel.execute(Name(p.act.action), OrEmpty(p.act.payload), state)
  }

  /** One turn of the loop over all pairs; `rolled` is collected from the whole log beforehand. */
  function WalkStep(env: Env, before: seq<Pair>, w: Walk, p: Pair, rolled: set<int>): Walk {
    if w.aborted || p.res.status != Some(Accepted) || p.act.sequence in rolled then w
    else
      match Candidate(env, before, w.state, p)
      case Err(e) => w.(mismatches := w.mismatches + [Raised(p.act.sequence, e)], aborted := true)
      case Ok(candidate) =>
        if Some(env.digest(candidate)) == p.res.digestAfter
        then w.(state := candidate, matches := w.matches + [p.act.sequence])
        else w.(mismatches := w.mismatches + [Differs(p.act.sequence, p.res.digestAfter, env.digest(candidate))])
  }

  function WalkFrom(env: Env, pairs: seq<Pair>, rolled: set<int>): Walk {
    if pairs == [] then WalkStart(env)
    else
      var n := |pairs| - 1;
      WalkStep(env, pairs[..n], WalkFrom(env, pairs[..n], rolled), pairs[n], rolled)
  }

  function WalkLog(env: Env, events: seq<Event>): Walk {
    WalkFrom(env, PairsOf(events), RolledBackIn(PairsOf(events)))
  }

  // --- facts about a faithful log ----------------------------------------------

  lemma {:induction false} RolledMonotone(pairs: seq<Pair>, i: nat, j: nat)
    requires i <= j <= |pairs|
    ensures RolledBackIn(pairs[..i]) <= RolledBackIn(pairs[..j])
    decreases j - i
  {
    if i == j {
    } else {
      RolledMonotone(pairs, i, j - 1);
      assert pairs[..j][..j - 1] == pairs[..j - 1];
    }
  }

  lemma {:induction false} RolledOnceNamed(pairs: seq<Pair>, i: nat)
    requires i < |pairs| && AcceptedRollback(pairs[i])
    ensures pairs[i].act.target.value in RolledBackIn(pairs)
  {
    assert pairs[..i + 1][..i] == pairs[..i];
    RolledMonotone(pairs, i + 1, |pairs|);
    assert pairs[..|pairs|] == pairs;
  }

  /** Where a rolled-back sequence comes from. */
  lemma {:induction false} RolledBy(pairs: seq<Pair>, t: int) returns (k: nat)
    requires t in RolledBackIn(pairs)
    ensures k < |pairs| && AcceptedRollback(pairs[k]) && pairs[k].act.target.value == t
  {
    var n := |pairs| - 1;
    if AcceptedRollback(pairs[n]) && pairs[n].act.target.value == t {
      k := n;
    } else {
      k := RolledBy(pairs[..n], t);
    }
  }

  /** Rollbacks reach only kernel actions recorded before them. */
  lemma {:induction false} RolledIsEarlierAction(env: Env, pairs: seq<Pair>, t: int) returns (j: nat)
    requires PairsOk(env, pairs) && t in RolledBackIn(pairs)
    ensures j < |pairs| && pairs[j].act.sequence == t && Survives(pairs[j])
  {
    var k := RolledBy(pairs, t);
    assert TargetAt(pairs, k);
    j :| 0 <= j < k && pairs[..k][j].act.sequence == t && pairs[..k][j].res.status == Some(Accepted)
         && !IsControl(Name(pairs[..k][j].act.action));
  }

  lemma {:induction false} ControlNeverRolledBack(env: Env, pairs: seq<Pair>, i: nat)
    requires PairsOk(env, pairs) && i < |pairs| && IsControl(Name(pairs[i].act.action))
    ensures pairs[i].act.sequence !in RolledBackIn(pairs)
  {
    if pairs[i].act.sequence in RolledBackIn(pairs) {
      var j := RolledIsEarlierAction(env, pairs, pairs[i].act.sequence);
      assert false;
    }
  }

  /** The projection of one more accepted kernel action. */
  lemma {:induction false} ExtendProjection(env: Env, pairs: seq<Pair>, i: nat)
    requires PairsOk(env, pairs) && i < |pairs| && Survives(pairs[i])
    requires Projection(env, AcceptedItems(pairs[..i])).Ok?
    ensures Projection(env, AcceptedItems(pairs[..i + 1])) ==
            env.kernel.execute(Name(pairs[i].act.action), OrEmpty(pairs[i].act.payload),
                               Projection(env, AcceptedItems(pairs[..i])).value)
  {
    PrefixOk(env, pairs, i);
    LogBelow(env, pairs[..i]);
    assert pairs[..i + 1] == pairs[..i] + [pairs[i]];
    AppendItems(pairs[..i], pairs[i]);
    ProjectionStep(env, AcceptedItems(pairs[..i]), ItemOf(pairs[i]));
  }

  lemma {:induction false} RejectedProjection(pairs: seq<Pair>, i: nat)
    requires i < |pairs| && pairs[i].res.status != Some(Accepted)
    ensures AcceptedItems(pairs[..i + 1]) == AcceptedItems(pairs[..i])
    ensures RolledBackIn(pairs[..i + 1]) == RolledBackIn(pairs[..i])
  {
    assert pairs[..i + 1] == pairs[..i] + [pairs[i]];
    AppendItems(pairs[..i], pairs[i]);
  }

  lemma {:induction false} WalkUnfold(env: Env, pairs: seq<Pair>, i: nat, rolled: set<int>)
    requires i < |pairs|
    ensures WalkFrom(env, pairs[..i + 1], rolled) ==
            WalkStep(env, pairs[..i], WalkFrom(env, pairs[..i], rolled), pairs[i], rolled)
    ensures pairs[..i] + [pairs[i]] == pairs[..i + 1]
  {
    assert pairs[..i + 1][..i] == pairs[..i];
  }

  lemma {:induction false} RecordedAt(env: Env, pairs: seq<Pair>, i: nat)
    requires PairsOk(env, pairs) && i < |pairs| && pairs[i].res.status == Some(Accepted)
    ensures var p := Projection(env, AcceptedItems(pairs[..i + 1]));
      p.Ok? && pairs[i].res.digestAfter == Some(env.digest(p.value))
  {
    assert FaithfulAt(env, pairs, i);
    hide Projection, AcceptedItems;
  }

  /** A control pair always re-projects to what was recorded. */
  lemma {:induction false} ControlStepMatches(env: Env, pairs: seq<Pair>, i: nat, w: Walk, rolled: set<int>)
    requires PairsOk(env, pairs) && i < |pairs| && IsControl(Name(pairs[i].act.action))
    requires pairs[i].res.status == Some(Accepted) && pairs[i].act.sequence !in rolled && !w.aborted
    ensures
      var p := Projection(env, AcceptedItems(pairs[..i + 1]));
      p.Ok? && WalkStep(env, pairs[..i], w, pairs[i], rolled)
               == w.(state := p.value, matches := w.matches + [pairs[i].act.sequence])
  {
    hide PairsOk, Projection, AcceptedItems;
    RecordedAt(env, pairs, i);
    assert pairs[..i] + [pairs[i]] == pairs[..i + 1];
  }

  /** Run on the true state so far, a kernel action reproduces what was recorded. */
  lemma {:induction false} ActionStepMatches(env: Env, pairs: seq<Pair>, i: nat, w: Walk, rolled: set<int>)
    requires PairsOk(env, pairs) && i < |pairs| && Survives(pairs[i])
    requires pairs[i].act.sequence !in rolled && !w.aborted
    requires Projection(env, AcceptedItems(pairs[..i])) == Ok(w.state)
    ensures
      var p := Projection(env, AcceptedItems(pairs[..i + 1]));
      p.Ok? && WalkStep(env, pairs[..i], w, pairs[i], rolled)
               == w.(state := p.value, matches := w.matches + [pairs[i].act.sequence])
  {
    ExtendProjection(env, pairs, i);
    assert FaithfulAt(env, pairs, i);
  }

  // --- the reconstructed state ---------------------------------------------------

  /** Once every rollback of the whole log lies behind, the walk stands on the projection. */
  lemma {:induction false} WalkOnProjection(env: Env, pairs: seq<Pair>, i: nat)
    requires PairsOk(env, pairs) && i <= |pairs|
    requires !WalkFrom(env, pairs[..i], RolledBackIn(pairs)).aborted
    requires RolledBackIn(pairs[..i]) == RolledBackIn(pairs)
    ensures Projection(env, AcceptedItems(pairs[..i])) == Ok(WalkFrom(env, pairs[..i], RolledBackIn(pairs)).state)
  {
    if i == 0 {
    } else {
      var rolled := RolledBackIn(pairs);
      var before, p := pairs[..i - 1], pairs[i - 1];
      var w := WalkFrom(env, before, rolled);
      WalkUnfold(env, pairs, i - 1, rolled);
      if p.res.status != Some(Accepted) {
        RejectedProjection(pairs, i - 1);
        WalkOnProjection(env, pairs, i - 1);
      } else if IsControl(Name(p.act.action)) {
        ControlNeverRolledBack(env, pairs, i - 1);
        ControlStepMatches(env, pairs, i - 1, w, rolled);
      } else {
        assert pairs[..i] == before + [p];
        AppendItems(before, p);
        WalkOnProjection(env, pairs, i - 1);
        NotYetRolledBack(env, pairs, i - 1);
        ActionStepMatches(env, pairs, i - 1, w, rolled);
      }
    }
  }

  lemma {:induction false} NotYetRolledBack(env: Env, pairs: seq<Pair>, i: nat)
    requires PairsOk(env, pairs) && i < |pairs|
    ensures pairs[i].act.sequence !in RolledBackIn(pairs[..i])
  {
    PrefixOk(env, pairs, i);
    if pairs[i].act.sequence in RolledBackIn(pairs[..i]) {
      var j := RolledIsEarlierAction(env, pairs[..i], pairs[i].act.sequence);
      assert false;
    }
  }

  /** Replay reconstructs the live state, in whatever order actions were rolled back, unless the
      kernel raised while it was re-run. */
  lemma {:induction false} ReplayReconstructsState(env: Env, s: Session)
    requires SessionOk(env, s)
    ensures WalkLog(env, s.events).aborted || WalkLog(env, s.events).state == s.state
  {
    if !WalkLog(env, s.events).aborted {
      var pairs := PairsOf(s.events);
      assert pairs[..|pairs|] == pairs;
      WalkOnProjection(env, pairs, |pairs|);
    }
  }

  ghost predicate NeverRaises(k: Kernel) {
    forall action, payload, state :: k.execute(action, payload, state).Ok?
  }

  lemma {:induction false} FoldNeverRaises(env: Env, items: seq<Item>, rolled: set<int>)
    requires NeverRaises(env.kernel) && env.kernel.initialState(env.question).Ok?
    ensures Fold(env, items, rolled).Ok?
  {
    if items == [] {
    } else {
      FoldNeverRaises(env, items[..|items| - 1], rolled);
    }
  }

  lemma {:induction false} WalkNeverAborts(env: Env, pairs: seq<Pair>, rolled: set<int>)
    requires NeverRaises(env.kernel) && env.kernel.initialState(env.question).Ok?
    ensures !WalkFrom(env, pairs, rolled).aborted
  {
    if pairs == [] {
    } else {
      var n := |pairs| - 1;
      WalkNeverAborts(env, pairs[..n], rolled);
      if IsControl(Name(pairs[n].act.action)) {
        var items := AcceptedItems(pairs[..n] + [pairs[n]]);
        FoldNeverRaises(env, items, Targets(items));
      }
    }
  }

  /** Over a kernel that never raises, replay always reconstructs the live state. */
  lemma {:induction false} ReplayIsFaithful(env: Env, s: Session)
    requires SessionOk(env, s) && NeverRaises(env.kernel)
    ensures WalkLog(env, s.events).state == s.state && !WalkLog(env, s.events).aborted
  {
    WalkNeverAborts(env, PairsOf(s.events), RolledBackIn(PairsOf(s.events)));
    ReplayReconstructsState(env, s);
  }

  // --- the verdict -------------------------------------------------------------------

  /** Since the last accepted control action, some action was recorded that the log rolls back. */
  predicate Dirty(pairs: seq<Pair>, rolled: set<int>) {
    if pairs == [] then false
    else
      var n := |pairs| - 1;
      var p := pairs[n];
      if p.res.status != Some(Accepted) then Dirty(pairs[..n], rolled)
      else if IsControl(Name(p.act.action)) then false
      else p.act.sequence in rolled || Dirty(pairs[..n], rolled)
  }

  /** Between two control actions, no action that stays in force follows one that is rolled back. */
  predicate CleanSegments(pairs: seq<Pair>, rolled: set<int>) {
    forall i :: 0 <= i < |pairs| && Survives(pairs[i]) && pairs[i].act.sequence !in rolled ==>
      !Dirty(pairs[..i], rolled)
  }

  /** The accepted pairs that no rollback targets, in order. */
  function Standing(pairs: seq<Pair>, rolled: set<int>): seq<nat> {
    if pairs == [] then []
    else
      var n := |pairs| - 1;
      Standing(pairs[..n], rolled)
      + if pairs[n].res.status == Some(Accepted) && pairs[n].act.sequence !in rolled
        then [pairs[n].act.sequence] else []
  }

  lemma {:induction false} DirtyUnfold(pairs: seq<Pair>, i: nat, rolled: set<int>)
    requires i < |pairs|
    ensures Dirty(pairs[..i + 1], rolled) ==
            (if pairs[i].res.status != Some(Accepted) then Dirty(pairs[..i], rolled)
             else if IsControl(Name(pairs[i].act.action)) then false
             else pairs[i].act.sequence in rolled || Dirty(pairs[..i], rolled))
    ensures Standing(pairs[..i + 1], rolled) == Standing(pairs[..i], rolled)
      + if pairs[i].res.status == Some(Accepted) && pairs[i].act.sequence !in rolled
        then [pairs[i].act.sequence] else []
  {
    assert pairs[..i + 1][..i] == pairs[..i];
  }

  /** Along clean segments the walk matches everything standing. */
  lemma {:induction false} CleanWalk(env: Env, pairs: seq<Pair>, i: nat)
    requires PairsOk(env, pairs) && i <= |pairs|
    requires CleanSegments(pairs, RolledBackIn(pairs))
    ensures
      var rolled := RolledBackIn(pairs);
      var w := WalkFrom(env, pairs[..i], rolled);
      && !w.aborted && w.mismatches == [] && w.matches == Standing(pairs[..i], rolled)
      && (!Dirty(pairs[..i], rolled) ==> Projection(env, AcceptedItems(pairs[..i])) == Ok(w.state))
  {
    if i == 0 {
    } else {
      hide Projection, AcceptedItems, RolledBackIn;
      var rolled := RolledBackIn(pairs);
      var w, p := WalkFrom(env, pairs[..i - 1], rolled), pairs[i - 1];
      CleanWalk(env, pairs, i - 1);
      WalkUnfold(env, pairs, i - 1, rolled);
      DirtyUnfold(pairs, i - 1, rolled);
      if p.res.status != Some(Accepted) {
        RejectedProjection(pairs, i - 1);
      } else if IsControl(Name(p.act.action)) {
        ControlNeverRolledBack(env, pairs, i - 1);
        ControlStepMatches(env, pairs, i - 1, w, rolled);
      } else if p.act.sequence !in rolled {
        ActionStepMatches(env, pairs, i - 1, w, rolled);
      }
    }
  }

  /** On a log with clean segments the verdict is "match" and lists every standing pair. */
  lemma {:induction false} CleanLogMatches(env: Env, s: Session)
    requires SessionOk(env, s)
    requires CleanSegments(PairsOf(s.events), RolledBackIn(PairsOf(s.events)))
    ensures WalkLog(env, s.events).mismatches == []
    ensures WalkLog(env, s.events).matches == Standing(PairsOf(s.events), RolledBackIn(PairsOf(s.events)))
  {
    var pairs := PairsOf(s.events);
    assert pairs[..|pairs|] == pairs;
    CleanWalk(env, pairs, |pairs|);
  }

  // --- the verdict over any kernel --------------------------------------------------------------

  /** The state in which the actions the whole log rolls back are passed over from the start; a control
      action still re-projects the log so far. */
  function PassedOver(env: Env, pairs: seq<Pair>, rolled: set<int>): Result<Doc, string> {
    if pairs == [] then env.kernel.initialState(env.question)
    else
      var n := |pairs| - 1;
      var p := pairs[n];
      if p.res.status != Some(Accepted) || p.act.sequence in rolled then PassedOver(env, pairs[..n], rolled)
      else if IsControl(Name(p.act.action)) then Projection(env, AcceptedItems(pairs[..n] + [p]))
      else
        match PassedOver(env, pairs[..n], rolled)
        case Err(e) => Err(e)
        case Ok(state) => env.kernel.execute(Name(p.act.action), OrEmpty(p.act.payload), state)
  }

  /** After a standing action the state without the rolled-back ones exists and bears the digest of the
      state the session was in. */
  ghost predicate SameDigestAt(env: Env, pairs: seq<Pair>, rolled: set<int>, i: nat)
    requires i < |pairs|
  {
    Survives(pairs[i]) && pairs[i].act.sequence !in rolled ==>
      var was, skipped := Projection(env, AcceptedItems(pairs[..i + 1])), PassedOver(env, pairs[..i + 1], rolled);
      was.Ok? && skipped.Ok? && env.digest(skipped.value) == env.digest(was.value)
  }

  ghost predicate SameDigestsBefore(env: Env, pairs: seq<Pair>, rolled: set<int>, i: nat)
    requires i <= |pairs|
  {
    forall k: nat :: k < i ==> SameDigestAt(env, pairs, rolled, k)
  }

  lemma {:induction false} PassedOverUnfold(env: Env, pairs: seq<Pair>, i: nat, rolled: set<int>)
    requires i < |pairs|
    ensures var p, before := pairs[i], PassedOver(env, pairs[..i], rolled);
      PassedOver(env, pairs[..i + 1], rolled) ==
      if p.res.status != Some(Accepted) || p.act.sequence in rolled then before
      else if IsControl(Name(p.act.action)) then Projection(env, AcceptedItems(pairs[..i + 1]))
      else if before.Err? then before
      else env.kernel.execute(Name(p.act.action), OrEmpty(p.act.payload), before.value)
  {
    assert pairs[..i + 1][..i] == pairs[..i] && pairs[..i] + [pairs[i]] == pairs[..i + 1];
  }

  lemma {:induction false} SameDigestsUnfold(env: Env, pairs: seq<Pair>, rolled: set<int>, i: nat)
    requires i < |pairs|
    ensures SameDigestsBefore(env, pairs, rolled, i + 1)
      <==> SameDigestsBefore(env, pairs, rolled, i) && SameDigestAt(env, pairs, rolled, i)
  {
    hide SameDigestAt;
  }

  lemma {:induction false} MismatchStays(env: Env, before: seq<Pair>, w: Walk, p: Pair, rolled: set<int>)
    requires w.mismatches != []
    ensures WalkStep(env, before, w, p, rolled).mismatches != []
  {
    hide Candidate;
  }

  /** One action run on the state without the rolled-back ones. */
  lemma {:induction false} ActionPassesOver(env: Env, pairs: seq<Pair>, i: nat, w: Walk)
    requires PairsOk(env, pairs) && i < |pairs| && Survives(pairs[i])
    requires w.mismatches == [] && !w.aborted && PassedOver(env, pairs[..i], RolledBackIn(pairs)) == Ok(w.state)
    ensures
      var rolled := RolledBackIn(pairs);
      var next := WalkStep(env, pairs[..i], w, pairs[i], rolled);
      && (next.mismatches == [] <==> SameDigestAt(env, pairs, rolled, i))
      && (next.mismatches == [] ==> !next.aborted && PassedOver(env, pairs[..i + 1], rolled) == Ok(next.state))
  {
    PassedOverUnfold(env, pairs, i, RolledBackIn(pairs));
    assert FaithfulAt(env, pairs, i);
    hide Projection, AcceptedItems, RolledBackIn, PassedOver;
  }

  lemma {:induction false} OtherPassesOver(env: Env, pairs: seq<Pair>, i: nat, w: Walk)
    requires PairsOk(env, pairs) && i < |pairs| && !Survives(pairs[i])
    requires w.mismatches == [] && !w.aborted && PassedOver(env, pairs[..i], RolledBackIn(pairs)) == Ok(w.state)
    ensures
      var rolled := RolledBackIn(pairs);
      var next := WalkStep(env, pairs[..i], w, pairs[i], rolled);
      next.mismatches == [] && !next.aborted && PassedOver(env, pairs[..i + 1], rolled) == Ok(next.state)
  {
    PassedOverUnfold(env, pairs, i, RolledBackIn(pairs));
    hide Projection, AcceptedItems, RolledBackIn, PassedOver;
    if pairs[i].res.status == Some(Accepted) {
      ControlNeverRolledBack(env, pairs, i);
      ControlStepMatches(env, pairs, i, w, RolledBackIn(pairs));
    }
  }

  /** While nothing has been reported, the walk stands on the state without the rolled-back actions. */
  lemma {:induction false} WalkPassesOver(env: Env, pairs: seq<Pair>, i: nat)
    requires PairsOk(env, pairs) && i <= |pairs|
    ensures
      var rolled := RolledBackIn(pairs);
      var w := WalkFrom(env, pairs[..i], rolled);
      && (w.mismatches == [] <==> SameDigestsBefore(env, pairs, rolled, i))
      && (w.mismatches == [] ==> !w.aborted && PassedOver(env, pairs[..i], rolled) == Ok(w.state))
  {
    if i > 0 {
      var rolled := RolledBackIn(pairs);
      var w := WalkFrom(env, pairs[..i - 1], rolled);
      WalkPassesOver(env, pairs, i - 1);
      WalkUnfold(env, pairs, i - 1, rolled);
      SameDigestsUnfold(env, pairs, rolled, i - 1);
      hide PairsOk, RolledBackIn, PassedOver, WalkStep, WalkFrom, SameDigestsBefore;
      if w.mismatches != [] {
        MismatchStays(env, pairs[..i - 1], w, pairs[i - 1], rolled);
      } else if Survives(pairs[i - 1]) {
        ActionPassesOver(env, pairs, i - 1, w);
      } else {
        OtherPassesOver(env, pairs, i - 1, w);
      }
    }
  }

  /** Over any kernel, an untampered log is reported as matching if and only if after every standing
      action the state with the rolled-back actions left out has the digest of the state as it was. */
  lemma {:induction false} VerdictOverAnyKernel(env: Env, s: Session)
    requires SessionOk(env, s)
    ensures WalkLog(env, s.events).mismatches == []
       <==> SameDigestsBefore(env, PairsOf(s.events), RolledBackIn(PairsOf(s.events)), |PairsOf(s.events)|)
  {
    var pairs := PairsOf(s.events);
    assert pairs[..|pairs|] == pairs;
    WalkPassesOver(env, pairs, |pairs|);
  }

  /** Every rollback targets the latest action still in force. */
  ghost predicate LastInFirstOut(pairs: seq<Pair>) {
    forall k, j :: 0 <= j < k < |pairs| && AcceptedRollback(pairs[k]) && Survives(pairs[j])
                   && pairs[j].act.sequence !in RolledBackIn(pairs[..k])
                   ==> pairs[j].act.sequence <= pairs[k].act.target.value
  }

  /** A dirty prefix ends, control actions aside, in an action that is rolled back only later. */
  lemma {:induction false} DirtyWitness(env: Env, pairs: seq<Pair>, i: nat) returns (j: nat)
    requires PairsOk(env, pairs) && i <= |pairs| && Dirty(pairs[..i], RolledBackIn(pairs))
    ensures j < i && Survives(pairs[j]) && pairs[j].act.sequence in RolledBackIn(pairs)
    ensures forall m :: j < m < i ==> !(pairs[m].res.status == Some(Accepted) && IsControl(Name(pairs[m].act.action)))
  {
    DirtyUnfold(pairs, i - 1, RolledBackIn(pairs));
    if Survives(pairs[i - 1]) && pairs[i - 1].act.sequence in RolledBackIn(pairs) {
      j := i - 1;
    } else {
      j := DirtyWitness(env, pairs, i - 1);
    }
  }

  /** Last-in-first-out rollbacks leave every segment clean. */
  lemma {:induction false} LifoIsClean(env: Env, pairs: seq<Pair>)
    requires PairsOk(env, pairs) && LastInFirstOut(pairs)
    ensures CleanSegments(pairs, RolledBackIn(pairs))
  {
    var rolled := RolledBackIn(pairs);
    assert pairs[..|pairs|] == pairs;
    forall i | 0 <= i < |pairs| && Survives(pairs[i]) && pairs[i].act.sequence !in rolled
      ensures !Dirty(pairs[..i], rolled)
    {
      if Dirty(pairs[..i], rolled) {
        var j := DirtyWitness(env, pairs, i);
        var k := RolledBy(pairs, pairs[j].act.sequence);
        assert TargetAt(pairs, k);
        var m :| 0 <= m < k && pairs[..k][m].act.sequence == pairs[j].act.sequence;
        assert pairs[m].act.sequence == 2 * m + 1 && pairs[j].act.sequence == 2 * j + 1;
        assert IsControl(Name(pairs[k].act.action));
        assert i < k;
        RolledMonotone(pairs, k, |pairs|);
        assert false;
      }
    }
  }

  /** If every rollback targets the latest live action, replay's verdict is "match". */
  lemma {:induction false} LifoReplayMatches(env: Env, s: Session)
    requires SessionOk(env, s) && LastInFirstOut(PairsOf(s.events))
    ensures WalkLog(env, s.events).mismatches == []
    ensures WalkLog(env, s.events).matches == Standing(PairsOf(s.events), RolledBackIn(PairsOf(s.events)))
  {
    LifoIsClean(env, PairsOf(s.events));
    CleanLogMatches(env, s);
  }

  // --- and no weaker condition will do --------------------------------------------------

  /** A kernel whose states count the actions executed, visibly in the digest: every action
      raises the rank by one, and equal digests mean equal ranks. */
  ghost predicate CountsActions(env: Env, rank: Doc -> nat) {
    && (forall action, payload, state :: env.kernel.execute(action, payload, state).Ok? ==>
          rank(env.kernel.execute(action, payload, state).value) == rank(state) + 1)
    && (forall d, d' :: env.digest(d) == env.digest(d') ==> rank(d) == rank(d'))
  }

  /** A kernel action run on a state that lags the projection is reported. */
  lemma {:induction false} LaggingStepIsReported(env: Env, rank: Doc -> nat, pairs: seq<Pair>, i: nat, w: Walk,
                                                 rolled: set<int>)
    requires PairsOk(env, pairs) && i < |pairs| && CountsActions(env, rank)
    requires Survives(pairs[i]) && pairs[i].act.sequence !in rolled && !w.aborted
    requires Projection(env, AcceptedItems(pairs[..i])).Ok?
    requires rank(w.state) < rank(Projection(env, AcceptedItems(pairs[..i])).value)
    ensures WalkStep(env, pairs[..i], w, pairs[i], rolled).mismatches != []
  {
    ExtendProjection(env, pairs, i);
    assert FaithfulAt(env, pairs, i);
    var c := env.kernel.execute(Name(pairs[i].act.action), OrEmpty(pairs[i].act.payload), w.state);
    var p := Projection(env, AcceptedItems(pairs[..i + 1])).value;
    if c.Ok? {
      assert rank(c.value) == rank(w.state) + 1;
      assert rank(p) == rank(Projection(env, AcceptedItems(pairs[..i])).value) + 1;
      assert env.digest(c.value) != env.digest(p);
    }
  }

  /** The walk lags the projection by the dirt since the last control, and by nothing else. */
  ghost predicate Lags(env: Env, rank: Doc -> nat, pairs: seq<Pair>, i: nat, w: Walk)
    requires i <= |pairs|
  {
    var p := Projection(env, AcceptedItems(pairs[..i]));
    && p.Ok? && !w.aborted
    && (if Dirty(pairs[..i], RolledBackIn(pairs)) then rank(w.state) < rank(p.value) else w.state == p.value)
  }

  lemma {:induction false} ActionKeepsLag(env: Env, rank: Doc -> nat, pairs: seq<Pair>, i: nat, w: Walk)
    requires PairsOk(env, pairs) && i < |pairs| && CountsActions(env, rank) && Survives(pairs[i])
    requires Lags(env, rank, pairs, i, w)
    requires WalkStep(env, pairs[..i], w, pairs[i], RolledBackIn(pairs)).mismatches == []
    ensures Lags(env, rank, pairs, i + 1, WalkStep(env, pairs[..i], w, pairs[i], RolledBackIn(pairs)))
  {
    hide Projection, AcceptedItems, RolledBackIn;
    var rolled := RolledBackIn(pairs);
    DirtyUnfold(pairs, i, rolled);
    if pairs[i].act.sequence in rolled {
      ExtendProjection(env, pairs, i);
      assert FaithfulAt(env, pairs, i);
    } else if !Dirty(pairs[..i], rolled) {
      ActionStepMatches(env, pairs, i, w, rolled);
    } else {
      LaggingStepIsReported(env, rank, pairs, i, w, rolled);
      assert false;
    }
  }

  lemma {:induction false} ControlEndsLag(env: Env, rank: Doc -> nat, pairs: seq<Pair>, i: nat, w: Walk)
    requires PairsOk(env, pairs) && i < |pairs| && !Survives(pairs[i]) && Lags(env, rank, pairs, i, w)
    ensures Lags(env, rank, pairs, i + 1, WalkStep(env, pairs[..i], w, pairs[i], RolledBackIn(pairs)))
  {
    hide Projection, AcceptedItems, RolledBackIn;
    var rolled := RolledBackIn(pairs);
    DirtyUnfold(pairs, i, rolled);
    if pairs[i].res.status != Some(Accepted) {
      RejectedProjection(pairs, i);
    } else {
      ControlNeverRolledBack(env, pairs, i);
      ControlStepMatches(env, pairs, i, w, rolled);
    }
  }

  /** The lag holds as long as nothing mismatched. */
  lemma {:induction false} DirtyWalkLags(env: Env, rank: Doc -> nat, pairs: seq<Pair>, i: nat)
    requires PairsOk(env, pairs) && i <= |pairs| && CountsActions(env, rank)
    requires WalkFrom(env, pairs[..i], RolledBackIn(pairs)).mismatches == []
    ensures Lags(env, rank, pairs, i, WalkFrom(env, pairs[..i], RolledBackIn(pairs)))
  {
    if i == 0 {
    } else {
      hide Projection, AcceptedItems, RolledBackIn, Lags, WalkStep, WalkFrom, PairsOk, CountsActions;
      var w := WalkFrom(env, pairs[..i - 1], RolledBackIn(pairs));
      WalkUnfold(env, pairs, i - 1, RolledBackIn(pairs));
      if w.mismatches != [] { MismatchStays(env, pairs[..i - 1], w, pairs[i - 1], RolledBackIn(pairs)); }
      DirtyWalkLags(env, rank, pairs, i - 1);
      if Survives(pairs[i - 1]) {
        ActionKeepsLag(env, rank, pairs, i - 1, w);
      } else {
        ControlEndsLag(env, rank, pairs, i - 1, w);
      }
    }
  }

  lemma {:induction false} MismatchesStay(env: Env, pairs: seq<Pair>, i: nat, rolled: set<int>)
    requires i <= |pairs| && WalkFrom(env, pairs, rolled).mismatches == []
    ensures WalkFrom(env, pairs[..i], rolled).mismatches == []
    decreases |pairs| - i
  {
    if i == |pairs| {
      assert pairs[..i] == pairs;
    } else {
      hide WalkStep, WalkFrom;
      MismatchesStay(env, pairs, i + 1, rolled);
      WalkUnfold(env, pairs, i, rolled);
      var w := WalkFrom(env, pairs[..i], rolled);
      if w.mismatches != [] { MismatchStays(env, pairs[..i], w, pairs[i], rolled); }
    }
  }

  /** Exactly when an untampered log is reported as matching: over a kernel whose digests tell
      how many actions were run, the verdict is "match" if and only if, between two control
      actions, no standing action follows a rolled-back one. */
  lemma {:induction false} VerdictExactly(env: Env, rank: Doc -> nat, s: Session)
    requires SessionOk(env, s) && CountsActions(env, rank)
    ensures WalkLog(env, s.events).mismatches == []
      <==> CleanSegments(PairsOf(s.events), RolledBackIn(PairsOf(s.events)))
  {
    var pairs := PairsOf(s.events);
    var rolled := RolledBackIn(pairs);
    if CleanSegments(pairs, rolled) {
      CleanLogMatches(env, s);
    }
    if WalkLog(env, s.events).mismatches == [] {
      forall i | 0 <= i < |pairs| && Survives(pairs[i]) && pairs[i].act.sequence !in rolled
        ensures !Dirty(pairs[..i], rolled)
      {
        MismatchesStay(env, pairs, i, rolled);
        MismatchesStay(env, pairs, i + 1, rolled);
        DirtyWalkLags(env, rank, pairs, i);
        WalkUnfold(env, pairs, i, rolled);
        hide Projection, AcceptedItems, WalkStep;
        if Dirty(pairs[..i], rolled) {
          LaggingStepIsReported(env, rank, pairs, i, WalkFrom(env, pairs[..i], rolled), rolled);
          assert false;
        }
      }
    }
  }

  // --- the log A, B, rollback A ----------------------------------------------------------

  function Count(d: Doc): nat {
    if "n" in d && d["n"].Int? && d["n"].n >= 0 then d["n"].n else 0
  }

  /** A kernel that counts its actions, with no budget and no objection to anything. */
  const COUNTER := Env("session", "question",
                       Kernel(q => Ok(map["n" := Int(0)]), (a, p, d) => [],
                         (a, p, d) => Ok(map["n" := Int(Count(d) + 1)]),
                              d => None, {}, {}),
                       Budgets(None, None, None, None), d => seq(Count(d), _ => 'x'))

  const OUT_OF_ORDER := [Apply("add", map[], None, None, None), Apply("add", map[], None, None, None),
                         Apply("rollback", map[], None, Some(3), None)]

  lemma {:induction false} CounterCounts()
    ensures CountsActions(COUNTER, Count) && NeverRaises(COUNTER.kernel)
  {
    forall d, d' | COUNTER.digest(d) == COUNTER.digest(d') ensures Count(d) == Count(d') {
      assert |COUNTER.digest(d)| == Count(d) && |COUNTER.digest(d')| == Count(d');
    }
  }

  /** `s'` is `s` with one more accepted pair. */
  ghost predicate Extended(s: Session, s': Session, action: string, target: Option<int>) {
    && s'.status == Active && |s'.events| == |s.events| + 2 && s'.events[..|s.events|] == s.events
    && s'.events[|s.events|].action == Some(action) && s'.events[|s.events|].target == target
    && s'.events[|s.events|].sequence == |s.events| + 1
    && s'.events[|s.events| + 1].status == Some(Accepted)
  }

  /** With no caps and a willing kernel an admissible action is accepted. */
  lemma {:induction false} CounterAccepts(s: Session, action: string, target: Option<int>)
    requires s.status == Active && action != "" && action != "finalize"
    requires if action == "rollback" then
               target.Some? && Rollbackable(PairsOf(s.events), RolledBackIn(PairsOf(s.events)), target.value)
             else target.None?
    ensures Extended(s, Step(COUNTER, s, Apply(action, map[], None, target, None)), action, target)
  {
    hide CountsActions, AcceptedItems, RolledBackIn, LastRevision;
    CounterCounts();
    var items := LogItems(s.events) + [Item(|s.events| + 1, action, map[], target)];
    FoldNeverRaises(COUNTER, items, Targets(items));
  }

  /** Two actions in force with the first one rolled back at once make a log unclean. */
  lemma {:induction false} UncleanShape(env: Env, p: seq<Pair>)
    requires PairsOk(env, p) && |p| == 4 && !AcceptedRollback(p[0])
    requires Survives(p[1]) && Survives(p[2]) && AcceptedRollback(p[3]) && p[3].act.target == Some(3)
    ensures !CleanSegments(p, RolledBackIn(p))
  {
    var rolled := RolledBackIn(p);
    RolledOnceNamed(p, 3);
    assert p[..2][..1] == p[..1];
    assert Dirty(p[..2], rolled);
    if 5 in rolled {
      var k := RolledBy(p, 5);
      assert false;
    }
  }

  lemma {:induction false} CounterRun(s0: Session)
    ensures
      var s1 := Step(COUNTER, s0, OUT_OF_ORDER[0]);
      var s2 := Step(COUNTER, s1, OUT_OF_ORDER[1]);
      Run(COUNTER, s0, OUT_OF_ORDER) == Step(COUNTER, s2, OUT_OF_ORDER[2])
  {
    var r := OUT_OF_ORDER;
    assert r[..2][..1] == r[..1] && r[..1][..0] == [];
    assert Run(COUNTER, s0, r[..1]) == Step(COUNTER, s0, r[0]);
    assert Run(COUNTER, s0, r[..2]) == Step(COUNTER, Run(COUNTER, s0, r[..1]), r[1]);
  }

  /** The log after start and two accepted actions. */
  lemma {:induction false} CounterTwoActions(s2: Session)
    requires |s2.events| == 6 && s2.events[0].action == Some("start")
      && s2.events[2].action == s2.events[4].action == Some("add")
    requires s2.events[2].sequence == 3 && s2.events[3].status == Some(Accepted)
    ensures Rollbackable(PairsOf(s2.events), RolledBackIn(PairsOf(s2.events)), 3)
  {
    var p := PairsOf(s2.events);
    assert p[1].act.sequence == 3;
    if 3 in RolledBackIn(p) {
      var k := RolledBy(p, 3);
      assert false;
    }
  }

  /** Two actions in force, and a rollback naming the first. */
  ghost predicate CounterShape(s: Session) {
    && |s.events| == 8
    && s.events[0].action == Some("start") && s.events[2].action == s.events[4].action == Some("add")
    && s.events[6].action == Some("rollback") && s.events[6].target == Some(3)
    && s.events[3].status == s.events[5].status == s.events[7].status == Some(Accepted)
  }

  lemma {:induction false} ShapeOfThree(s0: Session, s1: Session, s2: Session, s3: Session)
    requires |s0.events| == 2 && s0.events[0].action == Some("start")
    requires Extended(s0, s1, "add", None) && Extended(s1, s2, "add", None) && Extended(s2, s3, "rollback", Some(3))
    ensures CounterShape(s3)
  {
    assert forall i :: 0 <= i < 2 ==> s1.events[i] == s0.events[i];
    assert forall i :: 0 <= i < 4 ==> s2.events[i] == s1.events[i];
    assert forall i :: 0 <= i < 6 ==> s3.events[i] == s2.events[i];
  }

  lemma {:induction false} TwoActionsThenRollback(s0: Session, s1: Session, s2: Session)
    requires |s0.events| == 2 && s0.events[0].action == Some("start")
    requires Extended(s0, s1, "add", None) && Extended(s1, s2, "add", None)
    ensures Rollbackable(PairsOf(s2.events), RolledBackIn(PairsOf(s2.events)), 3)
  {
    assert forall i :: 0 <= i < 2 ==> s1.events[i] == s0.events[i];
    assert forall i :: 0 <= i < 4 ==> s2.events[i] == s1.events[i];
    CounterTwoActions(s2);
  }

  lemma {:induction false} CounterRuns(s0: Session)
    requires |s0.events| == 2 && s0.events[0].action == Some("start") && s0.status == Active
    ensures CounterShape(Run(COUNTER, s0, OUT_OF_ORDER))
  {
    CounterRun(s0);
    hide Step, Run;
    var s1 := Step(COUNTER, s0, OUT_OF_ORDER[0]);
    var s2 := Step(COUNTER, s1, OUT_OF_ORDER[1]);
    CounterAccepts(s0, "add", None);
    CounterAccepts(s1, "add", None);
    TwoActionsThenRollback(s0, s1, s2);
    CounterAccepts(s2, "rollback", Some(3));
    ShapeOfThree(s0, s1, s2, Step(COUNTER, s2, OUT_OF_ORDER[2]));
  }

  function OutOfOrderSession(): Session {
    Run(COUNTER, Started(COUNTER, map["n" := Int(0)], map[]), OUT_OF_ORDER)
  }

  lemma {:induction false} OutOfOrderIsReachable()
    ensures Reachable(COUNTER, OutOfOrderSession())
  {
    hide Run, Started;
    assert ReachableBy(COUNTER, OutOfOrderSession(), map[], OUT_OF_ORDER);
  }

  lemma {:induction false} OutOfOrderIsUnclean()
    ensures !CleanSegments(PairsOf(OutOfOrderSession().events), RolledBackIn(PairsOf(OutOfOrderSession().events)))
  {
    CounterRuns(Started(COUNTER, map["n" := Int(0)], map[]));
    OutOfOrderIsReachable();
    var s := OutOfOrderSession();
    hide Run, Started, Step, RolledBackIn, CleanSegments, Projection;
    StateIsProjection(COUNTER, s);
    UncleanShape(COUNTER, PairsOf(s.events));
  }

  /** The smallest log whose untampered replay reports a mismatch: two actions, then the first
      one rolled back.  The state is reconstructed all the same. */
  lemma {:induction false} OutOfOrderRollbackMismatches()
    ensures Reachable(COUNTER, OutOfOrderSession())
    ensures WalkLog(COUNTER, OutOfOrderSession().events).mismatches != []
    ensures WalkLog(COUNTER, OutOfOrderSession().events).state == OutOfOrderSession().state
  {
    hide *;
    OutOfOrderIsReachable();
    OutOfOrderIsUnclean();
    CounterCounts();
    StateIsProjection(COUNTER, OutOfOrderSession());
    VerdictExactly(COUNTER, Count, OutOfOrderSession());
    ReplayIsFaithful(COUNTER, OutOfOrderSession());
  }
}
