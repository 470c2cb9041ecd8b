/** The end of a search: ranking, selection and the terminal event, with the main theorems. */
module SearchResult {
  import opened Wrappers
  import opened Reals
  import opened Ledger
  import opened SearchReplay
  import opened Search
  import opened SearchTrace
  import opened SearchOutcome
  import Text

  // --- ranking -----------------------------------------------------------------------------

  /** The prior times the likelihood; nothing for a candidate that could not be evaluated. */
  function Weight(row: Row): real {
    if row.verdict.Judged? then Times(row.candidate.prior, row.verdict.likelihood) else 0.0
  }

  function Total(rows: seq<Row>): real {
    if rows == [] then 0.0 else Total(rows[..|rows| - 1]) + Weight(rows[|rows| - 1])
  }

  function Posterior(row: Row, total: real): real {
    if total != 0.0 then Over(Weight(row), total) else 0.0
  }

  /** Some passed ablation was made from the candidate `id`. */
  predicate Superseded(rows: seq<Row>, id: string) {
    exists i :: 0 <= i < |rows| && SupersededBy(rows[i], id)
  }

  predicate SupersededBy(row: Row, id: string) {
    Passed(row.verdict) && row.candidate.kind.AblateKind? && row.candidate.parent == Some(id) && id != ""
  }

  predicate IsMinimal(rows: seq<Row>, row: Row) {
    Passed(row.verdict) && !Superseded(rows, row.candidate.id)
  }

  function MinimalRows(all: seq<Row>, rows: seq<Row>): seq<Row> {
    if rows == [] then []
    else
      MinimalRows(all, rows[..|rows| - 1])
      + if IsMinimal(all, rows[|rows| - 1]) then [rows[|rows| - 1]] else []
  }

  /** The declared ranking: fewest variables, then highest score, then narrowest, then identifier. */
  predicate Precedes(a: Row, b: Row, total: real)
    requires a.verdict.Judged? && b.verdict.Judged?
  {
    if a.verdict.variables != b.verdict.variables then a.verdict.variables < b.verdict.variables
    else if Posterior(a, total) != Posterior(b, total) then Posterior(a, total) > Posterior(b, total)
    else if a.verdict.width != b.verdict.width then a.verdict.width < b.verdict.width
    else Text.Less(a.candidate.id, b.candidate.id)
  }

  /** The first row in ranking order. */
  function Best(rows: seq<Row>, total: real): (best: Option<Row>)
    requires forall i :: 0 <= i < |rows| ==> rows[i].verdict.Judged?
    ensures best.Some? <==> rows != []
    ensures best.Some? ==> best.value.verdict.Judged?
  {
    if rows == [] then None
    else
      var last := rows[|rows| - 1];
      match Best(rows[..|rows| - 1], total)
      case None => Some(last)
      case Some(b) => if Precedes(last, b, total) then Some(last) else Some(b)
  }

  lemma {:induction false} PrecedesTotal(a: Row, b: Row, total: real)
    requires a.verdict.Judged? && b.verdict.Judged? && a.candidate.id != b.candidate.id
    ensures Precedes(a, b, total) <==> !Precedes(b, a, total)
  {
    hide Posterior;
    Text.LessTotal(a.candidate.id, b.candidate.id);
  }

  lemma {:induction false} PrecedesTransitive(a: Row, b: Row, c: Row, total: real)
    requires a.verdict.Judged? && b.verdict.Judged? && c.verdict.Judged?
    requires Precedes(a, b, total) && Precedes(b, c, total)
    ensures Precedes(a, c, total)
  {
    hide Posterior;
    if Text.Less(a.candidate.id, b.candidate.id) && Text.Less(b.candidate.id, c.candidate.id) {
      Text.LessTransitive(a.candidate.id, b.candidate.id, c.candidate.id);
    }
  }

  ghost predicate DistinctRows(rows: seq<Row>) {
    forall i, j :: 0 <= i < j < |rows| ==> rows[i].candidate.id != rows[j].candidate.id
  }

  /** `Best` comes strictly before every other row. */
  lemma {:induction false} BestIsLeast(rows: seq<Row>, total: real, k: nat)
    requires forall i :: 0 <= i < |rows| ==> rows[i].verdict.Judged?
    requires DistinctRows(rows)
    requires k < |rows|
    ensures Best(rows, total).value in rows
    ensures Best(rows, total).value == rows[k] || Precedes(Best(rows, total).value, rows[k], total)
  {
    hide Precedes;
    var n := |rows| - 1;
    if n > 0 {
      var before := rows[..n];
      var i := if k < n then k else 0;
      BestIsLeast(before, total, i);
      var b := Best(before, total).value;
      assert b in rows;
      assert b.candidate.id != rows[n].candidate.id;
      PrecedesTotal(rows[n], b, total);
      if k < n && Precedes(rows[n], b, total) && b != rows[k] { PrecedesTransitive(rows[n], b, rows[k], total); }
    }
  }

  lemma {:induction false} MinimalRowsExactly(all: seq<Row>, rows: seq<Row>)
    ensures forall r :: r in MinimalRows(all, rows) <==> r in rows && IsMinimal(all, r)
  {
    hide IsMinimal;
    if rows != [] {
      var n := |rows| - 1;
      MinimalRowsExactly(all, rows[..n]);
      assert rows == rows[..n] + [rows[n]];
    }
  }

  lemma {:induction false} MinimalRowsDistinct(all: seq<Row>, rows: seq<Row>)
    requires DistinctRows(rows)
    ensures DistinctRows(MinimalRows(all, rows))
  {
    hide IsMinimal;
    if rows != [] {
      var n := |rows| - 1;
      MinimalRowsDistinct(all, rows[..n]);
      MinimalRowsExactly(all, rows[..n]);
      var before := MinimalRows(all, rows[..n]);
      forall i | 0 <= i < |before| ensures before[i].candidate.id != rows[n].candidate.id {
        assert before[i] in rows[..n];
      }
    }
  }

  lemma {:induction false} MinimalRowsJudged(all: seq<Row>, rows: seq<Row>)
    ensures forall i :: 0 <= i < |MinimalRows(all, rows)| ==> MinimalRows(all, rows)[i].verdict.Judged?
  {
    MinimalRowsExactly(all, rows);
    forall i | 0 <= i < |MinimalRows(all, rows)| ensures MinimalRows(all, rows)[i].verdict.Judged? {
      assert MinimalRows(all, rows)[i] in MinimalRows(all, rows);
    }
  }

  // --- the terminal event --------------------------------------------------------------------

  datatype Outcome = Outcome(status: Status, selected: Option<Row>)

  function Decide(s: Run): (o: Outcome) {
    var minimal := MinimalRows(s.rows, s.rows);
    MinimalRowsJudged(s.rows, s.rows);
    if s.stopped then Outcome(BudgetExhausted, None)
    else if minimal == [] then Outcome(InsufficientInformation, None)
    else Outcome(ResultFound, Best(minimal, Total(s.rows)))
  }

  function TerminalNote(s: Run, o: Outcome): Note {
    match o.selected
    case Some(row) => Note(row.candidate.id, ResultState, s.round, Finished(o.status), NoData)
    case None => Note("", Stop, s.round, Finished(o.status), NoData)
  }

  function Conclude(s: Run): Run {
    Log(s, TerminalNote(s, Decide(s)))
  }

  /** The whole search. */
  function Searched(env: Environment): Run {
    Rounds(env, Begin(env))
  }

  // --- theorems ------------------------------------------------------------------------------

  lemma {:induction false} RowsDistinct(env: Environment, s: Run, p: Progress, waiting: seq<Candidate>)
    requires Mirrors(env, s, p, waiting)
    ensures DistinctRows(s.rows)
  {
    hide Progressed, Agrees, Matches;
    var cs := All(s, waiting);
    forall i, j | 0 <= i < j < |s.rows| ensures s.rows[i].candidate.id != s.rows[j].candidate.id {
      assert cs[i] == s.rows[i].candidate && cs[j] == s.rows[j].candidate;
    }
  }

  lemma {:induction false} SelectedIsMinimal(env: Environment, s: Run, p: Progress, waiting: seq<Candidate>)
    requires Mirrors(env, s, p, waiting)
    ensures var o := Decide(s);
      && (o.selected.Some? <==> o.status == ResultFound)
      && (o.status == ResultFound ==>
        && o.selected.value in s.rows && IsMinimal(s.rows, o.selected.value)
        && forall r :: r in s.rows && IsMinimal(s.rows, r) && r != o.selected.value ==>
          Precedes(o.selected.value, r, Total(s.rows)))
  {
    hide Mirrors, Precedes, Total, Best;
    var m := MinimalRows(s.rows, s.rows);
    RowsDistinct(env, s, p, waiting);
    MinimalRowsExactly(s.rows, s.rows);
    MinimalRowsDistinct(s.rows, s.rows);
    MinimalRowsJudged(s.rows, s.rows);
    hide IsMinimal;
    if Decide(s).status == ResultFound {
      BestIsLeast(m, Total(s.rows), 0);
      forall r | r in m && r != Best(m, Total(s.rows)).value
        ensures Precedes(Best(m, Total(s.rows)).value, r, Total(s.rows))
      {
        var k :| 0 <= k < |m| && m[k] == r;
        BestIsLeast(m, Total(s.rows), k);
      }
    }
  }

  lemma {:induction false} LastPassed(rows: seq<Row>, i: nat) returns (k: nat)
    requires i < |rows| && Passed(rows[i].verdict)
    ensures i <= k < |rows| && Passed(rows[k].verdict)
    ensures forall j :: k < j < |rows| ==> !Passed(rows[j].verdict)
    decreases |rows| - i
  {
    k := i;
    if j :| i < j < |rows| && Passed(rows[j].verdict) {
      k := LastPassed(rows, j);
    }
  }

  /** The passed row evaluated last has no passed ablation, so some row is minimal. */
  lemma {:induction false} LastPassedIsMinimal(env: Environment, s: Run, p: Progress, waiting: seq<Candidate>, i: nat)
    requires Mirrors(env, s, p, waiting) && Grounded(env, s, waiting)
    requires i < |s.rows| && Passed(s.rows[i].verdict)
    ensures exists r :: r in s.rows && IsMinimal(s.rows, r)
  {
    hide Mirrors;
    RowsDistinct(env, s, p, waiting);
    var k := LastPassed(s.rows, i);
    var row := s.rows[k];
    forall j | 0 <= j < |s.rows| ensures !SupersededBy(s.rows[j], row.candidate.id) {
      if s.rows[j].candidate.parent == Some(row.candidate.id) {
        var q := ParentPosition(s.rows, waiting, j);
        Same(s.rows, q, k);
      }
    }
    assert IsMinimal(s.rows, row);
    assert row in s.rows;
  }

  lemma {:induction false} ParentPosition(rows: seq<Row>, waiting: seq<Candidate>, j: nat) returns (q: nat)
    requires Parented(rows, waiting) && j < |rows| && rows[j].candidate.parent.Some?
    ensures q < j && rows[q].candidate.id == rows[j].candidate.parent.value
  {
    assert ParentIn(rows[j].candidate, rows, j);
    q :| 0 <= q < j && rows[q].candidate.id == rows[j].candidate.parent.value;
  }

  lemma {:induction false} Same(rows: seq<Row>, i: nat, j: nat)
    requires DistinctRows(rows)
    requires i < |rows| && j < |rows| && rows[i].candidate.id == rows[j].candidate.id
    ensures i == j
  {
  }

  /** When no budget stops it, a search ends with a result exactly when some candidate passed. */
  lemma {:induction false} ResultFoundExactly(env: Environment)
    requires WellSeeded(env) && WellParented(env)
    ensures var s := Searched(env);
      && (Decide(s).status == BudgetExhausted <==> s.stopped)
      && (Decide(s).status == ResultFound <==> !s.stopped && exists i :: 0 <= i < |s.rows| && Passed(s.rows[i].verdict))
  {
    hide Mirrors, Grounded, Rounds;
    var s := Searched(env);
    var p, waiting := FinishedRun(env);
    SelectedIsMinimal(env, s, p, waiting);
    MinimalRowsExactly(s.rows, s.rows);
    if i :| 0 <= i < |s.rows| && Passed(s.rows[i].verdict) {
      LastPassedIsMinimal(env, s, p, waiting, i);
      hide IsMinimal;
      if !s.stopped {
        var r :| r in s.rows && IsMinimal(s.rows, r);
        assert r in MinimalRows(s.rows, s.rows);
      }
    } else {
      forall r | r in s.rows ensures !IsMinimal(s.rows, r) {}
    }
  }

  /** The selected candidate passed, none of its ablations passed, and it ranks first among such rows. */
  lemma {:induction false} SelectionIsLeast(env: Environment, r: Row)
    requires WellSeeded(env) && Decide(Searched(env)).status == ResultFound
    ensures var s := Searched(env); var chosen := Decide(s).selected.value;
      && chosen in s.rows && Passed(chosen.verdict) && !Superseded(s.rows, chosen.candidate.id)
      && (r in s.rows && Passed(r.verdict) && !Superseded(s.rows, r.candidate.id) && r != chosen ==>
        var total := Total(s.rows);
        && chosen.verdict.variables <= r.verdict.variables
        && (chosen.verdict.variables == r.verdict.variables ==>
          && Posterior(chosen, total) >= Posterior(r, total)
          && (Posterior(chosen, total) == Posterior(r, total) ==>
            && chosen.verdict.width <= r.verdict.width
            && (chosen.verdict.width == r.verdict.width ==> Text.Less(chosen.candidate.id, r.candidate.id)))))
  {
    hide Mirrors, Rounds, Total, Posterior;
    var s := Searched(env);
    var p0 := BeginMirrors(env);
    var p, waiting := RoundsMirrors(env, Begin(env), p0);
    SelectedIsMinimal(env, s, p, waiting);
  }

  // --- budgets -----------------------------------------------------------------------------------

  /** Within the budgets; only the seeds may be more than the candidates allowed. */
  ghost predicate Within(env: Environment, s: Run) {
    && |s.rows| <= Limit(env) && s.round <= env.budget.maxRounds
    && (|s.queued| <= env.budget.maxCandidates || |s.queued| <= |env.seeds|)
  }

  lemma {:induction false} PutSize(rows: seq<Row>, row: Row)
    ensures |Put(rows, row)| <= |rows| + 1
  {
    if rows != [] { PutSize(rows[1..], row); }
  }

  lemma {:induction false} OfferWithin(env: Environment, s: Run, children: seq<Candidate>, state: State, parent: string)
    requires Within(env, s)
    ensures Within(env, Offer(env, s, children, state, parent))
    decreases |children|
  {
    if children != [] {
      OfferWithin(env, s, children[1..], state, parent);
      if |s.queued| < env.budget.maxCandidates {
        OfferWithin(env, Activate(s, children[0], state, parent), children[1..], state, parent);
      }
    }
  }

  lemma {:induction false} SweepWithin(env: Environment, s: Run, current: seq<Candidate>)
    requires Within(env, s)
    ensures Within(env, Sweep(env, s, current))
    decreases |current|
  {
    if current != [] && !OutOfBudget(env, s) {
      var c := current[0];
      var v := env.evaluate(c);
      var a := Assess(env, s, c);
      PutSize(s.rows, Row(c, v));
      if v.Judged? { OfferWithin(env, a, env.children(c, v, a.known), if v.passed then Minimize else Expand, c.id); }
      hide Put;
      SweepWithin(env, Judge(env, s, c), current[1..]);
    }
  }

  lemma {:induction false} RoundsWithin(env: Environment, s: Run)
    requires Within(env, s)
    ensures Within(env, Rounds(env, s))
    decreases if s.round < env.budget.maxRounds then env.budget.maxRounds - s.round else 0
  {
    if s.queue != [] && s.round < env.budget.maxRounds {
      var started := s.(round := s.round + 1, queue := []);
      SweepWithin(env, started, s.queue);
      SweepKeepsRound(env, started, s.queue);
      if !Sweep(env, started, s.queue).stopped { RoundsWithin(env, Sweep(env, started, s.queue)); }
    }
  }

  lemma {:induction false} IdsBound(cs: seq<Candidate>)
    ensures |Ids(cs)| <= |cs|
  {
    if cs == [] {
      assert Ids(cs) == {};
    } else {
      var n := |cs| - 1;
      IdsBound(cs[..n]);
      IdsAppend(cs[..n], cs[n]);
      assert cs == cs[..n] + [cs[n]];
    }
  }

  /** Whatever the generator offers, no run evaluates, activates or rounds beyond its budgets. */
  lemma {:induction false} SearchIsBounded(env: Environment)
    ensures var s := Searched(env);
      && |s.rows| <= env.budget.maxCandidates && |s.rows| <= env.budget.maxEvaluations
      && s.round <= env.budget.maxRounds
      && (|s.queued| <= env.budget.maxCandidates || |s.queued| <= |env.seeds|)
  {
    IdsBound(env.seeds);
    RoundsWithin(env, Begin(env));
    hide Rounds;
  }

  /** What the search evaluated is what it could reach: every row is a seed or was offered by an
      earlier evaluation; and unless a budget stopped it, every activated candidate has a row and
      every offered child was activated or repeats a known formula under an undeclared identifier. */
  lemma {:induction false} SearchIsExhaustive(env: Environment)
    requires WellSeeded(env) && WellParented(env)
    ensures var s := Searched(env);
      && (forall i :: 0 <= i < |s.rows| ==> s.rows[i].verdict == env.evaluate(s.rows[i].candidate))
      && (forall i :: 0 <= i < |s.rows| ==> Justified(env, s.rows, s.rows[i].candidate))
      && (!s.stopped ==> s.queued == RowIds(s.rows) && Ids(env.seeds) <= s.queued && Settled(env, s))
  {
    hide Rounds, Settled, Justified, Parented;
    var s := Searched(env);
    var p, waiting := FinishedRun(env);
    SeedsStay(env);
    if !s.stopped { assert All(s, waiting) == CandidatesOf(s.rows); }
    hide Agrees, Matches, Progressed;
  }

  lemma {:induction false} SweepGrows(env: Environment, s: Run, current: seq<Candidate>)
    ensures s.queued <= Sweep(env, s, current).queued
    decreases |current|
  {
    if current != [] && !OutOfBudget(env, s) {
      var c := current[0];
      var v := env.evaluate(c);
      var a := Assess(env, s, c);
      if v.Judged? { OfferGrows(env, a, env.children(c, v, a.known), if v.passed then Minimize else Expand, c.id); }
      SweepGrows(env, Judge(env, s, c), current[1..]);
    }
  }

  lemma {:induction false} RoundsGrow(env: Environment, s: Run)
    ensures s.queued <= Rounds(env, s).queued
    decreases if s.round < env.budget.maxRounds then env.budget.maxRounds - s.round else 0
  {
    if s.queue != [] && s.round < env.budget.maxRounds {
      var s1 := s.(round := s.round + 1, queue := []);
      SweepGrows(env, s1, s.queue);
      SweepKeepsRound(env, s1, s.queue);
      if !Sweep(env, s1, s.queue).stopped { RoundsGrow(env, Sweep(env, s1, s.queue)); }
    }
  }

  lemma {:induction false} SeedsStay(env: Environment)
    ensures Ids(env.seeds) <= Searched(env).queued
  {
    RoundsGrow(env, Begin(env));
  }

  // --- acceptance ------------------------------------------------------------------------------

  lemma {:induction false} NonePending(activated: seq<Activated>, evaluated: set<string>)
    requires forall i :: 0 <= i < |activated| ==> activated[i].id in evaluated
    ensures Pending(activated, evaluated) == []
  {
    if activated != [] { NonePending(activated[..|activated| - 1], evaluated); }
  }

  lemma {:induction false} PendingSuffix(done: seq<Activated>, rest: seq<Activated>, evaluated: set<string>)
    requires forall i :: 0 <= i < |done| ==> done[i].id in evaluated
    requires forall i :: 0 <= i < |rest| ==> rest[i].id !in evaluated
    ensures Pending(done + rest, evaluated) == rest
  {
    if rest == [] {
      assert done + rest == done;
      NonePending(done, evaluated);
    } else {
      var n := |rest| - 1;
      PendingSuffix(done, rest[..n], evaluated);
      assert (done + rest)[..|done + rest| - 1] == done + rest[..n];
      assert rest == rest[..n] + [rest[n]];
    }
  }

  lemma {:induction false} WaitingUnevaluated(rows: seq<Row>, waiting: seq<Candidate>, i: nat)
    requires DistinctIds(CandidatesOf(rows) + waiting) && i < |waiting|
    ensures waiting[i].id !in RowIds(rows)
  {
    var cs := CandidatesOf(rows) + waiting;
    forall j | 0 <= j < |rows| ensures CandidatesOf(rows)[j].id != waiting[i].id {
      assert cs[j].id != cs[|rows| + i].id;
    }
  }

  lemma {:induction false} PendingIsWaiting(env: Environment, s: Run, p: Progress, waiting: seq<Candidate>)
    requires Mirrors(env, s, p, waiting)
    ensures Matches(Pending(p.activated, p.evaluated.Keys), waiting)
  {
    hide Progressed, DistinctIds, RowIds;
    var cs := All(s, waiting);
    var k := |s.rows|;
    var done, rest := p.activated[..k], p.activated[k..];
    assert p.activated == done + rest;
    forall i | 0 <= i < |done| ensures done[i].id in p.evaluated.Keys { assert cs[i] == s.rows[i].candidate; }
    forall i | 0 <= i < |rest| ensures rest[i].id == waiting[i].id && rest[i].data == Activation(waiting[i]) {
      assert cs[k + i] == waiting[i];
    }
    forall i | 0 <= i < |rest| ensures rest[i].id !in p.evaluated.Keys { WaitingUnevaluated(s.rows, waiting, i); }
    hide Pending;
    PendingSuffix(done, rest, p.evaluated.Keys);
  }

  lemma {:induction false} TerminalStep(notes: seq<Note>, p: Progress, n: Note) returns (q: Progress)
    requires Progressed(notes) == Ok(p) && p.terminal.None? && 0 <= p.lastRound <= n.round && !n.reason.Blank?
    requires (n.state.ResultState? && n.candidate != "" && n.candidate in p.evaluated)
      || (n.state.Stop? && n.candidate == "")
    ensures Progressed(notes + [n]) == Ok(q)
    ensures q.evaluated == p.evaluated && q.activated == p.activated
    ensures q.terminal == Some(Terminal(n.state, n.candidate, n.round, n.reason))
  {
    ProgressedStep(notes, n, p);
    hide Progressed, IsActivated;
    q := Advance(p, n, |notes| + 1).value;
  }

  lemma {:induction false} TerminalAccepted(env: Environment, s: Run, p: Progress, waiting: seq<Candidate>)
    returns (q: Progress)
    requires Mirrors(env, s, p, waiting)
    ensures Progressed(Conclude(s).notes) == Ok(q)
    ensures q.evaluated == p.evaluated && q.activated == p.activated
    ensures q.terminal.Some? && q.terminal.value == Terminal(
      if Decide(s).selected.Some? then ResultState else Stop,
      if Decide(s).selected.Some? then Decide(s).selected.value.candidate.id else "", s.round,
        Finished(Decide(s).status))
  {
    var o := Decide(s);
    SelectedIsMinimal(env, s, p, waiting);
    hide Decide, Progressed, Matches, Agrees, All, DistinctIds;
    if o.selected.Some? {
      var i :| 0 <= i < |s.rows| && s.rows[i] == o.selected.value;
      NamedRows(env, s, p, waiting, i);
    }
    q := TerminalStep(s.notes, p, TerminalNote(s, o));
  }

  lemma {:induction false} NamedRows(env: Environment, s: Run, p: Progress, waiting: seq<Candidate>, i: nat)
    requires Mirrors(env, s, p, waiting) && i < |s.rows|
    ensures s.rows[i].candidate.id != "" && s.rows[i].candidate.id in p.evaluated
  {
    var hash: Record<Event> -> string := r => "";
    ReplayIsProgress("", s.notes, hash);
    AcceptedIsCoherent(Exported("", s.notes, hash), "", hash);
    assert All(s, waiting)[i] == s.rows[i].candidate;
    assert p.activated[i].id == s.rows[i].candidate.id;
    hide Progressed, Replay;
  }

  /** Every search writes a ledger with a proper lineage that the validator accepts.  It recovers
      exactly the evaluated candidates, with their outcomes, the terminal event, and the pending
      candidates: those activated after the evaluated ones, whole and in activation order. */
  lemma {:induction false} TraceIsAccepted(env: Environment, hash: Record<Event> -> string)
    returns (p: Progress, waiting: seq<Candidate>)
    requires WellSeeded(env)
    ensures var s := Searched(env); var entries := Exported(env.runId, Conclude(s).notes, hash);
      && Lineage(entries, hash)
      && Replay(entries, env.runId, hash) == Ok(p)
      && p.evaluated.Keys == RowIds(s.rows)
      && (forall i :: 0 <= i < |s.rows| ==>
        (p.evaluated[s.rows[i].candidate.id].outcome == Evaluate <==> s.rows[i].verdict.Judged?))
      && Matches(p.activated, CandidatesOf(s.rows) + waiting)
      && Matches(Recover(entries, p).pending, waiting)
      && s.queued == Ids(CandidatesOf(s.rows) + waiting) && DistinctIds(CandidatesOf(s.rows) + waiting)
      && (!s.stopped ==> waiting == [])
      && p.terminal == Some(Terminal(
        if Decide(s).selected.Some? then ResultState else Stop,
        if Decide(s).selected.Some? then Decide(s).selected.value.candidate.id else "", s.round,
          Finished(Decide(s).status)))
  {
    hide Rounds, Decide, Progressed, Replay, Matches;
    var s := Searched(env);
    var p0 := BeginMirrors(env);
    var r: Progress;
    r, waiting := RoundsMirrors(env, Begin(env), p0);
    p := TerminalAccepted(env, s, r, waiting);
    PendingIsWaiting(env, s, r, waiting);
    ReplayIsProgress(env.runId, Conclude(s).notes, hash);
    ExportedLineage(env.runId, Conclude(s).notes, hash);
    hide Pending, Lineage, Conclude;
  }
}
