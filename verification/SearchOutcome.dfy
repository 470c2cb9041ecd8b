/** What a finished search has covered, and what it selects. */
module SearchOutcome {
  import opened Wrappers
  import opened Ledger
  import opened SearchReplay
  import opened Search
  import opened SearchTrace

  // --- what every run keeps ------------------------------------------------------------------

  /** Children name the candidate they were made from, and seeds name none. */
  ghost predicate WellParented(env: Environment) {
    && (forall i :: 0 <= i < |env.seeds| ==> env.seeds[i].parent.None?)
    && (forall c, v, known, i :: 0 <= i < |env.children(c, v, known)| ==>
      env.children(c, v, known)[i].parent == Some(c.id))
  }

  ghost predicate ParentIn(c: Candidate, rows: seq<Row>, k: nat)
    requires k <= |rows|
  {
    c.parent.Some? ==> exists j :: 0 <= j < k && rows[j].candidate.id == c.parent.value
  }

  /** Parents are evaluated before their children. */
  ghost predicate Parented(rows: seq<Row>, waiting: seq<Candidate>) {
    && (forall i :: 0 <= i < |rows| ==> ParentIn(rows[i].candidate, rows, i))
    && (forall i :: 0 <= i < |waiting| ==> ParentIn(waiting[i], rows, |rows|))
  }

  /** The generator offers `c` when asked about the row's candidate. */
  ghost predicate Offers(env: Environment, row: Row, c: Candidate) {
    row.verdict.Judged? && exists known :: c in env.children(row.candidate, row.verdict, known)
  }

  /** Nothing is activated out of thin air. */
  ghost predicate Justified(env: Environment, rows: seq<Row>, c: Candidate) {
    c in env.seeds || exists j :: 0 <= j < |rows| && Offers(env, rows[j], c)
  }

  /** A child is activated, or it repeats a formula under an undeclared identifier. */
  predicate Taken(env: Environment, s: Run, c: Candidate) {
    c.id in s.queued || (c.formula in s.known && c.id !in env.declaredIds)
  }

  ghost predicate AllTaken(env: Environment, s: Run, row: Row, known: set<string>) {
    row.verdict.Judged? ==>
      forall i :: 0 <= i < |env.children(row.candidate, row.verdict, known)| ==>
        Taken(env, s, env.children(row.candidate, row.verdict, known)[i])
  }

  ghost predicate SettledRow(env: Environment, s: Run, row: Row) {
    exists known :: AllTaken(env, s, row, known)
  }

  ghost predicate Settled(env: Environment, s: Run) {
    forall i :: 0 <= i < |s.rows| ==> SettledRow(env, s, s.rows[i])
  }

  ghost predicate Honest(env: Environment, rows: seq<Row>) {
    forall i :: 0 <= i < |rows| ==> rows[i].verdict == env.evaluate(rows[i].candidate)
  }

  ghost predicate AllJustified(env: Environment, rows: seq<Row>, waiting: seq<Candidate>) {
    && (forall i :: 0 <= i < |rows| ==> Justified(env, rows, rows[i].candidate))
    && (forall i :: 0 <= i < |waiting| ==> Justified(env, rows, waiting[i]))
  }

  ghost predicate Grounded(env: Environment, s: Run, waiting: seq<Candidate>) {
    && Honest(env, s.rows)
    && Parented(s.rows, waiting)
    && AllJustified(env, s.rows, waiting)
    && (!s.stopped ==> Settled(env, s))
    && s.queued >= RowIds(s.rows)
  }

  // --- growth ----------------------------------------------------------------------------------

  predicate Grows(s: Run, t: Run) {
    s.rows == t.rows && s.queued <= t.queued && s.known <= t.known && (s.stopped ==> t.stopped)
  }

  lemma {:induction false} OfferGrows(env: Environment, s: Run, children: seq<Candidate>, state: State, parent: string)
    ensures Grows(s, Offer(env, s, children, state, parent))
    decreases |children|
  {
    if children != [] {
      OfferGrows(env, s, children[1..], state, parent);
      OfferGrows(env, Activate(s, children[0], state, parent), children[1..], state, parent);
    }
  }

  lemma {:induction false} OfferTakes(env: Environment, s: Run, children: seq<Candidate>, state: State,
                                      parent: string, i: nat)
    requires i < |children| && s.queued >= RowIds(s.rows)
    ensures var t := Offer(env, s, children, state, parent);
      t.stopped || Taken(env, t, children[i])
    decreases |children|
  {
    if Skipped(env, s, children[0]) {
      OfferGrows(env, s, children[1..], state, parent);
      if i > 0 { OfferTakes(env, s, children[1..], state, parent, i - 1); }
    } else if |s.queued| < env.budget.maxCandidates {
      var s1 := Activate(s, children[0], state, parent);
      OfferGrows(env, s1, children[1..], state, parent);
      if i > 0 { OfferTakes(env, s1, children[1..], state, parent, i - 1); }
    }
  }

  lemma {:induction false} SettledGrows(env: Environment, s: Run, t: Run)
    requires Settled(env, s) && Grows(s, t)
    ensures Settled(env, t)
  {
    forall i | 0 <= i < |t.rows| ensures SettledRow(env, t, t.rows[i]) {
      assert SettledRow(env, s, s.rows[i]);
      var known :| AllTaken(env, s, s.rows[i], known);
      assert AllTaken(env, t, t.rows[i], known);
    }
  }

  // --- offers ------------------------------------------------------------------------------------

  /** A candidate that may join the queue after the rows so far. */
  ghost predicate Eligible(env: Environment, rows: seq<Row>, c: Candidate) {
    ParentIn(c, rows, |rows|) && Justified(env, rows, c)
  }

  ghost predicate AllEligible(env: Environment, rows: seq<Row>, cs: seq<Candidate>) {
    forall i :: 0 <= i < |cs| ==> Eligible(env, rows, cs[i])
  }

  lemma {:induction false} EligibleSplit(env: Environment, s: Run, waiting: seq<Candidate>)
    requires Parented(s.rows, waiting) && AllJustified(env, s.rows, waiting)
    ensures AllEligible(env, s.rows, waiting)
  {
    hide ParentIn, Justified;
  }

  lemma {:induction false} OfferEligible(env: Environment, s: Run, before: seq<Candidate>, children: seq<Candidate>,
                                         state: State, parent: string)
    requires AllEligible(env, s.rows, before + s.queue) && AllEligible(env, s.rows, children)
    ensures AllEligible(env, s.rows, before + Offer(env, s, children, state, parent).queue)
    decreases |children|
  {
    hide Eligible, Skipped;
    if children != [] {
      OfferEligible(env, s, before, children[1..], state, parent);
      var s1 := Activate(s, children[0], state, parent);
      assert before + s1.queue == before + s.queue + [children[0]];
      OfferEligible(env, s1, before, children[1..], state, parent);
    }
  }

  // --- one evaluation ------------------------------------------------------------------------------

  lemma {:induction false} EligibleMore(env: Environment, rows: seq<Row>, row: Row, c: Candidate)
    requires Eligible(env, rows, c)
    ensures Eligible(env, rows + [row], c)
  {
    var more := rows + [row];
    if c.parent.Some? {
      var j :| 0 <= j < |rows| && rows[j].candidate.id == c.parent.value;
      assert more[j] == rows[j];
    }
    if c !in env.seeds {
      var j :| 0 <= j < |rows| && Offers(env, rows[j], c);
      assert more[j] == rows[j];
    }
  }

  lemma {:induction false} RowsAppend(env: Environment, rows: seq<Row>, waiting: seq<Candidate>, row: Row,
                                      rest: seq<Candidate>)
    requires Honest(env, rows) && Parented(rows, waiting) && AllJustified(env, rows, waiting)
    requires waiting == [row.candidate] + rest && row.verdict == env.evaluate(row.candidate)
    ensures Honest(env, rows + [row]) && Parented(rows + [row], rest) && AllJustified(env, rows + [row], rest)
  {
    var more := rows + [row];
    assert waiting[0] == row.candidate;
    assert Eligible(env, rows, row.candidate);
    EligibleMore(env, rows, row, row.candidate);
    forall i | 0 <= i < |rows| ensures ParentIn(more[i].candidate, more, i) && Justified(env, more, more[i].candidate) {
      RowStays(env, rows, row, i);
    }
    forall i | 0 <= i < |rest| ensures Eligible(env, more, rest[i]) {
      assert waiting[i + 1] == rest[i];
      EligibleMore(env, rows, row, rest[i]);
    }
    assert ParentIn(row.candidate, more, |rows|) by { ParentPrefix(row.candidate, rows, row); }
    hide ParentIn, Justified;
  }

  lemma {:induction false} ParentPrefix(c: Candidate, rows: seq<Row>, row: Row)
    requires ParentIn(c, rows, |rows|)
    ensures ParentIn(c, rows + [row], |rows|)
  {
    if c.parent.Some? {
      var j :| 0 <= j < |rows| && rows[j].candidate.id == c.parent.value;
      assert (rows + [row])[j] == rows[j];
    }
  }

  lemma {:induction false} RowStays(env: Environment, rows: seq<Row>, row: Row, i: nat)
    requires i < |rows| && ParentIn(rows[i].candidate, rows, i) && Justified(env, rows, rows[i].candidate)
    ensures ParentIn(rows[i].candidate, rows + [row], i) && Justified(env, rows + [row], rows[i].candidate)
  {
    var more := rows + [row];
    var c := rows[i].candidate;
    if c.parent.Some? {
      var j :| 0 <= j < i && rows[j].candidate.id == c.parent.value;
      assert more[j] == rows[j];
    }
    if c !in env.seeds {
      var j :| 0 <= j < |rows| && Offers(env, rows[j], c);
      assert more[j] == rows[j];
    }
  }

  lemma {:induction false} MirrorsCover(env: Environment, s: Run, p: Progress, waiting: seq<Candidate>)
    requires Mirrors(env, s, p, waiting)
    ensures s.queued >= RowIds(s.rows)
  {
    hide Progressed, Agrees, Matches;
    forall x | x in RowIds(s.rows) ensures x in s.queued {
      var i :| 0 <= i < |s.rows| && CandidatesOf(s.rows)[i].id == x;
      IdsAt(All(s, waiting), i);
    }
  }

  lemma {:induction false} ChildEligible(env: Environment, rows: seq<Row>, row: Row, known: set<string>)
    requires WellParented(env) && row.verdict.Judged?
    ensures AllEligible(env, rows + [row], env.children(row.candidate, row.verdict, known))
  {
    var more := rows + [row];
    var children := env.children(row.candidate, row.verdict, known);
    forall i | 0 <= i < |children| ensures Eligible(env, more, children[i]) {
      assert more[|rows|] == row;
      assert Offers(env, row, children[i]);
    }
  }

  /** After the offer, every row is settled again: the older ones by growth, the new one by the offer. */
  lemma {:induction false} JudgeSettles(env: Environment, s: Run, c: Candidate)
    requires Settled(env, s) && Assess(env, s, c).rows == s.rows + [Row(c, env.evaluate(c))]
    requires s.queued >= RowIds(Assess(env, s, c).rows)
    ensures Judge(env, s, c).stopped || Settled(env, Judge(env, s, c))
  {
    var v := env.evaluate(c);
    var row := Row(c, v);
    var a := Assess(env, s, c);
    var t := Judge(env, s, c);
    var children := env.children(c, v, a.known);
    if v.Judged? { OfferGrows(env, a, children, if v.passed then Minimize else Expand, c.id); }
    if !t.stopped {
      forall i | 0 <= i < |t.rows| ensures SettledRow(env, t, t.rows[i]) {
        if i < |s.rows| {
          assert SettledRow(env, s, s.rows[i]);
          var known :| AllTaken(env, s, s.rows[i], known);
          assert AllTaken(env, t, t.rows[i], known);
        } else {
          if v.Judged? {
            forall k | 0 <= k < |children| ensures Taken(env, t, children[k]) {
              OfferTakes(env, a, children, if v.passed then Minimize else Expand, c.id, k);
            }
          }
          assert AllTaken(env, t, row, a.known);
        }
      }
    }
  }

  lemma {:induction false} EligibleParts(env: Environment, rows: seq<Row>, waiting: seq<Candidate>,
                                         other: seq<Candidate>)
    requires Parented(rows, waiting) && AllJustified(env, rows, waiting) && AllEligible(env, rows, other)
    ensures Parented(rows, other) && AllJustified(env, rows, other)
  {
  }

  lemma {:induction false} JudgeGrounded(env: Environment, s: Run, p: Progress, c: Candidate, rest: seq<Candidate>)
    returns (p': Progress)
    requires WellSeeded(env) && WellParented(env)
    requires Mirrors(env, s, p, [c] + rest + s.queue) && Grounded(env, s, [c] + rest + s.queue)
    ensures Mirrors(env, Judge(env, s, c), p', rest + Judge(env, s, c).queue)
    ensures Grounded(env, Judge(env, s, c), rest + Judge(env, s, c).queue)
  {
    hide Mirrors, WellSeeded, Honest, Parented, AllJustified, Settled, AllEligible, WellParented, Put, Ids;
    var v := env.evaluate(c);
    var row := Row(c, v);
    var a := Assess(env, s, c);
    var t := Judge(env, s, c);
    p' := JudgeMirrors(env, s, p, c, rest);
    assert [c] + rest + s.queue == [c] + (rest + s.queue);
    var q := AssessMirrors(env, s, p, c, rest + s.queue);
    MirrorsCover(env, a, q, rest + s.queue);
    MirrorsCover(env, t, p', rest + t.queue);
    RowsAppend(env, s.rows, [c] + rest + s.queue, row, rest + s.queue);
    if !s.stopped { JudgeSettles(env, s, c); }
    if v.Judged? {
      var children := env.children(c, v, a.known);
      var state := if v.passed then Minimize else Expand;
      OfferGrows(env, a, children, state, c.id);
      ChildEligible(env, s.rows, row, a.known);
      EligibleSplit(env, a, rest + a.queue);
      OfferEligible(env, a, rest, children, state, c.id);
      EligibleParts(env, a.rows, rest + a.queue, rest + t.queue);
    }
  }

  // --- rounds ------------------------------------------------------------------------------------

  lemma {:induction false} SweepGrounded(env: Environment, s: Run, p: Progress, current: seq<Candidate>)
    returns (p': Progress, waiting: seq<Candidate>)
    requires WellSeeded(env) && WellParented(env)
    requires Mirrors(env, s, p, current + s.queue) && Grounded(env, s, current + s.queue)
    ensures Mirrors(env, Sweep(env, s, current), p', waiting) && Grounded(env, Sweep(env, s, current), waiting)
    ensures !Sweep(env, s, current).stopped ==> waiting == Sweep(env, s, current).queue
    decreases |current|
  {
    hide Judge, Grounded, Mirrors;
    if current == [] {
      p', waiting := p, s.queue;
      assert current + s.queue == s.queue;
    } else if OutOfBudget(env, s) {
      p', waiting := p, current + s.queue;
      StopGrounded(env, s, p, waiting, s.queue + [current[0]]);
    } else {
      assert current + s.queue == [current[0]] + current[1..] + s.queue;
      var p1 := JudgeGrounded(env, s, p, current[0], current[1..]);
      p', waiting := SweepGrounded(env, Judge(env, s, current[0]), p1, current[1..]);
    }
  }

  lemma {:induction false} StopGrounded(env: Environment, s: Run, p: Progress, waiting: seq<Candidate>,
                                        queue: seq<Candidate>)
    requires Mirrors(env, s, p, waiting) && Grounded(env, s, waiting)
    ensures Mirrors(env, s.(queue := queue, stopped := true), p, waiting)
    ensures Grounded(env, s.(queue := queue, stopped := true), waiting)
  {
    hide Progressed, Agrees, Matches, Honest, Parented, AllJustified;
  }

  lemma {:induction false} NextRoundGrounded(env: Environment, s: Run, p: Progress, waiting: seq<Candidate>)
    requires Mirrors(env, s, p, waiting) && Grounded(env, s, waiting)
    ensures Mirrors(env, s.(round := s.round + 1, queue := []), p, waiting)
    ensures Grounded(env, s.(round := s.round + 1, queue := []), waiting)
  {
    hide Progressed, Agrees, Matches, Honest, Parented, AllJustified;
    if !s.stopped { SettledGrows(env, s, s.(round := s.round + 1, queue := [])); }
  }

  lemma {:induction false} RoundsGrounded(env: Environment, s: Run, p: Progress)
    returns (p': Progress, waiting: seq<Candidate>)
    requires WellSeeded(env) && WellParented(env)
    requires Mirrors(env, s, p, s.queue) && Grounded(env, s, s.queue)
    ensures Mirrors(env, Rounds(env, s), p', waiting) && Grounded(env, Rounds(env, s), waiting)
    ensures !Rounds(env, s).stopped ==> waiting == []
    decreases env.budget.maxRounds - s.round
  {
    hide Grounded, Mirrors;
    if s.queue == [] {
      p', waiting := p, s.queue;
    } else if s.round >= env.budget.maxRounds {
      p', waiting := p, s.queue;
      StopGrounded(env, s, p, s.queue, s.queue);
    } else {
      var s1 := s.(round := s.round + 1, queue := []);
      assert s.queue + s1.queue == s.queue;
      NextRoundGrounded(env, s, p, s.queue);
      SweepKeepsRound(env, s1, s.queue);
      p', waiting := SweepGrounded(env, s1, p, s.queue);
      var next := Sweep(env, s1, s.queue);
      if !next.stopped { p', waiting := RoundsGrounded(env, next, p'); }
    }
  }

  lemma {:induction false} BeginGrounded(env: Environment)
    requires WellParented(env)
    ensures Grounded(env, Begin(env), env.seeds)
  {
    assert RowIds([]) == {};
  }

  /** A finished loop: the invariants hold, and without a budget stop nothing waits. */
  lemma {:induction false} FinishedRun(env: Environment) returns (p: Progress, waiting: seq<Candidate>)
    requires WellSeeded(env) && WellParented(env)
    ensures Mirrors(env, Rounds(env, Begin(env)), p, waiting) && Grounded(env, Rounds(env, Begin(env)), waiting)
    ensures !Rounds(env, Begin(env)).stopped ==> waiting == []
  {
    hide Grounded, Mirrors;
    var p0 := BeginMirrors(env);
    BeginGrounded(env);
    p, waiting := RoundsGrounded(env, Begin(env), p0);
  }
}
