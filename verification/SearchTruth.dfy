/** Every event of a search tells the truth about the candidate it names. */
module SearchTruth {
  import opened Wrappers
  import opened Ledger
  import opened SearchReplay
  import opened Search
  import opened SearchTrace
  import opened SearchResult

  ghost predicate HasRow(rows: seq<Row>, id: string, p: Row -> bool) {
    exists j :: 0 <= j < |rows| && rows[j].candidate.id == id && p(rows[j])
  }

  predicate DidPass(row: Row) {
    Passed(row.verdict)
  }

  predicate DidFail(row: Row) {
    row.verdict.Judged? && !row.verdict.passed
  }

  predicate Evaluated(row: Row, n: Note) {
    row.verdict.Judged? && n.data == Quality(row.verdict.width, row.verdict.passed)
    && n.reason == if row.verdict.passed then GatePassed else GateFailed
  }

  predicate Ranked(row: Row, n: Note) {
    row.verdict.Judged?
    && n.data == Standing(row.verdict.variables, row.verdict.width, row.candidate.prior, row.verdict.likelihood)
  }

  predicate Refused(row: Row, n: Note) {
    row.verdict.Invalid? && n.data == Failure(row.verdict.error)
  }

  /** The event against the rows: a minimisation follows a passed parent and an expansion a failed
      one, and evaluations, ranks and rejections repeat the verdict of their candidate. */
  ghost predicate Truthful(rows: seq<Row>, n: Note) {
    match n.state
    case Seed => n.reason == DeclaredSeed && n.data.Activation? && n.data.candidate.id == n.candidate
    case Minimize =>
      && n.data.Activation? && n.data.candidate.id == n.candidate
      && n.reason.ActivatedBy? && HasRow(rows, n.reason.parent, (r: Row) => DidPass(r))
    case Expand =>
      && n.data.Activation? && n.data.candidate.id == n.candidate
      && n.reason.ActivatedBy? && HasRow(rows, n.reason.parent, (r: Row) => DidFail(r))
    case Validate => HasRow(rows, n.candidate, (r: Row) => true)
    case Evaluate => HasRow(rows, n.candidate, (r: Row) => Evaluated(r, n))
    case Rank => HasRow(rows, n.candidate, (r: Row) => Ranked(r, n))
    case Reject => HasRow(rows, n.candidate, (r: Row) => Refused(r, n))
    case _ => false
  }

  ghost predicate AllTruthful(rows: seq<Row>, notes: seq<Note>) {
    forall i :: 0 <= i < |notes| ==> Truthful(rows, notes[i])
  }

  lemma {:induction false} RowStays(rows: seq<Row>, row: Row, id: string, p: Row -> bool)
    requires HasRow(rows, id, p)
    ensures HasRow(rows + [row], id, p)
  {
    var j :| 0 <= j < |rows| && rows[j].candidate.id == id && p(rows[j]);
    assert (rows + [row])[j] == rows[j];
  }

  lemma {:induction false} NewRow(rows: seq<Row>, row: Row, p: Row -> bool)
    requires p(row)
    ensures HasRow(rows + [row], row.candidate.id, p)
  {
    assert (rows + [row])[|rows|] == row;
  }

  lemma {:induction false} TruthStays(rows: seq<Row>, row: Row, n: Note)
    requires Truthful(rows, n)
    ensures Truthful(rows + [row], n)
  {
    hide HasRow;
    match n.state
    case Minimize => RowStays(rows, row, n.reason.parent, (r: Row) => DidPass(r));
    case Expand => RowStays(rows, row, n.reason.parent, (r: Row) => DidFail(r));
    case Validate => RowStays(rows, row, n.candidate, (r: Row) => true);
    case Evaluate => RowStays(rows, row, n.candidate, (r: Row) => Evaluated(r, n));
    case Rank => RowStays(rows, row, n.candidate, (r: Row) => Ranked(r, n));
    case Reject => RowStays(rows, row, n.candidate, (r: Row) => Refused(r, n));
    case _ =>
  }

  lemma {:induction false} AllStay(rows: seq<Row>, row: Row, notes: seq<Note>)
    requires AllTruthful(rows, notes)
    ensures AllTruthful(rows + [row], notes)
  {
    forall i | 0 <= i < |notes| ensures Truthful(rows + [row], notes[i]) { TruthStays(rows, row, notes[i]); }
  }

  lemma {:induction false} OneMore(rows: seq<Row>, notes: seq<Note>, n: Note)
    requires AllTruthful(rows, notes) && Truthful(rows, n)
    ensures AllTruthful(rows, notes + [n])
  {
    hide Truthful;
  }

  lemma {:induction false} OfferTruthful(env: Environment, s: Run, children: seq<Candidate>, state: State,
                                         parent: string)
    requires AllTruthful(s.rows, s.notes)
    requires
      || (state == Minimize && HasRow(s.rows, parent, (r: Row) => DidPass(r)))
      || (state == Expand && HasRow(s.rows, parent, (r: Row) => DidFail(r)))
    ensures Offer(env, s, children, state, parent).rows == s.rows
    ensures AllTruthful(s.rows, Offer(env, s, children, state, parent).notes)
    decreases |children|
  {
    hide HasRow, Skipped, AllTruthful;
    if children != [] {
      OfferTruthful(env, s, children[1..], state, parent);
      var s1 := Activate(s, children[0], state, parent);
      OneMore(s.rows, s.notes, ActivationNote(children[0], state, s.round, ActivatedBy(parent)));
      OfferTruthful(env, s1, children[1..], state, parent);
    }
  }

  lemma {:induction false} AssessTruthful(env: Environment, s: Run, c: Candidate)
    requires AllTruthful(s.rows, s.notes)
    requires Assess(env, s, c).rows == s.rows + [Row(c, env.evaluate(c))]
    ensures AllTruthful(Assess(env, s, c).rows, Assess(env, s, c).notes)
  {
    hide HasRow, Put, AllTruthful;
    var v := env.evaluate(c);
    var row := Row(c, v);
    var rows := s.rows + [row];
    AllStay(s.rows, row, s.notes);
    NewRow(s.rows, row, (r: Row) => true);
    OneMore(rows, s.notes, ValidateNote(s, c));
    var notes := s.notes + [ValidateNote(s, c)];
    if v.Invalid? {
      var n := RejectNote(s, c, v.error);
      NewRow(s.rows, row, (r: Row) => Refused(r, n));
      OneMore(rows, notes, n);
    } else {
      var n, m := EvaluateNote(s, c, v), RankNote(s, c, v);
      NewRow(s.rows, row, (r: Row) => Evaluated(r, n));
      OneMore(rows, notes, n);
      NewRow(s.rows, row, (r: Row) => Ranked(r, m));
      OneMore(rows, notes + [n], m);
    }
  }

  lemma {:induction false} JudgeTruthful(env: Environment, s: Run, c: Candidate)
    requires AllTruthful(s.rows, s.notes)
    requires Assess(env, s, c).rows == s.rows + [Row(c, env.evaluate(c))]
    ensures AllTruthful(Judge(env, s, c).rows, Judge(env, s, c).notes)
  {
    AssessTruthful(env, s, c);
    var v := env.evaluate(c);
    var a := Assess(env, s, c);
    hide HasRow, AllTruthful, Offer, Assess;
    if v.Judged? {
      if v.passed {
        NewRow(s.rows, Row(c, v), (r: Row) => DidPass(r));
      } else {
        NewRow(s.rows, Row(c, v), (r: Row) => DidFail(r));
      }
      OfferTruthful(env, a, env.children(c, v, a.known), if v.passed then Minimize else Expand, c.id);
    }
  }

  lemma {:induction false} SweepTruthful(env: Environment, s: Run, p: Progress, current: seq<Candidate>)
    requires WellSeeded(env) && Mirrors(env, s, p, current + s.queue) && AllTruthful(s.rows, s.notes)
    ensures AllTruthful(Sweep(env, s, current).rows, Sweep(env, s, current).notes)
    decreases |current|
  {
    hide Judge, Mirrors, AllTruthful, WellSeeded;
    if current != [] && !OutOfBudget(env, s) {
      var c := current[0];
      assert current + s.queue == [c] + current[1..] + s.queue == [c] + (current[1..] + s.queue);
      var q := AssessMirrors(env, s, p, c, current[1..] + s.queue);
      JudgeTruthful(env, s, c);
      var p1 := JudgeMirrors(env, s, p, c, current[1..]);
      SweepTruthful(env, Judge(env, s, c), p1, current[1..]);
    }
  }

  lemma {:induction false} RoundsTruthful(env: Environment, s: Run, p: Progress)
    requires WellSeeded(env) && Mirrors(env, s, p, s.queue) && AllTruthful(s.rows, s.notes)
    ensures AllTruthful(Rounds(env, s).rows, Rounds(env, s).notes)
    decreases if s.round < env.budget.maxRounds then env.budget.maxRounds - s.round else 0
  {
    hide Sweep, Mirrors, AllTruthful, WellSeeded;
    if s.queue != [] && s.round < env.budget.maxRounds {
      var s1 := s.(round := s.round + 1, queue := []);
      NextRoundMirrors(env, s, p, s.queue);
      SweepKeepsRound(env, s1, s.queue);
      SweepTruthful(env, s1, p, s.queue);
      var p1, waiting := SweepMirrors(env, s1, p, s.queue);
      var next := Sweep(env, s1, s.queue);
      if !next.stopped { RoundsTruthful(env, next, p1); }
    }
  }

  /** Every event a search writes before its terminal one agrees with the rows it ends with. */
  lemma {:induction false} TraceIsTruthful(env: Environment)
    requires WellSeeded(env)
    ensures var s := Searched(env);
      forall i :: 0 <= i < |s.notes| ==> Truthful(s.rows, s.notes[i])
  {
    var p := BeginMirrors(env);
    BeginTruthful(env);
    hide Mirrors, Rounds, WellSeeded, Begin;
    RoundsTruthful(env, Begin(env), p);
  }

  lemma {:induction false} BeginTruthful(env: Environment)
    ensures AllTruthful(Begin(env).rows, Begin(env).notes) && Begin(env).queue == env.seeds
  {
  }
}
