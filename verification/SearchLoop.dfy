/** The search as the loop that updates its queue, its evaluations and its ledger in place. */
module SearchLoop {
  import opened Wrappers
  import opened Reals
  import opened Ledger
  import opened SearchReplay
  import opened Search
  import opened SearchTrace
  import opened SearchOutcome
  import opened SearchResult

  /** One turn of the offer. */
  lemma {:induction false} OfferStep(env: Environment, s: Run, children: seq<Candidate>, state: State, parent: string)
    requires children != []
    ensures Offer(env, s, children, state, parent)
         == if Skipped(env, s, children[0]) then Offer(env, s, children[1..], state, parent)
            else if |s.queued| >= env.budget.maxCandidates then s.(stopped := true)
            else Offer(env, Activate(s, children[0], state, parent), children[1..], state, parent)
  {
    hide Skipped, ActivationNote;
  }

  lemma {:induction false} OfferNone(env: Environment, s: Run, children: seq<Candidate>, state: State, parent: string)
    requires children == []
    ensures Offer(env, s, children, state, parent) == s
  {
  }

  class FermiSearch {
    const env: Environment
    const ledger: AnalysisLedger<Event>
    var queue: seq<Candidate>
    var queued: set<string>
    var known: set<string>
    var rows: seq<Row>
    var notes: seq<Note>
    var round: nat
    var stopped: bool

    ghost predicate Valid()
      reads this, ledger
    {
      && ledger.runId == env.runId
      && ledger.entries == Exported(env.runId, notes, ledger.hash)
    }

    function View(): Run
      reads this
    {
      Run(queue, queued, known, rows, notes, round, stopped)
    }

    /** Queues and records the seeds. */
    constructor (env: Environment, hash: Record<Event> -> string)
      requires env.runId != ""
      ensures this.env == env && ledger.hash == hash && fresh(ledger)
      ensures Valid() && View() == Begin(env)
    {
      this.env := env;
      var l := new AnalysisLedger(env.runId, hash);
      ledger := l;
      queue := env.seeds;
      queued := Ids(env.seeds);
      known := env.declaredFormulas;
      rows, notes, round, stopped := [], [], 0, false;
      new;
      for i := 0 to |env.seeds|
        modifies this`notes, ledger`entries
        invariant Valid() && ledger == l && ledger.hash == hash && this.env == env
        invariant notes == Begin(env).notes[..i]
        invariant queue == env.seeds && queued == Ids(env.seeds) && known == env.declaredFormulas
        invariant rows == [] && round == 0 && !stopped
      {
        Record(ActivationNote(env.seeds[i], Seed, 0, DeclaredSeed));
        assert Begin(env).notes[..i + 1]
          == Begin(env).notes[..i] + [ActivationNote(env.seeds[i], Seed, 0, DeclaredSeed)];
      }
      assert Begin(env).notes[..|env.seeds|] == Begin(env).notes;
    }

    /** Numbers an event and appends it; the ledger cannot refuse it. */
    method Record(note: Note)
      requires Valid()
      modifies this`notes, ledger`entries
      ensures Valid() && notes == old(notes) + [note]
    {
      hide EntryOf, RecordOf, EventId, RevisionId, Lineage, Continues, NewEntry;
      var n := |notes| + 1;
      ExportedLineage(env.runId, notes, ledger.hash);
      NextContinues(env.runId, notes, note, ledger.hash);
      ExportedLineage(env.runId, notes + [note], ledger.hash);
      assert Exported(env.runId, notes + [note], ledger.hash)
          == Exported(env.runId, notes, ledger.hash) + [EntryOf(env.runId, n, note, ledger.hash)];
      var result := ledger.Append("search_event", RecordOf(env.runId, n, note));
      notes := notes + [note];
    }

    method OfferChildren(children: seq<Candidate>, state: State, parent: string)
      requires Valid()
      modifies this`queue, this`queued, this`known, this`notes, this`stopped, ledger`entries
      ensures Valid() && View() == Offer(env, old(View()), children, state, parent)
    {
      hide Exported, Offer, ActivationNote, Skipped;
      for i := 0 to |children|
        invariant Valid()
        invariant rows == old(rows) && round == old(round)
        invariant Offer(env, View(), children[i..], state, parent) == Offer(env, old(View()), children, state, parent)
      {
        var child := children[i];
        assert children[i..][0] == child && children[i..][1..] == children[i + 1..];
        OfferStep(env, View(), children[i..], state, parent);
        if Skipped(env, View(), child) { continue; }
        if |queued| >= env.budget.maxCandidates {
          stopped := true;
          return;
        }
        queue := queue + [child];
        queued := queued + {child.id};
        known := known + {child.formula};
        Record(ActivationNote(child, state, round, ActivatedBy(parent)));
      }
      OfferNone(env, View(), children[|children|..], state, parent);
    }

    method JudgeCandidate(c: Candidate)
      requires Valid()
      modifies this, ledger`entries
      ensures Valid() && View() == Judge(env, old(View()), c)
    {
      hide Exported, Offer;
      Record(Note(c.id, Validate, round, CandidateSelected, NoData));
      var v := env.evaluate(c);
      rows := Put(rows, Row(c, v));
      match v
      case Invalid(error) =>
        Record(Note(c.id, Reject, round, InvalidCandidate, Failure(error)));
      case Judged(passed, variables, width, likelihood) =>
        Record(Note(c.id, Evaluate, round, if passed then GatePassed else GateFailed, Quality(width, passed)));
        Record(Note(c.id, Rank, round, CandidateRanked, Standing(variables, width, c.prior, likelihood)));
        OfferChildren(env.children(c, v, known), if passed then Minimize else Expand, c.id);
    }

    method SweepRound(current: seq<Candidate>)
      requires Valid()
      modifies this, ledger`entries
      ensures Valid() && View() == Sweep(env, old(View()), current)
    {
      hide Exported, Judge;
      for i := 0 to |current|
        invariant Valid()
        invariant Sweep(env, View(), current[i..]) == Sweep(env, old(View()), current)
      {
        var c := current[i];
        assert current[i..][0] == c && current[i..][1..] == current[i + 1..];
        if |rows| >= Limit(env) || env.late(|notes|) {
          queue := queue + [c];
          stopped := true;
          return;
        }
        JudgeCandidate(c);
      }
      assert current[|current|..] == [];
    }

    method RunRounds()
      requires Valid() && !stopped
      modifies this, ledger`entries
      ensures Valid() && View() == Rounds(env, old(View()))
    {
      hide Exported, Sweep;
      while queue != []
        invariant Valid() && !stopped
        invariant Rounds(env, View()) == Rounds(env, old(View()))
        decreases if round < env.budget.maxRounds then env.budget.maxRounds - round else 0
      {
        if round >= env.budget.maxRounds {
          stopped := true;
          return;
        }
        ghost var before := View();
        var current := queue;
        queue := [];
        round := round + 1;
        SweepKeepsRound(env, View(), current);
        SweepRound(current);
        if stopped { return; }
      }
    }

    method PassedAblationParents() returns (parents: set<string>)
      ensures forall id :: id in parents <==> Superseded(rows, id)
    {
      parents := {};
      for i := 0 to |rows|
        invariant forall id :: id in parents <==> exists k :: 0 <= k < i && SupersededBy(rows[k], id)
      {
        var row := rows[i];
        if Passed(row.verdict) && row.candidate.kind.AblateKind? && row.candidate.parent.Some?
          && row.candidate.parent.value != "" {
          parents := parents + {row.candidate.parent.value};
          assert SupersededBy(row, row.candidate.parent.value);
        }
      }
    }

    method CollectMinimal() returns (minimal: seq<Row>)
      ensures minimal == MinimalRows(rows, rows)
    {
      var parents := PassedAblationParents();
      minimal := [];
      for i := 0 to |rows|
        invariant minimal == MinimalRows(rows, rows[..i])
      {
        assert rows[..i + 1][..i] == rows[..i];
        if Passed(rows[i].verdict) && rows[i].candidate.id !in parents { minimal := minimal + [rows[i]]; }
      }
      assert rows[..|rows|] == rows;
    }

    method PosteriorTotal() returns (total: real)
      ensures total == Total(rows)
    {
      total := 0.0;
      for i := 0 to |rows|
        invariant total == Total(rows[..i])
      {
        assert rows[..i + 1][..i] == rows[..i];
        total := total + Weight(rows[i]);
      }
      assert rows[..|rows|] == rows;
    }

    method SelectBest(minimal: seq<Row>, total: real) returns (best: Option<Row>)
      requires forall i :: 0 <= i < |minimal| ==> minimal[i].verdict.Judged?
      ensures best == Best(minimal, total)
    {
      best := None;
      for i := 0 to |minimal|
        invariant best == Best(minimal[..i], total)
      {
        assert minimal[..i + 1][..i] == minimal[..i];
        if best.None? || Precedes(minimal[i], best.value, total) { best := Some(minimal[i]); }
      }
      assert minimal[..|minimal|] == minimal;
    }

    /** Ranks, selects and writes the terminal event. */
    method Finish() returns (outcome: Outcome)
      requires Valid()
      modifies this`notes, ledger`entries
      ensures Valid() && outcome == Decide(old(View())) && View() == Conclude(old(View()))
    {
      hide Exported, Best, MinimalRows, Total;
      var total := PosteriorTotal();
      var minimal := CollectMinimal();
      MinimalRowsJudged(rows, rows);
      var best := SelectBest(minimal, total);
      var status := if stopped then BudgetExhausted else if minimal == [] then InsufficientInformation else ResultFound;
      outcome := Outcome(status, if status.ResultFound? then best else None);
      Record(TerminalNote(View(), outcome));
    }
  }

  lemma {:induction false} StatusTellsStop(s: Run)
    ensures Decide(s).status == BudgetExhausted <==> s.stopped
  {
  }

  lemma {:induction false} NothingMatches(activated: seq<Activated>)
    ensures Matches(activated, []) ==> activated == []
  {
  }

  /** What the validator makes of a search's own ledger: the evaluations, the terminal event and, as
      pending, the candidates still waiting. */
  ghost predicate Recovers(env: Environment, outcome: Outcome, rows: seq<Row>,
                           recovered: Result<Recovered, ReplayError>, waiting: seq<Candidate>) {
    && recovered.Ok? && recovered.value.evaluated.Keys == RowIds(rows)
    && recovered.value.eventCount == |Conclude(Searched(env)).notes|
    && recovered.value.terminal.Some? && recovered.value.terminal.value.reason == Finished(outcome.status)
    && Matches(recovered.value.pending, waiting) && Searched(env).queued == Ids(CandidatesOf(rows) + waiting)
    && (outcome.status != BudgetExhausted ==> recovered.value.pending == [])
    && recovered.value.terminal.value.candidate
       == if outcome.selected.Some? then outcome.selected.value.candidate.id else ""
  }

  lemma {:induction false} OwnLedgerRecovers(env: Environment, hash: Record<Event> -> string)
    returns (p: Progress, waiting: seq<Candidate>)
    requires WellSeeded(env)
    ensures var entries := Exported(env.runId, Conclude(Searched(env)).notes, hash);
      && Replay(entries, env.runId, hash) == Ok(p)
      && Recovers(env, Decide(Searched(env)), Searched(env).rows, Ok(Recover(entries, p)), waiting)
  {
    hide Rounds, Decide, Replay, Lineage, Conclude, WellSeeded, Matches, Pending;
    p, waiting := TraceIsAccepted(env, hash);
    StatusTellsStop(Searched(env));
    NothingMatches(Recover(Exported(env.runId, Conclude(Searched(env)).notes, hash), p).pending);
  }

  /** The whole search: the outcome and the evaluations are those of the functional search, and over
      distinct named seeds and named children its ledger is accepted by the validator, which recovers
      the evaluations and the pending candidates. */
  method SearchFermi(env: Environment, hash: Record<Event> -> string)
    returns (outcome: Outcome, rows: seq<Row>, recovered: Result<Recovered, ReplayError>, ghost waiting: seq<Candidate>)
    requires env.runId != ""
    ensures outcome == Decide(Searched(env)) && rows == Searched(env).rows
    ensures WellSeeded(env) ==> Recovers(env, outcome, rows, recovered, waiting)
  {
    hide Rounds, Decide, Replay, Lineage, Exported, Conclude, WellSeeded, Matches, Recovers;
    var search := new FermiSearch(env, hash);
    search.RunRounds();
    outcome := search.Finish();
    rows := search.rows;
    recovered := ReplaySearchLedger(search.ledger.entries, env.runId, hash);
    waiting := [];
    if WellSeeded(env) {
      ghost var p;
      p, waiting := OwnLedgerRecovers(env, hash);
    }
  }
}
