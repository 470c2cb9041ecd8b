/** The bounded candidate search, and the proof that the validator accepts every trace it writes. */
module Search {
  import opened Wrappers
  import opened Ledger
  import opened SearchReplay
  import Text

  datatype Budget = Budget(maxCandidates: nat, maxRounds: nat, maxEvaluations: nat)

  /** What the evaluator says of a candidate; `Invalid` stands for the exceptions it raises. */
  datatype Verdict = Invalid(error: string) | Judged(passed: bool, variables: nat, width: real, likelihood: real)

  /** Everything the loop consults: the declared candidates, the generator, the evaluator and the clock.
      `late(n)` says whether the time budget is spent once `n` events are on record. */
  datatype Environment = Environment(
    runId: string, budget: Budget, seeds: seq<Candidate>, declaredIds: set<string>, declaredFormulas: set<string>,
    evaluate: Candidate -> Verdict, children: (Candidate, Verdict, set<string>) -> seq<Candidate>, late: nat -> bool)

  datatype Row = Row(candidate: Candidate, verdict: Verdict)

  datatype Run = Run(queue: seq<Candidate>, queued: set<string>, known: set<string>, rows: seq<Row>,
                     notes: seq<Note>, round: nat, stopped: bool)

  predicate Passed(v: Verdict) {
    v.Judged? && v.passed
  }

  function Ids(cs: seq<Candidate>): set<string> {
    set i | 0 <= i < |cs| :: cs[i].id
  }

  function CandidatesOf(rows: seq<Row>): (cs: seq<Candidate>)
    ensures |cs| == |rows| && forall i :: 0 <= i < |rows| ==> cs[i] == rows[i].candidate
  {
    seq(|rows|, i requires 0 <= i < |rows| => rows[i].candidate)
  }

  function RowIds(rows: seq<Row>): set<string> {
    Ids(CandidatesOf(rows))
  }

  function Limit(env: Environment): nat {
    if env.budget.maxCandidates < env.budget.maxEvaluations then env.budget.maxCandidates else env.budget.maxEvaluations
  }

  // --- the steps -----------------------------------------------------------------------------

  function Log(s: Run, note: Note): Run {
    s.(notes := s.notes + [note])
  }

  /** Assignment to the evaluations dictionary: the row of a candidate, kept in place when there is one. */
  function Put(rows: seq<Row>, row: Row): seq<Row> {
    if rows == [] then [row]
    else if rows[0].candidate.id == row.candidate.id then [row] + rows[1..]
    else [rows[0]] + Put(rows[1..], row)
  }

  function ActivationNote(c: Candidate, state: State, round: nat, reason: Reason): Note {
    Note(c.id, state, round, reason, Activation(c))
  }

  function Begin(env: Environment): Run {
    Run(env.seeds, Ids(env.seeds), env.declaredFormulas, [],
        seq(|env.seeds|, i requires 0 <= i < |env.seeds| => ActivationNote(env.seeds[i], Seed, 0, DeclaredSeed)), 0,
          false)
  }

  predicate Skipped(env: Environment, s: Run, child: Candidate) {
    || child.id in s.queued
    || child.id in RowIds(s.rows)
    || (child.formula in s.known && child.id !in env.declaredIds)
  }

  function Activate(s: Run, child: Candidate, state: State, parent: string): Run {
    Log(s.(queue := s.queue + [child], queued := s.queued + {child.id}, known := s.known + {child.formula}),
        ActivationNote(child, state, s.round, ActivatedBy(parent)))
  }

  /** Offering the children of one candidate; the first that finds no room ends the offer. */
  function Offer(env: Environment, s: Run, children: seq<Candidate>, state: State, parent: string): Run
    decreases |children|
  {
    if children == [] then s
    else if Skipped(env, s, children[0]) then Offer(env, s, children[1..], state, parent)
    else if |s.queued| >= env.budget.maxCandidates then s.(stopped := true)
    else Offer(env, Activate(s, children[0], state, parent), children[1..], state, parent)
  }

  function ValidateNote(s: Run, c: Candidate): Note {
    Note(c.id, Validate, s.round, CandidateSelected, NoData)
  }

  function RejectNote(s: Run, c: Candidate, error: string): Note {
    Note(c.id, Reject, s.round, InvalidCandidate, Failure(error))
  }

  function EvaluateNote(s: Run, c: Candidate, v: Verdict): Note
    requires v.Judged?
  {
    Note(c.id, Evaluate, s.round, if v.passed then GatePassed else GateFailed, Quality(v.width, v.passed))
  }

  function RankNote(s: Run, c: Candidate, v: Verdict): Note
    requires v.Judged?
  {
    Note(c.id, Rank, s.round, CandidateRanked, Standing(v.variables, v.width, c.prior, v.likelihood))
  }

  /** The row and the events of one evaluation, before any child is offered. */
  function Assess(env: Environment, s: Run, c: Candidate): Run {
    var v := env.evaluate(c);
    var s1 := Log(s, ValidateNote(s, c)).(rows := Put(s.rows, Row(c, v)));
    if v.Invalid? then Log(s1, RejectNote(s, c, v.error))
    else Log(Log(s1, EvaluateNote(s, c, v)), RankNote(s, c, v))
  }

  function Judge(env: Environment, s: Run, c: Candidate): Run {
    var v := env.evaluate(c);
    var a := Assess(env, s, c);
    if v.Invalid? then a
    else Offer(env, a, env.children(c, v, a.known), if v.passed then Minimize else Expand, c.id)
  }

  predicate OutOfBudget(env: Environment, s: Run) {
    |s.rows| >= Limit(env) || env.late(|s.notes|)
  }

  /** One round over the candidates that were waiting. */
  function Sweep(env: Environment, s: Run, current: seq<Candidate>): Run
    decreases |current|
  {
    if current == [] then s
    else if OutOfBudget(env, s) then s.(queue := s.queue + [current[0]], stopped := true)
    else Sweep(env, Judge(env, s, current[0]), current[1..])
  }

  lemma {:induction false} OfferKeepsRound(env: Environment, s: Run, children: seq<Candidate>, state: State,
                                           parent: string)
    ensures Offer(env, s, children, state, parent).round == s.round
    decreases |children|
  {
    if children != [] {
      OfferKeepsRound(env, s, children[1..], state, parent);
      OfferKeepsRound(env, Activate(s, children[0], state, parent), children[1..], state, parent);
    }
  }

  lemma {:induction false} SweepKeepsRound(env: Environment, s: Run, current: seq<Candidate>)
    ensures Sweep(env, s, current).round == s.round
    decreases |current|
  {
    if current != [] {
      var c := current[0];
      var v := env.evaluate(c);
      var a := Assess(env, s, c);
      if v.Judged? {
        OfferKeepsRound(env, a, env.children(c, v, a.known), if v.passed then Minimize else Expand, c.id);
      }
      SweepKeepsRound(env, Judge(env, s, c), current[1..]);
    }
  }

  /** Rounds, until nothing waits or a budget stops the search. */
  function Rounds(env: Environment, s: Run): Run
    decreases if s.round < env.budget.maxRounds then env.budget.maxRounds - s.round else 0
  {
    if s.queue == [] then s
    else if s.round >= env.budget.maxRounds then s.(stopped := true)
    else
      var next := Sweep(env, s.(round := s.round + 1, queue := []), s.queue);
      SweepKeepsRound(env, s.(round := s.round + 1, queue := []), s.queue);
      if next.stopped then next else Rounds(env, next)
  }

  // --- ledger entries ----------------------------------------------------------------------

  function EventId(runId: string, n: nat): string {
    runId + "-event-" + Text.Padded(n, 6)
  }

  function RevisionId(runId: string, n: nat): string {
    EventId(runId, n) + "-r1"
  }

  lemma {:induction false} EventIdInjective(runId: string, m: nat, n: nat)
    ensures EventId(runId, m) != ""
    ensures RevisionId(runId, m) != ""
    ensures m != n ==> EventId(runId, m) != EventId(runId, n) && RevisionId(runId, m) != RevisionId(runId, n)
  {
    if RevisionId(runId, m) == RevisionId(runId, n) {
      Text.SuffixInjective(EventId(runId, m), EventId(runId, n), "-r1");
    }
    if EventId(runId, m) == EventId(runId, n) {
      Text.PrefixInjective(runId + "-event-", Text.Padded(m, 6), Text.Padded(n, 6));
      Text.PaddedInjective(m, n, 6);
    }
  }

  /** The record of the `n`-th event, counted from one. */
  function RecordOf(runId: string, n: nat, note: Note): Record<Event> {
    Record([EventId(runId, n), note.candidate], Some(Revision(RevisionId(runId, n), 1, "")),
           Event(EventId(runId, n), runId, note))
  }

  function EntryOf(runId: string, n: nat, note: Note, hash: Record<Event> -> string): Entry<Event> {
    Entry(n, "search_event", EventId(runId, n), RevisionId(runId, n), hash(RecordOf(runId, n, note)),
      RecordOf(runId, n, note))
  }

  function Exported(runId: string, notes: seq<Note>, hash: Record<Event> -> string): (es: seq<Entry<Event>>)
    ensures |es| == |notes| && forall i :: 0 <= i < |notes| ==> es[i] == EntryOf(runId, i + 1, notes[i], hash)
  {
    seq(|notes|, i requires 0 <= i < |notes| => EntryOf(runId, i + 1, notes[i], hash))
  }

  lemma {:induction false} ExportedPrefix(runId: string, notes: seq<Note>, hash: Record<Event> -> string, k: nat)
    requires k <= |notes|
    ensures Exported(runId, notes, hash)[..k] == Exported(runId, notes[..k], hash)
  {
    hide EntryOf;
  }

  lemma {:induction false} NoLatest(runId: string, notes: seq<Note>, hash: Record<Event> -> string, n: nat)
    requires n > |notes|
    ensures Latest(Exported(runId, notes, hash), "search_event", EventId(runId, n)) == None
  {
    if notes != [] {
      var k := |notes| - 1;
      ExportedPrefix(runId, notes, hash, k);
      EventIdInjective(runId, |notes|, n);
      NoLatest(runId, notes[..k], hash, n);
    }
  }

  /** The next event always continues the lineage, so the ledger never refuses it. */
  lemma {:induction false} NextContinues(runId: string, notes: seq<Note>, note: Note, hash: Record<Event> -> string)
    ensures NewEntry(Exported(runId, notes, hash), "search_event", RecordOf(runId, |notes| + 1, note), hash)
         == EntryOf(runId, |notes| + 1, note, hash)
    ensures Continues(Exported(runId, notes, hash), EntryOf(runId, |notes| + 1, note, hash))
  {
    var n := |notes| + 1;
    EventIdInjective(runId, n, n);
    NoLatest(runId, notes, hash, n);
    forall i | 0 <= i < |notes| ensures Exported(runId, notes, hash)[i].revisionId != RevisionId(runId, n) {
      EventIdInjective(runId, i + 1, n);
    }
    hide EventId, RevisionId;
    assert StableId(RecordOf(runId, n, note).ids) == EventId(runId, n);
  }

  lemma {:induction false} ExportedLineage(runId: string, notes: seq<Note>, hash: Record<Event> -> string)
    ensures Lineage(Exported(runId, notes, hash), hash)
  {
    var es := Exported(runId, notes, hash);
    forall i | 0 <= i < |es|
      ensures es[i].sequence == i + 1 && es[i].payloadHash == hash(es[i].payload) && Continues(es[..i], es[i])
    {
      ExportedPrefix(runId, notes, hash, i);
      NextContinues(runId, notes[..i], notes[i], hash);
    }
  }

  lemma {:induction false} IdentityHolds(runId: string, notes: seq<Note>, note: Note, hash: Record<Event> -> string)
    ensures Identity(EntryOf(runId, |notes| + 1, note, hash), |notes| + 1, runId, hash,
                     EventIds(Exported(runId, notes, hash)), RevisionIds(Exported(runId, notes, hash))).None?
  {
    var n := |notes| + 1;
    var es := Exported(runId, notes, hash);
    EventIdInjective(runId, n, n);
    forall i | 0 <= i < |notes|
      ensures es[i].payload.body.eventId != EventId(runId, n) && es[i].revisionId != RevisionId(runId, n)
    {
      EventIdInjective(runId, i + 1, n);
    }
    hide EventId, RevisionId;
  }

  /** Validating the exported ledger is running the transitions over the notes. */
  lemma {:induction false} ReplayIsProgress(runId: string, notes: seq<Note>, hash: Record<Event> -> string)
    ensures Replay(Exported(runId, notes, hash), runId, hash) == Progressed(notes)
  {
    var es := Exported(runId, notes, hash);
    if notes != [] {
      var k := |notes| - 1;
      ReplayIsProgress(runId, notes[..k], hash);
      ExportedPrefix(runId, notes, hash, k);
      IdentityHolds(runId, notes[..k], notes[k], hash);
      hide Advance, Identity;
    }
  }
}
