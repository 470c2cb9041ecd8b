/** Every run of the search writes a trace the independent validator accepts, and from which it
    recovers the same evaluations and the same pending candidates. */
module SearchTrace {
  import opened Wrappers
  import opened Ledger
  import opened SearchReplay
  import opened Search

  /** What the loop needs of its generator: seeds are distinct and every candidate has an identifier. */
  ghost predicate WellSeeded(env: Environment) {
    && DistinctIds(env.seeds)
    && (forall i :: 0 <= i < |env.seeds| ==> env.seeds[i].id != "")
    && (forall c, v, known, i :: 0 <= i < |env.children(c, v, known)| ==> env.children(c, v, known)[i].id != "")
  }

  ghost predicate DistinctIds(cs: seq<Candidate>) {
    forall i, j :: 0 <= i < j < |cs| ==> cs[i].id != cs[j].id
  }

  function All(s: Run, waiting: seq<Candidate>): (cs: seq<Candidate>) {
    CandidatesOf(s.rows) + waiting
  }

  ghost predicate Matches(activated: seq<Activated>, cs: seq<Candidate>) {
    |activated| == |cs|
    && forall k :: 0 <= k < |cs| ==> activated[k].id == cs[k].id && activated[k].data == Activation(cs[k])
  }

  /** The rows agree with what the validator keeps about completed candidates. */
  ghost predicate Agrees(rows: seq<Row>, p: Progress) {
    && p.validated == p.evaluated.Keys == RowIds(rows)
    && p.ranked <= p.evaluated.Keys
    && (forall i :: 0 <= i < |rows| ==>
      && rows[i].candidate.id in p.evaluated
      && (p.evaluated[rows[i].candidate.id].outcome == Evaluate <==> rows[i].verdict.Judged?))
  }

  /** The validator's state after the trace so far: candidates were activated in the order of the rows
      followed by those still waiting. */
  ghost predicate Mirrors(env: Environment, s: Run, p: Progress, waiting: seq<Candidate>) {
    && Progressed(s.notes) == Ok(p)
    && p.terminal.None?
    && 0 <= p.lastRound <= s.round
    && DistinctIds(All(s, waiting))
    && s.queued == Ids(All(s, waiting))
    && Matches(p.activated, All(s, waiting))
    && Agrees(s.rows, p)
  }

  lemma {:induction false} ProgressedStep(notes: seq<Note>, n: Note, p: Progress)
    requires Progressed(notes) == Ok(p)
    ensures Progressed(notes + [n]) == Advance(p, n, |notes| + 1)
  {
    assert (notes + [n])[..|notes|] == notes;
  }

  lemma {:induction false} IdsAt(cs: seq<Candidate>, k: nat)
    requires k < |cs|
    ensures cs[k].id in Ids(cs)
  {
  }

  lemma {:induction false} IdsAppend(cs: seq<Candidate>, c: Candidate)
    ensures Ids(cs + [c]) == Ids(cs) + {c.id}
  {
    var more := cs + [c];
    forall x | x in Ids(cs) + {c.id} ensures x in Ids(more) {
      if x in Ids(cs) {
        var i :| 0 <= i < |cs| && cs[i].id == x;
        assert more[i].id == x;
      } else {
        assert more[|cs|].id == x;
      }
    }
  }

  lemma {:induction false} ActivatedExactly(p: Progress, cs: seq<Candidate>, id: string)
    requires Matches(p.activated, cs)
    ensures IsActivated(p, id) <==> id in Ids(cs)
  {
    if IsActivated(p, id) {
      var i :| 0 <= i < |p.activated| && p.activated[i].id == id;
      assert cs[i].id == id;
    }
    if id in Ids(cs) {
      var i :| 0 <= i < |cs| && cs[i].id == id;
      assert p.activated[i].id == id;
    }
  }

  // --- activations -----------------------------------------------------------------------------

  lemma {:induction false} ActivationAccepted(notes: seq<Note>, p: Progress, n: Note) returns (q: Progress)
    requires Progressed(notes) == Ok(p) && p.terminal.None? && 0 <= p.lastRound <= n.round && !n.reason.Blank?
    requires ActivationState(n.state) && n.candidate != "" && !IsActivated(p, n.candidate)
    ensures Progressed(notes + [n]) == Ok(q)
    ensures q == p.(activated := p.activated + [Activated(n.candidate, |notes| + 1, n.data)],
                    lastRound := n.round, lastState := Some(n.state))
  {
    ProgressedStep(notes, n, p);
    hide IsActivated, Progressed;
    q := Advance(p, n, |notes| + 1).value;
  }

  lemma {:induction false} DistinctMore(cs: seq<Candidate>, c: Candidate)
    requires DistinctIds(cs) && c.id !in Ids(cs)
    ensures DistinctIds(cs + [c])
  {
    forall i | 0 <= i < |cs| ensures cs[i].id != c.id { IdsAt(cs, i); }
  }

  lemma {:induction false} ActivateMirrors(env: Environment, s: Run, p: Progress, waiting: seq<Candidate>,
                                           child: Candidate, state: State, reason: Reason, s': Run)
    returns (p': Progress)
    requires Mirrors(env, s, p, waiting) && ActivationState(state) && !reason.Blank?
    requires child.id != "" && child.id !in s.queued
    requires s'.rows == s.rows && s'.round == s.round && s'.queued == s.queued + {child.id}
    requires s'.notes == s.notes + [ActivationNote(child, state, s.round, reason)]
    ensures Mirrors(env, s', p', waiting + [child])
  {
    hide IsActivated, Progressed, Ids, DistinctIds;
    var cs := All(s, waiting);
    ActivatedExactly(p, cs, child.id);
    p' := ActivationAccepted(s.notes, p, ActivationNote(child, state, s.round, reason));
    assert All(s', waiting + [child]) == cs + [child];
    IdsAppend(cs, child);
    DistinctMore(cs, child);
    hide All, RowIds;
  }

  lemma {:induction false} OfferMirrors(env: Environment, s: Run, p: Progress, before: seq<Candidate>,
                                        children: seq<Candidate>, state: State, parent: string) returns (p': Progress)
    requires Mirrors(env, s, p, before + s.queue) && ActivationState(state)
    requires forall i :: 0 <= i < |children| ==> children[i].id != ""
    ensures
      var t := Offer(env, s, children, state, parent);
      Mirrors(env, t, p', before + t.queue)
    decreases |children|
  {
    hide Mirrors, ActivationNote;
    if children == [] {
      p' := p;
    } else if Skipped(env, s, children[0]) {
      p' := OfferMirrors(env, s, p, before, children[1..], state, parent);
    } else if |s.queued| >= env.budget.maxCandidates {
      p' := p;
      StopMirrors(env, s, p, before + s.queue);
    } else {
      var s1 := Activate(s, children[0], state, parent);
      var p1 := ActivateMirrors(env, s, p, before + s.queue, children[0], state, ActivatedBy(parent), s1);
      assert before + s.queue + [children[0]] == before + s1.queue;
      p' := OfferMirrors(env, s1, p1, before, children[1..], state, parent);
    }
  }

  // --- evaluations -----------------------------------------------------------------------------

  lemma {:induction false} PutFresh(rows: seq<Row>, row: Row)
    requires row.candidate.id !in RowIds(rows)
    ensures Put(rows, row) == rows + [row]
  {
    if rows == [] {
    } else {
      IdsAt(CandidatesOf(rows), 0);
      forall x | x in RowIds(rows[1..]) ensures x in RowIds(rows) {
        var i :| 0 <= i < |CandidatesOf(rows[1..])| && CandidatesOf(rows[1..])[i].id == x;
        IdsAt(CandidatesOf(rows), i + 1);
      }
      PutFresh(rows[1..], row);
      assert [rows[0]] + (rows[1..] + [row]) == rows + [row];
    }
  }

  lemma {:induction false} RejectionAccepted(notes: seq<Note>, p: Progress, a: Note, b: Note)
    requires Progressed(notes) == Ok(p) && p.terminal.None? && 0 <= p.lastRound <= a.round == b.round
    requires IsActivated(p, a.candidate) && a.candidate == b.candidate
    requires a.candidate !in p.validated && a.candidate !in p.evaluated
    requires a.state.Validate? && b.state.Reject? && !a.reason.Blank? && !b.reason.Blank?
    ensures Progressed(notes + [a] + [b]).Ok?
    ensures var q := Progressed(notes + [a] + [b]).value;
      q == p.(validated := p.validated + {a.candidate},
              evaluated := p.evaluated[a.candidate := Completed(Reject, b.round, b.reason, b.data)],
              lastRound := b.round, lastState := Some(Reject))
  {
    ProgressedStep(notes, a, p);
    ProgressedStep(notes + [a], b, Progressed(notes + [a]).value);
    hide IsActivated, Progressed;
  }

  lemma {:induction false} EvaluationAccepted(notes: seq<Note>, p: Progress, a: Note, b: Note, c: Note)
    requires Progressed(notes) == Ok(p) && p.terminal.None? && 0 <= p.lastRound <= a.round == b.round == c.round
    requires IsActivated(p, a.candidate) && a.candidate == b.candidate == c.candidate
    requires a.candidate !in p.validated && a.candidate !in p.evaluated && a.candidate !in p.ranked
    requires a.state.Validate? && b.state.Evaluate? && c.state.Rank?
    requires !a.reason.Blank? && !b.reason.Blank? && !c.reason.Blank?
    ensures Progressed(notes + [a] + [b] + [c]).Ok?
    ensures var q := Progressed(notes + [a] + [b] + [c]).value;
      q == p.(validated := p.validated + {a.candidate},
              evaluated := p.evaluated[a.candidate := Completed(Evaluate, b.round, b.reason, b.data)],
              ranked := p.ranked + {a.candidate}, lastRound := c.round, lastState := Some(Rank))
  {
    ProgressedStep(notes, a, p);
    ProgressedStep(notes + [a], b, Progressed(notes + [a]).value);
    ProgressedStep(notes + [a] + [b], c, Progressed(notes + [a] + [b]).value);
    hide IsActivated, Progressed;
  }

  lemma {:induction false} AgreesMore(rows: seq<Row>, p: Progress, row: Row, p': Progress)
    requires Agrees(rows, p) && row.candidate.id !in RowIds(rows)
    requires p'.validated == p.validated + {row.candidate.id}
    requires p'.evaluated.Keys == p.evaluated.Keys + {row.candidate.id}
    requires forall id :: id in p.evaluated ==> p'.evaluated[id] == p.evaluated[id]
    requires p'.evaluated[row.candidate.id].outcome == Evaluate <==> row.verdict.Judged?
    requires p'.ranked <= p.ranked + {row.candidate.id}
    ensures Agrees(rows + [row], p')
  {
    assert CandidatesOf(rows + [row]) == CandidatesOf(rows) + [row.candidate];
    IdsAppend(CandidatesOf(rows), row.candidate);
    hide Ids;
  }

  lemma {:induction false} WaitingIsFresh(env: Environment, s: Run, p: Progress, c: Candidate, rest: seq<Candidate>)
    requires Mirrors(env, s, p, [c] + rest)
    ensures c.id !in RowIds(s.rows) && IsActivated(p, c.id)
    ensures c.id !in p.validated && c.id !in p.evaluated && c.id !in p.ranked
  {
    hide Progressed, IsActivated;
    var cs := All(s, [c] + rest);
    var k := |s.rows|;
    assert cs[k] == c;
    ActivatedExactly(p, cs, c.id);
    IdsAt(cs, k);
    forall i | 0 <= i < k ensures CandidatesOf(s.rows)[i].id != c.id {
      assert cs[i].id != cs[k].id;
    }
  }

  lemma {:induction false} CompletionMirrors(env: Environment, s: Run, p: Progress, c: Candidate, rest: seq<Candidate>,
                                             t: Run, p': Progress)
    requires Mirrors(env, s, p, [c] + rest)
    requires t.rows == s.rows + [Row(c, env.evaluate(c))] && t.queued == s.queued && t.round == s.round
    requires Progressed(t.notes) == Ok(p') && Agrees(t.rows, p')
    requires p'.activated == p.activated && p'.terminal.None? && p'.lastRound == s.round
    ensures Mirrors(env, t, p', rest)
  {
    hide Progressed, Agrees;
    assert All(t, rest) == All(s, [c] + rest);
  }

  lemma {:induction false} AssessMirrors(env: Environment, s: Run, p: Progress, c: Candidate, rest: seq<Candidate>)
    returns (p': Progress)
    requires Mirrors(env, s, p, [c] + rest)
    ensures Mirrors(env, Assess(env, s, c), p', rest)
    ensures Assess(env, s, c).rows == s.rows + [Row(c, env.evaluate(c))]
  {
    hide Progressed, IsActivated, Put, Agrees, RowIds, Matches, DistinctIds;
    var v := env.evaluate(c);
    WaitingIsFresh(env, s, p, c, rest);
    PutFresh(s.rows, Row(c, v));
    var t := Assess(env, s, c);
    if v.Invalid? {
      RejectionAccepted(s.notes, p, ValidateNote(s, c), RejectNote(s, c, v.error));
    } else {
      EvaluationAccepted(s.notes, p, ValidateNote(s, c), EvaluateNote(s, c, v), RankNote(s, c, v));
    }
    p' := Progressed(t.notes).value;
    AgreesMore(s.rows, p, Row(c, v), p');
    CompletionMirrors(env, s, p, c, rest, t, p');
  }

  lemma {:induction false} JudgeMirrors(env: Environment, s: Run, p: Progress, c: Candidate, rest: seq<Candidate>)
    returns (p': Progress)
    requires WellSeeded(env) && Mirrors(env, s, p, [c] + rest + s.queue)
    ensures Mirrors(env, Judge(env, s, c), p', rest + Judge(env, s, c).queue)
  {
    hide Mirrors;
    assert [c] + rest + s.queue == [c] + (rest + s.queue);
    var a := Assess(env, s, c);
    var v := env.evaluate(c);
    p' := AssessMirrors(env, s, p, c, rest + s.queue);
    if v.Judged? {
      p' := OfferMirrors(env, a, p', rest, env.children(c, v, a.known), if v.passed then Minimize else Expand, c.id);
    }
  }

  /** One round keeps the validator in step; `waiting` is what no row covers yet. */
  lemma {:induction false} SweepMirrors(env: Environment, s: Run, p: Progress, current: seq<Candidate>)
    returns (p': Progress, waiting: seq<Candidate>)
    requires WellSeeded(env) && Mirrors(env, s, p, current + s.queue)
    ensures Mirrors(env, Sweep(env, s, current), p', waiting)
    ensures !Sweep(env, s, current).stopped ==> waiting == Sweep(env, s, current).queue
    decreases |current|
  {
    hide Judge;
    if current == [] {
      p', waiting := p, s.queue;
      assert current + s.queue == s.queue;
    } else if OutOfBudget(env, s) {
      p', waiting := p, current + s.queue;
    } else {
      assert current + s.queue == [current[0]] + current[1..] + s.queue;
      var p1 := JudgeMirrors(env, s, p, current[0], current[1..]);
      p', waiting := SweepMirrors(env, Judge(env, s, current[0]), p1, current[1..]);
    }
  }

  lemma {:induction false} StopMirrors(env: Environment, s: Run, p: Progress, waiting: seq<Candidate>)
    requires Mirrors(env, s, p, waiting)
    ensures Mirrors(env, s.(stopped := true), p, waiting)
  {
    hide Progressed, Agrees, Matches;
  }

  lemma {:induction false} NextRoundMirrors(env: Environment, s: Run, p: Progress, waiting: seq<Candidate>)
    requires Mirrors(env, s, p, waiting)
    ensures Mirrors(env, s.(round := s.round + 1, queue := []), p, waiting + [])
  {
    hide Progressed, Agrees, Matches;
    assert waiting + [] == waiting;
  }

  lemma {:induction false} RoundsMirrors(env: Environment, s: Run, p: Progress)
    returns (p': Progress, waiting: seq<Candidate>)
    requires WellSeeded(env) && Mirrors(env, s, p, s.queue)
    ensures Mirrors(env, Rounds(env, s), p', waiting)
    ensures !Rounds(env, s).stopped ==> waiting == []
    decreases if s.round < env.budget.maxRounds then env.budget.maxRounds - s.round else 0
  {
    hide Mirrors, WellSeeded, Sweep;
    if s.queue == [] {
      p', waiting := p, s.queue;
    } else if s.round >= env.budget.maxRounds {
      p', waiting := p, s.queue;
      StopMirrors(env, s, p, s.queue);
    } else {
      var s1 := s.(round := s.round + 1, queue := []);
      NextRoundMirrors(env, s, p, s.queue);
      SweepKeepsRound(env, s1, s.queue);
      p', waiting := SweepMirrors(env, s1, p, s.queue);
      var next := Sweep(env, s1, s.queue);
      if !next.stopped { p', waiting := RoundsMirrors(env, next, p'); }
    }
  }

  lemma {:induction false} SeedAccepted(notes: seq<Note>, q: Progress, c: Candidate, cs: seq<Candidate>)
    returns (p: Progress)
    requires Progressed(notes) == Ok(q) && q == EMPTY.(activated := q.activated, lastState := q.lastState)
    requires Matches(q.activated, cs) && c.id != "" && c.id !in Ids(cs)
    ensures Progressed(notes + [ActivationNote(c, Seed, 0, DeclaredSeed)]) == Ok(p)
    ensures p == EMPTY.(activated := p.activated, lastState := p.lastState)
    ensures Matches(p.activated, cs + [c])
  {
    var n := ActivationNote(c, Seed, 0, DeclaredSeed);
    ProgressedStep(notes, n, q);
    ActivatedExactly(q, cs, c.id);
    hide IsActivated, Progressed, Ids;
    p := Progressed(notes + [n]).value;
  }

  lemma {:induction false} SeedsProgress(env: Environment, k: nat) returns (p: Progress)
    requires WellSeeded(env) && k <= |env.seeds|
    ensures Progressed(Begin(env).notes[..k]) == Ok(p)
    ensures p == EMPTY.(activated := p.activated, lastState := p.lastState)
    ensures Matches(p.activated, env.seeds[..k])
  {
    hide ActivationNote;
    var notes := Begin(env).notes;
    if k == 0 {
      p := EMPTY;
    } else {
      var q := SeedsProgress(env, k - 1);
      var cs, c := env.seeds[..k - 1], env.seeds[k - 1];
      assert notes[..k] == notes[..k - 1] + [ActivationNote(c, Seed, 0, DeclaredSeed)];
      assert env.seeds[..k] == cs + [c];
      hide Progressed, Matches;
      p := SeedAccepted(notes[..k - 1], q, c, cs);
    }
  }

  lemma {:induction false} BeginMirrors(env: Environment) returns (p: Progress)
    requires WellSeeded(env)
    ensures Mirrors(env, Begin(env), p, env.seeds)
  {
    var s := Begin(env);
    p := SeedsProgress(env, |env.seeds|);
    assert s.notes[..|env.seeds|] == s.notes && env.seeds[..|env.seeds|] == env.seeds;
    assert All(s, env.seeds) == env.seeds;
    assert RowIds([]) == {};
  }
}
