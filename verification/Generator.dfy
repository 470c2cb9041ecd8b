/** The generator backed by a declared candidate graph. */
module Generator {
  import opened Wrappers
  import opened Ledger
  import opened SearchReplay
  import opened Search
  import opened SearchTrace
  import opened SearchOutcome
  import opened SearchResult

  datatype GraphError = DuplicateId | SeedWithParent | MissingParent | UnknownParent | OwnParent | CyclicGraph

  function Lookup(items: seq<Candidate>, id: string): Option<Candidate> {
    if items == [] then None
    else if items[|items| - 1].id == id then Some(items[|items| - 1])
    else Lookup(items[..|items| - 1], id)
  }

  lemma {:induction false} LookupFinds(items: seq<Candidate>, id: string)
    ensures Lookup(items, id).Some? <==> id in Ids(items)
    ensures Lookup(items, id).Some? ==> Lookup(items, id).value in items && Lookup(items, id).value.id == id
  {
    if items != [] {
      var n := |items| - 1;
      LookupFinds(items[..n], id);
      IdsAppend(items[..n], items[n]);
      assert items == items[..n] + [items[n]];
    }
  }

  lemma {:induction false} LookupUnique(items: seq<Candidate>, c: Candidate)
    requires DistinctIds(items) && c in items
    ensures Lookup(items, c.id) == Some(c)
  {
    var i :| 0 <= i < |items| && items[i] == c;
    IdsAt(items, i);
    LookupFinds(items, c.id);
    var d := Lookup(items, c.id).value;
    var j :| 0 <= j < |items| && items[j] == d;
    assert i == j || items[i].id != items[j].id;
  }

  /** The candidate `n` steps up the parent chain. */
  function Ancestor(items: seq<Candidate>, c: Candidate, n: nat): Option<Candidate> {
    if n == 0 then Some(c)
    else
      match Ancestor(items, c, n - 1)
      case None => None
      case Some(a) => if a.parent.None? then None else Lookup(items, a.parent.value)
  }

  /** The parent chain ends. */
  ghost predicate Rooted(items: seq<Candidate>, c: Candidate) {
    exists n: nat :: EndsAt(items, c, n)
  }

  ghost predicate EndsAt(items: seq<Candidate>, c: Candidate, n: nat) {
    Ancestor(items, c, n).Some? && Ancestor(items, c, n).value.parent.None?
  }

  predicate LocallyDeclared(items: seq<Candidate>, c: Candidate) {
    && (c.kind.SeedKind? <==> c.parent.None?)
    && (c.parent.Some? ==> c.parent.value in Ids(items) && c.parent.value != c.id)
  }

  /** A graph the generator accepts: distinct candidates, known parents, and chains that end at seeds. */
  ghost predicate Declared(items: seq<Candidate>) {
    && DistinctIds(items)
    && (forall i :: 0 <= i < |items| ==> LocallyDeclared(items, items[i]) && Rooted(items, items[i]))
  }

  lemma {:induction false} AncestorSum(items: seq<Candidate>, c: Candidate, a: nat, b: nat)
    requires Ancestor(items, c, a).Some?
    ensures Ancestor(items, c, a + b) == Ancestor(items, Ancestor(items, c, a).value, b)
  {
    if b > 0 { AncestorSum(items, c, a, b - 1); }
  }

  /** Coming back to an earlier candidate, the chain never ends. */
  lemma {:induction false} RevisitNeverEnds(items: seq<Candidate>, c: Candidate, k: nat, n: nat, m: nat)
    requires k < n && Ancestor(items, c, n).Some? && Ancestor(items, c, k) == Ancestor(items, c, n)
    requires forall j :: 0 <= j < n ==> Ancestor(items, c, j).Some? && Ancestor(items, c, j).value.parent.Some?
    ensures !EndsAt(items, c, m)
    decreases m
  {
    if m >= n {
      AncestorSum(items, c, n, m - n);
      AncestorSum(items, c, k, m - n);
      RevisitNeverEnds(items, c, k, n, k + m - n);
    }
  }

  method ChainEnds(items: seq<Candidate>, c: Candidate) returns (ends: bool)
    requires DistinctIds(items) && c in items
    requires forall i :: 0 <= i < |items| ==> LocallyDeclared(items, items[i])
    ensures ends <==> Rooted(items, c)
  {
    var seen: set<string> := {};
    var current := c;
    ghost var n := 0;
    while current.parent.Some?
      invariant current in items && Ancestor(items, c, n) == Some(current)
      invariant forall j :: 0 <= j < n ==>
        && Ancestor(items, c, j).Some? && Ancestor(items, c, j).value.parent.Some?
        && Ancestor(items, c, j).value in items
      invariant forall id :: id in seen <==>
        exists j :: 0 <= j < n && Ancestor(items, c, j).Some? && Ancestor(items, c, j).value.id == id
      invariant seen <= Ids(items)
      decreases Ids(items) - seen
    {
      if current.id in seen {
        ghost var k :| 0 <= k < n && Ancestor(items, c, k).Some? && Ancestor(items, c, k).value.id == current.id;
        LookupUnique(items, current);
        LookupUnique(items, Ancestor(items, c, k).value);
        forall m: nat ensures !EndsAt(items, c, m) { RevisitNeverEnds(items, c, k, n, m); }
        return false;
      }
      ghost var i :| 0 <= i < |items| && items[i] == current;
      assert LocallyDeclared(items, items[i]);
      IdsAt(items, i);
      LookupFinds(items, current.parent.value);
      seen := seen + {current.id};
      n := n + 1;
      current := Lookup(items, current.parent.value).value;
    }
    assert EndsAt(items, c, n);
    ends := true;
  }

  /** The constructor's checks: it accepts exactly the declared graphs. */
  method CheckGraph(items: seq<Candidate>) returns (error: Option<GraphError>)
    ensures error.None? <==> Declared(items)
  {
    var seen: set<string> := {};
    for i := 0 to |items|
      invariant seen == Ids(items[..i]) && DistinctIds(items[..i])
    {
      assert items[..i + 1] == items[..i] + [items[i]];
      IdsAppend(items[..i], items[i]);
      if items[i].id in seen {
        var k :| 0 <= k < i && items[..i][k].id == items[i].id;
        assert items[k].id == items[i].id;
        return Some(DuplicateId);
      }
      forall k | 0 <= k < i ensures items[..i][k].id != items[i].id { IdsAt(items[..i], k); }
      seen := seen + {items[i].id};
    }
    assert items[..|items|] == items;
    for i := 0 to |items|
      invariant forall k :: 0 <= k < i ==> LocallyDeclared(items, items[k])
    {
      var c := items[i];
      if c.kind.SeedKind? && c.parent.Some? { return Some(SeedWithParent); }
      if !c.kind.SeedKind? && c.parent.None? { return Some(MissingParent); }
      if c.parent.Some? && c.parent.value !in seen { return Some(UnknownParent); }
      if c.parent.Some? && c.parent.value == c.id { return Some(OwnParent); }
    }
    for i := 0 to |items|
      invariant forall k :: 0 <= k < i ==> Rooted(items, items[k])
    {
      var ends := ChainEnds(items, items[i]);
      if !ends { return Some(CyclicGraph); }
    }
    error := None;
  }

  // --- seeds and children ----------------------------------------------------------------------

  function Filter(items: seq<Candidate>, keep: Candidate -> bool): seq<Candidate> {
    if items == [] then []
    else Filter(items[..|items| - 1], keep) + if keep(items[|items| - 1]) then [items[|items| - 1]] else []
  }

  lemma {:induction false} FilterExactly(items: seq<Candidate>, keep: Candidate -> bool)
    ensures forall c :: c in Filter(items, keep) <==> c in items && keep(c)
  {
    if items != [] {
      FilterExactly(items[..|items| - 1], keep);
      assert items == items[..|items| - 1] + [items[|items| - 1]];
    }
  }

  lemma {:induction false} FilterDistinct(items: seq<Candidate>, keep: Candidate -> bool)
    requires DistinctIds(items)
    ensures DistinctIds(Filter(items, keep))
  {
    if items != [] {
      var n := |items| - 1;
      FilterDistinct(items[..n], keep);
      FilterExactly(items[..n], keep);
      var before := Filter(items[..n], keep);
      forall i | 0 <= i < |before| ensures before[i].id != items[n].id {
        assert before[i] in items[..n];
      }
    }
  }

  function Seeds(items: seq<Candidate>): seq<Candidate> {
    Filter(items, (c: Candidate) => c.parent.None? || c.kind.SeedKind?)
  }

  /** Ablations of a candidate that passed, expansions and revisions of one that did not. */
  function Children(items: seq<Candidate>, parent: Candidate, passed: bool): seq<Candidate> {
    Filter(items, (c: Candidate) =>
      && c.parent == Some(parent.id)
      && (if passed then c.kind.AblateKind? else c.kind.ExpandKind? || c.kind.ReviseKind?))
  }

  function Formulas(items: seq<Candidate>): set<string> {
    set i | 0 <= i < |items| :: items[i].formula
  }

  /** A search over declared candidates alone. */
  function DeclaredEnvironment(runId: string, budget: Budget, items: seq<Candidate>,
                               evaluate: Candidate -> Verdict, late: nat -> bool): Environment
  {
    Environment(runId, budget, Seeds(items), Ids(items), Formulas(items), evaluate,
                (c: Candidate, v: Verdict, known: set<string>) => Children(items, c, Passed(v)), late)
  }

  /** A graph the constructor accepted meets everything the search needs of its generator. */
  lemma {:induction false} DeclaredIsWellFormed(runId: string, budget: Budget, items: seq<Candidate>,
                                                evaluate: Candidate -> Verdict, late: nat -> bool)
    requires Declared(items) && forall i :: 0 <= i < |items| ==> items[i].id != ""
    ensures WellSeeded(DeclaredEnvironment(runId, budget, items, evaluate, late))
    ensures WellParented(DeclaredEnvironment(runId, budget, items, evaluate, late))
  {
    hide Rooted;
    var seed := (c: Candidate) => c.parent.None? || c.kind.SeedKind?;
    FilterDistinct(items, seed);
    FilterExactly(items, seed);
    forall i | 0 <= i < |Seeds(items)| ensures Seeds(items)[i].id != "" && Seeds(items)[i].parent.None? {
      assert Seeds(items)[i] in Seeds(items);
      var k :| 0 <= k < |items| && items[k] == Seeds(items)[i];
      assert LocallyDeclared(items, items[k]);
    }
    forall c, passed, i | 0 <= i < |Children(items, c, passed)|
      ensures Children(items, c, passed)[i].id != "" && Children(items, c, passed)[i].parent == Some(c.id)
    {
      ChildrenExactly(items, c, passed);
      assert Children(items, c, passed)[i] in Children(items, c, passed);
    }
  }

  lemma {:induction false} ChildrenExactly(items: seq<Candidate>, parent: Candidate, passed: bool)
    ensures forall c :: c in Children(items, parent, passed) <==>
      && c in items && c.parent == Some(parent.id)
      && (if passed then c.kind.AblateKind? else c.kind.ExpandKind? || c.kind.ReviseKind?)
  {
    FilterExactly(items, (c: Candidate) =>
      && c.parent == Some(parent.id)
      && (if passed then c.kind.AblateKind? else c.kind.ExpandKind? || c.kind.ReviseKind?));
  }

  // --- reachability -----------------------------------------------------------------------------

  /** `c` is a seed, or a declared child of a candidate within `n - 1` steps that was judged accordingly. */
  ghost predicate Reached(items: seq<Candidate>, evaluate: Candidate -> Verdict, c: Candidate, n: nat)
    decreases n, 1
  {
    c in Seeds(items) || exists p :: ReachedThrough(items, evaluate, p, c, n)
  }

  ghost predicate ReachedThrough(items: seq<Candidate>, evaluate: Candidate -> Verdict, p: Candidate, c: Candidate,
                                 n: nat)
    decreases n, 0
  {
    && n > 0 && Reached(items, evaluate, p, n - 1)
    && evaluate(p).Judged? && c in Children(items, p, Passed(evaluate(p)))
  }

  lemma {:induction false} RowIsReached(runId: string, budget: Budget, items: seq<Candidate>,
                                        evaluate: Candidate -> Verdict,
                                        late: nat -> bool, s: Run, p: Progress, waiting: seq<Candidate>, i: nat)
    requires var env := DeclaredEnvironment(runId, budget, items, evaluate, late);
      Mirrors(env, s, p, waiting) && Grounded(env, s, waiting)
    requires i < |s.rows|
    ensures Reached(items, evaluate, s.rows[i].candidate, i)
  {
    var env := DeclaredEnvironment(runId, budget, items, evaluate, late);
    hide Mirrors, Children, Seeds;
    var c := s.rows[i].candidate;
    RowsDistinct(env, s, p, waiting);
    assert Justified(env, s.rows, c);
    if c !in env.seeds {
      var j :| 0 <= j < |s.rows| && Offers(env, s.rows[j], c);
      var parent := s.rows[j].candidate;
      ChildrenExactly(items, parent, Passed(s.rows[j].verdict));
      var q := ParentPosition(s.rows, waiting, i);
      Same(s.rows, q, j);
      RowIsReached(runId, budget, items, evaluate, late, s, p, waiting, j);
      assert s.rows[j].verdict == evaluate(parent);
      ReachedLater(items, evaluate, parent, j, i - 1);
      assert ReachedThrough(items, evaluate, parent, c, i);
    }
  }

  lemma {:induction false} ReachedLater(items: seq<Candidate>, evaluate: Candidate -> Verdict, c: Candidate, m: nat,
                                        n: nat)
    requires m <= n && Reached(items, evaluate, c, m)
    ensures Reached(items, evaluate, c, n)
    decreases m
  {
    hide Children, Seeds;
    if c !in Seeds(items) {
      var p :| ReachedThrough(items, evaluate, p, c, m);
      ReachedLater(items, evaluate, p, m - 1, n - 1);
      assert ReachedThrough(items, evaluate, p, c, n);
    }
  }

  lemma {:induction false} ReachedIsRow(runId: string, budget: Budget, items: seq<Candidate>,
                                        evaluate: Candidate -> Verdict, late: nat -> bool, s: Run, c: Candidate, n: nat)
    requires var env := DeclaredEnvironment(runId, budget, items, evaluate, late);
      && Settled(env, s) && Honest(env, s.rows) && s.queued == RowIds(s.rows) && Ids(env.seeds) <= s.queued
    requires DistinctIds(items) && (forall i :: 0 <= i < |s.rows| ==> s.rows[i].candidate in items)
    requires Reached(items, evaluate, c, n)
    ensures c in items && exists i :: 0 <= i < |s.rows| && s.rows[i].candidate == c
    decreases n
  {
    var env := DeclaredEnvironment(runId, budget, items, evaluate, late);
    hide Children;
    SeedsAreItems(items);
    if c in Seeds(items) {
      var k :| 0 <= k < |env.seeds| && env.seeds[k] == c;
      IdsAt(env.seeds, k);
    } else {
      var p :| ReachedThrough(items, evaluate, p, c, n);
      ReachedIsRow(runId, budget, items, evaluate, late, s, p, n - 1);
      var j :| 0 <= j < |s.rows| && s.rows[j].candidate == p;
      ChildrenExactly(items, p, Passed(evaluate(p)));
      assert SettledRow(env, s, s.rows[j]);
      var known :| AllTaken(env, s, s.rows[j], known);
      var children := env.children(p, s.rows[j].verdict, known);
      var k :| 0 <= k < |children| && children[k] == c;
      assert Taken(env, s, children[k]);
      var m :| 0 <= m < |items| && items[m] == c;
      IdsAt(items, m);
    }
    hide Seeds;
    assert c.id in RowIds(s.rows);
    var i :| 0 <= i < |s.rows| && CandidatesOf(s.rows)[i].id == c.id;
    LookupUnique(items, c);
    LookupUnique(items, s.rows[i].candidate);
  }

  lemma {:induction false} SeedsAreItems(items: seq<Candidate>)
    ensures forall c :: c in Seeds(items) ==> c in items
  {
    FilterExactly(items, (c: Candidate) => c.parent.None? || c.kind.SeedKind?);
  }

  lemma {:induction false} RowsAreItems(runId: string, budget: Budget, items: seq<Candidate>,
                                        evaluate: Candidate -> Verdict, late: nat -> bool, s: Run, i: nat)
    requires var env := DeclaredEnvironment(runId, budget, items, evaluate, late);
      i < |s.rows| && Justified(env, s.rows, s.rows[i].candidate)
    ensures s.rows[i].candidate in items
  {
    var env := DeclaredEnvironment(runId, budget, items, evaluate, late);
    var c := s.rows[i].candidate;
    SeedsAreItems(items);
    if c !in env.seeds {
      var j :| 0 <= j < |s.rows| && Offers(env, s.rows[j], c);
      ChildrenExactly(items, s.rows[j].candidate, Passed(s.rows[j].verdict));
    }
  }

  /** A search over a declared graph evaluates only candidates reachable from the seeds through
      failed expansions and passed ablations, and, unless a budget stops it, all of them. */
  lemma {:induction false} DeclaredSearchIsReachability(runId: string, budget: Budget, items: seq<Candidate>,
                                                        evaluate: Candidate -> Verdict, late: nat -> bool, c: Candidate)
    requires Declared(items) && forall i :: 0 <= i < |items| ==> items[i].id != ""
    ensures var s := Searched(DeclaredEnvironment(runId, budget, items, evaluate, late));
      && (c in CandidatesOf(s.rows) ==> exists n :: Reached(items, evaluate, c, n))
      && (!s.stopped ==> ((exists n :: Reached(items, evaluate, c, n)) ==> c in CandidatesOf(s.rows)))
  {
    var env := DeclaredEnvironment(runId, budget, items, evaluate, late);
    hide Mirrors, Rounds, Declared, Reached, WellSeeded, WellParented, Settled;
    DeclaredIsWellFormed(runId, budget, items, evaluate, late);
    var s := Searched(env);
    var p, waiting := FinishedRun(env);
    if c in CandidatesOf(s.rows) {
      var i :| 0 <= i < |s.rows| && CandidatesOf(s.rows)[i] == c;
      RowIsReached(runId, budget, items, evaluate, late, s, p, waiting, i);
    }
    if !s.stopped && exists n :: Reached(items, evaluate, c, n) {
      var n :| Reached(items, evaluate, c, n);
      SearchIsExhaustive(env);
      DeclaredDistinct(items);
      forall i | 0 <= i < |s.rows| ensures s.rows[i].candidate in items {
        RowsAreItems(runId, budget, items, evaluate, late, s, i);
      }
      ReachedIsRow(runId, budget, items, evaluate, late, s, c, n);
    }
  }

  lemma {:induction false} DeclaredDistinct(items: seq<Candidate>)
    requires Declared(items)
    ensures DistinctIds(items)
  {
  }
}
