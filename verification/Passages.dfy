/** Lossless segmentation of a source text into sentence and clause atoms. */
module Passages {
  import opened Wrappers

  /** A half-open stretch of text. */
  datatype Span = Span(start: nat, end: nat)

  /** The character classes the splitter asks about. */
  datatype Classes = Classes(space: char -> bool, digit: char -> bool, decimal: char -> bool)

  const FULL_WIDTH_COMMA := '\U{FF0C}'

  predicate Newline(c: char) {
    c == '\r' || c == '\n'
  }

  /** Sentence terminators: `.`, `!`, `?`, `;` and their full-width forms. */
  predicate Terminator(c: char) {
    || c == '.' || c == '!' || c == '?' || c == ';'
    || c == '\U{3002}' || c == '\U{FF01}' || c == '\U{FF1F}' || c == '\U{FF1B}'
  }

  /** Line breaks are white space and the two commas are not. */
  ghost predicate Usable(classes: Classes) {
    classes.space('\r') && classes.space('\n') && !classes.space(',') && !classes.space(FULL_WIDTH_COMMA)
  }

  predicate DecimalPoint(content: string, i: nat, classes: Classes)
    requires i < |content|
  {
    content[i] == '.' && 0 < i && i + 1 < |content| && classes.digit(content[i - 1]) && classes.digit(content[i + 1])
  }

  predicate SentenceBreak(content: string, i: nat, classes: Classes)
    requires i < |content|
  {
    Newline(content[i]) || (Terminator(content[i]) && !DecimalPoint(content, i, classes))
  }

  /** A comma that ends a clause: not after a digit, and an ASCII comma not before one either. */
  predicate ClauseBreak(text: string, i: nat, classes: Classes)
    requires i < |text|
  {
    && (0 < i ==> !classes.decimal(text[i - 1]))
    && (text[i] == FULL_WIDTH_COMMA || (text[i] == ',' && (i + 1 < |text| ==> !classes.decimal(text[i + 1]))))
  }

  // --- sentences -------------------------------------------------------------------------

  /** The sentence that starts at `s.start`: up to its first break and the terminators after it, or
      to the end of the text when nothing breaks it. */
  ghost predicate SentenceAt(content: string, s: Span, classes: Classes) {
    && s.start < s.end <= |content|
    && ((s.end == |content| && forall k :: s.start <= k < |content| ==> !SentenceBreak(content, k, classes))
        || exists b :: BreaksAt(content, s, b, classes))
  }

  ghost predicate BreaksAt(content: string, s: Span, b: nat, classes: Classes) {
    && s.start <= b < s.end <= |content|
    && SentenceBreak(content, b, classes)
    && (forall k :: s.start <= k < b ==> !SentenceBreak(content, k, classes))
    && (forall k :: b < k < s.end ==> Terminator(content[k]))
    && (s.end < |content| ==> !Terminator(content[s.end]))
  }

  /** Nothing but line breaks between `i` and `j`, and `j` is past them. */
  ghost predicate SkipsNewlines(content: string, i: nat, j: nat) {
    && i <= j <= |content|
    && (forall k :: i <= k < j ==> Newline(content[k]))
    && (j < |content| ==> !Newline(content[j]))
  }

  /** The spans are the sentences of the first `limit` characters, one after another. */
  ghost predicate Sentences(content: string, spans: seq<Span>, limit: nat, classes: Classes) {
    && limit <= |content|
    && (forall i :: 0 <= i < |spans| ==> SentenceAt(content, spans[i], classes))
    && (if spans == [] then limit == 0
        else spans[0].start == 0 && SkipsNewlines(content, spans[|spans| - 1].end, limit))
    && (forall i :: 0 < i < |spans| ==> SkipsNewlines(content, spans[i - 1].end, spans[i].start))
  }

  /** Past the terminators that follow a break. */
  method PassTerminators(content: string, index: nat) returns (end: nat)
    requires index < |content|
    ensures index < end <= |content|
    ensures forall k :: index < k < end ==> Terminator(content[k])
    ensures end < |content| ==> !Terminator(content[end])
  {
    end := index + 1;
    while end < |content| && Terminator(content[end])
      invariant index < end <= |content|
      invariant forall k :: index < k < end ==> Terminator(content[k])
    {
      end := end + 1;
    }
  }

  method PassNewlines(content: string, end: nat) returns (start: nat)
    requires end <= |content|
    ensures SkipsNewlines(content, end, start)
  {
    start := end;
    while start < |content| && Newline(content[start])
      invariant end <= start <= |content|
      invariant forall k :: end <= k < start ==> Newline(content[k])
    {
      start := start + 1;
    }
  }

  lemma {:induction false} AddSentence(content: string, spans: seq<Span>, start: nat, s: Span, next: nat,
                                       classes: Classes)
    requires Sentences(content, spans, start, classes) && s.start == start
    requires SentenceAt(content, s, classes) && SkipsNewlines(content, s.end, next)
    ensures Sentences(content, spans + [s], next, classes)
  {
    hide SentenceAt;
    var more := spans + [s];
    forall i | 0 < i < |more| ensures SkipsNewlines(content, more[i - 1].end, more[i].start) {
      if i < |spans| { assert more[i - 1] == spans[i - 1] && more[i] == spans[i]; }
    }
    hide SkipsNewlines;
  }

  method FindSentences(content: string, classes: Classes) returns (spans: seq<Span>)
    ensures Sentences(content, spans, |content|, classes)
  {
    hide Sentences, Terminator, Newline, DecimalPoint, SentenceBreak;
    spans := [];
    NoSentences(content, classes);
    var start, index := 0, 0;
    while index < |content|
      invariant start <= index <= |content|
      invariant Sentences(content, spans, start, classes)
      invariant forall k :: start <= k < index ==> !SentenceBreak(content, k, classes)
    {
      if SentenceBreak(content, index, classes) {
        var end := PassTerminators(content, index);
        assert BreaksAt(content, Span(start, end), index, classes);
        var next := PassNewlines(content, end);
        AddSentence(content, spans, start, Span(start, end), next, classes);
        spans := spans + [Span(start, end)];
        start := next;
        index := start;
      } else {
        index := index + 1;
      }
    }
    if start < |content| {
      AddSentence(content, spans, start, Span(start, |content|), |content|, classes);
      spans := spans + [Span(start, |content|)];
    }
  }

  lemma {:induction false} NoSentences(content: string, classes: Classes)
    ensures Sentences(content, [], 0, classes)
  {
  }

  // --- trimming ----------------------------------------------------------------------------

  /** `t` is `s` without the white space at its ends; empty when there is nothing else. */
  ghost predicate Trims(content: string, s: Span, t: Span, space: char -> bool) {
    && s.start <= t.start <= t.end <= s.end <= |content|
    && (forall k :: s.start <= k < t.start || t.end <= k < s.end ==> space(content[k]))
    && (t.start < t.end ==> !space(content[t.start]) && !space(content[t.end - 1]))
  }

  method Trim(content: string, s: Span, space: char -> bool) returns (t: Span)
    requires s.start <= s.end <= |content|
    ensures Trims(content, s, t, space)
  {
    var leading := s.start;
    while leading < s.end && space(content[leading])
      invariant s.start <= leading <= s.end
      invariant forall k :: s.start <= k < leading ==> space(content[k])
    {
      leading := leading + 1;
    }
    var trailing := s.end;
    while leading < trailing && space(content[trailing - 1])
      invariant leading <= trailing <= s.end
      invariant forall k :: trailing <= k < s.end ==> space(content[k])
    {
      trailing := trailing - 1;
    }
    t := Span(leading, trailing);
  }

  // --- clauses -------------------------------------------------------------------------------

  predicate In(s: Span, k: int) {
    s.start <= k < s.end
  }

  ghost predicate Covered(pieces: seq<Span>, k: int) {
    exists i :: 0 <= i < |pieces| && In(pieces[i], k)
  }

  /** Ordered and disjoint, each a trimmed stretch of the text. */
  ghost predicate Tiles(text: string, pieces: seq<Span>, space: char -> bool) {
    && (forall i :: 0 <= i < |pieces| ==>
      && pieces[i].start < pieces[i].end <= |text|
      && !space(text[pieces[i].start]) && !space(text[pieces[i].end - 1]))
    && (forall i, j :: 0 <= i < j < |pieces| ==> pieces[i].end <= pieces[j].start)
  }

  /** A clause runs to a boundary, or to the end of the sentence, and holds no other boundary. */
  ghost predicate ClauseShaped(text: string, p: Span, classes: Classes) {
    && p.start < p.end <= |text|
    && (p.end < |text| ==> ClauseBreak(text, p.end - 1, classes))
    && (forall k :: p.start <= k < p.end - 1 ==> !ClauseBreak(text, k, classes))
  }

  ghost predicate Clauses(text: string, pieces: seq<Span>, limit: nat, classes: Classes) {
    && limit <= |text|
    && Tiles(text, pieces, classes.space)
    && (forall i :: 0 <= i < |pieces| ==> pieces[i].end <= limit && ClauseShaped(text, pieces[i], classes))
    && (forall k :: 0 <= k < limit && !classes.space(text[k]) ==> Covered(pieces, k))
  }

  ghost predicate Boundaries(text: string, cuts: seq<nat>, limit: nat, classes: Classes) {
    && limit <= |text|
    && (forall i :: 0 <= i < |cuts| ==> cuts[i] < limit && ClauseBreak(text, cuts[i], classes))
    && (forall i, j :: 0 <= i < j < |cuts| ==> cuts[i] < cuts[j])
    && (forall k :: 0 <= k < limit && ClauseBreak(text, k, classes) ==> k in cuts)
  }

  method FindBoundaries(text: string, classes: Classes) returns (cuts: seq<nat>)
    ensures Boundaries(text, cuts, |text|, classes)
  {
    cuts := [];
    for i := 0 to |text|
      invariant Boundaries(text, cuts, i, classes)
    {
      if ClauseBreak(text, i, classes) { cuts := cuts + [i]; }
    }
  }

  lemma {:induction false} CoverMore(pieces: seq<Span>, t: Span, k: int)
    ensures Covered(pieces, k) || In(t, k) ==> Covered(pieces + [t], k)
  {
    var more := pieces + [t];
    if Covered(pieces, k) {
      var i :| 0 <= i < |pieces| && In(pieces[i], k);
      assert more[i] == pieces[i];
    } else if In(t, k) {
      assert In(more[|pieces|], k);
    }
  }

  /** One more stretch, from the last boundary to the next or to the end. */
  lemma {:induction false} AddPiece(text: string, pieces: seq<Span>, cursor: nat, end: nat, t: Span, classes: Classes)
    requires Clauses(text, pieces, cursor, classes) && cursor <= end <= |text|
    requires Trims(text, Span(cursor, end), t, classes.space)
    requires t.start < t.end ==> t.end == end
    requires end < |text| ==> cursor < end && ClauseBreak(text, end - 1, classes)
    requires forall k :: cursor <= k < end - 1 ==> !ClauseBreak(text, k, classes)
    ensures t.start == t.end ==> Clauses(text, pieces, end, classes)
    ensures t.start < t.end ==> Clauses(text, pieces + [t], end, classes)
  {
    hide ClauseBreak, Covered;
    forall k | 0 <= k < end && !classes.space(text[k]) ensures Covered(pieces, k) || In(t, k) {}
    if t.start < t.end {
      var more := pieces + [t];
      forall k | 0 <= k < end && !classes.space(text[k]) ensures Covered(more, k) { CoverMore(pieces, t, k); }
    }
  }

  lemma {:induction false} NoPieces(text: string, classes: Classes)
    ensures Clauses(text, [], 0, classes)
  {
  }

  lemma {:induction false} BreakIsVisible(text: string, i: nat, classes: Classes)
    requires Usable(classes) && i < |text| && ClauseBreak(text, i, classes)
    ensures !classes.space(text[i])
  {
  }

  method SplitClauses(text: string, classes: Classes) returns (pieces: seq<Span>)
    requires Usable(classes)
    requires |text| > 0 && !classes.space(text[0]) && !classes.space(text[|text| - 1])
    ensures Clauses(text, pieces, |text|, classes)
  {
    hide ClauseBreak, Covered, Clauses, ClauseShaped;
    var cuts := FindBoundaries(text, classes);
    NoPieces(text, classes);
    pieces := [];
    if cuts == [] {
      var whole := Span(0, |text|);
      AddPiece(text, [], 0, |text|, whole, classes);
      return [] + [whole];
    }
    var cursor := 0;
    for n := 0 to |cuts|
      invariant cursor == if n == 0 then 0 else cuts[n - 1] + 1
      invariant Clauses(text, pieces, cursor, classes)
    {
      var end := cuts[n] + 1;
      forall k | cursor <= k < end - 1 ensures !ClauseBreak(text, k, classes) {
        NoCutBetween(text, cuts, n, k, classes);
      }
      var t := Trim(text, Span(cursor, end), classes.space);
      BreakIsVisible(text, cuts[n], classes);
      AddPiece(text, pieces, cursor, end, t, classes);
      if t.start < t.end { pieces := pieces + [t]; }
      cursor := end;
    }
    forall k | cursor <= k < |text| - 1 ensures !ClauseBreak(text, k, classes) {
      NoCutBetween(text, cuts, |cuts|, k, classes);
    }
    var t := Trim(text, Span(cursor, |text|), classes.space);
    AddPiece(text, pieces, cursor, |text|, t, classes);
    if t.start < t.end { pieces := pieces + [t]; }
  }

  lemma {:induction false} NoCutBetween(text: string, cuts: seq<nat>, n: nat, k: nat, classes: Classes)
    requires Boundaries(text, cuts, |text|, classes) && n <= |cuts| && k < |text|
    requires n > 0 ==> cuts[n - 1] < k
    requires n < |cuts| ==> k < cuts[n]
    ensures !ClauseBreak(text, k, classes)
  {
    forall i | 0 <= i < |cuts| ensures cuts[i] != k {
      if i < n {
        assert cuts[i] <= cuts[n - 1];
      } else {
        assert cuts[n] <= cuts[i];
      }
    }
  }

  // --- atoms ---------------------------------------------------------------------------------

  /** `passage:n`, or `passage:n#clause:m` when the passage has several clauses. */
  datatype Locator = Locator(passage: nat, clause: Option<nat>)

  datatype Atom = Atom(text: string, locator: Locator, span: Span)

  ghost predicate Owned(atoms: seq<Atom>, k: int) {
    exists i :: 0 <= i < |atoms| && In(atoms[i].span, k)
  }

  ghost predicate Exact(content: string, a: Atom, limit: nat, space: char -> bool) {
    && a.span.start < a.span.end <= limit <= |content|
    && a.text == content[a.span.start..a.span.end]
    && !space(content[a.span.start]) && !space(content[a.span.end - 1])
  }

  /** The atoms are slices of the first `limit` characters, in order and disjoint, and leave out
      nothing but white space. */
  ghost predicate Lossless(content: string, atoms: seq<Atom>, limit: nat, space: char -> bool) {
    && limit <= |content|
    && (forall i :: 0 <= i < |atoms| ==> Exact(content, atoms[i], limit, space))
    && (forall i, j :: 0 <= i < j < |atoms| ==> atoms[i].span.end <= atoms[j].span.start)
    && (forall k :: 0 <= k < limit && !space(content[k]) ==> Owned(atoms, k))
  }

  predicate Before(a: Locator, b: Locator) {
    || a.passage < b.passage
    || (a.passage == b.passage && a.clause.Some? && b.clause.Some? && a.clause.value < b.clause.value)
  }

  /** Clauses of a passage are numbered from one without a gap, and a lone clause has no number. */
  predicate Follows(atoms: seq<Atom>, i: nat)
    requires i < |atoms|
  {
    match atoms[i].locator.clause
    case None => true
    case Some(c) =>
      if c <= 1 then
        c == 1 && i + 1 < |atoms| && atoms[i + 1].locator == Locator(atoms[i].locator.passage, Some(2))
      else
        i > 0 && atoms[i - 1].locator == Locator(atoms[i].locator.passage, Some(c - 1))
  }

  ghost predicate Located(atoms: seq<Atom>, passages: nat) {
    && (forall i :: 0 <= i < |atoms| ==> 1 <= atoms[i].locator.passage <= passages && Follows(atoms, i))
    && (forall i, j :: 0 <= i < j < |atoms| ==> Before(atoms[i].locator, atoms[j].locator))
  }

  /** The atom is a clause of the trimmed sentence `s`. */
  ghost predicate ClauseOf(content: string, s: Span, a: Span, classes: Classes) {
    exists t :: Trims(content, s, t, classes.space) && ClauseWithin(content, t, a, classes)
  }

  ghost predicate ClauseWithin(content: string, t: Span, a: Span, classes: Classes) {
    && t.start <= a.start <= a.end <= t.end <= |content|
    && ClauseShaped(content[t.start..t.end], Span(a.start - t.start, a.end - t.start), classes)
  }

  ghost predicate InSentences(content: string, spans: seq<Span>, atoms: seq<Atom>, classes: Classes) {
    forall i :: 0 <= i < |atoms| ==>
      && 1 <= atoms[i].locator.passage <= |spans|
      && ClauseOf(content, spans[atoms[i].locator.passage - 1], atoms[i].span, classes)
  }

  function PassageAtom(text: string, offset: nat, passage: nat, pieces: seq<Span>, i: nat): Atom
    requires i < |pieces| && pieces[i].start <= pieces[i].end <= |text|
  {
    Atom(text[pieces[i].start..pieces[i].end],
         Locator(passage, if |pieces| == 1 then None else Some(i + 1)),
         Span(offset + pieces[i].start, offset + pieces[i].end))
  }

  lemma {:induction false} PiecesInside(text: string, pieces: seq<Span>, classes: Classes)
    requires Clauses(text, pieces, |text|, classes)
    ensures forall i :: 0 <= i < |pieces| ==> pieces[i].start <= pieces[i].end <= |text|
  {
    hide Covered, ClauseBreak;
  }

  method LabelPieces(text: string, offset: nat, passage: nat, pieces: seq<Span>) returns (atoms: seq<Atom>)
    requires forall i :: 0 <= i < |pieces| ==> pieces[i].start <= pieces[i].end <= |text|
    ensures |atoms| == |pieces|
    ensures forall i :: 0 <= i < |pieces| ==> atoms[i] == PassageAtom(text, offset, passage, pieces, i)
  {
    atoms := [];
    for i := 0 to |pieces|
      invariant |atoms| == i
      invariant forall k :: 0 <= k < i ==> atoms[k] == PassageAtom(text, offset, passage, pieces, k)
    {
      atoms := atoms + [PassageAtom(text, offset, passage, pieces, i)];
    }
  }

  lemma {:induction false} OwnMore(atoms: seq<Atom>, more: seq<Atom>, k: int)
    ensures Owned(atoms, k) || Owned(more, k) ==> Owned(atoms + more, k)
  {
    var all := atoms + more;
    if Owned(atoms, k) {
      var i :| 0 <= i < |atoms| && In(atoms[i].span, k);
      assert all[i] == atoms[i];
    } else if Owned(more, k) {
      var i :| 0 <= i < |more| && In(more[i].span, k);
      assert all[|atoms| + i] == more[i];
    }
  }

  /** What the clauses of one sentence add. */
  ghost predicate Segment(content: string, t: Span, passage: nat, pieces: seq<Span>, more: seq<Atom>,
                          classes: Classes) {
    && t.start < t.end <= |content|
    && Clauses(content[t.start..t.end], pieces, t.end - t.start, classes)
    && |more| == |pieces|
    && forall i :: 0 <= i < |pieces| ==> more[i] == PassageAtom(content[t.start..t.end], t.start, passage, pieces, i)
  }

  lemma {:induction false} SliceOfSlice(content: string, a: nat, b: nat, c: nat, d: nat)
    requires a <= b <= |content| && c <= d <= b - a
    ensures content[a..b][c..d] == content[a + c..a + d]
  {
    var left, right := content[a..b][c..d], content[a + c..a + d];
    forall k | 0 <= k < d - c ensures left[k] == right[k] {
      assert content[a..b][c + k] == content[a + c + k];
    }
  }

  lemma {:induction false} SegmentAtom(content: string, t: Span, passage: nat, pieces: seq<Span>, more: seq<Atom>,
                                       i: nat, classes: Classes)
    requires Segment(content, t, passage, pieces, more, classes) && i < |more|
    ensures Exact(content, more[i], t.end, classes.space) && t.start <= more[i].span.start
    ensures ClauseWithin(content, t, more[i].span, classes)
  {
    hide ClauseBreak, Covered;
    var text := content[t.start..t.end];
    assert ClauseShaped(text, pieces[i], classes);
    SliceOfSlice(content, t.start, t.end, pieces[i].start, pieces[i].end);
    assert Span(more[i].span.start - t.start, more[i].span.end - t.start) == pieces[i];
  }

  lemma {:induction false} SegmentCovers(content: string, t: Span, passage: nat, pieces: seq<Span>, more: seq<Atom>,
                                         k: nat, classes: Classes)
    requires Segment(content, t, passage, pieces, more, classes)
    requires t.start <= k < t.end && !classes.space(content[k])
    ensures Owned(more, k)
  {
    hide ClauseBreak, ClauseShaped, Tiles;
    var text := content[t.start..t.end];
    assert text[k - t.start] == content[k];
    assert Covered(pieces, k - t.start);
    var i :| 0 <= i < |pieces| && In(pieces[i], k - t.start);
    assert In(more[i].span, k);
  }

  lemma {:induction false} SegmentOrdered(content: string, t: Span, passage: nat, pieces: seq<Span>, more: seq<Atom>,
                                          classes: Classes)
    requires Segment(content, t, passage, pieces, more, classes)
    ensures forall i, j :: 0 <= i < j < |more| ==> more[i].span.end <= more[j].span.start
  {
    hide ClauseBreak, ClauseShaped, Covered;
  }

  /** The atoms of one more sentence, whose last character is before `end`. */
  ghost predicate Addition(content: string, more: seq<Atom>, low: nat, end: nat, space: char -> bool) {
    && low <= end <= |content|
    && (forall i :: 0 <= i < |more| ==> Exact(content, more[i], end, space) && low <= more[i].span.start)
    && (forall i, j :: 0 <= i < j < |more| ==> more[i].span.end <= more[j].span.start)
    && (forall k :: low <= k < end && !space(content[k]) ==> Owned(more, k))
  }

  lemma {:induction false} SegmentAddition(content: string, low: nat, s: Span, t: Span, passage: nat,
                                           pieces: seq<Span>, more: seq<Atom>, classes: Classes)
    requires low <= s.start && Trims(content, s, t, classes.space)
    requires forall k :: low <= k < s.start ==> classes.space(content[k])
    requires Segment(content, t, passage, pieces, more, classes)
    ensures Addition(content, more, low, s.end, classes.space)
  {
    forall i | 0 <= i < |more| ensures Exact(content, more[i], s.end, classes.space) && low <= more[i].span.start {
      SegmentAtom(content, t, passage, pieces, more, i, classes);
    }
    SegmentOrdered(content, t, passage, pieces, more, classes);
    forall k | low <= k < s.end && !classes.space(content[k]) ensures Owned(more, k) {
      SegmentCovers(content, t, passage, pieces, more, k, classes);
    }
  }

  lemma {:induction false} AddExact(content: string, atoms: seq<Atom>, more: seq<Atom>, low: nat, end: nat,
                                    space: char -> bool, i: nat)
    requires Lossless(content, atoms, low, space) && Addition(content, more, low, end, space)
    requires i < |atoms + more|
    ensures Exact(content, (atoms + more)[i], end, space)
  {
    hide Owned;
    if i < |atoms| {
      assert Exact(content, atoms[i], low, space);
    } else {
      assert Exact(content, more[i - |atoms|], end, space);
    }
  }

  lemma {:induction false} AddOrdered(content: string, atoms: seq<Atom>, more: seq<Atom>, low: nat, end: nat,
                                      space: char -> bool, i: nat, j: nat)
    requires Lossless(content, atoms, low, space) && Addition(content, more, low, end, space)
    requires i < j < |atoms + more|
    ensures (atoms + more)[i].span.end <= (atoms + more)[j].span.start
  {
    hide Owned, Exact;
    if i < |atoms| <= j {
      EndsBefore(content, atoms[i], low, space);
      assert low <= more[j - |atoms|].span.start;
    } else if i >= |atoms| {
      assert more[i - |atoms|].span.end <= more[j - |atoms|].span.start;
    }
  }

  lemma {:induction false} AddOwned(content: string, atoms: seq<Atom>, more: seq<Atom>, low: nat, end: nat,
                                    space: char -> bool, k: nat)
    requires Lossless(content, atoms, low, space) && Addition(content, more, low, end, space)
    requires k < end && !space(content[k])
    ensures Owned(atoms + more, k)
  {
    hide Owned, Exact;
    OwnMore(atoms, more, k);
  }

  lemma {:induction false} AddLossless(content: string, atoms: seq<Atom>, more: seq<Atom>, low: nat, end: nat,
                                       space: char -> bool)
    requires Lossless(content, atoms, low, space) && Addition(content, more, low, end, space)
    ensures Lossless(content, atoms + more, end, space)
  {
    var all := atoms + more;
    assert end <= |content|;
    forall i | 0 <= i < |all| ensures Exact(content, all[i], end, space) {
      AddExact(content, atoms, more, low, end, space, i);
    }
    forall i, j | 0 <= i < j < |all| ensures all[i].span.end <= all[j].span.start {
      AddOrdered(content, atoms, more, low, end, space, i, j);
    }
    forall k | 0 <= k < end && !space(content[k]) ensures Owned(all, k) {
      AddOwned(content, atoms, more, low, end, space, k);
    }
    hide Addition, Exact, Owned;
  }

  lemma {:induction false} EndsBefore(content: string, a: Atom, limit: nat, space: char -> bool)
    requires Exact(content, a, limit, space)
    ensures a.span.end <= limit
  {
  }

  lemma {:induction false} AppendBlank(content: string, atoms: seq<Atom>, low: nat, high: nat, space: char -> bool)
    requires Lossless(content, atoms, low, space) && low <= high <= |content|
    requires forall k :: low <= k < high ==> space(content[k])
    ensures Lossless(content, atoms, high, space)
  {
  }

  ghost predicate Labelled(more: seq<Atom>, passage: nat) {
    forall i :: 0 <= i < |more| ==> more[i].locator == Locator(passage, if |more| == 1 then None else Some(i + 1))
  }

  lemma {:induction false} SegmentLabelled(content: string, t: Span, passage: nat, pieces: seq<Span>, more: seq<Atom>,
                                           classes: Classes)
    requires Segment(content, t, passage, pieces, more, classes)
    ensures Labelled(more, passage)
  {
    hide Clauses;
  }

  lemma {:induction false} AddFollows(atoms: seq<Atom>, more: seq<Atom>, passages: nat, i: nat)
    requires Located(atoms, passages) && Labelled(more, passages + 1) && i < |atoms + more|
    ensures 1 <= (atoms + more)[i].locator.passage <= passages + 1 && Follows(atoms + more, i)
  {
    hide Before;
    var all := atoms + more;
    var n := |atoms|;
    if i < n {
      assert all[i] == atoms[i] && Follows(atoms, i);
    } else {
      assert all[i] == more[i - n];
      if i + 1 < |all| { assert all[i + 1] == more[i + 1 - n]; }
      if i > n { assert all[i - 1] == more[i - 1 - n]; }
    }
  }

  lemma {:induction false} AddBefore(atoms: seq<Atom>, more: seq<Atom>, passages: nat, i: nat, j: nat)
    requires Located(atoms, passages) && Labelled(more, passages + 1) && i < j < |atoms + more|
    ensures Before((atoms + more)[i].locator, (atoms + more)[j].locator)
  {
    hide Follows;
    var all := atoms + more;
    var n := |atoms|;
    if j < n {
      assert all[i] == atoms[i] && all[j] == atoms[j];
    } else if i < n {
      assert all[i] == atoms[i] && all[j] == more[j - n];
    } else {
      assert all[i] == more[i - n] && all[j] == more[j - n];
    }
  }

  lemma {:induction false} AddLocated(atoms: seq<Atom>, more: seq<Atom>, passages: nat)
    requires Located(atoms, passages) && Labelled(more, passages + 1)
    ensures Located(atoms + more, passages + 1)
  {
    var all := atoms + more;
    forall i | 0 <= i < |all| ensures 1 <= all[i].locator.passage <= passages + 1 && Follows(all, i) {
      AddFollows(atoms, more, passages, i);
    }
    forall i, j | 0 <= i < j < |all| ensures Before(all[i].locator, all[j].locator) {
      AddBefore(atoms, more, passages, i, j);
    }
    hide Before, Follows, Labelled;
  }

  lemma {:induction false} AddInSentences(content: string, spans: seq<Span>, atoms: seq<Atom>, t: Span, passage: nat,
                                          pieces: seq<Span>, more: seq<Atom>, classes: Classes)
    requires InSentences(content, spans, atoms, classes) && 1 <= passage <= |spans|
    requires Trims(content, spans[passage - 1], t, classes.space)
    requires Segment(content, t, passage, pieces, more, classes)
    ensures InSentences(content, spans, atoms + more, classes)
  {
    hide ClauseWithin, Clauses;
    var all := atoms + more;
    forall i | 0 <= i < |all|
      ensures 1 <= all[i].locator.passage <= |spans|
      ensures ClauseOf(content, spans[all[i].locator.passage - 1], all[i].span, classes)
    {
      if i >= |atoms| {
        var k := i - |atoms|;
        SegmentAtom(content, t, passage, pieces, more, k, classes);
        assert all[i] == more[k] && more[k].locator.passage == passage;
      }
    }
  }

  lemma {:induction false} NoAtoms(content: string, spans: seq<Span>, classes: Classes)
    ensures Lossless(content, [], 0, classes.space) && Located([], 0) && InSentences(content, spans, [], classes)
  {
  }

  lemma {:induction false} MoreSentences(atoms: seq<Atom>, passages: nat)
    requires Located(atoms, passages)
    ensures Located(atoms, passages + 1)
  {
  }

  lemma {:induction false} SentenceBounds(content: string, spans: seq<Span>, p: nat, classes: Classes)
    requires Usable(classes) && Sentences(content, spans, |content|, classes) && p <= |spans|
    ensures p < |spans| ==> spans[p].start <= spans[p].end <= |content|
    ensures p > 0 ==> spans[p - 1].end <= |content|
    ensures var low := if p == 0 then 0 else spans[p - 1].end;
      var high := if p == |spans| then |content| else spans[p].start;
      low <= high <= |content| && forall k :: low <= k < high ==> classes.space(content[k])
  {
    if p < |spans| { assert SentenceAt(content, spans[p], classes); }
    if p > 0 { assert SentenceAt(content, spans[p - 1], classes); }
  }

  /** The source text as atoms: exact slices at their recorded offsets, ordered and disjoint, each
      one clause of one sentence, uniquely located, and no visible character left out. */
  method SegmentText(content: string, classes: Classes) returns (atoms: seq<Atom>, ghost spans: seq<Span>)
    requires Usable(classes)
    ensures Sentences(content, spans, |content|, classes)
    ensures Lossless(content, atoms, |content|, classes.space)
    ensures Located(atoms, |spans|)
    ensures InSentences(content, spans, atoms, classes)
  {
    hide Lossless, Located, InSentences, SentenceAt, Clauses, Addition, Labelled;
    var sentences := FindSentences(content, classes);
    NoAtoms(content, sentences, classes);
    spans := sentences;
    atoms := [];
    ghost var low := 0;
    for p := 0 to |sentences|
      invariant low == if p == 0 then 0 else sentences[p - 1].end
      invariant Lossless(content, atoms, low, classes.space)
      invariant Located(atoms, p)
      invariant InSentences(content, sentences, atoms, classes)
    {
      var s := sentences[p];
      SentenceBounds(content, sentences, p, classes);
      var t := Trim(content, s, classes.space);
      if t.start < t.end {
        var text := content[t.start..t.end];
        assert text[0] == content[t.start] && text[|text| - 1] == content[t.end - 1];
        var pieces := SplitClauses(text, classes);
        PiecesInside(text, pieces, classes);
        var more := LabelPieces(text, t.start, p + 1, pieces);
        SegmentAddition(content, low, s, t, p + 1, pieces, more, classes);
        AddLossless(content, atoms, more, low, s.end, classes.space);
        SegmentLabelled(content, t, p + 1, pieces, more, classes);
        AddLocated(atoms, more, p);
        AddInSentences(content, sentences, atoms, t, p + 1, pieces, more, classes);
        atoms := atoms + more;
      } else {
        AppendBlank(content, atoms, low, s.end, classes.space);
        MoreSentences(atoms, p);
      }
      low := s.end;
    }
    SentenceBounds(content, sentences, |sentences|, classes);
    AppendBlank(content, atoms, low, |content|, classes.space);
  }

  /** No two atoms share a locator, and no character two atoms. */
  lemma {:induction false} AtomsAreSeparate(content: string, atoms: seq<Atom>, passages: nat, space: char -> bool,
                                            i: nat, j: nat)
    requires Lossless(content, atoms, |content|, space) && Located(atoms, passages)
    requires i < |atoms| && j < |atoms| && i != j
    ensures atoms[i].locator != atoms[j].locator
    ensures forall k :: !(In(atoms[i].span, k) && In(atoms[j].span, k))
  {
    var low, high := if i < j then i else j, if i < j then j else i;
    assert Before(atoms[low].locator, atoms[high].locator);
    assert Exact(content, atoms[low], |content|, space) && Exact(content, atoms[high], |content|, space);
    assert atoms[low].span.end <= atoms[high].span.start;
  }
}
