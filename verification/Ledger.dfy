/** The append-only analysis ledger and the revision lineage it enforces. */
module Ledger {
  import opened Wrappers

  /** `supersedes` is empty when nothing is superseded. */
  datatype Revision = Revision(id: string, sequence: int, supersedes: string)

  /** `ids` holds the record's identifier fields in order of preference, empty where absent. */
  datatype Record<T> = Record(ids: seq<string>, revision: Option<Revision>, body: T)

  datatype Entry<T> = Entry(sequence: nat, recordType: string, stableId: string, revisionId: string,
                            payloadHash: string, payload: Record<T>)

  datatype LedgerError =
    | NoStableId | NoRevision | RevisionExists | NotFirstRevision | SequenceGap | WrongPredecessor

  /** The first identifier that is present. */
  function StableId(ids: seq<string>): string {
    if ids == [] then "" else if ids[0] != "" then ids[0] else StableId(ids[1..])
  }

  predicate SameKey<T>(e: Entry<T>, recordType: string, stableId: string) {
    e.recordType == recordType && e.stableId == stableId
  }

  /** The newest entry of one record. */
  function Latest<T>(entries: seq<Entry<T>>, recordType: string, stableId: string): Option<Entry<T>> {
    if entries == [] then None
    else
      var last := entries[|entries| - 1];
      if SameKey(last, recordType, stableId) then Some(last)
      else Latest(entries[..|entries| - 1], recordType, stableId)
  }

  /** An entry that continues the lineage of the entries before it. */
  predicate Continues<T>(before: seq<Entry<T>>, e: Entry<T>) {
    && e.payload.revision.Some?
    && var revision := e.payload.revision.value;
    && e.revisionId == revision.id && revision.id != ""
    && e.stableId == StableId(e.payload.ids) && e.stableId != ""
    && (forall i :: 0 <= i < |before| ==> before[i].revisionId != e.revisionId)
    && match Latest(before, e.recordType, e.stableId)
       case None => revision.sequence == 1 && revision.supersedes == ""
       case Some(previous) =>
         && previous.payload.revision.Some?
         && revision.sequence == previous.payload.revision.value.sequence + 1
         && revision.supersedes == previous.revisionId
  }

  ghost predicate Lineage<T(!new)>(entries: seq<Entry<T>>, hash: Record<T> -> string) {
    forall i :: 0 <= i < |entries| ==>
      && entries[i].sequence == i + 1
      && entries[i].payloadHash == hash(entries[i].payload)
      && Continues(entries[..i], entries[i])
  }

  function NewEntry<T>(entries: seq<Entry<T>>, recordType: string, record: Record<T>, hash: Record<T> -> string)
    : Entry<T>
  {
    Entry(|entries| + 1, recordType, StableId(record.ids),
          if record.revision.Some? then record.revision.value.id else "", hash(record), record)
  }

  /** How many entries up to position `i` belong to the same record. */
  function Count<T>(entries: seq<Entry<T>>, recordType: string, stableId: string): nat {
    if entries == [] then 0
    else Count(entries[..|entries| - 1], recordType, stableId)
         + if SameKey(entries[|entries| - 1], recordType, stableId) then 1 else 0
  }

  /** Where the newest entry of a record is, when there is one. */
  lemma {:induction false} LatestPosition<T(!new)>(entries: seq<Entry<T>>, recordType: string, stableId: string)
    returns (k: nat)
    ensures Latest(entries, recordType, stableId).None? ==> Count(entries, recordType, stableId) == 0
    ensures Latest(entries, recordType, stableId).Some? ==>
      && k < |entries| && entries[k] == Latest(entries, recordType, stableId).value
      && SameKey(entries[k], recordType, stableId)
      && Count(entries[..k + 1], recordType, stableId) == Count(entries, recordType, stableId)
  {
    k := 0;
    if entries != [] {
      var n := |entries| - 1;
      if SameKey(entries[n], recordType, stableId) {
        k := n;
        assert entries[..n + 1] == entries;
      } else {
        k := LatestPosition(entries[..n], recordType, stableId);
        if Latest(entries[..n], recordType, stableId).Some? {
          assert entries[..n][..k + 1] == entries[..k + 1];
        }
      }
    }
  }

  lemma {:induction false} CountLast<T(!new)>(entries: seq<Entry<T>>, i: nat)
    requires i < |entries|
    ensures Count(entries[..i + 1], entries[i].recordType, entries[i].stableId)
         == Count(entries[..i], entries[i].recordType, entries[i].stableId) + 1
  {
    assert entries[..i + 1][..i] == entries[..i];
  }

  lemma {:induction false} EntryContinues<T(!new)>(entries: seq<Entry<T>>, hash: Record<T> -> string, i: nat)
    requires Lineage(entries, hash) && i < |entries|
    ensures Continues(entries[..i], entries[i])
  {
  }

  /** In every ledger the n-th revision of a record carries sequence number n. */
  lemma {:induction false} SequenceCounts<T(!new)>(entries: seq<Entry<T>>, hash: Record<T> -> string, i: nat)
    requires Lineage(entries, hash) && i < |entries|
    ensures entries[i].payload.revision.Some?
    ensures entries[i].payload.revision.value.sequence
         == Count(entries[..i + 1], entries[i].recordType, entries[i].stableId)
  {
    hide Count, Latest, Lineage;
    var e := entries[i];
    var before := entries[..i];
    EntryContinues(entries, hash, i);
    CountLast(entries, i);
    var k := LatestPosition(before, e.recordType, e.stableId);
    if Latest(before, e.recordType, e.stableId).Some? {
      assert before[..k + 1] == entries[..k + 1];
      SequenceCounts(entries, hash, k);
    }
  }

  lemma {:induction false} LineagePrefix<T(!new)>(entries: seq<Entry<T>>, e: Entry<T>, hash: Record<T> -> string)
    ensures Lineage(entries + [e], hash)
       <==> && Lineage(entries, hash) && e.sequence == |entries| + 1 && e.payloadHash == hash(e.payload)
            && Continues(entries, e)
  {
    var all := entries + [e];
    assert all[..|entries|] == entries && all[|entries|] == e;
    forall i | 0 <= i < |entries| ensures all[..i] == entries[..i] && all[i] == entries[i] {}
    if Lineage(all, hash) {
      forall i | 0 <= i < |entries|
        ensures entries[i].sequence == i + 1 && entries[i].payloadHash == hash(entries[i].payload)
        ensures Continues(entries[..i], entries[i])
      {
        assert Continues(all[..i], all[i]);
      }
    }
  }

  class AnalysisLedger<T(==,!new)> {
    const runId: string
    const hash: Record<T> -> string
    var entries: seq<Entry<T>>

    ghost predicate Valid()
      reads this
    {
      Lineage(entries, hash)
    }

    constructor (runId: string, hash: Record<T> -> string)
      requires runId != ""
      ensures Valid() && this.runId == runId && this.hash == hash && entries == []
    {
      this.runId, this.hash := runId, hash;
      entries := [];
    }

    method FindLatest(recordType: string, stableId: string) returns (found: Option<Entry<T>>)
      ensures found == Latest(entries, recordType, stableId)
    {
      var i := |entries|;
      assert entries[..i] == entries;
      while i > 0
        invariant 0 <= i <= |entries|
        invariant Latest(entries, recordType, stableId) == Latest(entries[..i], recordType, stableId)
      {
        i := i - 1;
        assert entries[..i + 1][..i] == entries[..i];
        if SameKey(entries[i], recordType, stableId) { return Some(entries[i]); }
      }
      found := None;
    }

    method RevisionKnown(revisionId: string) returns (known: bool)
      ensures known <==> exists i :: 0 <= i < |entries| && entries[i].revisionId == revisionId
    {
      for i := 0 to |entries|
        invariant forall k :: 0 <= k < i ==> entries[k].revisionId != revisionId
      {
        if entries[i].revisionId == revisionId { return true; }
      }
      known := false;
    }

    /** Appends exactly the records that continue the lineage; a refused record changes nothing. */
    method Append(recordType: string, record: Record<T>) returns (result: Result<Entry<T>, LedgerError>)
      requires Valid()
      modifies this`entries
      ensures Valid()
      ensures result.Ok? <==> Lineage(old(entries) + [NewEntry(old(entries), recordType, record, hash)], hash)
      ensures result.Ok? ==>
        && result.value == NewEntry(old(entries), recordType, record, hash)
        && entries == old(entries) + [result.value]
      ensures result.Err? ==> entries == old(entries)
    {
      ghost var e := NewEntry(entries, recordType, record, hash);
      LineagePrefix(entries, e, hash);
      var stableId := StableId(record.ids);
      if stableId == "" { return Err(NoStableId); }
      if record.revision.None? || record.revision.value.id == "" { return Err(NoRevision); }
      var revision := record.revision.value;
      var known := RevisionKnown(revision.id);
      if known { return Err(RevisionExists); }
      var previous := FindLatest(recordType, stableId);
      if previous.None? {
        if revision.sequence != 1 || revision.supersedes != "" { return Err(NotFirstRevision); }
      } else {
        LatestHasRevision(entries, hash, recordType, stableId);
        if revision.sequence != previous.value.payload.revision.value.sequence + 1 { return Err(SequenceGap); }
        if revision.supersedes != previous.value.revisionId { return Err(WrongPredecessor); }
      }
      var entry := Entry(|entries| + 1, recordType, stableId, revision.id, hash(record), record);
      entries := entries + [entry];
      result := Ok(entry);
    }
  }

  lemma {:induction false} LatestHasRevision<T(!new)>(entries: seq<Entry<T>>, hash: Record<T> -> string,
                                                      recordType: string, stableId: string)
    requires Lineage(entries, hash) && Latest(entries, recordType, stableId).Some?
    ensures Latest(entries, recordType, stableId).value.payload.revision.Some?
  {
    var k := LatestPosition(entries, recordType, stableId);
    EntryContinues(entries, hash, k);
  }

  /** A ledger needs a run identifier. */
  method Open<T(==,!new)>(runId: string, hash: Record<T> -> string) returns (result: Result<AnalysisLedger<T>, string>)
    ensures result.Ok? <==> runId != ""
    ensures result.Ok? ==> fresh(result.value) && result.value.Valid() && result.value.entries == []
    ensures result.Ok? ==> result.value.runId == runId && result.value.hash == hash
  {
    if runId == "" { return Err("run_id"); }
    var ledger := new AnalysisLedger(runId, hash);
    result := Ok(ledger);
  }
}
