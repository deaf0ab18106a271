/**
 * The ownership filter of `GetIndices`: which solar systems the target
 * alliances hold through a qualifying sovereignty structure.
 */
module Sovereignty {
  import opened Seqs

  /** Structure type id of an infrastructure hub. */
  const InfrastructureHub: int := 32458
  /** Structure type id of a territorial claim unit. */
  const TerritorialClaimUnit: int := 32226

  /** One element of the sovereignty-structures payload. */
  datatype SovRecord = SovRecord(solarSystemId: int, allianceId: int, structureTypeId: int)

  /** The record's alliance is targeted and its structure is one of the two claim structures. */
  predicate Qualifies(r: SovRecord, alliances: set<int>) {
    && r.allianceId in alliances
    && (r.structureTypeId == InfrastructureHub || r.structureTypeId == TerritorialClaimUnit)
  }

  /** All records but the last. */
  function Init(records: seq<SovRecord>): seq<SovRecord>
    requires records != []
  {
    records[..|records| - 1]
  }

  /** Record `k` of `records` qualifies and sits in system `x`. */
  ghost predicate Owns(records: seq<SovRecord>, alliances: set<int>, k: int, x: int) {
    0 <= k < |records| && Qualifies(records[k], alliances) && records[k].solarSystemId == x
  }

  /** The system ids of the qualifying records, duplicates included, in payload order. */
  function QualifyingIds(records: seq<SovRecord>, alliances: set<int>): (q: seq<int>)
    ensures forall x :: x in q <==> exists k :: Owns(records, alliances, k, x)
  {
    if records == [] then []
    else
      var prev := QualifyingIds(Init(records), alliances);
      var last := records[|records| - 1];
      var q := if Qualifies(last, alliances) then prev + [last.solarSystemId] else prev;
      QualifyingStep(records, alliances, prev, q);
      q
  }

  lemma QualifyingStep(records: seq<SovRecord>, alliances: set<int>, prev: seq<int>, q: seq<int>)
    requires records != []
    requires forall x :: x in prev <==> exists k :: Owns(Init(records), alliances, k, x)
    requires q == if Qualifies(records[|records| - 1], alliances) then prev + [records[|records| - 1].solarSystemId] else prev
    ensures forall x :: x in q <==> exists k :: Owns(records, alliances, k, x)
  {
    var n := |records|;
    forall x
      ensures x in q <==> exists k :: Owns(records, alliances, k, x)
    {
      if x in q {
        if x in prev {
          var k :| Owns(Init(records), alliances, k, x);
          assert Owns(records, alliances, k, x);
        } else {
          assert Owns(records, alliances, n - 1, x);
        }
      }
      if exists k :: Owns(records, alliances, k, x) {
        var k :| Owns(records, alliances, k, x);
        if k < n - 1 {
          assert Owns(Init(records), alliances, k, x);
        }
      }
    }
  }

  /**
   * The loop of `GetIndices` over the sovereignty payload: a qualifying
   * record's system id is appended unless it is already in the list.
   * The result holds each owned system once, ordered by the first record
   * that qualifies it.
   */
  function OwnedSystemIds(records: seq<SovRecord>, alliances: set<int>): (r: seq<int>)
    ensures Distinct(r)
    ensures forall x :: x in r <==> x in QualifyingIds(records, alliances)
    ensures forall i, j :: 0 <= i < j < |r| ==>
              && r[i] in QualifyingIds(records, alliances)
              && r[j] in QualifyingIds(records, alliances)
              && IndexOf(QualifyingIds(records, alliances), r[i]) < IndexOf(QualifyingIds(records, alliances), r[j])
  {
    if records == [] then []
    else
      var prev := OwnedSystemIds(Init(records), alliances);
      var last := records[|records| - 1];
      var q := QualifyingIds(Init(records), alliances);
      if Qualifies(last, alliances) && last.solarSystemId !in prev then
        IndexOfAppend(q, last.solarSystemId);
        prev + [last.solarSystemId]
      else
        if Qualifies(last, alliances) then
          IndexOfAppend(q, last.solarSystemId);
          prev
        else
          prev
  }

  /** Appending an element leaves the first positions of earlier elements alone. */
  lemma IndexOfAppend(s: seq<int>, y: int)
    ensures forall x :: x in s ==> IndexOf(s + [y], x) == IndexOf(s, x)
    ensures y !in s ==> IndexOf(s + [y], y) == |s|
  {
    forall x | x in s
      ensures IndexOf(s + [y], x) == IndexOf(s, x)
    {
      var a, b := IndexOf(s + [y], x), IndexOf(s, x);
      assert (s + [y])[b] == x;
    }
  }

  /** Two qualifying records for the same system yield that system exactly once. */
  lemma OwnedOnce(records: seq<SovRecord>, alliances: set<int>, x: int)
    requires exists k :: Owns(records, alliances, k, x)
    ensures multiset(OwnedSystemIds(records, alliances))[x] == 1
  {
    var r := OwnedSystemIds(records, alliances);
    DistinctCount(r, x);
  }

  lemma {:induction false} DistinctCount(s: seq<int>, x: int)
    requires Distinct(s) && x in s
    ensures multiset(s)[x] == 1
  {
    if s[0] == x {
      assert x !in s[1..];
      assert s == [s[0]] + s[1..];
    } else {
      DistinctCount(s[1..], x);
      assert s == [s[0]] + s[1..];
    }
  }
}
