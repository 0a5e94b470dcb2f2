/**
 * CleanUp's choice of the record to delete: the first TXT record, in the order
 * the provider lists them, whose name and value are the challenge's.
 */
module Matching {
  import opened Dns

  /** A record CleanUp may delete for the challenge with this relative name and key. */
  predicate IsChallengeRecord(r: Record, name: string, key: string) {
    r.rtype == TxtRecordType && r.name == name && r.value == key
  }

  /** Index of the first challenge record in `records`, or -1 when there is none. */
  function FirstMatch(records: seq<Record>, name: string, key: string): (k: int)
    ensures -1 <= k < |records|
    ensures k >= 0 ==> IsChallengeRecord(records[k], name, key)
    ensures forall j :: 0 <= j < |records| && (k < 0 || j < k) ==> !IsChallengeRecord(records[j], name, key)
    decreases |records|
  {
    if |records| == 0 then -1
    else if IsChallengeRecord(records[0], name, key) then 0
    else
      var k := FirstMatch(records[1..], name, key);
      if k < 0 then -1 else k + 1
  }

  /**
   * The record ID CleanUp ends up with: that of the first challenge record, 0 when
   * none matches. A non-zero ID always belongs to a record with the challenge's
   * type, name and token.
   */
  function SelectedId(records: seq<Record>, name: string, key: string): (id: int)
    ensures id != 0 ==>
      exists k :: 0 <= k < |records| && records[k].id == id && IsChallengeRecord(records[k], name, key)
    ensures (forall k :: 0 <= k < |records| ==> !IsChallengeRecord(records[k], name, key)) ==> id == 0
  {
    var k := FirstMatch(records, name, key);
    if k < 0 then 0 else records[k].id
  }

  /**
   * The scan of the zone's record list: stops at the first challenge record and
   * keeps its ID; leaves the ID at 0 when nothing matches.
   */
  method FindRecordId(records: seq<Record>, name: string, key: string) returns (recordId: int)
    ensures recordId == SelectedId(records, name, key)
    ensures recordId != 0 ==>
      exists k :: 0 <= k < |records| && records[k].id == recordId && IsChallengeRecord(records[k], name, key)
  {
    recordId := 0;
    for i := 0 to |records|
      invariant recordId == 0
      invariant forall j :: 0 <= j < i ==> !IsChallengeRecord(records[j], name, key)
    {
      var r := records[i];
      if r.rtype == TxtRecordType && r.name == name && r.value == key {
        recordId := r.id;
        break;
      }
    }
  }

  /** Taking out the only challenge record of a list leaves a list without one. */
  lemma NoMatchAfterRemovingOnlyMatch(records: seq<Record>, m: int, name: string, key: string)
    requires 0 <= m < |records|
    requires forall j :: 0 <= j < |records| && IsChallengeRecord(records[j], name, key) ==> j == m
    ensures FirstMatch(records[..m] + records[m + 1..], name, key) < 0
  {
    var rest := records[..m] + records[m + 1..];
    forall j | 0 <= j < |rest| ensures !IsChallengeRecord(rest[j], name, key) {
      if j < m {
        assert rest[j] == records[j];
      } else {
        assert rest[j] == records[j + 1];
      }
    }
  }

  /**
   * A record carrying another challenge's token is never selected, even under the
   * same name: with "tok1" and "tok2" under one name, the key "tok2" selects the second.
   */
  lemma SelectsOnlyTheMatchingToken()
    ensures SelectedId([Record(1, TxtRecordType, ChallengeRecordTtl, "_acme-challenge", "tok1", false),
                        Record(2, TxtRecordType, ChallengeRecordTtl, "_acme-challenge", "tok2", false)],
                       "_acme-challenge", "tok2") == 2
  {
    var rs := [Record(1, TxtRecordType, ChallengeRecordTtl, "_acme-challenge", "tok1", false),
               Record(2, TxtRecordType, ChallengeRecordTtl, "_acme-challenge", "tok2", false)];
    assert !IsChallengeRecord(rs[0], "_acme-challenge", "tok2");
    assert IsChallengeRecord(rs[1], "_acme-challenge", "tok2");
  }

  /**
   * A first matching record with ID 0 reads as "no match": the scan stops there,
   * so a later matching record is not selected either.
   */
  lemma ZeroIdReadsAsNoMatch(later: int)
    ensures SelectedId([Record(0, TxtRecordType, ChallengeRecordTtl, "_acme-challenge", "tok", false),
                        Record(later, TxtRecordType, ChallengeRecordTtl, "_acme-challenge", "tok", false)],
                       "_acme-challenge", "tok") == 0
  {
  }
}
