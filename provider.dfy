/**
 * The DNS provider, which the webhook reaches over HTTP. It is not part of the
 * webhook; this module gives it the abstract behaviour the webhook's operations
 * are stated against: an account holding zones, a zone search, record creation
 * that appends a record under a fresh ID, and record deletion by ID.
 */
module Provider {
  import opened Dns

  /** What came back from an HTTP call: nothing (a transport failure) or a status and a body. */
  datatype Reply = NoResponse | Response(status: int, body: string)

  /** The provider carried out the request: it answered with a status below 400. */
  predicate Accepted(reply: Reply) {
    reply.Response? && reply.status < 400
  }

  /** `term` occurs in `s`. */
  predicate Contains(s: string, term: string)
    decreases |s|
  {
    if |term| > |s| then false
    else s[..|term|] == term || (|s| > 0 && Contains(s[1..], term))
  }

  /** Index of the first zone whose domain contains `term`, or -1 when there is none. */
  function FirstZoneIndex(zones: seq<Zone>, term: string): (k: int)
    ensures -1 <= k < |zones|
    ensures k >= 0 ==> Contains(zones[k].domain, term)
    ensures forall j :: 0 <= j < |zones| && (k < 0 || j < k) ==> !Contains(zones[j].domain, term)
    decreases |zones|
  {
    if |zones| == 0 then -1
    else if Contains(zones[0].domain, term) then 0
    else
      var k := FirstZoneIndex(zones[1..], term);
      if k < 0 then -1 else k + 1
  }

  /** `records` without the records whose ID is `id`, in their order. */
  function RemoveRecord(records: seq<Record>, id: int): (rest: seq<Record>)
    ensures |rest| <= |records|
    ensures forall i :: 0 <= i < |rest| ==> rest[i].id != id
    decreases |records|
  {
    if |records| == 0 then []
    else if records[0].id == id then RemoveRecord(records[1..], id)
    else [records[0]] + RemoveRecord(records[1..], id)
  }

  /** The zones after `r` is appended to the records of the zone with ID `zoneId`. */
  function WithRecord(zones: seq<Zone>, zoneId: int, r: Record): (zs: seq<Zone>)
    ensures |zs| == |zones|
    ensures forall i :: 0 <= i < |zones| ==> zs[i].id == zones[i].id && zs[i].domain == zones[i].domain
  {
    seq(|zones|, i requires 0 <= i < |zones| =>
      if zones[i].id == zoneId then zones[i].(records := zones[i].records + [r]) else zones[i])
  }

  /** The zones after the record with ID `recordId` is deleted from the zone with ID `zoneId`. */
  function WithoutRecord(zones: seq<Zone>, zoneId: int, recordId: int): (zs: seq<Zone>)
    ensures |zs| == |zones|
    ensures forall i :: 0 <= i < |zones| ==> zs[i].id == zones[i].id && zs[i].domain == zones[i].domain
  {
    seq(|zones|, i requires 0 <= i < |zones| =>
      if zones[i].id == zoneId then zones[i].(records := RemoveRecord(zones[i].records, recordId)) else zones[i])
  }

  predicate UniqueRecordIds(records: seq<Record>) {
    forall i, j :: 0 <= i < j < |records| ==> records[i].id != records[j].id
  }

  /** Every record ID is below the next ID the provider will hand out. */
  predicate RecordIdsBelow(records: seq<Record>, bound: int) {
    forall i :: 0 <= i < |records| ==> records[i].id < bound
  }

  /**
   * The provider's own invariant: zone IDs are distinct, record IDs are distinct
   * within a zone and below the next ID to be assigned, and that next ID is positive.
   * A listed record may carry ID 0, which CleanUp cannot tell from "no match".
   */
  predicate WellFormed(zones: seq<Zone>, nextRecordId: int) {
    && nextRecordId > 0
    && (forall i, j :: 0 <= i < j < |zones| ==> zones[i].id != zones[j].id)
    && (forall i :: 0 <= i < |zones| ==> UniqueRecordIds(zones[i].records))
    && (forall i :: 0 <= i < |zones| ==> RecordIdsBelow(zones[i].records, nextRecordId))
  }

  /** Deleting an ID no record has changes nothing. */
  lemma {:induction false} RemoveAbsentRecord(records: seq<Record>, id: int)
    requires forall i :: 0 <= i < |records| ==> records[i].id != id
    ensures RemoveRecord(records, id) == records
    decreases |records|
  {
    if |records| > 0 {
      RemoveAbsentRecord(records[1..], id);
      assert records == [records[0]] + records[1..];
    }
  }

  /** Deleting by ID distributes over concatenation. */
  lemma {:induction false} RemoveRecordAppend(a: seq<Record>, b: seq<Record>, id: int)
    ensures RemoveRecord(a + b, id) == RemoveRecord(a, id) + RemoveRecord(b, id)
    decreases |a|
  {
    if |a| > 0 {
      assert (a + b)[1..] == a[1..] + b;
      RemoveRecordAppend(a[1..], b, id);
    } else {
      assert a + b == b;
    }
  }

  /** With IDs unique, deleting by the ID at `k` removes exactly that one record, order kept. */
  lemma {:induction false} RemoveUniqueRecord(records: seq<Record>, k: int)
    requires UniqueRecordIds(records)
    requires 0 <= k < |records|
    ensures RemoveRecord(records, records[k].id) == records[..k] + records[k + 1..]
  {
    var id := records[k].id;
    assert records == records[..k] + [records[k]] + records[k + 1..];
    RemoveRecordAppend(records[..k] + [records[k]], records[k + 1..], id);
    RemoveRecordAppend(records[..k], [records[k]], id);
    RemoveAbsentRecord(records[..k], id);
    RemoveAbsentRecord(records[k + 1..], id);
    assert RemoveRecord([records[k]], id) == [];
  }

  /** Deleting the same ID twice is deleting it once. */
  lemma {:induction false} RemoveRecordIdempotent(records: seq<Record>, id: int)
    ensures RemoveRecord(RemoveRecord(records, id), id) == RemoveRecord(records, id)
  {
    RemoveAbsentRecord(RemoveRecord(records, id), id);
  }

  /** Appending a record under the next fresh ID keeps the invariant, with the next ID advanced. */
  lemma WithRecordKeepsWellFormed(zones: seq<Zone>, nextRecordId: int, zoneId: int, body: RecordBody)
    requires WellFormed(zones, nextRecordId)
    ensures WellFormed(WithRecord(zones, zoneId, Stored(nextRecordId, body)), nextRecordId + 1)
  {
  }

  /** With distinct zone IDs, a deletion touches only the zone at `k`, the one with that ID. */
  lemma WithoutRecordAt(zones: seq<Zone>, nextRecordId: int, k: int, recordId: int)
    requires WellFormed(zones, nextRecordId)
    requires 0 <= k < |zones|
    ensures WithoutRecord(zones, zones[k].id, recordId)
         == zones[k := zones[k].(records := RemoveRecord(zones[k].records, recordId))]
  {
  }

  /** Deleting by the ID of the record at `m` of the zone at `k` removes that one record and nothing else. */
  lemma DeleteOneRecordAt(zones: seq<Zone>, nextRecordId: int, k: int, m: int)
    requires WellFormed(zones, nextRecordId)
    requires 0 <= k < |zones| && 0 <= m < |zones[k].records|
    ensures
      var rs := zones[k].records;
      WithoutRecord(zones, zones[k].id, rs[m].id) == zones[k := zones[k].(records := rs[..m] + rs[m + 1..])]
  {
    WithoutRecordAt(zones, nextRecordId, k, zones[k].records[m].id);
    RemoveUniqueRecord(zones[k].records, m);
  }

  /** Deleting a record keeps the invariant. */
  lemma WithoutRecordKeepsWellFormed(zones: seq<Zone>, nextRecordId: int, zoneId: int, recordId: int)
    requires WellFormed(zones, nextRecordId)
    ensures WellFormed(WithoutRecord(zones, zoneId, recordId), nextRecordId)
  {
    var zs := WithoutRecord(zones, zoneId, recordId);
    forall i | 0 <= i < |zs| && zones[i].id == zoneId
      ensures UniqueRecordIds(zs[i].records) && RecordIdsBelow(zs[i].records, nextRecordId)
    {
      var rs := zones[i].records;
      assert UniqueRecordIds(rs) && RecordIdsBelow(rs, nextRecordId);
      if exists k :: 0 <= k < |rs| && rs[k].id == recordId {
        var k :| 0 <= k < |rs| && rs[k].id == recordId;
        RemoveUniqueRecord(rs, k);
      } else {
        RemoveAbsentRecord(rs, recordId);
      }
    }
  }

  /** The provider account: its zones and the next record ID it will assign. */
  class Account {
    var zones: seq<Zone>
    var nextRecordId: int

    ghost predicate Valid()
      reads this
    {
      WellFormed(zones, nextRecordId)
    }

    /**
     * PUT /dnszone/{zoneId}/records: when the provider accepts the request it
     * appends the record to the zone under a fresh ID; otherwise nothing changes.
     */
    method CreateRecord(zoneId: int, body: RecordBody, reply: Reply)
      requires Valid()
      modifies this
      ensures Valid()
      ensures Accepted(reply) ==>
        && zones == WithRecord(old(zones), zoneId, Stored(old(nextRecordId), body))
        && nextRecordId == old(nextRecordId) + 1
      ensures !Accepted(reply) ==> zones == old(zones) && nextRecordId == old(nextRecordId)
    {
      if Accepted(reply) {
        WithRecordKeepsWellFormed(zones, nextRecordId, zoneId, body);
        zones := WithRecord(zones, zoneId, Stored(nextRecordId, body));
        nextRecordId := nextRecordId + 1;
      }
    }

    /**
     * DELETE /dnszone/{zoneId}/records/{recordId}: when the provider accepts the
     * request the record with that ID leaves the zone; otherwise nothing changes.
     */
    method DeleteRecord(zoneId: int, recordId: int, reply: Reply)
      requires Valid()
      modifies this
      ensures Valid()
      ensures nextRecordId == old(nextRecordId)
      ensures zones == if Accepted(reply) then WithoutRecord(old(zones), zoneId, recordId) else old(zones)
    {
      if Accepted(reply) {
        WithoutRecordKeepsWellFormed(zones, nextRecordId, zoneId, recordId);
        zones := WithoutRecord(zones, zoneId, recordId);
      }
    }
  }
}
