/**
 * The DNS-01 challenge solver: Present creates the challenge's TXT record and
 * CleanUp deletes it again, both against the zone that the search for the
 * resolved zone finds in the provider account.
 */
module Solver {
  import opened Wrappers
  import opened Dns
  import opened Names
  import opened Matching
  import opened Provider

  /** A challenge request: the name to validate, the zone that owns it, and the token. */
  datatype Challenge = Challenge(fqdn: string, zone: string, key: string)

  /** How Present and CleanUp fail. */
  datatype SolverError =
    | ZoneNameEmpty                        // the source indexes the zone's last byte: a runtime panic
    | NoZoneFound                          // the source reads item 0 of an empty page: a runtime panic
    | SendFailed                           // the HTTP call itself failed
    | ApiStatus(status: int, body: string) // the provider answered with a status of 400 or more

  /**
   * The zone GetZone finds for a resolved zone: item 0 of the first page, one item
   * per page, of the search for its search term.
   */
  function FindZone(zones: seq<Zone>, zoneName: string): (r: Result<Zone, SolverError>)
    ensures |zoneName| == 0 <==> r == Failure(ZoneNameEmpty)
    ensures r == Failure(NoZoneFound) <==>
      |zoneName| > 0 && forall j :: 0 <= j < |zones| ==> !Contains(zones[j].domain, SearchTerm(zoneName))
    ensures r.Failure? ==> r.error == ZoneNameEmpty || r.error == NoZoneFound
    ensures r.Success? ==>
      && r.value == zones[FirstZoneIndex(zones, SearchTerm(zoneName))]
      && Contains(r.value.domain, SearchTerm(zoneName))
  {
    if |zoneName| == 0 then Failure(ZoneNameEmpty)
    else
      var k := FirstZoneIndex(zones, SearchTerm(zoneName));
      if k < 0 then Failure(NoZoneFound) else Success(zones[k])
  }

  /**
   * The TXT record Present asks the provider to create for a challenge: type TXT,
   * the fixed TTL, enabled, and the challenge's relative name and token.
   */
  function ChallengeRecord(ch: Challenge): (body: RecordBody)
    ensures body.rtype == TxtRecordType && body.ttl == ChallengeRecordTtl && !body.disabled
    ensures body.name == RelativeName(ch.fqdn, ch.zone) && body.value == ch.key
  {
    RecordBody(TxtRecordType, ChallengeRecordTtl, ch.key, RelativeName(ch.fqdn, ch.zone), false)
  }

  /** Present's verdict on the reply to its creation request. */
  function StatusError(reply: Reply): (err: Option<SolverError>)
    ensures err.None? <==> Accepted(reply)
    ensures reply.NoResponse? ==> err == Some(SendFailed)
    ensures reply.Response? && reply.status >= 400 ==> err == Some(ApiStatus(reply.status, reply.body))
  {
    match reply
    case NoResponse => Some(SendFailed)
    case Response(status, body) => if status >= 400 then Some(ApiStatus(status, body)) else None
  }

  /**
   * The (zone ID, record ID) pair CleanUp deletes in zone `z`, or None when it
   * deletes nothing: no challenge record, or a first challenge record with ID 0.
   */
  function DeleteTarget(z: Zone, ch: Challenge): (t: Option<(int, int)>)
    ensures
      var m := FirstMatch(z.records, RelativeName(ch.fqdn, ch.zone), ch.key);
      && (t.None? <==> m < 0 || z.records[m].id == 0)
      && (t.Some? ==> t.value == (z.id, z.records[m].id))
  {
    var recordId := SelectedId(z.records, RelativeName(ch.fqdn, ch.zone), ch.key);
    if recordId == 0 then None else Some((z.id, recordId))
  }

  /** The account's zones after a Present that the provider accepted. */
  function AfterPresent(zones: seq<Zone>, nextRecordId: int, ch: Challenge): seq<Zone>
    requires FindZone(zones, ch.zone).Success?
  {
    WithRecord(zones, FindZone(zones, ch.zone).value.id, Stored(nextRecordId, ChallengeRecord(ch)))
  }

  /** The account's zones after a CleanUp whose deletion, if it issues one, the provider accepted. */
  function AfterCleanUp(zones: seq<Zone>, ch: Challenge): seq<Zone>
    requires FindZone(zones, ch.zone).Success?
  {
    match DeleteTarget(FindZone(zones, ch.zone).value, ch)
    case None => zones
    case Some((zoneId, recordId)) => WithoutRecord(zones, zoneId, recordId)
  }

  /**
   * Present: find the zone, then ask the provider to create the TXT record with the
   * challenge's name and token. Succeeds exactly when the zone is found and the
   * provider accepts; only then has the account changed, by that one record.
   */
  method Present(ch: Challenge, account: Account, reply: Reply) returns (err: Option<SolverError>)
    requires account.Valid()
    modifies account
    ensures account.Valid()
    ensures FindZone(old(account.zones), ch.zone).Failure? ==>
      && err == Some(FindZone(old(account.zones), ch.zone).error)
      && account.zones == old(account.zones) && account.nextRecordId == old(account.nextRecordId)
    ensures FindZone(old(account.zones), ch.zone).Success? ==>
      && err == StatusError(reply)
      && (err.None? ==>
            && account.zones == AfterPresent(old(account.zones), old(account.nextRecordId), ch)
            && account.nextRecordId == old(account.nextRecordId) + 1)
      && (err.Some? ==> account.zones == old(account.zones) && account.nextRecordId == old(account.nextRecordId))
  {
    var found := FindZone(account.zones, ch.zone);
    if found.Failure? {
      return Some(found.error);
    }
    account.CreateRecord(found.value.id, ChallengeRecord(ch), reply);
    err := StatusError(reply);
  }

  /**
   * CleanUp: find the zone, scan its records for the challenge's record, and
   * delete that one record if there is one. Finding none is a success with no
   * change. The reply to the deletion is not inspected: any answer is a success,
   * only a failed call is an error.
   */
  method CleanUp(ch: Challenge, account: Account, reply: Reply) returns (err: Option<SolverError>)
    requires account.Valid()
    modifies account
    ensures account.Valid()
    ensures account.nextRecordId == old(account.nextRecordId)
    ensures FindZone(old(account.zones), ch.zone).Failure? ==>
      && err == Some(FindZone(old(account.zones), ch.zone).error)
      && account.zones == old(account.zones)
    ensures FindZone(old(account.zones), ch.zone).Success? &&
            DeleteTarget(FindZone(old(account.zones), ch.zone).value, ch).None? ==>
      err.None? && account.zones == old(account.zones)
    ensures FindZone(old(account.zones), ch.zone).Success? &&
            DeleteTarget(FindZone(old(account.zones), ch.zone).value, ch).Some? ==>
      && err == (if reply.NoResponse? then Some(SendFailed) else None)
      && account.zones == if Accepted(reply) then AfterCleanUp(old(account.zones), ch) else old(account.zones)
  {
    var found := FindZone(account.zones, ch.zone);
    if found.Failure? {
      return Some(found.error);
    }
    var zone := found.value;
    var hostname := RelativeName(ch.fqdn, ch.zone);
    var recordId := FindRecordId(zone.records, hostname, ch.key);
    if recordId == 0 {
      return None;
    }
    account.DeleteRecord(zone.id, recordId, reply);
    err := if reply.NoResponse? then Some(SendFailed) else None;
  }

  /** The zone found after an update that keeps every zone's domain is the same zone position. */
  lemma FindZoneIgnoresRecords(zones: seq<Zone>, zones': seq<Zone>, zoneName: string)
    requires |zones'| == |zones|
    requires forall i :: 0 <= i < |zones| ==> zones'[i].domain == zones[i].domain
    requires |zoneName| > 0
    ensures FirstZoneIndex(zones', SearchTerm(zoneName)) == FirstZoneIndex(zones, SearchTerm(zoneName))
  {
  }

  /**
   * CleanUp deletes at most one record: the first challenge record of the found
   * zone, whose type, name and token are the challenge's. Every other record of
   * that zone, and every other zone, stays as it was, in the same order. When
   * that first challenge record has ID 0, nothing is deleted.
   */
  lemma CleanUpDeletesOnlySelected(zones: seq<Zone>, nextRecordId: int, ch: Challenge, k: int, m: int)
    requires WellFormed(zones, nextRecordId)
    requires FindZone(zones, ch.zone).Success?
    requires k == FirstZoneIndex(zones, SearchTerm(ch.zone))
    requires m == FirstMatch(zones[k].records, RelativeName(ch.fqdn, ch.zone), ch.key)
    ensures m >= 0 ==> IsChallengeRecord(zones[k].records[m], RelativeName(ch.fqdn, ch.zone), ch.key)
    ensures m < 0 || zones[k].records[m].id == 0 ==> AfterCleanUp(zones, ch) == zones
    ensures m >= 0 && zones[k].records[m].id != 0 ==>
      AfterCleanUp(zones, ch) == zones[k := zones[k].(records := zones[k].records[..m] + zones[k].records[m + 1..])]
  {
    var z := zones[k];
    assert FindZone(zones, ch.zone).value == z;
    if m >= 0 && z.records[m].id != 0 {
      assert DeleteTarget(z, ch) == Some((z.id, z.records[m].id));
      assert AfterCleanUp(zones, ch) == WithoutRecord(zones, z.id, z.records[m].id);
      DeleteOneRecordAt(zones, nextRecordId, k, m);
    } else {
      assert DeleteTarget(z, ch).None?;
    }
  }

  /**
   * Once CleanUp has run, running it again changes nothing, provided the zone held
   * at most one record for the challenge (Present run twice leaves two, and each
   * CleanUp removes one of them).
   */
  lemma CleanUpTwiceIsOnce(zones: seq<Zone>, nextRecordId: int, ch: Challenge)
    requires WellFormed(zones, nextRecordId)
    requires FindZone(zones, ch.zone).Success?
    requires var rs := FindZone(zones, ch.zone).value.records;
      forall i, j ::
        (0 <= i < |rs| && 0 <= j < |rs| &&
         IsChallengeRecord(rs[i], RelativeName(ch.fqdn, ch.zone), ch.key) &&
         IsChallengeRecord(rs[j], RelativeName(ch.fqdn, ch.zone), ch.key)) ==> i == j
    ensures FindZone(AfterCleanUp(zones, ch), ch.zone).Success?
    ensures AfterCleanUp(AfterCleanUp(zones, ch), ch) == AfterCleanUp(zones, ch)
  {
    var name := RelativeName(ch.fqdn, ch.zone);
    var k := FirstZoneIndex(zones, SearchTerm(ch.zone));
    var rs := zones[k].records;
    var m := FirstMatch(rs, name, ch.key);
    CleanUpDeletesOnlySelected(zones, nextRecordId, ch, k, m);
    var after := AfterCleanUp(zones, ch);
    FindZoneIgnoresRecords(zones, after, ch.zone);
    if m >= 0 && rs[m].id != 0 {
      assert after[k].records == rs[..m] + rs[m + 1..];
      NoMatchAfterRemovingOnlyMatch(rs, m, name, ch.key);
    }
  }

  /**
   * Present followed by CleanUp, both carried out by the provider, gives back the
   * zones as they were, when the zone held no record for the challenge before:
   * CleanUp deletes exactly the record Present added.
   */
  lemma PresentThenCleanUpRestores(zones: seq<Zone>, nextRecordId: int, ch: Challenge)
    requires WellFormed(zones, nextRecordId)
    requires FindZone(zones, ch.zone).Success?
    requires FirstMatch(FindZone(zones, ch.zone).value.records, RelativeName(ch.fqdn, ch.zone), ch.key) < 0
    ensures FindZone(AfterPresent(zones, nextRecordId, ch), ch.zone).Success?
    ensures AfterCleanUp(AfterPresent(zones, nextRecordId, ch), ch) == zones
  {
    var name := RelativeName(ch.fqdn, ch.zone);
    var k := FirstZoneIndex(zones, SearchTerm(ch.zone));
    var z := zones[k];
    var added := Stored(nextRecordId, ChallengeRecord(ch));
    var present := AfterPresent(zones, nextRecordId, ch);
    FindZoneIgnoresRecords(zones, present, ch.zone);
    assert present[k].records == z.records + [added];
    var m := FirstMatch(z.records + [added], name, ch.key);
    assert IsChallengeRecord((z.records + [added])[|z.records|], name, ch.key);
    assert m == |z.records|;
    assert DeleteTarget(present[k], ch) == Some((z.id, nextRecordId));
    forall i | 0 <= i < |zones| && zones[i].id == z.id
      ensures RemoveRecord(present[i].records, nextRecordId) == zones[i].records
    {
      assert present[i].records == zones[i].records + [added];
      assert RecordIdsBelow(zones[i].records, nextRecordId);
      RemoveRecordAppend(zones[i].records, [added], nextRecordId);
      RemoveAbsentRecord(zones[i].records, nextRecordId);
    }
    assert AfterCleanUp(present, ch) == WithoutRecord(present, z.id, nextRecordId);
  }

  /**
   * The record Present creates is one CleanUp's scan matches for the same challenge:
   * both compute the name with RelativeName from the same fully qualified name and zone.
   */
  lemma PresentWritesWhatCleanUpSeeks(ch: Challenge, id: int)
    ensures IsChallengeRecord(Stored(id, ChallengeRecord(ch)), RelativeName(ch.fqdn, ch.zone), ch.key)
    ensures Stored(id, ChallengeRecord(ch)).ttl == ChallengeRecordTtl
    ensures !Stored(id, ChallengeRecord(ch)).disabled
  {
  }

  /** The worked example: the record created for "_acme-challenge.example.com." under "example.com.". */
  lemma ChallengeRecordExample()
    ensures ChallengeRecord(Challenge("_acme-challenge.example.com.", "example.com.", "tok1"))
         == RecordBody(3, 10, "tok1", "_acme-challenge", false)
  {
    RelativeNameExample();
  }
}
