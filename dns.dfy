/**
 * The provider's DNS data as the webhook sees it once a response is decoded:
 * zones, their records, and the body of a record-creation request.
 * Only the fields the webhook reads or writes are kept.
 */
module Dns {
  /** The provider's type code for TXT records. */
  const TxtRecordType: int := 3

  /** TTL, in seconds, of every challenge record the webhook creates. */
  const ChallengeRecordTtl: int := 10

  /** A record as the provider lists it. */
  datatype Record = Record(id: int, rtype: int, ttl: int, name: string, value: string, disabled: bool)

  /** A zone of the provider account; `records` is in the order the provider returns them. */
  datatype Zone = Zone(id: int, domain: string, records: seq<Record>)

  /** The body of a record-creation request: a record without ID, which the provider assigns. */
  datatype RecordBody = RecordBody(rtype: int, ttl: int, value: string, name: string, disabled: bool)

  /** The record the provider stores for a creation request once it has picked the ID. */
  function Stored(id: int, body: RecordBody): Record {
    Record(id, body.rtype, body.ttl, body.name, body.value, body.disabled)
  }
}
