# bunny.net DNS-01 webhook: a Dafny model of the challenge solver

The webhook answers cert-manager's ACME DNS-01 challenges (section 8.4 of RFC 8555)
by creating a TXT record at the bunny.net DNS provider and removing it afterwards.
This project models the decision logic of its solver in `main.go`:

- **Zone search term** (`GetZone`): the resolved zone with exactly one trailing `.` removed.
- **Relative record name** (`Present` and `CleanUp`): `TrimSuffix(TrimSuffix(fqdn, zone), ".")`.
- **Record creation** (`Present`): a TXT record with type 3, TTL 10, the challenge token as
  value, the relative name, not disabled; a reply status of 400 or more is an error.
- **Record selection** (`CleanUp`): a scan of the zone's record list that stops at the
  first record with type 3, the relative name and the challenge token. When none
  matches (the selected ID stays 0), nothing is deleted and the call succeeds.
- **Delete target** (`CleanUp`): the found zone's ID and the selected record's ID.

Modules, one file each: `Wrappers` (Option, Result), `Dns` (records, zones, the
creation body, the constants 3 and 10), `Names` (suffix handling), `Matching` (the
record scan), `Provider` (the provider account the webhook talks to), `Solver`
(Present, CleanUp and the properties that relate them).

The provider is external. `Provider.Account` gives it an abstract behaviour: an
account holds zones with ordered record lists. A zone search returns the first zone
whose domain contains the search term, one item per page; the search is assumed to
answer, and its failures are not modelled (see "Left out"). A creation request
appends the record under a fresh ID, above every ID the account holds. A deletion
request removes the record with that ID from the zone. The account may list a record
with ID 0; CleanUp cannot tell such a record from "no match". For the creation and
deletion requests the HTTP reply is an input (`Reply`: no response, or a status and
a body); the provider carries out such a request exactly when it answers with a
status below 400. The whole-operation properties (CleanUp deletes only the selected
record, CleanUp after CleanUp changes nothing, Present then CleanUp restores the
zone) are properties of the model under this abstraction.

Notes on the code:
- the relative name is computed whether or not the zone is a suffix of the fully
  qualified name; outside the zone only one trailing dot is removed;
- CleanUp does not inspect the status of the deletion reply: any reply is a success,
  and only a failed call is an error, even when the provider refused the deletion;
- when the first matching record has ID 0, CleanUp stops its scan there and deletes
  nothing, even when a later record matches too.

## Model

| member | source | states |
|---|---|---|
| `Names.TrimSuffix` | main.go:111-112 | The trimmed string with the suffix put back is the input when the input ends with the suffix; otherwise the input is returned unchanged. |
| `Names.SearchTerm` | main.go:161-164 | For a non-empty zone, the search term plus "." is the zone when the zone ends with a dot; otherwise the term is the zone itself. |
| `Names.SearchTermDropsOneDot` | main.go:162-164 | Exactly one trailing dot is removed: the term for `name + "."` is `name`, even when `name` itself ends with a dot. |
| `Names.SearchTermIsTrimSuffix` | main.go:162-164 | On a non-empty zone the search term equals `TrimSuffix(zone, ".")`. |
| `Names.RelativeNameUnderZone` | main.go:111-112 | When the zone is a suffix of the name, the relative name is the name minus the zone and minus one separating dot, and the dot goes exactly when the name ends with "." + zone. |
| `Names.RelativeNameOutsideZone` | main.go:111-112 | When the zone is not a suffix of the name, only one trailing dot of the name is removed. |
| `Names.RelativeName` | main.go:111-112 | The name Present writes and CleanUp looks for (the same expression at main.go:208) is a prefix of the fully qualified name, at most the zone's length plus one shorter. |
| `Names.RelativeNameExample` | main.go:208 | ("_acme-challenge.example.com.", "example.com.") gives "_acme-challenge". |
| `Matching.FirstMatch` | main.go:210-216 | The index returned holds a record of type 3 with the challenge's name and token and no earlier record is one; -1 means no record is one. |
| `Matching.SelectedId` | main.go:207-216 | The ID left after the scan: a non-zero ID belongs to a record with type 3, the challenge's name and its token; when no record is one, the ID is 0. |
| `Matching.FindRecordId` | main.go:206-216 | The scan returns the ID of the first matching record in list order (it stops there), or 0 when none matches; a non-zero result is the ID of a record whose type, name and value are the challenge's. |
| `Matching.SelectsOnlyTheMatchingToken` | main.go:189-194 | With two same-named TXT records holding "tok1" and "tok2", the key "tok2" selects only the second record's ID. |
| `Matching.ZeroIdReadsAsNoMatch` | main.go:217-220 | A first matching record with ID 0 gives the same result as no match, and a later matching record is not selected either. |
| `Provider.FirstZoneIndex` | main.go:165 | The zone the search returns is the first one whose domain contains the search term; -1 means no zone's domain does. |
| `Provider.RemoveRecord` | main.go:222-231 | Deleting by ID leaves no record with that ID and never lengthens the list. |
| `Provider.RemoveUniqueRecord` | main.go:222-231 | With unique record IDs, deleting by one record's ID removes exactly that record and keeps all others in order. |
| `Provider.DeleteOneRecordAt` | main.go:222 | With distinct zone IDs and unique record IDs, deleting one record's ID from its zone removes exactly that record; every other record and every other zone is unchanged and in order. |
| `Provider.RemoveRecordIdempotent` | main.go:222-231 | Deleting the same record ID twice is deleting it once. |
| `Provider.Account.CreateRecord` | main.go:133-155 | An accepted creation request appends the record under the next fresh ID to the addressed zone; a refused or failed one changes nothing; the account invariant is kept. |
| `Provider.Account.DeleteRecord` | main.go:222-231 | An accepted deletion request removes the record ID from the addressed zone; otherwise nothing changes; the account invariant is kept. |
| `Solver.FindZone` | main.go:161-186 | An empty zone name is an error; the no-zone error comes exactly when no zone's domain contains the search term; otherwise the result is the first zone whose domain contains it. |
| `Solver.ChallengeRecord` | main.go:114-126 | The record Present sends has type 3, TTL 10, Disabled false, the challenge token as value and the relative name as name; `Solver.PresentWritesWhatCleanUpSeeks` shows CleanUp's scan matches it. |
| `Solver.StatusError` | main.go:142-155 | No error exactly when a reply came with a status below 400; a status of 400 or more gives an error carrying that status and the body; no reply is a send error. |
| `Solver.DeleteTarget` | main.go:217-222 | Nothing is deleted exactly when no record matches or the first match has ID 0; otherwise the target is the found zone's ID and the first match's ID. |
| `Solver.Present` | main.go:98-159 | Zone-lookup errors are returned with nothing changed; otherwise the result is the verdict on the reply, and on success the zone gains exactly the TXT record built from the challenge, while on failure nothing changes. |
| `Solver.CleanUp` | main.go:195-232 | Zone-lookup errors are returned; when no record matches, the call succeeds and nothing changes; otherwise the selected record is deleted if the provider accepts, and only a failed call is an error. |
| `Solver.PresentWritesWhatCleanUpSeeks` | main.go:114-126 | The record Present creates has type 3, TTL 10, is enabled, and carries the name and token CleanUp's scan looks for. |
| `Solver.ChallengeRecordExample` | main.go:114-126 | For "_acme-challenge.example.com." in "example.com." with token "tok1", Present sends {Type 3, Ttl 10, Value "tok1", Name "_acme-challenge", Disabled false}. |
| `Solver.CleanUpDeletesOnlySelected` | main.go:206-231 | CleanUp removes at most one record, the first one of the found zone with type 3, the challenge's name and its token, and none when that record has ID 0; every other record and every other zone is unchanged and in order. |
| `Solver.CleanUpTwiceIsOnce` | main.go:217-220 | When the zone held at most one record for the challenge, a second CleanUp changes nothing. |
| `Solver.PresentThenCleanUpRestores` | main.go:104-222 | When the zone held no record for the challenge, Present followed by CleanUp leaves the zones exactly as they were: CleanUp deletes the record Present added. |

## Left out

- HTTP request construction, headers (`Accept`, `Content-Type`, `AccessKey`), the HTTP client and its timeouts: network I/O. The reply to each call is an input to the model.
- JSON encoding of the creation body and decoding of the search result: library calls. The model works on decoded records.
- `Solver.FindZone`: where the code panics (an index out of range on an empty resolved zone at main.go:162, and on an empty search page at main.go:186 and main.go:210), the model returns the error values `ZoneNameEmpty` and `NoZoneFound`, and the operation changes nothing.
- Failures of the zone search call: the code ignores the transport error, the status and the decoding error of the search (main.go:167-177), and then panics on the nil response or the empty page. The model assumes the search answers with the account's zones, so it cannot represent a failed or undecodable search while the zone exists.
- Failure to read Present's reply body ("failed to read response"): not modelled; the reply is given whole.
- Error message wrapping ("failed to get zone ID: ...", "failed to load config: ..."): errors are the `SolverError` values.
- Process configuration: the `GROUP_NAME` and `API_KEY` environment variables, `loadConfig` and its panic, and `main`.
- `Initialize` (it does nothing), `Name` (a constant) and the webhook server start-up: host framework bootstrapping.
- Logging with `log.Printf` and `fmt.Printf`.
- The record and zone fields the webhook neither reads nor writes, including dates and floating-point geolocation.
- Concurrent invocations, and the provider's real behaviour on a repeated creation request (it may update a record with the same type and name in place). The model appends a second record, so Present run twice leaves two records, and CleanUp removes one per call.
- The provider's zone search, which is external: it is modelled as the first zone whose domain contains the term.
