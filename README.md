# gocouch request shaping, in Dafny

This project models the core of `gocouch`, a Go client for CouchDB. The model covers what the client decides before any network traffic, and how it reads what comes back:

- the request paths and query strings it builds;
- the `Destination` header value;
- the `_bulk_docs` body, and the bulk-delete shaper that checks and tags documents;
- the feed checks of the two `_changes` calls;
- the revision guard of `DelAttachment`;
- the security object and its fetch-edit-store helpers;
- the server calls `GetUUIDs`, `GetLog`, `GetDBEvent`, `Replicate` and `GetMembership`;
- Basic and cookie authentication, and the id of a user document.

The transport is abstracted. An operation either rejects its arguments before sending anything (`Call.Reject`) or yields the `Request` it would send (`Call.Send`). How the transport answered is given as a parameter (`Reply`, a decoded body, a list of cookies). Go `Options` maps are sequences of distinct-key pairs, and every property holds for the order given. Values are a JSON `Value` datatype. Go reflection over structs is a sequence of tagged `Field`s.

The modules:

- `Wrappers`: `Option` and `Result`.
- `Text`:
  - `strings.TrimRight`, `TrimLeft`, `Trim` and `Contains`;
  - the decimal rendering of `%d` and `%v`, with a parser that reads it back.
- `Base64`: base64 as in section 4 of RFC 4648 (standard alphabet, `=` padding), with its decoder and the round trip.
- `Http`: values, options, errors (the client's own each a constructor named after its text), requests and replies.
- `Query`: the three query-string accumulators (`k=v&` per pair, `&k=v` per pair, and `k=v` per pair with no separator), and the plain `k1=v1&k2=v2` form they are meant to produce.
- `Database` (`database.go`):
  - `queryURL`, `Destination.String`, `Update` and its wrappers;
  - `bulkDelete` and its wrappers;
  - the `_changes` calls and `DelAttachment`.
- `Security` (`security.go`): the security object, as the class `DefaultSecurity` whose four `Update*` methods edit its lists in place, and `DatabaseSecurity`.
- `Server` (`server.go`): the server-level calls.
- `Auth` (`auth.go`): `BasicAuth`, `NewSession` and `CreateUser`.

Two behaviours of the code as written are kept on purpose:

- Deleting a name or role that is absent appends it, because the search loop falls through to the `append` (`Security.AbsentIsAppended`).
- `queryURL` cuts every trailing `/`. A last segment that ends in `/` therefore loses it. The path lemmas state their result for last segments that do not end in `/`.

The `Trim` calls on the query accumulators can also eat an `&` that belongs to a key or a value. The lemmas that give the plain joined form therefore require `Query.Tidy`: the first key does not start with `&`, and the last value ends in neither `&` nor `/`. The general form is stated as well.

## Model

| member | source | states |
|---|---|---|
| Text.TrimRight | database.go:104 | the result is a prefix of the input, does not end in the cut character, and only that character was cut |
| Text.TrimLeft | database.go:414 | the result is a suffix of the input, does not start with the cut character, and only that character was cut |
| Text.TrimCuts | database.go:112 | the result is the part of the input between a leading and a trailing run of the cut character, and neither starts nor ends with it |
| Text.TrimOneTrailing | database.go:113 | trimming a string that neither starts nor ends with `c`, followed by one `c`, gives back the string |
| Text.TrimOneLeading | database.go:414 | trimming one `c` followed by such a string gives back the string |
| Text.Contains | database.go:362 | true exactly when the pattern occurs at some position of the string |
| Text.NatToDecimal | server.go:272 | the rendering is non-empty, all digits, and has no leading zero |
| Text.DecimalRoundTrip | server.go:272 | parsing the decimal rendering of a number gives the number back |
| Text.DecimalInjective | server.go:195 | two numbers with the same rendering are equal |
| Base64.CharIndex | auth.go:26 | the decoder's character table inverts the alphabet and rejects `=` |
| Base64.Encode | auth.go:26 | the encoding has four characters for every started group of three bytes |
| Base64.RoundTrip | auth.go:26 | decoding the encoding of any byte string gives it back |
| Base64.EncodeInjective | auth.go:26 | different byte strings have different encodings |
| Base64.Rfc4648FooVectors | auth.go:26 | the encoder gives the test vectors of section 10 of RFC 4648 for "", "f", "fo" and "foo" |
| Base64.Rfc4648FoobarVectors | auth.go:26 | the encoder gives the test vectors of section 10 of RFC 4648 for "foob", "fooba" and "foobar" |
| Http.Lookup | database.go:406 | absent exactly when no pair has the key; a value found is stored under the key |
| Http.Remove | database.go:437 | no pair with the key is left, every other pair stays, and keys stay distinct |
| Http.StringValues | security.go:31-32 | a string list is marshalled as an array with one JSON string per item, in order |
| Query.JoinAmpEnds | database.go:107-117 | the joined pairs start with the first key and end with the last value |
| Query.AmpAfterIsJoin | database.go:108-110 | the `k=v&` accumulator is the joined pairs followed by one `&` |
| Query.AmpBeforeIsJoin | database.go:410-412 | the `&k=v` accumulator is one `&` followed by the joined pairs |
| Query.TrimAmpAfter | database.go:108-113 | for tidy options, trimming the `k=v&` accumulator gives exactly the pairs joined by `&` |
| Query.TrimAmpBefore | database.go:410-414 | for tidy options, trimming the `&k=v` accumulator gives exactly the pairs joined by `&` |
| Query.JoinAmpLast | database.go:104 | the joined pairs of tidy options end in neither `/` nor `&`, so `queryURL` cuts nothing from them |
| Query.NoSeparatorEnds | database.go:439-443 | the pairs run together start with the first key (or `=`) and end with the last value (or `=`) |
| Query.TrimNoSeparator | database.go:439-443 | trimming `&` leaves the run-together pairs of tidy options unchanged |
| Database.QueryURL | database.go:99-105 | the loop returns `/`-prefixed segments with trailing `/` cut: a prefix of the joined text, not ending in `/`, and empty for no segments |
| Database.JoinedSnoc | database.go:101-102 | one more segment appends `/` and the segment |
| Database.TwoSegments | database.go:99-105 | two segments, the last not ending in `/`, give `/first/second` |
| Database.ThreeSegments | database.go:99-105 | three segments, the last not ending in `/`, give `/first/second/third` |
| Database.EmptyLastSegment | database.go:99-105 | an empty last segment adds only a `/`, which is cut again, so with a second segment that is not empty and does not end in `/` the path is `/first/second` |
| Database.Destination.String | database.go:107-117 | the id alone without options; otherwise id, `?`, and the trimmed accumulator, which for tidy options is the pairs joined by `&` |
| Database.Update | database.go:286-305 | POST to `/<db>/_bulk_docs`; the body always holds `docs`, holds `new_edits=false` iff revisions are not updated, holds `all_or_nothing=true` iff atomic, and nothing else; the full-commit header iff asked for |
| Database.InsertMany | database.go:319-321 | the body is exactly `{docs}`, with no `new_edits` and no `all_or_nothing` |
| Database.MustInsertMany | database.go:325-327 | the body is exactly `{docs, all_or_nothing=true}` |
| Database.Entries | database.go:342 | the entries of the caller's maps, one per map, in order |
| Database.MapCheck | database.go:343-348 | `_id` is checked before `_rev`; each missing key gives its own error, and both present give none |
| Database.PassingPrefix | database.go:342-348 | counts the maps that pass from the front; the next one, if any, fails |
| Database.CheckAndMark | database.go:343-349 | a map missing `_id` or `_rev` is left as it was, with the check's error; a map with both gains `_deleted=true` and keeps every other entry |
| Database.MarkMaps | database.go:342-351 | stops with the first failing map's error; exactly the maps before it are tagged `_deleted=true` in place, and the rest are untouched |
| Database.ScanFails | database.go:331-365 | the field loop fails exactly when some `_id` or `_rev` field is not an exported string, and the error is "Invalid argument type" |
| Database.ScanFields | database.go:357-365 | the field loop of one struct ends with what the field scan gives: the tagged values found, or the recovered panic at the first unreadable tagged field |
| Database.ScanTracksId | database.go:359-361 | after the field loop, `_id` holds the value of the last field tagged `_id`, or nothing |
| Database.ScanTracksRev | database.go:362-364 | after the field loop, `_rev` holds the value of the last field whose tag contains `_rev`, or nothing |
| Database.ScanFindsId | database.go:359-361 | `_id` comes from the last field tagged exactly `_id`, and is absent when no field has that tag |
| Database.ScanFindsRev | database.go:362-364 | `_rev` comes from the last field whose tag contains `_rev`, and is absent when there is none |
| Database.ElementRecordsInOrder | database.go:353-374 | there is one record per element, in order, when every element has one; otherwise the result is the error of the first element without one |
| Database.StructFieldsLocated | database.go:353-373 | whatever the field order, the record is exactly `_id`, `_rev` and `_deleted=true` with the tagged fields' values |
| Database.ShapeElements | database.go:353-374 | the nested loops compute the element records; each record has exactly the keys `_id`, `_rev`, `_deleted` |
| Database.ScanFailed | database.go:357-365 | once the field loop has failed on a prefix, the whole loop fails with that error |
| Database.ElementsFailed | database.go:353-371 | once the element loop has failed on a prefix, it fails with that error |
| Database.BulkDelete | database.go:330-383 | a nil argument, a slice of an interface type other than `interface{}` and an inexact map slice give the recovered "Invalid argument type"; non-slices and other element kinds give their own errors; on any error nothing is sent; maps are tagged in place up to the failing one; on success the payload is posted through `Update` |
| Database.SameChecksSamePrefix | database.go:342-348 | maps that check the same position by position pass the same number from the front |
| Database.BulkDeleteAgain | database.go:330-383 | a second bulk delete of the same documents, whose maps the first one has tagged, returns the same error or sends the same request |
| Database.DeleteMany | database.go:394-396 | whatever is sent has the body keys `{docs}` only |
| Database.MustDeleteMany | database.go:399-401 | whatever is sent has the body keys `{docs, all_or_nothing}`, with `all_or_nothing=true` |
| Database.AllChangesPathEmpty | database.go:413-418 | without options the path is `/<db>/_changes` |
| Database.AllChangesPathTidy | database.go:410-418 | with tidy options the path is `/<db>/_changes?` followed by the pairs joined by `&` |
| Database.GetAllChanges | database.go:404-418 | `feed=continuous` is refused and a non-string feed panics, both before any request; otherwise a GET of the changes path, `/<db>/_changes` without options |
| Database.ChangesFeedRunsTogether | database.go:439-446 | as written, one option follows `feed=continuous` with no `&` between them |
| Database.ChangesFeedQueryAsWritten | database.go:439-443 | as written: the query starts with `_changes?feed=continuous`, is just that without other options, and for tidy options is that followed by the pairs run together with no `&` |
| Database.SinceNowRunsTogether | database.go:439-443 | as written, `{since: now}` asks for `_changes?feed=continuoussince=now` |
| Database.ChangesFeedSeparated | database.go:439-446 | with the separator, tidy options follow `feed=continuous&` joined by `&` |
| Database.ChangesFeedQueryLoop | database.go:439-446 | corrected: the accumulator loop gives the separated query, `_changes?feed=continuous&` followed by the pairs joined by `&` for tidy options |
| Database.GetChangesChan | database.go:430-451 | corrected: a non-string feed panics and any feed other than `continuous` is refused, leaving the caller's options alone; `continuous` is deleted from the caller's options; the request asks for `feed=continuous` followed by the remaining pairs, each introduced by `&` |
| Database.DelAttachment | database.go:833-841 | an empty revision is refused before any request; otherwise a DELETE carrying the revision in `If-Match`, of the path `queryURL` gives for the database, the id and the name: `/<db>/<id>/<name>` for a name that is not empty and does not end in `/`, and the whole document's path `/<db>/<id>` for an empty name |
| Security.FirstIndex | security.go:37-38 | the first position holding the item |
| Security.FirstIndexUnique | security.go:37-38 | a position holding the item with no earlier copy is the first index |
| Security.EditList | security.go:36-47 | the search loop leaves the edited list and the error of the list function |
| Security.AbsentIsAppended | security.go:37-47 | an absent item is appended with no error, when adding and when deleting; on an empty list it becomes the whole list |
| Security.PresentAddRefused | security.go:38-43 | adding a present item leaves the list and reports the "already exists" error |
| Security.AddKeepsDistinct | security.go:37-47 | after an add the item is in the list, and a list without duplicates still has none |
| Security.DeleteRemovesOne | security.go:38-41 | deleting a present item removes exactly its first copy and keeps the order of the rest |
| Security.DeleteOfDistinct | security.go:38-41 | deleting from a duplicate-free list leaves the item out entirely, and the list stays duplicate-free |
| Security.AddThenDelete | security.go:37-47 | deleting a just-added item restores the list |
| Security.DeleteThenAdd | security.go:37-47 | deleting and re-adding moves the item to the end and keeps the same items |
| Security.Edit | security.go:36-93 | the chosen list is edited and the other three lists are unchanged |
| Security.DefaultSecurity.constructor | security.go:24-33 | a fresh object holds four empty lists |
| Security.DefaultSecurity.UpdateAdmins | security.go:36-48 | admin names are edited, with the error "Login already exists"; the other lists are unchanged |
| Security.DefaultSecurity.UpdateMembers | security.go:51-63 | member names are edited, with the error "Login already exists"; the other lists are unchanged |
| Security.DefaultSecurity.UpdateAdminRoles | security.go:66-78 | admin roles are edited, with the error "Role already exists"; the other lists are unchanged |
| Security.DefaultSecurity.UpdateMemberRoles | security.go:81-93 | member roles are edited, with the error "Role already exists"; the other lists are unchanged |
| Security.DefaultSecurity.Load | security.go:101 | decoding into the receiver replaces the lists the reply carries and keeps the others |
| Security.DecodeItems | security.go:101 | a decoded array has one string per item |
| Security.StringsRoundTrip | security.go:101-110 | a marshalled string list decodes back to itself |
| Security.GroupRoundTrip | security.go:30-33 | a marshalled group decodes back to itself into an empty group; into a held group, each non-empty stored list replaces the held one and each empty list, which `omitempty` leaves out, keeps the held one |
| Security.StoreThenFetch | security.go:96-123 | the object stored decodes back to the same lists in a fresh receiver, and in any receiver when no list is empty |
| Security.SecurityPath | security.go:96-114 | fetch and store both address `/<db>/_security` |
| Security.ReAddStillStores | security.go:132-141 | re-adding a present entry still stores the fetched object unchanged, and reports only the store's outcome |
| Security.DatabaseSecurity.constructor | security.go:126-129 | a fresh security object bound to the database |
| Security.DatabaseSecurity.AddAdmin | security.go:132-141 | a failed fetch is returned and nothing else is done; otherwise fetch, add the admin name with its error dropped, store, and return the store's outcome |
| Security.DatabaseSecurity.DeleteAdmin | security.go:144-153 | the same sequence, deleting an admin name |
| Security.DatabaseSecurity.AddAdminRole | security.go:156-165 | the same sequence, adding an admin role |
| Security.DatabaseSecurity.DeleteAdminRole | security.go:168-177 | the same sequence, deleting an admin role |
| Security.DatabaseSecurity.AddMember | security.go:180-189 | the same sequence, adding a member name |
| Security.DatabaseSecurity.DeleteMember | security.go:192-201 | the same sequence, deleting a member name |
| Security.DatabaseSecurity.AddMemberRole | security.go:204-213 | the same sequence, adding a member role |
| Security.DatabaseSecurity.DeleteMemberRole | security.go:216-225 | the same sequence, deleting a member role |
| Server.GetUUIDs | server.go:267-272 | refused with "Count must be greater than zero" iff count < 1; otherwise the path is `/_uuids?count=` followed by the count in decimal with no leading zero, which parses back to the count |
| Server.UUIDsPathInjective | server.go:272 | different counts ask for different paths |
| Server.LogPath | server.go:193-198 | `/_log` when size <= 0; otherwise `/_log?bytes=` followed by the size in decimal with no leading zero, which parses back to the size |
| Server.GetLog | server.go:199-208 | corrected: every transport error is returned; an answer gives its body unless reading fails |
| Server.GetLogAsWritten | server.go:199-208 | as written: no response panics; a refusal returns its error; an answer gives its body exactly when reading it does not fail |
| Server.GetLogPanicsWithoutResponse | server.go:199-203 | as written, no response gives a panic rather than the error; on every other reply the two agree |
| Server.DBUpdatesPathShape | server.go:108-117 | `/_db_updates` without options; `/_db_updates?` followed by the pairs joined by `&` for tidy options |
| Server.GetDBEventPath | server.go:108-117 | the accumulator loop gives the db_updates path, in both forms above |
| Server.GetDBEvent | server.go:118-127 | corrected: transport errors are returned; after an answer, an error exactly when decoding failed with a message not mentioning `EOF`, and then that decode error |
| Server.GetDBEventAsWritten | server.go:118-127 | as written: transport errors are returned, and after an answer nothing is returned, whatever decoding reports |
| Server.DBEventDecodeErrorLost | server.go:122-127 | as written, a decode error whose message does not mention `EOF` is lost, while the corrected call reports it |
| Server.DBEventOtherwiseAgrees | server.go:118-127 | on every other reply the two agree |
| Server.Replicate | server.go:212-225 | POST to `/_replicate`; the body keys are `source`, `target` and the option keys; each option's value is stored; `source` and `target` survive unless an option overrides them |
| Server.GetMembership | server.go:175-188 | corrected: a 400 refusal gives "Not supported by server"; every other error is returned; an answer gives the decode outcome |
| Server.GetMembershipAsWritten | server.go:175-188 | as written: errors other than `*Error` are returned; a 400 refusal gives "Not supported by server"; any other status refusal, like an answer, gives the outcome of decoding the body |
| Server.MembershipStatusLost | server.go:178-187 | as written, a refusal with a status other than 400 returns whatever decoding the spent body gives, never the status error, which the corrected call returns |
| Server.MembershipOtherwiseAgrees | server.go:175-188 | as written, a 400 refusal gives "Not supported by server"; everywhere else the two agree |
| Auth.BasicAuth.Credential | auth.go:25 | the credential's length is the user name's plus one plus the password's |
| Auth.BasicAuth.HeaderValue | auth.go:24-26 | `Basic ` followed by text that decodes to the credential, of length 6 + 4 * ceil(n / 3) |
| Auth.BasicAuth.AddAuthHeaders | auth.go:24-28 | the header value is added after the `Authorization` values already present, and nothing else changes |
| Auth.CredentialSplits | auth.go:25 | for a user name without a colon, splitting at the first colon gives the user name and the password back |
| Auth.HeaderIdentifies | auth.go:24-26 | two users without colons in their names have equal headers only when the names and the passwords are equal |
| Auth.HttpRequest.constructor | auth.go:27 | a request holding the given header values |
| Auth.LastNamed | auth.go:72-77 | none iff no cookie has the name; otherwise a cookie of that name with none of that name after it |
| Auth.SessionRequest | auth.go:62-68 | POST to `/_session` with a JSON body of exactly `name`, holding the user name, and `password`, holding the password |
| Auth.NewSession | auth.go:61-79 | a transport error is returned; otherwise the session keeps the last `AuthSession` cookie, or none |
| Auth.UserDocId | auth.go:55 | the id is `org.couchdb.user:` followed by the login, which can be read back from it |
| Auth.UserDocIdInjective | auth.go:55 | different logins get different document ids |
| Auth.CreateUser | auth.go:42-56 | a failure to open `_users` is returned; otherwise a PUT is always sent, carrying the marshalled record (exactly `name`, `type`, `roles` and `password`, with `null` roles for a nil list), to `/_users/org.couchdb.user:<login>` |
| Auth.UserRoundTrip | auth.go:42-47 | the body `CreateUser` stores reads back as the same record, a nil role list included |

## Left out

- The background goroutines that stream `_changes` and `_db_updates` (database.go:455-482, server.go:130-172). Their point is concurrency and channel closing, which this model does not express.
- The transport (`request`, `processResponse`, `parseError`, `parseBody` in gocouch.go). Its outcomes are parameters:
  - a reply for status codes;
  - the error of decoding a body;
  - the cookies of a response.
- The decode errors of `GetDBEvent` are given by their message text, and returned as `Failure`. They come from `encoding/json`, never from the client itself.
- JSON encoding to bytes and Go reflection. Values are the `Value` datatype, and structs are sequences of tagged fields. Marshalling errors cannot arise for these values and are not modelled.
- Option values other than strings, booleans and integers (floats, nested values), and their `%v` texts.
- Go map iteration order. Options are a sequence, and each property holds for the order given.
- The responses of `Update`, `GetAllChanges`, `GetUUIDs` (`result["uuids"]`), `DelAttachment` and `Replicate`. Only the request and the checks before it are modelled.
- `copy_db` in `GetChangesChan`, and its failure. This is connection copying.
- `Session.AddAuthHeaders`, `Session.Info` and `Session.Close`. These are request glue, and a session without a cookie would make `AddCookie` dereference nil.
- Opening the `_users` database in `CreateUser` (`MustGetDatabase`) and the response of `Put`. The outcome of opening is a parameter.
- Security.DefaultSecurity.Load: when a reply fails to decode, the fields decoded before the failure are not modelled. A fetch that fails leaves the receiver as it was.
- The `Error()` texts of the client's own errors. Each error is a constructor of `Http.Error`, named after its text; no call of the core looks at the text of one of its own errors.
- Database.DeleteMany: states the body keys only. The full effect is `Database.BulkDelete` with `atomic` false.
- Database.MustDeleteMany: states the body keys only. The full effect is `Database.BulkDelete` with `atomic` true.

## Findings

| source | as written | input that shows it | evidently intended | confidence | as-written member | corrected member |
|---|---|---|---|---|---|---|
| database.go:439-443 | the remaining options are appended after `_changes?feed=continuous` as `k=v` with no `&` before or between them | options `{feed: continuous, since: now}` ask for `_changes?feed=continuoussince=now` | `_changes?feed=continuous&since=now`, with pairs joined by `&` as in `GetAllChanges` | high, not executed | Database.ChangesFeedRunsTogether | Database.ChangesFeedSeparated, Database.GetChangesChan |
| server.go:122-127 | the decode error is declared inside `if err := ...` and shadows the request's `err`, so `return err` returns the request's nil | a 200 reply whose body is not JSON (decode error "invalid character") returns nil | return the decode error unless it mentions `EOF` | high, not executed | Server.DBEventDecodeErrorLost | Server.GetDBEvent |
| server.go:199-203 | `defer resp.Body.Close()` runs before the error check and evaluates `resp.Body` at once | a server that cannot be reached: `resp` is nil, and the call panics with a nil dereference | return the transport error, closing the body only when there is a response | high, not executed | Server.GetLogPanicsWithoutResponse | Server.GetLog |
| server.go:178-187 | a `*Error` whose status is not 400 falls out of the type switch, and the call decodes a body that `parseError` has already read and closed | a 500 refusal returns the error of reading the already closed body instead of the status error | return the status error | medium, not executed | Server.MembershipStatusLost | Server.GetMembership |
