# Abuse gate: rate limiter and blacklist stores

This project models the stateful core of an abuse-mitigation gate written in Rust
(actix-web over MongoDB):

- the per-IP rate limiter `check_rate_limit`, a fixed window of one second that
  admits two requests per window and answers 429 after that;
- the two blacklist collections, `blacklisted_ips` and `malicious_urls`, with their
  handlers: add, list the blocked entries newest first, get by id, delete by id and,
  for IPs, edit by id;
- the records stored in them (`BlacklistedIp`, `MaliciousUrl`, `RateLimitEntry`),
  their constructors, and the serde attributes and custom serializer on their `_id`.

Each MongoDB collection is held in memory. The blacklist collections are sequences
of documents in insertion order, and each has a class (`IpBlacklist`, `UrlBlacklist`)
whose methods do what the handlers do. The rate-limit collection is a map from IP to
counter inside the class `RateLimiter`. Every handler also has a function that
specifies it: it maps the stored documents and the request to the reply and the new
documents. Each method is proved to agree with its function, and the lemmas about
those functions state what the handlers promise across calls: add then get, delete
then get, edit then list, and N calls within one second.

Parameters stand in for what the handlers read from outside:

- `now`, the clock reading. It is in whole seconds for the rate limiter and an
  integer time for the blacklist records.
- `generated`, the ObjectId the driver generates for an inserted document that has
  no `_id`.
- `idStr`, the path segment that `ObjectId::parse_str` parses.

The model takes an ObjectId to be its canonical text: 24 lower-case hexadecimal
digits. `parse_str` accepts 24 hexadecimal digits of either case (`ObjectIds.ValidId`).

Modules, one per file:

- `Options`, `ObjectIds`, `Serde`, `Responses`: supporting types.
- `Documents`: lookup, deletion, filtering and sorting of a collection's documents,
  generic in the record type.
- `BlacklistedIps`, `MaliciousUrls`, `RateLimits`: the records.
- `BlacklistHandler`, `MaliciousHandler`, `CheckRateLimitHandler`: the handlers.

Three behaviours of the code that a reader of a fixed-window limiter or a
blacklist might expect otherwise, modelled as the code has them:

- A window is not over once exactly one second has passed: the counter resets only
  when more than one second has passed (`elapsed <= 1` is still inside the window,
  check_rate_limit_handler.rs:39). So a window admits two requests over readings
  t0, t0 + 1, and a negative elapsed time (a clock that went back) also counts as
  inside the window.
- The status is not a closed set of values: an edit stores any string it is sent
  (blacklist_handler.rs:118,140), and only `"blocked"` entries are listed.
- The rate limiter's check and increment are not one atomic step: it reads the
  counter and then writes it in a separate call (check_rate_limit_handler.rs:28,58).
  The model treats calls as sequential.

## Model

| member | source | states |
|---|---|---|
| ObjectIds.ParseStr | src/handlers/blacklist_handler.rs:74-78 | an id string is accepted exactly when it is 24 hex digits, and the identifier it gives spells the same digits up to case |
| ObjectIds.ParseToHex | src/models/blacklisted_ip.rs:41 | the hex text of an identifier parses back to the same identifier |
| ObjectIds.ParseStrIgnoresCase | src/handlers/blacklist_handler.rs:74-80 | two well-formed id strings address the same document exactly when they agree up to case |
| Serde.SerializeObjectIdAsString | src/models/blacklisted_ip.rs:33-44 | a present id serializes to a string that parses back to it; an absent one to none (the copy at src/models/malicious.rs:33-44 is the same function) |
| Serde.SkippedIfNoneId | src/models/blacklisted_ip.rs:7-12 | with `skip_serializing_if`, the `_id` field is absent exactly when the id is None, and otherwise holds hex text that parses back to the id |
| Serde.SetField | src/handlers/blacklist_handler.rs:137-143 | one field of a `$set`: afterwards the document holds the new value under the name, whether or not it had the field |
| Serde.SetFieldKeepsOthers | src/handlers/blacklist_handler.rs:137-143 | a `$set` of one field leaves every other field reading as before |
| Serde.InsertedId | src/handlers/blacklist_handler.rs:30-35 | the driver's `_id` rule on insert: an `_id` the document has is stored as it is (so null stays null), and a document without one gets the generated ObjectId |
| Serde.ReadId | src/models/rate_limit.rs:7-8 | reading a stored `_id` into `Option<ObjectId>`: null is None and an ObjectId is that identifier |
| Serde.DefaultId | src/models/rate_limit.rs:7-8 | with `rename` only, the `_id` field is always written, and is null exactly when the id is None |
| Documents.IndexOfId | src/handlers/blacklist_handler.rs:80-85 | `find_one({_id})` finds a document carrying the id exactly when one is stored |
| Documents.Without | src/handlers/blacklist_handler.rs:103 | `delete_one({_id})` leaves exactly the documents not carrying the id, and changes nothing when none does |
| Documents.WithoutRemovesOnlyAt | src/handlers/blacklist_handler.rs:103-106 | with unique ids, deleting by the id at position k removes that one document and keeps the others in order |
| Documents.Filter | src/handlers/blacklist_handler.rs:44 | the filter keeps each matching document as often as it is stored, and keeps no other |
| Documents.Drain | src/handlers/blacklist_handler.rs:53-59 | reading the cursor to its end collects every document it yields, in its order |
| Documents.SortDescending | src/handlers/blacklist_handler.rs:45-47 | `sort({created_at: -1})` returns a permutation of its input in non-increasing key order |
| BlacklistedIps.New | src/models/blacklisted_ip.rs:20-29 | a new entry keeps the address, has status "blocked", no `_id`, and `created_at == updated_at == now` |
| BlacklistedIps.Serialize | src/models/blacklisted_ip.rs:5-17 | the document has no `_id` field when the id is None, the id's hex text when present, the address and status as given, and both times as chrono writes them |
| BlacklistedIps.Stored | src/handlers/blacklist_handler.rs:30-35 | the stored document holds the assigned ObjectId and the address, status and both times as the record serializes them |
| BlacklistedIps.Deserialize | src/models/blacklisted_ip.rs:5-17 | a typed read succeeds only when every field has the record's type, with both times in chrono's encoding, and then gives back exactly the stored fields |
| BlacklistedIps.ReadStored | src/models/blacklisted_ip.rs:5-17 | an inserted entry reads back as the entry that was stored |
| BlacklistedIps.NewGetsGeneratedId | src/handlers/blacklist_handler.rs:28-30 | a new entry is inserted without `_id`, so the store gives it the identifier it generates |
| MaliciousUrls.New | src/models/malicious.rs:20-29 | a new entry keeps the URL, has status "blocked", no `_id`, and `created_at == updated_at == now` |
| MaliciousUrls.Serialize | src/models/malicious.rs:5-17 | the document has no `_id` field when the id is None, the id's hex text when present, the URL and status as given, and both times as chrono writes them |
| MaliciousUrls.NewGetsGeneratedId | src/handlers/malicious_handler.rs:28-30 | a new entry is inserted without `_id`, so the store gives it the identifier it generates |
| BlacklistHandler.Edited | src/handlers/blacklist_handler.rs:137-143 | an edit sets the address, the status and the update time, and keeps the id and `created_at` |
| BlacklistHandler.AddBlacklistIp | src/handlers/blacklist_handler.rs:19-36 | add appends one blocked entry with the address, the generated id and both times `now`, whether or not the address is already listed; the collection grows by exactly one; a taken id is a duplicate-key error (500) with no change |
| BlacklistHandler.GetAllBlacklistIp | src/handlers/blacklist_handler.rs:39-62 | the listing holds exactly the entries with status "blocked", each as often as stored, in non-increasing `created_at` order |
| BlacklistHandler.GetBlacklistIpById | src/handlers/blacklist_handler.rs:65-86 | a malformed id gives BadRequest; a well-formed one gives the stored entry with that id, or NotFound when there is none |
| BlacklistHandler.DeleteBlacklistIpById | src/handlers/blacklist_handler.rs:89-113 | a malformed id gives BadRequest and an unknown one NotFound, both with no change; otherwise OK, and exactly the entries without that id remain |
| BlacklistHandler.EditBlacklistIpById | src/handlers/blacklist_handler.rs:122-159 | a malformed id gives BadRequest and an unknown one NotFound, both with no change; otherwise OK, the entry gets the new address, the new status and `updated_at = now`, keeps its id and `created_at`, and every other entry is unchanged |
| BlacklistHandler.AddThenGet | src/handlers/blacklist_handler.rs:28-82 | adding an address and then getting it by the assigned id returns a blocked entry with that address |
| BlacklistHandler.AddKeepsDuplicates | src/handlers/blacklist_handler.rs:28-30 | an address already listed is listed once more after add |
| BlacklistHandler.DeleteRemovesExactlyOne | src/handlers/blacklist_handler.rs:103-109 | deleting a stored id removes exactly the entry at its position; a later get or delete of that id gives NotFound |
| BlacklistHandler.EditThenGet | src/handlers/blacklist_handler.rs:137-146 | with the edit's `updated_at` encoded as the record's (see Findings), getting the id after an edit shows the new address, status and update time, with the old id and `created_at` |
| BlacklistHandler.EditDecidesListing | src/handlers/blacklist_handler.rs:137-143 | the status an edit writes is not validated: with the edit's `updated_at` encoded as the record's, the edited entry is listed exactly when the new status is "blocked" |
| BlacklistHandler.FoundReply | src/handlers/blacklist_handler.rs:80-85 | a document `find_one` finds gives OK with the entry it decodes to, and 500 when the typed read fails |
| BlacklistHandler.EditSetAsWritten | src/handlers/blacklist_handler.rs:137-143 | as written, the `$set` keeps the document's `_id` and `created_at`, writes the new address and status, and writes `updated_at` as a BSON date of `now` |
| BlacklistHandler.EditSet | src/handlers/blacklist_handler.rs:137-143 | the `$set` with `updated_at` in the record's encoding: `_id` and `created_at` kept, the new address and status written, `updated_at` the chrono time `now` |
| BlacklistHandler.ListReply | src/handlers/blacklist_handler.rs:53-61 | the listing answers OK exactly when every document the cursor yields decodes, with the decoded entries in cursor order; otherwise it answers 500 |
| BlacklistHandler.ListingFailsAfterEditAsWritten | src/handlers/blacklist_handler.rs:44-57 | as written, once an entry has been edited with status "blocked", the listing of blocked entries answers 500, in whatever order the cursor yields the documents |
| BlacklistedIps.DeserializeFields | src/models/blacklisted_ip.rs:5-17 | a document whose fields hold an entry's id, address, status and chrono times reads back as exactly that entry |
| BlacklistHandler.EditedEntryUnreadableAsWritten | src/handlers/blacklist_handler.rs:137-146 | as written, the `$set` stores `updated_at` as a BSON date, so the edited document no longer decodes and a get of it answers 500 |
| BlacklistHandler.EditedEntryReadsBack | src/handlers/blacklist_handler.rs:137-146 | with `updated_at` encoded as the record's, the edited document decodes to exactly the edited entry, and a get of it answers OK |
| BlacklistHandler.IpBlacklist.Add | src/handlers/blacklist_handler.rs:19-36 | the insert does what AddBlacklistIp specifies, and ids stay unique |
| BlacklistHandler.IpBlacklist.GetAll | src/handlers/blacklist_handler.rs:39-61 | the reply is the listing GetAllBlacklistIp specifies: exactly the blocked entries, newest first |
| BlacklistHandler.IpBlacklist.GetById | src/handlers/blacklist_handler.rs:73-85 | the reply is the one GetBlacklistIpById specifies |
| BlacklistHandler.IpBlacklist.DeleteById | src/handlers/blacklist_handler.rs:97-112 | the in-place removal does what DeleteBlacklistIpById specifies, and ids stay unique |
| BlacklistHandler.IpBlacklist.EditById | src/handlers/blacklist_handler.rs:131-158 | the in-place update does what EditBlacklistIpById specifies, and ids stay unique |
| MaliciousHandler.AddBlacklistUrl | src/handlers/malicious_handler.rs:19-35 | add appends one blocked entry with the URL, the generated id and both times `now`, with no duplicate check; the collection grows by exactly one; a taken id is a duplicate-key error (500) with no change |
| MaliciousHandler.GetAllBlacklistUrl | src/handlers/malicious_handler.rs:38-61 | the listing holds exactly the entries with status "blocked", each as often as stored, in non-increasing `created_at` order |
| MaliciousHandler.GetBlacklistUrlById | src/handlers/malicious_handler.rs:64-85 | a malformed id gives BadRequest; a well-formed one gives the stored entry with that id, or NotFound when there is none |
| MaliciousHandler.DeleteBlacklistUrlById | src/handlers/malicious_handler.rs:88-112 | a malformed id gives BadRequest and an unknown one NotFound, both with no change; otherwise OK, and exactly the entries without that id remain |
| MaliciousHandler.AddThenGet | src/handlers/malicious_handler.rs:28-81 | adding a URL and then getting it by the assigned id returns a blocked entry with the same URL |
| MaliciousHandler.AddKeepsDuplicates | src/handlers/malicious_handler.rs:28-30 | a URL already listed is listed once more after add |
| MaliciousHandler.DeleteRemovesExactlyOne | src/handlers/malicious_handler.rs:102-108 | deleting a stored id removes exactly the entry at its position; a later get or delete of that id gives NotFound |
| MaliciousHandler.UrlBlacklist.Add | src/handlers/malicious_handler.rs:19-35 | the insert does what AddBlacklistUrl specifies, and ids stay unique |
| MaliciousHandler.UrlBlacklist.GetAll | src/handlers/malicious_handler.rs:38-60 | the reply is the listing GetAllBlacklistUrl specifies: exactly the blocked entries, newest first |
| MaliciousHandler.UrlBlacklist.GetById | src/handlers/malicious_handler.rs:72-84 | the reply is the one GetBlacklistUrlById specifies |
| MaliciousHandler.UrlBlacklist.DeleteById | src/handlers/malicious_handler.rs:96-111 | the in-place removal does what DeleteBlacklistUrlById specifies, and ids stay unique |
| RateLimits.SecsToMillis | src/handlers/check_rate_limit_handler.rs:48 | a reading in seconds is stored as a whole number of seconds' worth of milliseconds |
| RateLimits.MillisToSecs | src/handlers/check_rate_limit_handler.rs:34-35 | reading a date back divides by 1000 and truncates toward zero, as Rust's `/` on `i64` does |
| RateLimits.SecsRoundTrip | src/handlers/check_rate_limit_handler.rs:34-48 | storing `now * 1000` and reading it back with `/ 1000` gives `now` exactly |
| RateLimits.ToDocument | src/models/rate_limit.rs:6-12 | the counter's document always has an `_id` field, which is null exactly when the id is None and the ObjectId when it is present |
| RateLimits.ToDocumentSkippingNoneId | src/models/rate_limit.rs:7-8 | the corrected attribute leaves the `_id` field out exactly when the id is None |
| CheckRateLimitHandler.Elapsed | src/handlers/check_rate_limit_handler.rs:34-37 | for a counter stored at `start * 1000` ms, the elapsed time is `now - start` seconds |
| CheckRateLimitHandler.FreshCounter | src/handlers/check_rate_limit_handler.rs:70-75 | a new counter has no id, the request's IP, a count of 1 and the time `now * 1000` ms, which reads back as `now` |
| CheckRateLimitHandler.Insert | src/handlers/check_rate_limit_handler.rs:77-79 | `insert_one(...).unwrap()` panics exactly when a stored counter already has the `_id` the insert would store, and then nothing changes; otherwise it admits, adds only that IP's counter under that `_id`, and keeps every other counter |
| CheckRateLimitHandler.Revisit | src/handlers/check_rate_limit_handler.rs:33-61 | for a stored counter: 429 exactly when `elapsed <= 1` and the count is at least 2, with nothing written; inside the window the count goes up by one and the start is kept; after it the count is 1 and the start is `now * 1000` ms |
| CheckRateLimitHandler.StepAsWritten | src/handlers/check_rate_limit_handler.rs:69-79 | as written, a first call from a new IP fails exactly when some counter is already stored with an `_id` of null |
| CheckRateLimitHandler.Step | src/handlers/check_rate_limit_handler.rs:15-88 | a call replies OK, 429 or panics (only on a taken generated id); anything but OK writes nothing; OK adds only `ip` to the keys; every other IP's counter is unchanged |
| CheckRateLimitHandler.FirstRequestCreatesCounter | src/handlers/check_rate_limit_handler.rs:69-79 | the first call from an unseen IP stores a counter of 1 at `now * 1000` ms under the generated id and admits |
| CheckRateLimitHandler.StepKeepsCountsInRange | src/handlers/check_rate_limit_handler.rs:39-48 | every call keeps each stored count between 1 and 2 |
| CheckRateLimitHandler.WindowCapsAdmissions | src/handlers/check_rate_limit_handler.rs:39-45 | while calls stay within a second of a window's start, only the requests the counter has room for are admitted |
| CheckRateLimitHandler.AtMostTwoAdmittedWithinOneSecond | src/handlers/check_rate_limit_handler.rs:37-48 | from an unseen IP, calls whose readings all lie in some [t0, t0 + 1] are admitted at most twice |
| CheckRateLimitHandler.SameSecondFromCounter | src/handlers/check_rate_limit_handler.rs:39-45 | repeated calls at the window's start reading are admitted until the count reaches 2, then all get 429 |
| CheckRateLimitHandler.SameSecondTrace | src/handlers/check_rate_limit_handler.rs:39-79 | n calls in the same second from an unseen IP reply OK, OK, 429, 429, ... |
| CheckRateLimitHandler.SecondNewIpPanicsAsWritten | src/handlers/check_rate_limit_handler.rs:70-79 | as written, after the first new IP's counter is stored with a null `_id`, the first call from any other new IP panics and creates nothing |
| CheckRateLimitHandler.TwoNewIpsAdmitted | src/handlers/check_rate_limit_handler.rs:69-87 | with the absent `_id` left out, two new IPs each get a counter and are admitted |
| CheckRateLimitHandler.RateLimiter.Check | src/handlers/check_rate_limit_handler.rs:22-87 | the in-place update does what Step specifies, and counts stay between 1 and 2 |

## Findings

| source | as written | input that shows it | evidently intended | confidence | as-written member | corrected member |
|---|---|---|---|---|---|---|
| src/handlers/check_rate_limit_handler.rs:70-79 | `RateLimitEntry.id` carries only `rename = "_id"` (src/models/rate_limit.rs:7-8), so a new counter with `id: None` is written with an `_id` of null. The driver keeps an `_id` the document already has, so the first counter is stored under `_id: null`. | Requests from two different IPs that have never been seen: the second insert is a duplicate key on `_id: null`, and the `unwrap` panics. | Every new IP gets its own counter under a generated `_id`, and its first request is admitted. The blacklist records get this with `skip_serializing_if = "Option::is_none"`. | not executed; medium (rests on the driver's and the server's `_id` handling, which are not part of this model) | CheckRateLimitHandler.SecondNewIpPanicsAsWritten | CheckRateLimitHandler.TwoNewIpsAdmitted |
| src/handlers/blacklist_handler.rs:137-143 | The edit's `$set` writes `updated_at` as `bson::DateTime::now()`, a BSON date (line 141). The record declares `updated_at: DateTime<Utc>` (src/models/blacklisted_ip.rs:16), which chrono's serde writes and reads as RFC 3339 text, so that is how add stores it. | Add an IP, edit it, then get it by id: the stored `updated_at` is now a BSON date, the typed `find_one` cannot decode it, and the get answers 500 (line 84). While the entry is still "blocked", the listing fails with 500 in the same way (lines 54-57); `BlacklistHandler.ListingFailsAfterEditAsWritten` shows this. | An edited entry reads back with the new fields, as `edit` then `get` suggests: `updated_at` written in the record's own encoding. | not executed; medium (rests on how chrono's and bson's serde implementations treat a BSON date, which are not part of this model) | BlacklistHandler.EditedEntryUnreadableAsWritten | BlacklistHandler.EditedEntryReadsBack |

`CheckRateLimitHandler.StepAsWritten` models the handler as written, and
`CheckRateLimitHandler.Step` models it with the `_id` attribute corrected. The class
`RateLimiter` and the other rate-limiter lemmas use `Step`.

`BlacklistHandler.EditSetAsWritten` is the edit's `$set` as written, and
`BlacklistHandler.EditSet` is the one that writes `updated_at` in the record's
encoding. The record-level edit `BlacklistHandler.Edited`, which the handler
specifications, the class `IpBlacklist` and the lemmas `EditThenGet` and
`EditDecidesListing` use, is what `EditSet` leaves.

## Left out

- Store failures are not modelled. In the blacklist handlers a failed `find`,
  `find_one`, `update_one` or `delete_one`, or a cursor error, gives a 500 reply. In
  the rate limiter a failed `find_one` gives 500, but a failed `update_one` panics on
  its `unwrap` (check_rate_limit_handler.rs:58-61), and so would a failing
  `to_document(...).unwrap()` (line 77). The one store failure modelled is an insert
  under an `_id` that is already stored.
- The deserialization-error path of the rate limiter
  (check_rate_limit_handler.rs:63-66) is not modelled: stored counters are typed records.
- Concurrency is not modelled. Calls are sequential, so the race between the
  rate limiter's `find_one` and its `update_one` (check_rate_limit_handler.rs:28,58)
  is not represented, and no lemma claims per-IP atomicity.
- Reply bodies are not modelled: the message strings and the JSON form of replies.
  A reply is its status and, for a get, the record.
- Time values are integers. A BSON date (in counters, and in the edit's `$set` as
  written) is its milliseconds. A chrono `DateTime<Utc>` is written as RFC 3339 text,
  and the model keeps only which instant that text spells, not the text. The wall
  clock (`SystemTime::now`, `Utc::now`, `bson::DateTime::now`) is the parameter `now`.
- BlacklistHandler.EditThenGet: holds of the edit with `updated_at` in the record's
  encoding. As written, a get after an edit answers 500 (see Findings), and the record
  store of `IpBlacklist` does not show that.
- BlacklistHandler.GetAllBlacklistIp: the record store of `IpBlacklist` does not show the
  500 the listing answers after an edit as written; only the document-level
  `BlacklistHandler.ListingFailsAfterEditAsWritten` shows it (see Findings).
- BlacklistHandler.GetAllBlacklistIp: the sort compares the instants. The store compares
  the stored RFC 3339 texts, whose order can differ from the instants' when chrono
  writes a different number of fractional digits for two times in the same second.
- Integer widths are not modelled. The model uses unbounded integers, so it does not
  capture an overflow of `now * 1000` in `i64` or of the `u64` to `i64` cast
  (check_rate_limit_handler.rs:26,48). Neither can occur for present-day readings, and
  `request_count` (`i32`) never leaves 1..2.
- ObjectId generation and the byte layout of an ObjectId are not modelled: the
  generated id is a parameter.
- MongoDB's `modified_count` is not modelled: an edit succeeds exactly when the id is
  stored, since `updated_at` is always rewritten.
- BlacklistHandler.GetAllBlacklistIp: the model keeps entries with equal `created_at`
  in insertion order. MongoDB promises no order among them, so the contract states
  only the non-increasing order.
- MaliciousHandler.GetAllBlacklistUrl: ties are kept in insertion order, as for IPs.
  The contract states only the non-increasing order.
- MaliciousHandler.GetAllBlacklistUrl: the sort compares the instants. URL records also
  store `created_at` as chrono's RFC 3339 text (src/models/malicious.rs:15), so the store
  compares texts, whose order can differ from the instants' as for IPs.
- URL matching (`is_blacklist_url`) and URL editing (`edit_blacklist_url_by_id`) are
  referenced by src/routes.rs:6-7 and src/handlers/mod.rs:9, but their code is not in
  src/handlers/malicious_handler.rs. They are not part of this model.
- Authentication, users, seeding, routing and server start-up are not part of this
  model: src/auth/mod.rs, src/middleware/jwt_auth.rs,
  src/handlers/brigatory_users_handler.rs, src/models/brigatory_users.rs,
  src/db/seed.rs, src/main.rs, src/routes.rs and the module re-exports.
- The rate limiter's console logging (`println!` at check_rate_limit_handler.rs:30,41,64,82)
  is not modelled: it changes no state and no reply.
- The panic when the system clock reads before 1970 (check_rate_limit_handler.rs:25)
  is not modelled: `now` is given.
