# Interio Junction CRM backend: a verified model

This project models the core of the CRM's Python backend in Dafny and proves what that
code promises: the Mongo-to-SQL translation layer, field encryption, the lead importer,
the audit chain, the lead pipeline, the rate limiter, the retention sweep, payment
webhooks, the estimate and payment workflows, and the login, one-time-code and
second-factor protocols.

`dafny verify dfyconfig.toml` checks everything.

## How it is laid out

| module | models |
|---|---|
| `Values`, `Filters` | scalar values, documents, the filter dialect and its meaning on documents |
| `Sql` | SQL conditions with three-valued evaluation, their token form, and a parser in which AND binds tighter than OR |
| `QueryCompiler`, `WhereEmitter` | translation of filters into SQL with positional parameters, as a specification and as the fragment-joining code over one shared parameter list |
| `PiiCrypto`, `Documents`, `Store`, `Backfill` | encryption with blind indexes, the column / overflow split, a collection with insert, update and find, the one-shot backfill |
| `Imports` | upsert import of ad leads by Meta id, then phone |
| `Audit` | hash-chained log: append and verify |
| `Pipeline`, `Journey` | stage gates, moves, closing, booking; journey log and lifecycle phase |
| `RateLimit` | sliding-window limiter with its global sweep |
| `Retention` | retention sweep and the anonymizer it calls |
| `Webhooks` | gateway callbacks, deduplication and activation |
| `Totals`, `Duties` | invoice rounding; estimate workflow, booking money, milestone payments, refunds |
| `Lockout`, `CustomerOtp`, `Mfa` | login lockout, customer codes, staff second factor |

Each component has a specification function (one step, or one call), a class or method
that carries the step out the way the source does and is proved equal to it, and lemmas
about that function, most of them over every run of steps.

Hashes, ciphers, one-time-code generators, the database's ordering and pattern matching,
and the coercion of ill-typed values are parameters. What is assumed of them is written
in predicates named `Lawful` or `WellFormedTable`: decryption undoes encryption, the
keyed index and the audit hash do not collide, the audit hash is never the genesis value
and has no line break, coercion leaves None and text alone. Clocks, random values,
the newest audit row among several of one second and the candidates a capped sweep fetches
are arguments. Where an unordered lookup by phone, Meta id, order or gateway id may find
several rows, the importer takes the last and the webhooks the first. Each request is one
atomic step.
Times are integers (reals in the limiter), money is an integer of paise or a real.

## Where the code does not keep its documentation's word

The code is modelled as it is; each point has the exact condition.

- Re-uploading a file (`backend/routers/imports.py:16-19`) can create duplicates: a row
  found by Meta id overwrites the lead's phone, after which a row keyed by the old phone
  finds nothing. `Imports.ReimportExact` counts them for every store with distinct keys and
  every file: one lead for each usable row without a key, and one for each phone so lost;
  `Imports.RewriteDuplicates` is the smallest such file. Where no row overwrites a phone,
  `Imports.ReimportIsIdempotent` says more: nothing changes but touch time and batch.
- `verify_audit_chain` reads entries by timestamps of one second. A log grown by a clock
  that never runs back is accepted in every order the query may return exactly when no two
  hashed entries share a second and the second one did not start the chain again, which is
  only in question when hashing began in the second of an older row
  (`Audit.BuiltLogVerifies`). The comment at `backend/audit.py:20-21` says the hash covers
  everything but the chain fields; the actor's e-mail and name and the user agent are
  outside it, and edits of those are exactly what goes unnoticed
  (`Audit.EditsUndetectedExact`).
- The gate into the last stage (`backend/core.py:633`) asks for half of the project's money,
  but amounts may be negative and a negative total turns the test round
  (`Pipeline.NegativeTotalOpensGate`). Half of a positive total was paid at a crossing
  exactly when the total was positive (`Pipeline.HalfPaidAtDelivery`).
- The limiter's sweep drops hits older than a day: a key's verdicts are those of the full
  history on all runs exactly when its window is at most a day
  (`RateLimit.WindowBoundExact`).
- A retention notice is given once. A lead that re-engages and falls idle again is erased
  on the old notice (`Retention.WarnedAtMostOnce`, `Retention.StaleNoticeSuffices`), and
  erasing one lead strips the personal data of all leads of its customer
  (`Retention.CascadeExact`). A lead whose customer id names nobody is marked erased and
  keeps its data (`Retention.ErasedLosesData`).
- On an encrypted column `$in` and `$ne` are answered alone, the object's other operators
  being dropped (`QueryCompiler.CipheredInExact`, `QueryCompiler.CipheredNeExact`); None
  inside `$in` never matches (`QueryCompiler.NullInListExact`). A value that already carries
  the ciphertext marker is stored as it is and indexed as it stands; it reads back, and its
  row stays searchable, exactly when it does not open to something else
  (`Documents.ReadAfterWrite`).
- The event ledger stops repeats of an id only: the same capture under a new id marks a
  refunded payment verified again (`Webhooks.NewIdReplay`).
- Nor does it order deliveries: a refund that overtakes its capture finds nothing, is recorded
  as seen, and the payment ends verified (`Webhooks.RefundOvertakes`). `Webhooks.SwapExact`
  says which pairs of deliveries may not change places.
- A refund is meant to be under dual control (`backend/routers/payments.py:95-98`), but only
  the edit to "Paid" is a confirmation. A refund had a second person behind it exactly when
  the payment is a booking or was confirmed before (`Duties.RefundControlExact`); alone, a
  recorder can bring a payment to every status but "Paid" (`Duties.RecorderAloneExact`),
  which includes refunding it (`Duties.SoloRefund`).
- Confirming is meant for a different person than who recorded the money
  (`backend/routers/payments.py:70-71`). A booking has no recorder on record but its verifier,
  whom the check does not see: the verifier may confirm it too (`Duties.MayConfirmExact`,
  `Duties.ConfirmerExact`, `Duties.BookingConfirmedAlone`). And a confirmed amount can be
  edited afterwards by its recorder alone (`Duties.PaidAmountStands`,
  `Duties.RecorderSetsAnyAmount`).
- The booking amount is said never to be trusted from the client
  (`backend/routers/booking.py:54`), yet the caller may give one; it is a tenth of the
  estimate exactly without one or when it rounds to the same figure
  (`Duties.PaymentsAreFourEyed`).
- A booking moves a lead without a journey entry: the journey is the whole history exactly
  when no booking moved the lead (`Journey.JourneyCompleteExact`,
  `Journey.BookingSkipsJourney`). Editing a lead's status directly can leave its phase stale;
  `Journey.PatchedPhaseExact` names the pairs of statuses that do not.
- An admin's override passes the gates. The tables stay sound throughout a run exactly when
  no lead without a project is put straight at the last stage
  (`Pipeline.SafeThroughoutExact`, `Pipeline.OverrideBreaksSafety`).

## Model

| member | source | states |
|---|---|---|
| Sql.ReadBackTerms | backend/database.py:163-167 | whatever condition tree is written out, at any nesting of `$or`, reading the text with AND tighter than OR gives back that very tree |
| Sql.PrintingIsUnambiguous | backend/database.py:222-228 | two conditions never share their text |
| QueryCompiler.FilterThreaded | backend/database.py:138-141 | from any parameter list, earlier parameters stay a prefix and the condition uses exactly the placeholders of the appended ones, once each, in order |
| QueryCompiler.FilterMeaning | backend/database.py:161-228 | on any row storing a document and under any later extension of the parameters, the condition is TRUE in three-valued logic exactly when the filter matches the document, encrypted columns included |
| QueryCompiler.WhereSelectsMatches | backend/database.py:231-234 | the clause as text, parsed by the database, keeps exactly the rows whose documents match, also when the clause is left out |
| QueryCompiler.SearchSelects | backend/routers/leads.py:39-46 | the search over several fields, as text and parsed, keeps exactly the rows in which some field matches the term, whatever its case |
| QueryCompiler.CustomersAreWellFormed | backend/pg_schema.py:535-547 | the customers table as declared meets everything the theorems ask of a table, its index columns being the two declared ones |
| QueryCompiler.CaseFollowsOptions | backend/database.py:208-211 | in the condition of any operator object, every pattern match ignores case exactly when an `$options` of the object, wherever it stands, holds an i |
| Filters.RegexMeans | backend/routers/leads.py:41-43 | a document matches an object with a `$regex` exactly when its value matches the pattern, without case exactly when some `$options` asks so, and every other operator holds |
| Filters.CompareMeans | backend/database.py:200-207 | on a total order the four comparisons are at least, at most, above and below |
| QueryCompiler.WrittenIsFound | backend/database.py:216-219 | a plaintext column written with any value, however ill-typed, is found by a query for that same value, both being coerced |
| QueryCompiler.NullInListExact | backend/database.py:175-197 | encrypted column or not, SQL and the dialect agree on a row for a lone `$in` exactly unless the field is missing and None is listed, or an encrypted value that is not listed equals the text of a listed number or flag |
| QueryCompiler.CipheredInSelects | backend/database.py:175-178 | an encrypted `$in`, of any list, selects exactly the rows whose plaintext some item other than None is looked up by, whatever other operators the object has |
| QueryCompiler.CipheredInExact | backend/database.py:175-178 | such an object keeps its meaning on every row exactly when it matches each listed item as text and, if None is listed, refuses a missing field |
| QueryCompiler.CipheredNeExact | backend/database.py:179-180 | an encrypted `$ne` object keeps its meaning on every row exactly when the text it is looked up by is among its `$ne`s and its other operators are inert |
| WhereEmitter.ParamList.Append | backend/database.py:138-141 | the value goes at the end and the result is its placeholder number |
| WhereEmitter.StoredCondition | backend/database.py:184-219 | the joined fragments are the text of the specified condition, and the shared list grows by the specified parameters |
| WhereEmitter.FieldCondition | backend/database.py:169-182 | the same with the rewrite to the blind index |
| WhereEmitter.OrTexts | backend/database.py:163-167 | the bracketed sub-filters, OR-joined, are the text of the specified alternatives |
| WhereEmitter.Condition | backend/database.py:161-219 | one clause's text and parameters are the specified ones |
| WhereEmitter.BuildWhereInline | backend/database.py:222-228 | the AND-joined body is the text of the specified condition |
| WhereEmitter.BuildWhere | backend/database.py:231-234 | the full clause is the specified one, absent when its body is TRUE |
| PiiCrypto.EncryptRoundTrip | backend/pii_crypto.py:65-87 | decrypting an encrypted value returns it exactly unless the value is itself marked and opens to something else |
| PiiCrypto.EncryptUsesNonce | backend/pii_crypto.py:70-72 | a ciphertext is the marker and the cipher under the drawn nonce, so two nonces whose ciphers differ give different ciphertexts |
| Documents.EncryptedDictEffect | backend/database.py:65-80 | encryption changes exactly the encrypted columns present and their indexes, for every typed document |
| Documents.WrittenCiphertext | backend/database.py:65-80 | personal data written to a row lies there as the marker and one encryption under the nonce of its column, its index as the keyed hash of the plaintext |
| Documents.UpdateSetEffect | backend/database.py:271-280 | the SET list, under any later extension of the shared parameters, lays declared columns over the row and merges the overflow object |
| Documents.RowStores | backend/database.py:321-341 | a sound row stores the document it is read back as |
| Documents.WrittenStaysSound | backend/database.py:65-80 | a typed write keeps "index null iff column null, else index of the plaintext" and overflow keys undeclared, exactly when no value passes for a ciphertext of something else |
| Documents.ReadAfterWrite | backend/database.py:321-341 | under exactly that condition a row written over reads back as the old document overlaid by the set document: declared None dropped, undeclared keys kept |
| Store.InsertedRowReads | backend/database.py:254-268 | an inserted document reads back, less declared keys set to None |
| Store.HistoryRefines | backend/database.py:542-563 | after any history of inserts and updates the table reads as the same history carried out on plain documents |
| Store.QueryReturnsMatches | backend/database.py:463-466 | a query returns the matching documents, in table order |
| Store.InsertedIsFound | backend/database.py:542-546 | a document of texts, once inserted, is found by its personal data: the query answers what it did before and then that document |
| Store.NothingInPlaintext | backend/pii_crypto.py:65-72 | with a key, after any history no encrypted column holds anything but None and marked ciphertext |
| Store.EncryptionTransparent | backend/database.py:169-182 | an encrypted and a plaintext table with the same history answer every supported query alike, whatever nonces were drawn |
| Store.EncryptDoc | backend/database.py:65-80 | the loop over encrypted columns computes the specified dictionary |
| Store.SplitDoc | backend/database.py:240-251 | declared and overflow parts, order kept, `_id` dropped |
| Store.BuildUpdateSet | backend/database.py:271-280 | the SET list and the parameters appended to the shared list are the specified ones |
| Store.BuildInsert | backend/database.py:254-268 | the INSERT list and its parameters are the specified ones |
| Store.ReadRow | backend/database.py:321-341 | the column loop and overflow merge give the specified document |
| Store.Collection.InsertOne | backend/database.py:542-546 | appends one document that reads back as given; refuses one with nothing to store |
| Store.Collection.UpdateOne | backend/database.py:548-563 | every matching document is overlaid, the others untouched, and the count is the number of matches; an empty SET changes nothing |
| Store.Collection.Find | backend/database.py:463-466 | exactly the matching documents in table order |
| Backfill.BackfillEstablishes | backend/migrate_pii.py:37-52 | every row becomes searchable exactly when the cells that hold no unmarked text were consistent to begin with |
| Backfill.BackfillKeepsDocument | backend/migrate_pii.py:37-52 | callers see the same document before and after |
| Backfill.BackfillsLegacy | backend/migrate_pii.py:39-46 | on every encrypted column, an unmarked text becomes the marker and its encryption, decrypts to itself and is indexed by its keyed hash; every other cell and its index stay |
| Backfill.BackfillIdempotent | backend/migrate_pii.py:5-7 | a second backfill changes nothing at all |
| Backfill.Customers.Run | backend/migrate_pii.py:25-55 | rewrites each row as specified, returns the number of rows that held an unmarked text in an encrypted column, does nothing without a key |
| Imports.Crm.ImportLeads | backend/routers/imports.py:69-110 | the row loop leaves the specified table; skipped is the number of rows unusable or repeating an earlier Meta id; no lead is lost and sales progress is untouched |
| Imports.ActingRows | backend/routers/imports.py:73-81 | of the rows, exactly the first usable one of each Meta id and every usable one without an id act |
| Imports.RowEffect | backend/routers/imports.py:83-107 | one row refreshes the lead it resolves to, keeping non-empty values where the row has none, an old Meta id and the sales progress, or else adds one lead; every other lead stays |
| Imports.StampsTell | backend/routers/imports.py:90-98 | after any part of any file exactly the leads that were the target of an acting row carry its batch and touch time, and the others are as they were |
| Imports.FirstPass | backend/routers/imports.py:83-87 | on a store with distinct keys and no phone overwrite: keys stay distinct, stored phones never change, and every handled row stays resolvable to its lead |
| Imports.FirstPassTable | backend/routers/imports.py:69-110 | after any part of any file: a phone is in the table exactly when the store had it or a row carried it, unless a later Meta match overwrote the only lead that held it |
| Imports.ReimportIsIdempotent | backend/routers/imports.py:15-20 | on any store with distinct keys and no phone overwrite, a second upload sends every findable row to the same lead, changes no lead but for touch time and batch, and creates one lead per usable row without a key; so none exactly when each has one |
| Imports.ReimportExact | backend/routers/imports.py:16-19 | for every store with distinct keys and every file, the second upload creates one lead per usable row without a key and one per overwritten phone that another row looks for, so it duplicates exactly when some stored lead loses its phone; sales progress is untouched |
| Audit.EntryHashInjective | backend/audit.py:26-30 | an entry hash fixes both the previous hash and the content |
| Audit.FirstLink | backend/audit.py:13 | the first entry of a sound chain points at sixty-four zeros |
| Audit.VerifyAuditChain | backend/audit.py:144-158 | intact exactly for a sound chain, else the first broken entry |
| Audit.TamperEvident | backend/audit.py:149-157 | two accepted logs with the same last hash have the same length and the same hashed content |
| Audit.EditsUndetectedExact | backend/audit.py:20-30 | another log is accepted with the same last hash exactly when it differs from the accepted one in unhashed fields only |
| Audit.ChainLimits | backend/audit.py:20-30 | prefixes, and logs differing only in unhashed fields, are accepted too |
| Audit.AuditLog.LogAudit | backend/audit.py:112-139 | appends one entry chained to whichever newest row the query returned |
| Audit.BuiltIsChained | backend/audit.py:135-139 | logging with strictly increasing timestamps over an unhashed prefix builds a sound chain |
| Audit.AcceptedInEveryOrder | backend/audit.py:149 | a time-ordered log is accepted in every order of ties exactly when it is sound and no two entries share a second |
| Audit.BuiltLogVerifies | backend/audit.py:16-17 | a log built over unhashed rows verifies in every read order exactly when no two hashed entries share a second and the second one follows the first, as it does unless hashing began in the second of an older row |
| Pipeline.GroupingConserves | backend/core.py:626-632 | grouped sums add up to the total, and each group to its rows |
| Pipeline.HalfPaidMeans | backend/core.py:633 | the payment gate is twice the paid sum at least a positive total, or at most a negative one |
| Pipeline.RunsAreSafe | backend/routers/leads.py:272-300 | in every run without overrides each project is signed off, stage 4 and beyond has its own project, stage 9 has gone to the factory |
| Pipeline.SafeThroughoutExact | backend/routers/leads.py:253-300 | over every run, overrides included, the tables are safe at every point exactly when no move takes a lead without a project straight to stage 9 |
| Pipeline.GateWasHonoured | backend/core.py:599-635 | a lead at or beyond stage 6, 7 or 9 crossed into it at an earlier step while that gate's condition held |
| Pipeline.BookedBeforeDesign | backend/core.py:607-609 | before any such crossing the lead had stood at stage 4 or 5 |
| Pipeline.HalfPaidAtDelivery | backend/core.py:624-635 | at every crossing into stage 9, at least half of a positive total was paid exactly when the total was positive, as with non-negative amounts it is |
| Pipeline.DeliveryWasHalfPaid | backend/core.py:624-635 | in every run without overrides and negative amounts, a lead at stage 9 crossed into it with at least half of a positive total paid |
| Pipeline.CloseOpenEntry | backend/core.py:556-563 | the backward scan stamps the last open entry and nothing else |
| Pipeline.Crm.EvaluateGate | backend/core.py:599-635 | allowed exactly when the specified gates are open |
| Pipeline.MoveAllowedExact | backend/routers/leads.py:242-255 | a lead may move to any other stage exactly by an override or when every gate its move crosses has its condition met: a measurement, an approved revision, half of the money |
| Pipeline.MoveFrame | backend/routers/leads.py:257-312 | an allowed move appends its history row, opens a project exactly from stage 4 on for a lead without one, signs off and hands over exactly at the crossings of 4 and 9, and leaves every other lead and project as they were |
| Pipeline.SentExact | backend/routers/leads.py:298-300 | after any run a project has gone to the factory exactly when an earlier move took its lead across stage 9 |
| Pipeline.CloseExact | backend/routers/leads.py:155-208 | a close sets status and phase, ends the journey exactly for Won and Lost, signs off exactly the lead's project on Won with a value, and is refused exactly for an unknown lead or status or a Lost without reason |
| Pipeline.BookExact | backend/routers/booking.py:50-114 | a booking is refused exactly without lead or accepted estimate or for a second time; else one verified payment is added, the lead is brought up to stage 4 and its one project is signed off |
| Pipeline.PhasesMean | backend/core.py:516-532 | which stages and statuses stand for each of the five phases |
| Pipeline.Crm.Move | backend/routers/leads.py:240-312 | leads, projects and history after a move are the specified ones; refused exactly when not allowed |
| Pipeline.Crm.Close | backend/routers/leads.py:155-208 | status, phase, journey and sign-off after a close are the specified ones |
| Pipeline.Crm.Book | backend/routers/booking.py:50-114 | payment, project, lead and history after a booking are the specified ones |
| Journey.JourneyRefinesHistory | backend/core.py:545-553 | over every run: journey stages are 1 then the move targets, at most the last entry open, times ordered, furthest stage the highest reached, delivery stamped exactly at stage 9 |
| Journey.CloseEndsJourney | backend/core.py:556-563 | winning or losing a lead leaves no entry open and adds none |
| Journey.JourneyCompleteExact | backend/routers/booking.py:74-114 | in every run a lead's journey is 1 and then all its history targets exactly when no booking moved it |
| Journey.PhaseStaysDerived | backend/core.py:516-532 | the phase is the derived one in every run in which nobody edits the status directly |
| Journey.PatchedPhaseExact | backend/routers/leads.py:147-149 | wherever in a run the phase is right, a direct edit keeps it right exactly between equal statuses, free-text ones, Active and free text before stage 9, Active and Won from it |
| RateLimit.AdmitsByHistory | backend/ratelimit.py:95-110 | admitted exactly when fewer than `limit` admissions of the key lie in the window ending now |
| RateLimit.NeverTooMany | backend/ratelimit.py:84-86 | no closed interval as long as the window holds more than `limit` admissions |
| RateLimit.RetryAfterSuffices | backend/ratelimit.py:104-109 | waiting the returned seconds with no admission in between guarantees admission |
| RateLimit.RetryAfterIsNeeded | backend/ratelimit.py:104-109 | waiting any smaller positive number of seconds is refused again, so the header is the least that suffices |
| RateLimit.SweepExact | backend/ratelimit.py:68-80 | no sweep changes anything within 300 seconds of the last; else exactly the keys with a hit of the last day stay, with exactly those hits |
| RateLimit.WindowBoundExact | backend/ratelimit.py:76-78 | for every limit, a key's verdicts are the history's on all runs exactly when its window is at most a day |
| RateLimit.RateLimiter.Sweep | backend/ratelimit.py:68-80 | trims every deque and drops empty keys, at most every 300 seconds |
| RateLimit.RateLimiter.Check | backend/ratelimit.py:90-110 | state and verdict are the specified ones |
| Retention.Engine.AnonymizeCustomer | backend/routers/privacy.py:35-58 | redacts the customer and exactly its leads; nothing when there is no such customer |
| Retention.Engine.RunSweep | backend/retention.py:85-151 | every lead and customer ends as specified, a dry run changes nothing, and the counters count the decisions |
| Retention.ActsExactly | backend/retention.py:106-138 | a sweep warns, and erases, exactly the fetched leads for which the stated dates have passed and neither they nor their customer have a project |
| Retention.CountsAreCardinalities | backend/retention.py:103-144 | the counters are the numbers of leads warned and erased |
| Retention.ReviewIsCardinality | backend/retention.py:146-151 | the review count is the number of unerased leads delivered before the project window |
| Retention.FetchExists | backend/retention.py:105-109 | for every table there is a fetch that takes every candidate once |
| Retention.ErasureWasJustified | backend/retention.py:107-138 | in every run an erased lead had no project, nor its customer, was idle past the window, and an earlier sweep had warned it longer ago than the notice period |
| Retention.WarnedAtMostOnce | backend/retention.py:119-128 | no two sweeps warn the same lead |
| Retention.StaleNoticeSuffices | backend/retention.py:107-138 | in every run, a sweep after a lead's warning erases it exactly when it fetched it, nothing protects it, it is idle past the window and the old notice has aged; after re-engagement the age of the notice no longer matters, and it is never warned again |
| Retention.SecondSweepExact | backend/retention.py:17-19 | a second sweep at the same instant changes nothing, exactly unless the notice period is negative and a lead just warned is past the window |
| Retention.DryRunReviewExact | backend/retention.py:140-145 | a dry run's review count exceeds the real one by exactly the erased leads that were due |
| Retention.CascadeExact | backend/routers/privacy.py:53-57 | a lead loses its personal data exactly when it is erased and names no customer, or some lead of the same existing customer is erased |
| Retention.ErasedLosesData | backend/retention.py:130-145 | a lead the sweep erases loses its personal data exactly unless its customer id names no customer |
| Webhooks.ExactlyOnce | backend/routers/webhooks.py:103-120 | from any state, any delivery sequence leaves payments, leads, projects and history as first occurrences alone would |
| Webhooks.MismatchesAreInert | backend/routers/webhooks.py:134-138 | over any deliveries in which an id determines its event, captures with a mismatched amount might as well never have arrived |
| Webhooks.ActivatedAtMostOnce | backend/routers/webhooks.py:65-77 | in any run of deliveries a lead is activated at most once, only from before Booking |
| Webhooks.VerifiedMeansActivated | backend/routers/webhooks.py:123-147 | over any run of deliveries, a payment that became and ends verified was verified by a capture naming its order and amount, and its project ends signed off and paid and its lead at Booking or beyond |
| Webhooks.NewIdReplay | backend/routers/webhooks.py:132-133 | a matching capture under a new id is harmless exactly while the payment is still verified |
| Webhooks.SwapExact | backend/routers/webhooks.py:123-162 | two unseen deliveries of one second may change places without changing the payments exactly unless they are captures of one payment under different ids, refunds of one payment for different amounts, or a capture and a refund that reaches its payment in one order only |
| Webhooks.RefundOvertakes | backend/routers/webhooks.py:150-162 | a refund delivered before the capture that gives the payment its gateway id is lost for good: the payment ends verified |
| Webhooks.Endpoint.FinalizeActivation | backend/routers/webhooks.py:47-77 | the shared tail is the specified one |
| Webhooks.Endpoint.HandleCapture | backend/routers/webhooks.py:123-147 | state and outcome are the specified ones |
| Webhooks.Endpoint.HandleRefund | backend/routers/webhooks.py:150-162 | state after a refund event is the specified one |
| Webhooks.Endpoint.Receive | backend/routers/webhooks.py:103-120 | seen ids are no-ops; a rejected event is not recorded and changes nothing |
| Webhooks.CaptureActivates | backend/routers/webhooks.py:123-147 | a matching capture marks its payment, signs off and pays exactly its project, and brings up to Booking exactly its lead: the named one, else the first with the payment's project |
| Webhooks.OwnerExact | backend/routers/webhooks.py:51-56 | the lead looked up for a payment is the named one, else the first of the payment's project, and None means there is none |
| Webhooks.MatchMeans | backend/routers/webhooks.py:134-138 | but for a recorded amount of -1 paise, a capture matches exactly when an amount is recorded and it is the captured one |
| Webhooks.RefundMarks | backend/routers/webhooks.py:150-162 | a refund marks exactly the first payment with that gateway id, with the refunded sum |
| Webhooks.LedgerExact | backend/routers/webhooks.py:103-120 | an id is recorded exactly when its event was not rejected, and a recorded one does nothing |
| Totals.ComputeTotals | backend/routers/estimates.py:58-63 | subtotal, discount, tax and total are the specified roundings |
| Totals.TotalsMean | backend/routers/estimates.py:58-63 | subtotal, discount and total are the nearest hundredths of the sum of products, of the discount and of net and tax; the tax is the nearest hundredth of its percentage of the net |
| Totals.HalvesToEven | backend/routers/estimates.py:59-62 | halves of a hundredth go to the even one |
| Totals.SubtotalDrift | backend/routers/estimates.py:138-147 | the stored subtotal is within (n + 1) / 2 hundredths of the sum of the n stored amounts |
| Totals.TotalDrift | backend/routers/estimates.py:58-63 | the total is within one hundredth of the taxed net and of what the stored lines say, and not negative for tax of at least -100% |
| Duties.AcceptedPassedAll | backend/routers/estimates.py:157-214 | an accepted estimate was submitted, approved by somebody other than its creator, shared and accepted, in that order |
| Duties.VersionsDistinct | backend/routers/estimates.py:117-119 | versions of one lead's estimates are distinct |
| Duties.PaymentsAreFourEyed | backend/routers/booking.py:50-72 | in every run a milestone at "Paid" has a confirmer and it is not the recorder; a booking was verified by somebody other than the creator of the newest accepted estimate, for the caller's amount or else a tenth of its total; no lead has two |
| Duties.ConfirmerExact | backend/routers/payments.py:69-82 | in every run the confirmer is whoever took the last confirming step, and differs from the recorder on every milestone and, on a booking, exactly unless its verifier took that step |
| Duties.MayConfirmExact | backend/routers/payments.py:69-79 | after any run, everybody but the recorder may confirm a milestone, and everybody, the recorder included, a booking |
| Duties.RefundControlExact | backend/routers/payments.py:92-116 | in every run a refunded payment was refunded by a step that paid back the rounded sum it asked for, or all when it asked for none, at most what was recorded; a second person was behind it exactly when it is a booking or an earlier step confirmed it |
| Duties.RefundedAtMostOnce | backend/routers/payments.py:102-105 | a payment is refunded at most once per run, whatever its status is edited to |
| Duties.RecorderAloneExact | backend/routers/payments.py:69-79 | after any run and by any further requests of its own, a recorder can bring an unconfirmed payment to exactly the statuses other than "Paid" |
| Duties.PaidAmountStands | backend/routers/payments.py:62-84 | in every run a milestone at "Paid" carries the amount its last confirmation left it at, unless a later update set another |
| Duties.RecorderSetsAnyAmount | backend/routers/payments.py:62-84 | after any run the recorder alone can give a payment any amount, its status and confirmer untouched |
| Duties.Desk.NewEstimate | backend/routers/estimates.py:113-137 | the new draft has the next version and the computed total |
| Duties.CreationExact | backend/routers/estimates.py:113-137 | an estimate without items is refused; else one draft is added by its creator, its version one above the highest of the lead's |
| Duties.WorkflowExact | backend/routers/estimates.py:157-214 | the state of an estimate changes exactly along the six allowed transitions, approval only by another than its creator, and nothing else of it changes |
| Duties.Desk.Transition | backend/routers/estimates.py:157-168 | only from the allowed states, and nothing else changes |
| Duties.Desk.ApproveEstimate | backend/routers/estimates.py:177-187 | refused for the creator, else the approver is recorded |
| Duties.Desk.RecordBooking | backend/routers/booking.py:50-72 | refused for a second booking, without an accepted estimate, or for its creator |
| Duties.BookingExact | backend/routers/booking.py:50-72 | a booking is refused exactly for a second one, without an accepted estimate, or for the creator of a newest one; else the verified payment has the caller's amount or a tenth of that estimate |
| Duties.Desk.UpdatePayment | backend/routers/payments.py:62-84 | the edit is applied, confirmation needing permission and a second person |
| Duties.UpdateExact | backend/routers/payments.py:62-84 | an edit sets exactly the given fields of exactly that payment and a confirmer exactly on entering "Paid", refused exactly there without permission or for the recorder |
| Duties.MilestoneExact | backend/routers/payments.py:43-58 | a milestone starts pending, recorded by its creator and confirmed by nobody |
| Duties.Desk.RefundPayment | backend/routers/payments.py:92-116 | the refund is applied exactly when allowed |
| Duties.RefundExact | backend/routers/payments.py:92-116 | a refund pays back the rounded sum asked for, or all that is recorded when none is; a sum of nothing or of more than is recorded, a second refund or one by the person behind the payment changes nothing |
| Lockout.StreakTakesTime | backend/routers/auth.py:68-75 | n consecutive recorded failures take at least the locked minutes between the fifth and the last |
| Lockout.LockedMinutesClosedForm | backend/routers/auth.py:60-75 | those minutes are 2^(n-5) - 1 up to the eleventh failure and 63 + 60 (n - 11) after |
| Lockout.User.RegisterLoginFailure | backend/routers/auth.py:68-75 | counter and lock after a failure are the specified ones |
| Lockout.User.TryLogin | backend/routers/auth.py:84-101 | locked attempts are not counted, failures are, a success clears both |
| Lockout.LoginExact | backend/routers/auth.py:84-101 | after any run, a correct password logs in exactly when no lock is running, and then count and lock are cleared |
| Lockout.LocksRunOut | backend/routers/auth.py:68-101 | after a streak of failures an attempt is locked out exactly when there are five and the last is less than its locked minutes ago; from that instant a correct password logs in |
| Lockout.LockLasts | backend/routers/auth.py:71-73 | the fifth to the tenth failure lock for 1, 2, 4, 8, 16 and 32 minutes, every later one for 60 |
| CustomerOtp.FetchIsEnough | backend/routers/client.py:211-220 | the 50-row fetch never hides a code that counts toward the cap |
| CustomerOtp.IssueLimits | backend/routers/client.py:211-233 | per phone, codes go out at least 60 seconds apart and at most 10 in any 24 hours |
| CustomerOtp.SingleUse | backend/routers/client.py:296-315 | each code opens at most one session and answers at most five wrong guesses |
| CustomerOtp.OpensExactly | backend/routers/client.py:291-315 | a session opens exactly for the newest, unexpired, unused code of a registered phone |
| CustomerOtp.IssuesExactly | backend/routers/client.py:204-236 | in every run a request issues a code exactly for a registered phone, 60 seconds after the last code and below ten in a day, and then it is the newest row; else nothing changes |
| CustomerOtp.GuessExact | backend/routers/client.py:291-316 | a wrong guess in time is counted and the fifth uses the code up; a right or a late one uses it up at once; used codes and older rows never change |
| CustomerOtp.CustomerLogin.RequestOtp | backend/routers/client.py:196-236 | table and outcome are the specified ones |
| CustomerOtp.CustomerLogin.VerifyOtp | backend/routers/client.py:275-316 | table and outcome are the specified ones |
| Mfa.TruncateIsWellFormed | backend/totp.py:30-36 | a truncated digest is always six digits and stands for the 31-bit number modulo a million |
| Mfa.VerifyCode | backend/totp.py:43-55 | the earliest matching step within the window, None for anything but six digits |
| Mfa.StepsIncrease | backend/routers/mfa.py:49-54 | the steps accepted within one enrolment strictly increase, from the activating one |
| Mfa.AcceptedStepIsCurrent | backend/totp.py:51-54 | an accepted step is within one of the current one and its code is the one given |
| Mfa.BackupsAreSingleUse | backend/routers/mfa.py:55-59 | each backup entry works at most once per enrolment |
| Mfa.PresentExact | backend/routers/mfa.py:44-60 | after any run a code is accepted exactly as the earliest step of the window that shows it when later than the last, else as the first unused backup it opens, which is then used |
| Mfa.EnrolmentExact | backend/routers/mfa.py:89-161 | after any run enrolment starts exactly with a code of the current window and ends exactly with an accepted factor; a pending secret can be replaced only before, and no factor is accepted before |
| Mfa.Account.CheckFactor | backend/routers/mfa.py:44-60 | state and outcome are the specified ones |
| Mfa.Account.ActivateMfa | backend/routers/mfa.py:89-107 | state and outcome are the specified ones |
| Mfa.Account.DisableMfa | backend/routers/mfa.py:148-161 | only after a valid factor, and then everything is cleared |

## Left out

- The HTTP layer, sessions, tokens, permissions, push, mail and object storage; a request is taken after authentication, permission and step-up checks, save where the check is the point.
- Both web applications, the diagram generator, seed data, scoring, analytics, chat, checklists, fixtures and worklists.
- Races between concurrent requests inside one endpoint.
- Coercion of ill-typed values, regular-expression matching and JSON encoding themselves; non-string values in the overflow object of rows that are queried; equality with a whole JSON object; range and pattern operators on encrypted columns.
- Ordering comparisons with None; the translated condition is never true, and the dialect gives them no agreed meaning.
- Sorting, skipping, limits and projection of cursors, deletion, DDL, uniqueness constraints, and the insert half of an upsert.
- The text of an aggregate query: its WHERE is the translated filter, and the conservation of its grouped sums is `Pipeline.GroupingConserves`.
- Binary floating point: money, amounts and rates are reals or integers; ISO timestamps are numbers.
- Pipeline runs leave out webhook activation, contract values, drop-off reasons and who acts; `Webhooks` treats activation and `Duties` the people by themselves.
- The retention sweep's marks are stamped with the same instant the sweep computes its cut-offs from; the lookup of a customer's leads is not cut at a thousand rows; bumping a token version is not modelled.
- The demo login, the customer's own check that an estimate is theirs, and resets of a limiter by an operator.
