# nomikai-app expense service — a Dafny model

This project models the core of the nomikai-app backend: an HTTP function app
that records drinking-party ("nomikai") events, one row per participant, splits
the amount evenly among them, and later searches the rows and updates their
payment flags. Everything lives in one C# file, `backend/FunctionbeerAPI/Function1.cs`.
Under the HTTP, JSON and SQL plumbing it has five pieces of logic. Each is
modelled as a pure function, or a loop-carrying method, over an in-memory
`Nomikai` table:

| file | module | what it models |
|---|---|---|
| `nullable.dfy` | `Nullable` | `Option` (C# `null`) and `Result` |
| `text.dfy` | `Text` | .NET `String.Trim`, `String.Split` with and without `RemoveEmptyEntries`, `String.IsNullOrEmpty`, substring containment |
| `config.dfy` | `Config` | `GetConnectionStringAsync`: the environment first, then the Key Vault, else an error |
| `schema.dfy` | `Schema` | the `Nomikai` row, the table with its identity counter, the `COUNT(*)` existence check, the response shapes |
| `calculation.dfy` | `Calculation` | `Calculate`: the participant-count check, the share, the id check, `UPDATE … SET amount` |
| `registration.dfy` | `Registration` | `SaveNomikaiEvent`: the amount check, the split on "、", the share, one `INSERT` per piece |
| `search.dfy` | `Search` | `SearchNomikaiEvent`: the filter check, the query and parameter builder, and what the query selects |
| `payments.dfy` | `Payments` | `UpdatePaymentFlags`: the batch check and the loop of `UPDATE … SET payment_flag` statements |
| `scenarios.dfy` | `Scenarios` | concrete requests and their proved outcomes |

The table is `Table(rows, nextId)`. `nextId` stands in for the identity column
that assigns `id` on insert: the model hands out `nextId, nextId + 1, …`. `Valid` says `id` is a key: the ids are pairwise distinct and
below `nextId`. Every handler takes the result of connection-string resolution
as a parameter (`conn`). It returns an `Outcome`, which pairs the HTTP-level
`Response` with the table after the call. A `Response` is one of:
`Ok(body)`, `BadRequest(message)`, `InternalServerError`, or
`Unhandled(fault)` for an exception raised outside the handler's `try`. The
response messages are the source's own strings.

Four behaviours of the code are worth spelling out, because a reader of the
handlers might expect otherwise:

- **Participant split.** The comment at line 232 says the list is split on the
  comma and each participant trimmed. The code removes empty pieces first and
  trims afterwards. A blank piece such as the middle of "A、 、B" is therefore
  kept. It becomes a participant with an empty name and takes a share
  (`Scenarios.SaveKeepsBlankParticipant`).
- **Connection-string failure.** Resolution runs inside each handler's `try`.
  A failure is therefore caught. It becomes a 500 in `Calculate`, the search
  and the flag update. In `SaveNomikaiEvent` it becomes a 400 carrying the
  exception message.
- **Zero pieces.** A participant list that yields no piece divides by zero at
  line 236, outside the `try`. The model answers `Unhandled(DivideByZero)`; no
  guard is invented. A `null` participant list is `Unhandled(NullReference)`.
- **Calculate's update.** `Calculate` updates every row whose `id` equals
  `EventID`, which is a row id and not an event id. On a valid table that is
  at most one row (`Calculation.CalculateChangesOneRow`).

## Model

| member | source | states |
|---|---|---|
| Config.ResolveConnectionString | backend/FunctionbeerAPI/Function1.cs:23-51 | a non-empty environment value is returned whatever the vault would answer; with neither an environment value nor a vault URI resolution fails with NotConfigured, and only then; otherwise the result is the vault's secret or its failure wrapped |
| Schema.CountId | backend/FunctionbeerAPI/Function1.cs:87-92 | the `COUNT(*)` of rows with the id is zero exactly when no row has that id |
| Schema.CountIdAtMostOne | backend/FunctionbeerAPI/Function1.cs:87-91 | on a table whose ids form a key the count is at most one |
| Calculation.SetAmount | backend/FunctionbeerAPI/Function1.cs:99-105 | rows with the id get the new amount; every other row and every other field is unchanged; the length is kept |
| Calculation.Calculate | backend/FunctionbeerAPI/Function1.cs:63-122 | a count <= 0 is a 400 with the table unchanged; a connection failure is a 500 with the table unchanged; an unknown id is a 400 with the table unchanged; success happens exactly when all checks pass; the body echoes total and count, and share × count = total (exactly, as reals); only rows with the id change, and only in `amount` |
| Calculation.CalculateChangesOneRow | backend/FunctionbeerAPI/Function1.cs:86-105 | on a valid table ids stay a key and at most one row changes |
| Calculation.CalculateIdempotent | backend/FunctionbeerAPI/Function1.cs:77-105 | running the same request again leaves the table as the first run left it |
| Text.LeadingWhiteSpace | backend/FunctionbeerAPI/Function1.cs:247 | counts exactly the leading white space: all counted characters are white space and the next one is not |
| Text.TrailingWhiteSpace | backend/FunctionbeerAPI/Function1.cs:247 | finds exactly where the trailing white space starts |
| Text.Trim | backend/FunctionbeerAPI/Function1.cs:247 | the result is no longer than the input and neither starts nor ends with white space |
| Text.TrimKeepsMiddle | backend/FunctionbeerAPI/Function1.cs:247 | the trimmed string is a contiguous slice of the input, with only white space before and after it |
| Text.TrimEmptyIffWhiteSpace | backend/FunctionbeerAPI/Function1.cs:247 | a string trims to "" exactly when it is all white space |
| Text.TrimFixed | backend/FunctionbeerAPI/Function1.cs:247 | a string with no white space at either end is unchanged by trimming |
| Text.TrimIdempotent | backend/FunctionbeerAPI/Function1.cs:247 | trimming twice is trimming once |
| Text.SplitAll | backend/FunctionbeerAPI/Function1.cs:233 | at least one piece; no piece contains the separator; joining the pieces with the separator gives the input back |
| Text.SplitAllUnique | backend/FunctionbeerAPI/Function1.cs:233 | any separator-free pieces that join to the input are exactly the split, so the split is the maximal stretches between separators, in order |
| Text.RemoveEmpty | backend/FunctionbeerAPI/Function1.cs:233 | every result is non-empty and from the input; every non-empty input piece is kept, as many times as it occurs |
| Text.RemoveEmptyAppend | backend/FunctionbeerAPI/Function1.cs:233 | removing empty pieces works piece by piece, so it keeps the input order |
| Text.JoinAppend | backend/FunctionbeerAPI/Function1.cs:233 | joining two non-empty lists of pieces puts exactly one separator between them |
| Text.SplitAllAppend | backend/FunctionbeerAPI/Function1.cs:233 | splitting at one separator splits the two sides independently |
| Text.SplitAllNoSeparator | backend/FunctionbeerAPI/Function1.cs:233 | a string without a separator is one piece |
| Text.SplitNonEmpty | backend/FunctionbeerAPI/Function1.cs:233 | no piece is empty and no piece contains the separator; each non-empty stretch between separators occurs as often as in the plain split |
| Text.SplitNonEmptyAppend | backend/FunctionbeerAPI/Function1.cs:233 | the pieces of `a、b` are the pieces of `a` followed by the pieces of `b`, so order is the input order |
| Text.SplitNonEmptyNoSeparator | backend/FunctionbeerAPI/Function1.cs:233 | a string without a separator is one piece, or none when it is empty; with the previous row this fixes the split completely |
| Text.SplitNonEmptyKeepsCharacters | backend/FunctionbeerAPI/Function1.cs:233 | the pieces glued together are the input's characters other than the separator, so no character is lost and white space is not removed |
| Text.NoPiecesIffOnlySeparators | backend/FunctionbeerAPI/Function1.cs:233-236 | the split has no pieces exactly when the input is separators only (including ""), which is the case that divides by zero |
| Registration.TrimAll | backend/FunctionbeerAPI/Function1.cs:245-247 | one name per piece, each the trimmed piece, in order |
| Registration.NewRows | backend/FunctionbeerAPI/Function1.cs:245-258 | one row per name in order, with ids handed out by the modelled identity counter, the request's date, event name and flag, and the share |
| Registration.SaveNomikaiEvent | backend/FunctionbeerAPI/Function1.cs:216-274 | amount <= 0 is a 400 before anything else; a null list is a NullReference fault; no pieces is a DivideByZero fault; a connection failure is a 400 with the exception message; all of these leave the table unchanged; success exactly when all checks pass; on success the old rows are kept as a prefix, followed by one row per piece in piece order, each with the next id from the modelled identity counter, the trimmed piece as its name, the request's date, event name and flag, and amount / count as its share; the new shares add up to the amount |
| Registration.InsertKeepsIdsUnique | backend/FunctionbeerAPI/Function1.cs:249-257 | inserting rows with ids from the identity counter keeps the ids a key |
| Registration.SaveKeepsIdsUnique | backend/FunctionbeerAPI/Function1.cs:216-274 | whatever the outcome, a save keeps the ids a key |
| Registration.InsertAddsShares | backend/FunctionbeerAPI/Function1.cs:245-257 | the inserted rows add the share once per name to the amount column |
| Registration.InsertedSharesAddUp | backend/FunctionbeerAPI/Function1.cs:236-257 | with amounts as exact reals, splitting an amount evenly and inserting the rows adds exactly that amount to the `amount` column |
| Search.BuildQuery | backend/FunctionbeerAPI/Function1.cs:287-332 | rejects exactly when all three filters are null or empty, with the source's message; otherwise there is one binding per clause, each clause's parameter is the one bound beside it, and the clauses follow the order event_name, event_date, participants |
| Search.BindingsFollowFilters | backend/FunctionbeerAPI/Function1.cs:300-332 | one clause per given filter; `@EventName` and `@Name` are bound to `%v%` and `@EventDate` verbatim, exactly when their filter is given |
| Search.LikeClauseMeans | backend/FunctionbeerAPI/Function1.cs:304-331 | a LIKE clause bound to `%v%` holds exactly when v occurs in the column |
| Search.QueryMeansFilters | backend/FunctionbeerAPI/Function1.cs:300-332 | the built query selects a row exactly when every given filter holds of it: a substring match on event name and participant, equality on date |
| Search.Run | backend/FunctionbeerAPI/Function1.cs:334-348 | the result holds exactly the stored rows the query selects, each as many times as it is stored |
| Search.SearchNomikaiEvent | backend/FunctionbeerAPI/Function1.cs:276-359 | no filter is a 400 with the source's message; a connection failure is a 500; a date filter the database cannot convert to a date is a 500; success exactly otherwise, and the answer holds exactly the stored rows matching every given filter, each as many times as it is stored |
| Search.OptionalClauseMeans | backend/FunctionbeerAPI/Function1.cs:302-315 | an absent filter adds no condition; a given one adds exactly its own clause |
| Payments.SetFlag | backend/FunctionbeerAPI/Function1.cs:386-396 | rows with the id get the flag and nothing else changes; an id with no row leaves the table as it is |
| Payments.LastFlagFor | backend/FunctionbeerAPI/Function1.cs:384-398 | there is no flag exactly when no update names the id |
| Payments.LastFlagForIsLast | backend/FunctionbeerAPI/Function1.cs:384-398 | a flag that is found comes from an update naming the id with no later update naming it, so the last one wins |
| Payments.ApplyUpdatesEffect | backend/FunctionbeerAPI/Function1.cs:384-398 | after the batch each row's flag is the flag of the last update naming its id, or its old flag if none does; ids, the other fields and the row count are unchanged |
| Payments.ApplyUpdatesIdempotent | backend/FunctionbeerAPI/Function1.cs:384-398 | applying the same batch twice gives the same table as applying it once |
| Payments.LastFlagForRemove | backend/FunctionbeerAPI/Function1.cs:384-398 | an entry for a different id does not affect which flag is last for an id |
| Payments.UnmatchedEntryIsSkipped | backend/FunctionbeerAPI/Function1.cs:392-396 | an entry whose id has no row changes nothing and stops nothing: the batch without it has the same effect |
| Payments.UpdatePaymentFlags | backend/FunctionbeerAPI/Function1.cs:361-413 | a null or empty batch is a 400 with the table unchanged; a connection failure is a 500 with the table unchanged; success exactly otherwise; on success every statement has run in order, and each row's flag is that of the last update naming its id, with all else kept |
| Scenarios.SplitThreeNames | backend/FunctionbeerAPI/Function1.cs:233 | "Alice、 Bob 、Carol" splits into "Alice", " Bob " and "Carol": the spaces stay in the piece until the trim |
| Scenarios.TrimThreeNames | backend/FunctionbeerAPI/Function1.cs:247 | trimming turns " Bob " into "Bob" and leaves "Alice" and "Carol" as they are |
| Scenarios.SaveThreeParticipants | backend/FunctionbeerAPI/Function1.cs:227-259 | saving "Alice、 Bob 、Carol" with amount 300 into an empty table inserts three rows of 100 named Alice, Bob and Carol, with ids 1 to 3 from the modelled identity counter and the request's date, event name and flag |
| Scenarios.SaveKeepsBlankParticipant | backend/FunctionbeerAPI/Function1.cs:233-257 | saving "A、 、B" with amount 90 into an empty table inserts three rows of 30, not two rows of 45; the middle row's name is "", and every row has the request's date, event name and flag |
| Scenarios.SaveOnlyCommasDividesByZero | backend/FunctionbeerAPI/Function1.cs:233-236 | a positive amount with a list of two commas only ends in the divide-by-zero fault and leaves the table unchanged, whatever the connection string |
| Scenarios.SpringOnlySql | backend/FunctionbeerAPI/Function1.cs:300-332 | `eventname=Spring&name=` gives one LIKE clause bound to `%Spring%`, and the empty name adds nothing |
| Scenarios.SearchByEventNameOnly | backend/FunctionbeerAPI/Function1.cs:283-348 | with only an event-name filter, a row whose event name contains it is found and a row whose event name does not is not |
| Scenarios.SearchByDateOnly | backend/FunctionbeerAPI/Function1.cs:307-326 | a date-only search has one equality clause bound to the date verbatim |
| Scenarios.SearchBadDateFails | backend/FunctionbeerAPI/Function1.cs:307-356 | `eventdate=abc`, which does not convert to a date, makes the search answer 500 |
| Scenarios.SearchAllFilters | backend/FunctionbeerAPI/Function1.cs:300-315 | with all three filters the SQL text has the three clauses in the order name, date, participants |
| Scenarios.UpdateWithUnknownId | backend/FunctionbeerAPI/Function1.cs:384-398 | for updates [{1, true}, {9999, true}] where no row has id 9999, row 1 is marked paid and the table is otherwise unchanged |

## Left out

- HTTP triggers, request-body reading, JSON deserialisation and the CORS header helper (lines 423-429) are not modelled. The requests are given as typed values. The missing CORS wrapper at line 94 is invisible here.
- Logging is not modelled. That includes the warning for an update that matched no row: the model keeps the effect (nothing changes) and drops the log line.
- `GetHistory` and `SaveHistory` (lines 124-204) are not modelled: they are a full-table read and an unvalidated pass-through insert, with no logic to verify.
- The Azure `SecretClient`, `DefaultAzureCredential` and URI parsing are one function parameter, `fetchSecret`. Environment variables are the `env` parameter.
- Most database errors after connection-string resolution are not modelled: failure to open the connection, failure of a statement, and the partial commits a mid-batch failure leaves behind. The failures modelled are a failed resolution and, in the search, a date filter that does not convert. Concurrency between requests, such as the lost-update race on `Calculate`, is not modelled either.
- C# `decimal` is modelled as exact `real`, so 28-29 digit rounding is not modelled, nor is the column's scale. Shares are exact quotients.
- Registration.InsertedSharesAddUp: the shares add up to the amount only in the exact-real model. In the source, 100 over 3 participants gives shares of 33.333…3 in `decimal`, which add up to less than 100, and no remainder is distributed.
- Calculation.Calculate: `share × count = total` holds only in the exact-real model. The source's `decimal` division at line 77 rounds.
- `DateTime` event dates are modelled as their text.
- Search.SearchNomikaiEvent: whether a date filter converts is a parameter, `isDate`. Once it converts, the model compares the text with the stored date by plain string equality. SQL Server compares the converted values, so "2024/04/01" would also match a row stored as "2024-04-01".
- Search.QueryMeansFilters: compares characters exactly. SQL Server's default collations ignore case for `LIKE` and `=`, so `eventname=spring` would find "Spring party" there but not in the model.
- A `null` `EventName` in a save request is not modelled: the SQL parameter error it would cause is a database error.
- The 32-bit width of the request's `int` fields is not modelled. The handlers do no integer arithmetic on them.
- `CalculateRequest.ParticipantID` is carried in the request but used by nothing, as in the source.
- Search.LikeClauseMeans: models SQL `LIKE` only for the `%v%` patterns the handler builds, with the characters of `v` taken literally. A user-supplied `%` or `_` is not escaped in the source, so it would act as a wildcard there.
- Search.Run: states which rows are returned and how often, but not their order. The source requests no order, so the model's storage order is one possible backend order.
- Registration.NewRows: models the identity column as a counter that hands out consecutive ids. SQL Server promises fresh ids, not consecutive ones: failed inserts and restarts leave gaps. Only freshness is needed by `Registration.InsertKeepsIdsUnique`.
- `frontend/config.js` is not modelled: it only concatenates URL strings.
