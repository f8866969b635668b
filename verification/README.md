# Event log: a verified model

The event-logger library keeps calls, chats and messages in an SQLite database: the tables `Events`, `Headers`,
`Attachments`, `Remotes` and `GroupCache`, with triggers that maintain the last one. This project models that database,
the calls that change it, the compiler from query criteria to SQL, the iterator, and the conversion of version-0
databases, and proves what they promise together.

## How it is modelled

* **Statements.** A table is a sequence of rows, `Events` in ascending id order. Each SQL statement, with the triggers it
  fires, is a function from database to database (`Statements`, `Operations`); `None` is a constraint violation. SQLite's
  rules are fixed as definitions: the next id is the largest plus one, `UNIQUE` is checked row by row during an `UPDATE`,
  `OR IGNORE` and `OR REPLACE`, bare columns next to a single `MAX`, `NULL`s equal in `GROUP BY`, three-valued logic in
  `WHERE`, `LIKE` folding ASCII case only, and an out-of-range column reading `NULL`.
* **The C code.** Objects are classes whose methods follow the C functions statement by statement: `Connection`,
  `RTComEl`, `RTComElQuery`, `RTComElIter`. Every statement may fail for reasons of its own (disk, locking), and a failing
  one may undo itself alone or the whole transaction. While the journal is off, a failure may leave anything behind. Each
  method is proved against the functions above, and, where it is a step of the log, against `Runs.Step` or
  `Sessions.Advance`.
* **Runs.** `Runs` chains the calls from an empty log, and `Sessions` adds the transactions that atomic iterators hold open
  and the rollbacks that may end them. Their theorems are inductions over all runs and courses; `Reachable` draws the
  conclusions a client would see, and `Scenarios` follows whole call sequences through the classes.
* **Text.** SQL text is real text. A printer (the C code) and a reader (the part of SQLite's grammar that the library
  uses) are both defined, and reading is proved to invert printing for arbitrary strings.

| modules | subject |
|---|---|
| `Seqs`, `Bits`, `Tables` | sequences, two's-complement bit operations, rows |
| `Groups`, `Statements`, `CacheAgreement`, `DeleteAgreement`, `CacheShape` | `GroupCache` against a plain scan of `Events` |
| `Flags`, `DeletedFlags` | the flags column against the OR |
| `Operations`, `Integrity`, `Runs`, `Sessions`, `Reachable` | compound writes, what every call keeps, all runs, open transactions |
| `Effects`, `DeleteEffects` | what each call does to single rows, and what it leaves alone |
| `Scenarios`, `Witnesses` | call sequences; concrete runs for departures that show in the data |
| `Text`, `Fields`, `Criteria`, `QueryText`, `QueryObject`, `GroupList` | SQL text, printed and read back |
| `Select`, `RemoteKeys`, `Deletions` | what queries and deletes by query select |
| `Connections`, `EventLogger`, `Iterators`, `ReadBack` | transactions, the library's calls, reading an event back |
| `Migration`, `MigratedTypes` | the version-0 conversion, of events and of event types |

## Where the code departs from its stated intent

The model follows the code. The lemmas named here say exactly when each departure shows; where a witness is named, it is a
concrete run from the empty log.

* `delete_all` never touches `GroupCache` (src/eventlogger.c:2278). Agreement survives it exactly when no event had a
  group (`DeleteAllAgreesExactly`, witness `AgreementBroken`). Events may then be refused for rows left behind, the first
  one (`FirstAddAfterDeleteAll`, witness `AddRefused`) and later ones (witness `LaterAddRefused`): in every reachable state
  an insert is refused exactly when it mixes services or meets a row left behind (`RefusedReached`). One row per group and
  one service per group survive even this (`EveryRunHasOneRowPerGroup`).
* The rebuild after a delete stores `SUM(flags)`; the interface documents the OR. The sum is the OR plus the bits counted
  more than once: the OR when no two surviving events share a bit, and for non-negative flags only then
  (`RebuiltFlagsExactly`, witness `SumIsNotOr`). A delete keeps the whole flags column exact if and only if no listed group
  has such a carry (`DeleteFlagsExactly`). `unset_event_flag` keeps the OR exactly when no other event of the group
  carries a removed bit (`UpdateExactly`, witness `OrLost`).
* `_fetch_remote_data` reads columns 1 and 2 of a two-column result (src/eventlogger.c:487-488), so the new address book id
  is compared with the old name. `UpsertExactly` and `AddedReadsBack` say when the event's details are stored all the
  same; `AbookLost` is a run in which they are not.
* `unique_remote` is meant to be unambiguous (src/db.c:64-78). It tells the contacts of a set of accounts apart if and only
  if no account begins with another one followed by ';' (`TellsApartExactly`, witness `AccountsConfused`).
* The list built by `update_group_cache` ends in a comma when `NULL` comes last after some group; the delete then fails
  (`RebuildRead`, `RebuildFailsExactly`). A selection is safe in every order of the list exactly when it does not mix
  events of a group with events of none (`RebuildSurelyWorksExactly`, witness `DeleteFails`), so `delete_event` never fails this way
  (`DeleteEventSurelyWorks`).
* A delete goes on when the lookup of its groups fails, and ignores the outcome of its cleanup statement. The methods
  report this in the ghost results `asked` and `clean`, and promise a rebuilt cache only when both hold; a delete without
  its lookup is the call `DeleteBlind` of a run (witness `BlindDelete`).
* A delete that finds a transaction open fails, and its error path rolls that transaction back although another part of
  the program, such as an atomic iterator, began it (`Undone` in the contracts of the deletes; `Scenarios.MarkThenDelete` loses an update that had succeeded).
* `last_group_uid` is replaced before the insert and stays replaced when the add rolls back (`begun` in `AddEvent`): the next
  event without a group uid is filed under the group of an event that was never stored (`Scenarios.AddAfterRollback`).
* After an error while stepping, an iterator keeps pointing at the released statement (src/eventlogger-iter.c:378-383):
  `get_full` still answers with the last row, and stepping again is undefined (`Next`).
* The conversion does not look at the outcome of its `DELETE FROM EventTypes` (src/db.c:416-417); events convert the same
  way whether it worked or not (`EventsConverted`). When that DELETE fails and takes the transaction with it, the statements
  after it run outside any transaction, and the conversion can neither succeed nor be undone (`alive` in `ConvertV0`). The `_` in its `'%_OUTBOUND'` is a wildcard (`LikeAfterOne`).
* `STR_LIKE` and `STR_ENDS_WITH` do not escape wildcards in the value. Their patterns mean "contains" and "ends with" for
  all texts if and only if the value holds neither `%` nor `_` (`PatternsMeanExactly`).
* `STR_ENDS_WITH` with a value that ends in `%` compiles to the text of a `STR_LIKE`, a `NULL` pattern to `(NULL)`, and an
  integer keeps 32 bits only; otherwise the text determines the criterion (`RecoverExactly`).
* `set_read_event` stores 1 for exactly `TRUE` and 0 for every other value.

## Model

| member | source | states |
|---|---|---|
| `Runs.EveryRunAgrees` | src/db.c:201-225 | after every run of successful calls without `delete_all` and without deletes that failed to look up their groups, `GroupCache` has exactly one row per non-NULL group that has events and no other, with newest id, count, read count and service of a plain scan |
| `Sessions.EveryCourseAgrees` | src/eventlogger-iter.c:250-274 | the same over courses of calls and atomic iterators, for the database inside and outside transactions and for the one any rollback would bring back |
| `Sessions.EveryCourseIsSound` | src/db.c:962-1013 | over every course, `delete_all` and deletes without lookup included, both databases keep keys, uniqueness and ownership |
| `Sessions.AdvanceKeepsFine` | src/db.c:962-1013 | one call, opening, closing or rollback keeps agreement in both databases |
| `Runs.EveryRunHasOneRowPerGroup` | src/db.c:170-178 | after every run, whatever the calls and the uids, no group has two cached rows, no row is left at id 0, every group with events has its row under their only service, and no row holds another group's event |
| `Sessions.EveryCourseHasOneRowPerGroup` | src/db.c:170-178 | the same over courses, inside transactions and after any rollback |
| `Runs.StepKeepsShape` | src/db.c:201-225 | every single call keeps this |
| `CacheShape.RebuildKeepsShape` | src/eventlogger.c:1983-2006 | a rebuild of any uids keeps it, over a stale cache too |
| `CacheShape.InsertKeepsShape` | src/db.c:201-218 | so does every insert the triggers accept |
| `CacheShape.RefusedExactly` | src/db.c:201-218 | on such a cache an insert is refused exactly by a row that blocks it |
| `Runs.EveryRunIsSound` | src/db.c:132-148 | after every run, `delete_all` and deletes without their lookup included, ids are keys, contacts and headers are unique, and every header and attachment belongs to an existing event |
| `Runs.EveryRunKeepsFlags` | src/db.c:213-225 | over runs that keep agreement, whose rebuilt sums are ORs, no cached flag bit is without an event carrying it; if no unset takes a bit away that another event of the group carries, the cached flags are exactly the OR |
| `Sessions.EveryCourseKeepsFlags` | src/db.c:213-225 | the same over courses, inside transactions and after any rollback |
| `DeletedFlags.DeleteFlagsExactly` | src/eventlogger.c:1983-2020 | from exact flags, a delete that lists its losers leaves the whole column exact if and only if in no listed group the sum of the flags left differs from their OR |
| `Runs.StepKeepsSound` | src/db.c:195-200 | every single call keeps keys, uniqueness and ownership of headers and attachments |
| `Runs.StepKeepsAgreement` | src/eventlogger.c:1973-2023 | every call but `delete_all` keeps cache and events in agreement |
| `Runs.StepKeepsPlain` | src/eventlogger.c:794-799 | quote-free group uids stay quote-free, in the table and in the remembered uid |
| `Runs.StepKeepsFlags` | src/eventlogger.c:1450-1452 | every such call keeps cached flags sound, and exact if they were |
| `Runs.DeleteServiceKeepsFlags` | src/eventlogger.c:2183-2189 | delete_by_service keeps the flags of the groups that remain |
| `Runs.DeleteGroupKeepsFlags` | src/eventlogger.c:2231-2239 | so does each turn of delete_by_group_uids |
| `Reachable.OneRowPerGroupReached` | src/db.c:170-178 | though the schema allows a row per service and group, no reachable cache, whatever the calls, has two rows of one group or a row at id 0 |
| `Reachable.OneServicePerGroupReached` | src/db.c:201-218 | in reachable states, whatever the calls, a group holds events of one service; an insert is refused by the triggers exactly by a row of its group under another service or a row of another group with the new id |
| `Reachable.RefusedReached` | src/eventlogger.c:932-942 | an insert is refused exactly when it mixes services or meets a row left behind by events that are gone |
| `Reachable.OnlyMixingRefused` | src/eventlogger.c:932-942 | without delete_all and deletes that failed to look up their groups it is refused exactly when it mixes services, and each cached row points at an event of its own group |
| `Reachable.ConversationListReached` | src/eventlogger-query.c:304-316 | in every reachable state the text compiled for GROUP_BY_GROUP reads back and returns, from the cache, the sequence that the scan over Events gives for the same criteria, limit and offset |
| `Reachable.GroupInfoReached` | src/eventlogger.c:1790-1834 | in every reachable state the total and unread counts of a group are those of a scan, to 32 bits |
| `Reachable.GroupFlagsReached` | rtcom-eventlogger/eventlogger.h:446 | the flags reported for a group are the documented OR, to 32 bits, after courses in which no unset takes a bit away that another event carries and no rebuilt sum differs from its OR |
| `Scenarios.AddAndReadBack` | tests/check_el.c:816-863 | add, look up by id, read in full, compare: "the same" if and only if the address book id was stored |
| `Scenarios.LookUp` | tests/check_el.c:833-852 | prepare, get_events, first and get_full yield the first row of the query for the id |
| `Scenarios.AddAfterRollback` | src/eventlogger.c:792-799 | after an add that rolled back, the next event without a group uid is filed under the lost event's group |
| `Scenarios.MarkThenDelete` | src/eventlogger.c:2053-2079 | inside an open transaction a delete fails and undoes a successful update before it |
| `CacheAgreement.InsertFailsExactly` | src/eventlogger.c:932-942 | on an agreeing cache an add fails on constraints exactly when its group already holds an event of another service |
| `CacheAgreement.InsertTriggers` | src/db.c:201-218 | over any cache with one row per group: when the two insert triggers collide on UNIQUE event_id, and that otherwise they record the event in the group's only row |
| `CacheAgreement.InsertTriggersAgreeing` | src/db.c:201-218 | on an agreeing cache only a cached row of another service stands in the way |
| `CacheAgreement.InsertOverRow` | src/db.c:170-178 | the triggers for a group that has a cached row |
| `CacheAgreement.InsertFresh` | src/db.c:201-218 | the triggers for a group without one |
| `CacheAgreement.BumpTwo` | src/db.c:213-218 | two cached rows of one group can never both take the new id |
| `CacheAgreement.InsertKeepsAgreement` | src/db.c:201-218 | a successful insert keeps agreement |
| `CacheAgreement.InsertKeepsKeys` | src/eventlogger.c:820-849 | a new id is larger than every id present |
| `CacheAgreement.UpdateKeepsAgreement` | src/db.c:219-225 | an update of columns other than id, group and service keeps agreement |
| `CacheAgreement.MembersReplace` | src/db.c:219-225 | an update replaces one member of one group in place and leaves every other group alone |
| `Groups.AgreementIsUnique` | src/db.c:170-178 | two caches that agree with the same events hold the same rows, flags aside |
| `DeleteAgreement.RebuildRestoresAgreement` | src/eventlogger.c:1983-2020 | rebuilding every group that lost an event and dropping rows of empty groups makes the cache agree again |
| `DeleteAgreement.RebuildOne` | src/eventlogger.c:1983-1985 | one INSERT OR REPLACE of a group summary repairs that group and disturbs no other |
| `DeleteAgreement.ReplacesOwnRow` | src/db.c:170-178 | halfway through a rebuild, a summary clashes with exactly the rows of its own group |
| `DeleteAgreement.DeleteAloneAgreesExactly` | src/eventlogger.c:2056-2066 | without a rebuild, agreement survives a delete exactly when no deleted event had a group |
| `DeleteAgreement.DeleteServiceKeepsAgreement` | src/eventlogger.c:2183-2189 | delete_by_service keeps agreement |
| `DeleteAgreement.DeleteGroupKeepsAgreement` | src/eventlogger.c:2231-2239 | each turn of delete_by_group_uids keeps agreement |
| `DeleteAgreement.DeleteAllAgreesExactly` | src/eventlogger.c:2278 | delete_all keeps agreement exactly when no event had a group |
| `DeleteAgreement.FirstAddAfterDeleteAll` | src/eventlogger.c:2278 | after delete_all an add to a group is refused exactly when the stale row of the group has another service, or another group's stale row holds id 1 |
| `Flags.UpdateExactly` | src/db.c:219-225 | from exact flags, an update leaves exact flags if and only if no other event of the group carries a removed bit |
| `Flags.UpdateKeepsSound` | src/db.c:219-225 | the update trigger never leaves a cached bit that no event carries |
| `Flags.GrowingUpdateKeepsExact` | src/eventlogger.c:1450-1452 | set_event_flag and set_read_event keep the flags exact |
| `Flags.InsertKeepsFlags` | src/db.c:213-218 | an insert keeps flags sound, and exact if they were |
| `Flags.RebuiltFlagsExactly` | src/eventlogger.c:1983-1985 | a rebuilt row carries the OR of its group plus what the sum counts more than once: the OR when no two surviving events share a bit, whatever the signs; for groups of non-negative flags, only then |
| `Flags.SumIsOrExactly` | rtcom-eventlogger/eventlogger.h:446 | for all flag words the sum is the OR plus the carries, and the OR when they are pairwise disjoint; for non-negative ones it is at least the OR, and equal only then |
| `Deletions.DeleteKeepsAgreement` | src/eventlogger.c:1973-2023 | a successful delete whose list names the groups of the deleted events keeps agreement |
| `Deletions.HitGroupsListLosers` | src/eventlogger.c:1957-1968 | the group lookup of delete_events misses no group that loses an event |
| `Deletions.IdGroupsListLosers` | src/eventlogger.c:1951-1956 | the same for delete_event |
| `Deletions.DeletesWhatTheQueryShows` | src/eventlogger.c:2117-2125 | delete_events removes exactly the events that the ungrouped, unlimited form of the query returns |
| `Deletions.QueryShowsExactly` | src/eventlogger-query.c:318-347 | for criteria without wildcards, an event is shown exactly when its service and type are known and it meets every criterion |
| `Deletions.RebuildFailsExactly` | src/eventlogger.c:2062-2063 | for a given order of the list, a delete fails in the cache update exactly when NULL comes last after some group |
| `Deletions.RebuildSurelyWorksExactly` | src/eventlogger.c:1983-2006 | whatever the order, a delete gets through the cache update if and only if its selection does not mix events of a group with events of none |
| `Deletions.DeleteEventSurelyWorks` | src/eventlogger.c:2056-2063 | delete_event never fails this way |
| `GroupList.RebuildRead` | src/eventlogger.c:1983-2006 | the IN list built by the loop is well formed, and denotes exactly the non-NULL uids in order, if and only if the last element is non-NULL or all are NULL |
| `Criteria.WhereRead` | src/eventlogger-query.c:353-395 | the WHERE text of any non-empty list of accepted criteria, quotes and all, reads back as exactly their predicates in order |
| `Criteria.ClauseRead` | src/eventlogger-query.c:429-521 | one clause reads back as the predicate its criterion stands for |
| `Criteria.WhereMeans` | src/eventlogger-query.c:429-521 | evaluating the compiled condition on a row is the conjunction of the criteria |
| `Criteria.OperatorsMean` | src/eventlogger-query.c:532-541 | on an integer column the six operators are =, <>, >, >=, <, <= of column and operand, for operands of 32 bits |
| `Criteria.TextHolds` | src/eventlogger-query.c:532-541 | on a text column they are the same over the order of texts |
| `Criteria.TextOrder` | src/eventlogger-query.c:532-541 | that order, first difference decides, is a strict total order in which the beginning of a text comes before it |
| `Criteria.RecoverExactly` | src/eventlogger-query.c:453-521 | the text determines field, operator and value, except for wide integers, NULL patterns and ENDS_WITH values ending in % |
| `Criteria.WhereTextExists` | src/eventlogger-query.c:371-383 | prepare succeeds exactly when no criterion is refused |
| `QueryText.SelectRead` | src/eventlogger-query.c:284-350 | the whole statement compiled for any criteria, grouping, limit and offset, over the library's columns and FROM clauses or any other pair that differs, reads back as exactly that query |
| `QueryText.EventTablesRead` | src/eventlogger-query.c:318-325 | join by join, the FROM clause over Events |
| `QueryText.CacheTablesRead` | src/eventlogger-query.c:306-313 | and the one over GroupCache |
| `QueryText.ConditionRead` | src/eventlogger.c:1957-1966 | the same WHERE text pasted into the statements of delete_events reads back as the same condition |
| `QueryObject.RTComElQuery.Prepare` | src/eventlogger-query.c:352-400 | succeeds exactly on acceptable criteria; SQLite then reads the stored text as the query asked for; a failure leaves no text |
| `QueryObject.RTComElQuery.Refresh` | src/eventlogger-query.c:284-350 | after any change of limit, offset or grouping, SQLite reads the new text as the criteria prepared last under the properties of now |
| `QueryObject.RTComElQuery.UpToGrouping` | src/eventlogger-query.c:301-333 | the branch on the cache, the WHERE clause and the grouping, piece by piece |
| `QueryObject.BuildWhere` | src/eventlogger-query.c:371-395 | the buffer loop yields the WHERE text of the whole list, or nothing when a criterion is refused |
| `Text.LikeSuffix` | src/eventlogger-query.c:497-505 | for values without wildcards the STR_ENDS_WITH pattern matches exactly the strings with that suffix, up to ASCII case |
| `Text.LikeContains` | src/eventlogger-query.c:472-483 | for values without wildcards the STR_LIKE pattern matches exactly the strings containing the value, up to ASCII case |
| `Text.PatternsMeanExactly` | src/eventlogger-query.c:472-505 | both patterns mean that for all texts if and only if the value has no wildcard |
| `Text.UnquoteEscape` | src/eventlogger-query.c:511-517 | a string quoted with %Q or %q is read back as itself, whatever quotes it contains |
| `Text.ParsePrinted` | src/eventlogger-query.c:453-466 | a printed integer is read back as itself |
| `Select.CacheQueryIsScan` | src/eventlogger-query.c:302-316 | on an agreeing state, reading GroupCache equals the slow query: newest event of each group, joined, filtered, ordered, sliced |
| `Select.UngroupedResult` | src/eventlogger-query.c:317-327 | newest first, exactly one row per event of known service and type that passes WHERE |
| `Select.PartnersExactly` | src/eventlogger-query.c:318-325 | the row of an event holds the names of its service and type, the contact with both its uids if there is one, and the value of its message-token header if there is one |
| `Select.TokenShown` | src/db.c:56 | the field message-token is the value of that header |
| `Select.SliceExactly` | src/eventlogger-query.c:341-347 | row i of the result is row offset + i of the ordered rows, and limit and length say how many there are |
| `Select.JoinEventsRows` | src/eventlogger-query.c:318-325 | under the two UNIQUE constraints the LEFT JOINs neither drop nor multiply rows |
| `Select.GroupedResult` | src/eventlogger-query.c:327-347 | grouped by contact or uids: strictly descending, one row per key class among the rows of known events passing WHERE, the one with the largest id |
| `Select.OrderIsUnique` | src/eventlogger-query.c:335-347 | the ordered result is determined by the rows in it |
| `RemoteKeys.SameKeyExactly` | src/db.c:79-84 | for all events, NULLs and every account included, two events share unique_remote exactly when they are of the same contact, or of two strangers whose account and remote uid overlap |
| `RemoteKeys.ContactClasses` | src/eventlogger-query.c:329-330 | the classes of GROUP_BY_CONTACT are the contacts, overlapping strangers aside |
| `RemoteKeys.UidsClasses` | src/eventlogger-query.c:331-332 | the classes of GROUP_BY_UIDS are the stored contacts by their uids, and one of all events without |
| `RemoteKeys.TellsApartExactly` | src/db.c:64-84 | grouping by contact tells the contacts of a set of accounts apart, for all their events, if and only if no account begins with another one followed by ';' |
| `RemoteKeys.PlainAccountsTellApart` | src/db.c:68-71 | accounts without ';' are such a set |
| `RemoteKeys.SameTextExactly` | src/db.c:83 | two joined pairs read the same exactly when they are equal or overlap |
| `Integrity.AddFullExactly` | src/eventlogger.c:973-1016 | with one row per group in the cache, add_event_full fails exactly when a cached row blocks the event, a uid is missing, a copy failed or a header has no value; on success there is one new event, one attachment row per element in order, and exactly the given headers |
| `Effects.AddStores` | src/eventlogger.c:820-849 | add_event appends one event with the next id that holds, column by column, what the client gave, 0 or NULL for what it did not, the time, and the ids of the service and of the modernised type |
| `Effects.AddFullStores` | src/eventlogger.c:957-1017 | so does add_event_full |
| `Effects.PrecheckExactly` | src/eventlogger.c:669-762 | the precheck passes exactly when service, type and account are set and service and modernised type are known, and finds their ids |
| `MigratedTypes.ModernisedAsMigrated` | src/eventlogger.c:716-748 | a deprecated CHAT or SMS type name becomes the name the conversion gives that type, OUTBOUND also sets outgoing, and no other name changes |
| `Effects.UpsertTouchesOne` | src/eventlogger.c:851-897 | an add changes no contact but the one with the event's uids |
| `Effects.KnownExactly` | src/eventlogger.c:801-818 | the contact known for an event is the one with its uids |
| `Effects.MarkedExactly` | src/eventlogger.c:1338-1340 | set_read_event marks the one event, 1 for TRUE and 0 for anything else, and changes nothing else |
| `Effects.ReadsMark` | src/eventlogger.c:1381-1395 | set_read_events marks exactly the events listed |
| `Effects.MarkLowersUnread` | src/db.c:219-225 | on an agreeing cache, marking an unread event read takes one off the unread count of its group |
| `Effects.FlagSetExactly` | src/eventlogger.c:1450-1452 | set_event_flag adds exactly the bits of the value to the one event, and changes nothing else |
| `Effects.FlagUnsetExactly` | src/eventlogger.c:1513-1515 | unset_event_flag takes exactly these bits away, and changes nothing else |
| `Effects.ContactsExactly` | src/eventlogger.c:510-525 | after update_remote_contacts each contact has name and address book id of the last element about it, the others theirs |
| `Effects.AbooksExactly` | src/eventlogger.c:582-595 | after remove_abook_uids exactly the contacts with a listed id have lost it |
| `Effects.DeletedExactly` | src/db.c:195-200 | a DELETE takes the events given and exactly their headers and attachments, keeps the order of the rest, and leaves contacts, cache and plug-in tables alone |
| `DeleteEffects.StepDeletes` | src/eventlogger.c:2058-2059 | every delete takes exactly the events it is about; every other keeps its headers, attachments and contact and shows as it did |
| `DeleteEffects.StepAddsNone` | src/eventlogger.c:2117-2125 | and adds none |
| `Integrity.AddCoreFailsExactly` | src/eventlogger.c:820-865 | with one row per group in the cache, _add_event_core cannot succeed exactly when a cached row blocks the event or a uid is missing |
| `Integrity.AddCoreRefusedExactly` | src/eventlogger.c:820-865 | on an agreeing cache, exactly when the group holds an event of another service or a uid is missing |
| `Integrity.HeadersAdded` | src/eventlogger.c:996-1004 | UNIQUE(event_id, name) never stops the header loop, for an event that has no headers yet |
| `Integrity.AttachmentsAdded` | src/eventlogger.c:985-994 | one row per list element, in order |
| `Integrity.NewIdIsClean` | src/eventlogger.c:849 | the next id, even one used before, has no headers and no attachments |
| `Integrity.AddFullKeepsSound` | src/eventlogger.c:957-1017 | a compound add keeps keys, uniqueness and ownership |
| `Integrity.AddCoreKeepsSound` | src/eventlogger.c:778-918 | _add_event_core appends exactly the event's row, keeps headers and attachments, and keeps the constraints |
| `Integrity.UpdateContactsKeepSound` | src/eventlogger.c:510-525 | batch contact updates keep the constraints |
| `Integrity.RemoveAbooksKeepSound` | src/eventlogger.c:582-595 | removing address book ids keeps the constraints |
| `Integrity.DeleteKeepsSound` | src/db.c:195-200 | the cascade leaves no header or attachment without its event |
| `Integrity.GroupInfoIsScan` | src/eventlogger.c:1790-1834 | on an agreeing cache the counts of get_group_info are those of a scan read as 32-bit integers, zeros for a group without events; with exact cached flags so are the flags |
| `ReadBack.AddedReadsBack` | src/eventlogger.c:801-897 | whatever was in the log, an event that passes the precheck and is added is the only row of the query for its id, and read in full it equals the event given under event_equals if and only if its address book id was stored |
| `ReadBack.RestReadsBack` | src/eventlogger-iter.c:699-719 | what event_equals skips reads back too: id, storage time, both marks as 0 or 1, service and modernised type by name |
| `Iterators.KeysShown` | src/eventlogger-iter.c:699-704 | get_full hands out ids and storage time of the row, to 32 bits |
| `Iterators.MarksShown` | src/eventlogger-iter.c:707-708 | is_read and outgoing as 0 or 1 |
| `Iterators.NumbersShown` | src/eventlogger-iter.c:705-711 | times, flags and byte counts, to 32 bits |
| `Iterators.TextsShown` | src/eventlogger-iter.c:702-719 | the event's own texts and the names of service and type |
| `Iterators.ContactShown` | src/eventlogger-iter.c:712-716 | the contact's uid, name and address book id, NULL without contact |
| `ReadBack.QueryById` | src/eventlogger-query.c:317-347 | the ungrouped query for one id returns exactly that event's row |
| `ReadBack.ModernisedEquals` | src/eventlogger.c:716-748 | replacing a deprecated type name changes nothing that event_equals compares |
| `ReadBack.ReadsBackExactly` | src/event.c:37-240 | a client's event, added and read back through the iterator, equals the original under event_equals if and only if its address book id was stored |
| `ReadBack.UpsertExactly` | src/eventlogger.c:851-897 | when the contact's stored details are the event's own after the upsert |
| `ReadBack.UpsertStores` | src/eventlogger.c:481-489 | the upsert leaves exactly one contact for the event's uids, with the stated name and address book id |
| `ReadBack.JoinedRemote` | src/eventlogger-query.c:322-323 | the LEFT JOIN finds that contact for the new event |
| `EventLogger.RTComEl.AddEventCore` | src/eventlogger.c:778-918 | statement by statement, the specified insert and upsert, or a state the caller can roll back |
| `EventLogger.RTComEl.AddEvent` | src/eventlogger.c:921-955 | all or nothing, the event stored holding what was given; always back to autocommit; the remembered group uid is replaced exactly when the transaction was begun, stored event or not; inside an open transaction refused, with everything left as it was |
| `EventLogger.RTComEl.AddEventFull` | src/eventlogger.c:957-1017 | the same for event, attachments and headers together |
| `EventLogger.RTComEl.AddParts` | src/eventlogger.c:985-1004 | the two loops insert every attachment and every header, or fail with the transaction still to roll back |
| `EventLogger.RTComEl.AddHeader` | src/eventlogger.c:1032-1102 | one header row under UNIQUE(event_id, name), or nothing |
| `EventLogger.RTComEl.AddAttachment` | src/eventlogger.c:1269-1281 | one attachment row, or nothing |
| `EventLogger.RTComEl.SetReadEvent` | src/eventlogger.c:1300-1347 | the event's read mark and its group's read count change together, or nothing does |
| `EventLogger.RTComEl.SetReadEvents` | src/eventlogger.c:1349-1398 | on success exactly the listed events are marked; on failure exactly some first part of the list, unless SQLite rolled the surrounding transaction back |
| `EventLogger.RTComEl.SetEventFlag` | src/eventlogger.c:1400-1460 | the value of the named flag is ORed into the event and, by the trigger, into its group's row; nothing happens for an unknown flag |
| `EventLogger.RTComEl.UnsetEventFlag` | src/eventlogger.c:1462-1523 | its bits are cleared from the event and swapped in the group's row; nothing happens for an unknown flag |
| `EventLogger.RTComEl.FlagValue` | src/eventlogger.c:1860-1882 | the value of the named flag, -1 for an unknown one or a failed lookup |
| `EventLogger.RTComEl.UpdateRemoteContacts` | src/eventlogger.c:491-536 | every contact of the list or none; inside an open transaction refused unless the list is empty |
| `EventLogger.RTComEl.RemoveAbookUids` | src/eventlogger.c:563-606 | every id of the list or none, with the same refusal |
| `EventLogger.RTComEl.UpdateGroupCache` | src/eventlogger.c:1973-2023 | the list loop, the rebuild as SQLite reads the text, and the unchecked cleanup |
| `EventLogger.RTComEl.GroupsOf` | src/eventlogger.c:1945-1971 | each group of the one event or of the selected events once, in some order; an empty list when the SELECT fails |
| `EventLogger.RTComEl.Erase` | src/eventlogger.c:2117-2134 | the DELETE, the cache and the commit, or the error path |
| `EventLogger.RTComEl.DeleteEvent` | src/eventlogger.c:2027-2080 | what a successful delete leaves, with its lookup and without; inside an open transaction it fails and rolls that transaction back |
| `EventLogger.RTComEl.DeleteEvents` | src/eventlogger.c:2084-2151 | a successful delete removes the events of the query's condition and, with its lookup, rebuilds their groups; without a condition nothing happens; inside an open transaction it rolls that back |
| `EventLogger.RTComEl.EraseSelected` | src/eventlogger.c:2115-2134 | its statements, for a WHERE text that reads the same in both of them |
| `EventLogger.RTComEl.DeleteByService` | src/eventlogger.c:2153-2205 | on success the named service's events and cached rows are gone; an unknown service changes nothing |
| `EventLogger.RTComEl.DeleteByGroupUids` | src/eventlogger.c:2207-2255 | on success the listed groups' events and cached rows are gone |
| `EventLogger.RTComEl.DeleteAll` | src/eventlogger.c:2257-2296 | on success all events, headers and attachments are gone and GroupCache is as before |
| `EventLogger.RTComEl.GetGroupInfo` | src/eventlogger.c:1799-1834 | the figures of the cached row, to 32 bits, nothing changed |
| `EventLogger.RTComEl.GetEvents` | src/eventlogger.c:1577-1656 | an iterator on the first row of the compiled query's result; an atomic one leaves its transaction open, and without an iterator the transaction is closed again |
| `Iterators.RTComElIter.Next` | src/eventlogger-iter.c:358-389 | moves to the next row and shows its values; the statement is gone exactly at the end, dangling after an error, and the shown row stays |
| `Iterators.RTComElIter.GetFull` | src/eventlogger-iter.c:681-719 | the event of the row shown, also over a dangling statement; nothing once the statement is gone |
| `Iterators.RTComElIter.First` | src/eventlogger-iter.c:342-356 | back to row 0, unless the statement is gone |
| `Iterators.RTComElIter.UpdateRepresentation` | src/eventlogger-iter.c:71-93 | row table and current ids are those of the row stepped to |
| `Iterators.RTComElIter.Finalize` | src/eventlogger-iter.c:250-274 | an atomic iterator commits the transaction it holds, any other touches nothing |
| `Witnesses.AgreementBroken` | src/eventlogger.c:2278 | a run of one grouped add and delete_all, after which cache and events disagree |
| `Witnesses.AddRefused` | src/eventlogger.c:2278 | after it, an add to another group is refused |
| `Witnesses.LaterAddRefused` | src/eventlogger.c:2278 | two grouped adds, delete_all and a third add that is accepted, after which a fourth is refused |
| `Witnesses.BlindDelete` | src/eventlogger.c:1951-1956 | a delete whose lookup failed, after which cache and events disagree |
| `Witnesses.DeleteFails` | src/eventlogger.c:1987-2006 | an add without and one with a group uid, after which deleting what "id at least 1" selects fails in some order of the list |
| `Witnesses.SumIsNotOr` | src/eventlogger.c:1983-1985 | three adds to a group and one delete leave cached flags 2 where every event carries 1 |
| `Witnesses.OrLost` | src/db.c:219-225 | two adds with flag 1 and one unset leave cached flags 0 where one event carries 1 |
| `Witnesses.AbookLost` | src/eventlogger.c:481-489 | two adds, after which the second one's address book id is stored nowhere |
| `Witnesses.AccountsConfused` | src/db.c:68-71 | the accounts "x" and "x;y" cannot be told apart |
| `Connections.Connection.Begin` | src/db.c:962-983 | refuses to nest; else remembers the state to come back to |
| `Connections.Connection.Commit` | src/db.c:985-998 | refuses outside a transaction; on success keeps the data and returns to autocommit |
| `Connections.Connection.Rollback` | src/db.c:1000-1013 | refuses outside a transaction; with a journal restores the state at BEGIN |
| `MigratedTypes.OldTypeFollows` | src/db.c:371-418 | after a successful conversion the new tables alone give every event of a known type its old type name back: the name of its new type and its outgoing bit determine it |
| `MigratedTypes.TypesMigrated` | src/db.c:407-446 | every row of EventTypes but the OUTBOUND ones keeps its id, the INBOUND ones under a merged name that no row bore before; an OUTBOUND name is gone if its DELETE worked |
| `MigratedTypes.ServiceRound` | src/db.c:407-417 | what one round of the loop does to EventTypes |
| `MigratedTypes.RestGrows` | src/db.c:428-434 | the new chat types are appended under new ids |
| `MigratedTypes.RestExtends` | src/db.c:420-452 | all six are there, of the plug-in of chats, and the four new flags follow the old ones with their values, under the service of that plug-in |
| `Migration.ConversionLosesNothing` | src/db.c:371-418 | a successful conversion keeps number, order, ids and other columns of the events, the old type follows from new type and outgoing bit, and no event has a dropped type |
| `Migration.EventsConverted` | src/db.c:384-418 | the loop over services amounts to one event-by-event conversion read off the old type table |
| `Migration.ConversionInvertible` | src/db.c:384-418 | that conversion can be undone on each event and leaves types of other kinds unchanged |
| `Migration.OutboundRecognised` | src/db.c:378-381 | the LIKE pattern marks every OUTBOUND type and no INBOUND type |
| `Migration.LikeAfterOne` | src/db.c:380 | what the pattern really matches: at least one character, then the word, up to ASCII case |
| `Migration.ConvertV0` | src/db.c:334-492 | success means the specified conversion was committed; every path ends in autocommit; a failure restores the state before whenever the transaction survived every unchecked DELETE, as it does when these work |
| `Migration.ConvertEach` | src/db.c:384-418 | the loop over the services, with the outcomes of the unchecked DELETEs, and the life of the transaction, recorded |

## Left out

- Integers: `SUM`, counters and row ids are unbounded; 64-bit overflow and row-id exhaustion are not modelled. Reading
  columns and criteria as 32-bit integers is.
- EventLogger.RTComEl.DeleteEvent: nothing is claimed when the unchecked cleanup statement failed, or after a failed delete,
  as a statement that fails without a journal may leave anything behind.
- EventLogger.RTComEl.DeleteEvents: the same holds.
- EventLogger.RTComEl.AddEvent: what a failure leaves is claimed with the journal on only, that is, when the unchecked PRAGMA
  after an earlier delete worked; the same holds for the other calls that undo a failure. What success means is claimed
  either way.
- EventLogger.RTComEl.AddHeader: returns 0 instead of the new row's id; rows of Headers and Attachments carry no id.
- EventLogger.RTComEl.AddAttachment: directory creation and file copying are left out; the path of the copy, or that there
  is none, is a parameter, and 0 is returned instead of the row's id.
- EventLogger.RTComEl.AddEventFull: the headers come as a list of distinct names in whatever order the hash table has them.
- EventLogger.RTComEl.GetEvents: the rows of an iterator are fixed when it is opened; what SQLite shows of writes made
  while a statement is being stepped is not modelled.
- Iterators.RTComElIter.UpdateRepresentation: the plug-in looked up for the current service is not modelled.
- QueryText.SelectRead: the column list and the FROM clauses, which are fixed, are recognised as whole texts; what rows a
  list of joins gives is a definition (`Select`).
- QueryText.ConditionRead: the same holds for the fixed text around the WHERE clause in the statements of delete_events.
- Runs.EveryRunAgrees: group uids contain no quote, the assumption stated at src/eventlogger.c:1993; headers and attachments
  are added to existing events only; failed deletes, and deletes whose cleanup failed, end a run.
- Runs.EveryRunIsSound: the last two of these apply.
- ReadBack.AddedReadsBack: additional text, icon and markup, which plug-ins may alter, are not part of the event.
- Connections.Connection.Rollback: a ROLLBACK inside a transaction is taken to end it always.
- Migration.ConvertV0: the tables and columns it does not read, the trigger definitions themselves, and what a failed
  conversion leaves when its transaction did not survive a DELETE.
- Criteria whose untyped value does not have the type that field and operator read it with, and a NULL event type name.
- Other processes on the same database, busy looping and timeouts: a statement just succeeds or fails.
- Opening, repairing and replacing database files, and the temporary-file protocol around the conversion.
- Plug-in loading and callbacks: Services, EventTypes and Flags are given tables.
- D-Bus signals, GObject properties, memory management and the debug print in the STR_LIKE branch.
- set_end_time and the simple COUNT, DISTINCT and lookup getters, which would add only easy members.
- Freeing and zeroing of event structs, and the attachment iterator.
