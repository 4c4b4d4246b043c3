# OAID service: model and proofs

A Dafny 4.11 model of the four parts of the OAID service component that carry state and
arithmetic, with proofs of what they promise.

* **Access records.** Accesses are grouped by user, bundle, uid and minute; each group is
  sorted and merged with a 200 ms threshold, and the number of clusters is the reported
  count (`GreedyMerge`, `AccessRecords`, `AccessReports`). Around it stand the two tables
  with their upsert, seven-day query, ten-day expiry and batch cleanup (`Tables`,
  `RdbManager`), the service calls over them, and the broker's decision whether an app
  gets the identifier (`AncoService`).
* **Serialization.** The length-prefixed encoding of vectors of structs, its reader, and
  the call that sends a vector through both (`Serialization`, `Transporter`).
* **Provider connection.** The deduplicating message queue as one thread uses it
  (`ConnectAds`) and under any interleaving of any number of threads (`ConnectAdsProtocol`), with
  the exact conditions for an empty queue (`ConnectAdsDrain`) and for outstanding connect calls
  (`ConnectAdsConnects`).
* **The identifier.** Version 4 UUID text (`Uuid`), the in-memory value over a store that
  may fail and the observer that is told of changes (`OaidService`), and `GetOAID` and
  `ResetOAID` interleaved over threads and restarts (`OaidProtocol`).

`Text` holds byte strings, their order, and decimal printing and parsing; `Sequences`
selects rows; `Options` is the optional value; `ErrorCodes` the shared error codes.

Objects that the component updates in place are classes; loops over vectors are methods
with invariants. Each such method is proved against a predicate or function whose
properties the lemmas establish. A protocol is a state machine with one step per lock
region, and its theorems speak of every legal run.

The clock, randomness, the under-age gate, the installed-bundle test and the answers of
the SQL engine, the key-value store and the IPC layer are parameters. A `std::string` is
the sequence of its bytes. `size_t` has 8 bytes, the encoded length 4, and both ends of a
serialized buffer use the same (little-endian) byte order.

## Model

| member | source | states |
|---|---|---|
| GreedyMerge.MergeTimeList | services/oaid_manager/src/oaid_rdb_manager.cpp:66-82 | fails exactly on the empty list; keeps the total count and the first time; on a sorted list the anchors are list times more than 200 ms apart, their windows cover every time, and each anchor carries the entries of its own window |
| GreedyMerge.GreedyIsOptimal | services/oaid_manager/src/oaid_rdb_manager.cpp:66-82 | the number of clusters is both the largest number of times pairwise more than 200 ms apart and the smallest number of 200 ms windows covering all times |
| GreedyMerge.PackingAtMostCover | services/oaid_manager/src/oaid_rdb_manager.cpp:74-79 | any separated set of times is no larger than any set of windows covering it |
| GreedyMerge.PackingAfterInsert | services/oaid_manager/src/oaid_rdb_manager.cpp:66-82 | one more time raises the largest separated number by 0 or 1 |
| GreedyMerge.SortSorts | services/oaid_manager/src/oaid_rdb_manager.cpp:325 | sorting a group orders it by time |
| GreedyMerge.SortPermutes | services/oaid_manager/src/oaid_rdb_manager.cpp:325 | sorting a group keeps exactly its entries |
| Text.StollToString | services/oaid_manager/src/oaid_rdb_manager.cpp:301-321 | the decimal text of every 64-bit time parses back to that time |
| Text.StollSurrounded | services/oaid_manager/src/oaid_rdb_manager.cpp:316-321 | parsing skips leading white space, accepts a plus sign and stops at the first character that is not a digit |
| Text.ToStringCanonical | services/oaid_manager/src/oaid_rdb_manager.cpp:301 | the printed text is a minus sign for a negative time, then digits without a leading zero |
| Text.DigitAt | services/oaid_manager/src/oaid_rdb_manager.cpp:301 | the i-th printed digit from the right is that of the time |
| Text.StrLessMeans | services/oaid_manager/src/oaid_rdb_manager.cpp:60-61 | one name is before another if and only if at the first difference it ends or has the smaller byte |
| Text.StrLessTransitive | services/oaid_manager/src/oaid_rdb_manager.cpp:60-61 | the bytewise order of names is transitive |
| Text.StrLessTotal | services/oaid_manager/src/oaid_rdb_manager.cpp:60-61 | two different names are always ordered |
| AccessRecords.LessTransitive | services/oaid_manager/src/oaid_rdb_manager.cpp:57-63 | the order of the group keys is transitive |
| AccessRecords.LessTotal | services/oaid_manager/src/oaid_rdb_manager.cpp:57-63 | keys that the ordered map cannot tell apart are equal |
| AccessRecords.LessMeans | services/oaid_manager/src/oaid_rdb_manager.cpp:57-63 | keys are ordered by user, then bundle name, then uid, then minute |
| AccessRecords.MinuteInterval | services/oaid_manager/src/oaid_rdb_manager.cpp:315-320 | an access is in group m > 0 if and only if its time is in [60000 m, 60000 (m + 1)); group 0 is the open interval of one minute around 0, and negative groups are turned around by the truncation |
| AccessRecords.ReportIsPerMinute | services/oaid_manager/src/oaid_rdb_manager.cpp:309-332 | a report has exactly one record for every app and minute with accesses, in ascending order; it has their earliest time as text, and its count is the packing and the covering number of that app's times in that minute |
| AccessRecords.LowerBound | services/oaid_manager/src/oaid_rdb_manager.cpp:321 | finds where the ordered map holds or inserts a key |
| AccessRecords.PushBackGroups | services/oaid_manager/src/oaid_rdb_manager.cpp:315-321 | adding one access keeps the keys ascending, puts the access into exactly its own group and raises the total size by one |
| AccessRecords.GroupByMinute | services/oaid_manager/src/oaid_rdb_manager.cpp:309-322 | throws exactly when some time text does not parse; otherwise each group holds its accesses in input order and the group sizes sum to the number of records |
| AccessRecords.SummariseGroup | services/oaid_manager/src/oaid_rdb_manager.cpp:84-98 | the record of a group has its names, its earliest time and the optimal count |
| AccessRecords.ProcessAccessRecords | services/oaid_manager/src/oaid_rdb_manager.cpp:309-332 | fails exactly when some time text does not parse; otherwise one record per app and minute with accesses, in ascending order, each with the earliest time and the optimal count |
| AccessRecords.CountBound | services/oaid_manager/src/oaid_rdb_manager.cpp:29-30 | a group's count is at most 299, or 598 in minute 0 when some time is negative |
| AccessRecords.CountBoundExact | services/oaid_manager/src/oaid_rdb_manager.cpp:309-332 | 299 bounds all counts of a minute if and only if it is not minute 0, where truncation toward zero joins two minutes and 598 is reached |
| AccessRecords.MergedCount | services/oaid_manager/src/oaid_rdb_manager.cpp:96 | the 32-bit cast of the cluster count never changes it |
| AccessReports.SameAccessesSameReport | services/oaid_manager/src/oaid_rdb_manager.cpp:309-332 | the report depends only on the set of accesses, and its keys are unique |
| AccessReports.OrderIndependence | services/oaid_manager/src/oaid_rdb_manager.cpp:309-332 | every permutation of the accesses gives the same report |
| AccessReports.KeysOfReport | services/oaid_manager/src/oaid_rdb_manager.cpp:84-98 | a record's time text parses back to the first access of its group, so the group key can be read off the record |
| AccessReports.InsertIntoGroup | services/oaid_manager/src/oaid_rdb_manager.cpp:309-332 | an access to a reported group changes only that record: count up by 0 or 1, time the minimum |
| AccessReports.InsertNewGroup | services/oaid_manager/src/oaid_rdb_manager.cpp:309-332 | an access that opens a group adds one record with count 1 at its place and changes nothing else |
| AccessReports.InsertEffect | services/oaid_manager/src/oaid_rdb_manager.cpp:309-375 | inserting one access changes a query's report in at most one place, and not at all when the query does not select it |
| AccessReports.ReportCountBound | services/oaid_manager/src/oaid_rdb_manager.cpp:84-98 | every reported count is at least 1 and at most 299, with the exception of minute 0 with negative times |
| Tables.UpsertRefines | services/oaid_manager/src/oaid_rdb_manager.cpp:185-221 | the upsert keeps one row per key and is an assignment on the map of keys; the create time survives |
| Tables.CleanRefines | services/oaid_manager/src/oaid_rdb_manager.cpp:423-424 | deleting a batch removes exactly that user's keys of those bundles |
| Tables.QueryByKey | services/oaid_manager/src/oaid_rdb_manager.cpp:234-256 | a query with both names returns the one row of the key, or none |
| Tables.QuerySelects | services/oaid_manager/src/oaid_rdb_manager.cpp:234-240 | a query asks for the row of both names, or for all rows of the user when a name is empty |
| Tables.SwitchHistory | services/oaid_manager/src/oaid_rdb_manager.cpp:175-261 | after any history a key has at most one row: status and time of the last successful set since its last clean, create time of the first |
| Tables.ExpiryInvisible | services/oaid_manager/src/oaid_rdb_manager.cpp:457-478 | any number of expiry cleanups up to three days after the query's time leave what the query selects unchanged |
| Tables.ExpiryBoundExact | services/oaid_manager/src/oaid_rdb_manager.cpp:31-32 | three days is exact: the query is unaffected for all tables if and only if the expiry runs no later |
| Tables.ExpiryDeletes | services/oaid_manager/src/oaid_rdb_manager.cpp:465-472 | an expiry deletes exactly that user's accesses of more than ten days ago |
| Tables.SelectedAsked | services/oaid_manager/src/oaid_rdb_manager.cpp:269-281 | an access is selected if and only if it is the asked user's, not older than asked, and of the asked app when both names are given |
| Tables.QueryAnswers | services/oaid_manager/src/oaid_rdb_manager.cpp:269-332 | every record of a report is the asked user's and app's, not older than 604800000 ms, and sums up one minute of what was asked; every asked access has its record |
| RdbManager.BuildBatchDeleteSql | services/oaid_manager/src/oaid_rdb_manager.cpp:440-455 | the statement text and its arguments: the user, then the names in order |
| RdbManager.PlaceholdersMatchArguments | services/oaid_manager/src/oaid_rdb_manager.cpp:440-455 | the statement has as many placeholders as arguments |
| RdbManager.BoundNamesOfArgs | services/oaid_manager/src/oaid_rdb_manager.cpp:451 | the names bound by the statement are the names it was built from |
| RdbManager.OaidRdbManager.Init | services/oaid_manager/src/oaid_rdb_manager.cpp:148-173 | opens the store once; a store that cannot be opened is recreated empty; a recreation that reports an error but hands out a store returns the error and leaves the store set |
| RdbManager.OaidRdbManager.InsertOrReplaceSwitchStatus | services/oaid_manager/src/oaid_rdb_manager.cpp:175-223 | succeeds exactly when the store is open and both statements succeed; acts on the table as an assignment on a map; a failure changes nothing |
| RdbManager.OaidRdbManager.QuerySwitchStatus | services/oaid_manager/src/oaid_rdb_manager.cpp:225-261 | returns the selected rows in order, field by field, nothing when closed or failing; exactly the user's rows, of the asked app when both names are given |
| RdbManager.OaidRdbManager.QueryAccessRecordsFromDatabase | services/oaid_manager/src/oaid_rdb_manager.cpp:263-307 | one record per asked row, in order, and none for any other: its names, the decimal text of its time, count 1; the records parse back to the rows |
| RdbManager.OaidRdbManager.QueryAccessRecords | services/oaid_manager/src/oaid_rdb_manager.cpp:334-352 | the report of the asked user's and app's accesses of the last seven days, minute by minute; empty when closed or failing |
| RdbManager.OaidRdbManager.InsertAccessRecord | services/oaid_manager/src/oaid_rdb_manager.cpp:353-375 | appends one access, or reports the error and changes nothing |
| RdbManager.OaidRdbManager.QueryAllBundleNames | services/oaid_manager/src/oaid_rdb_manager.cpp:377-403 | each name once, and exactly the names that some row of the user in either table carries |
| RdbManager.PickUninstalled | services/oaid_manager/src/oaid_rdb_manager.cpp:411-418 | picks exactly min(k, 100) of the k names that are not installed |
| RdbManager.OaidRdbManager.CleanUninstalledAppRecords | services/oaid_manager/src/oaid_rdb_manager.cpp:405-438 | a successful pass deletes exactly the user's rows of a full batch from both tables; a failure of the second delete leaves the records |
| RdbManager.OaidRdbManager.CleanExpiredAccessRecords | services/oaid_manager/src/oaid_rdb_manager.cpp:457-478 | deletes the user's accesses older than ten days, or changes nothing |
| RdbManager.BundleNamesMember | services/oaid_manager/src/oaid_rdb_manager.cpp:385-391 | a name counts if and only if a row of the user in either table carries it |
| RdbManager.NoneUninstalled | services/oaid_manager/src/oaid_rdb_manager.cpp:405-418 | no uninstalled name is left if and only if every row of the user in either table is of an installed bundle |
| RdbManager.PassProgress | services/oaid_manager/src/oaid_rdb_manager.cpp:405-438 | a pass removes exactly min(k, 100) uninstalled names; it deletes the user's rows of these bundles and no other row |
| RdbManager.CleanupConverges | services/oaid_manager/src/oaid_rdb_manager.cpp:405-438 | after n passes every row of the user in either table is of an installed bundle if and only if k is at most 100 n; protected rows are never touched |
| AncoService.SetAncoSwitchStatus | services/oaid_manager/src/oaid_service.cpp:298-312 | success if and only if a store opens and both statements succeed; then the row is set; otherwise the tables stay as opening left them, empty when the store was recreated |
| AncoService.OpenAndClean | services/oaid_manager/src/oaid_service.cpp:314-326 | whatever fails: the store, the tables and the batch after opening and one cleanup pass |
| AncoService.GetAncoSwitchStatus | services/oaid_manager/src/oaid_service.cpp:314-328 | answers from the switch table after one cleanup pass; nothing if and only if no store opens, the query fails, or no row is there; the tables in every case |
| AncoService.GetAncoAccessRecords | services/oaid_manager/src/oaid_service.cpp:330-348 | the tables after cleanup and expiry, whatever fails; the report is that of the accesses as they were before the expiry that the same call runs; nothing when no store opens or the query fails |
| AncoService.InsertAccessRecord | services/oaid_manager/src/oaid_service.cpp:361-370 | appends one access if and only if a store opens and the insertion succeeds; a store that cannot be opened is reported as success |
| AncoService.WriteAuthorization | interfaces/innerkits/src/oaid_broker_client.cpp:43-49 | writes status 1 for a denial and 0 for a permission; success and tables in every case |
| AncoService.IsBlocked | interfaces/innerkits/src/oaid_broker_client.cpp:57-71 | cleanup, query and switch decision, whatever fails: an app with a row that is read is blocked if and only if its status is not 0, any other follows the global switch |
| AncoService.GetAncoOaid | interfaces/innerkits/src/oaid_broker_client.cpp:51-80 | reply and tables for every combination of flag, switches and failures: the identifier and one record when the app may have it, all zeros and no record otherwise; a denied app that is installed gets all zeros if and only if the global switch is on or the status query reads the tables that hold the denial |
| AncoService.BlockedExactly | interfaces/innerkits/src/oaid_broker_client.cpp:57-71 | an app is blocked if and only if, when its key has a row, the status is not 0, and otherwise the global switch is on |
| AncoService.GrantedExactly | interfaces/innerkits/src/oaid_broker_client.cpp:51-80 | reply and tables when every call succeeds, in terms of the row of the app |
| AncoService.CallsKeepDecision | interfaces/innerkits/src/oaid_broker_client.cpp:43-80 | no sequence of calls reverses a denial or a permission unless it sets that app the other way or treats it as uninstalled |
| AncoService.DenialHolds | interfaces/innerkits/src/oaid_broker_client.cpp:43-80 | after a denying WriteAuthorization every GetAncoOaid with flag false answers all zeros and adds no record until the app is allowed again |
| AncoService.PermissionHolds | interfaces/innerkits/src/oaid_broker_client.cpp:43-80 | after a permitting WriteAuthorization every GetAncoOaid with flag false answers the identifier and adds exactly one record until the app is denied or cleaned |
| AncoService.DenialNeedsAnswer | interfaces/innerkits/src/oaid_broker_client.cpp:57-71 | a denied app is blocked if and only if the global switch is on, or the call reaches the service, the store is open or opens without being recreated, and the query succeeds |
| Serialization.BytesRoundTrip | utils/native/include/ipc_serialization_transporter.h:101-128 | fixed-width bytes give the number back |
| Serialization.RemainingSizeExact | utils/native/include/ipc_serialization_transporter.h:51-54 | the 32-bit check is the true comparison as long as the sum stays below 2^32 |
| Serialization.ArithmeticAt | utils/native/include/ipc_serialization_transporter.h:101-128 | a scalar that Flat wrote is read back wherever it stands, and the cursor stops at its end |
| Serialization.StringAt | utils/native/src/ipc_serialization_transporter.cpp:28-43 | the same for strings |
| Serialization.SwitchAt | interfaces/innerkits/src/oaid_service_proxy.cpp:171-200 | the same for switch records |
| Serialization.AccessAt | interfaces/innerkits/src/oaid_service_proxy.cpp:202-237 | the same for access records |
| Serialization.ElementsAt | utils/native/include/ipc_serialization_transporter.h:130-152 | the same for the elements of a vector |
| Serialization.Refusals | utils/native/include/ipc_serialization_transporter.h:101-128 | below 2^32 bytes: a bad reader reads nothing; a length that does not fit or does not match makes it bad; a payload past the end is copied unchecked; a string longer than the rest is refused and leaves it good |
| Serialization.SelfDelimiting | utils/native/include/ipc_serialization_transporter.h:101-205 | reading an encoded vector followed by any bytes, below 2^32 in all, returns it and stops at its end; nothing is copied past the end |
| Serialization.VectorRoundTrip | utils/native/include/ipc_serialization_transporter.h:130-152 | reading the whole encoding returns the vector, ends at the buffer end and leaves the reader good |
| Serialization.EncodingPrefixFree | services/oaid_manager/src/oaid_service_stub.cpp:430-477 | an encoding that is a prefix of another is that other, and then the vectors are equal |
| Serialization.ElementLength | services/oaid_manager/src/oaid_service_stub.cpp:430-477 | a switch record takes 40 bytes and an access record 52 beside their strings |
| Serialization.VectorLength | utils/native/include/ipc_serialization_transporter.h:190-200 | a vector takes 12 bytes beside its elements, so the empty vector is not empty on the wire |
| Serialization.Int32Layout | utils/native/include/ipc_serialization_transporter.h:165-174 | the eight bytes of a 32-bit integer: its length 4, then its two's complement, least byte first |
| Serialization.StringLayout | utils/native/include/ipc_serialization_transporter.h:180-189 | the bytes of a string: the length 8 of its size, the size, then its contents |
| Serialization.VectorLayout | utils/native/include/ipc_serialization_transporter.h:190-200 | the bytes of a vector: the length 8 of its size, the size, then its elements |
| Serialization.FieldOrder | services/oaid_manager/src/oaid_service_stub.cpp:430-477 | the fields follow each other in the order of their declaration |
| Transporter.IpcSerializationTransporter.FlatArithmetic | utils/native/include/ipc_serialization_transporter.h:165-174 | appends length and bytes, or fails for good when the stream cannot take them |
| Transporter.IpcSerializationTransporter.FlatString | utils/native/include/ipc_serialization_transporter.h:180-189 | appends size and bytes of a string, or fails |
| Transporter.IpcSerializationTransporter.FlatElement | services/oaid_manager/src/oaid_service_stub.cpp:430-477 | appends the fields in order and stops at the first failure |
| Transporter.IpcSerializationTransporter.FlatVector | utils/native/include/ipc_serialization_transporter.h:190-200 | appends size and elements; succeeds exactly when the stream can take the whole encoding |
| Transporter.IpcSerializationTransporter.Serialize | utils/native/include/ipc_serialization_transporter.h:154-158 | the encoding, or nothing exactly when the stream cannot take it |
| Transporter.Reader.ReadArithmetic | utils/native/include/ipc_serialization_transporter.h:101-128 | every outcome of reading a scalar, the copy past the end included |
| Transporter.Reader.ReadString | utils/native/src/ipc_serialization_transporter.cpp:28-43 | every outcome of reading a string |
| Transporter.Reader.ReadSwitch | interfaces/innerkits/src/oaid_service_proxy.cpp:171-200 | reads field by field and stops at the first that fails |
| Transporter.Reader.ReadAccess | interfaces/innerkits/src/oaid_service_proxy.cpp:202-237 | reads field by field and stops at the first that fails |
| Transporter.Reader.ReadVector | utils/native/include/ipc_serialization_transporter.h:130-152 | reads as many elements as the size says, or stops at the first failure |
| Transporter.Build | utils/native/src/ipc_serialization_transporter.cpp:45-52 | refuses exactly a buffer whose size cut to 32 bits is 0 |
| Transporter.Send | services/oaid_manager/src/oaid_service_stub.cpp:489-506 | the client receives exactly the vector that the service sent when its encoding fits the stream and 32 bits; an empty vector when the service cannot encode it |
| ConnectAds.ConnectAdsStub.AddMessageToQueue | services/oaid_manager/src/connect_ads_stub.cpp:88-97 | queues a code once; queue and hash set stay consistent |
| ConnectAds.ConnectAdsStub.SendMessage | services/oaid_manager/src/connect_ads_stub.cpp:146-179 | sends the code, or queues it again when there is no connection, token or parcel |
| ConnectAds.ConnectAdsStub.ProcessMessageQueue | services/oaid_manager/src/connect_ads_stub.cpp:99-135 | connected: the succeeding codes go out in queue order and the failing ones stay in theirs; otherwise, or when all fail, nothing changes; it terminates |
| ConnectAds.EnqueueAllFresh | services/oaid_manager/src/connect_ads_stub.cpp:118-125 | putting a swapped queue back into an empty one restores it |
| ConnectAds.ConnectAdsStub.OnAbilityConnectDone | services/oaid_manager/src/connect_ads_stub.cpp:42-49 | connects and drains; without a remote object nothing is sent |
| ConnectAds.ConnectAdsStub.DisconnectIfIdle | services/oaid_manager/src/connect_ads_stub.cpp:137-144 | leaves no usable connection; a connecting state stays |
| ConnectAdsProtocol.NoMessageLoss | services/oaid_manager/src/connect_ads_stub.cpp:88-179 | from the step that enqueues a code on, in every interleaving, the code is queued, held by a draining thread, or sent since |
| ConnectAdsProtocol.CodeAfterStep | services/oaid_manager/src/connect_ads_stub.cpp:99-179 | one step leaves a queued or held code queued, held, or just sent |
| ConnectAdsProtocol.QueueMatchesSet | services/oaid_manager/src/connect_ads_stub.cpp:88-127 | in every interleaving the queue has no duplicates and the hash set holds exactly its elements |
| ConnectAdsProtocol.NoMessageInvented | services/oaid_manager/src/connect_ads_stub.cpp:88-179 | in every interleaving no code is sent more often than it was given |
| ConnectAdsProtocol.ConnectsBounded | services/oaid_manager/src/connect_ads_stub.cpp:344-377 | in every interleaving connect calls are at most one more than the steps that set the state to DISCONNECTED |
| ConnectAdsConnects.ConnectingMeansOutstanding | services/oaid_manager/src/connect_ads_stub.cpp:356-373 | in every interleaving: CONNECTING with connectMutex_ free means that an accepted connect call is outstanding |
| ConnectAdsConnects.FailedNotifyRuns | services/oaid_manager/src/connect_ads_stub.cpp:356-373 | a notifyKit whose connect call fails leaves DISCONNECTED, the lock free, its code queued and one drop |
| ConnectAdsConnects.ConnectsAfterFailure | services/oaid_manager/src/connect_ads_stub.cpp:356-373 | and the next notifyKit connects again |
| ConnectAdsConnects.NotifyWaits | services/oaid_manager/src/connect_ads_stub.cpp:374-376 | a notifyKit that finds a connection in progress only queues its code |
| ConnectAdsConnects.DisconnectAlone | services/oaid_manager/src/connect_ads_stub.cpp:137-144 | an uninterrupted DisconnectService drops a usable connection and changes nothing else |
| ConnectAdsProtocol.StepPotential | services/oaid_manager/src/connect_ads_stub.cpp:356-373 | connect calls made or decided, plus the one the state allows, less the drops, never rises |
| ConnectAdsProtocol.StepExclusive | services/oaid_manager/src/connect_ads_stub.cpp:207-214 | exactly the thread that holds connectMutex_ is inside its region |
| ConnectAdsDrain.EmptyUnlessLeft | services/oaid_manager/src/connect_ads_stub.cpp:344-377 | in every interleaving, when all threads are done: the queue is empty if and only if since the last swap no code was enqueued by a notifyKit that had not read CONNECTED, nor put back |
| ConnectAdsDrain.StrandedMessage | services/oaid_manager/src/connect_ads_stub.cpp:344-377 | a run of two threads that ends idle and connected with a code still queued, the witness to the condition of EmptyUnlessLeft |
| ConnectAdsDrain.DrainAlone | services/oaid_manager/src/connect_ads_stub.cpp:99-135 | a thread that drains alone does what the object's ProcessMessageQueue does, whichever sends fail |
| ConnectAdsDrain.ConnectDoneAlone | services/oaid_manager/src/connect_ads_stub.cpp:42-49 | an uninterrupted connect callback sets token and state and drains |
| ConnectAdsDrain.NoSendWhileDown | services/oaid_manager/src/connect_ads_stub.cpp:146-160 | in every interleaving nothing is sent while the state is not CONNECTED and no send has been decided |
| ConnectAdsDrain.NoSendWithoutToken | services/oaid_manager/src/connect_ads_stub.cpp:146-160 | nor while there is no token and none has been taken |
| ConnectAdsDrain.NextNotifyDrains | services/oaid_manager/src/connect_ads_stub.cpp:344-354 | the next uninterrupted notifyKit on a usable connection sends every queued code and its own in queue order; only failing ones stay |
| ConnectAdsConnects.OutstandingBounded | services/oaid_manager/src/connect_ads_stub.cpp:356-373 | in every interleaving: of the connect calls since a connection last came up, at most one is outstanding more than there were late drops |
| ConnectAdsConnects.OutstandingExactly | services/oaid_manager/src/connect_ads_stub.cpp:51-57 | k bounds the outstanding connect calls of all runs with at most d late drops if and only if d is less than k: at most one is outstanding if and only if no drop was late |
| ConnectAdsConnects.ConnectsExactly | services/oaid_manager/src/connect_ads_stub.cpp:344-377 | k bounds the connect calls of all runs with at most d steps that set the state to DISCONNECTED if and only if d is less than k |
| ConnectAdsConnects.TwoConnectsOutstanding | services/oaid_manager/src/connect_ads_stub.cpp:51-57 | a run with one late drop, two connect calls outstanding and no connection callback |
| ConnectAdsConnects.ReconnectsRun | services/oaid_manager/src/connect_ads_stub.cpp:51-57 | the run that reaches both bounds: late disconnect callbacks between notifyKit calls, with no connection coming up |
| Uuid.GetUUID | services/oaid_manager/src/oaid_service.cpp:52-98 | empty when randomness fails; otherwise the text of the 16 stamped bytes, hyphens and digits at their places |
| Uuid.SecondDigitIsLowHalf | services/oaid_manager/src/oaid_service.cpp:90-95 | the remainder arithmetic yields the low half of the byte, for every byte |
| Uuid.StampedHalves | services/oaid_manager/src/oaid_service.cpp:64-78 | version 4 and variant 8 to b go into the high halves of bytes 6 and 8; every other half byte stays as random as it came |
| Uuid.HexCharTable | services/oaid_manager/src/oaid_service.cpp:41-50 | the digits are 0 to 9 and a to f |
| Uuid.TextDecodes | services/oaid_manager/src/oaid_service.cpp:83-97 | a text is the text of 16 bytes if and only if it is well-formed and decodes to them |
| Uuid.TextShape | services/oaid_manager/src/oaid_service.cpp:83-97 | 36 characters, hyphens exactly at 8, 13, 18 and 23, lower-case hexadecimal digits elsewhere |
| Uuid.FormattingInjective | services/oaid_manager/src/oaid_service.cpp:83-97 | different bytes give different texts |
| Uuid.GeneratedIsV4 | services/oaid_manager/src/oaid_service.cpp:64-78 | every generated identifier is 36 characters with version 4 and variant 8, 9, a or b |
| Uuid.V4IsGenerated | services/oaid_manager/src/oaid_service.cpp:64-78 | and every such text can be generated |
| Uuid.GeneratedIsNonzero | services/oaid_manager/src/oaid_service.cpp:255-258 | a generated identifier is neither empty nor the all-zero one |
| OaidService.OAIDService.GainOAID | services/oaid_manager/src/oaid_service.cpp:237-266 | reply, memory and store in every case: the memory wins over the store, the store over a new identifier, and the store is written only when nothing usable was read |
| OaidService.OAIDService.ResetOAID | services/oaid_manager/src/oaid_service.cpp:276-296 | a new version 4 identifier in memory, in the store if the write succeeds, and told to the observer; no change when generation fails |
| OaidService.OaidObserverManager.RegisterObserver | services/oaid_manager/src/oaid_observer_manager.cpp:35-49 | replaces the observer and tells it the current identifier at once; memory and store change as GainOAID changes them; a null observer changes nothing |
| OaidService.OaidObserverManager.OnUpdateOaid | services/oaid_manager/src/oaid_observer_manager.cpp:51-61 | tells exactly the registered observer, if any |
| OaidProtocol.IdentifierStability | services/oaid_manager/src/oaid_service.cpp:237-287 | in every run of one process life all non-zero identifiers returned between two assignments of Resets are equal, whatever store accesses fail |
| OaidProtocol.StepStable | services/oaid_manager/src/oaid_service.cpp:237-287 | every step keeps the memory equal to each identifier that is still live |
| OaidProtocol.Agreement | services/oaid_manager/src/oaid_service.cpp:237-296 | in every run, whatever accesses fail, Resets overlap and restarts fall in between: memory is empty or stored if and only if the run has not diverged |
| OaidProtocol.AgreementUnlessStale | services/oaid_manager/src/oaid_service.cpp:284-288 | with succeeding store accesses, overlapping Resets and restarts anywhere: whenever no write is outstanding, memory and store agree if and only if the last write was not that of an overtaken Reset |
| OaidProtocol.AgreementWithoutOverlap | services/oaid_manager/src/oaid_service.cpp:284-288 | so without overlapping Resets they agree between writes, wherever restarts fall |
| OaidProtocol.Persistence | services/oaid_manager/src/oaid_service.cpp:237-296 | as long as no step loses a live identifier, identifiers survive any number of restarts until a Reset, even when writes fail and Resets overlap; a live identifier is stored if and only if the run has not diverged |
| OaidProtocol.StepSafeExactly | services/oaid_manager/src/oaid_service.cpp:244-265 | for every such run and every next step: the step is safe for all that may follow it unless it is a restart in a divergence or a failing read with the memory empty, while an identifier is live; and then it is unsafe |
| OaidProtocol.LossAfterRead | services/oaid_manager/src/oaid_service.cpp:245-263 | after such a failing read the Gain generates, returns and stores another identifier |
| OaidProtocol.LossNeedsPendingReset | services/oaid_manager/src/oaid_service.cpp:284-288 | with succeeding accesses and no overlapping Resets, a live identifier that is not stored is the one whose Reset has assigned and not yet written |
| OaidProtocol.RestartLosesIdentifier | services/oaid_manager/src/oaid_service.cpp:284-288 | a run without a failing access in which a restart between the two writes of a Reset loses a returned identifier |
| OaidProtocol.WriteStoresLive | services/oaid_manager/src/oaid_service.cpp:253-265 | in every run of one process life, whatever accesses fail, each write of GetOAID that succeeds stores every live identifier |
| OaidProtocol.LateStore | services/oaid_manager/src/oaid_service.cpp:253-265 | when nothing usable is stored, the next uninterrupted GetOAID stores and returns the live identifier, however many writes failed before |
| OaidProtocol.OverlappingResetsDisagree | services/oaid_manager/src/oaid_service.cpp:284-294 | a run of two Resets that write and tell in the other order than they assign, after which memory holds another identifier than the store and the observer |
| OaidProtocol.ObserverAgreement | services/oaid_manager/src/oaid_service.cpp:282-294 | in every run: whenever no Reset is between assignment and delivery, what a Reset last told the observer manager is the identifier in memory if and only if that Reset had not been overtaken |
| OaidProtocol.GainAlone | services/oaid_manager/src/oaid_service.cpp:244-265 | a Gain that no other step interrupts does what the object's method does |
| OaidProtocol.ResetAlone | services/oaid_manager/src/oaid_service.cpp:276-296 | a Reset that no other step interrupts does what the object's method does |
| OaidProtocol.DenyAlone | services/oaid_manager/src/oaid_service.cpp:240-243 | a Gain that the gate stops answers all zeros and touches nothing |

## Left out

- Draining while connected: not promised, since notifyKit reads the state before it enqueues; ConnectAdsDrain.EmptyUnlessLeft says exactly when a code stays queued.
- Outstanding connections: not bounded by one, since a late disconnect callback may arrive while connecting; ConnectAdsConnects.OutstandingExactly gives the exact bound.
- OaidProtocol.Persistence: not claimed for the losing steps, which OaidProtocol.StepSafeExactly proves to be exactly the unsafe ones.
- Transporter.Send: nothing is claimed for an encoding of 2^32 bytes or more, where the size is cut to 32 bits.
- Reader on other bytes: the copy of a scalar's payload has no size check of its own; it appears as the outcome Overread, and what happens after one is not modelled.
- GreedyMerge.MergeTimeList: the output vector starts empty, as at its only call; the 32-bit sum of merged counts is a plain integer.
- Interleavings of table operations: between the name query and the deletes of a cleanup pass the lock is free; the model runs the pass as one operation.
- Order of query results: the SQL engine may return rows in any order; rows are kept in insertion order, and the order-independence lemmas make that choice immaterial to the report. The row id column is not modelled.
- InsertAccessRecord over IPC: the stub writes a bool where the proxy reads an integer, so the error code seen by the client is not modelled.
- WriteQueryParams: the proxy omits empty names from the parcel while the stub always reads two; only calls with both names, or directly on the service, are modelled.
- RequestAuthorization: reads the same answer as GetAncoOaid and changes nothing.
- Coupling of components: the under-age check and ResetOAID also call notifyKit; each component is modelled on its own, the gate being a parameter.
- Registering an observer while Resets run: registration is modelled for one thread; deliveries of Resets are modelled under concurrency.
- Permission checks, trust lists, configuration files, client loading and timeouts, bundle manager proxies, JavaScript bindings, unload timers and logging: calls into libraries or glue with only easy members.
