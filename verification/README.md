# Change replication and snippet printing

A model of how the database connectors keep the search index a faithful copy of a
source table, and of the printer that turns search snippets into JSON. Each file is
one module.

| file | what it models |
|---|---|
| `Wrappers.dfy` | optional values |
| `Index.dfy` | the index as a map with partial insert, delete and update, a document limit and a schema check; what each call answers; the document count over runs |
| `Server.dfy` | the internal-id index behind that map, as a class, and the adapter class the connectors call |
| `ChangeLog.dfy` | source tables, valid change logs, and the theory of replaying a log on an index that may already be ahead of it |
| `Oracle.dfy`, `SqlServer.dfy`, `Sqlite.dfy`, `Mongo.dfy`, `MySql.dfy` | one listener each: a class for the connector, a specification of its runs, and convergence of those runs |
| `Text.dfy` | splitting text at a delimiter, joining, decimal numbers |
| `Snippets.dfy` | the JSON escaper and object printer, and a reader for the part of RFC 8259 they use |
| `Acl.dfy` | the erase-while-iterating partition of record ids |

`dafny verify dfyconfig.toml` checks everything.

## How the parts fit

A connector is a class whose methods mirror the loops of its source file; each method is
proved against a function of its inputs (`Run`, `Scan`, `Applied`, ...). The theorems are
about those functions, over every run. Fetches are inputs: a list of rows and how the
fetching ended, so an I/O failure at any point is just another schedule. The listeners'
endless outer loops run over a finite schedule here.

The argument shared by the log-based listeners is in `ChangeLog`. Call the table after
`m` changes `Table(log, m, t)`. While change `i` is replayed on an index that an earlier
attempt took as far as change `h`, every key shows a value the source had somewhere
between `i` and `h` (`Replaying`). One replayed command keeps this with `i + 1`, starting
over keeps it with a smaller `i`, and when `i` reaches the end of the log there is only one
table left to be. Mongo needs a variant (`Rereading`), because its updates send the
document as it is when the entry is read: a key may also show a row that the log still
deletes. Updates onto reused keys need another (`Shows` and `Missing`): either each key is
at a value the source still has ahead, or a row is missing for good. SQL Server's batches
are net changes without order, so there the argument is per key, between two tables.

## Hypotheses

- Keys and values are taken after trimming. A log is valid when each insert is fresh,
  each delete and update names a present row, and an updated row does not collide.
- No fetched column is NULL for Oracle and SQL Server, apart from the joined columns of a
  deleted row, which are not used. These listeners read a column from a buffer that a NULL
  leaves at an earlier row's text, so with a NULL a record could depend on the row before.
- For convergence the document limit covers every key the table or the log names and the
  schema accepts the records (`Roomy`, `Fits`); the document-limit theorems themselves have
  no such hypothesis.
- Oracle: the change table records the source's own log (`Oracle.Describes`): an `I ` row
  with the new record, a `D ` row with the key, and for an update a `UO` or `UU` row with the
  old key and a `UN` row with the new record, in either order, with only inserts and deletes
  between them; each log has such rows (`RowDescribes`, `UpdateDescribes`).
  RSID$ never decreases along the change table, and rows of one RSID$ come in
  table order (the query orders by RSID$ alone). What a finished poll sees ends at a
  transaction boundary; a failed poll may see anything. For convergence no finished poll
  ends between the halves of an update: `SentIffWhole` shows that this is exactly what the
  delivery of the log needs, and `SplitPairIsLost` an instance. For `Convergence` and
  `RunConverges` an update that changes the key moves to a key not named earlier in the
  log, a test of the log alone. `ConvergesIff` and `RunConvergesIff` have no such
  hypothesis and give the exact condition, the guard of the branch that gives up on an
  absent old key. Runs without failures need neither (`CleanRunCatchesUp`).
- SQL Server: for `RunConverges` a poll after a failed one sees the table unchanged, and
  an insert is of a key the table at the watermark did not have, an update of one it had
  (`Classified`). `LastPollLandsIff` drops both and says exactly when a last finished poll
  lands after any schedule, `TwoAttemptsIff` says it in terms of what a failed attempt had
  sent, and `ChangedBatchIsRefused` shows an instance.
- SQLite: log rows come in date order, rows of one second in the order written (the query
  orders by date alone). For `ExactlyOnce` and `RunConverges` no event of the run stops
  inside a second; `DeliversAllIff` shows that this is exactly what full delivery needs,
  `StrictIsClean` that distinct dates give it, and `SameSecondIsLost` what happens otherwise.
- Mongo: in the log that all collections of the server share, the times of the
  collection's own entries never decrease, `_id` never changes, the collection is never
  behind the entry being read, and reads of updated documents do not answer an error
  document.
  The listener can take the unique key from every delete and update entry (`Describes`):
  an update's `o2` and a delete's `o` hold the field, as a string or as an ObjectId under
  `_id` (`KeysAgreeIff`). Otherwise the entry does nothing, without an error
  (`WithoutKeyNothingHappens`); so it is for every update where the unique key is another
  field than those MongoDB logs.
- MySQL: complete rows in the row events of the source table. Each row event belongs to a
  table of its own (`of`), which the listener cannot see: it goes by the table map for the
  event's number, and it passes over events older than an earlier one. `RestartsConverge`
  needs the applier to hear, from each saved place on, just the table's events
  (`Covered`). `SentIsLogIff` gives the exact meaning of that for every stream, in whatever
  order; `PartedFromItsMapIsLost`, `OtherTableIsApplied` and `LateRowIsLost` show the ways to
  miss it, and `RunIsCovered` gives streams that are safe wherever the listener stops. The
  saved place is never ahead of the saved index (`Possible`): the index is saved first, so
  an event handled between the two saves would break that. No two events start at the
  same file and position (`Identified`), and the server still has the saved file.

## Where code and comments differ

The model follows the code.

- `src/adapter/DataConnector.h:83-85` says 0 means success; `updateRecord` answers 0 also when
  the new record was refused and the old one is gone (`Index.UpdateOutcome`).
- `include/instantsearch/Indexer.h:135-142` says the delete calls delete all records; they
  delete the one with the key.
- `src/server/HTTPRequestHandler.cpp:177` says a bare quote had no backslash before it; one
  can be there if a filtered character stands between them. The output is right all the
  same.
- The test for unprintable characters in the escaper compares a `char` with 32, so where
  `char` is signed it also drops every byte from 128 on. Both readings of `char` are
  covered by a parameter.
- Where SQL fetches answer "success with info", the Oracle and SQL Server listeners take
  the error branch; such a fetch is an error here too.

## Model

| member | source | states |
|---|---|---|
| `Server.Indexer.AddRecord` | src/core/operation/IndexData.cpp:335-443 | the internal-id index behaves as a map: a duplicate key is refused and changes nothing, a fresh key is added; a record with an empty key always goes in, beside the map, since no lookup finds it; the document counter stays the number of records of both kinds |
| `Server.Indexer.DeleteRecordGetInternalId` | src/core/index/ForwardIndex.cpp:1645-1657 | removes exactly the given key, or fails and changes nothing; answers an internal id under which the deleted record is still stored |
| `Server.Indexer.RecoverRecord` | src/core/index/ForwardIndex.cpp:1661-1675 | given that id and a key that is free, brings the old record back under its key; refused when the key is taken |
| `Server.ServerInterface.InsertCommand` | src/server/IndexWriteUtil.cpp:49-105 | schema check, document limit and duplicate check, in that order, over the map view |
| `Server.ServerInterface.InsertRecord` | src/adapter/ServerInterfaceInternal.cpp:57-84 | insert refines the partial map operation, unparsable text included |
| `Server.ServerInterface.DeleteRecord` | src/adapter/ServerInterfaceInternal.cpp:87-119 | delete refines the partial map operation; the empty key is refused |
| `Server.ServerInterface.UpdateRecord` | src/adapter/ServerInterfaceInternal.cpp:126-180 | the delete / count check / insert-or-recover sequence, over the internal-id index, refines one map operation; the recovery undoes the delete exactly |
| `Index.InsertAnswer` | src/adapter/ServerInterfaceInternal.cpp:57-84 | an insert answers 0 if and only if the index grew by the record: the text is JSON, the schema takes the record, there is room and the key is free; otherwise nothing changes |
| `Index.DeleteAnswer` | src/adapter/ServerInterfaceInternal.cpp:87-119 | a delete answers 0 if and only if the index shrank: the key is not empty and present; that record goes and no other, otherwise nothing changes |
| `Index.UpdateOutcome` | src/adapter/ServerInterfaceInternal.cpp:142-179 | for every index, key and payload: an update never adds a document; it loses one if and only if the old key is there, the count allows the insert and the insert is then refused (by the schema or by another record under the new key), above the limit nothing changes; otherwise the record is replaced; it answers failure, and changes nothing, if and only if the text is not JSON or a non-empty old key is absent, so a lost document is answered with success |
| `Index.CountOverRuns` | src/adapter/ServerInterfaceInternal.cpp:141-176 | over any run of commands a kept document limit stays kept, and a run of updates and deletes never raises the count |
| `Index.RecoveryNeedsOverfullIndex` | src/adapter/ServerInterfaceInternal.cpp:154-176 | along every run that starts within the limit an update that finds its key takes the insert branch: the recovery call is reached only in an index loaded over its limit |
| `ChangeLog.CatchUp` | src/adapter/ServerInterfaceInternal.cpp:57-180 | executing a valid log once from the source table follows the source at every prefix, key-changing updates included, in an engine with room |
| `ChangeLog.CatchUpSucceeds` | src/adapter/DataConnector.h:43-87 | every call of such a catch-up answers 0 |
| `ChangeLog.ValidIffHonoured` | src/adapter/ServerInterfaceInternal.cpp:57-180 | what a valid change is: one that an engine with room, whose schema takes the record, carries out in full |
| `ChangeLog.RoomyExecAll` | src/server/IndexWriteUtil.cpp:73-102 | when the limit covers every key the table or log names and the schema accepts the records, the engine refuses only duplicates and missing keys, on any selection of logged commands replayed from any such state |
| `ChangeLog.ReplayKey` | src/adapter/ServerInterfaceInternal.cpp:142-177 | replaying one change on an index that is ahead of it leaves each key with a value the source still has ahead, or sets it right |
| `ChangeLog.ReplayStep` | src/adapter/ServerInterfaceInternal.cpp:57-180 | the whole-index form of that, the invariant every replay rests on |
| `ChangeLog.Convergence` | db_connectors/oracle/oracleconnector.cpp:503-629 | whatever prefixes of a valid log earlier attempts replayed, in whatever order, one full pass leaves exactly the source table; key-changing updates allowed if they move to keys not named earlier in the log |
| `ChangeLog.ConvergesIff` | src/adapter/ServerInterfaceInternal.cpp:142-177 | for every valid log, with no condition on its key-changing updates: after whatever earlier attempts, a full pass ends at the source table if and only if it never executes an update whose old and new key are both absent from the index while no later change takes the new key away |
| `ChangeLog.ShowsRange` | src/adapter/ServerInterfaceInternal.cpp:142-177 | the same for any stretch of a log: without such an update every key stays at a value the source still has ahead, with one a key is missing that the source keeps |
| `ChangeLog.MissingRange` | src/adapter/ServerInterfaceInternal.cpp:146-151 | a row once lost that way is never brought back by the rest of the log |
| `ChangeLog.FreshIsLossless` | src/adapter/ServerInterfaceInternal.cpp:146-151 | moving rows only to keys not named earlier in the log rules such updates out, whatever attempts failed before |
| `ChangeLog.RenameOntoDeletedKeyIsLost` | src/adapter/ServerInterfaceInternal.cpp:146-151 | why that condition is there: delete b, rename a to b, replayed once more, loses b although the log is valid |
| `Oracle.PairingCorrect` | db_connectors/oracle/oracleconnector.cpp:528-532 | for every batch whose half rows pair up: what the two flags send is each insert and delete in place and one update at the second row of each pair, with that pair's old key and new record; at every loop head at most one flag is up, and one is up exactly when a pair is open |
| `Oracle.CommandsSlice` | db_connectors/oracle/oracleconnector.cpp:528-613 | a batch that starts at a closed pair and stops anywhere sends exactly its slice of the whole log's commands, whatever stale values the registers hold |
| `Oracle.SendsTheLog` | db_connectors/oracle/oracleconnector.cpp:582-609 | for every log of the source and every change table that records it, told apart by the literal operation texts: the listener's commands are that log, and no flag is left up |
| `Oracle.RowDescribes` | db_connectors/oracle/oracleconnector.cpp:471-473 | an insert or delete is recorded by one row |
| `Oracle.UpdateDescribes` | db_connectors/oracle/oracleconnector.cpp:471-473 | an update is recorded by its two rows in either order, under either text for the old one, around inserts and deletes that come last; so every log has rows that record it |
| `Oracle.AboveIsSuffix` | db_connectors/oracle/oracleconnector.cpp:475-484 | the RSID$ query from a transaction boundary answers the rows from there on, no more and no less |
| `Oracle.PollMoves` | db_connectors/oracle/oracleconnector.cpp:615-626 | one poll never lowers the watermark, leaves it alone when it fails, whatever it saw, and moves the listener from one transaction boundary to another |
| `Oracle.PollSends` | db_connectors/oracle/oracleconnector.cpp:534-613 | one poll from a closed point, finished or failed at any row, sends exactly the changes that the rows it got record, in the source's order |
| `Oracle.WatermarkSafety` | db_connectors/oracle/oracleconnector.cpp:534-626 | over every run: the rows at or below the watermark are exactly the rows that completed batches delivered, each once and in order |
| `Oracle.CleanRunCatchesUp` | db_connectors/oracle/oracleconnector.cpp:503-626 | in any run whose polls all finish, for every valid log of the source, key-changing updates included: every command succeeds and the index is the source table at the watermark |
| `Oracle.UpdatesCost` | db_connectors/oracle/oracleconnector.cpp:528-609 | whatever rows a batch has, an update uses up two of its half rows |
| `Oracle.SentIffWhole` | db_connectors/oracle/oracleconnector.cpp:528-626 | for every log, every change table that records it and every schedule that ends with a full poll: the completed batches send exactly the log if and only if none of them ended between the halves of an update |
| `Oracle.PollKeepsTrack` | db_connectors/oracle/oracleconnector.cpp:503-629 | each poll, finished or failed at any row, keeps the index on its way through the log from where the watermark stands |
| `Oracle.RunConverges` | db_connectors/oracle/oracleconnector.cpp:503-629 | for every log of the source, every change table that records it and grows, and every schedule of polls failing anywhere, followed by one clean poll: index equals source table, watermark equals the last RSID$, every row in one completed batch |
| `Oracle.RunConvergesIff` | db_connectors/oracle/oracleconnector.cpp:503-629 | the same for every valid log of the source, rows moved onto any free key included: after the last clean poll the index is the source table if and only if no finished poll of the run executed an update with both keys absent whose new key the source keeps |
| `Oracle.RenameIsLostInRun` | db_connectors/oracle/oracleconnector.cpp:503-629 | the failing case is real: three rows, a failed poll and a clean one meet every hypothesis and end with an empty index |
| `Oracle.SplitPairIsLost` | db_connectors/oracle/oracleconnector.cpp:528-532 | why both halves of an update must be visible to the same poll: otherwise the update is never sent, be the second RSID$ later or the same |
| `Oracle.OracleConnector.ProcessRow` | db_connectors/oracle/oracleconnector.cpp:582-609 | the dispatch and flag handling of one fetched row is one step of the pairing |
| `Oracle.OracleConnector.PollOnce` | db_connectors/oracle/oracleconnector.cpp:528-626 | the fetch loop: the engine has executed the paired commands of what was fetched, and the watermark is the batch maximum or unchanged |
| `Oracle.OracleConnector.RunListener` | db_connectors/oracle/oracleconnector.cpp:449-632 | the outer loop over a finite schedule refines the run the theorems speak of |
| `Mongo.MongoDBConnector.ParseOpLogObject` | db_connectors/mongo/mongodbconnector.cpp:371-493 | each kind of entry, malformed ones, missing documents and keys of other types included, does to the index what the specification of one entry says |
| `Mongo.KeysAgreeIff` | db_connectors/mongo/mongodbconnector.cpp:403-410 | the key the listener takes from a document is the one the engine stores it under if and only if the value is a string, or an ObjectId under `_id`; otherwise it is empty |
| `Mongo.WithoutKeyNothingHappens` | db_connectors/mongo/mongodbconnector.cpp:471-484 | a delete or update without such a key leaves the index as it is |
| `Mongo.NothingElseHappens` | db_connectors/mongo/mongodbconnector.cpp:373-493 | nor does an entry of any other operation, an update whose document is gone, or an insert without an object |
| `Mongo.DescribedIsProcessed` | db_connectors/mongo/mongodbconnector.cpp:384-487 | an entry told by its letter, small or capital, is executed as the change it records: an insert with the record its document holds, a delete or update by the key it names, whatever the field's type |
| `Mongo.EveryChangeIsDescribed` | db_connectors/mongo/mongodbconnector.cpp:384-410 | each insert and delete, and each update that keeps the key, has an entry that records it under either letter; an update that moves the row has none |
| `Mongo.MongoDBConnector.TailOplog` | db_connectors/mongo/mongodbconnector.cpp:292-363 | one connection: watermark filter, processing, and the exception that sets the watermark to the last entry time seen, zero if none |
| `Mongo.MongoDBConnector.TakeTurn` | db_connectors/mongo/mongodbconnector.cpp:290-364 | one connection over the shared oplog is one turn of the run |
| `Mongo.MongoDBConnector.RunListener` | db_connectors/mongo/mongodbconnector.cpp:290-365 | the reconnecting loop over the shared oplog refines the run the theorems speak of |
| `Mongo.OtherCollectionsIgnored` | db_connectors/mongo/mongodbconnector.cpp:312-330 | scanning the log that all collections share is scanning the collection's own entries: same index, same times, and each own entry handled in the one is handled in the other |
| `Mongo.ProcessIsReread` | db_connectors/mongo/mongodbconnector.cpp:418-487 | in an engine with room an entry acts as logged, except that an update sends the document as the collection holds it when the entry is read, or nothing if it is gone |
| `Mongo.RereadKey` | db_connectors/mongo/mongodbconnector.cpp:418-487 | doing so, at any later state of the collection, keeps each key at a value the collection has from here on, or one the log still deletes |
| `Mongo.ScannedStep` | db_connectors/mongo/mongodbconnector.cpp:309-330 | within a connection, over the collection's own entries: skipped entries and processed entries both keep index, times and the set of handled entries in step |
| `Mongo.TurnResumable` | db_connectors/mongo/mongodbconnector.cpp:357-363 | an exception anywhere in the shared log, even inside an entry and even though it may move the watermark backwards, leaves the listener fit to resume; no entry of the collection that was read went unhandled |
| `Mongo.RunResumable` | db_connectors/mongo/mongodbconnector.cpp:290-365 | loses nothing: over any run on the shared log every entry of the collection that was passed, from the starting watermark on, was processed in that connection or an earlier one |
| `Mongo.AnyTurnIsPossible` | db_connectors/mongo/mongodbconnector.cpp:309-363 | a connection may read any number of entries and be torn at any of them |
| `Mongo.RunConverges` | db_connectors/mongo/mongodbconnector.cpp:290-493 | after any connections broken by exceptions, one that reads to the end of the shared log leaves the index equal to the collection, even if the collection kept changing while entries were read; and every entry of the collection at or after the starting watermark was handled |
| `MySql.KeysAgree` | db_connectors/mysql/mysqlEventHandler.cpp:161-216 | the key a delete extracts from a row is the one an insert of that row stores, and is missing from the one exactly when from the other |
| `MySql.RowIsRead` | db_connectors/mysql/mysqlEventHandler.cpp:161-188 | the record sent for a row is the one the source has for it: each column's own value, the key column's as key |
| `MySql.InsertThenDelete` | db_connectors/mysql/mysqlEventHandler.cpp:161-216 | inserting a row under a fresh key and deleting it restores the index, whether or not the engine takes the row |
| `MySql.EventSplits` | db_connectors/mysql/mysqlEventHandler.cpp:134-153 | for every event of complete rows the row loop sends exactly its changes in order, each update as a delete and an insert |
| `MySql.FilterIsRunningMax` | db_connectors/mysql/mysqlEventHandler.cpp:90-97 | the applier's private time is the maximum of the start time and all row-event times, which is also what the connector's own time is |
| `MySql.PassedOverIff` | db_connectors/mysql/mysqlEventHandler.cpp:92-97 | an event is passed over by the time filter if and only if it is older than the start or than some earlier row event, of any table |
| `MySql.SplitMeansTheSame` | db_connectors/mysql/mysqlEventHandler.cpp:218-230 | splitting updates into delete and insert keeps a valid log valid and its meaning unchanged |
| `MySql.ReplayHarmless` | db_connectors/mysql/mysqlEventHandler.cpp:134-230 | for every valid row log, key-changing updates included, earlier partial replays never change the final index |
| `MySql.ResolvesIff` | db_connectors/mysql/mysqlEventHandler.cpp:100-125 | the applier recognises a row event if and only if the first table map for its number, before it in the stream, has the configured name up to case |
| `MySql.TakesIff` | db_connectors/mysql/mysqlEventHandler.cpp:90-125 | the applier takes a row event up if and only if the event resolves to the configured name and is not older than the start or an earlier row event of any table |
| `MySql.OrderedIsNotLate` | db_connectors/mysql/mysqlEventHandler.cpp:92-97 | in a stream in time order no event is passed over |
| `MySql.Balance` | db_connectors/mysql/mysqlEventHandler.cpp:86-158 | over every stream, in whatever order: commands sent and commands dropped make up the table's split log and what other tables' events sent; with none dropped and none foreign, the commands sent are that log |
| `MySql.DroppedIff` | db_connectors/mysql/mysqlEventHandler.cpp:92-106 | nothing is dropped if and only if every row event of the table resolves to the configured name and none is late |
| `MySql.ForeignIff` | db_connectors/mysql/mysqlEventHandler.cpp:92-125 | nothing foreign is sent if and only if every row event of another table, in whatever database, that resolves to the configured name is late or has nothing to send |
| `MySql.SentIsLogIff` | db_connectors/mysql/mysqlEventHandler.cpp:86-158 | over every stream, in whatever order: nothing dropped and nothing foreign if and only if the applier hears the table's row events and no others, and then the commands sent are the split log of the table; where only one of the two goes wrong the commands differ from that log |
| `MySql.ResolvesWhenTruthful` | db_connectors/mysql/mysqlEventHandler.cpp:100-125 | where no number is reused, an event is recognised if and only if it has its table map earlier in the stream and its table's name, without the database, is the configured one up to case |
| `MySql.LowerIff` | db_connectors/mysql/mysqlEventHandler.cpp:112-121 | two names pass the listener's test if and only if they have one length and at each position the same character or the two cases of one ASCII letter |
| `MySql.PlaceIsPosition` | db_connectors/mysql/mysqlconnector.cpp:396-445 | the file and position a listener holds are where the first event it has not handled starts, counting back over trailing table maps |
| `MySql.LookupFinds` | db_connectors/mysql/mysqlconnector.cpp:394-399 | where no two events start at one place, the server finds for that file and position just that event |
| `MySql.SavedPlaceIsFound` | db_connectors/mysql/mysqlconnector.cpp:269-358 | what one life saves, as text, is loaded by the next as the same place and time, as long as the server still has the file |
| `MySql.NothingSavedStartsOver` | db_connectors/mysql/mysqlconnector.cpp:313-330 | with nothing saved the listener starts at the first event of the oldest binlog and takes rows from now on, and it does the same when what was saved is in a binlog that is gone |
| `MySql.PlaceIsCovered` | db_connectors/mysql/mysqlconnector.cpp:443-445 | where the applier hears just the table's events from the start, and each of them comes right behind its statement's table maps, the same holds from every place the position can stand at |
| `MySql.RunIsCovered` | db_connectors/mysql/mysqlconnector.cpp:361-448 | so over such a stream every run of restarts is |
| `MySql.PartedFromItsMapIsLost` | db_connectors/mysql/mysqlconnector.cpp:443-445 | two row events share a table map and the place is saved between them: after the restart the second row never arrives |
| `MySql.OtherTableIsApplied` | db_connectors/mysql/mysqlEventHandler.cpp:112-125 | rows of a table of the same name in another database, or of a name that differs in case only, go into the index |
| `MySql.LateRowIsLost` | db_connectors/mysql/mysqlEventHandler.cpp:92-97 | a row of the table that comes after a row event with a later time, even of a table the listener does not know, never arrives |
| `MySql.RestartsConverge` | db_connectors/mysql/mysqlconnector.cpp:361-448 | start the listener any number of times from its saved place and time, with no table names; each life ends anywhere, even inside an event, and saves its place anywhere on the way: if from each saved place on the applier hears just the table's events, the life that gets through leaves the index equal to the source table, events out of time order included |
| `MySql.ResumeComparesNumbers` | db_connectors/mysql/mysqlconnector.cpp:296-323 | for file names without a dot in the base the resume choice compares the true binlog numbers, whatever the padding |
| `MySql.DottedBaseForgets` | db_connectors/mysql/mysqlconnector.cpp:299-304 | with a dot in either base the saved place is always dropped in favour of the default file |
| `MySql.MySQLApplier.TableInsert` | db_connectors/mysql/mysqlEventHandler.cpp:161-188 | the do-while over fields and columns builds the row's record and sends it |
| `MySql.MySQLApplier.TableDelete` | db_connectors/mysql/mysqlEventHandler.cpp:190-216 | the do-while finds the key column and deletes by it, or sends nothing |
| `MySql.MySQLApplier.TableUpdate` | db_connectors/mysql/mysqlEventHandler.cpp:218-230 | delete of the old row, then insert of the new one, unconditionally |
| `MySql.MySQLApplier.ApplyChange` | db_connectors/mysql/mysqlEventHandler.cpp:136-151 | one turn of the row loop; an update consumes two rows |
| `MySql.MySQLApplier.ApplyRows` | db_connectors/mysql/mysqlEventHandler.cpp:134-153 | the two-speed iterator loop ends exactly at the end of the rows and has sent the event's commands |
| `MySql.MySQLApplier.ProcessTableMap` | db_connectors/mysql/mysqlEventHandler.cpp:44-51 | the first name registered for a table id stays |
| `MySql.MySQLApplier.ProcessRows` | db_connectors/mysql/mysqlEventHandler.cpp:86-159 | time filter, table lookup and case-insensitive name check decide whether the rows are applied; the time moves even for other tables |
| `MySql.MySQLConnector.LoadLastAccessedLogRecordTime` | db_connectors/mysql/mysqlconnector.cpp:269-335 | the three fields after the resume choice, in every case |
| `MySql.MySQLConnector.HandleEvent` | db_connectors/mysql/mysqlconnector.cpp:396-447 | one turn of the loop: the applier's handlers first, a table map goes no further, then time, file and position |
| `MySql.MySQLConnector.RunListener` | db_connectors/mysql/mysqlconnector.cpp:394-447 | after any events: the connector's time is the running maximum (equal to the applier's at every loop head), file and position follow the last event that is not a table map, and the engine has executed what the applier sent |
| `MySql.MySQLConnector.Live` | db_connectors/mysql/mysqlconnector.cpp:338-448 | load whatever was saved, if anything, resume, handle events, save: together one session of the run, and what is saved is where the event at the new place starts |
| `SqlServer.OrderIndependent` | db_connectors/sqlserver/sqlserverconnector.cpp:478-488 | any two orders of a batch with one row per key leave the same index and the same watermark |
| `SqlServer.BatchLandsIff` | db_connectors/sqlserver/sqlserverconnector.cpp:533-597 | a batch that lists what changed brings an index to the current table if and only if its inserted keys are free or already right, its updated keys are present, and unlisted keys are as before, whatever operations the rows carry |
| `SqlServer.PartKeepsMixed` | db_connectors/sqlserver/sqlserverconnector.cpp:533-597 | any part of a net batch, in any order, leaves each key at its old or its new value |
| `SqlServer.TwoAttemptsIff` | db_connectors/sqlserver/sqlserverconnector.cpp:533-597 | a batch after a failed attempt lands if and only if each row already sent is bearable: an insert is listed again with the same record, a deleted key does not come back as an update, and a key no longer listed was sent nothing new |
| `SqlServer.ChangedBatchIsRefused` | db_connectors/sqlserver/sqlserverconnector.cpp:574-577 | why a failed batch must be retried unchanged: a row inserted, then changed between attempts, stays at its first value |
| `SqlServer.PollKeepsTrack` | db_connectors/sqlserver/sqlserverconnector.cpp:532-610 | one poll never lowers the watermark, leaves it alone when it fails, and keeps the index between the watermark's table and the visible one |
| `SqlServer.PollSends` | db_connectors/sqlserver/sqlserverconnector.cpp:532-610 | from the table at the watermark, one poll leaves the keys of the rows that arrived - all of a finished poll, the first few of a failed one - as those rows say, and every other key as it was |
| `SqlServer.OtherRowsAreSkipped` | db_connectors/sqlserver/sqlserverconnector.cpp:533-597 | a row of an operation other than I, U and D sends nothing, but its version counts |
| `SqlServer.RunConverges` | db_connectors/sqlserver/sqlserverconnector.cpp:506-613 | for every schedule in which a failed poll is retried on the same table: a finished poll leaves index and watermark at the table and version it saw |
| `SqlServer.LastPollLandsIff` | db_connectors/sqlserver/sqlserverconnector.cpp:506-613 | after any schedule, the table changing as it likes: a last finished poll moves the watermark to the version it saw, and the index to that table if and only if the index was ready for its batch |
| `SqlServer.SQLServerConnector.PollOnce` | db_connectors/sqlserver/sqlserverconnector.cpp:531-610 | the fetch loop sends the rows in the order fetched and moves the watermark to the batch maximum only if it finishes |
| `SqlServer.SQLServerConnector.RunListener` | db_connectors/sqlserver/sqlserverconnector.cpp:448-616 | the outer loop over a finite schedule refines the run |
| `Sqlite.SchemaIgnoresOrder` | db_connectors/sqlite/sqliteconnector.cpp:531-549 | the schema map depends on which columns the table has, not on the order it declares them in |
| `Sqlite.BeforeIsLexicographic` | db_connectors/sqlite/sqliteconnector.cpp:531-549 | that map is kept in dictionary order: at the first difference the smaller character, or the end of the text, comes first |
| `Sqlite.ColumnList` | db_connectors/sqlite/sqliteconnector.cpp:453-461 | the look-ahead comma loop of CREATE TABLE and of the three triggers prints a proper comma-separated list |
| `Sqlite.DeclaredAsIs` | db_connectors/sqlite/sqliteconnector.cpp:448-462 | each declaration of CREATE TABLE reads back as its column's name and type |
| `Sqlite.PrintTuple` | db_connectors/sqlite/sqliteconnector.cpp:632-709 | the text of a trigger's inserted row: key, time, letter and value list, for each of the three triggers |
| `Sqlite.TriggerTextWrites` | db_connectors/sqlite/sqliteconnector.cpp:632-709 | that text, split at its commas and evaluated over the row before and after a change, gives the log row of that change: the right key, the right letter, and each column of the right row in schema order |
| `Sqlite.TriggerListenerRoundTrip` | db_connectors/sqlite/sqliteconnector.cpp:327-379 | every change of every table, written by its trigger and read back by the listener, arrives as the same change: operation, old key and full record |
| `Sqlite.ExactlyOnce` | db_connectors/sqlite/sqliteconnector.cpp:299-420 | over any run of polls, interruptions and saves that stops between seconds, each log row is delivered once, in order and without gaps, and only delivered rows are pruned |
| `Sqlite.SavePrunesDelivered` | db_connectors/sqlite/sqliteconnector.cpp:570-589 | after clean stops a save leaves in the log table exactly the rows not yet delivered |
| `Sqlite.RunStops` | db_connectors/sqlite/sqliteconnector.cpp:299-420 | over any run of any log in date order: the watermark is the date of the last row fetched; with clean stops the rows up to there were delivered, each once and in order, and after any other the listener is short of rows or about to be |
| `Sqlite.FetchedFrom` | db_connectors/sqlite/sqliteconnector.cpp:315-394 | a poll gets the visible rows behind the last second fetched, all of them or, interrupted, the first few |
| `Sqlite.DeliversAllIff` | db_connectors/sqlite/sqliteconnector.cpp:299-420 | for every log in date order, rows sharing seconds as they like, and every run that ends with a full poll: all rows arrive, each once and in order, if and only if no event of the run stopped inside a second |
| `Sqlite.StrictIsClean` | db_connectors/sqlite/sqliteconnector.cpp:570-572 | with distinct dates no run ever does |
| `Sqlite.NextPollCompletesIff` | db_connectors/sqlite/sqliteconnector.cpp:570-572 | one stop and the select after it: together they get every row if and only if the stop did not fall inside a second |
| `Sqlite.SameSecondIsLost` | db_connectors/sqlite/sqliteconnector.cpp:570-572 | a row written in the same second just after a poll is never delivered |
| `Sqlite.RunConverges` | db_connectors/sqlite/sqliteconnector.cpp:299-420 | from source table through triggers, log table and polls to the index: in every run that stops between seconds the index is the source table after as many changes as were fetched, and after all of them once a poll finishes |
| `Sqlite.SQLiteConnector.ProcessRow` | db_connectors/sqlite/sqliteconnector.cpp:319-379 | one row: watermark first, then decoding, then the engine call, also with a record that has no key; fatal exactly when the cell count does not match the schema |
| `Sqlite.SQLiteConnector.PollOnce` | db_connectors/sqlite/sqliteconnector.cpp:315-394 | the step loop with busy retries: rows before the first undecodable one are sent, and the watermark is the date of the last row fetched |
| `Sqlite.SQLiteConnector.PollRows` | db_connectors/sqlite/sqliteconnector.cpp:315-394 | a poll that is never told the database is busy: the rows before the first undecodable one are sent, and the watermark is the date of the last row fetched |
| `Sqlite.SQLiteConnector.RunListener` | db_connectors/sqlite/sqliteconnector.cpp:293-427 | the listener loop over a finite run: index and watermark are those of the life it had, whether or not a row was fatal |
| `Sqlite.LiveIsRun` | db_connectors/sqlite/sqliteconnector.cpp:293-427 | a life that no fatal row ends is the run the theorems speak of |
| `Sqlite.DecodableIsNotFatal` | db_connectors/sqlite/sqliteconnector.cpp:352-359 | over a log whose rows all fit the schema no row is fatal |
| `Text.SplitString` | db_connectors/util/io.cpp:50-57 | the getline loop appends the pieces of the text to the caller's list |
| `Text.PiecesAreClean` | db_connectors/util/io.cpp:50-57 | no piece contains the delimiter |
| `Text.JoinOfSplit` | db_connectors/util/io.cpp:50-57 | joining the pieces gives the text back, less exactly one closing delimiter if it had one |
| `Text.SplitOfJoin` | db_connectors/util/io.cpp:50-57 | splitting a joined list of delimiter-free pieces gives the list back if and only if its last piece is not empty |
| `Text.NumberStops` | db_connectors/mysql/mysqlconnector.cpp:306-313 | a number is read from its decimal digits up to the first character that is none |
| `Snippets.CleanAndAppendToBuffer` | src/server/HTTPRequestHandler.cpp:166-196 | the index walk appends exactly the escaped input to the buffer |
| `Snippets.CleanOne` | src/server/HTTPRequestHandler.cpp:170-194 | one turn of that walk: what is appended, and where it goes on |
| `Snippets.EscapeReadsBack` | src/server/HTTPRequestHandler.cpp:166-196 | for every input the output is the inside of a JSON string (section 7 of RFC 8259) and reads back as the input with filtered characters dropped and each backslash-quote pair counted as one quote |
| `Snippets.EscapeIsPrintable` | src/server/HTTPRequestHandler.cpp:170-173 | no control character comes out, and where char is signed nothing but ASCII |
| `Snippets.LosslessIff` | src/server/HTTPRequestHandler.cpp:170-188 | the snippet reads back as the very input if and only if every code in it is at least 32, and below 128 where char is signed, and no quote came already escaped |
| `Snippets.NameReadsBackIff` | src/server/HTTPRequestHandler.cpp:644-644 | a field id, printed as it is, reads back as itself, whatever follows it, if and only if it has no character that needs escaping |
| `Snippets.TrailingIsJoin` | src/server/HTTPRequestHandler.cpp:646-657 | a comma after every item, less the last comma, is a proper join |
| `Snippets.ObjectReadsBack` | src/server/HTTPRequestHandler.cpp:642-658 | for every list of fields with plain ids the printed text is a JSON object (sections 4, 5 and 7 of RFC 8259) that reads back as every field, in order, with its cleaned snippets, in order |
| `Snippets.ObjectReadsBackIff` | src/server/HTTPRequestHandler.cpp:642-658 | and for every list of fields whatsoever: the object reads back as those fields and snippets if and only if every id is plain |
| `Snippets.MissingReadsBack` | src/server/HTTPRequestHandler.cpp:659-660 | the text printed for a record without snippets is a JSON array with no items |
| `Snippets.AppendField` | src/server/HTTPRequestHandler.cpp:644-655 | the append-and-erase loop over one field's snippets prints the joined list |
| `Snippets.GenSnippetJSONString` | src/server/HTTPRequestHandler.cpp:637-666 | appends the proper object text for the record's snippets, or the empty array, to the buffer |
| `Acl.IdLists.RemoveUnknown` | src/server/HTTPRequestHandler.cpp:1010-1020 | erasing while iterating keeps exactly the known ids and moves exactly the unknown ones, both in order |
| `Acl.Partitions` | src/server/HTTPRequestHandler.cpp:1010-1020 | the two lists together are the original ids, split by presence |
| `Acl.InOrder` | src/server/HTTPRequestHandler.cpp:1010-1020 | both lists keep the order of the ids: the lists of a joined list are the joined lists |

## Left out

- Connection set-up, client library calls, sleeping, endless retries, logging and buffer handling: input and output; a fetch is a list of rows and how it ended.
- Loading and saving the Oracle, SQL Server, SQLite and Mongo watermarks: one value written to and read from a file.
- `createNewIndexes`, and changes made between a full read and reading the starting watermark: the code does not protect them.
- `saveCommand` and `saveConnectorTimestamps` running beside a listener thread, the merge thread, and the index's locks: the methods here run one at a time.
- Trimming itself: the engine trims both ends of a stored key but a listener at most the right end of a deleted one, so a key with leading blanks would not match, and a key of blanks only would pass the schema and be stored as an empty one; the model starts from trimmed keys, and its schema lets no empty key through.
- 32-bit and 64-bit limits of counters, RSID$ values, versions and the number read by `strtoul`, except the cast of the saved MySQL position.
- Restarting Oracle, SQL Server or SQLite from an index image and a watermark saved at different moments: not covered by the source either.
- RunConverges: for Mongo, entries that an old capped oplog has dropped, and the reopened query by `_id` after a dead cursor, which depends on the server.
- MySQL type-conversion exceptions that abort an event.
- TriggerTextWrites: of the generated SQL only the column declarations and the triggers' value tuples are read back, for column names without a comma; the rest of the statements and SQLite's type affinity are not part of the model.
- ParseText: numbers, literals and the escape with four hexadecimal digits are left out of the reader, so it accepts less than RFC 8259 does; what it accepts is well-formed.
- The text of log messages, HTTP replies and the list of removed ids built for a warning.
