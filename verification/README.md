# A verified model of the WhatsApp gateway's conversations, history and media

A person on WhatsApp is addressed by phone number (`user@s.whatsapp.net`), by LID
(`user@lid`), and by either with a `:device` suffix. The gateway folds these forms onto one
address in three separately written places: when a message is filed, when a conversation is
read, and in a one-off SQL repair. Around that core sit a small concurrent rendezvous for
on-demand history, a lazy media cache, and a few exact encodings. This project models all of
them and proves what they promise.

The parts the source changes step by step are classes and methods with loops
(`Repository.Database` holds the tables, `Pending.PendingHistory` the waiter registry,
`Media.MediaFetcher` the disk, `Ledger.SchemaFile` the migration ledger, `Repair.RunRepair` the
SQL repair). Each method is proved to compute a function of the old state, and the theorems are
about those functions: single states, whole runs, and all interleavings.

## How to read it

| file | what it holds |
|---|---|
| `Text`, `Sorting` | Go and SQLite string primitives; a stable sort with its uniqueness theorem, ORDER BY's meaning |
| `Addresses` | the LID index and the three folds: `CanonicalJid` over `ParseJid` (write), `LeftJoin`/`Aliases` (read), `Repaired` (SQL) |
| `Folds` | on which strings the three compute the same address |
| `Messages`, `Conversations`, `Views` | the messages table; the queries over it; when two tables look the same to ListChats, ListByChat and OldestByChat |
| `Like`, `ChatNames` | SQLite's LIKE matcher with an escape, and the searches built on it |
| `Repository` | the database file as a class, one method per repository call |
| `Repair` | migration 0003 |
| `Intake`, `Runs` | live, history and send paths; runs of events against the run that knew the final index |
| `Arrivals`, `HistorySync`, `Devices` | one message through two paths; a whole pushed sync; why no stored chat carries a device |
| `Searches` | what the repair and the order of arrival change of SearchChats, which matches raw addresses too |
| `Pending`, `Backfill` | the rendezvous as interleaved atomic steps; its keys and anchors |
| `MediaPath`, `Media`, `MediaRuns`, `Overlaps` | lexical paths; one fetch; runs of fetches, deletions and arrivals; fetches that overlap |
| `Base62`, `Scopes`, `Ledger` | key texts, scope storage, schema migrations |

## The main results

1. `Runs.EveryRunReadsAsFinal`: whatever order messages and LID pairs arrive in, through the
   live, history and send paths and with lookups that may fail, ListChats, ListByChat and
   OldestByChat report at the end what they would have had every message been filed under its
   final address: the same list, and the same messages in the same chats from the same senders.
2. `Conversations.ReadersAgree` and `Conversations.ListChatsPartitions`: the readers see one and
   the same partition of a tenant's rows. `Devices.EveryListedChatReadsBack`: on every run every
   listed chat reads back in full under the address it is listed with.
3. `Folds.RepairIsWriteFold`, `QueryFoldIsWriteFold`, `ReadFoldIsWriteFold`: for every address
   the parser accepts, the repair, a query and a stored row come to what the write paths file if
   and only if the address is plainly written (for a stored row: and carries no device).
4. `Repair.RepairKeepsConversations` and `RepairTwiceIsOnce`: on device-free tables the repair
   shows in none of ListChats, ListByChat and OldestByChat, and it is idempotent.
   `Searches.SearchAfterRepair` and `SearchAfterARun`: exactly how far the repair and the order
   of arrival do show in SearchChats.
5. `Pending.SendNeverBlocks`, `ChannelSentToOnce`, `ReceivesItsOwnReply`, `NoLostRequest`,
   `DeliveryWaitsForItsReader`: the rendezvous in every interleaving; `Backfill.KeysMeetExactly`:
   when a request and a reply meet at all.
6. `MediaRuns.UnavailableIsPermanent`, `DiskAndRowsAgree`, `DownloadedOncePerDeletion`,
   `StoredIsServed`, `ServedWholeExactly`: the media cache over every sequential run.
   `Overlaps.UnavailableIsPermanentExactly` and `DiskAndRowsAgreeOverlapping`: over every
   interleaving of fetches that overlap.

## Where the code is narrower than its claims

Each of these is a lemma; the code is modelled as it is.

- The write paths split addresses with whatsmeow's parser, the readers and the repair by hand.
  The exact condition for agreement is `Folds.WrittenPlainly`: at most one "@", something before
  any device, no zero in front of one. Without it the folds part: `:5@x` is filed as `x`, read as
  `:5@x` and repaired to `@x` (`Repair.HollowAddressIsRewritten`), and after a second "@" the
  parser stops (`Folds.SecondAtIsDroppedByTheParser`). Readers and repair agree with each other on
  everything but a device without a user (`Addresses.RepairIsReadForm`).
- A live message whose alternative names somebody else reads as that person's for good: it reads as
  its own conversation if and only if the pair ends up in the index
  (`Addresses.FiledThenReadIsFinal`, `Addresses.MisfiledByItsAlternative`).
- A chat listed under an address that still carries a device does not read back under that
  address; every other listed chat does (`Conversations.ListedAddressReadsBack`, with a table in
  `Devices.DeviceRowIsListedButNotFound`). No write path files such an address and the repair
  leaves none, so a repaired table never has one (`Devices.RunKeepsDevicesOut`).
- A request and a reply made with different knowledge of the LID index meet if and only if both
  could turn their address into the number or neither could (`Backfill.KeysMeetExactly`,
  `Backfill.LearntPairSplitsTheKeys`).- SearchChats also matches addresses as they are stored. The repair therefore takes away what a
  conversation was found by only in raw form -- a LID the index knows, the device of a sender --
  and a conversation filed before a pair was learnt is found by its LID while one filed after is
  not. `Searches.SearchAfterRepair` and `Searches.SearchAfterARun` are the exact conditions,
  `Searches.RepairHidesTheLid` and `Searches.ArrivalOrderShowsInSearch` the tables.
- After a history sync a conversation has an anchor exactly when it had a row already or the
  sync brought a WhatsApp id the tenant did not hold (`Backfill.StoredConversationHasAnchor`, with
  a table in `Devices.StoredConversationWithoutAnchor`).
- "Downloads at most once" does not hold of a result over the limit: nothing is kept or
  recorded, so it is downloaded every time. `MediaRuns.DownloadsAgain` gives the exact condition.
- "Expired is final" holds unless another fetch of the message was already past its look-up: a
  recorded "unavailable" survives every interleaving if and only if no such fetch can still end in
  another way (`Overlaps.UnavailableIsPermanentExactly`); two that overlap lose it, and the
  message is downloaded again (`Overlaps.OverlapForgetsUnavailable`).
- A rewrite that fails half way after the file was deleted leaves a short file that is then
  served as available (`MediaRuns.CutShortFileIsServed`). The next fetch serves the downloaded
  bytes whole exactly under the condition of `MediaRuns.ServedWholeExactly`.
- The stand-in view outlives a Migrate call exactly when the call created it and the DROP failed
  (`Ledger.StandInOutlivesExactly`); every later call then fails until whatsmeow creates its
  table (`Ledger.StrandedStandInBlocks`, `Ledger.StandInCanBeStranded`), and even then the view,
  being temporary, hides that table from every reader of the connection (`Ledger.StandInShadows`).

## Model

| member | source | states |
|---|---|---|
| Addresses.SplitAddress | internal/store/address.go:134-147 | a part it accepts has a user free of `@` and `:` and a server |
| Addresses.NonADIsStable | internal/store/address.go:151-157 | dropping the device is idempotent and does not change whom the address names |
| Addresses.LeftJoinIsOneRow | internal/store/address.go:51-58 | over a one-to-one index the join neither drops nor repeats a row: it yields the number known for a `lid@lid`, or NULL once |
| Addresses.PairsAreUnique | internal/store/lid_canonical_test.go:32-35 | the index is one-to-one: equal LIDs mean equal numbers and the other way round |
| Addresses.ReadFormIs | internal/store/address.go:47-157 | dropping the device and projecting comes to the number of a known LID, and otherwise to the bare user on its server |
| Addresses.StoredReadsAsAsked | internal/store/address.go:47-105 | a stored address projects to what a query for it looks for if and only if it carries no device |
| Addresses.ProjectedIsStable | internal/store/address.go:47-59 | a canonical address projects to itself |
| Addresses.RepairIsReadForm | internal/store/migrations/0003_canonical_addresses.sql:50-97 | the repair of an address is the readers' form of it if and only if it is not a device without a user |
| Folds.RepairIsWriteFold | internal/store/migrations/0003_canonical_addresses.sql:50-97 | for every address the write path's parser accepts, the repair is canonicalJID's result if and only if the address is plainly written |
| Folds.QueryFoldIsWriteFold | internal/store/address.go:75-105 | for every such address a query looks where a write path would file it under the same condition |
| Folds.ReadFoldIsWriteFold | internal/store/address.go:47-59 | for every such address a stored row is listed where a write path would file it if and only if, besides, it carries no device |
| Folds.RepairAgreesOnNames | internal/store/migrations/0003_canonical_addresses.sql:50-97 | on addresses splitAddress and the parser accept, repair and canonicalJID agree if and only if no second "@" follows |
| Folds.HollowAddressHasThreeForms | internal/wa/address.go:46-68 | a device without a user: repaired, read and filed as three different addresses |
| Folds.SecondAtIsDroppedByTheParser | internal/wa/address.go:46-68 | a known LID with a second "@" is filed under the number while readers and repair leave it |
| Addresses.RepairIsIdempotent | internal/store/migrations/0003_canonical_addresses.sql:101-111 | repairing a repaired address changes nothing, for every string |
| Addresses.RepairIsProjection | internal/store/migrations/0003_canonical_addresses.sql:50-97 | on device-free addresses the repair is the read projection made permanent |
| Addresses.AliasesAreTheConversation | internal/store/address.go:75-105 | a stored address is among a query's aliases if and only if it projects to the query's canonical address |
| Addresses.FiledThenReadIsFinal | internal/wa/address.go:46-68 | an address filed with any earlier knowledge of the index, or none, reads under the final index as its final canonical address if and only if the alternative that decided, if any, is in that index |
| Addresses.MisfiledByItsAlternative | internal/wa/address.go:46-68 | an alternative whose pair never reaches the index leaves the message under that number, which is not its conversation |
| Addresses.FiledCarriesNoDevice | internal/wa/address.go:46-68 | no write path files an address with a device |
| Addresses.RepairLeavesNoDevice | internal/store/migrations/0003_canonical_addresses.sql:50-97 | whatever address it started from, the repair leaves none with a device |
| Addresses.CanonicalStringIsFinal | internal/wa/address.go:46-68 | an address filed with the index is left as it is by every reader and by the repair, and carries no device |
| Addresses.ParseRecipient | internal/wa/manager.go:647-667 | an accepted recipient has a user, and neither part can be misread as a device |
| Addresses.ParseWithDevice | internal/wa/manager.go:647-667 | an address with a device in range parses back to user, device and server |
| Addresses.ParsePlain | internal/wa/manager.go:647-667 | an address without a device parses back to user and server |
| Messages.PreparedIsComplete | internal/store/message_repo.go:49-70 | a message is accepted if and only if tenant, chat, WhatsApp id and direction are given; what is stored is complete, keeps all the caller gave, and would be prepared unchanged |
| Messages.BatchKeepsTheTable | internal/store/migrations/0001_init.sql:38-58 | a committed batch keeps primary key, (tenant, WhatsApp id) and tenant constraints, extends the table, and stores exactly the old and the batch's keys |
| Messages.KnownBatchIsIgnored | internal/store/message_repo.go:43-45 | a batch whose keys are all stored leaves the table as it is |
| Messages.ReplayInsertsNothing | internal/store/message_repo.go:100-145 | replaying messages of a committed batch, under any row ids and bodies, inserts nothing |
| Messages.OwnedWriteCommits | internal/store/message_repo.go:100-145 | when row ids are never shared, a transaction commits if and only if every row's tenant exists |
| Messages.KeysOfARun | internal/store/message_repo.go:43-145 | after any run of live and history writes the stored keys are the old ones and those of the writes that commit |
| Messages.AnyOrderStoresTheSameMessages | internal/store/message_repo.go:43-145 | any reordering of the writes stores the same set of keys |
| Sorting.SortIsTheAnswer | internal/store/message_repo.go:235-237 | over a total order the sorted rows are the only ordered arrangement of the same rows, so ORDER BY has one answer |
| Conversations.RecentIsAnOrder | internal/store/message_repo.go:235-237 | the time-then-id order of the queries is total, asymmetric and transitive |
| Conversations.QueryReadsTheConversation | internal/store/message_repo.go:227-244 | for every query and every table, the rows selected by alias are the rows whose address projects to the query's canonical form, in table order |
| Conversations.OldestIsLeast | internal/store/message_repo.go:152-173 | the oldest message is a row of the chat with nothing older, and is missing only for an empty chat |
| Conversations.OldestEndsThePage | internal/store/message_repo.go:152-173 | the oldest message is the last row of the unlimited page |
| Conversations.JoinsKeepRows | internal/store/message_repo.go:260-310 | neither the LID join nor the name join multiplies or loses a message |
| Conversations.EntriesAreTheRows | internal/store/message_repo.go:260-310 | the joined query holds one entry for each of the tenant's rows |
| Conversations.GroupPartitions | internal/store/message_repo.go:260-310 | grouping yields one summary a key, each with its group's size, newest row and name, and sizes add up |
| Conversations.ListChatsPartitions | internal/store/message_repo.go:260-310 | before the limit every row of the tenant is counted in exactly one chat, counts sum to the tenant's rows, chats are distinct and in order, names are the tenant's own |
| Conversations.EveryRowIsListed | internal/store/message_repo.go:260-310 | the conversation of every stored row of the tenant is listed |
| Conversations.GroupHoldsTheConversation | internal/store/message_repo.go:260-310 | a chat counts exactly the rows of its conversation and shows the newest of them |
| Conversations.ReadersAgree | internal/store/message_repo.go:152-310 | for every query, by phone, LID or device: ListByChat selects exactly the rows ListChats counts under the canonical form, its first row is the chat's last message, its last row is OldestByChat's, and it is empty exactly when no such chat is listed |
| Conversations.ListedAddressReadsBack | internal/store/message_repo.go:227-310 | asking with a listed address returns that chat's rows if and only if the address carries no device |
| Views.SamePages | internal/store/message_repo.go:227-244 | tables whose rows project alike show the same pages, whatever raw address a row has |
| Views.SameOldest | internal/store/message_repo.go:152-173 | tables whose rows project alike have the same oldest message for every query |
| Views.SameLists | internal/store/message_repo.go:260-310 | tables whose rows project alike list the same chats |
| Views.SameUndirectedLists | internal/store/message_repo.go:260-310 | the same, for tables that differ in directions too, up to the direction shown |
| Views.SearchFindsConversations | internal/store/message_repo.go:183-219 | a conversation is found if and only if one of its rows holds the query literally, up to ASCII case, in a raw or canonical address of chat or sender, and it is found once |
| Like.SubstringIsLiteral | internal/store/message_repo.go:481-484 | for every query and text, the escaped pattern matches if and only if the text contains the query literally up to ASCII case |
| Like.FoldedNameSearchIsLiteral | internal/store/chat_repo.go:75-104 | lowering both sides, escapes included, keeps the name search literal up to ASCII case |
| ChatNames.SearchFindsNames | internal/store/chat_repo.go:75-104 | before the limit exactly the tenant's names containing the query are found, each once, ordered by name and address |
| Repository.Database.LidMapReady | internal/store/address.go:112-122 | says yes exactly when the table is there and was seen before or is found now; a failing look-up says no and is not remembered, a yes is |
| Repository.Database.ChatAliases | internal/store/address.go:75-105 | returns the query's alias set under what its two look-ups answered of the index; when either fails, the device-free address alone |
| Repository.Database.Append | internal/store/message_repo.go:83-93 | an invalid message is refused with its error and changes nothing; a valid one is stored once, and a known key is a no-op |
| Repository.Database.AppendBatch | internal/store/message_repo.go:100-145 | success stores the whole prepared batch and returns exactly the table's growth; any failure, the commit's included, changes nothing |
| Repository.Database.ListByChat | internal/store/message_repo.go:227-244 | returns the newest rows of the conversation as its look-ups could tell it, newest first, up to the limit |
| Repository.Database.OldestByChat | internal/store/message_repo.go:152-173 | returns the oldest row of the conversation as its look-ups could tell it, or none |
| Repository.Database.ListChats | internal/store/message_repo.go:260-310 | joins, groups, sorts and limits as the query of the model does |
| Repository.Database.SearchChats | internal/store/message_repo.go:183-219 | returns the matching chats' canonical addresses, latest activity first; nothing for a blank query |
| Repository.Database.SearchNames | internal/store/chat_repo.go:75-104 | returns the matching names in order, up to the limit; nothing for a blank query |
| Repository.Database.GetByID | internal/store/message_repo.go:397-420 | returns the tenant's newest row with that row id or WhatsApp id, or none |
| Repository.LookupIsNewest | internal/store/message_repo.go:397-420 | the row found is the newest of the tenant's rows under that id, and none is found only when there is none |
| Repository.LookupMember | internal/store/message_repo.go:397-420 | a row found by id is the tenant's own and has that id |
| Repository.Database.UpdateMedia | internal/store/message_repo.go:428-466 | rewrites only the fetch bookkeeping of the row with that id, keeps a recorded path when none is given, and reports a missing row |
| Repository.UpsertReplacesOneName | internal/store/chat_repo.go:19-39 | one name per tenant and chat: the newest reading wins, a blank one changes nothing, no other name moves |
| Repository.Database.UpsertBatch | internal/store/chat_repo.go:41-73 | all names of the batch are written, or none when a statement or the commit fails |
| Repair.CheckOncePerTenant | internal/store/migrations/0003_canonical_addresses.sql:30-42 | the guard passes if and only if no WhatsApp message exists twice for a tenant |
| Repair.RunRepair | internal/store/migrations/0003_canonical_addresses.sql:30-143 | a table with duplicates is not changed at all; any other becomes the repaired table |
| Repair.UpdateAddresses | internal/store/migrations/0003_canonical_addresses.sql:101-111 | every row ends up under its materialised address, and nothing else of it changes |
| Repair.UpdateDirections | internal/store/migrations/0003_canonical_addresses.sql:113-143 | received messages whose sender is the tenant's own number become sent, and no others |
| Repair.RepairTouchesOnlyAddressing | internal/store/migrations/0003_canonical_addresses.sql:101-143 | ids, bodies, times and all else stay; direction moves only from in to out and exactly for rows whose repaired sender is the tenant's own number |
| Repair.RepairTwiceIsOnce | internal/store/migrations/0003_canonical_addresses.sql:30-143 | a second run over unchanged index and sessions changes nothing and passes the same guard |
| Repair.RepairKeepsConversations | internal/store/migrations/0003_canonical_addresses.sql:30-143 | on any device-free table the repair leaves what ListChats lists and what ListByChat and OldestByChat return for every query unchanged, up to addresses and direction |
| Searches.RepairedReadsAsItself | internal/store/migrations/0003_canonical_addresses.sql:50-97 | whatever address it started from, the repaired one is left as it is by the read projection |
| Searches.SearchAfterRepair | internal/store/message_repo.go:183-219 | after the repair of a device-free table SearchChats finds a conversation if and only if one of its rows held the query in its canonical chat or its repaired sender |
| Searches.RepairHidesTheLid | internal/store/migrations/0003_canonical_addresses.sql:101-111 | a row filed under a known LID is found by that LID before the repair and under no chat after it |
| Repair.RepairReachesEveryDevice | internal/store/migrations/0003_canonical_addresses.sql:50-97 | a row stored with a device is afterwards found by exactly the queries for its person |
| Repair.HollowAddressIsRewritten | internal/store/address.go:143-145 | the concrete address on which repair, readers and write paths all differ |
| Intake.NewestIndex | internal/wa/history.go:145-156 | the anchor is the first of the records with the greatest time |
| Intake.CollectHistory | internal/wa/history.go:96-141 | maps exactly the usable messages in order, all, one or none of them as the decision says |
| Intake.PickNewest | internal/wa/history.go:145-156 | keeps exactly the newest record |
| Intake.CanonicaliseSenders | internal/wa/history.go:255-267 | rewrites every parseable sender of the batch in place to its canonical address, and leaves the rest |
| Intake.PersistMessage | internal/wa/manager.go:504-557 | a live message is stored as one row under the canonical chat and sender, or dropped when it is invalid |
| Intake.PersistConversation | internal/wa/history.go:213-236 | one conversation is one transaction; it reports rows added, records carried, and whether it was stored |
| Runs.SameDecision | internal/wa/history.go:52-84 | what is kept of a conversation does not depend on which of the person's addresses it came under |
| Runs.RecordsRefiled | internal/wa/manager.go:504-557 | each event asks for the same rows it would ask for under the final index, up to addresses of chat and sender that read the same |
| Runs.ChatAsSender | internal/wa/history.go:255-267 | a chat filed as the sender of its own message, parsed and resolved once more, still reads as the chat |
| Runs.EveryRunReadsAsFinal | internal/store/address.go:47-59 | over every run of live, history and send writes with a growing one-to-one index, ListChats, ListByChat and OldestByChat report what they would had every message, in the same order, been filed under its final canonical address: same list, same messages, same canonical chats and, where senders' alternatives are right, senders |
| Searches.SearchAfterARun | internal/store/message_repo.go:183-219 | after any run SearchChats finds a conversation if and only if it would have, had every message been filed under its final address, or a row of it holds the query in its raw chat or sender |
| Searches.ArrivalOrderShowsInSearch | internal/store/message_repo.go:183-219 | a message filed before its pair was learnt is found by its LID, the same message filed after is not |
| Devices.RepairFreesTheTable | internal/store/migrations/0003_canonical_addresses.sql:50-111 | no chat address of a repaired table carries a device |
| Devices.RunKeepsDevicesOut | internal/wa/address.go:46-68 | no run of live, history and send writes brings a device into a table without one |
| Devices.EveryListedChatReadsBack | internal/store/message_repo.go:227-310 | after every such run each listed chat reads back in full, as many rows as it counts, under its listed address |
| Devices.DeviceRowIsListedButNotFound | internal/store/message_repo.go:227-244 | a table with a device: its chat is listed and found under neither address |
| Devices.StoredConversationWithoutAnchor | internal/wa/history.go:191-244 | a sync whose one message is held under another chat is stored and leaves no anchor |
| Arrivals.RowsSayWhatHappened | internal/wa/manager.go:527-557 | every row a live event, a history sync or a send stores carries the key, direction, body and time the event reports, and reads in the end as the event's conversation |
| Arrivals.NothingReportedIsLost | internal/wa/history.go:96-141 | every reported message has its row, unless the scope keeps less than the whole conversation |
| Arrivals.SecondArrivalIsTheSameRow | internal/wa/manager.go:290-343 | a sent message's echo, history copy and live delivery say the same and read as one conversation; whichever comes second changes nothing |
| Arrivals.LiveSenderIsFinal | internal/wa/manager.go:504-521 | a live sender, group participants included, reads in the end as its final canonical address |
| Arrivals.ChatAltNamesTheChat | internal/wa/address.go:95-114 | when each end's alternative names that end, the one picked names the conversation's person, for received and sent messages |
| Arrivals.WiderScopeKeepsMore | internal/wa/history.go:52-84 | a wider history scope never keeps less, people are always kept in full, and only status and, short of the widest scope, channels get no anchor |
| HistorySync.PersistHistorySync | internal/wa/history.go:191-244 | a sync stores each usable conversation on its own and counts what was added; an on-demand one wakes exactly the waiters of the conversations it stored, each with the rows added, records carried and oldest time of the first conversation stored for it, and touches no other channel |
| HistorySync.SyncIsARun | internal/wa/history.go:191-244 | a sync amounts to a run of history events over an index that may grow between its conversations, so the run theorem covers it |
| HistorySync.AnsweredUnderAnyForm | internal/wa/history.go:191-277 | a request for a person is answered by a sync that stores the person's conversation, whichever address either side used |
| Pending.StepKeepsInvariant | internal/wa/pending.go:50-94 | every atomic step keeps the registry's invariant: a channel waits, is in flight or is spent, never two of these |
| Pending.SendNeverBlocks | internal/wa/pending.go:80-94 | in every interleaving the send into the one-slot buffer finds room |
| Pending.ChannelSentToOnce | internal/wa/pending.go:80-94 | in every run a channel is sent to at most once |
| Pending.ReceivesItsOwnReply | internal/wa/pending.go:38-94 | what a caller receives was delivered for its own key after it registered |
| Pending.NoLostRequest | internal/wa/pending.go:50-94 | a registered request stays registered until a delivery takes it or it is released |
| Pending.DeliveryWaitsForItsReader | internal/wa/pending.go:80-94 | what was taken for a channel is on its way or in its buffer exactly until somebody receives on it |
| Pending.ReleaseRemovesOnlyItsOwn | internal/wa/pending.go:50-75 | a stale or repeated release never removes a later request's entry |
| Pending.RegistryIsClean | internal/wa/pending.go:50-102 | at most one waiter a key, and nothing left once every caller has released |
| Pending.PendingHistory.Register | internal/wa/pending.go:50-75 | claims the key with a fresh channel, or refuses when it is taken |
| Pending.PendingHistory.TakeWaiter | internal/wa/pending.go:80-90 | the locked half of a delivery, finding a waiter if and only if one is registered |
| Pending.PendingHistory.SendDelivery | internal/wa/pending.go:91-94 | the unlocked half, which is always enabled |
| Pending.PendingHistory.Deliver | internal/wa/pending.go:80-94 | both halves: the waiter of the key leaves the registry with one delivery in its buffer, or nothing changes |
| Pending.PendingHistory.ReleaseChannel | internal/wa/pending.go:62-74 | after a release the channel waits no more |
| Pending.PendingHistory.WaiterCount | internal/wa/pending.go:98-102 | counts the keys waited on; zero once every caller has released |
| Backfill.KeysAreDistinct | internal/wa/pending.go:38-42 | keys are equal if and only if tenant and conversation are, for tenant ids without NUL |
| Backfill.TenantsCollideExactly | internal/wa/pending.go:38-42 | two different tenants could share a key if and only if one's id continues the other's with a NUL, so never for the UUIDs the gateway makes |
| Backfill.EveryFormMeetsOnOneKey | internal/wa/history.go:285-323 | under an unchanged index two requests and a reply that name one person by any address use one key |
| Backfill.FormsOfOnePerson | internal/wa/manager.go:647-667 | bare number, phone address, LID and both with a device all parse to that person |
| Backfill.KeysMeetExactly | internal/wa/history.go:269-323 | a request and a reply for one person, each under its own earlier knowledge of the index, meet if and only if both could resolve their address or neither could |
| Backfill.LearntPairSplitsTheKeys | internal/wa/history.go:269-323 | with an index that grew in between they meet if and only if the request named a number or a LID known by then, however either is spelled |
| Backfill.OneBackfillPerConversation | internal/wa/history.go:269-323 | while a request waits, another for the same person under any address is refused, and the reply finds the waiter |
| Backfill.OtherConversationsAreFree | internal/wa/history.go:285-323 | registering one conversation never occupies another |
| Backfill.BeginSync | internal/wa/history.go:285-323 | a request fails on an unpaired tenant, else on a bad address, else on a missing anchor, else on a request in flight, exactly then, and otherwise waits under the canonical key with the conversation's oldest message as anchor |
| Backfill.DeliverOnDemand | internal/wa/history.go:271-277 | wakes exactly the waiter of the chat, with counts and the oldest time stored |
| Backfill.AnchorIsTheNewestUsable | internal/wa/history.go:96-156 | anchor-only keeps exactly one usable message, of greatest timestamp |
| Backfill.StoredConversationHasAnchor | internal/wa/history.go:191-244 | under every scope an anchor exists if and only if the conversation had a row or the sync kept a WhatsApp id new to the tenant, whatever of the index was known at filing and at asking |
| Backfill.UsableConversationCanBeBackfilled | internal/wa/history.go:52-156 | when WhatsApp ids name one conversation each, every non-skipped conversation with a usable message has an anchor, also after failed lookups |
| MediaPath.MediaExtension | internal/wa/media.go:371-398 | a suffix is short and holds no separator, whatever the mime type |
| MediaPath.SegmentIsOrdinary | internal/wa/media.go:339-357 | an accepted tenant is one plain directory name |
| MediaPath.ComponentsOfChild | internal/wa/media.go:312-332 | joining a plain name appends one component and removes none |
| MediaPath.CheckedPathIsInside | internal/wa/media.go:312-366 | whenever root, tenant and id checks pass the path is the cleaned root, the tenant and the file name, and the containment check always holds |
| MediaPath.PathsStayDistinct | internal/wa/media.go:312-332 | two attachments share a path if and only if tenant, digest and suffix agree |
| Media.MediaFetcher.FetchMedia | internal/wa/media.go:137-236 | refuses, downloads, writes and records in the source's order; row, disk and outcome are those of the model's fetch |
| Media.MediaFetcher.RecordOutcome | internal/wa/media.go:246-274 | records the attempt on the looked-up row, and a failing database leaves it alone |
| MediaRuns.OnlyBookkeepingMoves | internal/wa/media.go:137-274 | over every run the table only grows and nothing but fetch bookkeeping of a stored row changes |
| MediaRuns.FetchMovesOneRow | internal/wa/media.go:137-274 | a fetch changes at most the row it looked up, and only after reaching the network |
| MediaRuns.UnavailableIsPermanent | internal/wa/media.go:155-160 | once recorded, "unavailable" stays with the whole row over every run, and no fetch of that message downloads or changes anything |
| MediaRuns.DiskAndRowsAgree | internal/wa/media.go:137-274 | over every run "available" names the message's own path, and every file belongs to a stored message and is within the limit |
| MediaRuns.DownloadedOncePerDeletion | internal/wa/media.go:162-172 | a message is downloaded successfully at most once, plus once for each deletion of its file |
| MediaRuns.StoredIsServed | internal/wa/media.go:162-172 | without a deletion, later fetches serve the stored path and size whatever else is fetched meanwhile |
| MediaRuns.DownloadsAgain | internal/wa/media.go:137-274 | exactly when the next fetch of a message that was just downloaded downloads it again |
| MediaRuns.ServedWholeExactly | internal/wa/media.go:137-274 | exactly when the fetch after a download serves the downloaded bytes whole: within the limit, all of them on disk, and the row pointing there |
| MediaRuns.CutShortFileIsServed | internal/wa/media.go:212-214 | a rewrite that fails half way leaves a short file that the next fetch serves |
| Overlaps.AloneIsFetch | internal/wa/media.go:137-274 | looking up, dealing with the file and recording, uninterrupted, are the fetch |
| Overlaps.UnavailableIsPermanentExactly | internal/wa/media.go:155-160 | a recorded "unavailable" stays over every interleaving of fetches, deletions and arrivals if and only if no fetch of that row already under way can still end in another way |
| Overlaps.OverlapForgetsUnavailable | internal/wa/media.go:137-274 | of two overlapping fetches the later record wins: WhatsApp's refusal is overwritten and the message goes to the network again |
| Overlaps.DiskAndRowsAgreeOverlapping | internal/wa/media.go:137-274 | over every interleaving "available" names the message's own path, and every file belongs to a stored message and is within the limit |
| MediaRuns.GatewayPlacesAreApart | internal/wa/media.go:312-332 | with a digest that does not collide on stored ids, no two stored messages share a file and no file is nameless |
| Base62.EncodeBase62 | internal/auth/key.go:129-144 | the division loop writes the fixed-width base-62 digits of the bytes' big-endian number |
| Base62.DecodeIsExact | internal/auth/key.go:129-144 | reading the digits back gives the number whenever it fits the width |
| Base62.SecretsRoundTrip | internal/auth/key.go:129-144 | 32 bytes give 43 characters that decode to the same number |
| Base62.SecretsStayDistinct | internal/auth/key.go:56-76 | two secrets have one text if and only if they are the same bytes |
| Base62.WidthIsLeast | internal/auth/key.go:129-144 | 62^42 < 2^256 <= 62^43 |
| Base62.NarrowerTextsCollide | internal/auth/key.go:129-144 | at any smaller width two different secrets would share a text |
| Scopes.ValidateScopes | internal/auth/scope.go:110-132 | accepts a list if and only if every trimmed entry is a scope the gateway understands |
| Scopes.HasScope | internal/auth/scope.go:44-77 | allows if and only if the requirement is concrete and some entry is it, the wildcard, or its resource's wildcard |
| Scopes.ParseScopes | internal/auth/scope.go:81-93 | keeps the trimmed, non-blank parts, each at its first appearance |
| Scopes.FormatScopes | internal/auth/scope.go:96-106 | joins the trimmed, non-blank entries |
| Scopes.RestoredMember | internal/auth/scope.go:81-106 | storage neither adds nor loses a scope of an accepted list |
| Scopes.StoragePreservesPermission | internal/auth/scope.go:44-132 | for an accepted list every requirement is answered the same before and after storage |
| Scopes.ParseAfterFormatIsIdentity | internal/auth/scope.go:81-106 | formatting and parsing again is the identity on every parse result, for every text |
| Ledger.SchemaFile.ApplyMigration | internal/store/store.go:190-222 | a migration and its ledger row commit together or not at all, and an applied one is not run again |
| Ledger.SchemaFile.MigrateSchema | internal/store/store.go:115-188 | a call is the model's call: stand-in, ledger, migrations in order up to the first failure, stand-in dropped |
| Ledger.MigrateKeepsTheLedger | internal/store/store.go:115-155 | a call, failing anywhere, only extends the ledger, keeps it a prefix of the names, and leaves it complete when it succeeds |
| Ledger.LedgerIsAlwaysAPrefix | internal/store/store.go:115-222 | over every sequence of calls the ledger lists exactly the committed migrations, each once, and is a prefix of the sorted names |
| Ledger.CommittedStaysCommitted | internal/store/store.go:115-222 | what one call committed no later call undoes or repeats |
| Ledger.NamesAreSorted | internal/store/store.go:136-147 | the names are exactly the embedded migrations, in order |
| Ledger.StandInOutlivesExactly | internal/store/store.go:169-188 | the stand-in outlives a call if and only if it was there before or the call created it and could not drop it |
| Ledger.StandInAfterARun | internal/store/store.go:115-188 | over every sequence of calls the stand-in is there exactly when one of them created it and could not drop it |
| Ledger.StandInShadows | internal/store/store.go:161-188 | a stranded stand-in stays and makes every later query see an empty index, whatsmeow's own table notwithstanding |
| Ledger.NoStandInIsLeftBehind | internal/store/store.go:169-188 | over every sequence of calls without a failing DROP no stand-in is left |
| Ledger.StrandedStandInBlocks | internal/store/store.go:169-188 | a stand-in left behind makes the next call fail without effect while the real table is missing |
| Ledger.StandInCanBeStranded | internal/store/store.go:115-188 | one failing DROP on a fresh file is enough |

## Left out

- Addresses.ParseRecipient: refuses the agent form `user.agent:device`, which whatsmeow's parser accepts; such addresses are outside the model.
- The message texts of errors.
- Runs.EveryRunReadsAsFinal: compares chats and senders in canonical form; the raw addresses do differ between the two runs. It covers events whose alternatives agree with the final index, as `Addresses.FiledThenReadIsFinal` shows it must.
- MediaRuns.StoredIsServed, and the other counts of `MediaRuns`: fetches run one after another; what overlapping ones keep is in `Overlaps`, where dealing with a file and recording are one step each and two writes into one file do not mix.
- HistorySync.PersistHistorySync: all addresses of one conversation are resolved with one state of the index, which may differ from the next one's; the look-ups of the oldest message it reports succeed. A delivery's two halves run without interruption inside the loop; their interleavings with other callers are covered in `Pending`.
- Backfill.BeginSync: ends when the request is registered; sending it to the phone, the timeout and cancellation are left to the interleavings of `Pending`, where every end is a release.
- Like.SubstringIsLiteral: strings hold no NUL, and case folding is SQLite's ASCII one; Unicode folding is not modelled.
- Database reads that fail: those of the LID index are inputs (`Repository.Answers`); a failing query for messages, which makes its call fail, is left out.
- Row ids, clocks, the network, the downloader and whether a commit or write succeeds are inputs.
- SHA-256 is an arbitrary function to 64 hex digits; results that need it collision-free say on which ids.
- Foreign keys are modelled as a set of tenant ids; deleting a tenant, sessions and API-key rows are not modelled.
- Message-body search, contact and group-name lookups, session status, HTTP and MCP handlers, file permissions and configuration parsing.
- GenerateKey's prefix and shortened tenant id, hashing and constant-time comparison.
