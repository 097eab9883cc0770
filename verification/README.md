# Verified model of the chat back end

A Dafny model of the stateful parts of the message service, and of three smaller state machines
beside it, with proofs about whole runs. Code that updates state in place is a class with the same
fields and loops; each of its methods is proved against a value-level step function, and the
properties are proved about runs of those steps.

| File | What it models |
|---|---|
| `BatchProtocol.dfy` | the batching writer as an interleaving of submitters and one flush goroutine |
| `BatchRefinement.dfy` | batching over the in-memory store, among other callers of the store, against saving one message at a time |
| `BatchWriter.dfy`, `Metrics.dfy` | the flush loops, the response channels and the counters as objects |
| `MessageStore.dfy`, `MessageRepo.dfy` | the in-memory message store: values and runs, then the class over references to stored rows |
| `Directory.dfy` | conversations, memberships and roles: the service calls as steps, and every run of them |
| `ConversationRecords.dfy`, `MemoryConversations.dfy`, `PostgresConversations.dfy` | the two conversation stores: nested maps, and a row table with its constraints |
| `ConversationService.dfy`, `StoreAgreement.dfy` | the service over either store, the equivalence of the two through it, and exactly when they agree below it |
| `MessageAuthorization.dfy` | who may edit or delete a message |
| `BulkInsert.dfy`, `PostgresReceipts.dfy` | the bulk save, down to the text of its statement, and the receipt upsert of the Postgres message repository |
| `Auth.dfy` | registration, login, refresh and logout over the token table |
| `Notifications.dfy` | the capped notification list |
| `Hub.dfy`, `GroupGet.dfy`, `RoomCodec.dfy` | the WebSocket hub, the membership request behind a join, and rooms as subjects and numbers |
| `Migration.dfy` | migration 005 from its backfill to its constraints |
| `Common.dfy` | optional values, uuids, instants, trimming |

## What the code does not do

Some plausible statements are false of the code. Each is kept as the code has it.

- Migration 005 does not always go through. From section 4 on it does exactly if no conversation id is
  known or some known id is positive (`setval` refuses values below 1), every role is 0, 1 or 2, and
  every receipt belongs to a message (`Migration.CommitsIff`). The keys on conversations and the unique
  index cannot fail any more by then. One instance of each refusal: `Migration.ZeroOnlyAborts`,
  `Migration.InvalidRoleAborts`, `Migration.LostMessageAborts`.
- The two conversation stores do not agree on all calls below the service. CreateMembership agrees
  exactly for a valid role and a conversation that is not soft-deleted, UpdateMembershipRole exactly for
  a valid role or a missing membership, CreateConversation exactly for names of at most 120 characters
  (`StoreAgreement.CreateMembershipOnBoth`, `StoreAgreement.UpdateMembershipRoleOnBoth`,
  `StoreAgreement.CreateConversationOnBoth`); every other call agrees always. Instances from empty
  stores: create, delete, then add a member; a role 7; a name of 121 characters. Through the service they cannot
  be told apart (`ConversationService.RunBoth`), within the limits named under "Left out".
- A closing socket does not leave all its rooms. It leaves the room that its last admitted join message
  named and stays in every other room it entered, so it is gone from all rooms exactly if that room is
  the only one it ever entered (`Hub.AfterClose`, `Hub.LeavesAllIff`). A socket that a user only opens
  and closes stays in that user's room (`Hub.OpenedSocketStays`).
- The check of a join is not always about the conversation that the room names: the number is cut down
  to 32 bits on the way. It is exactly for numbers up to 2^31 - 1 (`GroupGet.AsksForItselfIff`); above,
  the creator of conversation 1 enters a room of a conversation that does not exist (`Hub.WrappedNumberIsEntered`).
- The preview of a reply is not always that of a stored message: after a listing it is exactly if the
  target is still stored (`MessageStore.ReplyIsCurrentIff`). Save, reply, list, delete, list shows the
  deleted message (`MessageStore.DeletedTargetStillShown`).
- What a Postgres save hands back depends on how many messages share the batch: a single message comes
  back with status "sent" and no received time, a message of a larger batch with whatever the caller had
  there. It does not matter exactly if the caller gave a status and no received time
  (`BulkInsert.SizeMattersIff`). The stored rows are the same either way.
- The last-owner guard of RemoveMember never fires against another user: the actor must be an
  owner too, so there are two (`Directory.GuardsExact`).
- Three branches are dead code: the clean-up of CreateConversation and the return after the member loop
  of authorizeMessageMutation over either store (`ConversationService.Service.CreateConversation`,
  `MessageAuthorization.Handler.AuthorizeMessageMutation`), and the missing user of a refresh over any
  run of the service (`Auth.RefreshFindsUser`).
- Any message status may follow any other (`MessageRepository.MessageRepo.SetMessageStatus`).

## Model

| member | source | states |
|---|---|---|
| BatchRefinement.BatchingIsDirectSaving | services/message/internal/batch/writer.go:62-110 | in every interleaving of submitters, receives, ticks, the single saves of a flush and any other calls on the store, the store is what a log of direct calls leaves: the other calls in their own order, and one SaveMessage per request saved so far in dequeue order, each answered with what that very call returns |
| BatchRefinement.BatchingKeepsStoreInv | services/message/internal/repo/memory/message_repo.go:30-61 | the invariant of the store holds in every such interleaving, and no id of a deleted message comes back |
| BatchRefinement.BatchingRefinesDirectSaving | services/message/internal/batch/writer.go:62-110 | when nobody else calls the store, it ends as after one SaveMessage per request in dequeue order and the i-th answer is the i-th new row; with any other clock readings all is equal but the timestamps that the callers left open |
| BatchRefinement.EachGetsItsOwn | services/message/internal/batch/writer.go:48-54 | a caller that returned got its own message back: sender, conversation, content, attachment, reply, forward and joined fields as given, a given status and given times kept, an empty status turned into sent and a missing time filled from a clock, under a new id; ids strictly increase in dequeue order and lie above all earlier ones |
| BatchRefinement.RunKeepsRefined | services/message/internal/batch/writer.go:62-110 | any run of steps keeps the chain of stores along the log, and the tie between the logs, the rows of the flush in progress and the answers sent |
| BatchProtocol.ExactlyOnce | services/message/internal/batch/writer.go:48-111 | after any run, whatever the repository returned, a request that was sent is in exactly one of channel, buffer and answered, is answered at most once, and a returned caller holds the answer sent for its own request |
| BatchProtocol.NeverBlocked | services/message/internal/batch/writer.go:80-93 | the response channel about to be sent on is empty, so no send of the flush loop blocks and some step of the goroutine is always possible |
| BatchProtocol.FlushEnds | services/message/internal/batch/writer.go:62-98 | every step of a flush lowers its remaining work by one and no submitter's step raises it |
| BatchProtocol.AnsweredAfterReceives | services/message/internal/batch/writer.go:100-110 | from any state with the invariant, a request with p others ahead of it in the channel is answered after p+500 receives |
| BatchProtocol.AnsweredAfterTick | services/message/internal/batch/writer.go:100-110 | the same request is answered by the flush of the first tick after p+1 receives |
| BatchProtocol.RunProgress | services/message/internal/batch/writer.go:100-110 | the number of receives a request still waits for drops with every receive and is not raised by any other step |
| BatchProtocol.CountersBalance | services/message/internal/batch/writer.go:49-94 | outside a flush, batchSum is the number of answers, insertedTotal the number of answers with a saved row, receivedTotal the answered, buffered, queued and counted-but-unsent requests together |
| BatchProtocol.BatchBound | services/message/internal/batch/writer.go:62-70 | BulkSaveMessages is only entered with 1 to 500 messages |
| BatchProtocol.RunKeepsInv | services/message/internal/batch/writer.go:48-111 | every run, with any repository answers, keeps the invariant on the logs, on the callers and their channels, and on the counters |
| BatchProtocol.WhereIsIt | services/message/internal/batch/writer.go:100-110 | whether a request is answered, buffered or queued is decided by its position in the order of sending |
| BatchProtocol.AnswersExplained | services/message/internal/batch/writer.go:76-97 | over every run each answer goes back to one return of BulkSaveMessages with its request in the buffer: the error if the save failed, a mismatch if not every message came back, else the saved message at the request's own place |
| BatchProtocol.FlushCounters | services/message/internal/batch/writer.go:72-79 | over every run batchCount is the number of saves that returned, insertErrorTotal the number of them that failed, and the duration total their durations added up |
| BatchProtocol.QueueBound | services/message/internal/batch/writer.go:12-39 | in every reachable state at most 10000 requests wait in the channel and at most 500 in the buffer |
| BatchProtocol.EnqueueIff | services/message/internal/batch/writer.go:48-54 | a submitter puts its request on the channel exactly while fewer than 10000 wait there |
| BatchProtocol.CollectIff | services/message/internal/batch/writer.go:48-54 | with the invariant, a waiting caller goes on exactly once its request is answered |
| BatchProtocol.FlushStartsIff | services/message/internal/batch/writer.go:100-110 | a flush starts with the receive that brings the buffer to 500 or a tick that finds anything buffered, and with nothing else |
| BatchWriter.Writer.Deliver | services/message/internal/batch/writer.go:76-97 | each buffered request's channel holds exactly one answer: the repository's error if it failed, a mismatch if the numbers differ, else the row at the request's own place; the counters move by exactly that outcome |
| BatchWriter.Writer.SendAll | services/message/internal/batch/writer.go:80-93 | the send loop leaves the i-th value, and nothing else, on the i-th request's channel |
| BatchWriter.Writer.Flush | services/message/internal/batch/writer.go:62-98 | a flush into the memory repository stores the buffered messages in order and hands each caller a reference to the row stored for its own message; an empty buffer does nothing |
| BatchWriter.Writer.Receive | services/message/internal/batch/writer.go:102-106 | the 500th buffered request triggers the flush, an earlier one only joins the buffer |
| BatchWriter.Writer.Tick | services/message/internal/batch/writer.go:107-109 | a tick flushes whatever is buffered |
| MessageStore.RunKeepsInv | services/message/internal/repo/memory/message_repo.go:30-250 | over every run: ids strictly increase along the slice, never exceed the counter, are not reused after a delete; receipts and seen-by lists belong to stored messages and hold each user once |
| MessageStore.StepKeepsInv | services/message/internal/repo/memory/message_repo.go:30-250 | each call keeps that invariant, and an id that becomes stored is above the old counter |
| MessageStore.SaveEffect | services/message/internal/repo/memory/message_repo.go:30-49 | a save adds one row at the end under the old counter plus one, every field as given but for the id, an empty status turned into sent and missing times taken from the clock, each from its own reading; nothing else changes |
| MessageStore.StampExact | services/message/internal/repo/memory/message_repo.go:34-47 | the same for the row alone, field by field |
| MessageStore.UpdateEffect | services/message/internal/repo/memory/message_repo.go:122-134 | an edit of a stored message stores the new content and update time in its row and keeps every other field, row and table; of a missing one it changes nothing |
| MessageStore.SetStatusEffect | services/message/internal/repo/memory/message_repo.go:183-196 | a status is stored exactly for a stored message and one of the three statuses, and nothing else changes |
| MessageStore.AckEffect | services/message/internal/repo/memory/message_repo.go:136-164 | a first acknowledgement adds the receipt with the given time, a later one changes its update time only; no other receipt or table changes |
| MessageStore.MarkSeenEffect | services/message/internal/repo/memory/message_repo.go:198-220 | the user's seen-by entry gets the given name and time at its old place or at the end; all other entries, lists and tables stay |
| MessageStore.DeleteEffect | services/message/internal/repo/memory/message_repo.go:237-250 | exactly the row, the receipts and the seen-by list of the message are gone; the others keep contents and order |
| MessageStore.ListEffect | services/message/internal/repo/memory/message_repo.go:76-111 | a listing changes nothing but the two joined fields of that conversation's rows |
| MessageStore.FirstAckStays | services/message/internal/repo/memory/message_repo.go:136-164 | the reception time of a user's first acknowledgement survives any later calls while the message is stored |
| MessageStore.FirstAckRecords | services/message/internal/repo/memory/message_repo.go:136-164 | a first acknowledgement of a stored message records the given time |
| MessageStore.DeleteRemoves | services/message/internal/repo/memory/message_repo.go:237-250 | after a delete exactly the other messages are stored |
| MessageStore.ListingExact | services/message/internal/repo/memory/message_repo.go:76-111 | a listing is exactly the conversation's stored messages, as joined, with strictly decreasing ids |
| MessageStore.JoinMeaning | services/message/internal/repo/memory/message_repo.go:89-108 | joining changes only the reply preview and the seen-by field; seen-by mirrors a non-empty side list in order, and both stay as stored where there is nothing to join |
| MessageStore.ReplyIsCurrentIff | services/message/internal/repo/memory/message_repo.go:89-98 | a listed message shows its target's present sender and content exactly if it replies to a message that is still stored |
| MessageStore.DeletedTargetStillShown | services/message/internal/repo/memory/message_repo.go:89-98 | a run after which a listing shows a reply's target that was deleted |
| MessageStore.ListingIdempotent | services/message/internal/repo/memory/message_repo.go:76-111 | listing again writes nothing new |
| MessageStore.PlacesExact | services/message/internal/repo/memory/message_repo.go:80-85 | the filtered slice shows the messages at exactly the conversation's positions, in stored order |
| MessageStore.SaveAllAppends | services/message/internal/repo/memory/message_repo.go:51-61 | saving a sequence appends exactly one stamped row per message under consecutive ids and leaves everything else |
| MessageStore.SaveAllConcat | services/message/internal/repo/memory/message_repo.go:51-61 | saving two batches one after the other equals saving their concatenation |
| MessageStore.ClocksOnlyReachTimestamps | services/message/internal/repo/memory/message_repo.go:37-42 | the clock reaches nothing but the timestamps of the new rows that the caller left open |
| MessageRepository.MessageRepo.SaveMessage | services/message/internal/repo/memory/message_repo.go:30-49 | a fresh row is appended under the old counter plus one: all fields the caller's, but the id, an empty status (sent) and missing times (their own clock readings); no stored row changes |
| MessageRepository.MessageRepo.BulkSaveMessages | services/message/internal/repo/memory/message_repo.go:51-61 | the loop is the sequence of single saves, and it returns references to the appended rows in order |
| MessageRepository.MessageRepo.FindById | services/message/internal/repo/memory/message_repo.go:113-120 | the first position with the id, or the length of the slice if there is none |
| MessageRepository.MessageRepo.GetMessageById | services/message/internal/repo/memory/message_repo.go:63-74 | a reference to the stored row with that id, exactly if there is one |
| MessageRepository.MessageRepo.UpdateMessageById | services/message/internal/repo/memory/message_repo.go:122-134 | only the content and update time of that message change, in place; a missing id changes nothing |
| MessageRepository.MessageRepo.MarkMessageReceivedByID | services/message/internal/repo/memory/message_repo.go:136-164 | the first acknowledgement records the time, a later one only refreshes the update time, a missing message is an error and changes nothing |
| MessageRepository.MessageRepo.GetMessageReceiptByID | services/message/internal/repo/memory/message_repo.go:166-181 | the receipt of that user for that message, exactly if there is one |
| MessageRepository.MessageRepo.SetMessageStatus | services/message/internal/repo/memory/message_repo.go:183-196 | succeeds exactly for a stored message and one of the three statuses, from any status, and changes nothing else |
| MessageRepository.MessageRepo.MarkMessageSeenBy | services/message/internal/repo/memory/message_repo.go:198-220 | the user's entry is refreshed in its place or appended; other entries, and other messages' lists, stay |
| MessageRepository.MessageRepo.GetSeenByForMessage | services/message/internal/repo/memory/message_repo.go:222-235 | the seen-by list of the message in order, empty if it has none |
| MessageRepository.MessageRepo.DeleteMessageById | services/message/internal/repo/memory/message_repo.go:237-250 | removes the message, its receipts and its seen-by list; the other references stay the same ones in the same order |
| MessageRepository.MessageRepo.GetMessagesByConversationID | services/message/internal/repo/memory/message_repo.go:76-111 | returns references to the stored rows themselves, showing the listing of the old store, and leaves the store with exactly the joins written back |
| MessageRepository.MessageRepo.NewestFirst | services/message/internal/repo/memory/message_repo.go:80-88 | the page holds the conversation's rows by reference, last stored first |
| MessageRepository.MessageRepo.JoinRows | services/message/internal/repo/memory/message_repo.go:89-109 | joining row after row, in stores already partly rewritten, gives each listed row the join against the old store and leaves the other rows alone |
| MessageRepository.ReverseInPlace | services/message/internal/repo/memory/message_repo.go:86-88 | the two-index loop reverses the slice |
| Directory.RunKeepsInv | services/message/internal/service/conversation_service.go:36-246 | after any sequence of calls each live conversation has an active owner, each deleted one no active membership, and exactly the ids below the counter exist |
| Directory.StepKeepsInv | services/message/internal/service/conversation_service.go:36-246 | each call keeps this, and the id counter never decreases |
| Directory.GuardsExact | services/message/internal/service/conversation_service.go:86-276 | in every reachable state a call succeeds exactly when the stated rules permit it, a failing call changes nothing, and the last-owner guard never stops the removal of another user |
| Directory.CallEffect | services/message/internal/service/conversation_service.go:36-276 | from every reachable directory, each successful call does exactly this to roles, liveness, descriptions and the id counter: create opens the next id with the trimmed texts and the owner as only member; add and role change leave the user with the given role; remove and leave end that one membership; delete closes the conversation and ends all its memberships; the four queries change nothing and answer what roles and liveness show |
| Directory.ErrorIff | services/message/internal/service/conversation_service.go:36-290 | each error is given exactly in the situation it stands for, told by arguments, liveness and roles: zero id, nil user, bad role, long name, dead conversation, outsider or too low a role, missing or present target, last owner |
| Directory.StepWithinRole | services/message/internal/service/conversation_service.go:86-246 | a change of anyone's role is within the power of the actor's own role: outsiders change nothing, plain members only leave, admins only leave or add and remove plain members |
| Directory.NewPrivilegeIsGranted | services/message/internal/service/conversation_service.go:86-203 | a new admin or owner role comes from opening the conversation or from an active owner giving that very role |
| Directory.Provenance | services/message/internal/service/conversation_service.go:36-246 | over every run, each admin or owner was so granted at some step and has held the role without interruption since |
| Directory.SoleOwnerIff | services/message/internal/service/conversation_service.go:215-223 | for an owner, the count of owners is at most one exactly if no other user is an owner |
| ConversationService.RunBoth | services/message/internal/service/conversation_service.go:36-290 | any sequence of calls answers with the same results and errors over the maps as over the table, up to membership ids, timestamps and list order, and leaves them showing the same directory |
| StoreAgreement.CreateMembershipOnBoth | services/message/internal/repo/postgres/conversation_repo.go:131-149 | called on both stores showing the same directory, CreateMembership answers alike and leaves them alike exactly for a valid role and a conversation that is not soft-deleted |
| StoreAgreement.UpdateMembershipRoleOnBoth | services/message/internal/repo/postgres/conversation_repo.go:207-225 | likewise UpdateMembershipRole exactly for a valid role or a missing membership |
| StoreAgreement.CreateConversationOnBoth | services/message/internal/repo/postgres/conversation_repo.go:22-52 | likewise CreateConversation exactly for names of at most 120 characters |
| StoreAgreement.DeletedInMemory | services/message/internal/repo/memory/conversation_repo.go:100-107 | create and delete through the service, then CreateMembership: the memory store answers not found |
| StoreAgreement.DeletedInPostgres | services/message/internal/repo/postgres/conversation_repo.go:131-149 | the same calls on Postgres add the member |
| StoreAgreement.InvalidRoleInMemory | services/message/internal/repo/memory/conversation_repo.go:100-184 | the memory store takes role 7 for a new and for an existing member |
| StoreAgreement.InvalidRoleInPostgres | services/message/migrations/001_create_tables.sql:22-22 | the check on roles refuses both |
| StoreAgreement.LongNameDiffers | services/message/migrations/001_create_tables.sql:7-7 | a name of 121 characters is taken by the maps and refused by the column |
| ConversationService.Service.Execute | services/message/internal/service/conversation_service.go:36-290 | every call, over either store, is one directory step in its result and its effect |
| ConversationService.Service.CreateConversation | services/message/internal/service/conversation_service.go:36-70 | opens a conversation with the trimmed name and its owner as only member, or fails and changes nothing; the clean-up branch is unreachable |
| ConversationService.Service.GetConversationByID | services/message/internal/service/conversation_service.go:72-77 | the live conversation with that id, an invalid-id error for zero, not found otherwise |
| ConversationService.Service.ListConversationsByUser | services/message/internal/service/conversation_service.go:79-84 | the user's live conversations, each once, or an error for the nil user |
| ConversationService.Service.RequireActorMembership | services/message/internal/service/conversation_service.go:278-290 | the actor's role in a live conversation, with a missing membership turned into forbidden |
| ConversationService.Service.AddMember | services/message/internal/service/conversation_service.go:86-121 | adds exactly the one membership or fails with the first applicable error and no change |
| ConversationService.Service.RemoveMember | services/message/internal/service/conversation_service.go:123-163 | removes exactly the one membership or fails with the first applicable error and no change |
| ConversationService.Service.UpdateMemberRole | services/message/internal/service/conversation_service.go:165-203 | changes exactly the one role or fails with the first applicable error and no change |
| ConversationService.Service.LeaveConversation | services/message/internal/service/conversation_service.go:205-226 | ends exactly the caller's membership unless it is the last owner's |
| ConversationService.Service.DeleteConversation | services/message/internal/service/conversation_service.go:228-246 | closes the conversation and ends all its memberships, for an owner only |
| ConversationService.Service.ListMembers | services/message/internal/service/conversation_service.go:248-258 | the active memberships, each once, for an active member only |
| ConversationService.Service.IsMember | services/message/internal/service/conversation_service.go:260-276 | true exactly for an active membership |
| ConversationService.RolesByUserExact | services/message/internal/repo/memory/conversation_repo.go:147-166 | a member list without order, ids and times determines the roles of the conversation |
| ConversationService.ConversationsByIdExact | services/message/internal/repo/memory/conversation_repo.go:64-83 | a conversation list without order and times determines the user's conversations |
| MemoryConversations.MemoryRepo.CreateConversation | services/message/internal/repo/memory/conversation_repo.go:29-50 | stores a live row under the next id with no members |
| MemoryConversations.MemoryRepo.GetConversationByID | services/message/internal/repo/memory/conversation_repo.go:52-62 | the row exactly if it is live |
| MemoryConversations.MemoryRepo.ListConversationsByUser | services/message/internal/repo/memory/conversation_repo.go:64-83 | in whatever order the map is ranged over, each live conversation of the user once |
| MemoryConversations.MemoryRepo.SoftDeleteConversation | services/message/internal/repo/memory/conversation_repo.go:85-98 | stamps a live row as deleted, refuses any other |
| MemoryConversations.MemoryRepo.CreateMembership | services/message/internal/repo/memory/conversation_repo.go:100-129 | refuses a dead conversation and an active membership, replaces an ended one |
| MemoryConversations.MemoryRepo.GetMembership | services/message/internal/repo/memory/conversation_repo.go:131-145 | the membership exactly if it is active |
| MemoryConversations.MemoryRepo.ListMemberships | services/message/internal/repo/memory/conversation_repo.go:147-166 | each active membership of a live conversation once, in any order |
| MemoryConversations.MemoryRepo.UpdateMembershipRole | services/message/internal/repo/memory/conversation_repo.go:168-184 | changes the role of an active membership and nothing else |
| MemoryConversations.MemoryRepo.SoftDeleteMembership | services/message/internal/repo/memory/conversation_repo.go:186-203 | ends an active membership, keeping its row, and nothing else |
| MemoryConversations.MemoryRepo.SoftDeleteMembershipsByConversation | services/message/internal/repo/memory/conversation_repo.go:205-221 | ends all active memberships of the conversation and leaves earlier deletion times alone |
| MemoryConversations.MemoryRepo.CountOwners | services/message/internal/repo/memory/conversation_repo.go:223-239 | the loop counts exactly the active owners |
| PostgresConversations.PostgresRepo.CreateConversation | services/message/internal/repo/postgres/conversation_repo.go:22-52 | inserts a live row under the serial id and scans back what was given; a name over 120 characters is refused but uses up the id |
| PostgresConversations.PostgresRepo.GetConversationByID | services/message/internal/repo/postgres/conversation_repo.go:54-71 | the row exactly if it is live |
| PostgresConversations.PostgresRepo.ListConversationsByUser | services/message/internal/repo/postgres/conversation_repo.go:73-105 | the join over active memberships lists each live conversation of the user once, latest update first and then highest id |
| PostgresConversations.PostgresRepo.SoftDeleteConversation | services/message/internal/repo/postgres/conversation_repo.go:107-129 | stamps the one live row with the id as deleted and updated, refuses if there is none |
| PostgresConversations.PostgresRepo.CreateMembership | services/message/internal/repo/postgres/conversation_repo.go:131-149 | fails exactly on a bad role, a hit of the partial unique index or a missing conversation, otherwise appends one active row |
| PostgresConversations.PostgresRepo.GetMembership | services/message/internal/repo/postgres/conversation_repo.go:151-170 | the active row of the pair exactly if there is one |
| PostgresConversations.PostgresRepo.ListMemberships | services/message/internal/repo/postgres/conversation_repo.go:172-205 | each active membership of a live conversation once, highest role first and then lowest id |
| PostgresConversations.PostgresRepo.UpdateMembershipRole | services/message/internal/repo/postgres/conversation_repo.go:207-225 | rewrites the role of the one active row of the pair |
| PostgresConversations.PostgresRepo.SoftDeleteMembership | services/message/internal/repo/postgres/conversation_repo.go:227-250 | ends the one active row of the pair, refuses if there is none |
| PostgresConversations.PostgresRepo.SoftDeleteMembershipsByConversation | services/message/internal/repo/postgres/conversation_repo.go:252-262 | ends every active row of the conversation |
| PostgresConversations.PostgresRepo.CountOwners | services/message/internal/repo/postgres/conversation_repo.go:264-279 | counting rows counts owners, since the partial unique index allows one active row per user |
| PostgresConversations.OwnersPicked | services/message/migrations/001_create_tables.sql:102-104 | under the unique index the active owner rows are as many as the owners |
| PostgresConversations.RowsAfterInsert | services/message/internal/repo/postgres/conversation_repo.go:131-149 | an insert past the unique index leaves the table showing the directory with that one role added |
| PostgresConversations.RowsAfterDelete | services/message/internal/repo/postgres/conversation_repo.go:227-250 | the update leaves the table showing the directory with that one role taken |
| PostgresConversations.PassesList | services/message/internal/repo/postgres/conversation_repo.go:172-205 | the select finds every active member once |
| MessageAuthorization.Handler.AuthorizeConversationMember | services/message/internal/nats/handler.go:906-920 | passes exactly for an active member, and says which error otherwise |
| MessageAuthorization.Handler.AuthorizeMessageMutation | services/message/internal/nats/handler.go:922-950 | passes exactly for an active member who is the sender, an admin or an owner; the return after the loop is unreachable |
| BulkInsert.MessageTable.BulkSaveMessages | services/message/internal/repo/postgres/message_repo.go:74-148 | none, one and more messages take three ways; each adds one row per message in order under consecutive ids, in which each of the nine named columns holds the field of its own meaning, and hands back the messages, in the way that the size of the batch decides |
| BulkInsert.MessageTable.SaveMessage | services/message/internal/repo/postgres/message_repo.go:25-72 | adds the row of the message, each named column with its own field, and hands it back with its id, its status and no received time |
| BulkInsert.MessageTable.Insert | services/message/internal/repo/postgres/message_repo.go:119-147 | the database, reading the column list and the row texts with the bound arguments, stores under each column name the field of each message that belongs there |
| BulkInsert.SizeMattersIff | services/message/internal/repo/postgres/message_repo.go:78-147 | the answer to a message does not depend on the size of its batch exactly if the caller gave it a status and no received time |
| BulkInsert.ResultExact | services/message/internal/repo/postgres/message_repo.go:64-72 | what the caller gets back, field by field: its own message under the new id; from a batch of one with the stored status and no received time |
| BulkInsert.FilledExact | services/message/internal/repo/postgres/message_repo.go:97-102 | a save sets the caller's missing times to the time of the batch and nothing else |
| BulkInsert.Build | services/message/internal/repo/postgres/message_repo.go:86-116 | the loop leaves the texts of the rows and the arguments aligned with the messages, and stamps missing times of the caller's own messages |
| BulkInsert.EachRowIsItsMessage | services/message/internal/repo/postgres/message_repo.go:86-122 | for every batch size, the text of the i-th row under the bound arguments denotes the nine values of the i-th message |
| BulkInsert.EachRowByName | services/message/internal/repo/postgres/message_repo.go:86-122 | assigned to the column names read off the text of the statement, the values of the i-th row are exactly the fields of the i-th message under their own names: reply_to_id its reply, forward_from_id its forward, and so on for all nine |
| BulkInsert.RowByName | services/message/internal/repo/postgres/message_repo.go:107-122 | for any message, its nine values under the nine names store each field under its own name and nothing else |
| BulkInsert.StatementNames | services/message/internal/repo/postgres/message_repo.go:121-122 | whatever rows follow, the column names read between the first parentheses of the statement are the nine in this order |
| BulkInsert.SingleStatementNames | services/message/internal/repo/postgres/message_repo.go:26-30 | the statement for one message, spelled with spaces, names the same nine columns |
| BulkInsert.RowTextNumbers | services/message/internal/repo/postgres/message_repo.go:91-96 | the parameter numbers read off the text of a row are the nine after its offset, in order |
| BulkInsert.StatementNumbers | services/message/internal/repo/postgres/message_repo.go:91-120 | the parameter numbers read off the whole text of the statement for n messages are exactly 1 to 9n, in order |
| BulkInsert.WriterBatchFits | services/message/internal/batch/writer.go:62-109 | in every reachable state in which the writer hands over its buffer, the statement binds 9 parameters per buffered request and at most 4500 |
| BulkInsert.GroupSeenBy | services/message/internal/repo/postgres/message_repo.go:491-506 | one pass over the rows gives each message exactly its own entries in the order read |
| BulkInsert.EntriesExact | services/message/internal/repo/postgres/message_repo.go:491-506 | the entries of a message are those of exactly its own rows, in the order read |
| PostgresReceipts.ReceiptClosedForm | services/message/internal/repo/postgres/message_repo.go:321-361 | over every run a receipt exists if an acknowledgement found the message live, and bears the reception and creation time of the first such one and the update time of the last; one row per message and user |
| PostgresReceipts.MarkedExact | services/message/internal/repo/postgres/message_repo.go:321-361 | one upsert changes the receipt of its own message and user only |
| PostgresReceipts.SoftDeleteExact | services/message/internal/repo/postgres/message_repo.go:509-526 | a soft delete ends the life of its own live message for good, stamps it with the time, and touches no receipt and no other message |
| PostgresReceipts.ReceiptRepo.MarkMessageReceivedByID | services/message/internal/repo/postgres/message_repo.go:321-361 | the upsert's effect and the returned row; not found exactly for a missing or deleted message |
| PostgresReceipts.ReceiptRepo.GetMessageReceiptByID | services/message/internal/repo/postgres/message_repo.go:363-395 | the receipt exactly if there is one, of deleted messages too |
| PostgresReceipts.ReceiptRepo.DeleteMessageById | services/message/internal/repo/postgres/message_repo.go:509-526 | a soft delete of a live message keeps its receipts |
| Auth.RunExtends | services/user/src/auth/auth.service.ts:109-160 | along any run no token row is lost or edited, revoked never goes back to false, and tokens stay distinct |
| Auth.RefreshedAtMostOnce | services/user/src/auth/auth.service.ts:117-142 | after one successful refresh, and whatever follows, presenting the token again is refused and changes nothing |
| Auth.SuccessfulRefresh | services/user/src/auth/auth.service.ts:117-160 | over any tables, a refresh succeeds exactly for an unrevoked, unexpired token of an existing user, and then adds one live row of that user that expires in seven days |
| Auth.RunKeepsForeignKey | infra/seed/000_create_user_tables.sql:14-21 | over every run of the service each stored token keeps its user |
| Auth.RefreshFindsUser | services/user/src/auth/auth.service.ts:134-139 | so over every run a refresh succeeds exactly for an unrevoked, unexpired token; the branch for a missing user is dead |
| Auth.ExpiredIsRefused | services/user/src/auth/auth.service.ts:124-128 | an expired token is refused and is revoked by being presented |
| Auth.LogoutEndsTokens | services/user/src/auth/auth.service.ts:109-115 | no token its user held at a logout is ever accepted again |
| Auth.AtMostOneLiveDescendant | services/user/src/auth/auth.service.ts:32-160 | over every run, even one that mints a token twice, of the tokens that descend from one login or registration at most one is unrevoked, and all belong to one user |
| Auth.RegisterEffect | services/user/src/auth/auth.service.ts:32-58 | a conflict exactly if the email is known, an internal error exactly if only the username is, both without effect; otherwise exactly that user and one unrevoked token row of theirs, good for 604800 seconds, are added |
| Auth.LoginEffect | services/user/src/auth/auth.service.ts:61-84 | succeeds exactly if the password is right and some stored user has the email, and then appends one unrevoked row with the minted token for the first such user; otherwise unauthorized and nothing changes |
| Auth.LogoutEffect | services/user/src/auth/auth.service.ts:109-115 | row by row: the user's rows become revoked, all else about every row and user stays |
| Auth.RefreshEffect | services/user/src/auth/auth.service.ts:117-142 | row by row: the first unrevoked row with the token becomes revoked and no other, expired or not; a row for the same user is appended exactly if the token has not expired and its user is stored; without such a row nothing changes |
| Auth.AuthService.Register | services/user/src/auth/auth.service.ts:32-58 | a taken email is a conflict, a taken username an internal error, neither changes the tables; otherwise user and token are added |
| Auth.AuthService.Login | services/user/src/auth/auth.service.ts:61-84 | an unknown email and a wrong password answer alike and change nothing; otherwise one token is added |
| Auth.AuthService.Logout | services/user/src/auth/auth.service.ts:109-115 | exactly the user's rows become revoked |
| Auth.AuthService.Refresh | services/user/src/auth/auth.service.ts:117-142 | the presented row is revoked whether or not it is expired, and a new row is added for its user exactly on success |
| Notifications.ListClosedForm | services/notification/internal/service/notification_service.go:35-108 | after any run the list is the newest min(100, total) notifications, newest first, unread exactly if sent since the last MarkRead |
| Notifications.PendingClosedForm | services/notification/internal/service/notification_service.go:61-83 | GetPending answers exactly the newest min(100, sends since the last MarkRead), in that order |
| Notifications.PendingAfter | services/notification/internal/service/notification_service.go:35-108 | after any sequence of Send and MarkRead calls, accepted or not, for any users on a new service, GetPending returns the newest min(100, accepted sends to the user since its last MarkRead), newest first, each unread with the user, kind and payload given to its Send, its number, and its time in whole seconds |
| Notifications.UnreadSendsExact | services/notification/internal/service/notification_service.go:35-108 | those sends are exactly the accepted ones after which no MarkRead of the user came |
| Notifications.MarkedEntry | services/notification/internal/service/notification_service.go:97-106 | marking sets the read flag of a decodable entry and keeps its other fields; bytes that do not decode stay |
| Notifications.UsersAreSeparate | services/notification/internal/service/notification_service.go:52-90 | what a user finds depends on that user's operations only |
| Notifications.KeysDiffer | services/notification/internal/service/notification_service.go:52-52 | two users never share a key |
| Notifications.NotificationService.Send | services/notification/internal/service/notification_service.go:35-59 | pushes the notification at the head, unread, with the user, kind and payload given, its number and its time in whole seconds, and keeps at most 100; a missing user or type is an error without effect |
| Notifications.NotificationService.GetPending | services/notification/internal/service/notification_service.go:61-83 | the unread decodable entries in list order |
| Notifications.NotificationService.MarkRead | services/notification/internal/service/notification_service.go:85-108 | rewriting by index keeps length, order, undecodable entries and every field but the read flag; other lists stay |
| Hub.RunIsSafe | services/gateway/internal/ws/hub.go:53-83 | over every run of service calls, opens, joins and closes no stored room is empty, every socket is under its own address, and every socket in a conversation room was admitted there by a successful check |
| Hub.SocketsWereMembers | services/gateway/internal/ws/handler.go:369-408 | every socket in a conversation room was let in by a join at which its user was an active member of the live conversation that the room's number names after the cut to 32 bits: of the room's own conversation up to 2^31 - 1 |
| Hub.AdmitsIff | services/gateway/internal/ws/handler.go:365-408 | after any run, a join is let in exactly if the room is no conversation room, or the request is answered, the room parses and the named user is an active member of the conversation that its 32-bit number names |
| Hub.PrivateRoomsDiffer | services/gateway/internal/ws/handler.go:49-51 | two users have two private rooms |
| Hub.WrappedNumberIsEntered | services/gateway/internal/ws/handler.go:384-388 | a run that lets a user into the room of a conversation that does not exist, whenever the room's number is cut down to 1 |
| GroupGet.AskedExact | services/message/internal/nats/handler.go:424-468 | in every reachable directory the answer to the gateway is yes exactly for an active member of the live conversation that the 32-bit number names |
| GroupGet.AnswerExact | services/message/internal/nats/handler.go:424-468 | given two numbers, the answer is about the first if it is positive and else about the second, and yes exactly for an active member of that live conversation |
| GroupGet.AsksForItselfIff | services/gateway/internal/ws/handler.go:384-388 | over all directories, the answer about a room is about the membership of its own conversation exactly for numbers up to 2^31 - 1 |
| GroupGet.Endpoint.Handle | services/message/internal/nats/handler.go:424-468 | the handler's answer, with no service, a bad actor or no number answered no |
| Hub.InsideExactly | services/gateway/internal/ws/handler.go:41-118 | over every run of sockets with addresses of their own, a socket is in a room exactly if it entered it by being opened or by an admitted join and no close has taken it out since |
| Hub.AfterClose | services/gateway/internal/ws/handler.go:77-82 | after its first close a socket is in exactly the rooms it ever entered but for the one its last admitted join message named |
| Hub.LeavesAllIff | services/gateway/internal/ws/handler.go:77-82 | a close takes a socket out of all rooms exactly if the last room it joined by a message is the only one it entered |
| Hub.OpenedSocketStays | services/gateway/internal/ws/handler.go:49-51 | a socket that a user opens and closes stays in the user's room |
| Hub.CloseLeavesRemembered | services/gateway/internal/ws/handler.go:77-82 | from any state a close takes the address out of the remembered room, if any, and changes no other room |
| Hub.SessionIsLastJoined | services/gateway/internal/ws/handler.go:117-118 | the remembered room is the one of the last admitted join message |
| Hub.SocketHub.Join | services/gateway/internal/ws/hub.go:53-66 | the socket is added under its address; other rooms and sockets stay |
| Hub.SocketHub.Leave | services/gateway/internal/ws/hub.go:68-83 | the address is removed, and the room with its last socket |
| Hub.SocketHub.BroadcastToRoom | services/gateway/internal/ws/hub.go:85-100 | one write attempt to each socket of the room and to no other socket |
| Hub.SocketHub.OnSubject | services/gateway/internal/ws/hub.go:35-44 | a broadcast subject reaches the room it names, a shorter subject nobody |
| Hub.Handler.OnOpen | services/gateway/internal/ws/handler.go:41-51 | one more connection; a socket with a user joins that user's room |
| Hub.Handler.OnJoinMessage | services/gateway/internal/ws/handler.go:104-118 | a conversation room is joined and remembered exactly after a successful check; a refusal only answers the socket |
| Hub.Handler.CanJoinConversationRoom | services/gateway/internal/ws/handler.go:369-408 | asks the service, over the store as it stands, with the number cut down to 32 bits; needs a named user, a well-formed room and a delivered reply |
| Hub.Handler.OnClose | services/gateway/internal/ws/handler.go:77-82 | one connection less; the remembered room is left |
| RoomCodec.SubjectRoundTrip | services/gateway/internal/ws/hub.go:36-41 | for every room, dots included, decoding its broadcast subject gives the room back |
| RoomCodec.DecodeSubjectExact | services/gateway/internal/ws/hub.go:36-41 | a subject names what follows its second dot, and no room if it has fewer than two |
| RoomCodec.RoomRoundTrip | services/gateway/internal/ws/handler.go:347-363 | for every positive 64-bit n, both spellings of its room parse to n and are guarded |
| RoomCodec.ParsesIff | services/gateway/internal/ws/handler.go:347-363 | a room parses to n exactly if it is guarded and behind its first colon, up to the next one, stands n in decimal, perhaps after a plus sign, with n a positive 64-bit number |
| RoomCodec.InvalidIDIff | services/gateway/internal/ws/handler.go:347-363 | a room is malformed exactly if it has no colon, and its number invalid exactly if it is decimal but not positive |
| RoomCodec.GuardedIff | services/gateway/internal/ws/handler.go:347-367 | the join check guards exactly the rooms whose part before the first colon is group or conversation |
| RoomCodec.ParsedRoomsAreGuarded | services/gateway/internal/ws/handler.go:365-367 | every room that parses to a conversation is one the join check guards |
| RoomCodec.JoinSplit | services/gateway/internal/ws/hub.go:36-41 | joining the parts of a split gives the string back |
| RoomCodec.ItoaExact | services/gateway/internal/ws/handler.go:355-358 | the decimal print of n has only digits and the value n |
| Migration.CommitsIff | services/message/migrations/005_conversations_refactor.sql:193-341 | from section 4 on the migration goes through exactly if no conversation id is known or some known id is positive, every role is 0, 1 or 2, and every receipt belongs to a message |
| Migration.ZeroOnlyAborts | services/message/migrations/005_conversations_refactor.sql:226-230 | one message of conversation 0 in an otherwise empty database makes it fail |
| Migration.InvalidRoleAborts | services/message/migrations/005_conversations_refactor.sql:304-315 | one membership with role 7 makes it fail |
| Migration.LostMessageAborts | services/message/migrations/005_conversations_refactor.sql:266-279 | one receipt of a message that is gone makes it fail |
| Migration.CleanedMeets | services/message/migrations/005_conversations_refactor.sql:251-329 | after backfill and deduplication the keys on conversations and the unique index are always met, so only roles and receipts can fail; constraints already there still hold |
| Migration.AllConstraintsHold | services/message/migrations/005_conversations_refactor.sql:251-329 | a migration that goes through leaves all five constraints in place, and met: messages and memberships refer to stored conversations, receipts to stored messages, roles are 0 to 2, and no two active memberships are of one pair |
| Migration.BackfillComplete | services/message/migrations/005_conversations_refactor.sql:193-230 | afterwards every referenced conversation has a row, old rows are untouched, new rows are named and owned as stated, and the next serial id is above every id |
| Migration.CreatorExact | services/message/migrations/005_conversations_refactor.sql:201-222 | the creator of a new row is the user of its first owner membership, without one that of its first membership, without any NULL |
| Migration.NewRowExact | services/message/migrations/005_conversations_refactor.sql:212-219 | a new row is named after its number in decimal and dated now |
| Migration.MigratedRest | services/message/migrations/005_conversations_refactor.sql:193-248 | messages and receipts stay; of memberships only the deletion time of active ones may change, to now; the sequence stands at an existing id at or above all others, or at 1 without any |
| Migration.OneActivePerPair | services/message/migrations/005_conversations_refactor.sql:233-248 | each pair has one active membership exactly if it had one before, and the lowest id survives |
| Migration.Idempotent | services/message/migrations/005_conversations_refactor.sql:193-341 | running the steps again changes no table, nor the sequence or the constraints |
| Migration.Database.Run | services/message/migrations/005_conversations_refactor.sql:193-341 | the statements from section 4 on, in order, as one transaction: committed in full or without effect |
| Migration.Database.AddConstraints | services/message/migrations/005_conversations_refactor.sql:251-329 | each constraint is added unless it is there, and the first one that the rows do not meet fails |
| Migration.Database.InsertMissing | services/message/migrations/005_conversations_refactor.sql:194-223 | one row for each missing referenced id, none for a known one |
| Migration.Database.ResetSequence | services/message/migrations/005_conversations_refactor.sql:226-230 | the sequence stands at the highest id, or is refused and left |
| Migration.Database.CloseDuplicates | services/message/migrations/005_conversations_refactor.sql:233-248 | exactly the active memberships that are not the first of their pair are closed |
| Common.TrimSpaceExact | services/message/internal/service/conversation_service.go:43-50 | trimming cuts off space at both ends and nothing else, and leaves none there |

## Left out

- Time: every reading of a clock is a parameter, and so are the tick, the duration of a flush and `NOW()`.
- Integer widths: counters, ids and durations are unbounded. The 64-bit Go counters and the 32-bit columns are not modelled (an id above 2^31 - 1 is not found here and an error of Postgres); Atoi's range, the serial's bounds in the migration and the int32 of the join request are.
- Strings are sequences of single-byte characters: `len` in Go counts bytes and VARCHAR(120) counts characters, which agree here; TrimSpace knows the ASCII spaces. A NUL character, which Postgres refuses in text and the maps take, is not told apart.
- Uuids are numbers; reading one from a string is a parameter, and its printed form is not modelled.
- Faults of the databases and of Redis: a statement either has its effect or hits a modelled constraint. In the batching protocol, by contrast, the repository may return anything, and a join request may go unanswered.
- Interleaving inside a conversation-service call, inside `refresh` and inside `MarkRead`: the code reads and then writes under separate locks or statements, and each call is one step here. The batching writer is modelled step by step, down to the single saves of a flush.
- BatchRefinement.BatchingIsDirectSaving: does not model that an answer is a reference to the stored row, so that a later edit shows in it; the answer is the row as its save returned it. The class BatchWriter.Writer does hand out the references.
- JSON, JWT signatures and bcrypt: an encoded notification is its value or undecodable bytes, the password verdict is a parameter, and minted refresh tokens are distinct because their `jti` is unique (section 4.1.7 of RFC 7519). Access tokens and `validateToken` are not modelled.
- BulkInsert.MessageTable.Insert: does not model concurrent inserts, which may leave gaps between the ids of a batch; RETURNING lists the rows in the order of VALUES.
- The other queries of the Postgres message repository; it differs from the memory repository by design (limit of 100, soft delete), so the two are not compared. Of its receipts, the upsert, the lookup and the soft delete are modelled.
- Expiry of Redis lists, which would only drop a list whole.
- NATS request handlers other than GROUP_GET and the two authorization checks, among them NEW_MESSAGE, which hands messages to the writer without the trimming and length check of SendMessage.
- Migration 005, sections 1 to 3, and the dropping of old constraints: renames and copies that depend on the catalog.
- HTTP handlers, media, user profiles, display names, validation of transfer objects and the mapping of errors to codes.
