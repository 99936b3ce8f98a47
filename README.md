# social-server message core in Dafny

This project models the message-delivery core of the social server: the
relational store behind chat, the session store, the recycling id pool
and the request handlers that orchestrate them.

- `types.dfy` (`Types`): the shared records. These are the conversation
  address `PeerId`, `ChatMsg`, the inbox message `ChatMsgOfConv` and the
  session context `SessCtx`, plus `Result`/`Outcome` wrappers for calls
  that can fail.
- `id_allocator.dfy` (`IdAllocator`): the class `IDAllocator`. It holds a free
  set of handed-back ids and a bump counter capped at 65536; 0 means the
  pool is exhausted.
- `session_cache.dfy` (`SessionCache`): the class `Cache` over two Redis
  keyspaces, held as maps. `session:<id>` maps to the session record and
  `user:<username>:sessions` to the set of that user's ids. The index is
  keyed by username. A TTL running out is the key disappearing. Whether a
  Redis round trip or transaction succeeds is a parameter of each call.
- `storage.dfy` (`Storage`): the class `Db`, holding two things.
  - The wrapper state: the connection handle, present or not; the
    retrying flag; the count of statements in flight; and the one-slot
    reconnect mailbox, as a boolean.
  - The tables, as maps: the per-user, per-pair and per-group sequence
    counters, the per-owner inboxes as sequences of rows, group
    membership with roles, users and groups.

  Every statement goes through the admission gate. Whether an admitted
  statement succeeds is chosen nondeterministically, and so is the
  database's send timestamp. A ghost journal `written` records every inbox
  row ever inserted. The fan-out contracts are stated over it, through
  the predicates `IsFanOut` and `Sent`.
- `core.dfy` (`Core`): the handlers. User management, session management
  and the chat service are collaborators: the arrow fields of a `Services`
  value. Each handler returns the error code it selects and the log of
  collaborator calls it issued, in order. That log is what the contracts
  speak about: what was asked, of whom, and what was never sent.

Calls run one at a time, each atomically.

The mark-read cleanup before an inbox insert follows the code. It deletes the
owner's earlier mark-read markers from the same sender to the same
receiver or group whose read cutoff is at most the new one. It does not
touch unread message rows. A failed delete is only logged, so the cleaned
inbox may be the old one or the filtered one.

Two unchecked results of the code are modelled as nondeterministic
choices. First, a multi-row read stops when `rows.Next()` reports false,
and `rows.Err()` is never consulted (db.go:749-757, 767-776, 1066-1093).
An iteration error therefore ends the read early, and the rows read so
far come back as a success. The member list, the admin list and the
message list are all stated as prefixes of the stored rows, and every
fan-out built on them is stated over the list actually read. Second, in
the session store's walk of a user's index, the SREM for a stale id is
not checked (cache.go:191). A failed SREM leaves that id in the index.

## Model

| member | source | states |
|---|---|---|
| IdAllocator.IDAllocator.constructor | src/utils/utils.go:14-20 | a new pool has curAvaId 1, no free ids and a maximum of 65536 |
| IdAllocator.IDAllocator.GetId | src/utils/utils.go:22-38 | a handed-back id is reissued first and the counter is left alone; otherwise the counter's id is issued while it is at most maxIds, and the counter moves up by one; otherwise the result is 0 and nothing changes; every non-zero id lies in 1..maxIds |
| IdAllocator.IDAllocator.PutId | src/utils/utils.go:40-49 | an id outside 1..maxIds is ignored; an in-range id joins the free set, so handing it back twice is handing it back once; the counter never moves |
| IdAllocator.DrawFromNewPool | src/utils/utils.go:14-38 | with nothing handed back, successive draws from a new pool are 1, 2, ..., 65536 and then 0 forever |
| IdAllocator.RecycleThenDraw | src/utils/utils.go:22-49 | an id handed back to a pool whose free set is empty is the very next id drawn, and the counter is untouched |
| SessionCache.Cache.constructor | src/app/data/cache.go:101-146 | the store starts with no session records and no user indexes |
| SessionCache.Cache.CreateSess | src/app/data/cache.go:101-146 | the record holds the uid, the username, CreatedAt = now and ExpiresAt = now + timeout; the id joins the username's index and both keys share one TTL, so a TTL of 0 removes both; a failure to generate the id or to commit changes nothing and returns no id |
| SessionCache.Cache.GetSessCtx | src/app/data/cache.go:148-171 | a missing or expired record is "session not found"; a present record reads back with the queried id and the stored uid, username and timestamps; a Redis error is passed on |
| SessionCache.Cache.GetSessCtxByUsername | src/app/data/cache.go:173-201 | an empty index is an error; each stale id met is sent an SREM whose failure is ignored, so only stale ids are pruned and exactly those whose SREM passed; the first live session is returned, and it belongs to the username; an all-stale index is an error, after which only the ids whose SREM failed remain; a lookup error other than "not found" stops the walk; no other user's index and no record changes |
| SessionCache.Cache.DeleteSess | src/app/data/cache.go:203-232 | a missing record is "session not found" and changes nothing; otherwise the record and only that id in its owner's index are removed, so the owner's other sessions and every other index survive |
| SessionCache.Cache.ExpireSession | src/app/data/cache.go:134-141 | the TTL of a session record running out removes that record and nothing else |
| SessionCache.Cache.ExpireUserIndex | src/app/data/cache.go:134-141 | the TTL of a user index running out removes that index and nothing else |
| SessionCache.CreateThenGet | src/app/data/cache.go:101-171 | with nothing deleted or expired in between, a created session reads back by its id with the uid, username, CreatedAt and ExpiresAt that were stored |
| SessionCache.ExpiredThenLookedUp | src/app/data/cache.go:148-201 | once a session record has expired, a lookup by id is "session not found", and a later walk of the owner's index either finds another live session or has pruned the id |
| Storage.IssuedIdsConsecutive | src/app/data/db.go:297-324 | successive allocations for one key hand out consecutive ids, starting from the key's next id |
| Storage.IssuedIdsFromScratch | src/app/data/db.go:297-324 | allocations for a key that has no counter row yet hand out 1, 2, 3, ... |
| Storage.IssueAdvances | src/app/data/db.go:297-324 | an allocation moves only its own key's counter, and by exactly one |
| Storage.OrderedPair | src/app/data/db.go:326-333 | the pair key holds both uids, the smaller first |
| Storage.OrderedPairSymmetric | src/app/data/db.go:326-333 | (a, b) and (b, a) name the same direct-chat counter |
| Storage.IssueAllCounts | src/app/data/db.go:967-987 | after one allocation per row of a fan-out, each owner's counter has moved by the number of rows that owner received |
| Storage.ConvertDbMsgToChatMsgOfConv | src/app/data/db.go:262-294 | a row decodes exactly when it names a receiver or a group; a non-null group_id gives a group address and wins over receiver_id; otherwise receiver_id gives a user address; the other fields are copied; a row with neither is the invalid-peer error |
| Storage.InboxRowRoundTrip | src/app/data/db.go:271-294 | an inbox row written for a message decodes back to that message, apart from the row's own seqId, the database's send time, the default read flag and status, and the address reduced to the id its type selects |
| Storage.IssuePreservesInboxes | src/app/data/db.go:297-324 | allocating an id keeps every inbox ordered and its ids issued |
| Storage.AppendPreservesInboxes | src/app/data/db.go:929-942 | inserting a row under the id just allocated from the owner's counter keeps every inbox in strictly increasing seqId order |
| Storage.WithoutSupersededMarkersSpec | src/app/data/db.go:909-927 | the mark-read cleanup removes exactly the earlier markers from the same sender to the same receiver or group with a cutoff at most the new one; it keeps every other row, in order |
| Storage.WithoutSupersededMarkersIdempotent | src/app/data/db.go:909-927 | cleaning an inbox a second time removes nothing more |
| Storage.CopyIsSupersededMarker | src/app/data/db.go:909-942 | the copy a mark-read message leaves in an inbox is one of the markers the next copy of that message deletes |
| Storage.MarkedReadIdempotent | src/app/data/db.go:1028-1040 | marking a conversation read twice with the same cutoff is marking it once |
| Storage.MarkedReadPreserves | src/app/data/db.go:1028-1040 | marking rows read keeps an inbox ordered |
| Storage.SinceSpec | src/app/data/db.go:1050-1055 | the cursor query selects exactly the owner's rows with seqId above the cursor; on an ordered inbox it returns them in ascending seqId order |
| Storage.ConvertRows | src/app/data/db.go:1066-1093 | the rows read decode one by one, in order, into a list of that length; the list fails exactly when some row read names neither a receiver nor a group; an iteration error ends the loop early and what was decoded so far is a success |
| Storage.FanOutShape | src/app/data/db.go:967-987 | a fan-out writes one copy of the message per owner, in the owners' order; the k-th copy for an owner has that owner's next id plus k, so one owner's copies get distinct, increasing seqIds |
| Storage.FanOutAt | src/app/data/db.go:967-987 | the row a fan-out writes at one position is its owner's copy under that owner's next id plus the copies the owner received before it |
| Storage.DistributeRows | src/app/data/db.go:967-987 | after a batch is inserted, each inbox holds its old rows followed by the batch rows it owns, in batch order |
| Storage.SentStep | src/app/data/db.go:903-986 | one more delivery attempt of a fan-out extends its progress by the next owner when it passes, with that owner's counter advanced, and records a failure at that owner otherwise; the journal, the untouched inboxes and the last copies stay in step |
| Storage.FanOutOwned | src/app/data/db.go:967-987 | every owner of a fan-out receives at least one row, and every row it receives is its own copy of the message |
| Storage.ReachedOwnersEndWithCopy | src/app/data/db.go:955-986 | during a fan-out every owner reached so far ends its inbox with a copy of the message, except the owner whose attempt just failed |
| Storage.AdminIdsSpec | src/app/data/db.go:760-777 | the admin list holds exactly the members with role 1 (owner) or 2 (administrator), and no more entries than members |
| Storage.AdminIdsPrefix | src/app/data/db.go:760-777 | the admins among a prefix of the member rows are a prefix of the whole admin list |
| Storage.NonEmptyAssignmentsSpec | src/app/data/db.go:467-507 | an update sets exactly the candidate columns with a non-empty value, in their order; it sets none exactly when every value is empty |
| Storage.UserCandidatesEmpty | src/app/data/db.go:467-507 | a user update has nothing to set exactly when nickname, email, avatar and password are all empty |
| Storage.GroupCandidatesEmpty | src/app/data/db.go:672-703 | a group update has nothing to set exactly when the name and the avatar are both empty |
| Storage.UserUpdateFields | src/app/data/db.go:467-490 | the SET list and the argument list name the non-empty ones of nickname, email, avatar and password, in that order, each placeholder beside its value |
| Storage.GroupUpdateFields | src/app/data/db.go:672-685 | the SET list and the argument list name the non-empty ones of group name and avatar, in that order |
| Storage.UserUpdateApplies | src/app/data/db.go:467-490 | executing the SET list built from the non-empty values, in order, on a user row sets exactly those of nickname, email, avatar and password, to those values |
| Storage.GroupUpdateApplies | src/app/data/db.go:672-685 | executing the SET list built from the non-empty values on a group row sets exactly those of the name and the avatar, to those values |
| Storage.Db.constructor | src/app/data/db.go:90-126 | a new store has no handle, is not retrying, has nothing in flight, an empty mailbox and a limit of 10000 statements in flight |
| Storage.Db.TryPush | src/app/data/db.go:81-88 | a signal is put in the mailbox when it is empty; a second signal while one is pending is dropped and reported as false; it never blocks |
| Storage.Db.TriggerReconnect | src/app/data/db.go:172-174 | after a request, a signal is pending |
| Storage.Db.Init | src/app/data/db.go:176-181 | the first call starts the reconnect task and signals it; later calls change nothing |
| Storage.Db.ReconnectTask | src/app/data/db.go:140-170 | outside the retry loop the task waits for a signal; a handle that answers the probe is kept; otherwise it drops the handle, sets retrying and tries to connect until an attempt succeeds, which clears retrying; while attempts fail it stays retrying |
| Storage.Db.WithReconnectHandling | src/app/data/db.go:183-210 | it refuses without running the statement when there is no handle, while retrying, or when more than the maximum are in flight; a count equal to the maximum is admitted; the count is back to its entry value afterwards; a failed statement raises the reconnect signal and an error, a successful one passes |
| Storage.Db.Run | src/app/data/db.go:212-220 | a statement's outcome is the gate's refusal, a failure that raises the reconnect signal, or a pass |
| Storage.Db.QueryRow | src/app/data/db.go:242-250 | a single-row query is refused only by the gate and never raises the reconnect signal |
| Storage.Db.Allocate | src/app/data/db.go:297-324 | a counter read that finds no row hands out 1 and stores 2; one that finds V hands out V and stores V+1; a failure leaves the counters as they were |
| Storage.Db.AllocateSeqId | src/app/data/db.go:297-324 | hands out the uid's next inbox id and advances only that counter; a failure leaves the counters alone; every inbox stays ordered |
| Storage.Db.AllocateChatSeqId | src/app/data/db.go:326-356 | hands out the next id of the ordered pair's counter, whichever uid sends, and advances only that counter |
| Storage.Db.AllocateGroupSeqId | src/app/data/db.go:358-385 | hands out the group's next conversation id and advances only that counter |
| Storage.Db.GroupGetMemList | src/app/data/db.go:742-758 | a successful read lists the uids of the group's member rows in table order: all of them, or a prefix when an unchecked iteration error ends the loop |
| Storage.Db.GroupGetAdminList | src/app/data/db.go:760-777 | a successful read lists, in table order, the uids of the members with role 1 or 2 among the rows read; that is every admin, or a prefix of the admin list when an unchecked iteration error ends the loop |
| Storage.Db.DeleteSupersededMarkers | src/app/data/db.go:909-927 | the owner's inbox loses exactly its superseded mark-read markers, or is unchanged when the delete fails; no other inbox changes |
| Storage.Db.InsertCopy | src/app/data/db.go:929-942 | on success one row is journalled: the owner's copy of the message under the owner's next id, appended to the owner's inbox, with that counter advanced; on failure nothing is inserted, and the counter may already have advanced; no other inbox changes |
| Storage.Db.ChatSendMsgToUser | src/app/data/db.go:903-945 | a mark-read message first cleans the owner's earlier markers, or leaves them when the delete fails; then the copy is inserted under a fresh id from the owner's counter at the end of the owner's inbox; only the owner's inbox changes; a failure leaves the inbox as the cleanup left it |
| Storage.Db.SendOne | src/app/data/db.go:980-986 | one delivery of a fan-out extends its progress by one owner when it passes, and that owner's inbox then ends with the new copy; when it fails the progress stays and the failed owner's inbox may only have been cleaned |
| Storage.Db.SendToEach | src/app/data/db.go:955-986 | copies go to the owners in order and stop at the first failure, with no rollback; the rows written are the fan-out to the owners reached, each under the owner's next id; only those inboxes change and the counters advance per row; an ordinary message lands exactly at the end of each inbox, a mark-read one after a cleanup that keeps the inboxes equal once cleaned |
| Storage.Db.ChatSendMsg | src/app/data/db.go:947-990 | a direct message takes one conversation id from the ordered pair's counter and writes the receiver's copy, then the sender's; a group message reads the member list, takes one group conversation id and writes one copy per member read; every copy carries that shared conversation id; every owner reached ends its inbox with its copy, mark-read messages included, except the owner of a failed last attempt; on a failure the earlier copies stay |
| Storage.Db.ChatSendMsgDirect | src/app/data/db.go:948-966 | the pair's conversation id is allocated first; a failure there writes nothing; then the receiver's copy and the sender's are written in that order, each reached owner ending its inbox with its copy |
| Storage.Db.ChatSendMsgGroup | src/app/data/db.go:967-983 | the member list is read before the group's conversation id is allocated; either failing writes nothing; the copies go to the members read, which are a prefix of the group's member rows, each reached member ending its inbox with its copy |
| Storage.Db.InsertForEach | src/app/data/db.go:1010-1023 | inserts one copy per administrator in order, each under that administrator's next id and at the end of that inbox, stopping at the first failure |
| Storage.Db.ChatSendMsgToAdmins | src/app/data/db.go:992-1026 | a non-group address is refused and changes nothing; otherwise the admin list and one group conversation id are read and every owner or administrator read, a prefix of the group's admins, gets a copy under that id, stopping at the first failure |
| Storage.DirectSendLands | src/app/data/db.go:947-966 | a direct send that passes leaves both the receiver's and the sender's inbox ending with a copy of the message, a mark-read message included |
| Storage.Db.ChatMarkRead | src/app/data/db.go:1028-1040 | in both the reader's and the contact's inbox, the rows from the contact to the reader with a conversation id at most the cutoff become read; a failed first update changes nothing, a failed second leaves only the reader's update |
| Storage.Db.ChatGetMsgList | src/app/data/db.go:1050-1093 | the list is a prefix of the owner's rows above the cursor, decoded in order: every returned message is above the cursor and the seqIds strictly increase; when the iteration was not cut short every row above the cursor appears; failures are the query's |
| Storage.Db.UserUpdateInfo | src/app/data/db.go:467-507 | with every value empty nothing is run and the call passes; otherwise the user row becomes the row with its SET list applied, which changes only the non-empty columns, to their values; a failure changes nothing |
| Storage.Db.GroupUpdateInfo | src/app/data/db.go:672-703 | with both values empty nothing is run and the call passes; otherwise the group row becomes the row with its SET list applied, which changes only the non-empty columns, to their values; a failure changes nothing |
| Core.FromApiPeer | src/app/service/core/core.go:1118-1149 | a wire address becomes a stored address of the user type exactly when it is the Uid variant |
| Core.ApiPeerRoundTrip | src/app/service/core/core.go:1118-1149 | storing a wire address and mapping it back to the wire gives the same address |
| Core.PeerRoundTrip | src/app/service/core/core.go:1244-1248 | a stored address survives the wire round trip exactly when it is a uid address with group 0 or a group address with uid 0 |
| Core.NewCursorCovers | src/app/service/core/core.go:1258-1262 | the new cursor is the last message's seqId, or the request's cursor when nothing came; for an ascending batch above the cursor it never moves back and covers every message delivered |
| Core.SessUserLogin | src/app/service/core/core.go:54-105 | a failed authentication is UserFailedToAuth and creates no session; a session is created only after a successful authentication and uid lookup, with a 7200 s timeout; success returns that session id and uid; every other failure is UnknownErr |
| Core.UmRegister | src/app/service/core/core.go:131-177 | an existing username is UserAlreadyRegistered and Register is never called; Register is called only after validation and only with the password's hash; success is exactly validation, a free name and a registration that passed |
| Core.ChatSendMsg | src/app/service/core/core.go:1090-1158 | no session is UnknownErr after the lookup alone; a non-mutual contact is IsNotContact and a non-member UserNotInGroup, both exactly; an unset peer is UnknownErr; nothing is sent unless the sender may write to the peer; a sent message is addressed to the peer, from the session's uid, with the request's type, content and cursor |
| Core.Deliver | src/app/service/core/core.go:1149-1157 | the message is handed to the chat service, and the handler succeeds exactly when the chat service accepts it |
| Core.GetUpdateList | src/app/service/core/core.go:1203-1266 | no session is UnknownErr after the lookup alone; a fetch error wrapping the timeout is Timeout and any other fetch error UnknownErr; otherwise the messages map one to one, in order, into wire form, and the cursor is the new cursor |
| Core.Notify | src/app/service/core/core.go:769-781 | one notice per member, in the member list's order, and nothing else |
| Core.Prepare | src/app/service/core/core.go:735-759 | proceeds exactly when the session lookup, the group's conversation id and the member list all succeed; otherwise UnknownErr, with no message sent |
| Core.UmGroupDelete | src/app/service/core/core.go:731-785 | it succeeds exactly when the session, the conversation id, the member snapshot and the deletion all succeed; the snapshot is read before the deletion; every member in it gets a GroupDeleted notice from the deleter under the one conversation id; a failure sends nothing |
| Core.UmGroupLeave | src/app/service/core/core.go:915-969 | as for deletion; the snapshot is read before leaving, so the leaver is notified too; every notice is GroupUserLeft from the leaver under one conversation id |
| Core.UmGroupDelMem | src/app/service/core/core.go:1009-1063 | as for deletion; the snapshot is read before the removal, so the removed user is notified too; every notice is GroupUserRemoved, naming the removed user as sender, under one conversation id |
| Core.AcceptAs | src/app/service/core/core.go:854-876 | the admin's accept call comes first; a GroupUserJoined notice to the group, from the newcomer, is sent only after the accept passed; success is both passing |
| Core.UmGroupAcceptAsWritten | src/app/service/core/core.go:843-877 | the handler as written ends in a nil dereference exactly when the session lookup fails |
| Core.UmGroupAccept | src/app/service/core/core.go:843-877 | with a failed session lookup answered UnknownErr, success is exactly the session, the accept and the notice all passing |
| Core.UmGroupAcceptAgrees | src/app/service/core/core.go:843-877 | the corrected handler replies exactly as the written one whenever the session is found |
| Core.RejectAs | src/app/service/core/core.go:890-912 | the admin's reject call comes first; a GroupRejected notice to the requester, from the admin, is sent only after the reject passed |
| Core.UmGroupRejectAsWritten | src/app/service/core/core.go:879-913 | the handler as written ends in a nil dereference exactly when the session lookup fails |
| Core.UmGroupReject | src/app/service/core/core.go:879-913 | with a failed session lookup answered UnknownErr, success is exactly the session, the reject and the notice all passing |
| Core.UmGroupRejectAgrees | src/app/service/core/core.go:879-913 | the corrected handler replies exactly as the written one whenever the session is found |

## Left out

- Concurrency is not modelled: the reconnect goroutine, the mutex around the in-flight count, the per-user mutexes and the read-then-write race in the allocators. Calls are sequential and atomic.
- MySQL and Redis are replaced by maps and sets. SQL text, row scanning and the Redis client are not modelled; a statement or round trip that fails is a nondeterministic choice or a boolean parameter.
- Counters are unbounded naturals. The 64-bit columns and their wrap-around are not modelled, since no realistic run reaches them. The id pool's 32-bit type is kept.
- The database clock is left out: `sent_at` is a nondeterministic value. Wall-clock time in the session store and the handlers is a parameter (`now`, `nowMs`).
- The session id, made from `crypto/rand` and SHA-256 (cache.go:77-99), is a fresh parameter. It appears with a flag for the random source failing. The password hash is an opaque function of the collaborators.
- Storage.Db.ReconnectTask: one wake-up of the endless task is modelled, and the retry loop runs over a finite sequence of attempt outcomes. The 10-second sleep between attempts is left out.
- Storage.Db.ChatGetMsgList: the `sql.ErrNoRows` branch is dead (a multi-row query never reports it) and is not modelled. A per-row scan error is overwritten by the decoding result and never reported, and so it is not modelled either.
- Storage.Db.ChatSendMsg: the direct send is modelled as a fan-out to the receiver and then the sender, which is what the two successive deliveries amount to.
- Core.UmGroupDelete, Core.UmGroupLeave, Core.UmGroupDelMem: a failed per-member notice is only logged and cannot change the reply, so the model does not give the sends an answer.
- Core.GetUpdateList: the long-poll wait and the renewal of the session are not part of this model. They are logged as the RenewSessCtx call, whose failure is only logged.
- The JSON cache-aside helpers of cache.go (for instance GetChatMsgList and CacheFriendList) are not modelled. They only wrap Redis and the JSON encoding.
- The other handlers of core.go are not part of this model: logout, unregister, the contact handlers, the remaining group handlers and the mark-read handler. The same holds for the remaining db.go queries they use.
- Logging, the gRPC and HTTP transport, and server start-up are not modelled.

## Findings

| source | as written | input that shows it | evidently intended | confidence | as-written member | corrected member |
|---|---|---|---|---|---|---|
| src/app/service/core/core.go:849-855 | UmGroupAccept only logs a failed GetSessCtx. It then reads `sessCtx.Uid`, but on error the session store returns a nil context (cache.go:148-157). | a session id with no session record, for which GetSessCtx answers "session not found" | reply UnknownErr before any other call, as every other session-gated handler does | not executed | Core.UmGroupAcceptAsWritten | Core.UmGroupAccept (Core.UmGroupAcceptAgrees) |
| src/app/service/core/core.go:885-891 | UmGroupReject only logs a failed GetSessCtx. It then reads `sessCtx.Uid` from the nil context. | a session id with no session record, for which GetSessCtx answers "session not found" | reply UnknownErr before any other call | not executed | Core.UmGroupRejectAsWritten | Core.UmGroupReject (Core.UmGroupRejectAgrees) |
