# Verification model of the chat server and of its extension linker

This project models the transactional core of the server (`server/src`) and the link phase of the extension toolkit
(`packages/extend/src`), and proves properties of it for every input, every run and every interleaving of steps. The
database has one connection, so a transaction is one atomic step; where the program works in several separately locked
steps (joining a call, paging by cursor, polling for bot events, writing a blob and then its row) the steps are separate
and others may come in between.

- **Messages** (`MessageLog`, `EpochOrder`, `WhisperFilter`, `MessagePaging`, `PagingEdges`, `PagingArrival`,
  `PagingStall`, `MessageRules`, `PageRules`, `MessageStore`): the log of a room, in which commits advance epochs by compare-and-swap (the ordering that section 14 of RFC 9420 asks of a delivery
  service), numbering, edit chains, tombstones, and keyset paging through a pre-filter that is a text pattern.
- **Rooms** (`Rooms`, `RoomInvariants`, `RoomRules`, `RoomStore`, `MemberPaging`): membership, ownership and its handover, moderation,
  invites, and the two-segment listing of users and bots.
- **Key packages** (`KeyPackages`, `PackageClaims`, `PackageRules`, `KeyPackageStore`): a mailbox of single-use packages drawn by claims,
  additions and bot grants (section 16.8 of RFC 9420).
- **Limits** (`TimeWindows`, `ProxyQuota`, `QuotaLedger`, `QuotaRules`, `RateWindow`): counters per window, and what they add up to.
- **Bots** (`BotLog`, `BotRules`, `BotSync`, `BotReplica`, `BotRaces`, `BotStore`): settings, the event log, and a bot that follows it
  by polls of several reads.
- **Calls** (`CallOccupancy`, `CallLifecycle`, `CallRules`, `CallRaces`, `CallServer`): nested maps of participants, and an admission
  that adds first and counts afterwards.
- **Attachments** (`Attachments`, `AttachmentRules`, `AttachmentPruning`, `AttachmentRaces`, `AttachmentStore`): rows, blobs, failures between
  them, requests that overlap, retention.
- **Extensions** (`LinkRules`, `LinkMounts`, `LinkEvents`, `LinkValidator`, `StableSort`, `ExtensionRegistry`,
  `Vocabulary`, `VocabularyEvents`, `LinkForms`): the rules that span extensions, the validator that decides them, and the vocabulary built beside it.
- **Signing** (`Signing`): the two byte strings that are signed.
- `Prelude`, `TextOrder` and `TextSplit` hold what several of these need.

The modules called rules say, in terms of the tables and the request alone, when each operation is accepted, what each
refusal means, what is changed and what is not, and lift that to runs: who is in a room was let in, what is stored was
sent, what has ended was ended by somebody entitled to it.

Code that updates state in place is a class or a method with loops, specified by a function on values; what the program
promises is proved about the functions. Answers of the database are parameters, constrained to be answers of the query
that is asked: ties may fall either way. Generated ids are parameters too; one that is already taken is a database error.

## What the code does not promise

Some promises turn out to hold only under a condition. The model keeps the code and states the condition.

- A page of messages may be empty while messages are outstanding: the text pattern lets whispers through to ids that
  differ from the reader's in the case of letters, or anywhere the reader's has an underscore
  (`WhisperFilter.CandidateIff`), and the exact filter then removes them. `PagingStall.EmptyPageIff` and
  `PagingStall.EveryPageIsEmptyIff` say, by what is in the table, when a page may be and when it must be empty;
  by `PagingStall.StrangersWhispersStallAReader` a reader with such a neighbour in the room gets nothing more, at that page
  size and whatever is written, once one more whisper to the neighbour than the page holds comes first.
- `server/README.md:866` tells a client that has missed commits to fetch them from `since_epoch=N`, its own epoch (which
  without a `since_seq` is refused as an invalid cursor). From a cursor inside epoch N, or at (N, 0), the commit of epoch N
  never arrives, and no later edit of a message of epoch N does, for both are stored with number 0:
  `PagingEdges.CommitOfReachedEpochNeverArrives`; with the cursor (0, 0) this is so of epoch 0
  (`PagingEdges.EpochZeroIsOutOfReach`). A reader who comes from an earlier epoch gets the commit unless the page ends,
  just before it, with an edit that has the same key: `PagingArrival.CommitArrivesIff`, with such a run in
  `PagingArrival.EditMayHideACommit`.
- The wait that a proxy refusal names is rounded down: `ProxyQuota.WaitIsEnoughIff`.
- The four reads of a bot's poll are not one transaction. An event that is logged between the reading of the events and
  the reading of the highest number is skipped without a word, and so are deleted events when a bot polls from 0:
  `BotSync.SyncIsHonestIff`. When this does harm is said by `BotRaces.PollIsHarmlessIff`; runs that go wrong are
  `BotRaces.PollMissesAWrite` and `BotRaces.BlindPollGoesStale`.
- A leave that has counted nobody clears the call, and with it exactly whoever has come in since the count:
  `CallRaces.ClearingTakesNewcomers`. It is harmless if and only if no join that has passed the session check is yet to be
  added and none can begin: `CallRaces.ClearingIsHarmlessIff`, with a run in `CallRaces.LeaveMayDropANewcomer`.
- A call that has been ended and cleared stays empty if and only if no such join was under way when it was cleared:
  `CallRaces.EndedCallStaysEmptyIff`, with a run in `CallRaces.EndedCallMayBeOccupied`.
- Requests for one attachment must not overlap freely: a deletion or a prune whose second half comes after a new upload
  of the same bytes, one that comes between the blob and the row of an upload, and two uploads of which one is torn in the
  middle of its write all leave a row without its blob. `AttachmentRaces.OverlapIsHarmlessIff` says which requests under way can,
  `AttachmentRaces.StartIsHarmlessIff` which may begin, and `AttachmentPruning.OverlapLosesABlob` is an example.
- The validator finds only cycles of two extensions; `LinkRules.NoMutualMounts` says no more than that.
- Where the documentation differs, the code is followed: members are listed in id order (`server/README.md:703` says
  owners first), a kick queues one remove per user (`server/README.md:729` says one per device), and the original row of an
  edited message keeps its `edited_at` (`server/README.md:894`).

## Model

| member | source | states |
|---|---|---|
| MessageLog.RunIsWellFormed | server/src/room_messages.rs:188-369 | after any run of submits, edits and deletions, replaying the rows of a room in insertion order leads to its current epoch and sequence, and each row carries the numbers and backward links that its place demands |
| MessageLog.SubmitKeepsWellFormed | server/src/room_messages.rs:208-339 | a submit, accepted or refused, keeps that: replay still leads to the stored epoch and sequence, and the new row fits its place |
| MessageLog.EditKeepsWellFormed | server/src/room_messages.rs:740-905 | an edit keeps that: its row repeats its original but for the text and is numbered one more than the edits there are |
| MessageLog.DeleteKeepsWellFormed | server/src/room_messages.rs:660-737 | a deletion keeps that: a tombstone disturbs no number and no link |
| MessageLog.MaxIsCount | server/src/room_messages.rs:825-835 | the greatest edit number of a message is the number of its edits |
| MessageLog.ReplyOf | server/src/room_messages.rs:288-306 | a stored reply names a row of the same room that was stored before |
| MessageRules.SubmitIsAcceptedIff | server/src/room_messages.rs:188-339 | a submit is accepted if and only if its sender is a member, it was sent for the room's current epoch, a commit carries a transcript hash, what it answers is in the room and its id is free; then one row is appended that carries exactly what was sent |
| MessageRules.SubmitCounts | server/src/room_messages.rs:240-335 | an accepted commit ends the epoch, any other message takes the next number in it, and the reply says so; no other room changes |
| MessageRules.SubmitIsRefusedFor | server/src/room_messages.rs:195-306 | which refusal means what, in order of precedence; a mismatch names the current and the sent epoch |
| MessageRules.EditIsAcceptedIff | server/src/room_messages.rs:740-905 | an edit is accepted if and only if its sender is a member and wrote the message, which is an original application message of the room, not deleted, within the window; its row carries the new text and all else from the original |
| MessageRules.EditIsRefusedFor | server/src/room_messages.rs:770-822 | which refusal of an edit means what, in order of precedence |
| MessageRules.DeleteIsAcceptedIff | server/src/room_messages.rs:660-737 | a deletion is accepted if and only if the message is in the room, not deleted, and the requester is its sender, an owner, or a moderator where there is moderation; exactly that row gets a tombstone with the time |
| MessageRules.DeleteIsRefusedFor | server/src/room_messages.rs:684-706 | which refusal of a deletion means what |
| MessageRules.OneCommitPerEpoch | server/src/room_messages.rs:222-275 | over every run, of two commits sent for the same epoch of a room at most one is accepted |
| MessageRules.RowsWereSent | server/src/room_messages.rs:188-369 | over every run each row was stored by a request that was in order when it came and carries what that sent, so a message lies only in the epoch it was sent for and under the name of its sender |
| MessageRules.TombstonesWereAllowed | server/src/room_messages.rs:684-715 | over every run each tombstone was set by somebody who might delete the message, at the time it bears |
| EpochOrder.EpochsAreLinear | server/src/room_messages.rs:208-339 | in every reachable state the epoch of a room is the number of its accepted commits, each past epoch has exactly one commit and the current one none, the messages of each epoch are numbered 1 to n without gaps (n being the stored sequence in the current epoch), and submission order is the order of (epoch, seq) |
| EpochOrder.CommitsFormALine | server/src/room_messages.rs:222-275 | the k-th commit of a room is the commit of epoch k |
| EpochOrder.SequenceHasNoGaps | server/src/room_messages.rs:308-335 | every number up to the last is taken by exactly one original message of its epoch |
| EpochOrder.SubmissionOrderIsKeyOrder | server/src/room_messages.rs:308-335 | of two original messages of a room the earlier one has the smaller (epoch, seq) |
| EpochOrder.KeysOfOriginalsAreUnique | server/src/room_messages.rs:308-335 | no two original messages of a room share an (epoch, seq) |
| EpochOrder.NamesEarlierRowOfTheRoom | server/src/room_messages.rs:288-306 | what a row replies to or edits is an earlier row of its room |
| EpochOrder.TrailsEnd | server/src/room_messages.rs:288-306 | following replies and edits from any row stays in the room and ends, after at most as many steps as there are earlier rows |
| EpochOrder.EditsAreNumbered | server/src/room_messages.rs:790-863 | the edits of any message are numbered exactly 1 to k in order of insertion and keep its sender, type, epoch, reply and targets, and only an original has any |
| EpochOrder.TombstoneFreezesEdits | server/src/room_messages.rs:708-715 | once a message is deleted no run adds an edit of it |
| WhisperFilter.VisibleIsCandidate | server/src/room_messages.rs:418-475 | every row that the exact filter shows to a reader passes the text pattern of the query |
| WhisperFilter.CandidateIff | server/src/room_messages.rs:418-445 | with the ids that the server generates, the pattern lets through exactly what is for all, from the reader, or to some id that equals the reader's up to ASCII case, with any character where the reader's has an underscore |
| WhisperFilter.CandidateMayBeInvisible | server/src/room_messages.rs:418-475 | the rows that pass the pattern and not the filter are exactly the whispers of others to such an id and not to the reader |
| MessagePaging.PagingDeliversExactlyOnce | server/src/room_messages.rs:400-620 | a member who keeps asking with the last cursor, while others submit, edit and delete, has received every visible original message up to the cursor exactly once and in submission order, whatever else the pages held |
| MessagePaging.PollKeepsServed | server/src/room_messages.rs:426-517 | one more page keeps that what was received is exactly the visible messages up to the cursor |
| MessagePaging.WriteKeepsServed | server/src/room_messages.rs:188-369 | a write keeps it too: no message comes to lie behind a cursor that has been handed out |
| MessagePaging.NothingIsSkipped | server/src/room_messages.rs:426-517 | a visible message between two cursors is on the page between them |
| MessagePaging.PageIsNew | server/src/room_messages.rs:610-613 | a page repeats no row that was received before |
| PageRules.ListIsRefusedIff | server/src/room_messages.rs:404-413 | listing is refused to those who are not members, with that error, and to nobody else |
| PageRules.OutsiderReceivesNothing | server/src/room_messages.rs:404-413 | over every run somebody who is not a member and is not made one receives nothing and keeps the cursor |
| PageRules.ClampIs | server/src/room_messages.rs:415-419 | a limit that is not positive is read as 50, one above 500 as 500 |
| PageRules.PageIs | server/src/room_messages.rs:452-620 | a page holds the first rows of the answer that the reader may see, as many as the limit, backwards without a cursor; `has_more` says whether any were left out, and `next_cursor` is the key of the last row |
| PageRules.MoreIsMore | server/src/room_messages.rs:511-516 | when `has_more` is true a row that the reader may see is waiting behind the page |
| PageRules.NoMoreIsAll | server/src/room_messages.rs:511-516 | where the text pattern is exact, it is true if and only if such a row is left out |
| PagingEdges.EmptyPageMeansCaughtUp | server/src/room_messages.rs:426-517 | if the pattern is exact for the room, a page is empty if and only if nothing visible is outstanding |
| PagingStall.EmptyPageIff | server/src/room_messages.rs:418-517 | while something is outstanding, the database may answer with nothing but rows that are filtered out if and only if at least as many such candidates as one query fetches come no later than the first outstanding row |
| PagingStall.EveryPageIsEmptyIff | server/src/room_messages.rs:418-517 | and it cannot but do so if and only if at least as many come before it |
| PagingStall.StrangersWhispersStallAReader | server/src/room_messages.rs:457-516 | for any two members with ids equal up to case and underscores: one more whisper to the one than the page of the other holds, and no poll of that size ever brings the other anything again, whatever is written, although a message for everybody waits |
| PagingEdges.CommitOfReachedEpochNeverArrives | server/src/room_messages.rs:240-243 | after a cursor inside an epoch no later page brings the commit of that epoch, nor any further edit of a message of it |
| PagingEdges.EpochZeroIsOutOfReach | server/src/room_messages.rs:240-243 | a reader who begins at (0, 0) never receives the commit of epoch 0 nor an edit of its messages |
| PagingArrival.RowArrivesIff | server/src/room_messages.rs:426-517 | over every run a row arrives if and only if some poll moves the cursor over it after it was stored, and the page does not end before it with a row of the same key |
| PagingArrival.CommitArrivesIff | server/src/room_messages.rs:240-243 | over every run a commit arrives if and only if it was already stored at the poll with which the reader leaves the earlier epochs, and is not cut off there by a row of the same key |
| PagingArrival.CutOffIsATie | server/src/room_messages.rs:840-863 | only rows stored with number 0 are ever cut off, only by one of the same epoch, and one of the two is an edit |
| PagingArrival.TieLosesCommit | server/src/room_messages.rs:457-516 | whenever a commit comes next and shares its key with an edit, the database may answer a page of one with the edit, and then the commit never arrives |
| PagingArrival.EditMayHideACommit | server/src/room_messages.rs:457-516 | such a run from the empty tables: at cursor (0, 0) a page of one brings the edit with key (1, 0), and the commit of epoch 1 never arrives |
| PagingEdges.PagesMakeProgress | server/src/room_messages.rs:610-613 | a page that is not empty moves the cursor forward |
| PagingEdges.CursorOnlyAdvances | server/src/room_messages.rs:610-613 | no run of polls and writes moves a cursor back |
| PagingEdges.NewestPageIsTheTail | server/src/room_messages.rs:518-607 | a page without a cursor is in ascending order and holds the newest visible rows: none that it leaves out is newer than one it holds |
| PagingEdges.AnswerExists | server/src/room_messages.rs:427-445 | for every table and cursor the query has an answer, so no statement about answers is empty |
| MessageStore.MessageStore.SubmitMessage | server/src/room_messages.rs:188-369 | the whole new state and reply are those of the specified submit: accepted, exactly one row of the sender is appended; refused, nothing changes; the invariant is kept |
| MessageStore.MessageStore.EditMessage | server/src/room_messages.rs:740-905 | the whole new state and reply are those of the specified edit: accepted, exactly one edit of the message is appended; refused, nothing changes; the invariant is kept |
| MessageStore.MessageStore.NextEditSequence | server/src/room_messages.rs:825-835 | the loop over the edits finds one more than their number |
| MessageStore.MessageStore.DeleteMessage | server/src/room_messages.rs:660-737 | the whole new state and reply are those of the specified deletion: accepted, only tombstones change; refused, nothing does; the invariant is kept |
| MessageStore.MessageStore.ListMessages | server/src/room_messages.rs:400-620 | filtering, cutting and reversing in loops gives the specified page and changes nothing |
| MessageStore.Reverse | server/src/room_messages.rs:605 | reversing in place gives the reverse of the array |
| RoomInvariants.RunIsSane | server/src/rooms.rs:942-1063 | after any run of create, add, redeem, leave, kick, promote, demote, transfer and delete, each room has exactly one member with the owner role, and that is the room's owner |
| RoomInvariants.StepKeepsSane | server/src/rooms.rs:1641-1891 | each operation keeps that, keeps invites to existing rooms with different ids and codes, and keeps uses within a positive limit |
| RoomInvariants.OwnerNeverLacksHeir | server/src/rooms.rs:1006-1037 | the successor query finds a row whenever the owner leaves others behind |
| RoomInvariants.LeaveHandsOver | server/src/rooms.rs:1006-1063 | an owner's leave makes an earliest-joined moderator the owner if there is a moderator, else an earliest-joined member, and changes no other member |
| RoomInvariants.RoomEndsWithItsLastMember | server/src/rooms.rs:974-992 | a leave deletes the room if and only if the leaver was its only member |
| RoomInvariants.OtherStepsKeepRooms | server/src/rooms.rs:487-594 | apart from a leave of the last member and an owner's deletion no operation removes a room |
| RoomInvariants.MembershipIsConserved | server/src/room_invites.rs:322-439 | a room's member count is 1 plus direct additions plus the uses of its invites minus leaves and kicks, and as many removes are queued as members were kicked |
| RoomInvariants.RoomsStayWithinSize | server/src/rooms.rs:1490-1500 | with a fixed limit no room grows past it, but that its creator is always in it |
| RoomInvariants.RevokedInvitesAreFrozen | server/src/room_invites.rs:261-320 | while its room lasts a revoked invite stays as it is, so its count never changes again |
| RoomInvariants.InviteUseKeepsInvites | server/src/room_invites.rs:322-439 | redeeming keeps `current_uses` within a positive `max_uses` |
| RoomRules.CreateIs | server/src/rooms.rs:487-594 | when a room can be created, and that its creator is then its owner and only member and nothing else changes |
| RoomRules.LeaveIs | server/src/rooms.rs:942-1063 | every member may leave; who else stays, and who owns the room then |
| RoomRules.DeleteIs | server/src/rooms.rs:725-774 | only an owner deletes a room; with it go its invites and removes and no others; which refusal means what |
| RoomRules.AddIs | server/src/rooms.rs:1426-1534 | only an owner adds members; when that is accepted, which refusal means what, and that the new one is a plain member and nobody else changes |
| RoomRules.KickIs | server/src/rooms.rs:1641-1702 | a kick is accepted if and only if both are members, the requester is an owner, or a moderator where there is moderation, and the target is neither the requester nor an owner; exactly the target goes and exactly his remove is queued |
| RoomRules.PromoteIs | server/src/rooms.rs:1704-1764 | only an owner promotes, where there is moderation, and only a plain member; nothing but that role changes |
| RoomRules.DemoteIs | server/src/rooms.rs:1766-1826 | only an owner demotes, where there is moderation, and only a moderator; nothing but that role changes |
| RoomRules.TransferIs | server/src/rooms.rs:1828-1891 | only an owner transfers a room, to another member, and becomes a plain member; nobody else changes |
| RoomRules.InviteIs | server/src/room_invites.rs:95-188 | every member may invite, for up to 10000 uses and 365 days; the invite is new, with a code that was free among the first five, and carries the terms asked for |
| RoomRules.RevokeIs | server/src/room_invites.rs:261-320 | every member may revoke an invite of the room that is not revoked; only it changes |
| RoomRules.RedeemIs | server/src/room_invites.rs:322-439 | an invite lets in while it is not revoked, expired or used up and there is room; which refusal means what; who is inside already uses nothing up |
| RoomRules.RedeemLetsIn | server/src/room_invites.rs:400-439 | who is let in becomes a plain member, one use of that invite is counted, and nothing else changes |
| RoomRules.MembersWereLetIn | server/src/rooms.rs:1426-1534 | over every run, whoever is in a room created it, was added by its owner or redeemed an invite to it that was live |
| RoomRules.MembershipEndsBy | server/src/rooms.rs:1641-1702 | while its room lasts a membership ends only by leaving or by a kick from somebody who may |
| RoomRules.RoleChangesBy | server/src/rooms.rs:1704-1891 | roles change only by the hand of an owner |
| RoomStore.RoomStore.Create | server/src/rooms.rs:487-594 | whole new state and reply of creating a room, invariant kept |
| RoomStore.RoomStore.Leave | server/src/rooms.rs:942-1063 | whole new state and reply of leaving, with any successor that the query may return: accepted, the leaver is no longer in the room; refused, nothing changes; invariant kept |
| RoomStore.RoomStore.Delete | server/src/rooms.rs:725-774 | whole new state and reply of deleting a room, invariant kept |
| RoomStore.RoomStore.DeleteRoomRow | server/src/rooms.rs:985-988 | the cascades in loops remove exactly the invites and removes of the room |
| RoomStore.RoomStore.Add | server/src/rooms.rs:1426-1534 | whole new state and reply of a direct addition, invariant kept |
| RoomStore.RoomStore.Kick | server/src/rooms.rs:1641-1702 | whole new state and reply of a kick: accepted, the target was in the room and is not; refused, nothing changes; invariant kept |
| RoomStore.RoomStore.Promote | server/src/rooms.rs:1704-1764 | whole new state and reply of a promotion, invariant kept |
| RoomStore.RoomStore.Demote | server/src/rooms.rs:1766-1826 | whole new state and reply of a demotion, invariant kept |
| RoomStore.RoomStore.Transfer | server/src/rooms.rs:1828-1891 | whole new state and reply of a transfer, invariant kept |
| RoomStore.RoomStore.Invite | server/src/room_invites.rs:95-188 | whole new state and reply of creating an invite, invariant kept |
| RoomStore.RoomStore.TryCodes | server/src/room_invites.rs:140-188 | the retry loop returns the first generated code that is free, or none |
| RoomStore.RoomStore.Revoke | server/src/room_invites.rs:261-320 | whole new state and reply of revoking an invite, invariant kept |
| RoomStore.RoomStore.Redeem | server/src/room_invites.rs:322-439 | whole new state and reply of redeeming an invite, invariant kept |
| MemberPaging.ListMembers | server/src/rooms.rs:1066-1227 | listing is refused to those who are not members and to nobody else; the page is the first part of the members that the cursor asks for, users before bots in id order, with a cursor exactly when something is left; a limit of 0 gives nothing |
| MemberPaging.WalkReturnsWhoStayed | server/src/rooms.rs:1066-1227 | following the cursors to the end returns everybody who was a member throughout exactly once and in order, whoever else joins and leaves between the pages |
| MemberPaging.WalkEnds | server/src/rooms.rs:1066-1227 | on a fixed room the pages end after at most one request more than the room has members, and together they are exactly its members |
| KeyPackages.PackagesAreSingleUse | server/src/key_packages.rs:201-293 | over any run of uploads, claims, additions and bot grants a normal package is handed out at most once, is consumed exactly when it has been, and last-resort packages are never consumed |
| KeyPackages.PendingAddIsSoleHolder | server/src/rooms.rs:1261-1300 | the normal package that a pending add names is consumed and held by no other pending add and no claim |
| KeyPackages.GrantKeepsSound | server/src/rooms.rs:1304-1332 | granting a bot consumes each of its normal packages and queues each once |
| KeyPackages.AddKeepsSound | server/src/rooms.rs:1536-1604 | drawing packages device by device keeps single use |
| PackageClaims.ClaimsDrainInOrder | server/src/key_packages.rs:220-270 | claims in a row return the normal packages in (created_at, id) order, each once, then the same oldest last-resort package for ever, or fail if there is none |
| PackageClaims.QueueExists | server/src/key_packages.rs:220-230 | every table has such an order |
| PackageClaims.ChoiceIsOldest | server/src/rooms.rs:1548-1588 | the package chosen for a device is a normal one if any is offered, and none of its kind is older |
| PackageClaims.AddsAreDeviceByDevice | server/src/rooms.rs:1536-1604 | an addition queues, for each device that offers a package, the one that it would get alone |
| PackageClaims.UploadIsAllOrNothing | server/src/key_packages.rs:93-153 | a batch is stored if and only if the user exists and every client of it stays within the limit, and then all of it; otherwise nothing is |
| PackageClaims.QuotaHolds | server/src/key_packages.rs:99-122 | under a fixed limit no client of any user ever has more unconsumed packages than that |
| PackageClaims.CountUnconsumed | server/src/key_packages.rs:171-199 | the loop over the grouped counts reports every client that has any, and the total is the number of unconsumed packages of the user |
| PackageRules.UploadStores | server/src/key_packages.rs:68-169 | an accepted batch is stored behind the old packages, each with its key, user, client, suite, data, last-resort flag and time, not consumed; a quota refusal names a client and its true counts |
| PackageRules.UnconsumedIsCount | server/src/key_packages.rs:99-110 | the count that the quota is about is the number of unconsumed rows of the client |
| PackageRules.ClaimIs | server/src/key_packages.rs:201-293 | when a claim fails and why; otherwise it returns the first package on offer, normal before last resort, older before newer, and consumes it if it is normal, changing nothing else |
| PackageRules.AddIs | server/src/rooms.rs:1536-1604 | an addition only appends pending adds, for the room, the user and its devices, and only consumes normal packages of those |
| PackageRules.GrantIs | server/src/rooms.rs:1304-1332 | a grant queues each selected package for the room and the bot and consumes exactly the bot's normal packages |
| PackageRules.LastResortServes | server/src/key_packages.rs:237-264 | over every run a last-resort package stays as it was uploaded, claims never come back empty, and once the normal packages have gone they return a last-resort package and change nothing |
| PackageRules.UploadedLastResortServes | server/src/key_packages.rs:124-153 | this holds from the accepted upload of such a package on |
| KeyPackageStore.KeyPackageStore.Upload | server/src/key_packages.rs:68-169 | counting into a map, checking and inserting row by row with rollback is the specified upload |
| KeyPackageStore.KeyPackageStore.CountPerClient | server/src/key_packages.rs:93-97 | the map holds for each client of the batch the number of its packages |
| KeyPackageStore.KeyPackageStore.Claim | server/src/key_packages.rs:201-293 | whole new state and reply of a claim, single use kept |
| KeyPackageStore.KeyPackageStore.AddDevices | server/src/rooms.rs:1536-1604 | the loop over devices, with the batch queued after it, is the specified addition |
| KeyPackageStore.KeyPackageStore.SelectForBot | server/src/rooms.rs:1304-1332 | marking the selected packages one by one and queueing them is the specified grant |
| TimeWindows.FloorIs | server/src/rate_limit.rs:70-100 | each moment lies in exactly one window of a unit |
| ProxyQuota.ChargeIsAllOrNothing | server/src/extensions_proxy/limits.rs:59-198 | a request is refused if and only if one of its four counters would pass its limit; a refusal changes none and names the longest wait among those, otherwise all four grow by the amount and no other does |
| ProxyQuota.WaitIsEnoughIff | server/src/extensions_proxy/limits.rs:114-123 | waiting as told outlasts every violated window if and only if the refusal came on a whole second or all of them end within one |
| ProxyQuota.OneSecondMoreIsEnough | server/src/extensions_proxy/limits.rs:114-123 | one second more than told always is enough |
| ProxyQuota.ProxyQuota.Check | server/src/extensions_proxy/limits.rs:59-198 | bumping the counters in a loop with rollback is the specified charge |
| QuotaLedger.RunIsSane | server/src/extensions_proxy/limits.rs:59-198 | over any run with cleanups no counter passes its limit, and until a cleanup reaches its window each counter is the sum of the accepted amounts of that window |
| QuotaLedger.TotalIsSumOfExtensions | server/src/extensions_proxy/limits.rs:70-95 | a user's total in a window is the sum over the extensions that have a counter there |
| QuotaLedger.CoarseIsSumOfFine | server/src/cleanup/rate_limits.rs:13-18 | while the counter of an hour (for bytes, of a day) is in the table it is the sum of those of its minutes (hours) |
| QuotaLedger.RunIsWhole | server/src/extensions_proxy/limits.rs:26-57 | every counter is of a window that starts where windows start |
| QuotaLedger.KeysAreUnambiguous | server/src/extensions_proxy/limits.rs:69-95 | two counters with the same key text are of the same kind, user, extension and unit, whatever the extension is called, if user ids hold no colon |
| QuotaRules.RequestIsRefusedIff | server/src/extensions_proxy/limits.rs:59-127 | a request is refused if and only if the extension's count of the minute or of the hour, or the total of the minute or of the hour, would pass the limit configured for it |
| QuotaRules.BytesAreRefusedIff | server/src/extensions_proxy/limits.rs:129-198 | the same for bytes, per hour and day |
| QuotaRules.ChargeMoves | server/src/extensions_proxy/limits.rs:95-127 | an accepted request moves these four counters by its amount and no other; a refused one moves none |
| QuotaRules.RefusalNamesLongestWait | server/src/extensions_proxy/limits.rs:114-123 | the wait that is named lasts, in whole seconds rounded down and at least 1, to the end of the longer window if that is overdrawn and else of the shorter |
| QuotaRules.CountersStayWithin | server/src/extensions_proxy/limits.rs:59-198 | over every run each of the eight kinds of counters stays within the limit configured for it |
| QuotaRules.KeyTextIs | server/src/extensions_proxy/limits.rs:69-95 | how the keys of the counters are written |
| RateWindow.FirstChecksAreAllowed | server/src/rate_limit.rs:567-592 | in every window the checks allowed are as many as the limit or as there are, refused ones counting too |
| RateWindow.RemainingIsExact | server/src/rate_limit.rs:580-592 | the remaining number is what the window still allows, and the next check in it is allowed if and only if that is not 0 |
| RateWindow.AtMostTwiceTheLimit | server/src/rate_limit.rs:70-100 | no span of time as long as one window lets through more than twice the limit |
| RateWindow.TwiceTheLimitIsReached | server/src/rate_limit.rs:567-592 | for every limit a run lets through twice as many within two neighbouring seconds |
| RateWindow.ResetIsExact | server/src/rate_limit.rs:70-100 | the reset that a check names is the first second of the next window |
| RateWindow.RateLimiter.Check | server/src/rate_limit.rs:567-592 | the stored counter and the decision are the specified ones |
| BotLog.RunIsSane | server/src/bots/delivery.rs:16-75 | over any run with a clock that does not go back, each bot's retained log is a contiguous interval that ends just below its next number, no number was ever skipped, each payload carries its number, and a setting has a client ciphertext exactly when it is not secret |
| BotLog.CleanUpKeepsSane | server/src/cleanup/bot_event_log.rs:17 | deleting by age removes a lower part of each log |
| BotLog.RewriteIsSilent | server/src/bots/settings.rs:226-250 | writing the same values again changes nothing and repeats the reply |
| BotLog.WriteIsAcceptedIff | server/src/bots/settings.rs:142-222 | which writes are accepted, that they store what was sent and touch no other setting, and that a refused one changes nothing |
| BotRules.WriteMoves | server/src/bots/settings.rs:226-298 | a write that changes something takes its owner's next number, stores what was sent and logs one event; one that changes nothing moves nothing |
| BotRules.WriteIsRefusedFor | server/src/bots/settings.rs:142-222 | which refusal of a write means what, in order of precedence |
| BotRules.DeleteIs | server/src/bots/settings.rs:329-375 | when a setting can be deleted, and that it alone goes, with one number and one event |
| BotRules.AsciiKeyIsValidIff | server/src/bots/settings.rs:51-59 | a key of ASCII characters is valid if and only if it has 1 to 256 of them, none a control character |
| BotRules.CleanUpIs | server/src/cleanup/bot_event_log.rs:4-22 | a cleanup deletes exactly the events older than 24 hours |
| BotRules.OwnersNumbersCount | server/src/bots/settings.rs:252-298 | over every run the numbers given to an owner's changes are counted without gaps |
| BotSync.SyncIsHonestIff | server/src/routes/bots.rs:2255-2345 | with writes between its four reads, a reply lists every event up to the number it ends with or asks for a full fetch if and only if the poll is not from 0 after the first event has been deleted and, unless it asks for a full fetch, no event after the given number was logged between the first two reads |
| BotSync.AsksForAllIff | server/src/routes/bots.rs:2308-2342 | a bot whose number is not beyond the last is told to fetch everything if and only if that number is not 0 and its event has been deleted, or an event up to it has expired |
| BotReplica.CaughtUpCopyIsExact | server/src/routes/bots.rs:2255-2345 | however writes, deletions, cleanups, failures and the single reads of polls and fetches interleave, a bot that has polled to the end and fetched every named key holds exactly the stored settings, if it never polled blindly and nothing was logged for it between the first two reads of a poll |
| BotRaces.PollIsHarmlessIff | server/src/routes/bots.rs:2261-2306 | whatever is carried out between the first two reads of a poll, the bot will be right whenever it is caught up if and only if it is told to fetch everything anyway, or the events that the reply misses (logged since the first read, or deleted before it) name only keys that it fetches anyway or that are as it copied them |
| BotRaces.AnyNewValueIsMissed | server/src/routes/bots.rs:2261-2306 | in every such state a new value of a key that is not about to be fetched makes the bot wrong if it is written between the first two reads |
| BotRaces.PollMissesAWrite | server/src/routes/bots.rs:2298-2306 | a run in which it does, from an empty log |
| BotRaces.BlindPollGoesStale | server/src/routes/bots.rs:2308-2310 | a run in which a blind poll leaves the copy wrong although nothing seems missing |
| BotStore.BotStore.Write | server/src/bots/settings.rs:142-298 | whole new state, history and reply of writing a setting: accepted, it can be read back as it was sent; refused, nothing changes; invariant kept |
| BotStore.BotStore.Validate | server/src/bots/settings.rs:51-222 | the checks in their order find the specified first objection |
| BotStore.BotStore.Delete | server/src/bots/settings.rs:329-375 | whole new state, history and reply of deleting a setting: accepted, it was there and it alone is gone; refused, nothing changes; invariant kept |
| BotStore.BotStore.PrepareEvent | server/src/bots/delivery.rs:60-75 | an event gets the next number of its bot, in its row and in its payload |
| BotStore.BotStore.CleanUp | server/src/cleanup/bot_event_log.rs:17 | the new state is that of the cleanup step, invariant kept |
| CallOccupancy.KeysAreUsers | server/src/calls/occupancy.rs:11-21 | the calls and users of the nested maps are those of the relation, none of them empty |
| CallOccupancy.RepresentationIsUnique | server/src/calls/occupancy.rs:11-21 | the relation determines the nested maps |
| CallOccupancy.CallOccupancyStore.AddClient | server/src/calls/occupancy.rs:29-42 | adds exactly one entry to the relation, and a call keeps its start |
| CallOccupancy.CallOccupancyStore.RemoveClient | server/src/calls/occupancy.rs:44-65 | takes away exactly one entry and leaves no empty map |
| CallOccupancy.CallOccupancyStore.RemoveUser | server/src/calls/occupancy.rs:67-79 | takes away exactly the entries of the user in the call |
| CallOccupancy.CallOccupancyStore.ClearCall | server/src/calls/occupancy.rs:135-138 | takes away exactly the entries of the call |
| CallOccupancy.CallOccupancyStore.ParticipantCount | server/src/calls/occupancy.rs:126-133 | is the number of distinct users of the call |
| CallOccupancy.CallOccupancyStore.IsParticipant | server/src/calls/occupancy.rs:81-89 | tells whether the user has an entry in the call |
| CallOccupancy.CallOccupancyStore.FindUserForClient | server/src/calls/occupancy.rs:101-111 | finds a user with the client, or there is none |
| CallOccupancy.CallOccupancyStore.ParticipantUserIds | server/src/calls/occupancy.rs:113-124 | lists the users of the call but the excluded one |
| CallLifecycle.AdmittedUsersFit | server/src/calls/lifecycle.rs:111-126 | however joins (add, count, undo), leaves and ends interleave, the users whose join succeeded and who are still in the call never exceed the limit, and the store exceeds it by no more than the number of joins not yet answered |
| CallLifecycle.OvershootIsBounded | server/src/calls/lifecycle.rs:111-126 | whoever is in the store has been admitted or has a join under way, so the overshoot is at most the number of those joins |
| CallLifecycle.SessionsContinue | server/src/calls/lifecycle.rs:75-109 | a session keeps its room, initiator and start, and an ended one stays ended |
| CallLifecycle.OverIsForGood | server/src/calls/lifecycle.rs:85-92 | once a call has ended and the joins under way are answered, nobody is ever in it again |
| CallRules.OpenSessionIs | server/src/calls/lifecycle.rs:75-109 | a session is opened by the first join and found by later ones of the same room while it has not ended; which refusal means what |
| CallRules.MayEndIs | server/src/calls/lifecycle.rs:245-278 | only whoever began a call and the owner of its room end it, and ending it again does nothing |
| CallRules.RefusalIs | server/src/calls/lifecycle.rs:56-73 | which of the checks that come first is reported |
| CallRules.BeginsIff | server/src/calls/lifecycle.rs:44-300 | a join, a leave or an end gets under way if and only if its checks pass and, for a join, the call is open in the room, for an end, it has not ended and the caller is entitled to end it |
| CallRules.CountIs | server/src/calls/lifecycle.rs:210-218 | a leave goes on to clear the call if and only if nobody is left in it |
| CallRules.OccupantsWereAllowed | server/src/calls/lifecycle.rs:44-126 | over every run, whoever is in a call came by a join that passed its checks while the call was open |
| CallRules.EndsWereAllowed | server/src/calls/lifecycle.rs:223-290 | over every run, a call that has ended was ended by its initiator or the owner of its room |
| CallRaces.ClearingTakesNewcomers | server/src/calls/lifecycle.rs:210-218 | the clearing of a leave takes away exactly the entries of its call that were added after the count found nobody and are still there |
| CallRaces.ClearingIsHarmlessIff | server/src/calls/lifecycle.rs:210-218 | it takes nobody away, whatever comes between, if and only if the call has ended and no join of it that has passed the session check is yet to be added; and if and only if there is no such join, provided that none begins |
| CallRaces.LeaveMayDropANewcomer | server/src/calls/lifecycle.rs:210-218 | an interleaving in which it takes away a user who has joined |
| CallRaces.EndedCallStaysEmptyIff | server/src/calls/lifecycle.rs:85-115 | in every run, a call that an end has marked and cleared stays empty whatever follows if and only if no join of it that has passed the session check is yet to be added, and whoever is in it later came by such a join |
| CallRaces.EndedCallAdmitsNobodyIff | server/src/calls/lifecycle.rs:111-126 | nobody is ever admitted to an ended and empty call if and only if there is no such join or the limit is 0 |
| CallRaces.EndedCallMayBeOccupied | server/src/calls/lifecycle.rs:85-115 | an interleaving in which a user is in a call that has ended |
| CallServer.CallServer.Join | server/src/calls/lifecycle.rs:44-126 | undisturbed, a join succeeds if and only if its checks pass, the call is open in the room and then fits the limit; each refusal means what it says and leaves the relation without its entry |
| CallServer.CallServer.Leave | server/src/calls/lifecycle.rs:180-221 | undisturbed, a leave is accepted if and only if its checks pass, and takes away exactly its entry |
| CallServer.CallServer.End | server/src/calls/lifecycle.rs:223-300 | undisturbed, an end is accepted if and only if the call is one of the room and the caller its initiator or the room's owner; it marks that session with the time and empties the call; ending again changes nothing |
| Attachments.EveryRowHasItsBlob | server/src/attachments.rs:207-263 | uploads, deletions, prunes and room deletions, stopped after any effect or in the middle of writing a blob, leave every row with a blob whose hash is its id |
| Attachments.CutKeepsSane | server/src/attachments.rs:230-263 | a request whose effects are safe one by one may be cut anywhere |
| Attachments.UploadIsSafe | server/src/attachments.rs:207-263 | an upload writes a blob only while no row names it, and its row only beside it |
| Attachments.PruneIsSafe | server/src/attachments.rs:463-500 | a prune deletes a blob only after its row, for any ids that the query may return |
| AttachmentRules.UploadIsAcceptedIff | server/src/attachments.rs:108-263 | an upload is accepted if and only if its id, size and manifest are in order, its hash is its id, its uploader is in the room it names and it is not somebody else's; its row carries what was sent, or is the one there was |
| AttachmentRules.UploadIsRefusedFor | server/src/attachments.rs:108-228 | which refusal of an upload means what |
| AttachmentRules.DeleteIs | server/src/attachments.rs:375-418 | only its uploader deletes an attachment; its row goes, and its blob unless that fails, and nothing else |
| AttachmentRules.RowsGoOnlyBy | server/src/attachments.rs:375-503 | however far a request gets, a row goes only by its uploader's deletion, a prune that is due or the end of its room |
| AttachmentRules.ExpiredIff | server/src/attachments.rs:436-459 | a row is due when it is older than the effective retention of its room, in days |
| AttachmentPruning.RetentionIsLeastTier | server/src/rooms.rs:56-71 | the effective retention is 0 if and only if some tier says 0, and otherwise is the least of the tiers |
| AttachmentPruning.CompletedPruneIsExact | server/src/attachments.rs:421-503 | a prune that completes removes exactly the rows older than the effective retention of their room, across chunks of 500, and exactly their blobs but for those whose deletion failed |
| AttachmentPruning.DueByItsOwnRoom | server/src/attachments.rs:429-459 | which scan decides about a row: that of its own room |
| AttachmentPruning.UploadIsIdempotent | server/src/attachments.rs:207-228 | uploading the same again changes nothing and returns the same row |
| AttachmentPruning.OverlapLosesABlob | server/src/attachments.rs:396-415 | a deletion whose second half comes after a new upload leaves a row without a blob |
| AttachmentRaces.OverlapIsHarmlessIff | server/src/attachments.rs:207-500 | requests under way, in any interleaving of their steps, with storage calls that fail or tear and tasks that stop, cannot leave a row without its blob if and only if no id is at risk: no blob about to be deleted or written while its row is there, no row about to be inserted without its blob, no upload that will insert beside a deletion, a prune or another write of the same id |
| AttachmentRaces.StartIsHarmlessIff | server/src/attachments.rs:207-500 | which request may begin beside those under way: an upload of what is not there if and only if nothing else of that id is under way that writes, inserts or deletes, a deletion or prune if and only if no upload that will insert what it removes is |
| AttachmentRaces.CarefulRunIsSane | server/src/attachments.rs:207-500 | over every run of overlapping requests that begin only when they may, every row has its blob |
| AttachmentRaces.BeginsIfAccepted | server/src/attachments.rs:108-228 | a task begins for exactly the requests that are accepted where requests do not overlap |
| AttachmentRaces.UploadAlone | server/src/attachments.rs:207-263 | an upload whose steps nothing disturbs does to the store what the undivided upload does |
| AttachmentStore.AttachmentStore.Upload | server/src/attachments.rs:108-263 | the effects that are carried out and the reply are those of the specified upload |
| AttachmentStore.AttachmentStore.Delete | server/src/attachments.rs:375-418 | the row is deleted first and then the blob; a blob that cannot be deleted does not fail the request |
| AttachmentStore.AttachmentStore.Prune | server/src/attachments.rs:421-503 | the loops over rooms, chunks and blobs carry out the specified effects, and rows deleted is blobs deleted plus blob errors |
| LinkRules.HostIsUnique | packages/extend/src/validate-link.js:72-85 | with different short ids a slot key belongs to one extension at most |
| LinkValidator.ValidateLink | packages/extend/src/validate-link.js:15-199 | for registries with different short ids the validator finds no error if and only if the extensions link: routes unique within and across detail and list, every mount on a declared slot, single slots with one mount at most, no mutual mounts, every listened event emitted, schemas equal pairwise, session types unique, no reserved preference |
| LinkMounts.CollectRoutes | packages/extend/src/validate-link.js:55-71 | the map has exactly the routes, and an error is found if and only if one repeats |
| LinkMounts.CollectSlots | packages/extend/src/validate-link.js:73-85 | the map holds for each key the extension and the flag that were declared last |
| LinkMounts.CollectMounts | packages/extend/src/validate-link.js:137-160 | the fillers of each declared slot in order, the graph of who mounts on whom, and an error if and only if some mount is undeclared |
| LinkMounts.CheckCycles | packages/extend/src/validate-link.js:172-179 | an error if and only if the graph has an edge both ways |
| LinkMounts.CyclesAreMutualMounts | packages/extend/src/validate-link.js:172-179 | which is if and only if two extensions mount on each other |
| LinkMounts.FillersAreSingle | packages/extend/src/validate-link.js:162-169 | no single slot has two fillers if and only if no two mounts name the same single slot |
| LinkEvents.AreSchemasEqual | packages/extend/src/validate-link.js:268-281 | comparing sorted keys and then values decides equality |
| LinkEvents.CheckSchemas | packages/extend/src/validate-link.js:189-198 | comparing only the first schema with the others decides whether all agree pairwise |
| LinkEvents.CollectEvents | packages/extend/src/validate-link.js:86-100 | the map holds for each event its emitters, its listeners and the last schema of each extension |
| LinkEvents.EventsDecide | packages/extend/src/validate-link.js:181-199 | the checks on the map decide that listeners are matched and schemas agree |
| LinkValidator.SessionsAreUniqueIff | packages/extend/src/validate-link.js:102-112 | with ids that hold no colon the joint keys repeat if and only if a type repeats within an extension |
| LinkValidator.CheckPreferences | packages/extend/src/validate-link.js:114-127 | an error if and only if a preference key is reserved or has a reserved prefix |
| ExtensionRegistry.ExtensionRegistry.Add | packages/extend/src/registry.js:12-20 | adds an extension behind the others if and only if it has an id that is not taken |
| ExtensionRegistry.ExtensionRegistry.OwnerOfRoute | packages/extend/src/registry.js:69-76 | returns the first extension with the detail route, or there is none |
| ExtensionRegistry.ExtensionRegistry.ByRailOrder | packages/extend/src/registry.js:56-61 | returns a permutation of the extensions with a rail in the order of their rails, those with the same order in the order in which they were added |
| ExtensionRegistry.OwnerIsUnique | packages/extend/src/registry.js:69-76 | among extensions that link a detail route has one owner |
| StableSort.SortSorts | packages/extend/src/vocab.js:74-79 | sorting by a total order sorts |
| StableSort.SortPermutes | packages/extend/src/vocab.js:74-79 | sorting permutes |
| StableSort.SortIsStable | packages/extend/src/registry.js:56-61 | a sequence is the sorted one if and only if it is in order and elements that tie stand as they stood before |
| Vocabulary.SlotVocabulary.Build | packages/extend/src/vocab.js:30-79 | the slots are the declared ones with the flag that counts, each with the sorted fillers of the mounts that go to it |
| Vocabulary.SlotFillersAgree | packages/extend/src/vocab.js:56-79 | the fillers of a slot are a permutation of the mounts of its key, sorted by order and then id |
| Vocabulary.NoMountIsLost | packages/extend/src/vocab.js:56-72 | of extensions that link there are as many fillers as mounts |
| VocabularyEvents.EventVocabulary.Build | packages/extend/src/vocab.js:81-129 | each event lists exactly its emitters, receivers and listeners, each once and sorted |
| VocabularyEvents.ListenedEventsHaveEmitters | packages/extend/src/vocab.js:81-129 | of extensions that link every listened event lists an emitter |
| LinkForms.FillersAreInOrder | packages/extend/src/vocab.js:56-79 | the fillers of a slot are those of the mounts that go to it, with their component and order, by rising order and then by id |
| LinkForms.PublicsAre | packages/extend/src/vocab.js:81-129 | the receivers of an event are the extensions that declare it public |
| LinkForms.ShortIdIs | packages/extend/src/validate-link.js:72-85 | the short id is what follows the last dot |
| LinkForms.LookupIs | packages/extend/src/validate-link.js:72-85 | of several declarations of a slot name the last counts |
| LinkForms.ReservedIs | packages/extend/src/validate-link.js:114-127 | which preference keys are reserved |
| Signing.EncodeMessage | server/src/signing.rs:12-31 | appending field by field gives the specified encoding |
| Signing.EncodePublisherKey | server/src/signing.rs:37-49 | appending field by field gives the specified encoding |
| Signing.MessageReadsBack | server/src/signing.rs:7-31 | a parser recovers the exact fields of a message, whatever follows the encoding, if and only if they are shorter than 2^32 bytes and the epoch is a 64-bit number |
| Signing.PublisherKeyReadsBack | server/src/signing.rs:33-49 | the same for a publisher key |
| Signing.MessagesArePrefixFree | server/src/signing.rs:12-31 | an encoding begins with another if and only if the messages are the same |
| Signing.PublisherKeysArePrefixFree | server/src/signing.rs:37-49 | an encoding begins with another if and only if the publisher keys are the same |
| Signing.LongFieldIsCutShort | server/src/signing.rs:22-25 | a field reads back as itself if and only if it is shorter than 2^32 bytes; a longer one is read as its beginning, and the rest is taken for what follows |

## Left out

- Message rows written by bots, reactions, read counts and `edited_at` (which no modelled operation reads).
- Deleting the messages of a room with the room: a room of the message model is never deleted, and its id never used again.
- Reader ids that JSON would escape: delivery is proved for ids without quotes, backslashes and control characters, as the
  server generates them.
- Limits on ciphertext sizes and on targets, and everything that is validated before a transaction begins.
- Room metadata, retention and file-size overrides at creation, welcomes, and the pending-remove queue after a kick.
- Pending adds that expire or are consumed, and packages of a removed device being deleted.
- Account anonymisation, which deletes memberships without a handover.
- Publishing, push, audit entries and mapping errors to HTTP replies.
- Hashes, base64, JSON and randomness are not computed: hashes are a function parameter, decoded lengths and generated ids
  are inputs. The JSON of whisper targets is modelled, because the pattern search depends on its text.
- Counters and sizes are unbounded integers; where 64-bit or 32-bit arithmetic would wrap is not modelled, except in the
  length prefixes of signed fields.
- The quota cleanups compare timestamps as text, which may keep a row up to a day longer than 24 hours: the model allows any
  cutoff that is at least 24 hours back.
- Data-export limits, whose key changes every hour.
- The bot runtime that is shipped fetches all settings at every settings event and after every reconnect, and begins again
  from 0 when it is told to fetch everything (`packages/bot/src/runtime/index.js:701-733`): the model lets a bot do so, and
  also lets it fetch single keys and go on from the last number. Events that are pushed to it over the websocket, which
  also set its number, are not modelled.
- Storage calls may tear in the model, whatever the backend; the file backend renames a finished file into place.
- A database error between the steps of a join, which would leave its entry in the call.
- The smallest retained number of an empty bot log is taken to be absent, as the code intends.
- Rail, icon and scope warnings of the validator, which never make it refuse.
- The schemas, routes, sessions, preferences, permissions and component names of the vocabulary, each a copied and sorted list.
- Comparison of ids by locale in the vocabulary is any total preorder; sorts are stable, as the language says.
- JavaScript objects are read as the shape check of the toolkit leaves them: ids without colons, mounts with one dot.
- LinkRules.NoMutualMounts: says nothing of longer cycles, because the validator does not look for them.
- CallServer.CallServer.Leave: states one undisturbed request; interleavings are in the call life cycle.
