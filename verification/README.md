# Verified models of the Embedded-C programs

A Dafny model of the larger programs of this repository, with proofs of what they are for.
`dafny verify dfyconfig.toml` checks everything.

| files | program |
|---|---|
| `Paths`, `FileTree`, `FileProgress`, `FileEngine` | the recursive copy, delete and move of the file manager |
| `Snail` | the closed formula of the snail matrix |
| `CText`, `RoomLog`, `RoomView`, `RoomProtocol`, `RoomTruth` | the shared-memory chat room |
| `ChatSpec`, `ChatWords`, `ChatServer`, `ChatDispatch` | the message-queue chat server |
| `Checksum` | the IPv4 header checksum of the raw-socket client |
| `PipelineWiring`, `Tokenizing`, `CommandParser` | the shell with pipelines |
| `DriverCell`, `DriverManager`, `DriverTasks` | the driver manager |
| `Shop` | the threaded shop |
| `EchoTable`, `EchoPacket` | the UDP echo server and client |
| `CustomerList` | the doubly linked customer directory |

Sequential code is modelled as it is written: classes whose fields the methods change, arrays,
heap nodes, loops. Each such method is proved against a function of its inputs or of the old
state, and the laws are lemmas about those functions. Concurrent programs are state machines:
a datatype for the whole state, one step for each access to shared memory or each system call,
and theorems about the state after *any* run of enabled steps.

## How the environment is modelled

- **File system.** A map from resolved paths (sequences of names) to files and directories.
  Whether a system call succeeds is decided by the file system and by an arbitrary function
  `Refuses(call, time)`, so a theorem without a hypothesis about it holds for every pattern of
  failures. A ghost counter `refused` counts the refused calls other than `rename`, so
  `refused == old(refused)` says that an operation met no other failure; `cuts` is the same count
  without the opendir of empty directories. `Clear` says that no call about a path, what is under
  it or the directories on the way to it is refused. Directory entries come in an arbitrary order that
  includes the two dot entries. Reads and writes on open files complete.
- **Chat rooms, shop, drivers.** Locks, condition variables (with spurious wakeups), eventfds
  and timers are part of the state. Clocks do not run backwards; a timer never fires early but
  may fire late.
- **Message queues.** `mq_send` succeeds; whether a client's queue can be opened is an input.

## Findings

- *Move* and rename. With every other call succeeding, the result of a move does not depend on
  which renames succeed, at any depth, with exactly one exception: moving a directory onto an
  existing empty directory works if and only if the first `rename` works, because the fallback
  starts with `mkdir` (`FileEngine.FileSystem.MoveTree`).
- Copying a file onto itself empties it: the destination is truncated before the first read
  (`FileEngine.FileSystem.CopyTree`, `FileEngine.FileSystem.CopyFile`). Copying leaves
  everything outside the destination alone in all other cases.
- The return value of `process_tree`, documented as 0 on success, says only whether the calls
  before the first entry succeeded (`MoveGetsGoing`, `CopyGetsGoing`, `DeleteGetsGoing`). The
  results for the entries and those of `unlink` and `rmdir`, also of the top path itself, are
  ignored. So there are runs that return 0 with the work undone (`FileEngine.DeleteNothing`,
  `FileEngine.MoveNothingAway`, `FileEngine.CopyWithoutEntry`) and runs that return -1 with the
  work done (`FileEngine.CopyInSpite`). What does tell is the file system: a move or delete is
  complete if and only if its source is gone, which is the case if and only if no call other
  than rename was refused; a move that returns -1 has not touched the source.
- What is refused to one entry does not hold up the others: every path that is `Clear` is moved,
  copied or deleted, whatever happens beside it (`MoveProgress`, `CopyProgress`,
  `DeleteProgress`).
- A new driver process looks for its slot without waiting for the manager to fill it in. If it
  looks too early it exits, while its slot stays listed as active and available and tasks can be
  sent to it that nobody ever accepts; it stays if and only if the slot is active when it looks
  (`DriverTasks.EarlyDriverIsLost`, `DriverTasks.LookingDecides`, `DriverTasks.LostStaysLost`).
- A one-word change of a header escapes the checksum between 0x0000 and 0xFFFF only, and even
  that only if another word of the header is not zero (`Checksum.OneWordDetected`).
- A client of the message-queue chat gets its own join notice twice: once as a broadcast, once
  at the end of the replayed history (`ChatSpec.NoticeComesTwice`).

## Model

| member | source | states |
|---|---|---|
| `FileEngine.FileSystem.MoveTree` | simple_file_manager/src/dialog.c:233-290 | under every pattern of failures: no node of the moved tree is lost, nothing is invented, what was at the destination stays or is replaced, nothing else changes; 0 exactly when `MoveGetsGoing`; after -1 nothing has changed but, in a stated case, an empty directory made at the destination; a movable source is still there if and only if a call other than rename was refused on the way; if none was, the file system is relocated exactly when `MoveSucceeds`; and every path that is `Clear` arrives with everything under it |
| `FileEngine.FileSystem.MoveDirByHand` | simple_file_manager/src/dialog.c:245-279 | mkdir, recurse, rmdir: loses nothing whatever fails; 0 exactly when mkdir and opendir succeed; a relocation of the subtree if no call is refused, and the source directory remains if and only if one is; every `Clear` path arrives, whatever happens to the others |
| `FileEngine.FileSystem.MoveEntries` | simple_file_manager/src/dialog.c:249-275 | the move loop: false exactly when opendir is refused; otherwise the old directory is empty afterwards if and only if no call was refused, and then removing it completes a relocation; every `Clear` path below arrives, whatever happens to its siblings |
| `FileEngine.FileSystem.MoveFileByHand` | simple_file_manager/src/dialog.c:280-289 | copy, then unlink only if the copy was made: loses nothing; 0 exactly when both opens succeed; a relocation if no call is refused; the source remains exactly after -1 or a refused unlink |
| `FileEngine.FileSystem.CopyTree` | simple_file_manager/src/dialog.c:292-330 | whatever fails, nothing outside the destination changes, nothing is removed, and what appears is part of the source tree; 0 exactly when `CopyGetsGoing`; the state after -1; the copy is complete if and only if no call was refused but the opendir of empty directories (or it was complete before); a file copied onto itself is emptied; and every `Clear` path is copied with everything under it |
| `FileEngine.FileSystem.CopyDir` | simple_file_manager/src/dialog.c:294-325 | the directory branch of the copy: when it returns 0, what -1 leaves behind, and complete exactly if no call was refused but the opendir of empty directories; every `Clear` path is copied, whatever happens to the others |
| `FileEngine.FileSystem.CopyEntries` | simple_file_manager/src/dialog.c:298-323 | the copy loop: complete if and only if no call was refused but the opendir of empty directories; entries whose stat never succeeds are left out, silently; every `Clear` path is copied, whatever happens to its siblings |
| `FileEngine.FileSystem.DeleteTree` | simple_file_manager/src/dialog.c:332-364 | whatever fails, only removes, and only at or under its argument; 0 exactly when `DeleteGetsGoing`; the path is still there if and only if a call was refused; otherwise exactly the paths at or under it are gone, or all but the root itself; and every `Clear` path is gone with everything under it |
| `FileEngine.FileSystem.DeleteEntries` | simple_file_manager/src/dialog.c:336-355 | the delete loop: false exactly when opendir is refused; otherwise the directory is empty afterwards if and only if no call was refused; every `Clear` path below is gone, whatever happens to its siblings |
| `FileEngine.FileSystem.CopyFile` | simple_file_manager/src/dialog.c:89-114 | the 8192-byte block loop reproduces the content exactly, if and only if the file is not copied onto itself or is empty; succeeds exactly when both opens do; -1 changes nothing |
| `FileEngine.FileSystem.ProcessTree` | simple_file_manager/src/dialog.c:226-367 | the three operations together: the return value for every failure pattern, the safety of each, relocation, copy or removal exactly when nothing that matters was refused, and source and destination alike; and the progress of each however much is refused |
| `FileEngine.DeleteNothing` | simple_file_manager/src/dialog.c:356-363 | 0 though nothing is done: any file, deleted while unlink is refused, is still there |
| `FileEngine.MoveNothingAway` | simple_file_manager/src/dialog.c:282-285 | 0 though the source stays: any file moved while rename and unlink are refused |
| `FileEngine.CopyWithoutEntry` | simple_file_manager/src/dialog.c:305-324 | 0 though an entry is missing: any directory copied while one entry cannot be examined |
| `FileEngine.CopyInSpite` | simple_file_manager/src/dialog.c:299-301 | -1 though the copy is complete: any empty directory that cannot be opened |
| `FileTree.GoneMeansRelocated` | simple_file_manager/src/dialog.c:233-290 | the state alone tells: if a movable source is gone and nothing was lost, the whole tree is in its new place |
| `FileTree.CompleteIsSameTree` | simple_file_manager/src/dialog.c:292-330 | a copy to a free place is complete exactly when the two trees are alike afterwards |
| `FileEngine.OnlyTopCopied` | simple_file_manager/src/dialog.c:296-301 | mkdir alone is a complete copy exactly of an empty directory |
| `FileProgress.RenamesDoNotMatter` | simple_file_manager/src/dialog.c:233-290 | with every other call succeeding a movable tree is relocated, whichever renames are refused at any depth |
| `FileProgress.MoveProgressTurn` | simple_file_manager/src/dialog.c:256-273 | one turn of the move loop keeps the progress of the entries before it and adds its own |
| `FileProgress.CopyProgressTurn` | simple_file_manager/src/dialog.c:305-321 | the same for the copy loop |
| `FileProgress.DeleteProgressTurn` | simple_file_manager/src/dialog.c:342-353 | the same for the delete loop |
| `FileEngine.MoveTurn` | simple_file_manager/src/dialog.c:256-273 | one turn of the move loop, with and without refused calls before it and in it |
| `FileEngine.CopyTurn` | simple_file_manager/src/dialog.c:305-321 | the same for the copy loop |
| `FileEngine.DeleteTurn` | simple_file_manager/src/dialog.c:342-353 | the same for the delete loop |
| `FileEngine.RenameDecides` | simple_file_manager/src/dialog.c:241-248 | rename can serve exactly the moves the model calls successful; the fallback all of them but those onto an empty directory |
| `FileTree.ChildMoved` | simple_file_manager/src/dialog.c:256-273 | after one more entry, moved wholly, partly or not at all, still nothing is lost and nothing outside the handled entries differs |
| `FileTree.ChildMovedExactly` | simple_file_manager/src/dialog.c:256-273 | an entry that went over completely extends the set of entries that did |
| `FileTree.FallbackIsRelocation` | simple_file_manager/src/dialog.c:247-278 | mkdir, every entry over and rmdir give the same file system as one rename |
| `FileTree.CopyUnlinkIsRelocation` | simple_file_manager/src/dialog.c:282-285 | copying a file and unlinking it gives the same file system as one rename, also over an existing file |
| `FileTree.RenameKeepsWellFormed` | simple_file_manager/src/dialog.c:241-242 | after a rename every path still hangs off a directory |
| `FileTree.RenameLosesNothing` | simple_file_manager/src/dialog.c:241-242 | a rename keeps every node of the tree, at its new place |
| `FileTree.ChildCopied` | simple_file_manager/src/dialog.c:305-321 | a copied entry, complete or not, adds only parts of the source tree |
| `FileTree.AllCopied` | simple_file_manager/src/dialog.c:296-324 | mkdir and a copy of every entry are a copy of the tree |
| `FileTree.AllDeleted` | simple_file_manager/src/dialog.c:342-356 | deleting every entry and the directory removes exactly the subtree |
| `FileTree.MoveAgreesWithCopyDelete` | simple_file_manager/src/dialog.c:226-367 | for everything that can be moved, the moved file system is what copying and then deleting the original gives |
| `Paths.MoveIsCopyThenDelete` | simple_file_manager/src/dialog.c:226-367 | relocating a tree equals copying it and deleting the original |
| `Paths.DeleteUndoesCopy` | simple_file_manager/src/dialog.c:292-364 | deleting a fresh copy restores the file system |
| `Paths.MoveBackIsIdentity` | simple_file_manager/src/dialog.c:233-290 | moving a tree to a free place and back restores the file system |
| `Snail.SnailMatrix` | basic_c/arrays/Task2.c:100-124 | for every N >= 2 the matrix holds 1 to N*N, each value exactly at the cell the spiral walk reaches with it |
| `Snail.FormulaIsBySide` | basic_c/arrays/Task2.c:113-122 | the branch-free formula with its parity correction equals the value told by ring and side, for odd and even N |
| `Snail.NextCell` | basic_c/arrays/Task2.c:116-122 | from every cell but the last the next value lies straight ahead, or the cell ahead is blocked and it lies to the right |
| `Snail.WalkFollowsFormula` | basic_c/arrays/Task2.c:109-124 | a walker that turns right only when blocked never gets stuck and stands on value k+1 after k steps |
| `Snail.FormulaIsTheWalk` | basic_c/arrays/Task2.c:109-124 | a cell has value v if and only if it is the v-th cell of the walk |
| `Snail.FormulaInRange` | basic_c/arrays/Task2.c:109-124 | every cell's value is in 1..N*N and leads back to the cell |
| `Snail.NeighboursFollow` | basic_c/arrays/Task2.c:109-124 | cells for which the formula gives consecutive values are adjacent, across rings too |
| `Snail.OneIsTopLeft` | basic_c/arrays/Task2.c:109-124 | 1 is at the top left |
| `RoomView.View.UpdateRoster` | shared_memory/chat_common_room/src/client_core.c:28-73 | the roster array becomes the roster step of its old contents |
| `RoomView.View.RemoveName` | shared_memory/chat_common_room/src/client_core.c:59-70 | the shifting loop removes the first occurrence and keeps the order |
| `RoomView.View.UpdateLines` | shared_memory/chat_common_room/src/client_core.c:77-86 | append, or drop the oldest line and append |
| `RoomView.View.Consume` | shared_memory/chat_common_room/src/client_core.c:23-90 | one entry updates roster, lines and cursor, nothing else |
| `RoomView.View.Drain` | shared_memory/chat_common_room/src/client_core.c:21-91 | afterwards roster and lines are the folds of the whole log |
| `RoomLog.WindowIsTail` | shared_memory/chat_common_room/src/client_core.c:75-88 | the window holds the last 1000 formatted lines, or all if fewer |
| `RoomLog.JoinNoticeAdds` | shared_memory/chat_common_room/src/client_core.c:28-51 | reading back a formatted join notice adds exactly its pid |
| `RoomLog.LeaveNoticeDrops` | shared_memory/chat_common_room/src/client_core.c:52-72 | reading back a formatted leave notice removes exactly its pid |
| `RoomLog.ChatChangesNothing` | shared_memory/chat_common_room/src/client_core.c:141-148 | no chat text, whatever it says, can change a roster |
| `RoomLog.NoticesDiffer` | shared_memory/chat_common_room/src/client_core.c:131-132 | notices identify their pid and cannot be confused with each other or with chat |
| `RoomLog.RosterIsExact` | shared_memory/chat_common_room/src/client_core.c:28-73 | with at most 256 joins logged, the roster is duplicate-free and holds exactly the pids whose latest notice is "joined" |
| `RoomProtocol.StepKeepsInv` | shared_memory/chat_common_room/src/client_core.c:10-173 | every step of every thread keeps the invariant on locks, sleepers, views and log |
| `RoomProtocol.ReachableInv` | shared_memory/chat_common_room/src/client_core.c:10-173 | hence it holds after every run |
| `RoomProtocol.ShownIsTail` | shared_memory/chat_common_room/src/client_core.c:16-93 | in every reachable state a reader between entries shows the last min(last_msg, 1000) lines of its consumed prefix |
| `RoomProtocol.ReadersAgree` | shared_memory/chat_common_room/src/client_core.c:16-93 | readers with equal cursors show equal lines and rosters |
| `RoomProtocol.RosterAlwaysExact` | shared_memory/chat_common_room/src/client_core.c:45-48 | in every reachable state every roster is exact; the 256-entry guard never drops a join |
| `RoomProtocol.NoLostWakeup` | shared_memory/chat_common_room/src/client_core.c:14-19 | a reader asleep with something unread is about to be woken by the writer that holds the lock |
| `RoomProtocol.ReleasedWhenRead` | shared_memory/chat_common_room/src/client_core.c:14-93 | a reader gives up the lock only when it has shown the whole log |
| `RoomProtocol.SleepsWhenRead` | shared_memory/chat_common_room/src/client_core.c:16-19 | and goes to sleep exactly when nothing is unread |
| `RoomProtocol.NeverWaitsAgain` | shared_memory/chat_common_room/src/client_core.c:156-169 | after its "left" entry a client's reader never finds the wait condition true |
| `RoomProtocol.ShutdownEnds` | shared_memory/chat_common_room/src/client_core.c:156-169 | from then on each step of the reader lowers a bound that no other thread's step raises |
| `RoomProtocol.ShutdownBounded` | shared_memory/chat_common_room/src/client_core.c:156-169 | so in any run the reader takes at most that many more steps |
| `RoomProtocol.HolderCanStep` | shared_memory/chat_common_room/src/client_core.c:14-93 | the thread that holds the lock can always go on while the log has room |
| `RoomProtocol.LockIsReturned` | shared_memory/chat_common_room/src/client_core.c:14-93 | each step of the holder brings the release of the lock nearer and no step of another thread puts it off |
| `RoomProtocol.ShutdownNeverStuck` | shared_memory/chat_common_room/src/client_core.c:156-169 | and it is never stuck: it has finished, or can take a step without waiting to be woken, or another thread has the lock and can take a step with it |
| `RoomTruth.EntriesRead` | shared_memory/chat_common_room/src/client_core.c:126-169 | the entries of a start, a message and a stop, word for word |
| `RoomTruth.StepKeepsTruth` | shared_memory/chat_common_room/src/client_core.c:126-169 | every step keeps the log truthful about who is in the room |
| `RoomTruth.LogIsTruthful` | shared_memory/chat_common_room/src/client_core.c:126-169 | in every reachable state the log calls a client present exactly from its join notice to its leave notice, and has the join notice of every client that started, up to the 256th |
| `RoomTruth.RosterShowsTheRoom` | shared_memory/chat_common_room/src/client_core.c:28-73 | a reader that has read everything lists exactly the clients in the room |
| `RoomTruth.EverythingSaidIsLogged` | shared_memory/chat_common_room/src/client_core.c:141-152 | after every run the log has from each client exactly the texts it was given to send, cut to 1023 bytes, in order, none lost or doubled |
| `ChatServer.History.Push` | message_queues/chat_common_room/src/server.c:51-71 | the wrapping ring appends, forgetting the oldest entry once 256 are held |
| `ChatServer.History.PushHistory` | message_queues/chat_common_room/src/server.c:51-71 | the ring holds exactly the last 256 entries ever pushed |
| `ChatServer.Registry.FindClientByName` | message_queues/chat_common_room/src/server.c:113-123 | finds the node with the name, or null exactly when there is none |
| `ChatServer.Registry.AddOrUpdateClient` | message_queues/chat_common_room/src/server.c:126-143 | a new name is linked in front, a known one gets the new descriptor; the list stays duplicate-free and other clients unchanged |
| `ChatServer.Registry.RemoveClientByName` | message_queues/chat_common_room/src/server.c:146-163 | unlinks exactly the named client, at the head or further down |
| `ChatDispatch.ChatRoomServer.Broadcast` | message_queues/chat_common_room/src/server.c:74-93 | every listed client's queue gets the line once, no other queue changes |
| `ChatDispatch.ChatRoomServer.SendHistoryToClient` | message_queues/chat_common_room/src/server.c:96-111 | the client's queue gets the recent entries in order, no other queue changes |
| `ChatDispatch.ChatRoomServer.HandleJoin` | message_queues/chat_common_room/src/server.c:227-248 | the whole effect of a JOIN, and none if the queue cannot be opened |
| `ChatDispatch.ChatRoomServer.HandleLeave` | message_queues/chat_common_room/src/server.c:271-285 | the whole effect of a LEAVE; closing the descriptor affects nobody else |
| `ChatDispatch.ChatRoomServer.Dispatch` | message_queues/chat_common_room/src/server.c:222-290 | one turn of the loop refines the server function |
| `ChatDispatch.ChatRoomServer.Serve` | message_queues/chat_common_room/src/server.c:220-298 | the loop over any inputs ends in the state the server function gives for them |
| `ChatSpec.RegistryIsExact` | message_queues/chat_common_room/src/server.c:126-163 | after any inputs the registry is duplicate-free and lists exactly the clients in session |
| `ChatSpec.LogIsWhole` | message_queues/chat_common_room/src/server.c:66-69 | no entry ever logged is cut by the history's fields |
| `ChatSpec.ReplayIsBroadcast` | message_queues/chat_common_room/src/server.c:96-111 | replayed bytes equal the bytes first broadcast |
| `ChatSpec.JoinStarts` | message_queues/chat_common_room/src/server.c:240-247 | a JOIN delivers the notice and then the last 256 entries of the log |
| `ChatSpec.NoticeComesTwice` | message_queues/chat_common_room/src/server.c:240-247 | the join notice is the first message since the JOIN and comes again as the last replayed entry |
| `ChatSpec.OneMore` | message_queues/chat_common_room/src/server.c:74-93 | an input about somebody else brings a listed client exactly the new entries, an unlisted one nothing |
| `ChatSpec.DeliveryIsGapFree` | message_queues/chat_common_room/src/server.c:220-298 | for every run and client in session: since its latest JOIN its queue got the join notice and then the log without a gap, from at most 256 entries back to the present |
| `ChatSpec.SilenceOutOfSession` | message_queues/chat_common_room/src/server.c:271-285 | a client out of session gets nothing, not even its own leave notice |
| `ChatWords.ChatReadsBack` | message_queues/chat_common_room/src/server.c:249-262 | `MSG:<pid>:<text>` is read as that pid and that text, colons in the text included |
| `ChatWords.JoinReadsBack` | message_queues/chat_common_room/src/server.c:227-230 | `JOIN:<pid>` is read as a join of that pid, cut to 31 bytes |
| `ChatWords.LeaveReadsBack` | message_queues/chat_common_room/src/server.c:271-275 | `LEAVE:<pid>` is read as a leave of that pid, cut to 31 bytes |
| `ChatWords.OthersAreIgnored` | message_queues/chat_common_room/src/server.c:222-290 | any other message, and a MSG without a second colon, changes nothing |
| `ChatWords.ChatIsHeard` | message_queues/chat_common_room/src/server.c:249-269 | every listed client, and nobody else, then gets `Client_<pid>:<text>` |
| `ChatWords.JoinIsHeard` | message_queues/chat_common_room/src/server.c:227-248 | a JOIN lists `/client_<pid>` and the others get `SERVER:User <pid> joined`; nothing happens if the queue cannot be opened |
| `ChatWords.LeaveIsHeard` | message_queues/chat_common_room/src/server.c:271-285 | a LEAVE takes `/client_<pid>` off the list and those left get `SERVER:User <pid> left` |
| `Checksum.ComputeChecksum` | sockets/raw_sockets/headers/udp_ip_eth/client.c:14-33 | the loop, two folds and complement compute the checksum function |
| `Checksum.TwoFolds` | sockets/raw_sockets/headers/udp_ip_eth/client.c:28-30 | two folds suffice for ten words and change the sum by multiples of 0xFFFF only |
| `Checksum.ChecksumIsOnesComplement` | sockets/raw_sockets/headers/udp_ip_eth/client.c:14-33 | the result is the complement of the ones' complement sum with end-around carry (section 3.1 of RFC 791) |
| `Checksum.StoredChecksumVerifies` | sockets/raw_sockets/headers/udp_ip_eth/client.c:81-82 | a header that carries its checksum checks out to 0 |
| `Checksum.FillChecksum` | sockets/raw_sockets/headers/udp_ip_eth/client.c:81-82 | filling in the check field changes no other word and makes the header verify |
| `Checksum.OneWordDetected` | sockets/raw_sockets/headers/udp_ip_eth/client.c:14-33 | a change of one word is undetected if and only if it is between 0 and 0xFFFF and some other word is not 0 |
| `Checksum.SwapCommutes` | sockets/raw_sockets/headers/udp_ip_eth/client.c:14-33 | swapping the bytes of all words swaps the bytes of the result (section 2 of RFC 1071) |
| `Checksum.ByteOrderIndependent` | sockets/raw_sockets/headers/udp_ip_eth/client.c:14-33 | the bytes stored in the header are the same on little- and big-endian machines |
| `PipelineWiring.Shell.ExecutePipeline` | pipes/bash_equivalent/src/main.c:73-142 | for any commands, as any line of a session: each stage gets the words before its first operator, its neighbours' pipes as stdin and stdout unless its own files replace them, and otherwise the shell's descriptors; the shell's own table is as before |
| `PipelineWiring.Shell.StartStage` | pipes/bash_equivalent/src/main.c:79-140 | one turn of the launch loop: the stage's table and words, and a parent that keeps only the read end of the newest pipe |
| `PipelineWiring.Shell.UseFiles` | pipes/bash_equivalent/src/main.c:110-127 | files that can be opened replace stdin and stdout, the others leave them as they are, and no other descriptor stays open |
| `PipelineWiring.PipeEndsHeldOnce` | pipes/bash_equivalent/src/main.c:86-140 | after the redirections each pipe's write end is held by stage k as stdout only, its read end by stage k+1 as stdin only, and by nobody where a file replaces it |
| `PipelineWiring.StageDescriptors` | pipes/bash_equivalent/src/main.c:86-127 | descriptors 0 and 1 of a stage are its files, else its pipes, else the shell's; all others are the shell's |
| `PipelineWiring.RedirectedCommand` | pipes/bash_equivalent/src/main.c:101-127 | a command with `<` and `>` or `>>` gets exactly those of its files that can be opened, with the right mode, and its own words |
| `CommandParser.Tokenizer.Next` | pipes/bash_equivalent/src/main.c:15-20 | one strtok call yields the next token of the buffer and leaves the others |
| `CommandParser.ParseInput` | pipes/bash_equivalent/src/main.c:11-22 | the vector holds the words of the command, at most 63, and a NULL |
| `CommandParser.CommandArray.Append` | pipes/bash_equivalent/src/main.c:34-40 | every write of the doubling array is in bounds and appends |
| `CommandParser.ParsePipeline` | pipes/bash_equivalent/src/main.c:24-46 | the commands are the tokens between bars |
| `CommandParser.ParseUndoesPrint` | pipes/bash_equivalent/src/main.c:11-46 | stages of 1 to 63 words, printed with blanks and bars, parse back to the same stages |
| `CommandParser.ParseRedirection` | pipes/bash_equivalent/src/main.c:48-71 | operators become NULL, other words stay, and the last input and the last output operator decide files and append flag |
| `CommandParser.ScanFindsTheLast` | pipes/bash_equivalent/src/main.c:51-70 | the left-to-right scan ends with what the last operator of each kind says, or the default |
| `CommandParser.CutAtFirstOperator` | pipes/bash_equivalent/src/main.c:56-68 | the command sees exactly the words before the first operator |
| `CommandParser.OperatorsDecide` | pipes/bash_equivalent/src/main.c:48-71 | the last `<` names the input file, the last `>` or `>>` the output file, and `>>` means append |
| `CommandParser.NoOperatorNoFile` | pipes/bash_equivalent/src/main.c:48-71 | without `<` there is no input file, without `>` and `>>` no output file |
| `CommandParser.PlainWords` | pipes/bash_equivalent/src/main.c:48-71 | the command is the words before the first operator |
| `CommandParser.BothRedirected` | pipes/bash_equivalent/src/main.c:48-71 | `ws < i > o` reads i and writes o, `ws < i >> o` appends to o, and the command is ws |
| `CommandParser.WordsAreClean` | pipes/bash_equivalent/src/main.c:11-22 | the words are not empty, have no blank or line end in them, are at most 63, and only later ones are dropped |
| `CommandParser.PrepareCommand` | pipes/bash_equivalent/src/main.c:101-108 | splitting and redirection together |
| `DriverCell.MoveKeepsCell` | drive_manager/driver_manager.c:272-339 | every step of the driver loop and its timer keeps slot, clock, timer and pending events consistent |
| `DriverCell.CommitKeepsCell` | drive_manager/driver_manager.c:308-312 | a newly accepted task starts no earlier than the last one ends |
| `DriverManager.FindSlot` | drive_manager/driver_manager.c:201-213 | the first active slot with the pid, or -1 exactly when there is none or the pid is not positive |
| `DriverManager.StepKeepsInv` | drive_manager/driver_manager.c:225-502 | every step of manager, drivers, timers and clock keeps the invariant |
| `DriverManager.TasksNeverOverlap` | drive_manager/driver_manager.c:294-312 | after every run the accepted task intervals of each driver are disjoint and in order |
| `DriverManager.BusyMeansTimerPending` | drive_manager/driver_manager.c:272-339 | whenever a driver is in epoll_wait its slot is BUSY exactly when its timer is armed or expired but unread |
| `DriverManager.ReadsNeverHang` | drive_manager/driver_manager.c:285-329 | an event of a batch, handled in either order, can still be read: the eventfd at once, the timer when it fires |
| `DriverManager.StatusCommandsAgree` | drive_manager/driver_manager.c:523-567 | with the mutex free BUSY means busy_until > 0, so the two status commands give the same verdict |
| `DriverManager.StatusIsTrue` | drive_manager/driver_manager.c:523-567 | with the mutex free a driver is reported busy exactly while a task it has accepted is not over |
| `DriverManager.SearchFindsTheOwner` | drive_manager/driver_manager.c:439-458 | active pids are distinct in every reachable state, so the search finds the one owner |
| `DriverTasks.LengthsWereAskedFor` | drive_manager/driver_manager.c:472-502 | after every run each accepted task lasts exactly as long as some task sent to that very driver, 1 to 3600 seconds |
| `DriverTasks.TaskGetsThrough` | drive_manager/driver_manager.c:472-502 | a task of 1 to 3600 seconds for a driver that is there and not busy is stored and the driver told, for every such state |
| `DriverTasks.FreeDriverTakesTask` | drive_manager/driver_manager.c:285-323 | a waiting free driver that is told of a task takes it from this second for exactly its time and sets its timer for that long |
| `DriverTasks.BusyDriverRefuses` | drive_manager/driver_manager.c:294-298 | a driver still busy drops what it is told and changes nothing |
| `DriverTasks.TimerFreesDriver` | drive_manager/driver_manager.c:324-336 | when its timer has run out the driver becomes free again |
| `DriverTasks.CreationFillsSlot` | drive_manager/driver_manager.c:453-458 | a creation fills the slot: pid, active, available, ready for tasks |
| `DriverTasks.LookingDecides` | drive_manager/driver_manager.c:225-234 | a new process stays exactly if its slot is active when it looks for it, and exits otherwise |
| `DriverTasks.EarlyDriverIsLost` | drive_manager/driver_manager.c:439-458 | from every state in which a driver can be created there is a run that leaves its slot active and available and its process gone |
| `DriverTasks.LostStaysLost` | drive_manager/driver_manager.c:225-234 | and from then on it stays gone and accepts nothing |
| `Shop.StepKeepsInv` | threads_shop/src/buyer.c:15-57 | every step of every thread keeps holders, stocks, needs and the done count consistent and the two balances unchanged |
| `Shop.GoodsAreConserved` | threads_shop/src/buyer.c:28-32 | after every run stock plus purchases equals initial stock plus 200 per delivery, and needs plus purchases the initial needs |
| `Shop.NeverNegativeNeverShared` | threads_shop/src/buyer.c:21-37 | stock and needs never go negative and a kiosk never has two holders |
| `Shop.WorkerLeavesLast` | threads_shop/src/worker.c:31-37 | the worker leaves its loop by its own test only when every need is met |
| `Shop.WorkerLeavesExactlyThen` | threads_shop/src/worker.c:31-37 | at its test the worker leaves if and only if every buyer has been counted |
| `Shop.WorkerDelivers` | threads_shop/src/worker.c:16-26 | left to itself the worker brings exactly 200 goods to a free kiosk, and passes by a taken one |
| `Shop.LeavesWithReason` | threads_shop/src/buyer.c:15-37 | a buyer leaves a kiosk only with its needs met or the kiosk empty, and stops exactly with its needs met |
| `Shop.VisitBuys` | threads_shop/src/buyer.c:28-36 | left to itself a buyer in a kiosk buys the smaller of stock and need, and leaves |
| `Shop.FindsTheFirstFree` | threads_shop/src/buyer.c:19-37 | left to itself a buyer enters the first kiosk that is free |
| `EchoTable.ClientTable.ExpandClients` | echo-client_echo-server/server/server.c:67-83 | doubling keeps the entries and clears the new half |
| `EchoTable.ClientTable.FindOrAddClient` | echo-client_echo-server/server/server.c:101-137 | updates the sender's entry or appends one, and reports a disconnect of a known sender only |
| `EchoTable.ClientTable.ReceiveAll` | echo-client_echo-server/server/server.c:242-280 | after any packets the array holds the table function of them |
| `EchoTable.CountersAreRight` | echo-client_echo-server/server/server.c:104-134 | for every history and address there is at most one entry, none before its first packet, and its counter is the number of its packets since its last disconnect |
| `EchoPacket.BuildPacket` | echo-client_echo-server/server/server.c:185-205 | the packet is the UDP header and the payload cut to 1016 bytes ("Format" section of RFC 768) |
| `EchoPacket.SendUdpMessage` | echo-client_echo-server/client/client.c:39-63 | the client's packet is the UDP header and the whole message, the rest of the buffer is zero |
| `EchoPacket.ServerReadsClient` | echo-client_echo-server/server/server.c:151-172 | behind any IP header length the server finds exactly the payload the client sent |
| `EchoPacket.ClientReadsServer` | echo-client_echo-server/client/client.c:100-119 | the client finds exactly the reply, cut to 1016 bytes, and ignores an empty one |
| `EchoPacket.OtherPortsIgnored` | echo-client_echo-server/client/client.c:106-110 | packets for or from other ports are not taken |
| `EchoPacket.NetworkByteOrder` | echo-client_echo-server/server/server.c:185-205 | all header fields are stored high byte first, in the order source, destination, length, checksum 0 ("Format" section of RFC 768) |
| `EchoPacket.OtherProtocolsIgnored` | echo-client_echo-server/server/server.c:151-172 | the server takes no packet whose protocol is not 17 |
| `CustomerList.Directory.AddCustomer` | basic_c/dynamic_memory_task/Task6.c:115-130 | appends to the sequence and keeps next and prev mutually inverse |
| `CustomerList.Directory.Unlink` | basic_c/dynamic_memory_task/Task6.c:157-163 | takes out exactly one node, mending both neighbours |
| `CustomerList.Directory.DeleteCustomer` | basic_c/dynamic_memory_task/Task6.c:133-167 | removes exactly element n, or changes nothing when n is out of range |
| `CustomerList.Directory.FreeAll` | basic_c/dynamic_memory_task/Task6.c:69-74 | the exit loop visits every node once, in order |
| `CustomerList.RunSession` | basic_c/dynamic_memory_task/Task6.c:35-79 | any sequence of commands leaves a sound chain with the contents the commands describe |

## Left out

- Symbolic links, hard links, permission bits and PATH_MAX truncation of the file manager: paths are resolved, nodes are files or directories.
- Failing `read` and `write` on open files in the file manager: `copy_file` ignores them, so a full disk can leave a short copy whose original is then unlinked.
- Copying or moving a directory into itself: the recursion is then bounded only by PATH_MAX, so the model requires that the destination is not strictly below the source.
- FileEngine.FileSystem.ProcessTree: a missing destination of a copy makes the C library calls fail; the model returns -1 without listing those calls.
- 32-bit overflow of the snail formula (N above 46340), of message counters and of packet counters.
- More than 2048 messages in the shared-memory chat: the code appends without checking, the model's append is enabled only below that number. Names and numbers always fit their buffers there, because a pid has at most ten digits.
- Messages of 1024 bytes on the server's queue: the code writes one byte past its buffer; the model takes shorter ones.
- The message-queue chat client: its roster prefix never matches what the server sends.
- Failing `read` and `timerfd_settime` in the driver loop, failing `pipe` and `fork` in the shell.
- What opening a redirection file does to that file (creating, truncating); the model has the descriptors.
- `terminate_all` and command reading in the driver manager, thread cancellation in the shop, reading input in the customer directory: platform behaviour or plain input.
- UDP packets whose length field reaches beyond the received bytes: the programs do not check it; the theorems are about packets that arrive whole.
- Freed customer nodes: the model does not reuse them.
- User interfaces, socket, signal and pipe demonstrations, calculators and the remaining exercises.
