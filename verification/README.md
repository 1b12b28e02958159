# A chat server and its Redis Cluster client, verified in Dafny

This project models the C++ chat server (an IOCP socket server with rooms) and the Redis Cluster
client it logs users in with, and proves what they are for. `dafny verify dfyconfig.toml` checks it.

## Parts

**Redis Cluster client** (`Content/RedisClient.cpp`)

- `Crc16`, `Gf2`, `CrcDivision`: the table-driven CRC16, shown to be polynomial division over GF(2).
- `HashSlot`: key to slot, after the Redis Cluster Specification, sections "Key distribution model" and
  "Hash tags". `SlotBits`: a slot as the last digits of the remainder, and a key for every slot. `SlotTable`: the
  sorted region table and its binary search.
- `RedisStore`: an abstract node, a keyed store whose commands touch only the entries they name, and the
  functions that read replies. `RedisCommand`: the argument buffer of a command.
- `Sequential`: what a pipeline means, one command at a time. `RedisClient`, `Pipeline`: grouping by server,
  sending in any order, reading back in queue order, and the retry. `MultiKey`: `Mget` and `Mset`.
  `Rename`: `Rename` and `Renamenx`.
- `ClusterLoad`: `LoadClusterSlots`. `SlotMap`: the slot map as a server prints it, read back. `RedisServer`: the connection pool, one call at a time.
- `Refresh`: the concurrent protocol as a state machine. Requests run under the shared lock and borrow
  connections; the refresh thread replaces table, list and servers under the exclusive lock, one
  assignment or deletion per step. Theorems are about every state of every interleaving. `RefreshRounds`: what
  one round of the thread leaves behind and whom it lets pass. `RefreshProgress`: there are no dead ends.
- `Info`: the text of an INFO reply as a map.

**Byte streams** (`Network/ring_buffer.cpp`, `Network/session.cpp`, `Content/user.cpp`)

- `RingBuffer`: the circular buffer refines a FIFO, by the copying and by the raw-pointer calls.
- `Session`: the gather list for sending. `Framing`, `User`: packets out of chunks.

**Rooms** (`Content/room.cpp`, `Content/room_manager.cpp`, `Content/user_manager.cpp`, `Content/packet_manager.cpp`)

- `Chat`: the server as a value and what each handled packet does to it. `Room`, `RoomManager`,
  `UserManager`, `PacketManager`: the classes, proved to do exactly that. The network is an append-only
  log of what was sent to whom.
- `ChatViews`: what the packets sent to a client add up to. `ChatRuns`: runs of any packets from anyone, in any
  order. Three laws (who is in which room; what each member believes; whom the id map finds) and, for each law
  and each kind of packet, the exact condition under which the packet keeps it; a law holds all through a run
  exactly when every packet meets its condition.
- `ChatAnswers`: what each packet makes the server send to every session, with the codes.
- `LoginChecks`: the same runs with each slot's queue of password checks. Which requests are safe whatever the
  answers, and how long an id without a session stays refused. `LoginOrder`: the order of the repository's
  sequence diagrams (README.md:32-134), sessions going at any time, in which the laws hold; and concrete runs
  outside it. The handlers do not check that order.

`Content/packet_manager.cpp` and `Network/session.cpp` are modelled branch by branch; the rows for them cite the
diagrams and the calls they are made of. A chat line goes out after the answer to its sender; the diagram has
it before, and the handler is followed.

## What was found

- `Enqueue` and `Dequeue` return the move of an index, so `EnqueuePacketData` reports failure for a chunk
  that was stored whole but wrapped; `GetContinuousEnqueueSize` may be one more than the free size.
- A packet that wraps is complete in the buffer, but its handler does not find all of it at the raw pointer.
  Which packets of a stream these are depends on the sizes sent and not on the chunks. A size field of
  zero is extracted for ever.
- Same-node `Renamenx` always reports an error. Cross-node `Rename` of a missing key deletes the
  destination, and a remaining time of 0 ms becomes no expiry.
- A failed cross-node `Rename` whose clean-up goes through has deleted the destination, whatever stopped it.
- Cluster `Mget` appends to its output where the single-server branch replaces it; with no keys neither touches it.
- The pipeline retry repeats commands that had already run. Among GETs and SETs that is harmless exactly
  when no key is read before its first SET and set later.
- `LoadClusterSlots` leaves behind the server object whose address gave no connection.
- An empty slot map is a successful load that deletes every server, after which every load fails.
- A login may succeed while its user is in a room, and two sessions may log in under one id.
- The answer to a login names a slot and no id. A second request before the answer, or a late answer on a slot
  that has a new session, logs a session in under an id whose password nobody has checked; a session that sent
  no request is logged in under the empty id. The check the new session asked for then breaks the id map if it
  fails, and the rooms if it succeeds inside one.
- A session that goes while its login is being checked takes another's entry in the id map with it, if there is
  one. If the check then succeeds and the id is free, the id is in the map with nobody logged in, and refused:
  for ever, unless some connected session carries it by then, whose disconnect frees it and whose login takes it.
- `current_user_cnt_` of the user manager never changes, so the limit on users is never reached.
- `LeaveRoom` leaves `room_idx_` stale. The invariants hold all the same.

## Model

| member | source | states |
|---|---|---|
| `Crc16.TableIsEightBitSteps` | Content/RedisClient.cpp:15-49 | each of the 256 table entries is eight single-bit reduction steps by 0x1021 on the index in the high byte |
| `Crc16.TableLinear` | Content/RedisClient.cpp:15-49 | the table is linear: entry `a ^ b` is entry `a` xor entry `b` |
| `Crc16.Compute` | Content/RedisClient.cpp:51-58 | the loop, with signed-char promotion and 16-bit truncation, computes the CRC of the first `nLen` bytes defined byte by byte with the bitwise step instead of the table |
| `CrcDivision.CrcIsPolynomialRemainder` | Content/RedisClient.cpp:51-58 | for every byte string, the CRC is the remainder of dividing the message bits followed by sixteen zeros by the polynomial 0x11021 over GF(2), for any quotient and remainder that divide it |
| `Gf2.DivisionIsUnique` | Content/RedisClient.cpp:51-58 | quotient and remainder of that division are unique, so the CRC is fixed by the definition of division alone |
| `Crc16.CrcLinear` | Content/RedisClient.cpp:51-58 | the CRC of the bytewise xor of two strings of equal length is the xor of their CRCs |
| `HashSlots.HashSlot` | Content/RedisClient.cpp:60-87 | hashes exactly the part of the key the hash-tag rule names and reduces it to 14 bits, on every key |
| `HashSlots.HashTagLaw` | Content/RedisClient.cpp:60-87 | a key with a non-empty first tag lands on the slot of the tag alone, whatever stands around it |
| `HashSlots.EmptyTagHashesWhole` | Content/RedisClient.cpp:60-87 | an empty first tag is no tag |
| `HashSlots.HashedInPartIsTagged` | Content/RedisClient.cpp:60-87 | only such a key is hashed in part, by its tag; without braces, with one that never closes, or with an empty tag a key is hashed whole |
| `SlotBits.SlotIsLastDigitsOfRemainder` | Content/RedisClient.cpp:60-87 | the slot is the number whose binary digits are the last fourteen of the remainder of dividing the hashed part times x^16 by the polynomial, for any quotient and remainder that divide it |
| `SlotBits.EverySlotHasAKey` | Content/RedisClient.cpp:60-87 | every slot below 16384 is the slot of some key |
| `HashSlots.EveryKeyHasAServer` | Content/RedisClient.cpp:1960-1967 | with slots 0..16383 covered, every key has a server, that of a region holding its slot |
| `SlotTable.FindServer` | Content/RedisClient.cpp:1960-1967 | the two-sided binary search with the heterogeneous comparator returns what a linear scan returns, that of the region covering the slot, and null when no region does |
| `SlotTable.LowerBound` | Content/RedisClient.cpp:139-144 | the lower half of `equal_range`: everything before the position ends before the slot, nothing after does |
| `SlotTable.UpperBound` | Content/RedisClient.cpp:139-144 | the upper half: everything before the position starts at or before the slot, everything after starts later |
| `SlotTable.Sort` | Content/RedisClient.cpp:133-137 | sorts by start slot and is a permutation |
| `SlotTable.SortedDisjointIsOrdered` | Content/RedisClient.cpp:1853-1855 | sorting non-overlapping regions by start slot yields what the search needs |
| `SlotTable.SortAndFind` | Content/RedisClient.cpp:1853-1967 | for non-overlapping regions fetched in any order, sort then search equals a linear scan of the fetched list |
| `SlotTable.OwnerIsUnique` | Content/RedisClient.cpp:1960-1967 | the answer is the server of the only region containing the slot |
| `RedisClients.RedisClient.GetMatchedServer` | Content/RedisClient.cpp:1943-1958 | single mode, slot owner, or first server with an idle connection, none exactly when no listed server has one |
| `RedisClients.FirstUsableIff` | Content/RedisClient.cpp:1952-1957 | a command without a slot goes to the first listed server that has an idle connection, and to none exactly when none has one |
| `RedisClients.RedisClient.InSameNode` | Content/RedisClient.cpp:1979-1982 | true exactly when not clustered or both slots have the same owner; false implies different keys |
| `RedisCommands.RedisCommand.AppendValue` | Content/RedisClient.cpp:559-573 | appends, or drops the value when the buffer is full |
| `RedisCommands.RedisCommand.SetArgsVector` | Content/RedisClient.cpp:437-442 | the buffer holds the command and the values in order, and is exactly full |
| `RedisCommands.RedisCommand.SetArgsPairs` | Content/RedisClient.cpp:478-489 | command, then key and value pairs in order, exactly full; different lengths leave the command unchanged |
| `RedisCommands.InterleavedAt` | Content/RedisClient.cpp:478-489 | pair i sits at positions 2i and 2i+1 |
| `RedisCommands.MismatchedMsetIsRefused` | Content/RedisClient.cpp:575-579 | a fresh command whose vectors differ in length is refused as a parameter error, and no other |
| `RedisStore.FetchStringArray` | Content/RedisClient.cpp:261-289 | the output becomes the texts of the readable elements in order, partial success exactly when some element is unreadable; and what happens to it on every other reply type |
| `Sequential.GroupsPartition` | Content/RedisClient.cpp:838-853 | every queued command is in the group of its own server |
| `Sequential.Projection` | Content/RedisClient.cpp:838-859 | the sequential run seen from one server is that server running its own group, stores and replies: commands on other servers commute with it |
| `Sequential.GroupedIsSequential` | Content/RedisClient.cpp:838-859 | if every server ran its group to the end, in any order, stores and replies are those of the sequential run |
| `Pipelines.ReadReplies` | Content/RedisClient.cpp:667-669 | replies arrive in the order of the group; on failure the store is that of exactly the prefix the server has run |
| `Pipelines.ServRequest` | Content/RedisClient.cpp:656-671 | append all, then read all; the return code and the prefix executed for each way of failing, and all replies stored on success |
| `Pipelines.Pipeline.QueueCommand` | Content/RedisClient.cpp:833-836 | appends to the queue |
| `Pipelines.Pipeline.GroupByServer` | Content/RedisClient.cpp:840-853 | the map has exactly the servers routed to, each with its positions in queue order |
| `Pipelines.Pipeline.FlushCommand` | Content/RedisClient.cpp:838-859 | for any queue, table and iteration order: success, exactly when no server stops, is one sequential run of the queue in stores and replies; otherwise one server stopped, after as many commands as its connection let it run and with the code that explains it, and every other ran all of its share or nothing |
| `Pipelines.Pipeline.FlushPipeline` | Content/RedisClient.cpp:1729-1745 | for every queue: the result is that of one flush, or of a second one from where the first stopped, which happens exactly after a request error on a clustered client that was refreshed; success is one sequential run whenever the first flush went through or the queue is one that can be repeated |
| `Pipelines.Pipeline.FetchNext` | Content/RedisClient.cpp:861-867 | replies come back in queue order, then end of results |
| `Pipelines.ConvertedIff` | Content/RedisClient.cpp:162-175 | a reply is taken exactly when it is a text, OK where OK is wanted, or nil where it is not; anything else is a reply error |
| `Sequential.RerunIsHarmless` | Content/RedisClient.cpp:1729-1745 | overwriting commands run again after any prefix leave the store and replies of a single run |
| `Retries.RetrySafeIff` | Content/RedisClient.cpp:1729-1745 | for any queue: every partial flush followed by a complete one is one sequential run, whatever the stores held, exactly when each server's share is unchanged by first running any of its prefixes |
| `Retries.RetryIsOneRun` | Content/RedisClient.cpp:1729-1745 | a partial flush followed by a complete one is one sequential run in stores and replies, when the shares are such |
| `Retries.RetryOfGetsAndSetsIff` | Content/RedisClient.cpp:1729-1745 | for a queue of GETs and SETs that holds exactly when no key is read before its first SET and set later, wherever the keys live |
| `Retries.OneKindIsSafe` | Content/RedisClient.cpp:1188-1263 | so queues of GETs alone, as `Mget` sends, and of SETs alone, as `Mset` sends, can always be repeated |
| `Retries.OverwritingIsSafe` | Content/RedisClient.cpp:1729-1745 | so can every queue of commands that each write one entry whatever was there before |
| `Sequential.RetryRepeatsOtherCommands` | Content/RedisClient.cpp:1739-1744 | an example of a queue that cannot be repeated: a counter whose reply was lost counts twice |
| `Pipelines.LostCounter` | Content/RedisClient.cpp:1729-1745 | the same of `FlushPipeline` itself: a single server's client reports the error and counts once, a clustered one sends again, reports success and counts twice |
| `MultiKey.MgetCluster` | Content/RedisClient.cpp:1194-1227 | appends one text per key in key order, empty for missing and wrong-type keys, and changes no store |
| `MultiKey.MgetSingle` | Content/RedisClient.cpp:1190-1193 | replaces the output by one text per key in key order; leaves it alone without keys or on failure |
| `MultiKey.MgetBranchesAgree` | Content/RedisClient.cpp:1188-1228 | the vectors the two branches leave are equal exactly when there are no keys or the vector was empty before |
| `MultiKey.MgetBothWays` | Content/RedisClient.cpp:1188-1228 | the same of the results of the two methods, on nodes that hold the same data |
| `MultiKey.MsetCluster` | Content/RedisClient.cpp:1237-1260 | a delivered cluster `Mset`, even when sent twice, leaves every store holding the same data as one store that ran MSET |
| `MultiKey.ReadOks` | Content/RedisClient.cpp:1248-1255 | a refusal among the replies makes it a partial success, and nothing else does |
| `MultiKey.MsetSingle` | Content/RedisClient.cpp:1235-1236 | one MSET, or no effect and the code of what stopped it, different lengths being found once a connection is at hand and before anything is sent |
| `MultiKey.SetsAreMset` | Content/RedisClient.cpp:1237-1260 | the SETs on the cluster and MSET on one store keep holding the same entries, key by key |
| `MultiKey.LastValueWins` | Content/RedisClient.cpp:1230-1263 | the last value given for a key is the one stored, other keys are untouched |
| `Renaming.RestoreOfDump` | Content/RedisClient.cpp:1040-1048 | RESTORE of a DUMP with the converted time to live recreates value and expiry, except that zero milliseconds becomes no expiry |
| `Renaming.TryRename` | Content/RedisClient.cpp:1040-1051 | the chain of five requests completes exactly when the source exists and none fails; otherwise stores and code are those of the request that stopped it |
| `Renaming.RenameAcross` | Content/RedisClient.cpp:1037-1055 | success means value and expiry moved, old key gone, all else unchanged; a failure whose clean-up goes through leaves exactly the new key deleted; otherwise the stores are those of the request that stopped the chain; the source is kept in every case |
| `Renaming.DestinationKeptIff` | Content/RedisClient.cpp:1049-1055 | exactly when a failed rename leaves the destination entry as it was, by the number of requests made and whether the clean-up fails |
| `Renaming.RenameErrorIs` | Content/RedisClient.cpp:1037-1055 | the code of a failed cross-node `Rename` is that of the first request that failed, or a reply error after DUMP for a missing source |
| `Renaming.RenamenxErrorIs` | Content/RedisClient.cpp:1062-1085 | the same for `Renamenx`, a missing source being found by RESTORE |
| `Renaming.RenamenxUndoneIff` | Content/RedisClient.cpp:1062-1085 | a failed cross-node `Renamenx` without a destination before leaves every store as it was exactly when the source was missing, a request before the last failed, or the clean-up went through |
| `Renaming.TryRenamenx` | Content/RedisClient.cpp:1071-1081 | the same for the copy without the deletion of the new key, where RESTORE finds a missing source |
| `Renaming.RenamenxAcross` | Content/RedisClient.cpp:1062-1085 | success conditions exactly; a destination that existed is never changed; a failure changes nothing, unless the last deletion and the clean-up both fail and the copy stays |
| `Renaming.RenamenxSameNode` | Content/RedisClient.cpp:1060-1061 | always reports an error, although the node has renamed the key: the integer reply is read as a string |
| `Renaming.RenameKey` | Content/RedisClient.cpp:1033-1056 | the copying branch is entered only for distinct keys; both branches together, with the exact stores after success and after failure |
| `Renaming.MovedIsRename` | Content/RedisClient.cpp:1037-1055 | a cross-node move equals RENAME on one store with the same data, exactly when the key does not have 0 ms left |
| `Renaming.CleanUpKeepsSource` | Content/RedisClient.cpp:1053-1054 | whatever had been done, after the clean-up only the new key is missing from the stores before the call |
| `ClusterLoad.FetchSlot` | Content/RedisClient.cpp:341-367 | succeeds exactly on an array whose entries have three fields, and then gives one region per entry |
| `SlotMaps.FetchPrinted` | Content/RedisClient.cpp:341-367 | any list of ranges with their addresses, printed as a CLUSTER SLOTS reply with or without further fields, is read back in order: start, end, host and port |
| `ClusterLoad.FindByAddress` | Content/RedisClient.cpp:1969-1977 | a server of the list with that address, or none has it |
| `ClusterLoad.ServerFor` | Content/RedisClient.cpp:1836-1849 | reuses the server at the address or builds one, and fails exactly when the address gives no connection |
| `ClusterLoad.AssignServers` | Content/RedisClient.cpp:1834-1850 | every fetched region gets a server at its own address, servers pairwise distinct by address; succeeds exactly when all addresses are reachable |
| `ClusterLoad.ClusterClient.CleanServer` | Content/RedisClient.cpp:1879-1885 | empties the table, deletes exactly the listed servers, empties the list |
| `ClusterLoad.ClusterClient.LoadClusterSlots` | Content/RedisClient.cpp:1815-1860 | all or nothing: success exactly when the first server that gives a table names only reachable addresses with no unusable server up to it; then the table is a sorted permutation with every region homed in a list of distinct live servers that each have a region, and exactly the old servers are deleted; on failure table and list are untouched and at most one new server object is left behind, none when no server gave a table |
| `ClusterLoad.ClusterClient.LoadEmptyThenAny` | Content/RedisClient.cpp:1815-1860 | an empty slot map from the first server is a success that deletes every server, and whatever the network answers later the next load fails |
| `SlotMaps.LoadPrintedAndFind` | Content/RedisClient.cpp:1815-1967 | loaded from printed ranges that do not overlap, a slot of a range is served at exactly that range's address, and a slot of none has no server |
| `ClusterLoad.LoadIsBuilt` | Content/RedisClient.cpp:1850-1857 | a successful load gives just what the refresh protocol takes for a new table, list and servers |
| `ClusterLoad.LoadedTableIsSearchable` | Content/RedisClient.cpp:1852-1857 | a table loaded from non-overlapping regions covers the same slots and can be searched |
| `RedisServers.RedisServer.CleanConn` | Content/RedisClient.cpp:728-737 | leaves the idle queue empty |
| `RedisServers.RedisServer.FetchConnection` | Content/RedisClient.cpp:744-755 | takes the head of the queue, nothing if it is empty |
| `RedisServers.RedisServer.ReturnConnection` | Content/RedisClient.cpp:757-762 | puts a borrowed connection at the tail |
| `RedisServers.BorrowIsFetch` | Content/RedisClient.cpp:744-755 | the concurrent step that borrows a connection changes a pool exactly as `FetchConnection` does |
| `RedisServers.GiveBackIsReturn` | Content/RedisClient.cpp:757-762 | and the one that gives it back exactly as `ReturnConnection` does |
| `RedisServers.RedisServer.Initialize` | Content/RedisClient.cpp:764-786 | one queued connection per successful attempt; all there are, together with those still out |
| `RedisServers.RedisServer.ServRequest` | Content/RedisClient.cpp:788-805 | the queue is rotated by one and nothing stays out, whether or not the request succeeds |
| `Refresh.StepKeepsInv` | Content/RedisClient.cpp:939-955 | every step of every thread keeps the invariant over lock, table, servers, requests and pools |
| `Refresh.RunKeepsInv` | Content/RedisClient.cpp:1815-1924 | it holds in every state of every interleaving |
| `Refresh.RequestsUseLiveServers` | Content/RedisClient.cpp:1916-1924 | every server a request holds is allocated and in the current list, any server the table would give it is allocated, and it never sees a table being rebuilt |
| `Refresh.TableNamesLiveServers` | Content/RedisClient.cpp:1852-1857 | in every reachable state each region of the table names an allocated server |
| `Refresh.PoolIsConserved` | Content/RedisClient.cpp:744-805 | idle plus in-flight connections equal those made by the last Initialize, at most the configured number; none is both; at refresh time all are idle |
| `Refresh.ConnectionHasOneHolder` | Content/RedisClient.cpp:744-805 | no connection is held by two requests or known to two servers |
| `Refresh.OneTablePerRequest` | Content/RedisClient.cpp:1916-1924 | table, server list and allocated servers stay the same for as long as a request is inside |
| `Refresh.SingleServerIsKept` | Content/RedisClient.cpp:948 | index 0 of the server list is valid whenever a single-server client uses it |
| `RefreshRounds.RoundSetsValid` | Content/RedisClient.cpp:937-954 | over all runs: a round ends with `m_bValid` true exactly if it installed a table, and otherwise changes nothing; for a single server, exactly if it has a connection, made in this round |
| `RefreshRounds.RoundInstalls` | Content/RedisClient.cpp:1846-1858 | the table and list of a successful round are those built in it, the servers listed before are gone, and no others |
| `RefreshRounds.RoundWaitsIffValid` | Content/RedisClient.cpp:943-946 | the thread waits for a notification before a round exactly if the client is valid |
| `RefreshRounds.RequestsPassIff` | Content/RedisClient.cpp:1893-1924 | until another round ends, a request gets past the validity test exactly if the last one succeeded, and fails fast exactly if it did not |
| `RefreshProgress.LockCanBeTakenAgain` | Content/RedisClient.cpp:937-954 | no dead end: from every state of every run the thread can end its round, valid once new servers are built, every request can leave, and the lock can be taken again |
| `Info.GetLine` | Content/RedisClient.cpp:1930 | one line as `getline` gives it, and a shorter rest |
| `Info.ConvertToMapInfo` | Content/RedisClient.cpp:1926-1941 | fails exactly when a line that is not skipped has no colon; otherwise collects the lines' entries |
| `Info.InfoRoundTrip` | Content/RedisClient.cpp:1926-1941 | reading back printed pairs, comments and blank lines succeeds and gives their entries; with CRLF line ends a value keeps the carriage return |
| `Info.FirstEntryWins` | Content/RedisClient.cpp:1938 | the first pair with a key decides its value |
| `RingBuffers.RingBuffer.constructor` | Network/ring_buffer.cpp:5-11 | an empty buffer of 16384 slots |
| `RingBuffers.RingBuffer.GetSizeInUse` | Network/ring_buffer.cpp:18-23 | the length of the FIFO contents |
| `RingBuffers.RingBuffer.GetFreeSize` | Network/ring_buffer.cpp:25-28 | size minus one minus the used size |
| `RingBuffers.RingBuffer.GetContinuousEnqueueSize` | Network/ring_buffer.cpp:30-45 | the exact number in every case, including where it is one more than the free size; contents never change |
| `RingBuffers.RingBuffer.GetContinuousDequeueSize` | Network/ring_buffer.cpp:47-56 | min(used, size - front), and that many bytes at the front pointer are the FIFO's first |
| `RingBuffers.RingBuffer.Enqueue` | Network/ring_buffer.cpp:58-72 | appends the longest prefix that fits; the result is the true count exactly when the rear index does not wrap |
| `RingBuffers.RingBuffer.Dequeue` | Network/ring_buffer.cpp:74-88 | removes and copies out the longest prefix; the result is the true count exactly when the front index does not wrap |
| `RingBuffers.RingBuffer.Peek` | Network/ring_buffer.cpp:90-104 | copies the same prefix out, changes nothing, returns the true count |
| `RingBuffers.RingBuffer.MoveRear` | Network/ring_buffer.cpp:106-109 | within the free size, appends exactly the bytes that lie between the old and the new index |
| `RingBuffers.RingBuffer.MoveFront` | Network/ring_buffer.cpp:111-114 | within the used size, drops that many bytes |
| `RingBuffers.RingBuffer.ClearBuffer` | Network/ring_buffer.cpp:131-135 | empties the buffer |
| `RingBuffers.PeekThenMoveFront` | Network/ring_buffer.cpp:90-114 | `Peek(n)` then `MoveFront` of its answer leaves contents, destination and front index as `Dequeue(n)` does, and answers the true count |
| `RingBuffers.RawWriteIsAppend` | Network/ring_buffer.cpp:106-129 | bytes written at the rear pointer followed by a move of the rear index are an append exactly when they fit the free size |
| `RingBuffers.RawEnqueue` | Network/ring_buffer.cpp:25-45 | writing at most the contiguous and at most the free size through the raw pointer is a plain append |
| `Sessions.SetWsaBuf` | Network/ring_buffer.cpp:47-56 | one or two in-bounds pieces that spell the whole FIFO in order; two exactly when it wraps |
| `Sessions.CompleteSend` | Network/ring_buffer.cpp:106-124 | the bytes sent are the oldest ones and the buffer keeps exactly the others |
| `Users.User.GetPacketData` | Content/user.cpp:44-62 | finds a packet exactly when header and size are complete; the packet lies in one piece at its raw pointer exactly when it does not run past the end of the array |
| `Users.User.CompleteProcess` | Content/user.cpp:21-30 | drops the packet; true exactly when nothing is left |
| `Users.User.EnqueuePacketData` | Content/user.cpp:64-67 | stores the longest prefix that fits; true exactly when all was stored without the rear index wrapping |
| `Users.User.Process` | Content/user.cpp:21-67 | any interleaving of received chunks and polls refines the abstract stream parser, and where each packet lies follows from the sizes of those before it |
| `Users.ReceiveStream` | Content/user.cpp:44-67 | whatever the chunks, the handlers get size and id of the packets sent, in order; handler k finds the whole packet at its pointer exactly when (front + bytes sent before it) mod 16384 plus its size is at most 16384 |
| `Users.SecondPacketWraps` | Content/user.cpp:53-58 | a concrete stream whose second packet is not found whole at the pointer |
| `Users.Drain` | Content/user.cpp:21-30 | requeueing until the buffer is empty or holds no whole packet terminates with at most part of one packet left |
| `Framing.NextOnStream` | Content/user.cpp:44-62 | on a prefix of a well-formed stream the extractor finds exactly the next packet, as soon as it is complete |
| `Framing.HeaderFields` | Content/user.cpp:44-62 | bytes 0 and 1 of a packet are its size and bytes 2 and 3 its id, the lower eight bits first |
| `Framing.FramingIsChunkIndependent` | Content/user.cpp:21-67 | packets extracted, bytes buffered and bytes to come always spell the stream sent |
| `Framing.DrainedRunsAgree` | Content/user.cpp:21-67 | two chunkings of the same bytes, both drained, end in the same state |
| `Framing.DrainedLeavesPartOfOnePacket` | Content/user.cpp:44-62 | a drained buffer holds a proper prefix of one packet |
| `Framing.PollMakesProgressIffSizeNotZero` | Content/user.cpp:21-62 | a found packet shortens the buffer exactly when its size field is not zero |
| `Users.User.constructor` | Content/user.h:16-25 | a user with nothing received, not logged in |
| `Users.User.Clear` | Content/user.cpp:5-13 | back to that state |
| `Rooms.Room.BroadcastMsg` | Content/room.cpp:103-117 | one packet per listed user in list order, except one that recognises itself |
| `Rooms.Room.NotifyUserList` | Content/room.cpp:69-91 | the list of at most ten, with ids, to one session; the fixed slots are not overrun |
| `Rooms.Room.NotifyNewUser` | Content/room.cpp:59-67 | the newcomer to all the others |
| `Rooms.Room.NotifyLeaveUser` | Content/room.cpp:93-101 | the leaver's index to all who stay |
| `Rooms.Room.NotifyChat` | Content/room.cpp:50-57 | the line to everyone, the sender included |
| `Rooms.Room.EnterUser` | Content/room.cpp:22-38 | refuses when full; else appends, moves the user in and sends exactly the two notifications in that order |
| `Rooms.Room.LeaveUser` | Content/room.cpp:40-48 | erases everyone with the leaver's id, then notifies those left |
| `Rooms.EraseIf` | Content/room.cpp:42-45 | the in-place erase is the specification's filter by id |
| `Chats.EraseMembers` | Content/room.cpp:42-45 | who is left are exactly the members with another id |
| `Chats.OwnIndexIsRecognised` | Content/room.cpp:111 | the cast to int16_t compares equal to the session's own index exactly below 32768 |
| `RoomManagers.RoomManager.Init` | Content/room_manager.cpp:14-22 | ten empty rooms, room r at position r |
| `RoomManagers.RoomManager.EnterRoom` | Content/room_manager.cpp:38-47 | the whole server value changes as the specification says, other rooms and users untouched |
| `RoomManagers.RoomManager.LeaveRoom` | Content/room_manager.cpp:49-62 | likewise; the room index is left stale |
| `UserManagers.UserManager.Init` | Content/user_manager.cpp:13-20 | a thousand cleared users with buffers of their own |
| `UserManagers.UserManager.FindUserIndexByID` | Content/user_manager.cpp:39-46 | looked up by C string, read by the whole string, which may insert a zero |
| `UserManagers.UserManager.DeleteUserInfo` | Content/user_manager.cpp:31-37 | removes that id and no other |
| `UserManagers.UserManager.AddUser` | Content/user_manager.cpp:62-66 | logs the user in; an entry already under the id stays |
| `UserManagers.UserManager.SetUserLogin` | Content/user_manager.cpp:48-54 | the same with the user's own id, and confirms it |
| `UserManagers.UserManager.SetUserID` | Content/user_manager.cpp:56-60 | changes the id only |
| `ChatRuns.FindIsExact` | Content/user_manager.cpp:39-46 | with an exact map the look-up of a proper string inserts nothing and finds exactly the logged-in user |
| `PacketManagers.PacketManager.Init` | Content/user_manager.cpp:13-20 | the initial state of every run |
| `PacketManagers.PacketManager.ConnectHandler` | README.md:39-47 | clears the user, whatever state it was in |
| `PacketManagers.PacketManager.DisconnectHandler` | README.md:49-60 | leaves the room if in one, then forgets the id; the state is not reset |
| `PacketManagers.PacketManager.LoginHandler` | README.md:67-81 | takes the id before the password is checked, or answers that it is in use |
| `PacketManagers.PacketManager.LoginDBResHandler` | README.md:81-85 | logs in or drops the id, then answers with the code of the check |
| `PacketManagers.PacketManager.EnterRoomHandler` | README.md:87-102 | only from the lobby; the answer comes after the notifications |
| `PacketManagers.PacketManager.LeaveRoomHandler` | README.md:104-119 | only from a room |
| `PacketManagers.PacketManager.RoomChatHandler` | README.md:121-134 | only in a room; the sender is answered before the line goes out |
| `PacketManagers.PacketManager.ProcessPacket` | Content/packet_manager.h:36-54 | each packet changes the server as the specification of its handler |
| `PacketManagers.PacketManager.PacketProcessThread` | README.md:32-134 | over any packets in any order the handlers refine the run of the specification; each of the three laws that holds at the start holds all through the run exactly when every packet meets that law's condition |
| `ChatRuns.AlwaysIff` | README.md:32-134 | over any packets from anyone in any order: a law (lists and states; those and the views; the id map) holds at every state of the run exactly when every packet meets that law's condition in the state it finds, so the first that does not is the one that breaks it |
| `ChatRuns.StepKeepsMembershipIff` | Content/room.cpp:22-48 | for every packet from anyone, connected or not: lists and states still agree after it exactly when it puts no listed user back to the lobby or to nothing, lets no gone session into a room, and erases no other member with the leaver's id |
| `ChatRuns.StepKeepsViewsIff` | Content/room.cpp:22-117 | for every packet: what each member was told still adds up to the room's list exactly when no listed user is renamed and a leave erases the leaver only, or everybody |
| `ChatRuns.StepKeepsIndexIff` | Content/user_manager.cpp:31-66 | for every packet: the id map still finds exactly the logged-in users when, packet by packet, it adds or removes exactly the entry of the session that logs in or goes |
| `ChatRuns.MembersSeeTheRoom` | Content/room.cpp:22-117 | in every run that keeps the second law, each member's replay of USER_LIST, NEW_USER and LEAVE is the room's list, in the same order |
| `ChatRuns.InRoomExactlyWhenListed` | Content/room.cpp:22-48 | in every such run a connected user is in state kROOM exactly when a room lists it, that is the room its index names, once, and no room has more than ten |
| `ChatRuns.FindsExactlyUntilBroken` | Content/user_manager.cpp:31-66 | in every run that keeps the third law the look-up answers with the one session logged in under an id, or -1 when there is none, and it stops doing so exactly with the first packet that does not keep it |
| `ChatRuns.IdsAreUnique` | Content/user_manager.cpp:48-66 | in every such run no two sessions are logged in under one id, and the look-up answers with the one that is |
| `ChatViews.ViewAfterBroadcast` | Content/room.cpp:103-117 | what one broadcast does to any session's view |
| `ChatViews.LeaveIsSeenAsItIsIff` | Content/room.cpp:40-48 | the others see a leave as it is exactly when no other member carries the leaver's id |
| `ChatRuns.ChatReachesTheRoom` | Content/room.cpp:50-57 | a chat line reaches every member of the sender's room once and nobody else |
| `ChatAnswers.LoginRequestTells` | README.md:67-81 | what every session is sent for a login request: the requester that the id is in use, if it is, and nothing else |
| `ChatAnswers.LoginResultTells` | README.md:81-85 | for the result of a check: its own code, success or failure, to the slot's session and nothing to others |
| `ChatAnswers.LoginsAreAnsweredByChecks` | README.md:67-85 | over any run of packets from anyone: a session is told that a login succeeded, or failed with some code, exactly as often as a check on its slot did |
| `ChatAnswers.EnterTakenTells` | Content/room.cpp:22-38 | for an entry that is taken: the list with itself last and then success to the newcomer, the newcomer to everyone listed, in these numbers and this order |
| `ChatAnswers.EnterRefusedTells` | Content/room_manager.cpp:38-47 | for one that is not: the code of why, not in the lobby, no such room or full, in this order, and nothing to others |
| `ChatAnswers.LeaveTells` | Content/room_manager.cpp:49-62 | for a leave: success to the leaver, and that it left to everyone listed with another id |
| `ChatAnswers.LeaveRefusedTells` | Content/room_manager.cpp:49-62 | for one out of no room: the code of why, and nothing to others |
| `ChatAnswers.DisconnectedTells` | Content/room.cpp:40-48 | for a disconnect: that it left to everyone listed with another id if it named a room, and nothing otherwise |
| `ChatAnswers.ChatTells` | Content/room.cpp:50-57 | for a chat line: first success to the sender, then the line to everyone listed |
| `ChatAnswers.ChatRefusedTells` | README.md:121-134 | for one out of no room: the code of why, and nothing to others |
| `ChatRuns.SuccessKeepsIndexIff` | Content/user_manager.cpp:48-66 | a successful login keeps the id map exact exactly when its user was logged in already, or is there and the id free, or is gone and the id taken |
| `ChatRuns.FailureKeepsIndexIff` | Content/user_manager.cpp:56-60 | a failed one exactly when its user is not logged in or has the empty id already |
| `ChatRuns.LoginRequestKeepsIndexIff` | Content/user_manager.cpp:56-60 | a login request exactly when it is refused or its user is not logged in |
| `ChatRuns.ClearKeepsIndexIff` | Content/user.cpp:5-13 | clearing a user exactly when it is not connected and logged in |
| `ChatRuns.DisconnectKeepsIndexIff` | Content/user_manager.cpp:31-37 | a disconnect exactly when the entry it removes is the session's own or there is none |
| `ChatRuns.LoginRequestKeepsViewsIff` | Content/room.cpp:69-91 | a login request keeps the members' views right exactly when it is refused, or asks for the id the user has, or its user is in no list |
| `ChatRuns.LoginResultKeepsViewsIff` | Content/room.cpp:69-91 | an answer exactly when it is a success, or its user has the empty id, or is in no list |
| `ChatRuns.EnterKeepsMembershipIff` | Content/room.cpp:22-38 | entering keeps membership exactly when the session is still connected or is not taken in |
| `ChatRuns.LeaveKeepsMembershipIff` | Content/room.cpp:40-48 | leaving keeps it exactly when no other member has the leaver's id, whether the session is connected or gone |
| `ChatRuns.DisconnectKeepsMembershipIff` | Content/room.cpp:40-48 | the same for a disconnect from a room |
| `ChatRuns.TwoLoginsUnderOneId` | Content/user_manager.cpp:48-66 | a concrete run: two logins under one id are both let in, and one leave takes both out of the list |
| `LoginChecks.StepKeepsVouchedIff` | Content/user_manager.cpp:48-60 | for every packet: that each session logged in under an id had a check of that very id succeed survives it exactly under a condition on the ids, the head of the slot's queue of checks and those that have succeeded |
| `LoginChecks.SafeIff` | README.md:62-85 | a packet is safe, that is no answers after it can log a session in under an id not checked for it, exactly when it is no connection to a slot with a check outstanding, and no second request, unless refused or from the empty id to the empty id |
| `LoginChecks.SessionsAreVouchedIff` | README.md:62-85 | over all runs from an empty server: every session logged in under an id has had it checked, at every moment and whatever the answers, exactly when every packet of the run is safe |
| `LoginChecks.StepKeepsBlockedIff` | Content/user_manager.cpp:31-66 | for every packet: an id in the map with nobody logged in under it stays so except by a disconnect or a successful login of a user that carries it |
| `LoginChecks.BlockedIsRefused` | Content/user_manager.cpp:39-46 | as long as it does every login under it is refused, whoever asks |
| `LoginChecks.StaysBlockedIff` | Content/user_manager.cpp:31-66 | over all runs: it stays so for ever, whatever happens, exactly when no connected session carries the id |
| `LoginChecks.StrandedIdStaysBlockedIff` | Content/user_manager.cpp:31-66 | a login that succeeds for a session that has gone, under a free id, leaves the id so, and for ever exactly when no connected session carries the id |
| `LoginOrder.LateSuccessStrands` | Content/user_manager.cpp:48-66 | a concrete run that ends so: ask, disconnect, answer; the id is refused for ever |
| `LoginOrder.StrandedIdTakenOrFreed` | Content/user_manager.cpp:31-66 | a concrete run in which a second session is being checked under the stranded id: its success takes the id, its disconnect frees it |
| `LoginOrder.SlotIsReused` | README.md:49-85 | a concrete run: ask, disconnect, connect and ask for another id on the same slot while the first check is under way |
| `LoginOrder.OldAnswerLetsTheNextIn` | Content/user_manager.cpp:48-66 | the first check's success then logs the new session in under the id that has not been checked; all three laws hold before and after |
| `LoginOrder.OwnFailureBreaksTheMap` | Content/user_manager.cpp:56-60 | if its own check then fails, the look-up answers for an id nobody is logged in under, and this is no late success |
| `LoginOrder.OwnSuccessBreaksMembership` | Content/user_manager.cpp:48-66 | if it enters a room first and its own check succeeds, the room lists a user in the lobby |
| `LoginOrder.RoomsBreakIff` | Content/room.cpp:22-117 | in all runs in which gone sessions enter no room: lists, states and views break exactly at a login answered or asked for while the user is in a room, or at a leave or disconnect while another member carries the leaver's id |
| `LoginOrder.StepKeepsOrderedIff` | README.md:32-134 | in the order of the diagrams: ids in use and being checked stay distinct and reserved exactly when the packet does not log a second session in under the empty id, which only a login answered after its session has gone can do |
| `LoginOrder.OrderlyRunKeepsRooms` | README.md:32-134 | so lists, states and views agree over every run in that order without such a packet, answers late or not |
| `LoginOrder.OrderlyKeepsIndexIff` | README.md:32-134 | in that order the id map stays exact exactly when the packet strands no id |
| `LoginOrder.StepKeepsNamedIff` | README.md:32-134 | in that order nobody gets to be logged in under the empty id except by a late login that reaches the next session on its slot |
| `LoginOrder.FindFailsExactlyWhenStranded` | Content/user_manager.cpp:31-66 | over every run in that order: the look-up is exact until a login succeeds too late, and the first packet after which it is not is one that strands an id |
| `LoginOrder.MisdirectedLetsIn` | Content/user_manager.cpp:48-66 | a late success that reaches the next session on the slot logs it in under the empty id, though it sent no login |

## Left out

- hiredis, sockets, timeouts and reconnection: a request is delivered, fails before it is sent, or fails after
  a prefix of its commands has run. A failed single request (in `Rename`, `Renamenx`, `Mget` and `Mset` on one
  server) has no effect; the second attempt `ConnRequest` makes after a session timeout is not modelled.
- Pipelines.Pipeline.FlushPipeline: the table is the same for both flushes. `FlushCommand` and `Keys` do not take
  the lock, so the pipeline theorems are for one table, and no refresh safety is claimed for those paths.
- A queued command whose slot has no server: `FlushCommand` would call through a null pointer, so the table is
  required to know every queued command's server.
- MOVED errors: they are replies like any other in a pipeline; the single-command retry of `Execute` is two
  requests in `Refresh`.
- Freshness: that `WaitForRefresh` returns only after a refresh. It looks at `m_bValid` only, which may have been
  true all along. Safety is proved, and that a round can always end; not freshness, nor that it does end.
- `Mget` and `Mset` whose flush finally failed: the replies may be absent.
- `LoadSlaveInfo`, host switching, `Scan`, the one-line command wrappers other than those `Mget`, `Mset`, `Rename` and
  `Renamenx` use, score conversions, dump and print helpers.
- Replies to CLUSTER SLOTS whose entries have three fields but no address in the third: the parser reads past them.
- ClusterLoad.ClusterClient.LoadClusterSlots: the address of a server is fixed, although `Reconnect` may switch it.
- Refresh.RunKeepsInv: the shutdown of the client (`m_bExit`) and the unlocked reads of `m_bValid` in `Execute` are
  not steps; the connections that `Initialize` and a new server use for themselves while nobody else can
  reach them are not borrowed and returned one by one.
- RedisServers.RedisServer.ServRequest: one call at a time, so the tries after the first find the same queue; the
  interleavings are in `Refresh`.
- RedisCommands.RedisCommand.AppendValue: copies bytes; the sharing of the caller's memory for commands outside a
  pipeline is not modelled.
- Renaming.RenameAcross: no other client writes the two keys meanwhile.
- Users.User.GetPacketData: pointers are indices; two threads reading and writing one user's buffer at the same
  time are not modelled.
- Rooms.Room.NotifyUserList: a packet carries the id itself; the bytes after the end of a shorter id, which are
  copied along, and the one-byte length are not modelled. An id field without a terminating zero runs into
  the next field and is not modelled either: an id is what precedes the first zero.
- PacketManagers.PacketManager.ProcessPacket: the queues between threads, the password check and packets with an
  unknown id, which are never completed, are not modelled; the order of packets is the run's.
- PacketManagers.PacketManager.PacketProcessThread: likewise, the three queues it takes packets from.
- LoginOrder.OrderlyRunKeepsRooms: for runs in the order of the sequence diagrams, as `Orderly` states it, a
  condition that is enough and not necessary; the exact conditions, for all runs, are those of `ChatRuns`.
- LoginChecks.SessionsAreVouchedIff: checks are answered in order slot by slot; the one Redis worker answers in
  order over all slots, which allows no more. What a check compares is not modelled: an answer may be either.
- `User::LeaveRoom`, `is_confirmed_` beyond being set, authentication tokens: nothing uses them.
- Heap leaks other than the one above, error codes of the operating system, console output, project files.
