# Verification of the chat server core

A Dafny model of the server part of the repository, with proofs. It covers three components
and the way they fit together.

**Receiving** (`Bytes`, `Wire`, `CharPool`, `Reassembler`). A connection's byte stream arrives in
completions. `PacketReading` cuts length-prefixed frames out of a reused buffer by shifting it
left, and carries a partial frame over to the next completion. The reference is a pure parse of
the whole stream (`Wire.Parse`); the methods work on arrays as the source does and are proved
against it, over one call, one completion and whole runs. Blocks of the pool are tracked, so
lending and giving back are part of the contracts.

**Sessions and rooms** (`ChatTables`, `ChatSpec`, `ChatProofs`, `Deliveries`, `Answers`,
`AccountLaws`, `ChatLaws`, `BusinessService`). `idSet`, `userMap`, `roomMap` with its member lists
and `liveSocket` must agree although nothing in the code checks it. `ChatTables` has the agreement
and the elementary changes, `ChatSpec` the handlers as functions on the state, `ChatProofs` the
invariant over every step and run. `Deliveries` says what a drain of the send queue delivers,
`Answers` who has been told what, and what the tables are, once a job is done and everything queued
is sent, `AccountLaws` where sessions and accounts come from, `ChatLaws` what handlers undo and whom
they leave alone. Names are stored in fields as the source's bounded copies store them, and read as
it reads them. The class in `BusinessService` changes its fields assignment by assignment, and each
method is proved to have the specified effect.

**Queues and threads** (`Jobs`, `JobPipeline`, `Server`, `LockLevel`, `LockLists`, `LockRaces`).
`JobPipeline` is the job queue and the packet counter under any interleaving of any number of
receivers and workers. `LockLevel` cuts the handlers into critical sections and interleaves them,
`LockLists` follows the member lists through the interleavings, `LockRaces` has what goes wrong in
them and exactly when. `Server` has the loops of a receiver and of a worker.

## Main results

- Reassembly: `Reassembler.ReceiveAll` (a run is the parse of all its bytes), `PacketReading` and
  `Receive` (what any chunk leaves, and exactly which are handled correctly), `ReceivePackets`
  (from a sender's packets to jobs).
- Sessions and rooms: `ChatProofs.ReachableStates` (agreement, counting, safe dispatch in every
  reachable state), `NoResidue`, `ChatLaws.ExitIsOutThenLogOut`, `BanThenExit`, the four round
  trips, `DispatchIsolates`, `Deliveries.DrainDelivers`, `Answers.ChatLineReaches` and its
  siblings, `AccountLaws.SessionsCameByLogin`, `AccountsStayInRuns`, `GuardHoldsIff`;
  `BusinessService.WorkJob` and `Server.WorkRound` for the code that changes the fields in place.
- Critical sections: `LockLevel.Exclusion`, `LockLists.ListsAreExact` and `WheneverAtRest`,
  `LockRaces.RoomVanishes` and `NewcomerIsLost`.
- Queues: `JobPipeline.JobsConserved`, `CompletionsStayWhole`, `JobsTakenOnce`, `PacketsCounted`.

## What the proofs found

- **Resuming a frame.** The RECV_MORE branches compare the new chunk with the size of the whole
  frame and not with what is missing of it. `Reassembler.PacketReading` says what they leave and
  exactly which chunks are nevertheless handled correctly: with one header byte saved, a chunk
  longer than the frame or exactly one byte shorter; with at least two bytes saved, a chunk longer
  than the frame, or one as long as the saved part whose shift by two happens to be harmless. So
  the reassembly law, which a stream protocol needs for every split, fails for most of them:
  `Reassembler.Receive` has the law for a whole completion under exactly this condition, and
  `ReadInTwoPieces` shows that a lone frame in two pieces comes out only when the first piece is
  one byte or half of the frame. The run theorem (`Reassembler.ReceiveAll`) carries the condition,
  `Resumes`, for each chunk.
- **Names without a terminator.** The three name fields of a session and its status lie one behind
  the other. A name of NAME_SIZE characters or more is stored without its terminator, and reading
  it runs on: a room name into the id, an id into the status. `ChatTables.ReadBack` says which names
  survive: those that fit with their terminator, and longer ones whose overhang is what lies behind.
  The tables stay in agreement if and only if this is so (`ChatTables.OpenRoomAgrees`,
  `JoinRoomAgrees`, `LoginAgrees`, `TeardownAgrees`, `ChatLaws.RoomMakeAgreesIff`,
  `UserEnterAgreesIff`), and otherwise the maker's next command has no room to look up
  (`ChatLaws.MisreadRoomIsLost`).
- **Ids longer than accounts.** The database is asked for the first ten characters of an id, the
  check against double logins compares all of it. `AccountLaws.GuardHoldsIff`: an account is safe
  from a second session in every run if and only if ids are limited to ten characters.
- **Following a friend.** FriendGo locks the list of the room named like the friend, not of the
  one the friend is in. `ChatLaws.FollowingFails` says when there is no such room to look up.
- **Two lookups of one room.** RoomEnter gives `roomCs` back between finding the room and looking
  it up again. `LockRaces.RoomVanishes` says when the second lookup can fail: if everybody in the
  room may leave in between, however many they are, and not if one member stays.
- **Two locks for one room.** Whoever leaves looks at the size of the list and erases the room under
  `roomCs`; whoever enters is pushed onto the list under the list's own lock. A push can fall
  between the two. `LockRaces.NewcomerIsLost`: then all handlers can be through with the newcomer
  chatting in a room that is gone, again exactly if everybody listed before may leave.
  `LockLists.ListsAreExact` and `WheneverAtRest` say what holds all the same, and that without such
  a push the lists are exact and the tables agree.
- **Two threads for one socket.** Batches go to any worker, and disconnects and bans do not wait for
  them, so a socket can be worked for by two threads. `LockRaces.TwoWorkersTwoRooms` and
  `TwoWorkersShareId` show what that does to member lists and ids. With one thread at a time per
  socket nobody is on a list who does not belong there (`LockLists.SoundKept`), and ids are shared
  only while a session is being closed (`LockLevel.SharedIdsAreClosing`).

## Premises

- A dispatched job and a disconnect are one step each in the runs of `ChatProofs`; single
  critical sections are steps in `LockLevel`, single actions of threads in `JobPipeline`. Looking
  at a room's size and erasing the room are two steps. An operation on a list, with the lookups it
  makes outside `roomCs`, is one.
- In runs, the names that are stored fit their fields together with the terminator: ids and room
  names in jobs (`NamesFit`), nicknames in the accounts (`NicksFit`). What happens otherwise is
  said by the lemmas above. Texts hold no NUL.
- `LockLevel.HeldKept` and what follows from it, and `LockLists`, take one thread at a time per
  socket (`Orderly`); `Exclusion`, `LoggedKept`, `MembersStay`, `PlaceStays` and `PlaceAtRisk` do
  not.
- Frame sizes lie between 10 and a bound that leaves a frame room in the buffer and ten spare
  bytes in a pool block. With the constants of `common.h` and `CharPool.h` (4096 and 1024) the
  bound is 1014, although the client caps its frames only at 4096.
- Where the code scans `userMap`, the session found is any one with that name.

Comments in the sources speak of 512-byte buffers; the constants are 4096 and 1024, and the model
follows the constants. `Recv`, `RecvMore` and `SendToRoomMsg` (IocpService), the pool (CharPool)
and the layout of a packet (the client's send) follow their own sources; their rows below cite
the lines that call or read them.

## Model

| member | source | states |
|---|---|---|
| `Reassembler.PacketReading` | Chat/Server/BusinessService.cpp:476-551 | one call leaves what its branches say (`Leaves`), and that is exactly the saved and the new bytes if and only if the chunk satisfies `Resumes`; at a frame boundary it returns the count less the size its first two bytes give, low byte first, so zero for exactly one frame; the pool block it holds; a count that is not positive changes nothing |
| `Wire.LeavesIff` | Chat/Server/BusinessService.cpp:479-547 | on values: what the branches leave, a too short chunk filled up with what the buffer held behind it, is the saved and the new bytes iff `Resumes` |
| `Wire.HalfResumes` | Chat/Server/BusinessService.cpp:540-547 | byte by byte: when the branch that shifts by two happens to do no harm |
| `Reassembler.ReadChunk` | Chat/Server/BusinessService.cpp:476-551 | the reassembly law for one read: what the call leaves parses into the same frames and tail as the saved and the new bytes if and only if the chunk satisfies `Resumes`, for every chunk for which the copies are defined |
| `Reassembler.ReadInTwoPieces` | Chat/Server/BusinessService.cpp:514-548 | a lone frame read in two pieces comes out, and parses as itself, if and only if the first piece is one byte or half of the frame: for every other split the outcome of the two calls is something else |
| `Reassembler.ReadFirst` | Chat/Server/BusinessService.cpp:479-509 | at a frame boundary the call always conserves the bytes, returns the count minus the frame size (negative when the frame is partial), saves one header byte in bodySize without a block and anything longer in a fresh block with recvByte equal to its length |
| `Reassembler.ReadMoreHeader` | Chat/Server/BusinessService.cpp:514-531 | resuming after one saved header byte: the outcome is `Leaves`, for every chunk; always emits and takes one block |
| `Reassembler.ReadMoreBody` | Chat/Server/BusinessService.cpp:532-548 | resuming after a saved header: the outcome of the three branches is `Leaves`, for every chunk of at least two bytes; the block is the one already held |
| `Reassembler.CopyForward` | Chat/Server/BusinessService.cpp:489 | a forward element copy is a correct left shift also when source and target overlap; everything outside the target range stays |
| `Reassembler.TakeFrame` | Chat/Server/BusinessService.cpp:485-496 | the block gets the frame and the buffer front gets what follows it |
| `Reassembler.FillHeader` | Chat/Server/BusinessService.cpp:521-526 | the block gets the frame behind its size prefix and, for a longer chunk, the buffer front what follows |
| `Reassembler.FillBody` | Chat/Server/BusinessService.cpp:533-544 | the block gets the saved part followed by the missing part; the buffer is shifted by the missing length, not at all, or by two |
| `Reassembler.DataCopy` | Chat/Server/BusinessService.cpp:454-473 | status and direction are the numbers at bytes 2 to 5 and 6 to 9 of the frame, the message is what stands before its first NUL, and without a NUL begins with all of the frame's text; both pool blocks are given back, each exactly once |
| `Reassembler.ReceiveOne` | Chat/Server/Server.cpp:224-248 | one round yields the job of the frame at the front of what the read leaves, or saves a proper prefix of a frame |
| `Reassembler.Receive` | Chat/Server/Server.cpp:219-248 | one completion, of any chunk: frames emitted and tail saved are the pure parse of what the first read leaves, and they are the parse of saved bytes plus chunk iff the chunk satisfies `Resumes`; one job per frame in order; RecvMore is asked for iff something is saved; only the block of the tail remains lent out; PacketReading is only called with a positive count, which strictly decreases |
| `Reassembler.Recv` | Chat/Server/Server.cpp:266-268 | starts over in RECV mode with all counters zero and nothing pending |
| `Reassembler.ReceiveEach` | Chat/Server/Server.cpp:165-269 | a list of completions leaves frames, jobs and tail as the chunk-by-chunk parse |
| `Reassembler.ReceiveAll` | Chat/Server/Server.cpp:165-269 | whole run of the receiver itself: emitted frames followed by the saved tail are the simple parse of all bytes concatenated; blocks still lent out are exactly the one keeping the tail |
| `Reassembler.ReceivePackets` | Chat/Server/Server.cpp:219-248 | end to end: packets laid out by a sender, arriving in any chunks that the receiver can resume with, become exactly the jobs with their status, direction and text, in order; nothing is pending and every block is back |
| `CharPool.Pool.Malloc` | Chat/Server/BusinessService.cpp:483-484 | the block at the front of the pool, which nobody else holds |
| `CharPool.Pool.Free` | Chat/Server/BusinessService.cpp:467-470 | only a lent block can be given back; it goes to the back of the pool with its first four bytes cleared and is then no longer lent |
| `Wire.ParseAppend` | Chat/Server/Server.cpp:219-248 | parsing may stop anywhere and resume from the tail |
| `Wire.ParseConserves` | Chat/Server/BusinessService.cpp:485-495 | frames and tail, end to end, are the input |
| `Wire.ParseDetermines` | Chat/Server/BusinessService.cpp:485-495 | byte sequences that differ parse differently, so a lost or invented byte shows |
| `Wire.ParseFrame` | Chat/Server/BusinessService.cpp:485-490 | a whole frame in front is cut off first, its size prefix included in its length |
| `Wire.ReassembleIsParse` | Chat/Server/Server.cpp:219-248 | about the reference receiver that saves exactly the unparsed tail: by induction over the completions it computes the parse of the concatenation. `ReceiveEach` shows that the loop is this receiver for chunks that satisfy `Resumes` |
| `Wire.DecodeEncode` | Chat/Server/BusinessService.cpp:454-473 | decoding a laid out packet gives the packet back |
| `Wire.ParseEncoded` | Chat/Server/BusinessService.cpp:481-495 | a buffer of coalesced packets parses into exactly those packets with nothing left over |
| `Bytes.Int32Bytes` | Chat/Server/BusinessService.cpp:456-459 | four little-endian bytes that read back as the same signed number |
| `Bytes.Int32BytesOrder` | Chat/Server/BusinessService.cpp:456-459 | the four bytes of a number, lowest first, negative numbers as their two's complement |
| `Bytes.Int32Order` | Chat/Server/BusinessService.cpp:456-459 | for every number of 32 bits: its bytes from the lowest to the highest are read as that number |
| `Bytes.ShortBytes` | Chat/Server/BusinessService.cpp:481-482 | the low byte and then the high byte of the two's complement, which read back as the same number |
| `Bytes.ShortOrder` | Chat/Server/BusinessService.cpp:481-482 | for every number of 16 bits: its low byte followed by its high byte is read as that number |
| `Bytes.CString` | Chat/Server/BusinessService.cpp:469 | the longest prefix without a NUL |
| `Jobs.TokensOfJoined` | Chat/Server/BusinessService.cpp:623-632 | three equations that determine the tokens of every string |
| `Jobs.Contains` | Chat/Server/BusinessService.cpp:402 | true iff the part occurs at some position |
| `Jobs.BanName` | Chat/Server/Server.cpp:131-139 | the nickname of a ban is the beginning of the message, as long as the status field says, or all of it |
| `ChatTables.ReadBack` | Chat/Server/BusinessService.h:29-34 | a name copied into its field and read back, running on into what lies behind when there is no terminator, is the same if and only if it fits with its terminator or its overhang is what lies behind |
| `ChatTables.LoginAgrees` | Chat/Server/BusinessService.cpp:660-662 | storing a login keeps the tables, as they are read, in agreement iff the id fits with its terminator or overhangs by the status character |
| `ChatTables.OpenRoomAgrees` | Chat/Server/BusinessService.cpp:693-711 | opening a room keeps the agreement iff the maker's id fits and the room name fits or overhangs by exactly that id |
| `ChatTables.JoinRoomAgrees` | Chat/Server/BusinessService.cpp:739-761 | joining an existing room keeps the agreement iff the same holds of the one who joins |
| `ChatTables.LeaveRoomAgrees` | Chat/Server/BusinessService.cpp:364-401 | leaving finds its room, and keeps the agreement, an emptied room included, iff the id fits |
| `ChatTables.LogoutAgrees` | Chat/Server/BusinessService.cpp:316-327 | logging out keeps the agreement |
| `ChatTables.TeardownAgrees` | Chat/Server/BusinessService.cpp:213-271 | closing a session in either status finds its room and keeps the agreement iff the local copy of the id is read as the id itself: the id fits, or what lies behind the copy is the status character |
| `ChatTables.TeardownIsLeaveThenLogout` | Chat/Server/BusinessService.cpp:225-269 | erasing id, membership and session in the source's order is leaving and then logging out, unless the id is read differently |
| `ChatTables.LoginThenLogout` | Chat/Server/BusinessService.cpp:316-327 | login then logout restores the tables iff the id is read back as it was given |
| `ChatTables.OpenThenLeave` | Chat/Server/BusinessService.cpp:364-401 | opening a room then leaving it finds the room and restores the tables iff the name is read back as it was given |
| `ChatTables.JoinThenLeave` | Chat/Server/BusinessService.cpp:364-401 | joining a room then leaving it finds the room and restores the tables, order of the list included, iff the name is read back as it was given |
| `ChatTables.ListedOnce` | Chat/Server/BusinessService.h:41-47 | under agreement a socket occurs once in the list of the room it chats in and not at all elsewhere |
| `ChatTables.RoomSize` | Chat/Server/BusinessService.cpp:863 | the size of a room's list is the number of sessions chatting in it, and not zero |
| `ChatTables.ListsCountChatters` | Chat/Server/BusinessService.cpp:858-865 | the sum of all list sizes is the number of chatting sessions |
| `ChatProofs.LookupsFind` | Chat/Server/BusinessService.cpp:242-246 | under agreement a filled slot of the status table is selected, LOGOUT is reported iff there is no session, and the unchecked lookups of the session and of its own room find their entries; the one of FriendGo at line 1055 is not among them, see ChatLaws.FollowingFails |
| `ChatProofs.LogoutStateKeeps` | Chat/Server/BusinessService.cpp:278-296 | account creation and login keep the invariant |
| `ChatProofs.WaitStateKeeps` | Chat/Server/BusinessService.cpp:300-350 | every lobby command keeps the invariant |
| `ChatProofs.FriendGoKeeps` | Chat/Server/BusinessService.cpp:998-1080 | following a friend keeps the invariant in all of its branches, whichever session the scan finds; runs stop short of a lookup at line 1055 that can fail |
| `ChatProofs.ChatStateKeeps` | Chat/Server/BusinessService.cpp:354-450 | every command of a chatting user keeps the invariant |
| `ChatProofs.WorkKeeps` | Chat/Server/Server.cpp:119-151 | every job a worker handles keeps the invariant |
| `ChatProofs.ExitKeeps` | Chat/Server/BusinessService.cpp:202-274 | a disconnect keeps the invariant; after a successful one the socket is no longer live |
| `ChatProofs.Step` | Chat/Server/Server.cpp:119-151 | every event, from accept to drained send, leads from one agreeing state to another |
| `ChatProofs.RunKeeps` | Chat/Server/Server.cpp:119-151 | the invariant holds after every run |
| `ChatProofs.ReachableStates` | Chat/Server/BusinessService.h:41-69 | in every reachable state: exact membership, no empty room, statuses WAITING or CHATTING, WAITING means no room, idSet is the set of stored userIds and these are distinct, sum of sizes equals chatters, sessions are live, dispatch is safe, send queue conserved |
| `ChatProofs.LiveIsStillOpen` | Chat/Server/BusinessService.cpp:1108-1118 | live sockets after a run are those accepted and not closed since |
| `ChatProofs.NoResidue` | Chat/Server/BusinessService.cpp:202-274 | once every accepted socket was closed, userMap, idSet and roomMap are empty |
| `ChatSpec.SendAllHandles` | Chat/Server/BusinessService.cpp:82-134 | a drain is done with exactly what it took, in order, changes no table and takes nothing back from the network |
| `Deliveries.DrainDelivers` | Chat/Server/BusinessService.cpp:82-134 | what a drain puts on the wire is, entry by entry in queue order, one delivery of its message to the socket of a direct entry, and for a room entry one to each socket on the list, which are exactly the sessions chatting there |
| `ChatLaws.MakeRoomThenOut` | Chat/Server/BusinessService.cpp:676-719 | through dispatch: making a room then leaving restores userMap, roomMap and idSet |
| `ChatLaws.EnterRoomThenOut` | Chat/Server/BusinessService.cpp:722-770 | through dispatch: entering a room then leaving restores them, list order included |
| `ChatLaws.FollowFriendThenOut` | Chat/Server/BusinessService.cpp:1035-1069 | through dispatch: following a friend into a room, when its lock is found, then leaving restores them |
| `ChatLaws.FollowingFails` | Chat/Server/BusinessService.cpp:1055 | the lookup of the list's lock under the name the friend was asked for can fail iff a session with the friend's nickname chats in a named room and no room has that name |
| `ChatLaws.LoginThenLogOut` | Chat/Server/BusinessService.cpp:617-662 | through dispatch: a successful login inserts exactly its id, and logging out restores the tables |
| `ChatLaws.ExitIsOutThenLogOut` | Chat/Server/BusinessService.cpp:202-274 | closing a chatting socket leaves the tables, and sends the messages, that leaving and logging out would |
| `ChatLaws.BanThenExit` | Chat/Server/BusinessService.cpp:1120-1198 | a ban followed by the disconnect of the banned socket reaches the state of the disconnect alone, with the goodbye sent once |
| `ChatLaws.DispatchIsolates` | Chat/Server/BusinessService.cpp:278-450 | a command changes no other session and no other socket's place in any list |
| `ChatLaws.AnswersTellStatus` | Chat/Server/BusinessService.cpp:278-450 | direct answers to a command carry the status its sender is in afterwards, and a change of status is always told |
| `ChatLaws.RoomMessageReaches` | Chat/Server/BusinessService.cpp:91-102 | a drained SEND_ROOM entry reaches each session chatting in the room at that moment exactly once and nobody else; nobody if the room is gone |
| `ChatLaws.GoodbyeReaches` | Chat/Server/BusinessService.cpp:240-247 | the goodbye reaches exactly those who were chatting in the room |
| `ChatLaws.ReadFromMemory` | Chat/Server/BusinessService.h:29-34 | the three names of a session are what a C string constructor reads from the start of their fields, in a record of three zero-padded fields and a little-endian status |
| `ChatLaws.RoomInfoCounts` | Chat/Server/BusinessService.cpp:839-870 | the listing names exactly the rooms and for each the number of sessions chatting in it |
| `ChatLaws.RoomMakeAgreesIff` | Chat/Server/BusinessService.cpp:683-718 | from any state of a run, RoomMake keeps the tables in agreement iff the name fits with its terminator or overhangs by exactly the maker's id |
| `ChatLaws.UserEnterAgreesIff` | Chat/Server/BusinessService.cpp:648-662 | a successful UserEnter keeps the tables in agreement iff the id fits or overhangs by the one character with the number of WAITING |
| `ChatLaws.MisreadRoomIsLost` | Chat/Server/BusinessService.cpp:372-376 | after RoomMake the maker's next command finds its room iff the name is read back, or the name that is read instead is another room |
| `ChatLaws.LongNames` | Chat/Server/BusinessService.cpp:707-708 | names of 20 and of 21 characters after which the maker has no room to look up, and one of 23 characters that does no harm |
| `Answers.RoomMakeAnswered` | Chat/Server/BusinessService.cpp:676-719 | after the job and a drain: a taken name is refused with no table changed; otherwise the maker chats alone in the new room; only the maker is told, and which |
| `Answers.RoomEnterAnswered` | Chat/Server/BusinessService.cpp:722-770 | after the job and a drain: refused if there is no room; otherwise last on its list, and everybody in it is told once who came, the newcomer included, and nobody else |
| `Answers.FriendGoAnswered` | Chat/Server/BusinessService.cpp:998-1080 | after the job and a drain: in the friend's room, with everybody there told, or told why not |
| `Answers.WhisperAnswered` | Chat/Server/BusinessService.cpp:773-836 | after the job and a drain: a session of that name, and nobody else, gets the text under the sender's name; only if there is none the sender is told so |
| `Answers.RoomInfoAnswered` | Chat/Server/BusinessService.cpp:839-870 | after the job and a drain: the asker alone gets a listing of exactly the rooms with the number of sessions chatting in each |
| `Answers.LogOutAnswered` | Chat/Server/BusinessService.cpp:316-331 | after the job and a drain: id and session are gone, rooms are as they were, and the client alone is told |
| `Answers.OthersRefused` | Chat/Server/BusinessService.cpp:300-350 | after the job and a drain: any other direction from the lobby changes nothing and is refused, but for two that are passed over |
| `Answers.ChatLineReaches` | Chat/Server/BusinessService.cpp:420-440 | after the job and a drain: a chat line has reached each session chatting in the sender's room once, under the sender's name, and nobody else, and no table has changed |
| `Answers.OutAnswered` | Chat/Server/BusinessService.cpp:364-401 | after the job and a drain: everybody in the room was told once who left, then the one who left got the menu, is back in the lobby and on no list |
| `Answers.RestOfRoomAnswered` | Chat/Server/BusinessService.cpp:402-418 | what contains the friend command or is an approval is passed over; a file is announced to the room and queued for it |
| `Answers.CountAnswered` | Chat/Server/BusinessService.cpp:1200-1204 | after the job and a drain: the monitor alone is told the packet count and the number of sessions |
| `Answers.BanAnswered` | Chat/Server/BusinessService.cpp:1120-1198 | after the job and a drain: a session of that name is gone with its id, its room was told once, then the banned; nothing happens if there is none |
| `Answers.NothingHappens` | Chat/Server/Server.cpp:119-126 | a job of a socket that is not live, and a disconnect that failed, change nothing at all |
| `Answers.AcceptRecords` | Chat/Server/BusinessService.cpp:1108-1113 | an accepted socket is recorded with its address; one that is there keeps what it has |
| `AccountLaws.EnterDecided` | Chat/Server/BusinessService.cpp:617-673 | a login gives its socket a session iff it names an account, its password and an id that is not logged in; the session holds the id and the account's nickname; otherwise no table changes |
| `AccountLaws.EnterAnswered` | Chat/Server/BusinessService.cpp:640-672 | after the job and a drain: the client alone is told which of these failed, or is welcomed by nickname |
| `AccountLaws.OutsiderRefused` | Chat/Server/BusinessService.cpp:278-296 | anything else from a socket without session is refused and changes nothing |
| `AccountLaws.SessionsAppear` | Chat/Server/BusinessService.cpp:617-673 | over every step: a session appears iff the step is such a login of its own socket |
| `AccountLaws.SessionsCameByLogin` | Chat/Server/BusinessService.cpp:617-673 | over every run: nobody has a session who has not logged in during it with the right password |
| `AccountLaws.MakeAnswered` | Chat/Server/BusinessService.cpp:569-614 | after the job and a drain: a taken id is refused with no account changed; a free one becomes an account with the password and nickname asked for, beside the others |
| `AccountLaws.AccountsStay` | Chat/Server/BusinessService.cpp:591-612 | over every step: an account keeps its password and nickname, and one appears only when a socket without session asks for it |
| `AccountLaws.AccountsStayInRuns` | Chat/Server/BusinessService.cpp:591-612 | over every run: an account keeps its password and nickname |
| `AccountLaws.MakeThenEnter` | Chat/Server/BusinessService.cpp:569-673 | making an account and logging in with the same id and password gives a session with the nickname asked for |
| `AccountLaws.LoginIsSecond` | Chat/Server/BusinessService.cpp:648-662 | a login that the duplicate check lets through leaves each account with one session iff the check, made on accounts instead of ids, would have let it through |
| `AccountLaws.RunIds` | Chat/Server/BusinessService.cpp:648-662 | in every run the ids in idSet are no longer than those used for logins |
| `AccountLaws.GuardHoldsIff` | Chat/Server/Vo.h:32-34 | over all runs: no account ever has two sessions iff ids are limited to at most ten characters |
| `BusinessService.BusinessService.Sendwork` | Chat/Server/BusinessService.cpp:62-135 | one drain handles everything queued, in order, and empties the queue; the wire gains, in queue order, exactly what each entry is due |
| `BusinessService.BusinessService.SendEntry` | Chat/Server/BusinessService.cpp:83-133 | one entry puts on the wire what it is due: one delivery to its socket, or one to each member of its room |
| `BusinessService.BusinessService.InsertSendQueue` | Chat/Server/BusinessService.cpp:139-164 | appends one entry and changes nothing else |
| `BusinessService.BusinessService.SendToRoomMsg` | Chat/Server/BusinessService.cpp:97-99 | one delivery per listed socket, in list order |
| `BusinessService.BusinessService.UserMake` | Chat/Server/BusinessService.cpp:569-614 | new state as specified: an account under the first ten characters of the id, added once or refused |
| `BusinessService.BusinessService.InitUser` | Chat/Server/BusinessService.cpp:168-199 | stores a WAITING session with the truncated names and welcomes the user |
| `BusinessService.BusinessService.UserEnter` | Chat/Server/BusinessService.cpp:617-673 | new state as specified for unknown account, wrong password, duplicate login and success; the account is looked up by the first ten characters of the id, the duplicate by all of it |
| `BusinessService.BusinessService.RoomMake` | Chat/Server/BusinessService.cpp:676-719 | new state as specified; an existing room is refused |
| `BusinessService.BusinessService.EnterFound` | Chat/Server/BusinessService.cpp:748-761 | session updated, socket appended to the list |
| `BusinessService.BusinessService.RoomEnter` | Chat/Server/BusinessService.cpp:722-770 | new state as specified; a missing room is refused |
| `BusinessService.BusinessService.FindByName` | Chat/Server/BusinessService.cpp:1025-1026 | the scan returns a session with the name iff there is one |
| `BusinessService.BusinessService.Whisper` | Chat/Server/BusinessService.cpp:773-836 | reaches a session of that name, or tells the sender |
| `BusinessService.BusinessService.RoomInfo` | Chat/Server/BusinessService.cpp:839-870 | answers with the listing |
| `BusinessService.BusinessService.FriendGo` | Chat/Server/BusinessService.cpp:998-1080 | new state as specified for the friend found by the scan, where the lock can be looked up whichever is found |
| `BusinessService.BusinessService.Leave` | Chat/Server/BusinessService.cpp:364-401 | the separate assignments together are leaving the room |
| `BusinessService.BusinessService.LogOut` | Chat/Server/BusinessService.cpp:316-331 | id and session erased, answer queued |
| `BusinessService.BusinessService.CloseSession` | Chat/Server/BusinessService.cpp:213-271 | the separate assignments together are the teardown, with the goodbye; name and id are read from their local copies |
| `BusinessService.BusinessService.BanUser` | Chat/Server/BusinessService.cpp:1120-1198 | a session with the name, if there is one, is closed and told |
| `BusinessService.BusinessService.InsertLiveSocket` | Chat/Server/BusinessService.cpp:1108-1113 | an accept step; an entry that exists is kept |
| `BusinessService.BusinessService.ClientExit` | Chat/Server/BusinessService.cpp:202-274 | a disconnect step of the run; nothing happens if closing failed |
| `BusinessService.BusinessService.DirectionFunc` | Chat/Server/BusinessService.cpp:28-39 | only filled slots of the command table are ever selected, and each does what is specified |
| `BusinessService.BusinessService.StatusLogout` | Chat/Server/BusinessService.cpp:278-296 | new state as specified for a socket without session |
| `BusinessService.BusinessService.StatusWait` | Chat/Server/BusinessService.cpp:300-350 | new state as specified for a session in the lobby |
| `BusinessService.BusinessService.StatusChat` | Chat/Server/BusinessService.cpp:354-450 | new state as specified for a chatting session |
| `BusinessService.BusinessService.CallFuncPointer` | Chat/Server/BusinessService.cpp:56-59 | dispatch by status |
| `BusinessService.BusinessService.WorkJob` | Chat/Server/Server.cpp:123-150 | under the invariant every job finds its table slots and lookups, and does what is specified |
| `Server.Server.EnqueuePackets` | Chat/Server/Server.cpp:250-263 | packets appended as one block, counter raised by their number with 32-bit wrap-around |
| `Server.Server.WorkOne` | Chat/Server/Server.cpp:119-150 | one job is one step of the run; CALLCOUNT queues the counter's value and the number of sessions, and resets the counter |
| `Server.Server.WorkRound` | Chat/Server/Server.cpp:106-151 | a swapped batch is handled front to back as a run of steps, up to a job that ends the process |
| `Server.Server.RecvRound` | Chat/Server/Server.cpp:216-263 | a completion: its frames, by the pure parse iff the chunk satisfies `Resumes`, appended to the job queue as one block and counted |
| `JobPipeline.InOrderKept` | Chat/Server/Server.cpp:250-263 | each action keeps: batches then queue are what was pushed, and that is the completions end to end |
| `JobPipeline.CountedKept` | Chat/Server/Server.cpp:128 | each action keeps the packet count |
| `JobPipeline.ActKeeps` | Chat/Server/Server.cpp:106-151 | each action of any thread keeps the pipeline invariant |
| `JobPipeline.ExecuteKeeps` | Chat/Server/Server.cpp:106-151 | every interleaving keeps it |
| `JobPipeline.JobsConserved` | Chat/Server/Server.cpp:106-121 | batches in swap order, then the queue, then what is still to be pushed are the completions in order of entry, each contiguous |
| `JobPipeline.CompletionsStayWhole` | Chat/Server/Server.cpp:250-263 | in every interleaving each batch ends where a completion ends: the packets of one completion are never split over two batches |
| `JobPipeline.JobsTakenOnce` | Chat/Server/Server.cpp:119-121 | every job swapped out was taken exactly once or is in the hands of the only worker busy with its batch; batches are taken front to back |
| `JobPipeline.PacketsCounted` | Chat/Server/Server.cpp:127-130 | returned values plus counter equal the packets added, modulo 2^32 always and exactly below 2^31; with nobody enqueueing that is the number of jobs pushed |
| `JobPipeline.EnqueueSection` | Chat/Server/Server.cpp:250-263 | the enqueue section run through appends the packets and counts them |
| `JobPipeline.Wrap32` | Chat/Server/Server.cpp:41 | congruent modulo 2^32 and in int range |
| `LockLevel.LoggedKept` | Chat/Server/BusinessService.cpp:648-662 | each critical section keeps the log of insertions and erasures in step with idSet and roomMap, and inserts nothing that is in |
| `LockLevel.Exclusion` | Chat/Server/BusinessService.cpp:683-702 | under any interleaving, between two admitted logins of one id the id was erased, and between two successful RoomMakes of one name the room was |
| `LockLevel.MembersStay` | Chat/Server/BusinessService.cpp:695-702 | the only sections that cost a socket its place on a list are those that take it off and the one that erases the room; making a room overwrites nothing |
| `LockLevel.RoomsExclude` | Chat/Server/BusinessService.cpp:394-400 | between the size check and the erase no other thread can make, find or check a room, and the one that is there can go on |
| `LockLevel.HeldKept` | Chat/Server/BusinessService.cpp:225-271 | with one thread per socket and ids that fit, each section keeps every id in idSet owned by exactly one login under way or session not being closed |
| `LockLevel.SharedIdsAreClosing` | Chat/Server/BusinessService.cpp:316-327 | two sessions share an id only while one of them is being closed |
| `LockLists.SoundKept` | Chat/Server/BusinessService.cpp:374-400 | with one thread per socket and names that fit, each section, a push at the wrong moment included, leaves nobody on a list who does not belong there, no list empty without a thread about to drop it, and every session in the status its thread left it in |
| `LockLists.PlacedKept` | Chat/Server/BusinessService.cpp:374-400 | such a section also keeps everybody who belongs on a list, and a room about to be erased empty, iff it is not a push between the size check and the erase |
| `LockLists.ListsAreExact` | Chat/Server/BusinessService.cpp:739-761 | at every point of every interleaving with one thread per socket: whoever is listed belongs there and is listed once, and an empty list has a thread about to drop it; if no push falls between a size check and its erase, whoever belongs is listed |
| `LockLists.WheneverAtRest` | Chat/Server/BusinessService.h:41-69 | however the sections were interleaved, one thread per socket: whenever no handler is under way the tables agree iff every chatting session is on the list of its room, and if no push fell between a size check and its erase, they agree |
| `LockRaces.PlaceStays` | Chat/Server/BusinessService.cpp:374-381 | no interleaving whatsoever costs a socket its place on a list without a section that takes it off, unless a thread is about to erase the room already |
| `LockRaces.PlaceAtRisk` | Chat/Server/BusinessService.cpp:394-400 | a socket can lose its place without being taken off iff somebody has seen its room empty and is about to erase it |
| `LockRaces.RoomVanishes` | Chat/Server/BusinessService.cpp:746-760 | from any agreeing state at rest, a room of any size: some orderly interleaving in which only sockets of a given set are taken off lists makes RoomEnter's second, unchecked lookup fail iff everybody listed is in that set |
| `LockRaces.NewcomerIsLost` | Chat/Server/BusinessService.cpp:394-400 | from any agreeing state at rest, a room of any size and names that fit: some orderly interleaving in which only sockets of a given set are taken off lists ends at rest with the newcomer chatting in a room that is gone iff everybody listed is in that set; and in such a state the tables do not agree |
| `LockRaces.TwoWorkersTwoRooms` | Chat/Server/Server.cpp:106-121 | from any agreeing state at rest, two RoomMake jobs of one socket in the hands of two workers leave it on two lists and the tables not in agreement |
| `LockRaces.TwoWorkersShareId` | Chat/Server/BusinessService.cpp:316-327 | from any agreeing state at rest with a session in the lobby, two logouts of it in the hands of two workers lead to two other sessions with its id, neither being closed |
| `LockLevel.LoginAlone` | Chat/Server/BusinessService.cpp:648-662 | the login sections, uninterrupted, are the atomic login |
| `LockLevel.OpenRoomAlone` | Chat/Server/BusinessService.cpp:683-711 | the RoomMake sections, uninterrupted, are the atomic opening |
| `LockLevel.JoinRoomAlone` | Chat/Server/BusinessService.cpp:729-760 | the RoomEnter sections, uninterrupted, are the atomic joining |
| `LockLevel.LeaveRoomAlone` | Chat/Server/BusinessService.cpp:374-400 | the leaving sections, with or without erasing the room, uninterrupted, are the atomic leaving |
| `LockLevel.CloseLobbyAlone` | Chat/Server/BusinessService.cpp:316-327 | the logout sections, uninterrupted, are the atomic logout |
| `LockLevel.CloseChatAlone` | Chat/Server/BusinessService.cpp:225-269 | the sections of a disconnect, uninterrupted, are the atomic teardown |

## Left out

- Reassembler.DataCopy: for a frame without a NUL behind its header only the beginning of the
  message is stated, because the C++ code then reads on into whatever its pool block held before.
- Reassembler.ReadInTwoPieces: a last piece of one byte behind a saved header is excluded, see
  Reassembler.ReadMoreBody.
- Reassembler.ReadMoreBody: a one-byte chunk for a frame with a saved header is excluded, because
  the source then copies from an end before its beginning, which has no meaning in C++.
- Frames with sizes below 10, negative sizes and sizes beyond the bound: preconditions.
- The record's own pool (MPool): a finished record is reset in place instead of being freed and
  replaced by a fresh one.
- LockLevel.HeldKept: two threads working for one socket at once are excluded; LockRaces has what
  they do to the result.
- LockLevel.SharedIdsAreClosing: the same.
- BusinessService.BusinessService.SendEntry: a SEND_FILE entry puts nothing into the log of messages.
- BusinessService.BusinessService.RoomInfo: the listing is a map, so its alphabetical order is not
  captured.
- Jobs.Tokens: commands with more tokens than the source's arrays have room for are treated as
  if the rest were ignored; the source writes past the array.
- The process's end: a run stops before a job that makes the server exit, or whose lookup at line
  1055 can fail.
- Windows calls (completion ports, WSARecv, accept, closesocket, threads) and console output: a
  completion is a byte sequence, closing is a success flag, sends are appended to a log.
- The database: a map from the first ten characters of an id to password and nickname, and the nickname it returns for
  a friend as an input. Logging and the field widths of passwords and nicknames in its value
  objects are not modelled.
- FriendInfo, FriendAdd, FriendDelete and RoomUserInfo: one answer without its text. Texts of
  messages are represented by their meaning.
- Files: FILE_SEND queues its two entries with the path as an input.
- Blocking and waking of threads (condition variables, sendStop): a step that would block is not
  enabled.
- The global SendThread with its own queue in Server.cpp: the same swap and drain with no
  producer.
- IocpService beyond its sends, Redis, ranking, the socket wrapper and the SQL schema: wrappers
  or data.
