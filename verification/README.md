# A model of the chat server and its client

This project states in Dafny what the chat server and its test client do, and proves
what follows from it over all inputs and all runs. `dafny verify dfyconfig.toml` checks
everything.

Code that changes state is modelled by classes and methods with the same fields,
branches and loops; each is proved to do what a function on values says, and the
theorems are about those functions and the runs made of them.

| file | contents |
|---|---|
| `bytes.dfy`, `dataPackage.dfy` | integers as bytes, and the frame codec working in place on a buffer |
| `packageBuffer.dfy`, `framing.dfy` | the reassembly buffer, and the read loops over a stream cut anywhere |
| `rateLimiter.dfy`, `heartbeat.dfy`, `spinlock.dfy` | token buckets with their cleaner, the heartbeat monitor, the lock as a protocol of any number of threads |
| `friends.dfy` | applications, friend lists, private rooms and their index under the friend commands |
| `groupRoom.dfy`, `groups.dfy` | a group room and its message log; applications, member lists and rooms under the group commands |
| `connections.dfy` | connection table, user connection maps and sessions under connect, login and disconnect |
| `server.dfy` | all of these together, driven by what arrives on connections |
| `requests.dfy` | what each request does to the tables and what it is answered |
| `chatServer.dfy` | the objects behind it, changed in place: users, rooms, the tables of the manager and of the verification manager |
| `session.dfy` | one connection of the server from accept to close |
| `correlation.dfy` | requests and replies between client and server over two channels |
| `options.dfy` | the word splitter and the option parser |
| `ids.dfy`, `errors.dfy`, `reals.dfy`, `histories.dfy` | ids and answers, the error codes, products and quotients of reals, and what a history of makings and endings says |

## Conventions

- A public call is one step. Time, chunk boundaries, random draws, passwords being right
  and callbacks throwing are inputs.
- Integers of fixed width appear with their width where it matters: in the codec and in
  the byte swap. Tokens and seconds of the rate limiter and of the heartbeat monitor are
  reals.
- An exception is a value: a `Result`, a `Reply` or a fault that says how the call ended.
- The index of private rooms is keyed by the pair in increasing order, which is the
  equality the server gives its keys (`Friendship.KeyEquality`).
- A private room is a value: none of the modelled operations changes one after it has
  been made.
- Manager and verification manager are one class, since each calls the other and they
  share the users.

## Where the code does something else than it says

- `removeFriend` (server/user/user.cpp:347) erases the friend from the friend's own list
  instead of the remover. `Friendship.RemovalAndSymmetry` says exactly what this costs, and
  `Friendship.IntendedSymmetric` that the erasure that was meant would keep every run symmetric.
- Removing a friend leaves the private room, which then blocks every new application;
  only an application from before the room can still bring the friend back
  (`Friendship.RemovedForever`).
- Users who apply to each other end up with two private rooms if both accept
  (`Friendship.OneUnlessCrossed`).
- The cleaner of the rate limiter forgets debts. How much a deletion changes, and from
  which capacity on the limits hold in spite of it, is `RateLimiting.DeletionInvisible`,
  `RateLimiting.BoundThreshold` and `RateLimiting.FutileThreshold`; whom it costs a
  connection is `RateLimiting.DeletionCosts`.
- Accepting a friend answers with success even if nothing was pending
  (server/jsonMessageProcess/JsonMsgProcessCommand.cpp:69-83).
- `leaveGroup` removes the administrator too before it answers with a failure, and never
  shrinks the group list (`GroupMembership.LeavingIsSilent`). Exactly this makes group lists
  and member lists differ (`GroupMembership.ListsAgreeUnlessLeft`).
- Private rooms take their ids from the counter meant for group rooms and the other way
  round (server/manager/manager.cpp:101, 200); the model keeps this.
- The rate limiter takes a token for a denied attempt as well
  (server/network/rateLimiter.hpp:46), so buckets go into debt.
- Both read loops take one frame for each chunk that arrives, even if several are complete.
- A request id may be drawn as 0, which the client takes for "no id"
  (`Correlation.ZeroStays`).
- A callback that throws leaves its entry in the map of callbacks (`Correlation.KeysAre`).
- A package of nearly 2^32 bytes or more has its length field wrapped: it arrives cut, or,
  where the field falls below the size of the header, the swap leaves the string, which
  the model says has no result (`DataPackages.PayloadSurvives`).

## Model

| member | source | states |
|---|---|---|
| `Bytes.SwapEndianness` | utils/networkEndianness.hpp:18-26 | The loop returns the value whose bytes are those of the argument in the opposite order, for every width and for signed types, and the result fits the type |
| `Bytes.SwapReversesBytes` | utils/networkEndianness.hpp:18-26 | Swapping is byte reversal, negative values included |
| `Bytes.SwapSelfInverse` | utils/networkEndianness.hpp:18-26 | Two swaps give back every value of the type |
| `Bytes.BigEndianRoundTrip` | utils/networkEndianness.hpp:32-39 | A value of the type is recovered from its bytes in network order |
| `Bytes.BytesRoundTrip` | utils/networkEndianness.hpp:32-39 | Any n bytes in network order are the bytes of exactly the value read from them |
| `Bytes.SwappedPrefix` | utils/network/package.hpp:47-49 | A length prefix loaded from memory and swapped is the prefix read in network order |
| `DataPackages.SwapField` | utils/network/dataPackage.hpp:125-130 | Assigning a swapped field inside a buffer reverses exactly the bytes of that field and leaves all others |
| `DataPackages.SwapHeader` | utils/network/dataPackage.hpp:123-131 | The five assignments reverse each header field in place and leave the payload alone |
| `DataPackages.PackageToString` | utils/network/dataPackage.hpp:140-161 | The string is the first `length` bytes of the object with the header swapped, and there is none if the header does not fit in it; for a package with the right length that is the wire format |
| `DataPackages.StringToPackage` | utils/network/dataPackage.hpp:94-134 | Every string gives the package read in network order or the error of the failing check |
| `DataPackages.EncodeIsWire` | utils/network/dataPackage.hpp:140-161 | What the in-place conversion writes is every field in network order followed by the payload |
| `DataPackages.DecodeEncode` | utils/network/dataPackage.hpp:94-161 | Round trip: every field and the payload come back for all values the fields can hold |
| `DataPackages.EncodeDecode` | utils/network/dataPackage.hpp:94-134 | A string is accepted if and only if it has a whole header and announces its own size; re-encoding an accepted string returns it |
| `DataPackages.FieldsOnWire` | utils/network/dataPackage.hpp:36-47 | Where each header field lies in the string, byte by byte, most significant first, a negative request id as its two's complement |
| `DataPackages.EncodeInjective` | utils/network/dataPackage.hpp:140-161 | Different packages have different encodings |
| `DataPackages.DecodeTruncated` | utils/network/dataPackage.hpp:140-161 | For every value of the length field: there is a string exactly if it has room for the header, and then the package arrives with its payload cut to fit the field |
| `DataPackages.PayloadSurvives` | utils/network/dataPackage.hpp:70-87 | A payload of any size survives the trip if and only if it and the header fit in 32 bits, and then every field arrives as it was given |
| `PackageBuffer.Package.Write` | utils/network/package.hpp:36 | Bytes are appended |
| `PackageBuffer.Package.FirstMsgLength` | utils/network/package.hpp:57-66 | The announced size in network order, or 0 if the prefix is incomplete |
| `PackageBuffer.Package.CanRead` | utils/network/package.hpp:42-51 | True if and only if the prefix and everything it announces have arrived |
| `PackageBuffer.Package.Read` | utils/network/package.hpp:72-85 | Takes exactly the first frame off the front; the two errors leave the buffer as it was |
| `Framing.ParseFrames` | utils/network/package.hpp:36-85 | Frames written one after the other are the complete frames of the byte string, in order |
| `Framing.ReceiverConserves` | server/network/network.cpp:136-150 | After every chunk, whatever the bytes and the cuts, delivered frames followed by the buffer are the bytes written so far |
| `Framing.DeliveryIsPrefix` | server/network/network.cpp:136-150 | For every list of frames and every way of cutting their concatenation the loop does not fail and delivers a prefix of the list |
| `Framing.CompleteFrames` | utils/network/package.hpp:42-85 | What is complete in an initial piece of a stream of frames: exactly the frames that lie inside it |
| `Framing.DeliveredNext` | testclient/network.cpp:461-473 | A chunk delivers one frame more if one is complete, and never two |
| `Framing.DeliveryCount` | testclient/network.cpp:461-473 | After k chunks exactly the least of c(j) + (k - j) over j <= k frames have been delivered, c(j) being the complete frames in the first j chunks |
| `Framing.ClientReadLoop` | testclient/network.cpp:461-473 | The receive loop of the client ends in the state of the chunk-by-chunk receiver |
| `Framing.Drain` | utils/network/package.hpp:72-85 | Reading until `canRead` refuses takes exactly the complete frames, and frames and rest are the bytes that were there |
| `RateLimiting.RateLimiter.AllowConnection` | server/network/rateLimiter.hpp:30-68 | The decision and both buckets after an attempt; the token is taken whether or not the attempt passes |
| `RateLimiting.RateLimiter.AutoClean` | server/network/rateLimiter.hpp:85-97 | One pass of the cleaner applies to each bucket in turn its own look at the clock |
| `RateLimiting.SweepsErase` | server/network/rateLimiter.hpp:85-97 | A cleaning erases exactly the buckets that some look of it finds idle for 60 seconds or more, and changes nothing else |
| `RateLimiting.RefusedGlobally` | server/network/rateLimiter.hpp:54-67 | On every run: who passes the own bucket and is turned away finds the global one overdrawn, that is, at least cap * (1 + delta) attempts have passed their own buckets within the last delta seconds, or at least cap * now in all |
| `RateLimiting.RefusedByOwn` | server/network/rateLimiter.hpp:30-52 | On every run: an address denied by its own bucket has tried that often itself |
| `RateLimiting.CrowdLetIn` | server/network/rateLimiter.hpp:30-68 | Of any number of addresses that try for the first time at one moment, from one second on, exactly the first are let in, as many as the global capacity rounded up |
| `RateLimiting.WindowBound` | server/network/rateLimiter.hpp:30-97 | In every window of delta seconds an address passes its bucket fewer than cap * (1 + delta) + 1 times, for every interleaving of attempts and deletions (cap at least 1/59) |
| `RateLimiting.GlobalWindowBound` | server/network/rateLimiter.hpp:54-67 | The connections let in during any window obey the same bound with the global capacity |
| `RateLimiting.BoundThreshold` | server/network/rateLimiter.hpp:30-97 | The bound holds for all runs and windows if and only if the capacity is at least 1/59 |
| `RateLimiting.TooManyPasses` | server/network/rateLimiter.hpp:85-97 | Below 1/59 there is a run in which deletions let an address through too often |
| `RateLimiting.DeletionUnseen` | server/network/rateLimiter.hpp:30-97 | If the deleted bucket would have been full again, every later decision about every address, on every run, is the same as without the deletion |
| `RateLimiting.DeletionInvisible` | server/network/rateLimiter.hpp:91-95 | Some later decision on some run tells a deletion of an idle bucket from keeping it if and only if the bucket would not have been full again; a balance of at least -59 cap is always enough |
| `RateLimiting.FullAfterIdling` | server/network/rateLimiter.hpp:36-46 | A bucket deleted the moment it has been idle for a minute would have been full again if and only if its balance is at least -59 cap |
| `RateLimiting.DeletionOnlyAdmits` | server/network/rateLimiter.hpp:91-95 | A deletion costs the address no pass of its own bucket: on the same later events it passes there whenever it would have passed without the deletion |
| `RateLimiting.DeletionCosts` | server/network/rateLimiter.hpp:30-97 | Some later connection, of whatever address, is turned away on some run because of the deletion of an idle bucket if and only if the bucket would not have been full again (and the global capacity lets anybody in) |
| `RateLimiting.DeletionCostsItsAddress` | server/network/rateLimiter.hpp:30-97 | A run on which it is the address of the deleted bucket itself that loses a connection, to the global bucket |
| `RateLimiting.DeniedForever` | server/network/rateLimiter.hpp:36-46 | For a capacity above 1/60: an address in debt that comes back within 1/cap seconds each time is denied every time, with any sweeps in between |
| `RateLimiting.FutileThreshold` | server/network/rateLimiter.hpp:30-97 | On every run a denied address that comes back within 1/cap seconds each time stays denied, if and only if the capacity is above 1/60 |
| `RateLimiting.DenialLeavesDebt` | server/network/rateLimiter.hpp:40-46 | A denied attempt leaves a balance of at most -1 |
| `RateLimiting.QuietPasses` | server/network/rateLimiter.hpp:40-46 | With debt d, an address that makes no attempt for more than d/cap seconds passes its bucket again, on every run of other addresses' attempts and sweeps in between |
| `Heartbeats.HeartbeatMonitor.OnHeartBeat` | server/network/network.cpp:152-168 | The counter, the window and the decision to drop, for one heartbeat |
| `Heartbeats.DroppedIs` | server/network/network.cpp:152-168 | The connection is dropped if and only if some heartbeat comes ten seconds or more after its window was opened, as the eleventh of the window or later |
| `Heartbeats.SpacedNeverDropped` | server/network/network.cpp:133-168 | Heartbeats far enough apart, counted from any point of a window, never drop the connection |
| `Heartbeats.SafeGapThreshold` | server/network/network.cpp:133-168 | A gap is safe on every run if and only if it is at least 10/9 of a second |
| `Heartbeats.WaitingGapThreshold` | server/network/network.cpp:133-168 | For clients whose first heartbeat waits one gap as well, a gap is safe on every run if and only if it is at least one second |
| `Heartbeats.RegularDropped` | server/network/network.cpp:153-167 | Heartbeats at any fixed gap below 10/9 of a second do lose the connection |
| `Sessions.ReadLoop` | server/network/network.cpp:131-187 | The coroutine loop over buffer, decoder, monitor and service ends in the state of the run, with users and connections changed by exactly the registrations and logins served |
| `Sessions.Process` | server/network/network.cpp:99-204 | A connection let in is registered once and removed once on every way out; whoever has registered or logged in on it, connection table, sessions and the connections of all users are left exactly as they were found, and the users it has registered remain, with no connection |
| `Sessions.TablesGainOne` | server/network/network.cpp:119-175 | Whatever is served, until it is closed the connection and the users registered on it are all that is new in the tables |
| `Sessions.SoundAlways` | server/manager/manager.cpp:248-262 | What a connection relies on when it is opened holds in every reachable state of the server |
| `Sessions.ClosedStays` | server/network/network.cpp:184-187 | Nothing is handled after the session has ended |
| `Sessions.PackagesArriveInOrder` | server/network/network.cpp:136-175 | Encoded packages are handed on decoded, in order, none lost or repeated, however the stream is cut; only too many heartbeats can end the connection on its own |
| `Sessions.EndedByHeartBeats` | server/network/network.cpp:152-168 | On every run the session ends for too many heartbeats if and only if the monitor drops it for the moments of the heartbeat packages, whatever else arrives |
| `Sessions.SpacedClientStays` | server/network/network.cpp:131-175 | A client whose heartbeats are 10/9 of a second apart keeps its session, however many other packages it sends |
| `Sessions.OpenFollowsReceiver` | server/network/network.cpp:136-150 | For any bytes at all, an open session has handled the delivered frames, decoded |
| `Sessions.NextExit` | server/network/network.cpp:136-187 | How an open session goes on after any arrival: each of the four ways to end, exactly when it happens |
| `Sessions.LoginsTakeEffect` | server/jsonMessageProcess/JsonMsgProcess.cpp:298-335 | On every run, table, session and user maps say that the connection belongs to the user of its last login with the right password, be it a user registered on it before |
| `Spinlock.InvStep` | utils/spinlock_mutex.hpp:19-32 | Every step of every thread keeps: one thread at most in the critical section, flag set exactly if there is one, no wake-up lost |
| `Spinlock.SafeFromStart` | utils/spinlock_mutex.hpp:19-32 | These hold after every interleaving of any number of threads |
| `Spinlock.NobodyLeftAsleep` | utils/spinlock_mutex.hpp:19-32 | When no thread is on the move, none is left asleep |
| `Spinlock.FreeLockCanBeTaken` | utils/spinlock_mutex.hpp:19-32 | A free lock that is wanted can be taken in three steps by threads already under way |
| `Spinlock.FreeLockIsTaken` | utils/spinlock_mutex.hpp:19-32 | And it is taken by every schedule: any run from a free lock of more than two steps per thread, newcomers and spurious wake-ups included, takes it within that many steps |
| `Spinlock.WantedLockMoves` | utils/spinlock_mutex.hpp:19-32 | While the free lock is wanted, a thread under way can move, and the lock is then taken or still wanted |
| `Friendship.KeyEquality` | server/main/definition.hpp:59-65 | Two pairs have the same index key if and only if the equality of the index holds of them |
| `Friendship.ApplyEntries` | server/manager/verificationManager.cpp:97-149 | An application adds a Sent and a Received entry unless the two already have entries for each other, and keeps the entries facing each other |
| `Friendship.RemovedEntries` | server/manager/verificationManager.cpp:223-242 | The end of an application removes the entries the two have for each other and no other |
| `Friendship.AcceptKeeps` | server/manager/verificationManager.cpp:162-196 | An acceptance makes one room and keeps every agreement between lists, entries, index and rooms |
| `Friendship.StepKeeps` | server/jsonMessageProcess/JsonMsgProcessCommand.cpp:52-156 | Every friend command keeps all agreements between the central table, the user records, the index and the rooms |
| `Friendship.InvAlways` | server/manager/manager.cpp:93-134 | In every reachable state: Sent faces Received and is pending, friends have a live room of the two of them, rooms ever made plus pending applications are at most two per pair |
| `Friendship.UncrossedAlways` | server/user/user.cpp:270-295 | Without crossed applications the count is at most one and the pending applications are exactly the Sent entries |
| `Friendship.OneUnlessCrossed` | server/user/user.cpp:270-295 | After every command of a run each pair has at most one room or pending application, if and only if nobody on the run applies to a user whose own application to them is pending |
| `Friendship.ShownUnlessCrossed` | server/manager/verificationManager.cpp:97-149 | The pending applications are exactly the Sent entries after every command of a run, under the same condition and no other |
| `Friendship.CrossedApplicationsMakeTwoRooms` | server/user/user.cpp:282-286 | Applications both ways, both accepted, do make two rooms |
| `Friendship.FriendsAgreed` | server/manager/verificationManager.cpp:162-196 | If v is in the list of u, one of them applied to the other and the other accepted after that |
| `Friendship.PendingIsHistory` | server/manager/verificationManager.cpp:97-242 | An application is pending if and only if it was made and has not been answered since |
| `Friendship.FriendshipIsHistory` | server/user/user.cpp:270-356 | v is in the list of u if and only if one of them accepted a pending application of the other and u has not removed v since |
| `Friendship.RoomsAreAcceptances` | server/manager/manager.cpp:93-116 | A pair has exactly as many private rooms as there were acceptances between the two |
| `Friendship.FriendMessageDelivered` | server/jsonMessageProcess/JsonMsgProcessCommand.cpp:240-262 | A message to a listed friend always finds the room and reaches exactly the two; to anyone else it fails |
| `Friendship.HistoryDecides` | server/user/user.cpp:270-356 | On every run users, pending applications, rooms and friend lists are what the commands alone say, by a definition that refers to no table and no answer |
| `Friendship.AnswersAreHistory` | server/jsonMessageProcess/JsonMsgProcessCommand.cpp:52-156 | The exact answer of every friend command, from the commands before it: an application succeeds if and only if both exist and differ, neither has ever accepted the other, and the applicant is not waiting |
| `Friendship.RoomIds` | server/manager/manager.cpp:93-116 | Rooms get consecutive ids from 10000 |
| `Friendship.StepKeepsSymmetry` | server/jsonMessageProcess/JsonMsgProcessCommand.cpp:52-156 | Every command other than a successful removal keeps friendship symmetric |
| `Friendship.RemovedOneWay` | server/user/user.cpp:346-347 | A removal takes one entry off one list and changes no other list |
| `Friendship.RemovalAndSymmetry` | server/user/user.cpp:336-356 | From a symmetric state the state after a removal is symmetric if and only if there was no friend to remove; after the removal of a friend the two lists agree if and only if the friend had removed the remover before |
| `Friendship.RemovalLeavesOneSide` | server/user/user.cpp:347 | A run after which one of two users lists the other and not the other way round |
| `Friendship.SymmetricUnlessRemoved` | server/user/user.cpp:270-356 | Friendship is symmetric after every command of a run if and only if no command of the run removes someone who is a friend |
| `Friendship.RemovalBothWaysKeepsSymmetry` | server/user/user.cpp:347 | With the remover erased from the list of the friend, as meant, removal keeps symmetry |
| `Friendship.IntendedSymmetric` | server/user/user.cpp:336-356 | With that erasure, friendship is symmetric after every run, removals included |
| `Friendship.RemovedForever` | server/manager/manager.cpp:142-154 | A pair with a room but without friendship: no run makes them friends again if and only if no application between them is still pending |
| `GroupRooms.GroupRoom.constructor` | server/room/groupRoom/groupRoom.cpp:60-82 | The room starts with its administrator as only member and recipient |
| `GroupRooms.GroupRoom.JoinMember` | server/room/groupRoom/groupRoom.cpp:86-101 | The user becomes a member and a recipient |
| `GroupRooms.GroupRoom.DropMember` | server/room/groupRoom/groupRoom.cpp:112-126 | The user stops being a member and a recipient |
| `GroupRooms.GroupRoom.Store` | server/room/groupRoom/groupRoom.cpp:155-166 | The bump loop ends at the first free moment from now on, and the message is stored there without replacing another |
| `GroupRooms.GroupRoom.SendMessage` | server/room/groupRoom/groupRoom.cpp:128-175 | Stored and sent on to the recipients exactly if the sender is a member and not muted |
| `GroupRooms.GroupRoom.SendTipMessage` | server/room/groupRoom/groupRoom.cpp:177-223 | The same for a tip |
| `GroupRooms.GroupRoom.SendUserTipMessage` | server/room/groupRoom/groupRoom.cpp:225-273 | Stored and sent to the one receiver if it is a member and the sender is not muted; the error if the receiver is no recipient |
| `GroupRooms.GroupRoom.GetMessage` | server/room/groupRoom/groupRoom.cpp:275-298 | Exactly the entries with keys in the interval, in the order of the keys |
| `GroupRooms.GroupRoom.Clean` | server/room/groupRoom/groupRoom.cpp:573-577 | Exactly the entries up to seven days ago are erased |
| `GroupRooms.ListingUnique` | server/room/groupRoom/groupRoom.cpp:287-297 | What a look-up has to return is determined by the log and the interval |
| `GroupRooms.LogAlways` | server/room/groupRoom/groupRoom.cpp:155-166 | On every run the log is exactly the accepted messages that no cleaning has reached |
| `GroupRooms.KeysGrow` | server/room/groupRoom/groupRoom.cpp:158-162 | Over a clock that does not run backwards each accepted message gets a key above all earlier keys, also when moments collide |
| `GroupRooms.LookUpIsHistory` | server/room/groupRoom/groupRoom.cpp:275-298 | On every run of the send methods and cleaning, a look-up is exactly the accepted, unexpired messages of the interval in the order they were sent |
| `GroupRooms.RecipientsAreMembers` | server/room/room.cpp:44-66 | Member map and recipient set never part |
| `GroupRooms.AcceptedIsHistory` | server/room/groupRoom/groupRoom.cpp:128-273 | On every run a message is accepted, as it was sent, if and only if the events have put its sender (its receiver, for a tip to one user) in the room and the muting of the sender has run out |
| `GroupRooms.MutingsAre` | server/room/groupRoom/groupRoom.cpp:141-152 | A muting is forgotten exactly once a message of the user has been accepted, and never before it has run out |
| `GroupMembership.RemovalFindsMatches` | server/manager/verificationManager.cpp:338-353 | For a pending application to a live group both erasures find their entry, also if applicant and administrator are the same user, and exactly the entries of this application go |
| `GroupMembership.EraseBoth` | server/user/user.cpp:539-556 | Erasing twice from a run that holds a Sent and a Received entry of one user takes both, in whatever order they stand |
| `GroupMembership.ApplicationEntries` | server/manager/verificationManager.cpp:244-289 | An application adds one entry for the applicant and one for the administrator, who may be the same user |
| `GroupMembership.AddGroupKeeps` | server/user/user.cpp:410-432 | The exact answer, and every agreement kept |
| `GroupMembership.AcceptKeeps` | server/manager/verificationManager.cpp:299-319 | The applicant becomes the only new member, nothing is thrown, every agreement kept |
| `GroupMembership.AcceptGroupKeeps` | server/user/user.cpp:441-458 | The exact answer of each case, and every agreement kept |
| `GroupMembership.RejectGroupKeeps` | server/user/user.cpp:460-479 | The exact answer, and every agreement kept |
| `GroupMembership.StepKeeps` | server/jsonMessageProcess/JsonMsgProcessCommand.cpp:158-312 | Every group command keeps: entries under a live group are exactly those of pending applications, members have the group listed and nothing pending, members are recipients |
| `GroupMembership.WhenThrown` | server/user/user.cpp:539-556 | The loop over verification entries never leaves the entries of its group, and a user sees an exception only when accepting someone who has not applied |
| `GroupMembership.InvAlways` | server/manager/verificationManager.cpp:244-353 | All of this in every reachable state |
| `GroupMembership.MembersJoined` | server/user/user.cpp:410-458 | A member of a live group created it, or applied and was accepted by its administrator after that |
| `GroupMembership.PendingIsHistory` | server/manager/verificationManager.cpp:244-353 | An application to a group is pending if and only if it was made and the administrator has not answered it since |
| `GroupMembership.MembershipIsHistory` | server/room/groupRoom/groupRoom.cpp:86-126 | u is a member of live g if and only if it created g or was accepted by the administrator, and has not left since |
| `GroupMembership.ListIsHistory` | server/user/user.cpp:410-537 | g is on the list of u if and only if u created g or was accepted by its administrator at some point, whatever has happened since |
| `GroupMembership.ListsAgreeUnlessLeft` | server/user/user.cpp:510-537 | The group lists and the member lists of live groups agree after every command of a run if and only if no member leaves on it |
| `GroupMembership.GroupMessageDelivered` | server/jsonMessageProcess/JsonMsgProcessCommand.cpp:264-282 | A message is stored and sent on exactly if the sender is a member, and then to exactly the members |
| `GroupMembership.LeavingIsSilent` | server/user/user.cpp:510-537 | Leaving removes the member whatever the answer, but not the group from its list; later messages are reported as sent while none is |
| `GroupMembership.NeverTakenBack` | server/manager/manager.cpp:197-246 | Group lists only grow, ids of removed groups are not used again, and applications to them stay pending for ever |
| `GroupMembership.HistoryDecides` | server/user/user.cpp:410-537 | On every run users, rooms with their administrators, applications, members and group lists are what the commands alone say |
| `GroupMembership.AnswersAreHistory` | server/jsonMessageProcess/JsonMsgProcessCommand.cpp:158-312 | The exact answer of every group command, from the commands before it |
| `GroupMembership.RoomIsRun` | server/room/groupRoom/groupRoom.cpp:86-175 | Under any commands the room of a group goes through the run of its own events |
| `GroupMembership.GroupLookUpIsHistory` | server/room/groupRoom/groupRoom.cpp:275-298 | Under any commands a look-up in a live group is what its members sent, in order, less what has expired |
| `Connections.DetachKeeps` | server/manager/manager.cpp:344-347 | Taking a connection away from its last user cannot fail, and takes it out of every map |
| `Connections.LogInMaps` | server/jsonMessageProcess/JsonMsgProcess.cpp:298-335 | A login that succeeds moves the connection to the user under the new device; any other changes nothing; no error of the manager comes up |
| `Connections.CloseMaps` | server/manager/manager.cpp:353-371 | Closing takes the connection out of the table and of every map without an error |
| `Connections.StepKeeps` | server/manager/manager.cpp:287-371 | Every event keeps table, session and user maps in agreement, and none of the "already exists" and "does not exist" errors is reachable |
| `Connections.AgreeAlways` | server/manager/manager.cpp:287-371 | The agreement in every reachable state |
| `Connections.UsersAreRegistered` | server/manager/manager.cpp:248-262 | A user exists if and only if it has been registered |
| `Connections.RecordsFollowLogins` | server/user/user.cpp:564-607 | For every interleaving, a connection is in the map of the user who last logged in on it, under the device of that login, and in no other; table and session name that user |
| `Servers.RequestKeeps` | server/jsonMessageProcess/JsonMsgProcessCommand.cpp:17-312 | Every request of any executor, logged in or not, keeps all invariants of friends, groups and connections over one set of users |
| `Servers.InvAlways` | server/jsonMessageProcess/JsonMsgProcess.cpp:189-296 | They hold after everything that connections can bring about |
| `Servers.PartsRun` | server/jsonMessageProcess/JsonMsgProcess.cpp:250-285 | Friends, groups and connections of the server go through legal runs of their own, so what is proved of each part holds of the whole |
| `Servers.ConnectionsOf` | server/manager/manager.cpp:316-326 | A session works for a user exactly if the last login on its connection was by that user |
| `Servers.GroupMessageReaches` | server/user/user.cpp:609-626 | A group message goes out on exactly the open connections whose last login was by a member, and only from a connection of a member |
| `Servers.FriendMessageReaches` | server/room/privateRoom/privateRoom.cpp:70-94 | A message to a friend goes out on exactly the connections of the two, and fails exactly if the two are not friends |
| `Servers.FriendshipHistory` | server/jsonMessageProcess/JsonMsgProcessCommand.cpp:52-83 | Behind every friend list entry are a request of one on a connection of theirs and a later acceptance of the other on one of theirs |
| `Servers.MembershipHistory` | server/jsonMessageProcess/JsonMsgProcessCommand.cpp:158-187 | Behind every membership is the request that created the group, or an application and its later acceptance by the administrator, each on a connection of theirs |
| `Servers.WhenThrown` | server/jsonMessageProcess/JsonMsgProcess.cpp:262-285 | A request of a logged-in user ends in an exception in one case only: accepting into a group someone who has not applied |
| `Requests.AddFriendRequest` | server/jsonMessageProcess/JsonMsgProcessCommand.cpp:52-67 | On the connection of a user: the application becomes pending with an entry on each side exactly if it may be made, and the answer says so; nothing else changes |
| `Requests.AcceptFriendRequest` | server/jsonMessageProcess/JsonMsgProcessCommand.cpp:69-83 | A pending application ends, the two are on each other's lists and have one room more; otherwise nothing changes; success in any case if the other exists |
| `Requests.RejectFriendRequest` | server/jsonMessageProcess/JsonMsgProcessCommand.cpp:85-101 | The application is no longer pending, lists and rooms are as before, and the answer is success exactly if it was pending |
| `Requests.RemoveFriendRequest` | server/jsonMessageProcess/JsonMsgProcessCommand.cpp:141-156 | The friend is off the list of the user and nothing else changes; success exactly if it was on it |
| `Requests.FriendMessageRequest` | server/jsonMessageProcess/JsonMsgProcessCommand.cpp:240-262 | A message to a friend changes no table |
| `Requests.AddGroupRequest` | server/jsonMessageProcess/JsonMsgProcessCommand.cpp:158-173 | The application becomes pending exactly if the group lives and the user neither belongs to it nor waits; rooms and lists stay |
| `Requests.AcceptGroupRequest` | server/jsonMessageProcess/JsonMsgProcessCommand.cpp:175-187 | The applicant is a member and has the group listed, and the application is gone, exactly if the administrator asks and it was pending |
| `Requests.RejectGroupRequest` | server/jsonMessageProcess/JsonMsgProcessCommand.cpp:189-201 | The application is gone exactly if the administrator asks and it was pending; rooms and lists stay |
| `Requests.CreateGroupRequest` | server/jsonMessageProcess/JsonMsgProcessCommand.cpp:284-294 | A room under a new id with the creator as administrator and only member, on the list of the creator |
| `Requests.RemoveGroupRequest` | server/jsonMessageProcess/JsonMsgProcessCommand.cpp:296-303 | The room is gone exactly if its administrator asks; lists and applications stay |
| `Requests.LeaveGroupRequest` | server/jsonMessageProcess/JsonMsgProcessCommand.cpp:305-312 | The user is neither member nor recipient any more; success exactly if the room lives and is led by someone else; lists and applications stay |
| `Requests.GroupMessageRequest` | server/jsonMessageProcess/JsonMsgProcessCommand.cpp:264-282 | The message enters the log, at the least free moment, exactly if the user is a member; the answer depends on the list alone |
| `Requests.RegisterRequest` | server/manager/manager.cpp:248-262 | One user more under the next id, with no friends, groups, entries or connections |
| `Requests.ConnectionEvents` | server/jsonMessageProcess/JsonMsgProcess.cpp:298-335 | Connecting, logging in and disconnecting change no relation; a login succeeds exactly for the right password of a user |
| `Requests.RequestOfNobody` | server/jsonMessageProcess/JsonMsgProcess.cpp:250-285 | On a connection without a login no request other than a registration changes anything, reaches anybody or succeeds |
| `Requests.CleanUpEvent` | server/room/groupRoom/groupRoom.cpp:568-582 | A cleaning takes from the log of a live group what is seven days old or older, and nothing else changes |
| `ChatServers.User.AddFriendVerification` | server/user/user.cpp:380-386 | The entry is added unless there is one |
| `ChatServers.User.RemoveFriendVerification` | server/user/user.cpp:395-402 | The entry goes, if there is one |
| `ChatServers.User.AddGroupVerification` | server/user/user.cpp:388-393 | The entry goes to the end of the run of its group |
| `ChatServers.User.RemoveGroupVerification` | server/user/user.cpp:539-556 | The first entry of the user in the run of the group is erased; an empty run throws; a run without a match is run past |
| `ChatServers.User.AddConnection` | server/user/user.cpp:564-574 | The connection is stored with its device, or the error if it is there |
| `ChatServers.User.RemoveConnection` | server/user/user.cpp:597-607 | The connection is taken out, or the error if it is not there |
| `ChatServers.ChatServer.constructor` | server/manager/manager.cpp:80-83 | The empty server, ids from 10000 |
| `ChatServers.ChatServer.ApplyFriend` | server/manager/verificationManager.cpp:97-149 | Tables and records after an application, or the error of the failing check with nothing changed |
| `ChatServers.ChatServer.RemoveFriendVerification` | server/manager/verificationManager.cpp:223-242 | The application and the two entries go; for users who are the same or do not exist, the exception and what has been done before it |
| `ChatServers.ChatServer.AddPrivateRoom` | server/manager/manager.cpp:93-116 | A room under a new id, indexed by the pair; if one of them does not exist, the id is used up and the exception comes |
| `ChatServers.ChatServer.AcceptFriendVerification` | server/manager/verificationManager.cpp:162-196 | Room, both lists and all tables after an acceptance, or the exception and what has been done before it, for users who do not exist too |
| `ChatServers.ChatServer.AddFriend` | server/jsonMessageProcess/JsonMsgProcessCommand.cpp:52-67 | State and answer of the command |
| `ChatServers.ChatServer.AcceptFriend` | server/jsonMessageProcess/JsonMsgProcessCommand.cpp:69-83 | State and answer of the command |
| `ChatServers.ChatServer.RejectFriend` | server/jsonMessageProcess/JsonMsgProcessCommand.cpp:85-101 | State and answer of the command |
| `ChatServers.ChatServer.RemoveFriend` | server/jsonMessageProcess/JsonMsgProcessCommand.cpp:141-156 | State and answer of the command |
| `ChatServers.ChatServer.SendFriendMessage` | server/jsonMessageProcess/JsonMsgProcessCommand.cpp:240-262 | Who is addressed, and the answer |
| `ChatServers.ChatServer.ApplyGroup` | server/manager/verificationManager.cpp:244-289 | Tables and records after an application, or the exception of the failing check and what has been done before it |
| `ChatServers.ChatServer.RemoveGroupVerification` | server/manager/verificationManager.cpp:338-353 | Tables and records after the removal, and how it ended, for an applicant or administrator who does not exist too |
| `ChatServers.ChatServer.AcceptGroupRoom` | server/manager/verificationManager.cpp:299-319 | Room, list and tables after an acceptance, and how it ended, for an applicant who does not exist too |
| `ChatServers.ChatServer.AddGroup` | server/jsonMessageProcess/JsonMsgProcessCommand.cpp:158-173 | State and answer of the command |
| `ChatServers.ChatServer.AcceptGroup` | server/jsonMessageProcess/JsonMsgProcessCommand.cpp:175-187 | State and answer of the command |
| `ChatServers.ChatServer.RejectGroup` | server/jsonMessageProcess/JsonMsgProcessCommand.cpp:189-201 | State and answer of the command |
| `ChatServers.ChatServer.AddGroupRoom` | server/manager/manager.cpp:197-213 | A new room object under a new id; if the creator does not exist, the id is used up and the exception comes |
| `ChatServers.ChatServer.CreateGroup` | server/jsonMessageProcess/JsonMsgProcessCommand.cpp:284-294 | State and answer of the command |
| `ChatServers.ChatServer.RemoveGroup` | server/jsonMessageProcess/JsonMsgProcessCommand.cpp:296-303 | State and answer of the command |
| `ChatServers.ChatServer.LeaveGroup` | server/jsonMessageProcess/JsonMsgProcessCommand.cpp:305-312 | State and answer of the command |
| `ChatServers.ChatServer.SendGroupMessage` | server/jsonMessageProcess/JsonMsgProcessCommand.cpp:264-282 | State, answer and who is addressed |
| `ChatServers.ChatServer.CleanGroupLog` | server/room/groupRoom/groupRoom.cpp:568-582 | The log of one room is cleaned |
| `ChatServers.ChatServer.RegisterConnection` | server/manager/manager.cpp:287-295 | The connection enters the table with no user, or the error |
| `ChatServers.ChatServer.ModifyUserOfConnection` | server/manager/manager.cpp:328-351 | Table and user maps after the change of user, and the error if one came up on the way |
| `ChatServers.ChatServer.RemoveConnection` | server/manager/manager.cpp:353-371 | Table and user maps after the removal, and the error if one came up |
| `ChatServers.ChatServer.LogIn` | server/jsonMessageProcess/JsonMsgProcess.cpp:298-335 | Session, table and maps after a login, and the answer |
| `ChatServers.ChatServer.SendData` | server/room/room.cpp:68-76 | The loop over the users of a room reaches exactly their connections |
| `ChatServers.ChatServer.AddNewUser` | server/manager/manager.cpp:248-262 | A new user object with empty records under a new id |
| `ChatServers.ChatServer.Execute` | server/jsonMessageProcess/JsonMsgProcess.cpp:250-285 | State, answer and reached connections of every command |
| `ChatServers.ChatServer.Handle` | server/jsonMessageProcess/JsonMsgProcess.cpp:189-335 | Whatever arrives: the objects go through the states of the model, keep all its invariants, and answer and deliver as it does |
| `Correlation.Network.SendDataWithOption` | testclient/network.cpp:270-298 | The retry loop takes the first number drawn that no outstanding request has, and files the callback under it |
| `Correlation.Network.CallReceived` | testclient/network.cpp:402-434 | What becomes of a packet, of the set and of the map, also if the callback throws |
| `Correlation.StepKeeps` | server/socketFunctions/socketFunctions.cpp:42-95 | Every step of client, server and connection keeps the ledger in order and every packet tied to its own request |
| `Correlation.CallbacksMatch` | testclient/network.cpp:402-434 | On every run each callback runs at most once, in the order of the requests, on the reply the server gave to its own request; packets without an id never reach one; the end iterator is never erased |
| `Correlation.CallbacksGetAnswers` | server/socketFunctions/socketFunctions.cpp:63-91 | On every run: what the i-th callback gets is the answer of the event that served its own request if that was text, and otherwise the error text for the login state at that moment, under the id of the request |
| `Correlation.RequestsCarry` | testclient/network.cpp:270-298 | Every request with an id on its way to the server carries the kind and the data that its own sending gave it |
| `Correlation.SentOnce` | testclient/network.cpp:270-298 | No two sendings give a request the same number |
| `Correlation.ArrivesInOrder` | server/socketFunctions/socketFunctions.cpp:71-95 | While nothing is lost, what has arrived and what is on its way back are what the server has sent, in order |
| `Correlation.ArrivedIsDelivered` | testclient/network.cpp:402-434 | On every run, of what arrives, the packets without an id go to the general callbacks and all others to callbacks, each in order |
| `Correlation.IdsInFlight` | testclient/network.cpp:282-296 | On every run an id other than 0 is on the way at most once, and then it is outstanding and leads to its own callback |
| `Correlation.LedgerIsRequests` | server/socketFunctions/socketFunctions.cpp:71-95 | On runs that lose nothing, callbacks that have run, replies on the way and requests on the way are together exactly the requests sent, in order |
| `Correlation.OutstandingInFlight` | testclient/network.cpp:282-296 | On such runs every outstanding id other than 0 is on the way |
| `Correlation.Drained` | testclient/network.cpp:402-434 | On such runs, once the channels are empty, every request that went out with an id other than 0 has had its callback exactly once, in order, and no id but 0 is outstanding |
| `Correlation.KeysAre` | testclient/network.cpp:402-434 | On every run the keys of the callback map are the outstanding ids and, apart from those, the ids whose callback has thrown and that have not been drawn again |
| `Correlation.SameKeys` | testclient/network.cpp:411-426 | Set and map agree if and only if no such id is left, as on every run where no callback throws |
| `Correlation.ThrowLeavesKey` | testclient/network.cpp:411-426 | A run after which a callback that threw has left its key behind |
| `Correlation.ZeroStays` | testclient/network.cpp:406 | A request that drew the id 0 stays outstanding for ever |
| `Correlation.ZeroDrawn` | testclient/network.cpp:282-296 | A run on which a request draws the id 0 and is answered, and its callback does not run |
| `Words.SplitLine` | server/input/input.cpp:133-152 | The loop returns the words of the line |
| `Words.SplitJoin` | utils/option.hpp:98-117 | Words joined by single spaces come back |
| `Words.SplitKeepsText` | server/input/input.cpp:133-152 | For every line the words keep all characters but spaces, none holds a space, and only the last can be empty, exactly if the line is empty or ends in a space |
| `Words.Strip` | server/input/input.cpp:115-131 | The result is the line without the spaces at its two ends, and none is left there |
| `Options.OptionParser.Add` | utils/option.hpp:60-66 | The option is declared, unless its type is the unknown one |
| `Options.OptionParser.Remove` | utils/option.hpp:72-77 | The option is no longer declared |
| `Options.OptionParser.Parse` | utils/option.hpp:123-252 | What is stored, and whether an exception was thrown, for every list of arguments |
| `Options.OptionParser.ParseLine` | utils/option.hpp:98-117 | The same through one line of text |
| `Options.ParsedStores` | utils/option.hpp:123-252 | Only declared options are ever stored, nothing stored is lost, options without an argument never get one, and after a success every required option is there |
| `Options.EveryLineReadable` | utils/option.hpp:123-252 | Every list of arguments is a sequence of the eight kinds of items, up to its end or up to one of the four kinds of fault |
| `Options.ItemsParsed` | utils/option.hpp:123-252 | Exactly what the items mean is stored, a value in an argument of its own included; the parse then fails exactly at a fault, such as a required value that is missing, or at the end if a required option is missing |
| `Options.ParsePrinted` | utils/option.hpp:136-159 | Options printed as --name=value in any order are read back exactly; the parse succeeds if and only if the required ones are among them |
| `Options.ParsePrintedLine` | utils/option.hpp:98-117 | The same through one line of text, for names and values without spaces |
| `Options.SpellingsAgree` | utils/option.hpp:159-241 | A plain value can be given to a one-letter option in four ways, which store the same |
| `Options.ClusterIsLetters` | utils/option.hpp:205-214 | Of letters written together exactly those of options without an argument are stored, with an empty value |

## Left out

- DataPackages.StringToPackage: a little-endian machine, as the swap is only compiled in there.
- Sessions.Process: one connection by itself; what other connections do to the tables in the meantime is in `server.dfy`. Of the requests it serves registration and login are carried out; the others change friends and groups, which is in `server.dfy` too.
- RateLimiting.RateLimiter.AllowConnection: tokens are reals; rounding of doubles, and two threads in the unlocked part about the global bucket, are not modelled.
- RateLimiting.RateLimiter.AutoClean: one pass; the order in which the buckets are looked at is an input.
- Heartbeats.HeartbeatMonitor.OnHeartBeat: the two looks at the clock for one heartbeat are one instant.
- GroupRooms.GroupRoom.SendMessage: the two looks at the clock for one message are one instant.
- ChatServers.User.RemoveGroupVerification: `find` is taken to return the first entry of the run, as the multimap of the usual standard libraries does.
- Correlation.Network.CallReceived: frames that do not decode are not passed in; the client drops them.
- The capacity setters of the rate limiter: the capacities stay as constructed.
- Interleavings of threads inside one command, and the locks taken there: commands are one step; the step-by-step view is kept for the spinlock only.
- TLS, sockets, coroutines, thread pools, memory resources and expired weak pointers: only chunks, sends and times are left of them.
- Bytes left in the client's buffer when a connection ends: `correlation.dfy` deals in whole packets.
- A request that makes the service throw instead of answering ends the connection; in `correlation.dfy` this is the event `Lost`.
- Muting, unmuting and kicking, and the table of roles: no command reaches them, and the first two take locks that the methods they call take again.
- User levels in a group: a clamp of one number.
- The message log of a private room: it stores without the bump loop, so a second message at the same moment is not kept.
- The check of logins by kind of command: it masks with 0 and decides nothing for the registered commands, so requests without a login do reach the commands, as in the model.
- Notifications about applications, removals and leaving, read-only commands, and the text of answers: they change no table.
- User data other than relations and connections, password hashing, regular expressions, JSON, SQL, logging, configuration files, the console commands and the client's user interface.
