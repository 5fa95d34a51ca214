# Verified models of the RPC framework and its game server

The repository is a C++20 RPC framework with a game server on top.  This project models the parts of it whose state
and loops are fully its own and proves what they promise:

- **World server** (`World`, `WorldService`, `Effects`, `Replica`, `Poses`, `Ledger`, `SpeedBound`, `Scene`, `Decimal`,
  `Sums`): eight requests change players, resources, buildings and voxel edits and send notifications.  Every client
  copy folded from its notifications agrees with the server, materials are conserved, and movement is bounded, over
  every run.
- **Byte stream** (`ByteOrder`, `Protocol`, `Stream`, `Connection`, `Serializer`): frames and typed values to bytes and
  back, through every splitting of the bytes on the way.
- **Frame synchronisation** (`StringOrder`, `GameState`, `Reconcile`, `FrameDeque`, `InputBuffer`, `FrameSync`,
  `Snapshot`, `Reconnect`): a deterministic step, a bounded input buffer, a bounded history and bounded snapshots; a
  client that comes back with a snapshot reaches the live state.
- **Concurrency** (`ThreadPool`, `DbHandoff`, `RpcClient`, `Replies`): worker pool, hand-off between the database
  thread and the event loop, and the table of pending calls, as interleaved steps.
- **Matching, rooms, timers** (`Pairing`, `MatchQueue`, `Rooms`, `RoomLives`, `RoomManager`, `MatchRooms`, `MatchRuns`,
  `TimerStore`, `TimerManager`): the pairs taken from the sorted queue, the index from players to rooms, both together
  over every run, and a heap of timers whose callbacks schedule and cancel timers.

Classes stand for the classes of the source, and their methods change fields in place.  Each method is proved to take
the abstract value of its object (`View`, `Contents`) to the one a specification function gives; the lemmas are about
those functions, and runs are sequences of requests.  What the functions mean is said apart from them, with the limits
and prices as numbers: when each request is granted and what it changes (`WorldEffects`, `RoomLives`,
`GameStates.TickMoves`, `Pairing.RangeExactly`).  Iteration over hash maps takes elements in any order, and answers of
the kernel are arbitrary, so the contracts hold for every order and every answer.  The concurrent parts are cut into
steps at lock, notification and system-call boundaries; a run is any sequence of steps, which is any interleaving.

Where the code and its documentation differ, or where a property one would expect is false, the model follows the code;
the members named have an input that shows it or say exactly when the property holds:

- A catch-up batch holds up to three frames; the header says two (`FrameSync.ThreeFrames`, `FrameSync.BatchSize`).
- A round of reading that ends with `recv` returning 0 closes before frames completed in that round are popped:
  `Connections.ClosingRoundLoses` loses a whole frame, `Connections.Connection.OnRead` says exactly when one is lost.
- A bad head never leaves the receive buffer (`Stream.BadHeadAbsorbs`).
- `EventLoop::Stop` before `Run` is overwritten (`DbHandoff.StopBeforeRun`); the loop ends exactly when a stop comes
  after the run (`DbHandoff.EndsExactly`).
- `FrameSyncManager` stopped and started again before its timer fires ticks twice per interval, until stopped again
  (`FrameSync.TwoChains`); there is one tick chain exactly with clean starts (`FrameSync.OneChainExactly`).
- `StopGame` can turn a destroyed room into a finished one, which the cleanup keeps (`Rooms.StopRevives`); emptied rooms
  stay destroyed exactly when no `StopGame` names a room already empty (`Rooms.RunEmptyExactly`).
- Notifications are enough for a client that clears its room on its own leave notice; the Godot client of the
  repository does not, and keeps those it left behind (`Replica.LeftBehind`; `Replica.WithoutClearing` says exactly when that
  matters).
- A room that times out is dropped by its id whatever its players do meanwhile, so a player queued again can be in
  another room (`MatchRooms.RequeuedElsewhere`, exactly when by `MatchRooms.TimeoutExactly`), and a matched player who
  is in a room already is not seated (`MatchRooms.MatchedBusy`, `MatchRooms.SeatedExactly`).  Which requests of a run
  lead to a player who is queued and in a room at once is said by `MatchRuns.RunSeparate`.
- Loaded buildings may have ids the counter is yet to give (`Scene.UnfitCounter`, exactly when by
  `Scene.LoadedExactly`).
- A Tick need not end when callbacks schedule timers that are due at once (`TimerStores.EndlessTick`); when nobody
  cancels it ends exactly when chains of such callbacks are bounded (`TimerStores.EndsExactly`).
- A pool without workers leaves tasks unrun (`ThreadPools.NoWorkers`, `ThreadPools.RestDoneExactly`).
- Request ids come round after 2^32 calls, and a promise still pending is then destroyed unset
  (`RpcClients.OverwrittenRun`, exactly when by `RpcClients.DestroyedExactly`).

## Model

| member | source | states |
|---|---|---|
| Replica.ReplicaAgreement | src/game/world_service.cpp:125-446 | over every run from a loaded scene, the copy each online player folds from its notifications has exactly the members of its room by name, that room's voxel edits, and all resources and buildings of the server; records stay under their own ids |
| Replica.StepAgrees | src/game/world_service.cpp:125-446 | every request keeps the agreement of every player that is online after it |
| Replica.SnapshotAgrees | src/game/world_service.cpp:353-397 | the state notification brings any copy that holds nothing foreign to the server into full agreement |
| Replica.WithoutClearing | godot_client/scripts/game/main.gd:95 | a client that removes only the named player on a leave notice has the right members after a room change exactly when it stayed in its room or was alone there |
| Replica.LeftBehind | godot_client/scripts/game/main.gd:95 | two players enter the lobby and one changes rooms: the copy of the mover, folded that way, still holds the other |
| Replica.ByCoordMeaning | src/game/world_service.cpp:411-446 | the server's text keys and the client's coordinates name the same edits |
| Replica.StepWellFormed | src/game/world_service.cpp:125-446 | every request keeps records under their ids, building ids distinct and below the counter, and edits under their keys |
| Poses.LooksOnceTrue | src/game/world_service.cpp:125-499 | in every run from a loaded scene, whatever name, pose and looks a client's copy shows of a player, the server's player had at some moment of the run |
| Poses.AnnouncedShown | src/game/world_service.cpp:483-499 | after an announced move the copies of all others in the room show the mover as it then is, at the target |
| WorldEffects.EnterEffect | src/game/world_service.cpp:125-147 | who enters has the name, pose and inventory given, an allowance of 1 and announcements due; an online player keeps room, map and looks, a new one is in the lobby; it gets the state with its own inventory, its room the notice, nobody else anything |
| WorldEffects.LeaveEffect | src/game/world_service.cpp:149-155 | the player's record goes and nothing else, and exactly its room gets the leave notice |
| WorldEffects.SelectRoomEffect | src/game/world_service.cpp:157-173 | a change to a named room and a map from 0 to 2 puts the player on one of five spots of the spawn line with all else but the move record kept; who is told what and in which order |
| WorldEffects.MoveGrantedExactly | src/game/world_service.cpp:203-223 | a move is granted exactly within 500 on each axis and within min(15, allowance + 15 per second), and each refusal has its exact condition |
| WorldEffects.MoveEffect | src/game/world_service.cpp:203-231 | a granted move puts the player at the target and a refused one leaves it; clock and allowance in both cases; announced, with the pose then, exactly when granted and 50 ms have passed, to the others of the room alone |
| WorldEffects.GatherGrantedExactly | src/game/world_service.cpp:233-257 | granted exactly for a known resource with something left within 4, and each refusal has its exact condition |
| WorldEffects.GatherEffect | src/game/world_service.cpp:258-268 | the resource has one less, the player one wood or stone more by its kind, everyone is told; a refusal changes nothing |
| WorldEffects.SnappedExactly | src/game/world_service.cpp:270-285 | a building goes to the nearest whole coordinates and quarter turn, halves away from zero, and there is one such pose |
| WorldEffects.BuildGrantedExactly | src/game/world_service.cpp:286-307 | granted exactly within 8, with two wood for a floor, three for a wall, three stone for a campfire, and no building nearer than 0.8; each refusal has its exact condition |
| WorldEffects.BuildEffect | src/game/world_service.cpp:298-324 | exactly that price is paid, the building is added under the next id, everyone is told; a refusal changes nothing |
| WorldEffects.CraftGrantedExactly | src/game/world_service.cpp:330-344 | granted exactly for the tool next after the present one with its materials; each refusal has its exact condition |
| WorldEffects.CraftEffect | src/game/world_service.cpp:345-351 | the materials go and the tool level rises by one; nobody is told |
| WorldEffects.EditGrantedExactly | src/game/world_service.cpp:399-425 | granted exactly in reach, for sane values, for a removal where none is stored and a placement where no placement is stored of a material in stock; each refusal has its exact condition |
| WorldEffects.EditEffect | src/game/world_service.cpp:411-446 | which inventory changes by what, which edit is stored where, and that the whole room is told; a refusal changes no edit, record or log |
| Ledger.Conservation | src/game/world_service.cpp:125-446 | over every run the total of each material, held, spent on tools and buildings, left in resources and placed as blocks, moves only by what players bring and take and by minted blocks |
| Ledger.StepLedger | src/game/world_service.cpp:125-446 | one request changes the total of a material exactly by its inflow: nothing for move, gather, build, craft and room change, at most one for a voxel edit |
| Ledger.EditBalance | src/game/world_service.cpp:399-446 | an accepted edit moves one unit between an inventory and the ground, except the first removal at a coordinate, which yields one unit of the block the client names |
| Ledger.MintOnce | src/game/world_service.cpp:411-446 | in one run from any world no two minting removals happen at the same coordinate of the same room |
| Ledger.RunNonNegative | src/game/world_service.cpp:233-446 | inventories that enter non-negative stay non-negative over every run |
| SpeedBound.TravelBudget | src/game/world_service.cpp:203-231 | over a stretch without re-entry, distance travelled plus remaining allowance never exceeds the first allowance plus 15 per second |
| SpeedBound.SpeedLimit | src/game/world_service.cpp:203-231 | between two move requests the accepted distances sum to at most 15 plus 15 per elapsed second |
| SpeedBound.RunAllowed | src/game/world_service.cpp:203-231 | no allowance is negative in any state a run from a loaded scene reaches |
| SpeedBound.RunSpeedLimit | src/game/world_service.cpp:203-231 | the same limit after every run from a loaded scene, nothing supposed of the allowance |
| SpeedBound.StepMoves | src/game/world_service.cpp:203-231 | over a stretch every request moves the player's pose by exactly the distance counted for it |
| SpeedBound.Displacement | src/game/world_service.cpp:203-231 | no stretch takes a player further from where it began than the accepted distances add up to |
| SpeedBound.RunReach | src/game/world_service.cpp:203-231 | from any reachable state nobody is further than 15 plus 15 per elapsed second from where its move request left it |
| SpeedBound.RunInside | src/game/world_service.cpp:203-231 | players who enter inside the cube of half-side 500 are inside it in every reachable state |
| SpeedBound.AnnouncementsSpaced | src/game/world_service.cpp:483-499 | two pose broadcasts of one player are at least 50 ms apart unless it entered or left the world between them; changing rooms does not restart the interval |
| Scene.SceneRoundTrip | src/game/world_service.cpp:43-108 | loading any listing of the exported scene restores resources, buildings, the counter and all non-empty voxel maps |
| Scene.FirstLoaded | src/game/world_service.cpp:43-73 | of several records of one resource id the first is loaded, and no other ids |
| Scene.LastLoaded | src/game/world_service.cpp:43-73 | of several edits of one coordinate of a room the last is loaded, and no others |
| Scene.LoadedRest | src/game/world_service.cpp:43-73 | buildings are those listed, a counter below 1 becomes 1, players are untouched |
| Scene.LoadedExactly | src/game/world_service.cpp:43-73 | a loaded snapshot is a world the run theorems start from exactly when its building ids are distinct and none is one its counter still has to give |
| Scene.UnfitCounter | src/game/world_service.cpp:43-73 | a snapshot with building_1 and counter 0 loads into a world whose counter gives that id again |
| Scene.SeededExactly | src/game/world_service.cpp:29-41 | a seeded world is one the run theorems start from exactly when the voxel edits kept are under their own keys |
| Decimal.VoxelKeyInjective | src/game/world_service.cpp:70 | the text key of a voxel determines its coordinates |
| Decimal.RoomNameInjective | src/game/room_manager.cpp:11-16 | two generated room ids are equal only for the same counter |
| Decimal.BuildingNameInjective | src/game/world_service.cpp:270-324 | two generated building ids are equal only for the same counter |
| WorldServer.WorldService.SeedDefaultScene | src/game/world_service.cpp:29-41 | exactly the four trees of six wood and three rocks of five stone, each under its id at its place, no buildings, counter 1, everything else untouched |
| WorldServer.WorldService.LoadScene | src/game/world_service.cpp:43-73 | takes the world to the specified loaded value: first record of a resource id stays, last edit of a key stays |
| WorldServer.WorldService.ExportScene | src/game/world_service.cpp:75-108 | lists every resource, building and edit of the world and nothing else, for every iteration order |
| WorldServer.WorldService.EnterWithState | src/game/world_service.cpp:125-147 | takes the world, with the notifications of every player, to the specified value |
| WorldServer.WorldService.EnterOnGrid | src/game/world_service.cpp:110-123 | an online player re-enters with its place and belongings, a new one on the spawn grid with the starting inventory |
| WorldServer.WorldService.LeaveWorld | src/game/world_service.cpp:149-155 | the player is gone and exactly its room is told; nothing happens for an unknown player |
| WorldServer.WorldService.ChangeRoom | src/game/world_service.cpp:157-173 | the old room including the mover is told of the leave, the mover gets the new room's state, the new room is told of the arrival; refused exactly for an unknown player, an empty room or a bad map |
| WorldServer.WorldService.TryMove | src/game/world_service.cpp:203-231 | the player stands at the target exactly after success and where it stood otherwise; verdict, refilled and spent allowance and broadcast are the specified ones, and the answer holds the player's pose |
| WorldServer.WorldService.TryGather | src/game/world_service.cpp:233-268 | refused in the source's order of checks, or one unit moves from the resource to the inventory and everyone is told; the answer has the resource's id, kind, place and rest and the player's wood and stone as they are then |
| WorldServer.WorldService.TryPlaceBuilding | src/game/world_service.cpp:270-324 | refused in the source's order of checks, or the building is added under a fresh id, paid for, and everyone is told; the answer has the owner, the kind, the pose snapped to the grid and the materials left after two wood for a floor, three for a wall, three stone for a campfire |
| WorldServer.WorldService.TryCraft | src/game/world_service.cpp:330-351 | refused in the source's order of checks, or materials are taken and the tool level is the recipe |
| WorldServer.WorldService.SendWorldStateTo | src/game/world_service.cpp:353-397 | one notification, to that player alone, with exactly its room's players and edits and all resources and buildings; the room's edit map comes into being |
| WorldServer.WorldService.ApplyVoxelEdit | src/game/world_service.cpp:399-446 | refused in the source's order of checks, or the edit is stored under its key, the inventory exchanged and the room told |
| WorldServer.WorldService.SendToRoom | src/game/world_service.cpp:448-499 | a room broadcast reaches each player of the room but the excepted one exactly once, for every iteration order |
| WorldServer.WorldService.SendToAll | src/game/world_service.cpp:501-526 | a global broadcast reaches each online player exactly once |
| ByteOrder.Field16 | include/rpc/common.h:78-87 | a written 16-bit field is the big-endian text of its value, and reading gives the value a text spells |
| ByteOrder.Field32 | include/rpc/common.h:27-39 | the same for 32 bits |
| ByteOrder.Field64 | include/rpc/common.h:44-57 | the same for 64 bits |
| ByteOrder.RoundTrip16 | include/rpc/common.h:78-87 | reading undoes writing and writing undoes reading |
| ByteOrder.RoundTrip32 | include/rpc/common.h:27-39 | reading undoes writing and writing undoes reading |
| ByteOrder.RoundTrip64 | include/rpc/common.h:44-57 | reading undoes writing and writing undoes reading |
| Protocol.Encode | src/protocol.cpp:8-49 | appends, field by field, the specified bytes of the frame |
| Protocol.Decode | src/protocol.cpp:51-112 | gives the frame whose encoding the bytes are if there is an encodable one, and nothing otherwise |
| Protocol.EncodedInjective | src/protocol.cpp:8-49 | encodable frames with equal bytes are equal |
| Protocol.FrameBytes | src/protocol.cpp:8-49 | the bytes of a frame at their places: 0xBABE, big-endian length and id, type 1 to 3, name length, name, body |
| Protocol.RoundTripExact | src/protocol.cpp:8-112 | decoding an encoded frame gives it back exactly when its name is shorter than 65536 bytes and its size at most 10 MiB |
| Connections.Buffer.TryPopFrame | src/buffer.cpp:12-46 | takes the first whole frame off the front, or leaves the buffer as it is |
| Stream.CutAppend | src/buffer.cpp:8-46 | cutting what is left after one arrival together with the next arrival gives the same pieces as cutting everything at once |
| Stream.BadHeadAbsorbs | src/buffer.cpp:17-33 | after a bad magic or an impossible length nothing is popped again, whatever arrives |
| Stream.WhyRest | src/buffer.cpp:12-46 | what is left unpopped is an incomplete frame or a bad head |
| Stream.SkipUndecodable | src/connection.cpp:51-63 | well-delimited pieces are popped one by one and those that decode to nothing cost none of the others |
| Stream.EndToEnd | src/connection.cpp:25-124 | for every prefix of the wire read, the frames delivered are a prefix of those sent, and all of them once every byte has been read |
| Connections.TwoEnds | src/connection.cpp:25-124 | a receiver that has read a prefix of what the sender's kernel took has called back a prefix of the frames sent, and all of them if it is open and has read every byte |
| Connections.Connection.Send | src/connection.cpp:80-101 | for every answer of the kernel, bytes on the wire followed by bytes unsent are all bytes queued, in order |
| Connections.Connection.OnWrite | src/connection.cpp:103-124 | for every schedule of partial sends the wire only grows by queued bytes, and when write interest is dropped everything queued is on the wire |
| Connections.Connection.OnRead | src/connection.cpp:25-64 | for every sequence of answers the bytes received are those of the round, and every whole frame received so far has been called back exactly if the round does not close or no frame became whole in it |
| Connections.ClosingRoundLoses | src/connection.cpp:25-64 | any frame that arrives whole in a round that also brings the end of the stream is received and never called back |
| Connections.Connection.Drain | src/connection.cpp:51-63 | delivers every whole frame in the buffer in order and leaves the rest; it ends because each pop shortens the buffer |
| Serializing.ReadWritten | src/serializer.cpp:43-240 | a written value is read back from wherever it stands with the cursor right behind it |
| Serializing.ReadExactly | src/serializer.cpp:96-240 | a reader accepts exactly the text of a value of its type, and for bool also the other non-zero payload bytes, all read as true |
| Serializing.ListRoundTrip | src/serializer.cpp:43-240 | every list of typed values is recovered in order with all bytes consumed |
| Serializing.TextInjective | src/serializer.cpp:43-87 | lists of values with equal texts are equal, whatever their types and lengths |
| Serializing.TlvBytes | src/serializer.cpp:43-87 | a written value is its type byte 1 to 6, the big-endian length of the payload, and the payload |
| Serializing.PayloadBytes | src/serializer.cpp:43-87 | payloads are big-endian, integers in two's complement, a bool 0 or 1 |
| Serializing.TextAppend | src/serializer.cpp:43-87 | writing one more value extends the text of the values written by that value's bytes |
| Serializing.ReadMany | src/serializer.cpp:96-240 | on arbitrary bytes a series of reads never moves the cursor back or past the end |
| Serializing.Serializer.WriteInt32 | src/serializer.cpp:43-48 | appends the bytes of the value |
| Serializing.Serializer.WriteInt64 | src/serializer.cpp:50-55 | appends the bytes of the value |
| Serializing.Serializer.WriteFloat | src/serializer.cpp:57-65 | appends the bytes of the value's bits |
| Serializing.Serializer.WriteDouble | src/serializer.cpp:67-74 | appends the bytes of the value's bits |
| Serializing.Serializer.WriteString | src/serializer.cpp:76-80 | appends the bytes of the value, the length cut to 32 bits |
| Serializing.Serializer.WriteBool | src/serializer.cpp:82-87 | appends the bytes of the value |
| Serializing.Serializer.ReadInt32 | src/serializer.cpp:96-122 | value and cursor are the specified ones, the cursor staying where a failed read gave up |
| Serializing.Serializer.ReadInt64 | src/serializer.cpp:124-145 | value and cursor are the specified ones |
| Serializing.Serializer.ReadFloat | src/serializer.cpp:147-171 | value and cursor are the specified ones |
| Serializing.Serializer.ReadDouble | src/serializer.cpp:173-197 | value and cursor are the specified ones |
| Serializing.Serializer.ReadString | src/serializer.cpp:199-218 | value and cursor are the specified ones |
| Serializing.Serializer.ReadBool | src/serializer.cpp:220-240 | value and cursor are the specified ones |
| GameStates.TickLogic | src/game/game_state.cpp:43-70 | for distinct players the result is the one ordered list of everyone known or heard from, for every iteration order, each where GameStates.TickMoves says |
| GameStates.TickMoves | src/game/game_state.cpp:7-70 | after a tick exactly the players known or heard from are there, each moved by the first byte of its input: 1 to y-1, 2 to y+1, 3 to x-1, 4 to x+1, anything else nowhere; newcomers from (0, 0) |
| GameStates.ReplayWhere | src/game/game_state.cpp:7-70 | after any frames from an empty state exactly those heard of are there, each at its rights less its lefts and its downs less its ups |
| GameStates.OrderIndependent | src/game/game_state.cpp:43-70 | states that list the same distinct players in any order step to the same state |
| GameStates.OrderedUnique | src/game/game_state.cpp:55-57 | a map of positions has one strictly ordered list |
| StringOrder.LessMeans | src/game/game_state.cpp:55-57 | the order of the list is by first differing character, a proper prefix first |
| GameStates.OneStep | src/game/game_state.cpp:16-70 | nobody vanishes, and a tick moves each player by Manhattan distance at most one |
| GameStates.ReplayReach | src/game/game_state.cpp:43-70 | after n ticks from an empty state everyone is within n steps of the origin |
| GameStates.ApplyMove | src/game/game_state.cpp:16-33 | the position moves by the step in the direction given, which GameStates.TickMoves ties to coordinates |
| GameStates.EnsurePlayerExists | src/game/game_state.cpp:35-41 | the list is unchanged if it has the player, else the player is appended at the origin |
| Reconciliation.NoOvershoot | src/game/game_state.cpp:121-125 | a pull ends between client and server, so the error never grows |
| Reconciliation.PullExactly | src/game/game_state.cpp:121-125 | a pull gives the whole part, towards zero, of the point alpha of the way to the target |
| Reconciliation.ReconciledExactly | src/game/game_state.cpp:113-130 | where each player is after one reconciliation, on either axis |
| Reconciliation.Stuck | src/game/game_state.cpp:121-125 | a pull changes nothing exactly at the target, or within 1/alpha of it on the side nearer zero |
| Reconciliation.Shrinks | src/game/game_state.cpp:121-125 | while the error times alpha is at least one, a pull shrinks the error |
| Reconciliation.Settles | src/game/game_state.cpp:121-125 | after as many pulls as the first error, nothing moves and the error is below 1/alpha |
| Reconciliation.Reaches | src/game/game_state.cpp:121-125 | repeated pulls reach the target exactly when alpha is one or the client starts at the target or beyond it from zero |
| Reconciliation.PullAllMap | src/game/game_state.cpp:113-130 | one reconciliation pulls each shared player once, adds the server's unknown players and leaves the client's others alone |
| Reconciliation.ReconcileState | src/game/game_state.cpp:113-130 | the loop computes the specified pull of every player and takes over the frame number |
| Reconciliation.CompareStates | src/game/game_state.cpp:88-111 | lists the specified corrections in the server's order |
| Reconciliation.CorrectionsExactly | src/game/game_state.cpp:88-111 | one correction for each server player the prediction has wrong, in the server's order, with both places and the way from the client's to the server's |
| Reconciliation.NothingToCorrect | src/game/game_state.cpp:88-111 | there are no corrections exactly when the prediction has every server player where the server does |
| FrameDeques.LowerBound | src/game/input_buffer.cpp:14-22 | finds the first record not before the frame in a sorted deque |
| FrameDeques.Kept | src/game/input_buffer.cpp:41-44 | evicting the oldest keeps exactly the frames with fewer than the limit of later ones |
| FrameDeques.PopExcess | src/game/input_buffer.cpp:41-44 | the eviction loop refines dropping the least keys of the map |
| InputBuffers.InputBuffer.AddInput | src/game/input_buffer.cpp:24-45 | the sorted deque refines a map: the player's input of the frame is set, then the largest frame numbers are kept |
| InputBuffers.InputBuffer.GetInput | src/game/input_buffer.cpp:47-56 | returns the inputs of the frame, none if absent, and removes the frame and nothing else |
| InputBuffers.InputBuffer.ClearUpTo | src/game/input_buffer.cpp:58-63 | keeps exactly the frames from the given one on |
| InputBuffers.InputBuffer.Clear | src/game/input_buffer.cpp:65-67 | no inputs are left |
| FrameSync.SparesComing | src/game/input_buffer.cpp:41-44 | an eviction spares every frame to come exactly when no more of them wait than the buffer holds |
| FrameSync.Delivery | src/game/frame_sync.cpp:44-72 | while frames to come fit, each frame is given for each player the last value written for it before its tick, whatever follows |
| FrameSync.NeverLate | src/game/frame_sync.cpp:44-72 | even with evictions a frame is given nothing but values written for it before its tick |
| FrameSync.BatchComplete | src/game/frame_sync.cpp:77-100 | a batch is the whole of the next three frames exactly when the client is no older than the history |
| FrameSync.BatchSize | src/game/frame_sync.cpp:86-89 | a batch has at most three frames, and three exactly when three are there |
| FrameSync.ThreeFrames | include/game/frame_sync.h:86-88 | a batch of three exists |
| FrameSync.OneChain | src/game/frame_sync.cpp:21-40 | if every effective start finds no leftover callback, there is one tick chain while running |
| FrameSync.OneChainExactly | src/game/frame_sync.cpp:21-40 | there is one tick chain at every moment the clock runs exactly when every effective start finds no leftover callback |
| FrameSync.ChainsPersist | src/game/frame_sync.cpp:21-40 | while nobody stops a running clock its chains neither end nor multiply, whatever fires and starts |
| FrameSync.TwoChains | src/game/frame_sync.cpp:21-40 | start, stop, start leaves two tick chains, and two they stay in every run without another stop |
| FrameSync.FrameSyncManager.Tick | src/game/frame_sync.cpp:51-73 | the next frame takes its inputs out of the buffer, the history stays the last frames of the log, and the callback is made exactly for non-empty inputs |
| FrameSync.FrameSyncManager.GetCatchUpFrames | src/game/frame_sync.cpp:77-100 | returns, of the next three frames, those in the history, in order |
| FrameSync.FrameSyncManager.OnPlayerInput | src/game/frame_sync.cpp:44-47 | the input is written to the buffer |
| FrameSync.FrameSyncManager.StartSync | src/game/frame_sync.cpp:31-36 | a start schedules one callback unless running |
| FrameSync.FrameSyncManager.StopSync | src/game/frame_sync.cpp:38-40 | a stop leaves the scheduled callback |
| FrameSync.FrameSyncManager.OnTimer | src/game/frame_sync.cpp:21-29 | a callback ticks and schedules itself again while running, and ends otherwise |
| Snapshots.SnapshotManager.SaveSnapshot | src/game/snapshot_manager.cpp:26-46 | the sorted deque refines a map: the state is stored under the frame, then the largest frame numbers are kept |
| Snapshots.SnapshotManager.GetSnapshot | src/game/snapshot_manager.cpp:14-54 | finds the state stored under the frame, or nothing |
| Snapshots.SnapshotManager.RestoreFromSnapshot | src/game/snapshot_manager.cpp:58-77 | the stored state, or an empty state of frame 0 |
| Reconnect.RunSound | include/game/snapshot_manager.h:22 | in every run the live state is the replay of the whole log and the snapshots are exactly the states of the last frames |
| Reconnect.Rejoin | src/game/frame_sync.cpp:77-100 | from a retained snapshot the client reaches the live state in ceil((n-k)/3) rounds and not earlier if no missing frame has left the history, and never otherwise |
| Reconnect.EverySnapshotRejoins | src/game/snapshot_manager.cpp:26-46 | every retained snapshot leads back exactly when the store is at most one larger than the history, or no more frames have passed than that |
| ThreadPools.RunSafe | src/thread_pool.cpp:21-78 | over every interleaving tasks are taken in the order accepted, each taken task has run or is in flight once, and no wakeup is lost |
| ThreadPools.NoLostWakeup | src/thread_pool.cpp:21-66 | with a worker, a queued task always has a worker awake or a notification on its way |
| ThreadPools.AcceptedExactly | src/thread_pool.cpp:21-38 | over every interleaving the tasks accepted are exactly those enqueued before the first shutdown, in order |
| ThreadPools.InternalRunsEnd | src/thread_pool.cpp:49-78 | without new calls the pool makes only as many steps as there was to do |
| ThreadPools.RestMeansDone | src/thread_pool.cpp:21-78 | a pool at rest has run every accepted task exactly once, and after a shutdown all its workers are gone |
| ThreadPools.ExitedMeansDone | src/thread_pool.cpp:31-61 | once all workers have exited, every accepted task has run |
| ThreadPools.NoWorkers | src/thread_pool.cpp:7-13 | without a worker a shutdown can leave an accepted task unrun |
| ThreadPools.RestDoneExactly | src/thread_pool.cpp:7-78 | a pool at rest has run all it accepted exactly when it has a worker or accepted nothing |
| ThreadPools.ThreadPool.EnqueueSection | src/thread_pool.cpp:21-29 | the critical section is the specified step |
| ThreadPools.ThreadPool.ShutdownSection | src/thread_pool.cpp:31-38 | the critical section is the specified step |
| ThreadPools.ThreadPool.LoopSection | src/thread_pool.cpp:53-66 | the critical section is the specified step, and the worker sleeps, leaves or takes the first task accordingly |
| DbHandoff.RunSafe | src/game/db_worker.cpp:36-65 | over every interleaving of the database thread, the loop and other callers, order is kept on both ways and a waiting callback has the eventfd signalled, a writer on its way, or the loop about to swap |
| DbHandoff.RestMeansDelivered | src/event_loop.cpp:53-103 | when both threads rest and the loop runs, every callback posted has run once in order, and those of every accepted database task are among them in order if the thread exists or was stopped and joined; tasks are left over exactly if it was never started |
| DbHandoff.InternalRunsEnd | src/event_loop.cpp:44-70 | without new calls both threads make only as many steps as there was to do |
| DbHandoff.ExitedMeansDrained | src/game/db_worker.cpp:22-65 | a stopped thread that has exited, joined or not, left no accepted task behind |
| DbHandoff.PostExactly | src/game/db_worker.cpp:14-45 | a posted task is accepted exactly unless stopped, and only a stop of a thread that is there stops |
| DbHandoff.AcceptedExactly | src/game/db_worker.cpp:36-45 | over every interleaving without a stop all posted tasks are accepted in order, and always all callbacks of other threads are |
| DbHandoff.EndsExactly | src/event_loop.cpp:38-95 | at rest after the run began, the loop has ended exactly when some stop came after the run, and polls otherwise; a stop issued while the loop runs is never lost |
| DbHandoff.StopBeforeRun | src/event_loop.cpp:38-95 | however many stops and other steps come before the run, the loop is running right after it starts |
| DbHandoff.Handoff.PostSection | src/game/db_worker.cpp:36-45 | the critical section is the specified step |
| DbHandoff.Handoff.StopSection | src/game/db_worker.cpp:24-34 | the critical section is the specified step |
| DbHandoff.Handoff.WorkerSection | src/game/db_worker.cpp:51-65 | the critical section is the specified step, and the thread sleeps, leaves or takes the first task accordingly |
| DbHandoff.Handoff.RunInLoopSection | src/event_loop.cpp:97-103 | the critical section is the specified step |
| DbHandoff.Handoff.SwapSection | src/event_loop.cpp:61-65 | the critical section is the specified step and takes all pending callbacks |
| DbHandoff.Handoff.RunStart | src/event_loop.cpp:38-39 | running is set whatever it was |
| DbHandoff.Handoff.LoopStopSection | src/event_loop.cpp:91-95 | running is cleared and a write to the eventfd is due |
| RpcClients.RunRouted | src/rpc_client.cpp:62-128 | with fewer than 2^32 calls the unresolved futures are exactly the pending calls, no promise is set twice, none is destroyed unset |
| RpcClients.RunRoutes | src/rpc_client.cpp:62-128 | what a call returns is the answer to its own id given while it was pending, or empty for its own failed send |
| RpcClients.StepRoutes | src/rpc_client.cpp:62-128 | a step resolves a call only with that call's own answer, and resolved values never change |
| RpcClients.ResolvedExactly | src/rpc_client.cpp:62-125 | a pending call is resolved exactly by a frame with its id or its own failed send, with the body, or empty for an error or a failed send |
| RpcClients.PushIgnored | src/rpc_client.cpp:74-78 | a pushed frame with id 0 changes nothing |
| RpcClients.Overwritten | src/rpc_client.cpp:89-102 | a promise pending while its id comes round again is destroyed unset |
| RpcClients.DestroyedExactly | src/rpc_client.cpp:89-102 | storing a promise destroys another exactly when that one is pending and a multiple of 2^32 calls away |
| RpcClients.OverwrittenRun | src/rpc_client.cpp:89-102 | a run of 2^32 calls after an unanswered one in which its promise is destroyed unset |
| RpcClients.RunKeyed | src/rpc_client.cpp:89-128 | in runs of any length promises are stored under the ids of their calls |
| RpcClients.RpcClient.AllocateId | src/rpc_client.cpp:92 | the id is the call's number cut to 32 bits |
| RpcClients.RpcClient.StoreSection | src/rpc_client.cpp:99-102 | the critical section is the specified step |
| RpcClients.RpcClient.SentSection | src/rpc_client.cpp:115-125 | a failed send sets the promise pending under the id to empty and removes it, a successful one changes nothing but the caller's stage |
| RpcClients.RpcClient.OnResponse | src/rpc_client.cpp:62-80 | the promise pending under the id is set, to the body or to empty for an error, and removed; without one nothing changes |
| Replies.Answer | src/game/game_service.cpp:470-480 | the reply frame carries the request's id and method, with the result or as an error without a body |
| Replies.ReplyReachesCaller | src/game/game_service.cpp:470-480 | the reply decodes to itself and resolves the calling future with the server's result and no other future |
| Pairing.ScanMostNeighbours | src/game/match_queue.cpp:146-164 | no choice of disjoint compatible neighbours has more pairs than the scan takes |
| Pairing.ScanMostPairs | src/game/match_queue.cpp:146-164 | with equal ranges no pairing of any compatible players has more pairs than the scan takes |
| Pairing.UnequalRanges | src/game/match_queue.cpp:34-44 | with unequal ranges a pairing of non-neighbours can have more |
| Pairing.CompatibleStays | src/game/match_queue.cpp:34-44 | ranges widen with the wait, so a pair once compatible stays compatible |
| Pairing.RangeExactly | src/game/match_queue.cpp:34-44 | a difference is in range exactly when what exceeds the first range is at most the rate times the seconds waited, counted to the longest wait |
| Pairing.CompatibleExactly | src/game/match_queue.cpp:34-44 | two players can be paired exactly when each accepts the difference for as long as it has waited |
| Pairing.QueuedTogether | src/game/match_queue.cpp:34-44 | for two queued at once, the moment from which they can be paired, and that past the longest wait it is then or never |
| Pairing.RangeWidens | src/game/match_queue.cpp:34-44 | a range never shrinks and never passes its value at the longest wait that counts; how fast it widens is said by Pairing.RangeExactly |
| Pairing.ScanTakes | src/game/match_queue.cpp:146-164 | the pairs taken are disjoint neighbours each within both ranges |
| MatchQueues.MatchQueue.EnterQueue | src/game/match_queue.cpp:48-70 | a new entry stands before the first whose score is not less, the others unmoved; a player queued already has the new score and keeps its waiting time, and the queue is sorted again with unique ids |
| MatchQueues.MatchQueue.CancelMatch | src/game/match_queue.cpp:72-77 | exactly the player's entry leaves, in order |
| MatchQueues.MatchQueue.FindMatch | src/game/match_queue.cpp:79-124 | finds an opponent exactly when one is within the player's range, then the first of the nearest, reports both scores and takes both out, the rest keeping its order |
| MatchQueues.MatchQueue.TryMatch | src/game/match_queue.cpp:137-193 | the pairs are those of the scan, each reported with its own scores, and exactly they leave the queue, the rest keeping its order |
| Rooms.RunIndexed | src/game/room_manager.cpp:50-183 | in every reachable state, with rooms opened, joined, started, stopped, timed out and matched, a player is indexed to a room exactly when it is in that room's list, lists have no duplicates and at most max(1, max_players) entries, and ids were issued by the counter |
| Rooms.CreatedIndexed | src/game/room_manager.cpp:50-80 | a new room's id is in no use |
| Rooms.StepEmptyExactly | src/game/game_room.cpp:36-50 | where emptied rooms are destroyed, a request leaves them so exactly when it is not a StopGame on an empty room |
| Rooms.RunEmptyExactly | src/game/room_service.cpp:383 | emptied rooms are destroyed at every moment of a run exactly when no StopGame of the run names a room that is empty by then |
| Rooms.RunEmptyGone | src/game/game_room.cpp:36-50 | in every reachable state an emptied room is destroyed or finished |
| Rooms.EmptiedForGood | src/game/room_manager.cpp:50-183 | nobody enters an emptied room again, and its id is not issued again |
| Rooms.TimeoutSweeps | src/game/room_manager.cpp:162-183 | the timeout check leaves no destroyed room and removes exactly the destroyed ones and those past their deadline that are not playing |
| RoomLives.NobodyLate | src/game/game_room.cpp:18-20 | in any run, once a room's game is under way or over, nobody is ever in it who was not in it then |
| RoomLives.ComesInExactly | src/game/room_manager.cpp:82-103 | in any run a join gets somebody in exactly when the room is idle or waiting, has a seat, and they are in no room |
| RoomLives.StepLives | src/game/room_manager.cpp:50-183 | what one request can make of a room that stays: owner and size never change, players only come by a granted join and go by a leave, states go idle, waiting, playing, and finished or destroyed only by a stop or the last leave |
| RoomLives.AddGrantedExactly | src/game/game_room.cpp:16-34 | each answer of a room to a newcomer has its exact condition |
| RoomLives.JoinGrantedExactly | src/game/room_manager.cpp:82-103 | each answer to a join has its exact condition |
| RoomLives.JoinEffect | src/game/room_manager.cpp:82-103 | the newcomer stands last and is indexed, nothing else changes; a refused join changes nothing |
| RoomLives.LeaveEffect | src/game/room_manager.cpp:105-120 | one player goes, the others keep their order, the last one's leave destroys the room; answers with their conditions |
| RoomLives.StartEffect | src/game/room_manager.cpp:122-140 | a game starts exactly for the owner of a waiting room; answers with their conditions |
| RoomLives.CreateEffect | src/game/room_manager.cpp:50-80 | the new room as it is, under an unused id, exactly for a player in no room |
| RoomLives.MatchEffect | src/game/game_service.cpp:558-572 | a match opens a waiting room for two with a timeout of five minutes, the second player in it exactly if in no room; nothing if the first is in one |
| RoomLives.RemoveEffect | src/game/room_manager.cpp:154-160 | exactly that room and the index entries into it are gone |
| RoomLives.CleanupEffect | src/game/room_manager.cpp:162-174 | exactly the destroyed rooms and the index entries into them are gone |
| RoomLives.CheckTimeoutEffect | src/game/room_manager.cpp:176-183 | exactly the destroyed and overdue rooms and the entries into them are gone; a game under way loses its timer |
| RoomLives.SetEffects | src/game/room_service.cpp:359-392 | a stop makes a known room finished whatever it was, and opening makes an idle one wait |
| Rooms.StopRevives | src/game/room_service.cpp:383 | a destroyed room marked finished is kept by the cleanup |
| RoomManagers.GameRoom.AddPlayer | src/game/game_room.cpp:16-34 | the player is appended exactly if the room is idle or waiting, has a seat and does not have the player; verdict in the source's order of checks |
| RoomManagers.GameRoom.RemovePlayer | src/game/game_room.cpp:36-50 | the player is removed if there, and an emptied room is destroyed |
| RoomManagers.GameRoom.DriveTimer | src/game/room_manager.cpp:69-74 | a due timeout destroys the room unless it is playing, once |
| RoomManagers.RoomManager.CreateRoom | src/game/room_manager.cpp:50-80 | refused for a player in a room, else a fresh room with the owner in it, indexed, with its timeout |
| RoomManagers.RoomManager.JoinRoom | src/game/room_manager.cpp:82-103 | OK only for a room that is idle or waiting; verdict and new value are the specified ones, whose conditions RoomLives.JoinGrantedExactly gives, other rooms untouched |
| RoomManagers.RoomManager.LeaveRoom | src/game/room_manager.cpp:105-120 | verdict and new value are the specified ones, other rooms untouched |
| RoomManagers.RoomManager.StartGame | src/game/room_manager.cpp:122-140 | only the owner of a waiting room starts it |
| RoomManagers.RoomManager.RemoveRoom | src/game/room_manager.cpp:154-160 | the room and the index entries of its players are gone |
| RoomManagers.RoomManager.CleanupDestroyed | src/game/room_manager.cpp:162-174 | exactly the destroyed rooms and their players' entries are gone, for every iteration order, and they are counted |
| RoomManagers.RoomManager.CheckRoomTimeout | src/game/room_manager.cpp:176-183 | every room's timer is driven once, then the destroyed rooms go |
| RoomManagers.RoomService.CreateRoom | src/game/room_service.cpp:18-40 | refused for a player in a room, else a fresh room for the given number or four, waiting for players |
| RoomManagers.RoomService.StopGame | src/game/room_service.cpp:359-392 | a known room is marked finished whatever it was, an unknown one refused |
| MatchRooms.Partition | src/game/game_service.cpp:558-572 | if nobody queued is in a room, after one batch match everyone is either still queued and in no room, or out of the queue in a fresh waiting room with the partner alone; the index is exact and nobody else moves |
| MatchRooms.SeatedExactly | src/game/game_service.cpp:558-572 | a pair is seated in the next room exactly when both are in no room and distinct |
| MatchRooms.MatchedBusy | src/game/game_service.cpp:563-572 | if only the second player is elsewhere, the first waits in the new room alone |
| MatchRooms.TimeoutExactly | src/game/game_service.cpp:591-599 | after the timeout a player queued again is in no room exactly when it is not in another one |
| MatchRooms.TimeoutEffect | src/game/game_service.cpp:591-599 | the timeout takes exactly the pair's room and the entries into it, and nothing if the game is under way or the room gone |
| MatchRooms.RequeuedElsewhere | src/game/game_service.cpp:591-599 | a matched player who leaves and opens another room is still in it when the timeout queues it again |
| MatchRooms.GameService.OnMatchFound | src/game/game_service.cpp:558-602 | the rooms become the specified value and the 30 second timer is set exactly when the first player was free |
| MatchRooms.GameService.OnMatchTimeout | src/game/game_service.cpp:591-599 | a room that is not playing is dropped and both are entered again with the scores they were matched at, waiting from now or since they were queued, all other entries kept; otherwise nothing changes |
| MatchRooms.GameService.EnterMatch | src/game/game_service.cpp:85-98 | the player is entered at its place, the queue matched, every pair called back in order, and a 30 second timer added for each pair whose first player was free by then |
| MatchRuns.RunSeparate | src/game/game_service.cpp:85-98 | over every run of queueing, cancelling, batch matches, timeouts and room requests nobody is ever queued and in a room at once, exactly when no request queues a player who is in a room it does not leave or seats one who is queued |
| MatchRuns.NextSeparate | src/game/game_service.cpp:558-602 | one request keeps that exactly when it does not collide; a batch match never does |
| MatchRuns.NextGood | src/game/game_service.cpp:558-602 | every request keeps the queue sorted with unique ids and the room index exact |
| Timers.PushHeap | src/game/timer_manager.cpp:14-15 | a heap again, with the same timers |
| Timers.PopHeap | src/game/timer_manager.cpp:35-36 | a heap again, with the first timer gone |
| Timers.RootLeast | src/game/timer_manager.cpp:47 | no timer of a heap is due before the first |
| Timers.TimerManager.Schedule | src/game/timer_manager.cpp:7-18 | one timer more, under a fresh id, in a heap |
| Timers.TimerManager.Cancel | src/game/timer_manager.cpp:20-30 | exactly the timer with the id is marked, in place |
| Timers.TimerManager.CleanCancelled | src/game/timer_manager.cpp:32-38 | only cancelled timers go, and the first one left is not cancelled |
| Timers.TimerManager.RunCallback | src/game/timer_manager.cpp:7-30 | what a callback schedules and cancels, in its order, is done to the timers there are |
| Timers.TimerManager.Tick | src/game/timer_manager.cpp:40-60 | unless callbacks schedule due timers without end: each timer fired is, in its turn, due, live and the earliest of those waiting by then, scheduled by callbacks or not; nothing due is left waiting; the heap then holds exactly what is not due of all that callbacks leave, but for cancelled ones dropped. If callbacks schedule for later only, those fired are the due live timers there were, each but those cancelled by one due no later |
| TimerStores.EndsExactly | src/game/timer_manager.cpp:47-57 | when nobody cancels, the firings of a Tick have a bounded length exactly when the chains of due-at-once scheduling of all callbacks due have a common bound |
| TimerStores.SettledEnds | src/game/timer_manager.cpp:47-57 | with bounded chains a Tick ends whatever is cancelled |
| TimerStores.RankedEnds | src/game/timer_manager.cpp:47-57 | a Tick ends if what a callback schedules for now always has a smaller rank, as when such a one schedules for later only |
| TimerStores.ForwardAll | src/game/timer_manager.cpp:40-60 | if callbacks schedule for later only, a due live timer is passed over only if one fired, due no later, cancelled it |
| TimerStores.FiringClean | src/game/timer_manager.cpp:32-43 | dropping cancelled timers first changes neither what may fire nor when firing is complete |
| TimerStores.EndlessTick | src/game/timer_manager.cpp:47-57 | with a due callback that schedules itself again with delay zero, firings of every length exist |

## Left out

- Sockets, errors of `epoll_wait`, epoll registration, file descriptors, acceptor: system calls; only arbitrary byte counts, `recv` answers and the eventfd counter are kept.
- MongoDB stores, password hashing, account and player stores: loaded states are arbitrary well-formed values.
- Protobuf parsing and the request handlers around it: requests and notifications are datatypes, and the text of a notification is not modelled.
- `match_service.cpp`, `broadcast.cpp`, `dispatch.cpp`, `session_manager.cpp`, Elo computation, metrics, benchmarks: duplicates, single lookups or placeholders that would add only easy members.
- Floating point: coordinates, scores and factors are exact reals, and the distance of a move is a number whose square is the sum of squares; rounding and NaN are not modelled.
- Width of integers: frame numbers, coordinates, inventories, timer and building counters are unbounded; request ids wrap (`RpcClients.IdOf`), and length fields of frames and values are cut.
- Clocks: the time of each call is a parameter, read once per request; the several readings inside one batch match are one instant.
- Inventories across logout and login: they depend on asynchronous saves, so an entering player brings an arbitrary inventory.
- Re-entrant calls from the frame callback, from match callbacks into the queue, and of Tick inside a timer callback.
- Partial sends of a request by `RpcClient::Call`: a send that returns a positive count is taken as sent, as the source does; futures pending at a disconnect stay pending.
- Two threads calling `DbWorker::Stop` at once, and a second `EventLoop::Run` after the first has returned.
- The frame timer inside a room's timer manager: a room keeps only its timeout timer.
- std::sort, std::lower_bound, std::push_heap and std::pop_heap are implemented here, and only the contract the standard gives them is used.
- TryPopFrame: the bytes are a sequence, so the cost of erasing from the front and the capacity of the vector are not modelled.
- GameStates.TickLogic: says nothing about lists with duplicate ids, for which std::sort leaves the order open; the code itself never builds one.
- Timers.TimerManager.Tick: a Tick whose callbacks schedule due timers without end, and so never returns, is outside its contract; `TimerStores.EndsExactly` and `TimerStores.SettledEnds` say when that cannot happen.
- Reconnect.Rejoin: the client's loop is the one the snapshot header describes; the repository has no code for it.
