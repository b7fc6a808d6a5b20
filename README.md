# Room graph generator and explorer — a Dafny model

The system has two programs that share one text format.

- `mccabmic.buildrooms.c` builds a graph of seven rooms. It shuffles the
  indices 0..6 (Fisher–Yates) to pick names from a pool of ten, so only the
  first seven pool names are ever used. Room 0 is START, room 6 is END and the
  rest are MID. It then adds random undirected connections until exactly six
  rooms have a degree in [3, 6), and writes each room as a line-oriented
  record: `ROOM NAME: <name>`, one `CONNECTION k: <name>` line per neighbour
  in ascending room index, and `ROOM TYPE: <START_ROOM|MID_ROOM|END_ROOM>`.
- `mccabmic.adventure.c` checks the directory name for the `mccabmic.rooms.`
  marker. It parses each record positionally (the third whitespace token of
  every line) and assembles the seven rooms into a map, remembering where the
  START and END rooms are. It then runs the game: a loop that reads a token,
  ignores "time" requests, moves along a connection when the token names one,
  and stops in the end room.

The model has four modules:

- `Text` (`Text.dfy`) models the C library behaviour both programs rely on:
  `isspace`, the tokens `%s` reads, the lines `getline` returns, and the
  decimal text of `%d`.
- `BuildRooms` (`BuildRooms.dfy`) models the generator imperatively. The room
  table is an `array<Room>` updated in place. `swap`/`shuffle` work on an
  `array<int>`. Each method is proved against a function of its inputs
  (`Swapped`, `Shuffled`, `InitialRooms`, `Connect`, `Link`, `FullRooms`,
  `FirstWithCapacity`, `FirstPartner`, `FirstFit`, `Populate`, `Generated`,
  `Record`). Lemmas then state what those functions guarantee. The graph
  invariant `GraphInv` covers symmetry, no self-loops, degree equal to the
  row's count of set entries, and degree at most 6. `FirstFit` is the pair of
  rooms the two rejection loops of `AddRandomConnection` settle on for given
  draws. `Populate` is the table `populateConnections` reaches. Both are
  proved to keep the invariant.
- `Adventure` (`Adventure.dfy`) models the reader. `serialize` is a method
  proved against the parse function `Decode`. `init_room` is a copy loop
  whose result is stated field by field from its arguments.
  `validate_dir` and `find_room` are functions. `struct Map` is a class whose
  `Load` method is the assembly loop of `generate_map`. `game_loop` is a
  method proved against the state-machine function `Run`.
- `RoundTrip` (`RoundTrip.dfy`) connects the two programs. Reading a
  generated record gives back the room's name, role text, degree and
  neighbour names in the written order. A generated directory, listed in any
  order, loads with the start and end indices on the START and END rooms. The
  game on that map accepts exactly the moves that follow the generator's
  connections.

`rand()` is a parameter `rolls: seq<nat>`, a finite stream of draws; each
call of `rand()` consumes the next one. File contents are parameters (the
directory name and the text of each file). The console is a sequence of
input tokens.

Behaviour of the code worth knowing (the model follows it):

- Connection lines are written in ascending room index, not in the order the
  connections were added.
- Generation halts when exactly six rooms have a degree in [3, 6), not at
  least six (`isGraphFull` tests `==`).
- The printed path lists only the rooms moved to. The start room is left out.
- Malformed records are not rejected. A line with fewer than three tokens
  leaves its field unset.

## Model

| member | source | states |
|---|---|---|
| `BuildRooms.Swapped` | mccabmic.buildrooms.c:37-41 | positions i and j exchange their values; every other position keeps its value; the multiset of values is unchanged |
| `BuildRooms.Swap` | mccabmic.buildrooms.c:37-41 | the array after `swap` is `Swapped` of the array before |
| `BuildRooms.SwapPartner` | mccabmic.buildrooms.c:71 | the partner `rand() % (i + 1)` of position i lies in [0, i] |
| `BuildRooms.ShuffleFromPermutes` | mccabmic.buildrooms.c:67-74 | the Fisher–Yates loop keeps the length and leaves a permutation (same multiset) of its input |
| `BuildRooms.ShuffleFromDistinct` | mccabmic.buildrooms.c:67-74 | the shuffle maps a sequence of distinct values to one of distinct values |
| `BuildRooms.Shuffle` | mccabmic.buildrooms.c:67-74 | the array after `shuffle` is the specification `Shuffled` of the array before under the same draws |
| `BuildRooms.RandomOrder` | mccabmic.buildrooms.c:80-85 | the shuffled order is a permutation of 0..6: seven distinct values, each in [0, 7) |
| `BuildRooms.PoolNamesDistinct` | mccabmic.buildrooms.c:15-26 | the first seven pool names are pairwise distinct |
| `BuildRooms.InitRooms` | mccabmic.buildrooms.c:79-100 | the table after `init_rooms` is `InitialRooms` of the shuffled order: room i has id i, the pool name at `order[i]`, its positional role, degree 0 and an all-zero row |
| `BuildRooms.InitialRoomsOf` | mccabmic.buildrooms.c:87-99 | after `init_rooms` with any order of seven distinct values in [0, 7): id = position, degree 0, all entries 0, the graph invariant holds, names are pairwise distinct pool names of index below 7, exactly room 0 is START, exactly room 6 is END, all others MID |
| `BuildRooms.InitialRoomsProperties` | mccabmic.buildrooms.c:79-100 | the table `init_rooms` builds from the draws satisfies the graph invariant, has distinct pool names and positional roles |
| `BuildRooms.OneStartOneEnd` | mccabmic.buildrooms.c:92-99 | with roles given by position, room 0 is the only START room and room 6 the only END room |
| `BuildRooms.FullRoomsIsCardinality` | mccabmic.buildrooms.c:117-126 | the count kept by `isGraphFull` is the number of rooms whose degree lies in [3, 6) |
| `BuildRooms.IsGraphFull` | mccabmic.buildrooms.c:117-126 | returns true iff exactly 6 rooms (not at least 6) have degree in [3, 6) |
| `BuildRooms.HaltingTestSkippedUpward` | mccabmic.buildrooms.c:125 | with 5 rooms in range, joining two rooms of degree 2 puts 7 in range, so the strict test `== 6` is passed over |
| `BuildRooms.HaltingTestSkippedDownward` | mccabmic.buildrooms.c:125 | with 7 rooms in range, joining two rooms of degree 5 leaves 5 in range, passing over the test again |
| `BuildRooms.ConnectionAlreadyExists` | mccabmic.buildrooms.c:132-134 | true iff both `x.neighbors[y.id]` and `y.neighbors[x.id]` are 1 |
| `BuildRooms.GuardsUnderInvariant` | mccabmic.buildrooms.c:128-143 | under the graph invariant: `CanAddConnectionFrom` holds iff fewer than 6 neighbours are listed in the room's row; `isSameRoom` holds iff the positions are equal; `ConnectionAlreadyExists` holds iff x's entry for y is set, iff y is listed among x's neighbours |
| `BuildRooms.Connect` | mccabmic.buildrooms.c:136-139 | sets only x's entry for y's id to 1 and increments only x's degree; every other room and entry, and every id, name and role, is unchanged |
| `BuildRooms.ConnectRoom` | mccabmic.buildrooms.c:136-139 | the table after `ConnectRoom` is `Connect` of the table before |
| `BuildRooms.ConnectTwiceIsLink` | mccabmic.buildrooms.c:160-161 | the two `ConnectRoom` calls together set both entries (x, y) and (y, x) and raise both degrees |
| `BuildRooms.LinkPreservesInvariant` | mccabmic.buildrooms.c:145-162 | connecting two distinct rooms with spare capacity that are not yet connected keeps symmetry, the zero diagonal, degree = row count and degree ≤ 6; raises the total degree by exactly 2; keeps ids, names and roles |
| `BuildRooms.SetEntryKeepsRoomInv` | mccabmic.buildrooms.c:136-139 | one `ConnectRoom` on an unset, off-diagonal entry of a room with spare capacity keeps that room's degree equal to its row count and at most 6 |
| `BuildRooms.PickRoomWithCapacity` | mccabmic.buildrooms.c:149-154 | the loop stops at the draw `FirstWithCapacity` names, or at -1 when the draws run out |
| `BuildRooms.FirstWithCapacityIsFirst` | mccabmic.buildrooms.c:149-154 | the draw the first loop stops at lands on a room with degree below 6, and every earlier draw (every draw, if it is -1) landed on a full room |
| `BuildRooms.PickPartner` | mccabmic.buildrooms.c:156-158 | the loop stops at the draw `FirstPartner` names, or at -1 when the draws run out |
| `BuildRooms.FirstPartnerIsFirst` | mccabmic.buildrooms.c:156-158 | the draw the second loop stops at names a room with spare capacity that is not x and not yet connected to x; every earlier draw (every draw, if it is -1) was rejected by that test |
| `BuildRooms.FirstPartnerShift` | mccabmic.buildrooms.c:156 | the second loop, run on the draws left after the first loop, stops at the same draw as when it is run on all the draws from that point |
| `BuildRooms.FirstFitConnects` | mccabmic.buildrooms.c:145-162 | the pair the two loops settle on are distinct rooms, both with spare capacity and not yet connected; the loops find no pair iff no draw lands on a room with capacity, or every draw after that one is rejected |
| `BuildRooms.AddRandomConnection` | mccabmic.buildrooms.c:145-162 | the outcome is `FirstFit` of the table and the draws; if no pair is found nothing changes; otherwise the new table is `Link` of the old one at that pair, the invariant still holds, the identities are kept and the total degree rose by 2 |
| `BuildRooms.PopulateKeepsInvariant` | mccabmic.buildrooms.c:164-168 | the table `Populate` reaches keeps the graph invariant and every id, name and role, and its total degree has not fallen |
| `BuildRooms.PopulateRest` | mccabmic.buildrooms.c:164-168 | the draws `Populate` leaves unused are a suffix of the draws it was given |
| `BuildRooms.PopulateStops` | mccabmic.buildrooms.c:164-168 | `Populate` reports success iff its table passes the halting test; it reports failure only when the two loops find no pair in the draws left |
| `BuildRooms.PopulateConnections` | mccabmic.buildrooms.c:164-168 | the result and the new table are those of `Populate` of the old table and the draws; the invariant and identities are kept; success iff the halting test holds at the end |
| `BuildRooms.AdjacentFromAscending` | mccabmic.buildrooms.c:180-186 | the writer lists neighbour ids in strictly ascending order |
| `BuildRooms.AdjacentFromComplete` | mccabmic.buildrooms.c:180-186 | the writer lists every set entry of the row |
| `BuildRooms.AdjacentMembers` | mccabmic.buildrooms.c:180-186 | on a 0/1 row, an id is listed iff its entry is 1 |
| `BuildRooms.RecordLayout` | mccabmic.buildrooms.c:174-201 | a record has degree + 2 lines: `ROOM NAME: <name>` first; line k (1 ≤ k ≤ degree) is `CONNECTION k: <name>` of the k-th neighbour in ascending id; `ROOM TYPE: <role>` last |
| `BuildRooms.FormatRecord` | mccabmic.buildrooms.c:174-201 | the text built by the scan with its running `found` counter is the record `Record` of that room |
| `BuildRooms.WriteToDisk` | mccabmic.buildrooms.c:170-205 | one file per room, in room order, named after the room and holding its record |
| `BuildRooms.TypeName` | mccabmic.buildrooms.c:188-198 | the role is written as one word; the written word is `START_ROOM` iff the room is the START room, and `END_ROOM` iff it is the END room |
| `BuildRooms.Generate` | mccabmic.buildrooms.c:208-217 | the result and the table are `Generated` of the draws, that is `Populate` of the initial table; the table satisfies the graph invariant, has distinct pool names and positional roles; success iff the halting test holds, and then the files are the seven records |
| `Text.Line3Tokens` | mccabmic.adventure.c:64 | a line of three words separated by spaces has exactly those three tokens, so `%*s %*s %s` reads the third |
| `Text.LinesOfConcat` | mccabmic.adventure.c:62 | `getline` splits a text written as complete lines back into exactly those lines |
| `Text.Lines` | mccabmic.adventure.c:62 | the successive `getline` results, put together, are exactly the text |
| `Text.LinesShape` | mccabmic.adventure.c:62 | no `getline` result is empty, and each one but the last is a complete line ending at its only newline |
| `Text.LastLineShape` | mccabmic.adventure.c:62 | the last `getline` result holds no newline before its final character |
| `Text.ScanThird` | mccabmic.adventure.c:64-72 | on a line with fewer than three tokens `%*s %*s %s` fails and the buffer keeps its prior contents; otherwise it stores one word of the line |
| `Text.ScanThirdOfLine` | mccabmic.adventure.c:64-72 | on any line made of optional leading whitespace, words a, b, c separated by whitespace runs, and a rest that is empty or starts with whitespace, the first three tokens are a, b, c and `%*s %*s %s` stores c |
| `Text.NatToStringReadsBack` | mccabmic.buildrooms.c:184 | the digits `%d` prints for a count read back as that count |
| `Text.NatToStringInjective` | mccabmic.buildrooms.c:184 | different counts are printed as different digit strings, so the `CONNECTION k:` labels are distinct |
| `Adventure.InitRoom` | mccabmic.adventure.c:36-47 | copies name, type and count, and exactly the first `num_connections` connection strings; the other slots keep their contents |
| `Adventure.Serialize` | mccabmic.adventure.c:50-81 | for a record of n lines (1 ≤ n ≤ 8): the name is the third token of line 0, the type the third token of line n − 1, the count n − 2, and slot k the third token of line k + 1 for k < n − 2 |
| `Adventure.FirstOccurrence` | mccabmic.adventure.c:103 | `strstr`: the first index at which the pattern occurs, with no occurrence before it, or -1 when it occurs nowhere |
| `Adventure.ValidateDir` | mccabmic.adventure.c:102-110 | nonzero iff `mccabmic.rooms.` occurs as a substring of the directory name; the nonzero value is the character 'm' |
| `Adventure.FindRoom` | mccabmic.adventure.c:196-204 | the least index whose name equals the argument, or -1 iff no room has that name; always in [-1, 7) |
| `Adventure.LastTypedIsLast` | mccabmic.adventure.c:183-188 | the index the assembly loop keeps is the last one of the given type, and the prior value when no room has that type |
| `Adventure.Map.constructor` | mccabmic.adventure.c:167 | a fresh map of seven blank rooms |
| `Adventure.Map.Load` | mccabmic.adventure.c:177-192 | room i is the decoded file i; `room_start` is the last START_ROOM index and `room_end` the last END_ROOM index (prior values if none); `numRooms = 7` and `game_state = 1` |
| `Adventure.GenerateMap` | mccabmic.adventure.c:161-195 | a name without the marker is a fatal error; otherwise fewer than 7 files is a fatal error; otherwise a fresh map loaded from the files |
| `Adventure.SkipTime` | mccabmic.adventure.c:258-264 | after skipping the "time" requests, the next token (if any) is not "time" |
| `Adventure.SkipTimeDropsTime` | mccabmic.adventure.c:258-264 | the skip leaves a suffix of the input, and every token it passed over is "time" |
| `Adventure.WithoutTimeOne` | mccabmic.adventure.c:258-264 | removing "time" requests from a single token drops it iff it is "time" |
| `Adventure.WithoutTimeAppend` | mccabmic.adventure.c:258-264 | removing "time" requests works token by token: it distributes over concatenation, so the other tokens stay, in order |
| `Adventure.ReadMove` | mccabmic.adventure.c:252-264 | at end of input the move is the empty string of the cleared buffer; otherwise the read is stuck iff only "time" requests remain, and if not the move is the first token that is not "time" |
| `Adventure.Destination` | mccabmic.adventure.c:266-273 | the room moved to on a token is in [-1, 7); -1 means no move |
| `Adventure.Map.MoveTarget` | mccabmic.adventure.c:266-273 | the movement search returns `find_room(token)` when the token is one of the current room's connections, and -1 otherwise |
| `Adventure.Step` | mccabmic.adventure.c:274-282 | a move always leaves the player on a room index in [0, 7) |
| `Adventure.StepRule` | mccabmic.adventure.c:266-282 | a token matching no current connection, or naming no room, changes neither the player nor the step count; otherwise the player moves to the first room of that name, which is appended to the history, and the step count rises by 1 |
| `Adventure.TimeIsIgnored` | mccabmic.adventure.c:256-264 | "time" requests never change the game: an input that does not end with "time" ends as the same input with every "time" removed (a trailing "time" hangs in the time loop) |
| `Adventure.SkipTimeKeepsLast` | mccabmic.adventure.c:258-264 | skipping the leading "time" requests of an input whose last token is not "time" keeps that last token |
| `Adventure.RunOut` | mccabmic.adventure.c:258-264 | when the input runs out during "time" requests the game does not end, which the model reports with the walk unchanged |
| `Adventure.RunAtEnd` | mccabmic.adventure.c:252-287 | at end of input the turn moves on the empty token; the game ends there iff that move reaches the end room, and otherwise does not end, with the walk as it stood |
| `Adventure.StepRepeat` | mccabmic.adventure.c:266-282 | repeating a move on the same token never leads elsewhere, so repeating the end-of-input turn cannot reach the end room if the first one did not |
| `Adventure.StepKeepsWalkInv` | mccabmic.adventure.c:274-282 | each turn keeps steps = history length, history following connections, and the player at the last history room; it either changes nothing or appends one room |
| `Adventure.RunKeepsWalkInv` | mccabmic.adventure.c:243-287 | the loop keeps the walk invariant, only extends the history, and stops exactly when the player first reaches the end room |
| `Adventure.Map.GameLoop` | mccabmic.adventure.c:236-295 | the game's outcome is `Run` from the start room on the input; the map is unchanged except that `game_state` becomes 0 exactly when the end room is reached |
| `Adventure.GameOutcome` | mccabmic.adventure.c:284-295 | reported steps = history length; the path follows connections; when reached (start ≠ end) the last printed room is the end room and no earlier one is |
| `RoundTrip.PoolNamesAreWords` | mccabmic.buildrooms.c:15-26 | every pool name is a single whitespace-free token |
| `RoundTrip.LabelsAreWords` | mccabmic.buildrooms.c:175-198 | the record labels, the role names and `k:` are single tokens |
| `RoundTrip.RecordLinesAreLines` | mccabmic.buildrooms.c:174-201 | every record line is one complete line, and its third token is the field it carries |
| `RoundTrip.RecordRoundTrip` | mccabmic.adventure.c:50-81 | parsing a generated record gives the same name, the same role text, count = degree, the neighbour names in written order, and empty other slots |
| `RoundTrip.RoleNamesDiffer` | mccabmic.buildrooms.c:188-198 | different roles are written as different words |
| `RoundTrip.UniqueRole` | mccabmic.adventure.c:183-188 | when exactly one decoded room carries a role's text, the assembly loop settles on that room |
| `RoundTrip.DirectoryLoads` | mccabmic.adventure.c:177-192 | a generated directory, listed in any order, is readable; each decoded room has its generated name, and `room_start`/`room_end` land on the generated START and END rooms |
| `RoundTrip.MovesFollowConnections` | mccabmic.adventure.c:266-279 | on a loaded generated map, a token moves the player from one room to another iff it names that room and the generator connected the two |
| `RoundTrip.MoveIsConnection` | mccabmic.adventure.c:266-273 | on a loaded generated map, every accepted move names the room it goes to and follows a generated connection |
| `RoundTrip.ConnectionIsMove` | mccabmic.adventure.c:266-273 | on a loaded generated map, naming a generated neighbour of the current room moves the player to it |

## Left out

- `createDir` (`getpid`, `mkdir`), `chdir`, `fopen`/`fclose`: the writer returns the file names and texts instead of creating files.
- `get_most_recent` and `list_of_files` (`opendir`/`readdir`/`stat`) and `read_file` (`fopen`/`getdelim`): the map is built from a directory name and the texts of the files it lists, in listing order.
- `write_time`, `read_time` and `CreateThread` (a thread, a mutex, the wall clock and a shared file): a "time" token is modelled only as a request that changes no game state.
- `print_array`, `print_room` and all console output of `game_loop`, including the read of `connections[-1]` when a room has no connections.
- `srand(time(NULL))` and `rand()`: the draws are a parameter. When they run out, a rejection loop reports it instead of drawing forever.
- BuildRooms.PopulateConnections: termination of the generator loops is not proved; with a finite stream of draws the model stops, with failure, when the draws run out.
- Adventure.Map.GameLoop: at end of input `scanf` leaves the cleared buffer empty and the turn is taken on the empty token. If that move reaches the end room the game ends, as in C. Otherwise, and when the input ends during "time" requests, the C program loops forever; the model stops and reports the game unfinished with the walk as it stood.
- Adventure.Map.GameLoop: `player_history[256]` overflows after 255 steps; the history is an unbounded sequence.
- Adventure.Serialize: records are required to have 1 to 8 lines. An empty file makes `read_file` return NULL, on which `serialize` crashes. More than 8 lines overruns `myConnections[7]`.
- Adventure.GenerateMap: at most 7 files are accepted, since `list_of_files` overruns `myFiles[7]` when the directory holds more.
- Uninitialised C storage (stack buffers, the `malloc`ed map) is modelled as empty strings, -1 indices and 0 counters.
- Fixed `BUFFER` sizes: names and tokens longer than 255 characters, which `%s`/`%255s` would overflow or split, are not modelled.
- `glibc` behaviour assumed: after the final failed `getline` the buffer still holds the last line, which `serialize` scans for the type.
