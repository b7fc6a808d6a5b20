/** The reader and navigator of `mccabmic.adventure.c`: each room file is
    parsed positionally into a room, seven rooms are assembled into a map
    whose start and end rooms are found by their type strings, and the game
    moves the player along connections chosen from an input token stream
    until the end room is reached.

    Directory discovery and file reading are left to the caller: the map is
    assembled from the directory name and the contents of its files, and the
    console is a sequence of input tokens. */
module Adventure {
  import opened Text

  const PLAY_ROOMS: nat := 7

  const START_ROOM: string := "START_ROOM"
  const END_ROOM: string := "END_ROOM"
  /** The keyword that asks for the time instead of a move. */
  const TIME: string := "time"
  /** The marker `validate_dir` looks for in a directory name. */
  const ROOMS_MARKER: string := "mccabmic.rooms."

  /** `struct Room` of the reader: name and type as read, the connection count,
      and the seven connection slots, of which the first `numConnections` are
      meaningful. */
  datatype Room = Room(name: string, roomType: string, numConnections: int, connections: seq<string>)

  /** A room whose storage has never been written; empty strings model the
      uninitialised C buffers. */
  const BlankRoom: Room := Room("", "", 0, seq(PLAY_ROOMS, _ => ""))

  /** Shape the game relies on: seven connection slots, and a count that does
      not run past them. */
  predicate WellFormed(r: Room) {
    |r.connections| == PLAY_ROOMS && r.numConnections <= PLAY_ROOMS
  }

  predicate RoomsOk(rooms: seq<Room>) {
    |rooms| == PLAY_ROOMS && forall i :: 0 <= i < PLAY_ROOMS ==> WellFormed(rooms[i])
  }

  /*------------------------------ parsing ------------------------------*/

  /** `init_room`: sets name, type and count, and copies exactly the first
      `numConnections` connection strings; the other slots keep what `room`
      held. */
  method InitRoom(room: Room, name: string, roomType: string, numConnections: int, connections: seq<string>)
    returns (r: Room)
    requires |room.connections| == PLAY_ROOMS && |connections| == PLAY_ROOMS
    requires numConnections <= PLAY_ROOMS
    ensures r.name == name && r.roomType == roomType && r.numConnections == numConnections
    ensures |r.connections| == PLAY_ROOMS
    ensures forall k :: 0 <= k < PLAY_ROOMS ==>
      r.connections[k] == (if k < numConnections then connections[k] else room.connections[k])
  {
    r := room.(name := name, roomType := roomType, numConnections := numConnections);
    var i := 0;
    while i < r.numConnections
      invariant 0 <= i <= (if numConnections > 0 then numConnections else 0)
      invariant r.name == name && r.roomType == roomType && r.numConnections == numConnections
      invariant |r.connections| == PLAY_ROOMS
      invariant forall k :: 0 <= k < PLAY_ROOMS ==>
        r.connections[k] == (if k < i then connections[k] else room.connections[k])
    {
      r := r.(connections := r.connections[i := connections[i]]);
      i := i + 1;
    }
  }

  /** A record `serialize` can read: at least one line (the file is not empty)
      and at most eight, so that its middle lines fit the seven slots. */
  predicate Readable(data: string) {
    1 <= |Lines(data)| <= PLAY_ROOMS + 1
  }

  /** The room a record of n lines denotes: the name is the third token of the
      first line, the type the third token of the last line, the count n - 2,
      and slot k the third token of line k + 1; a field whose line has fewer
      than three tokens stays empty. */
  function Decode(data: string): (r: Room)
    requires Readable(data)
    ensures WellFormed(r)
  {
    var ls := Lines(data);
    var n := |ls|;
    Room(ScanThird(ls[0], ""), ScanThird(ls[n - 1], ""), n - 2,
         seq(PLAY_ROOMS, k requires 0 <= k < PLAY_ROOMS => if k < n - 2 then ScanThird(ls[k + 1], "") else ""))
  }

  /** `serialize`: reads the record line by line. The first line gives the
      name and every later line fills the next slot of a scratch array (so the
      last line lands in slot n - 2 as well); after the loop the last line is
      scanned once more for the type. */
  method Serialize(data: string) returns (room: Room)
    requires Readable(data)
    ensures room == Decode(data)
  {
    var lines := Lines(data);
    var name, roomType := "", "";
    var myConnections := new string[PLAY_ROOMS](_ => "");
    var lineNumber := 0;
    while lineNumber < |lines|
      invariant 0 <= lineNumber <= |lines|
      invariant name == if lineNumber > 0 then ScanThird(lines[0], "") else ""
      invariant forall k :: 0 <= k < PLAY_ROOMS ==>
        myConnections[k] == if k < lineNumber - 1 then ScanThird(lines[k + 1], "") else ""
    {
      if lineNumber == 0 {
        name := ScanThird(lines[0], name);
      } else {
        myConnections[lineNumber - 1] := ScanThird(lines[lineNumber], myConnections[lineNumber - 1]);
      }
      lineNumber := lineNumber + 1;
    }
    roomType := ScanThird(lines[|lines| - 1], roomType);
    room := InitRoom(BlankRoom, name, roomType, lineNumber - 2, myConnections[..]);
    ghost var decoded := Decode(data);
    forall k | 0 <= k < PLAY_ROOMS ensures room.connections[k] == decoded.connections[k] {
      assert BlankRoom.connections[k] == "";
    }
  }

  /*------------------------------ searching ------------------------------*/

  /** `p` occurs in `s` starting at index `i`. */
  predicate OccursAt(s: string, p: string, i: int) {
    0 <= i && i + |p| <= |s| && s[i..i + |p|] == p
  }

  /** `strstr` from index `from`: the first index at or after `from` where `p`
      occurs, or -1. */
  function FirstOccurrence(s: string, p: string, from: nat): (r: int)
    ensures r == -1 || (from <= r && OccursAt(s, p, r))
    ensures forall i :: from <= i && (r == -1 || i < r) ==> !OccursAt(s, p, i)
    decreases |s| - from
  {
    if from + |p| > |s| then -1
    else if s[from..from + |p|] == p then from
    else FirstOccurrence(s, p, from + 1)
  }

  /** `validate_dir`: zero when the marker does not occur in the directory
      name, otherwise the character where it starts, which is 'm'. */
  function ValidateDir(directory: string): (r: int)
    ensures r != 0 <==> exists i :: OccursAt(directory, ROOMS_MARKER, i)
    ensures r == 0 || r == 'm' as int
  {
    var k := FirstOccurrence(directory, ROOMS_MARKER, 0);
    if k < 0 then 0
    else
      assert directory[k] == directory[k..k + |ROOMS_MARKER|][0];
      directory[k] as int
  }

  /** The search of `find_room` from index `i` on. */
  function FindRoomFrom(name: string, rooms: seq<Room>, i: nat): (r: int)
    requires i <= |rooms|
    ensures r == -1 || (i <= r < |rooms| && rooms[r].name == name)
    ensures forall j :: i <= j < |rooms| && (r == -1 || j < r) ==> rooms[j].name != name
    decreases |rooms| - i
  {
    if i == |rooms| then -1
    else if rooms[i].name == name then i
    else FindRoomFrom(name, rooms, i + 1)
  }

  /** `find_room`: the least index whose name is `name`, or -1 when no room
      has that name. */
  function FindRoom(name: string, rooms: seq<Room>): (r: int)
    requires |rooms| == PLAY_ROOMS
    ensures -1 <= r < PLAY_ROOMS
    ensures r >= 0 ==> rooms[r].name == name && forall j :: 0 <= j < r ==> rooms[j].name != name
    ensures r == -1 <==> forall j :: 0 <= j < PLAY_ROOMS ==> rooms[j].name != name
  {
    FindRoomFrom(name, rooms, 0)
  }

  /** The index `generate_map` leaves in `room_start` (or `room_end`) after
      scanning `rs`: the last index whose type is `t`, or `prior` when there is
      none. */
  function LastTyped(rs: seq<Room>, t: string, prior: int): int {
    if rs == [] then prior
    else if rs[|rs| - 1].roomType == t then |rs| - 1
    else LastTyped(rs[..|rs| - 1], t, prior)
  }

  /** LastTyped is the last index of type `t` when there is one, and `prior`
      when there is none. */
  lemma {:induction false} LastTypedIsLast(rs: seq<Room>, t: string, prior: int)
    ensures var r := LastTyped(rs, t, prior);
      (exists j :: 0 <= j < |rs| && rs[j].roomType == t) ==>
        0 <= r < |rs| && rs[r].roomType == t && forall j :: r < j < |rs| ==> rs[j].roomType != t
    ensures (forall j :: 0 <= j < |rs| ==> rs[j].roomType != t) ==> LastTyped(rs, t, prior) == prior
  {
    if rs != [] && rs[|rs| - 1].roomType != t {
      var front := rs[..|rs| - 1];
      LastTypedIsLast(front, t, prior);
      assert forall j :: 0 <= j < |front| ==> front[j] == rs[j];
    }
  }

  lemma LastTypedSnoc(rs: seq<Room>, x: Room, t: string, prior: int)
    ensures LastTyped(rs + [x], t, prior) == if x.roomType == t then |rs| else LastTyped(rs, t, prior)
  {
    assert (rs + [x])[..|rs|] == rs;
  }

  /** One pass of the assembly loop keeps `roomStart` and `roomEnd` the last
      START_ROOM and END_ROOM indices among the rooms decoded so far. */
  lemma LoadStep(decoded: seq<Room>, i: nat, start: int, end: int, priorStart: int, priorEnd: int)
    requires i < |decoded|
    requires start == LastTyped(decoded[..i], START_ROOM, priorStart)
    requires end == LastTyped(decoded[..i], END_ROOM, priorEnd)
    ensures var t := decoded[i].roomType;
      && (if t == START_ROOM then i else start) == LastTyped(decoded[..i + 1], START_ROOM, priorStart)
      && (if t == START_ROOM || t != END_ROOM then end else i) == LastTyped(decoded[..i + 1], END_ROOM, priorEnd)
  {
    assert decoded[..i + 1] == decoded[..i] + [decoded[i]];
    LastTypedSnoc(decoded[..i], decoded[i], START_ROOM, priorStart);
    LastTypedSnoc(decoded[..i], decoded[i], END_ROOM, priorEnd);
    assert |START_ROOM| != |END_ROOM|;
  }

  /*------------------------------ the map ------------------------------*/

  /** The rooms every file of the directory denotes, in listing order. */
  function DecodeAll(files: seq<string>): (rs: seq<Room>)
    requires forall i :: 0 <= i < |files| ==> Readable(files[i])
    ensures |rs| == |files|
    ensures forall i {:trigger Decode(files[i])} :: 0 <= i < |files| ==> rs[i] == Decode(files[i])
  {
    seq(|files|, i requires 0 <= i < |files| => Decode(files[i]))
  }

  /** How `generate_map` ends. */
  datatype Status = Loaded | InvalidDirectory | TooFewRoomFiles

  /** `struct Map`: the seven rooms, the start and end indices, the game state
      (1 while playing) and the number of rooms. */
  class Map {
    var rooms: array<Room>
    var roomStart: int
    var roomEnd: int
    var gameState: int
    var numRooms: int

    predicate Valid()
      reads this, rooms
    {
      rooms.Length == PLAY_ROOMS && forall i :: 0 <= i < PLAY_ROOMS ==> WellFormed(rooms[i])
    }

    /** A freshly allocated map; the fields C leaves uninitialised are blank
        rooms, -1 for the indices and 0 for the counters. */
    constructor ()
      ensures Valid() && fresh(rooms)
      ensures forall i :: 0 <= i < PLAY_ROOMS ==> rooms[i] == BlankRoom
      ensures roomStart == -1 && roomEnd == -1 && gameState == 0 && numRooms == 0
    {
      rooms := new Room[PLAY_ROOMS](_ => BlankRoom);
      roomStart, roomEnd, gameState, numRooms := -1, -1, 0, 0;
    }

    /** The assembly loop of `generate_map`: decodes the seven files in order
        into the rooms, remembering the last START_ROOM and the last END_ROOM
        index seen; then sets the room count and starts the game. */
    method Load(files: seq<string>)
      requires Valid() && |files| == PLAY_ROOMS
      requires forall i :: 0 <= i < PLAY_ROOMS ==> Readable(files[i])
      modifies this, rooms
      ensures Valid() && rooms == old(rooms)
      ensures rooms[..] == DecodeAll(files)
      ensures roomStart == LastTyped(rooms[..], START_ROOM, old(roomStart))
      ensures roomEnd == LastTyped(rooms[..], END_ROOM, old(roomEnd))
      ensures numRooms == PLAY_ROOMS && gameState == 1
    {
      ghost var decoded := DecodeAll(files);
      var slots := rooms;
      var i := 0;
      while i < PLAY_ROOMS
        invariant 0 <= i <= PLAY_ROOMS && rooms == slots && slots.Length == PLAY_ROOMS
        invariant slots[..i] == decoded[..i]
        invariant roomStart == LastTyped(decoded[..i], START_ROOM, old(roomStart))
        invariant roomEnd == LastTyped(decoded[..i], END_ROOM, old(roomEnd))
      {
        var tempRoom := Serialize(files[i]);
        assert tempRoom == decoded[i];
        slots[i] := tempRoom;
        assert slots[..i + 1] == slots[..i] + [tempRoom];
        LoadStep(decoded, i, roomStart, roomEnd, old(roomStart), old(roomEnd));
        if tempRoom.roomType == START_ROOM {
          roomStart := i;
        } else if tempRoom.roomType == END_ROOM {
          roomEnd := i;
        }
        i := i + 1;
      }
      assert decoded[..PLAY_ROOMS] == decoded;
      assert slots[..] == decoded;
      numRooms := PLAY_ROOMS;
      gameState := 1;
    }

    /*---------------------------- the game ----------------------------*/

    /** The movement search of `game_loop`: scans the current room's
        connections for the token and, at the first match, looks the name up
        among the rooms; -1 means no move. */
    method MoveTarget(player: int, userInput: string) returns (destination: int)
      requires Valid() && 0 <= player < PLAY_ROOMS
      ensures destination == Destination(rooms[..], player, userInput)
    {
      var here := rooms[player];
      destination := -1;
      var i := 0;
      while i < here.numConnections
        invariant 0 <= i <= (if here.numConnections > 0 then here.numConnections else 0)
        invariant forall j :: 0 <= j < i ==> here.connections[j] != userInput
      {
        if userInput == here.connections[i] {
          assert Offered(here, userInput);
          destination := FindRoom(userInput, rooms[..]);
          return;
        }
        i := i + 1;
      }
    }

    /** `game_loop`: from the start room, reads a token per turn (skipping any
        number of "time" requests), moves when the token names one of the
        current room's connections, and stops when the player stands in the
        end room. Where C would repeat the end-of-input turn forever, the
        model ends the game unfinished (see Run). */
    method GameLoop(input: seq<string>) returns (ending: Ending)
      requires Valid() && gameState == 1 && 0 <= roomStart < PLAY_ROOMS
      modifies this
      ensures Valid()
      ensures rooms == old(rooms) && roomStart == old(roomStart) && roomEnd == old(roomEnd)
      ensures numRooms == old(numRooms)
      ensures ending == Run(rooms[..], roomEnd, Walk(roomStart, 0, []), input)
      ensures ending.Reached? ==> gameState == 0
      ensures ending.InputExhausted? ==> gameState == 1
    {
      ghost var rs := rooms[..];
      ghost var goal := roomEnd;
      ghost var whole := Run(rs, goal, Walk(roomStart, 0, []), input);
      var player := roomStart;
      var totalSteps := 0;
      var playerHistory: seq<int> := [];
      var goalRoom := roomEnd;
      var k := 0;
      while true
        invariant 0 <= k <= |input| && 0 <= player < PLAY_ROOMS
        invariant rooms == old(rooms) && roomStart == old(roomStart) && roomEnd == old(roomEnd)
        invariant numRooms == old(numRooms) && gameState == 1 && goalRoom == goal && rooms[..] == rs
        invariant Run(rs, goal, Walk(player, totalSteps, playerHistory), input[k..]) == whole
        decreases |input| - k
      {
        var w := Walk(player, totalSteps, playerHistory);
        var stuck, userInput, next := ReadMove(input, k);
        if stuck {
          RunOut(rs, goal, w, input[k..]);
          return InputExhausted(w);
        }
        var destination := MoveTarget(player, userInput);
        if destination >= 0 {
          playerHistory := playerHistory + [destination];
          player := destination;
          totalSteps := totalSteps + 1;
        }
        assert Walk(player, totalSteps, playerHistory) == Step(rs, w, userInput);
        if k == |input| {
          RunAtEnd(rs, goal, w, input, k);
        } else {
          RunTurn(rs, goal, w, input, k, next);
        }

        if player == goalRoom {
          gameState := 0;
          return Reached(Walk(player, totalSteps, playerHistory));
        }
        if k == |input| {
          return InputExhausted(w);
        }
        k := next;
      }
    }
  }

  /** The reading step of `game_loop`: takes the token at `k` and, while it is
      a "time" request, the next one. At end of input the move is the empty
      token of the cleared buffer. `stuck` holds when the input runs out
      during "time" requests, where the read keeps returning "time";
      otherwise `userInput` is the move, the first token of `input[k..]` that
      is not "time", and the reading goes on at `next`. */
  method ReadMove(input: seq<string>, k: nat) returns (stuck: bool, userInput: string, next: nat)
    requires k <= |input|
    ensures k == |input| ==> !stuck && userInput == "" && next == k
    ensures k < |input| ==> (stuck <==> SkipTime(input[k..]) == [])
    ensures k < |input| && !stuck ==>
      k < next <= |input| && userInput == input[next - 1] && SkipTime(input[k..]) == input[next - 1..]
  {
    if k == |input| {
      return false, "", k;
    }
    userInput := input[k];
    next := k + 1;
    while userInput == TIME
      invariant k < next <= |input| && userInput == input[next - 1]
      invariant SkipTime(input[k..]) == SkipTime(input[next - 1..])
      decreases |input| - next
    {
      SkipOne(input, next - 1);
      if next == |input| {
        assert input[next..] == [];
        return true, userInput, next;
      }
      userInput := input[next];
      next := next + 1;
    }
    stuck := false;
  }

  /** `generate_map` over a directory name and the contents of the files the
      directory lists: a name without the marker and a directory with fewer
      than seven files are the two fatal errors; otherwise the files are
      assembled into a fresh map. */
  method GenerateMap(directory: string, files: seq<string>) returns (status: Status, m: Map?)
    requires |files| <= PLAY_ROOMS
    requires ValidateDir(directory) != 0 && |files| == PLAY_ROOMS ==>
      forall i :: 0 <= i < PLAY_ROOMS ==> Readable(files[i])
    ensures status == InvalidDirectory <==> ValidateDir(directory) == 0
    ensures status == TooFewRoomFiles <==> ValidateDir(directory) != 0 && |files| < PLAY_ROOMS
    ensures status == Loaded <==> m != null
    ensures m != null ==>
      && fresh(m) && fresh(m.rooms) && m.Valid()
      && m.rooms[..] == DecodeAll(files)
      && m.roomStart == LastTyped(m.rooms[..], START_ROOM, -1)
      && m.roomEnd == LastTyped(m.rooms[..], END_ROOM, -1)
      && m.numRooms == PLAY_ROOMS && m.gameState == 1
  {
    if ValidateDir(directory) == 0 {
      return InvalidDirectory, null;
    }
    if |files| < PLAY_ROOMS {
      return TooFewRoomFiles, null;
    }
    m := new Map();
    m.Load(files);
    status := Loaded;
  }

  /*------------------------------ the walk ------------------------------*/

  /** The game's variables: the current room, the step count and the rooms
      moved to, in order. */
  datatype Walk = Walk(player: int, steps: int, history: seq<int>)

  /** The game reached the end room, or the input ran out first. */
  datatype Ending = Reached(walk: Walk) | InputExhausted(walk: Walk)

  /** The input after the leading "time" requests. */
  function SkipTime(input: seq<string>): (rest: seq<string>)
    ensures |rest| <= |input|
    ensures rest == [] || rest[0] != TIME
  {
    if input != [] && input[0] == TIME then SkipTime(input[1..]) else input
  }

  /** SkipTime drops exactly the leading "time" requests: what it returns is a
      suffix of the input, and every token before that suffix is "time". */
  lemma {:induction false} SkipTimeDropsTime(input: seq<string>)
    ensures var rest := SkipTime(input);
      && rest == input[|input| - |rest|..]
      && forall i :: 0 <= i < |input| - |rest| ==> input[i] == TIME
    decreases |input|
  {
    if input != [] && input[0] == TIME {
      SkipTimeDropsTime(input[1..]);
      var rest := SkipTime(input);
      assert input[1..][|input| - 1 - |rest|..] == input[|input| - |rest|..];
      forall i | 0 <= i < |input| - |rest| ensures input[i] == TIME {
        if i > 0 {
          assert input[i] == input[1..][i - 1];
        }
      }
    }
  }

  /** The input without any "time" request. */
  function WithoutTime(input: seq<string>): (r: seq<string>)
    ensures forall k :: 0 <= k < |r| ==> r[k] != TIME
  {
    if input == [] then []
    else if input[0] == TIME then WithoutTime(input[1..])
    else [input[0]] + WithoutTime(input[1..])
  }

  /** Removing "time" requests from one token keeps it unless it is one. */
  lemma WithoutTimeOne(t: string)
    ensures WithoutTime([t]) == if t == TIME then [] else [t]
  {
    assert [t][1..] == [];
  }

  /** Removing "time" requests works token by token: it distributes over
      concatenation, so with WithoutTimeOne it keeps exactly the other tokens,
      in their order. */
  lemma {:induction false} WithoutTimeAppend(a: seq<string>, b: seq<string>)
    ensures WithoutTime(a + b) == WithoutTime(a) + WithoutTime(b)
    decreases |a|
  {
    if a == [] {
      assert a + b == b;
    } else {
      assert (a + b)[0] == a[0] && (a + b)[1..] == a[1..] + b;
      WithoutTimeAppend(a[1..], b);
    }
  }

  /** Token `t` is one of the first `numConnections` connections of `r`. */
  predicate Offered(r: Room, t: string)
    requires WellFormed(r)
  {
    exists i :: 0 <= i < r.numConnections && r.connections[i] == t
  }

  /** The room the player moves to on token `t`, or -1 for no move. */
  function Destination(rooms: seq<Room>, player: int, t: string): (d: int)
    requires RoomsOk(rooms) && 0 <= player < PLAY_ROOMS
    ensures -1 <= d < PLAY_ROOMS
  {
    if Offered(rooms[player], t) then FindRoom(t, rooms) else -1
  }

  /** One move on token `t`. */
  function Step(rooms: seq<Room>, w: Walk, t: string): (r: Walk)
    requires RoomsOk(rooms) && 0 <= w.player < PLAY_ROOMS
    ensures 0 <= r.player < PLAY_ROOMS
  {
    var d := Destination(rooms, w.player, t);
    if d >= 0 then Walk(d, w.steps + 1, w.history + [d]) else w
  }

  /** The game from walk `w` on `input`: skip "time" requests, take one token,
      move, and stop as soon as the player is in `goal`. At end of input the
      token is the empty one; when that move does not reach `goal`, every
      later turn repeats it without reaching `goal`, and so does a "time"
      request that meets the end of input: the game never ends, which the
      model reports as InputExhausted with the walk as it stood. */
  function Run(rooms: seq<Room>, goal: int, w: Walk, input: seq<string>): Ending
    requires RoomsOk(rooms) && 0 <= w.player < PLAY_ROOMS
    decreases |input|
  {
    if input == [] then
      // at end of input the read leaves the cleared buffer, the empty token
      var w' := Step(rooms, w, "");
      if w'.player == goal then Reached(w') else InputExhausted(w)
    else
      var rest := SkipTime(input);
      if rest == [] then InputExhausted(w)
      else
        var w' := Step(rooms, w, rest[0]);
        if w'.player == goal then Reached(w') else Run(rooms, goal, w', rest[1..])
  }

  /*---------------------------- properties ----------------------------*/

  /** The step rule: a token that is not among the current room's
      connections, or that names no room, changes nothing; otherwise the
      player moves to the first room of that name, which is appended to the
      history, and the step count grows by one. */
  lemma StepRule(rooms: seq<Room>, w: Walk, t: string)
    requires RoomsOk(rooms) && 0 <= w.player < PLAY_ROOMS
    ensures var r := Step(rooms, w, t);
      !Offered(rooms[w.player], t) || (forall j :: 0 <= j < PLAY_ROOMS ==> rooms[j].name != t) ==> r == w
    ensures var r := Step(rooms, w, t);
      Offered(rooms[w.player], t) && (exists j :: 0 <= j < PLAY_ROOMS && rooms[j].name == t) ==>
        && rooms[r.player].name == t
        && (forall j :: 0 <= j < r.player ==> rooms[j].name != t)
        && r.history == w.history + [r.player]
        && r.steps == w.steps + 1
  {
  }

  /** A repeated move stays put: every move on `t` goes to the first room
      named `t`, wherever it starts. So the end-of-input turn, repeated,
      never reaches a room the first one did not. */
  lemma StepRepeat(rooms: seq<Room>, w: Walk, t: string)
    requires RoomsOk(rooms) && 0 <= w.player < PLAY_ROOMS
    ensures Step(rooms, Step(rooms, w, t), t).player == Step(rooms, w, t).player
  {
  }

  /** Skipping a leading "time" request. */
  lemma SkipOne(input: seq<string>, k: nat)
    requires k < |input| && input[k] == TIME
    ensures SkipTime(input[k..]) == SkipTime(input[k + 1..])
  {
    assert input[k..][1..] == input[k + 1..];
  }

  /** The game ends unfinished once only "time" requests remain. */
  lemma RunOut(rooms: seq<Room>, goal: int, w: Walk, input: seq<string>)
    requires RoomsOk(rooms) && 0 <= w.player < PLAY_ROOMS && input != [] && SkipTime(input) == []
    ensures Run(rooms, goal, w, input) == InputExhausted(w)
  {
  }

  /** One turn of the game: after the "time" requests of `input[from..k-1]`,
      token `input[k - 1]` is the move. */
  lemma RunTurn(rooms: seq<Room>, goal: int, w: Walk, input: seq<string>, from: nat, k: nat)
    requires RoomsOk(rooms) && 0 <= w.player < PLAY_ROOMS
    requires from < k <= |input| && SkipTime(input[from..]) == input[k - 1..]
    ensures var w' := Step(rooms, w, input[k - 1]);
      Run(rooms, goal, w, input[from..]) == if w'.player == goal then Reached(w') else Run(rooms, goal, w', input[k..])
  {
    assert input[k - 1..][1..] == input[k..];
  }

  /** The turn at end of input moves on the empty token, and ends the game
      unfinished unless that move reaches `goal`. */
  lemma RunAtEnd(rooms: seq<Room>, goal: int, w: Walk, input: seq<string>, k: nat)
    requires RoomsOk(rooms) && 0 <= w.player < PLAY_ROOMS && k == |input|
    ensures var w' := Step(rooms, w, "");
      Run(rooms, goal, w, input[k..]) == if w'.player == goal then Reached(w') else InputExhausted(w)
  {
    assert input[k..] == [];
  }

  /** Skipping leading "time" requests keeps a last token that is not one. */
  lemma {:induction false} SkipTimeKeepsLast(input: seq<string>)
    requires input != [] && input[|input| - 1] != TIME
    ensures SkipTime(input) != [] && SkipTime(input)[|SkipTime(input)| - 1] == input[|input| - 1]
    decreases |input|
  {
    if input[0] == TIME {
      assert input[1..][|input| - 2] == input[|input| - 1];
      SkipTimeKeepsLast(input[1..]);
    }
  }

  lemma {:induction false} WithoutTimeSkip(input: seq<string>)
    ensures WithoutTime(SkipTime(input)) == WithoutTime(input)
  {
    if input != [] && input[0] == TIME {
      WithoutTimeSkip(input[1..]);
    }
  }

  /** "time" requests never change the game: unless the input ends with one
      (where the game hangs in the "time" loop), the game ends as the game on
      the same input with every "time" request removed. */
  lemma {:induction false} TimeIsIgnored(rooms: seq<Room>, goal: int, w: Walk, input: seq<string>)
    requires RoomsOk(rooms) && 0 <= w.player < PLAY_ROOMS
    ensures input == [] || input[|input| - 1] != TIME ==>
      Run(rooms, goal, w, input) == Run(rooms, goal, w, WithoutTime(input))
    decreases |input|
  {
    var rest := SkipTime(input);
    WithoutTimeSkip(input);
    if input != [] && input[|input| - 1] != TIME {
      SkipTimeKeepsLast(input);
      assert rest[1..] == [] || rest[1..][|rest[1..]| - 1] == input[|input| - 1];
      var wt := WithoutTime(input);
      assert wt == [rest[0]] + WithoutTime(rest[1..]);
      assert SkipTime(wt) == wt;
      assert wt[1..] == WithoutTime(rest[1..]);
      var w' := Step(rooms, w, rest[0]);
      if w'.player != goal {
        TimeIsIgnored(rooms, goal, w', rest[1..]);
      }
    }
  }

  /** The room the player stood in before move `k` of `history`. */
  function Before(start: int, history: seq<int>, k: int): int
    requires 0 <= k <= |history|
  {
    if k == 0 then start else history[k - 1]
  }

  /** Every move of `history` went to a room that the room before it offers
      by name, and to the first room of that name. */
  predicate Follows(rooms: seq<Room>, start: int, history: seq<int>)
    requires RoomsOk(rooms) && 0 <= start < PLAY_ROOMS
  {
    && (forall k :: 0 <= k < |history| ==> 0 <= history[k] < PLAY_ROOMS)
    && (forall k {:trigger Before(start, history, k)} :: 0 <= k < |history| ==> Move(rooms, Before(start, history, k), history[k]))
  }

  /** A move from room `from` to room `to`: `from` offers the name of `to`,
      and `to` is the first room of that name. */
  predicate Move(rooms: seq<Room>, from: int, to: int)
    requires RoomsOk(rooms) && 0 <= from < PLAY_ROOMS && 0 <= to < PLAY_ROOMS
  {
    Offered(rooms[from], rooms[to].name) && to == FindRoom(rooms[to].name, rooms)
  }

  lemma FollowsSnoc(rooms: seq<Room>, start: int, h: seq<int>, x: int)
    requires RoomsOk(rooms) && 0 <= start < PLAY_ROOMS && Follows(rooms, start, h)
    requires 0 <= x < PLAY_ROOMS && Move(rooms, Before(start, h, |h|), x)
    ensures Follows(rooms, start, h + [x])
  {
    var h' := h + [x];
    forall k | 0 <= k < |h'|
      ensures 0 <= h'[k] < PLAY_ROOMS && Move(rooms, Before(start, h', k), h'[k])
    {
      if k < |h| {
        assert h'[k] == h[k];
        assert Before(start, h', k) == Before(start, h, k);
      }
    }
  }

  /** What holds of the game's variables at every turn: the step count is the
      history's length, the history follows connections from `start`, and
      the player stands in its last room (or in `start` before any move). */
  predicate WalkInv(rooms: seq<Room>, start: int, w: Walk)
    requires RoomsOk(rooms) && 0 <= start < PLAY_ROOMS
  {
    && 0 <= w.player < PLAY_ROOMS
    && w.steps == |w.history|
    && Follows(rooms, start, w.history)
    && w.player == Before(start, w.history, |w.history|)
  }

  lemma StepKeepsWalkInv(rooms: seq<Room>, start: int, w: Walk, t: string)
    requires RoomsOk(rooms) && 0 <= start < PLAY_ROOMS && WalkInv(rooms, start, w)
    ensures var w' := Step(rooms, w, t);
      && WalkInv(rooms, start, w')
      && (w' == w || w'.history == w.history + [w'.player])
  {
    var d := Destination(rooms, w.player, t);
    if d >= 0 {
      assert rooms[d].name == t;
      assert Move(rooms, w.player, d);
      FollowsSnoc(rooms, start, w.history, d);
      assert Before(start, w.history + [d], |w.history| + 1) == d;
    }
  }

  /** The game keeps WalkInv, only ever extends the history, and stops exactly
      when the player first stands in `goal`: a reached game ends there and
      visited it at no earlier move; an unfinished one never visited it. */
  lemma {:induction false} RunKeepsWalkInv(rooms: seq<Room>, start: int, goal: int, w: Walk, input: seq<string>)
    requires RoomsOk(rooms) && 0 <= start < PLAY_ROOMS && WalkInv(rooms, start, w)
    requires forall k :: 0 <= k < |w.history| ==> w.history[k] != goal
    ensures var e := Run(rooms, goal, w, input);
      && WalkInv(rooms, start, e.walk)
      && |w.history| <= |e.walk.history| && e.walk.history[..|w.history|] == w.history
    ensures var e := Run(rooms, goal, w, input);
      e.Reached? ==> e.walk.player == goal && forall k :: 0 <= k < |e.walk.history| - 1 ==> e.walk.history[k] != goal
    ensures var e := Run(rooms, goal, w, input);
      e.InputExhausted? ==> forall k :: 0 <= k < |e.walk.history| ==> e.walk.history[k] != goal
    decreases |input|
  {
    var rest := SkipTime(input);
    if input == [] {
      StepKeepsWalkInv(rooms, start, w, "");
    } else if rest != [] {
      var w' := Step(rooms, w, rest[0]);
      StepKeepsWalkInv(rooms, start, w, rest[0]);
      assert w'.history[..|w.history|] == w.history;
      if w'.player != goal {
        assert forall k :: 0 <= k < |w'.history| ==> w'.history[k] != goal;
        RunKeepsWalkInv(rooms, start, goal, w', rest[1..]);
        var e := Run(rooms, goal, w', rest[1..]);
        assert e.walk.history[..|w'.history|][..|w.history|] == e.walk.history[..|w.history|];
      }
    }
  }

  /** The printed path: the names of the rooms moved to, in order. */
  function PrintedPath(rooms: seq<Room>, history: seq<int>): (p: seq<string>)
    requires forall k :: 0 <= k < |history| ==> 0 <= history[k] < |rooms|
    ensures |p| == |history| && forall k :: 0 <= k < |history| ==> p[k] == rooms[history[k]].name
  {
    seq(|history|, k requires 0 <= k < |history| => rooms[history[k]].name)
  }

  /** The game from the start room: when it is reached, the player is in the
      end room, the reported step count is the number of rooms on the printed
      path, that path follows connections and (unless start and end
      coincide) ends with the end room's name, which appears on it nowhere
      earlier. */
  lemma GameOutcome(rooms: seq<Room>, start: int, goal: int, input: seq<string>)
    requires RoomsOk(rooms) && 0 <= start < PLAY_ROOMS
    ensures var e := Run(rooms, goal, Walk(start, 0, []), input);
      && e.walk.steps == |e.walk.history|
      && Follows(rooms, start, e.walk.history)
    ensures var e := Run(rooms, goal, Walk(start, 0, []), input);
      e.Reached? ==>
        && e.walk.player == goal && 0 <= goal < PLAY_ROOMS
        && (start != goal ==>
              var p := PrintedPath(rooms, e.walk.history);
              && |p| == e.walk.steps > 0
              && p[|p| - 1] == rooms[goal].name
              && forall k :: 0 <= k < |p| - 1 ==> e.walk.history[k] != goal)
    ensures var e := Run(rooms, goal, Walk(start, 0, []), input);
      e.InputExhausted? ==> forall k :: 0 <= k < |e.walk.history| ==> e.walk.history[k] != goal
  {
    var w := Walk(start, 0, []);
    assert WalkInv(rooms, start, w);
    RunKeepsWalkInv(rooms, start, goal, w, input);
    var e := Run(rooms, goal, w, input);
    if e.Reached? && start != goal {
      PathEndsInGoal(rooms, start, goal, e.walk);
    }
  }

  lemma PathEndsInGoal(rooms: seq<Room>, start: int, goal: int, w: Walk)
    requires RoomsOk(rooms) && 0 <= start < PLAY_ROOMS && WalkInv(rooms, start, w)
    requires w.player == goal != start
    ensures var p := PrintedPath(rooms, w.history);
      |p| == w.steps > 0 && p[|p| - 1] == rooms[goal].name
  {
    var h := w.history;
    assert w.player == Before(start, h, |h|);
    assert |h| > 0 && h[|h| - 1] == goal;
  }
}
