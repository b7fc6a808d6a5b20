/** The room-graph generator of `mccabmic.buildrooms.c`: seven rooms whose names
    come from a shuffled pool and whose roles are fixed by position; random
    connections are added until the halting test holds; then every room is
    written as a line-oriented text record.

    `rand()` is modelled as a finite stream of draws `rolls`: each call of
    `rand()` consumes the next element. When a rejection loop runs out of draws
    the model reports it instead of looping. */
module BuildRooms {
  import opened Text

  const MAX_ROOMS: nat := 10
  const PLAY_ROOMS: nat := 7
  const MIN_CONNECTIONS: nat := 3
  const MAX_CONNECTIONS: nat := 6

  datatype RoomType = StartRoom | MidRoom | EndRoom

  /** The pool of candidate names; only the first `PLAY_ROOMS` can be drawn. */
  const RoomNames: seq<string> := [
    "Lakeview", "Wrigleyville", "Edgewater", "OldTown", "Loop",
    "SLoop", "Lincoln_Park", "Wicker_Park", "Pilsen", "Chinatown"
  ]

  /** `struct Room`; `neighbors` is the 0/1 adjacency row indexed by room id. */
  datatype Room = Room(id: int, name: string, roomType: RoomType, numConnections: int, neighbors: seq<int>)

  /** The outcome of one AddRandomConnection: the draws ran out, or rooms `x`
      and `y` were connected after `used` draws. */
  datatype Draw = Exhausted | Connected(x: nat, y: nat, used: nat)

  /** One generated file: its name and its text. */
  datatype RoomFile = RoomFile(fileName: string, contents: string)

  /*------------------------------ utility ------------------------------*/

  /** `s` with the values at `i` and `j` exchanged. */
  function Swapped(s: seq<int>, i: int, j: int): (r: seq<int>)
    requires 0 <= i < |s| && 0 <= j < |s|
    ensures |r| == |s| && r[i] == s[j] && r[j] == s[i]
    ensures forall k :: 0 <= k < |s| && k != i && k != j ==> r[k] == s[k]
    ensures multiset(r) == multiset(s)
  {
    s[i := s[j]][j := s[i]]
  }

  method Swap(a: array<int>, i: int, j: int)
    requires 0 <= i < a.Length && 0 <= j < a.Length
    modifies a
    ensures a[..] == Swapped(old(a[..]), i, j)
  {
    var temp := a[i];
    a[i] := a[j];
    a[j] := temp;
  }

  /** `rand() % (i + 1)`: the partner of position `i` in one shuffle step. */
  function SwapPartner(roll: nat, i: nat): (j: nat)
    ensures j <= i
  {
    roll % (i + 1)
  }

  /** No value occurs twice. */
  predicate Distinct(s: seq<int>) {
    forall i, j :: 0 <= i < j < |s| ==> s[i] != s[j]
  }

  /** The Fisher–Yates loop run from position `i` down to 1, the draw for
      position `i` being `rolls[0]`. */
  function ShuffleFrom(s: seq<int>, rolls: seq<nat>, i: int): seq<int>
    requires i < |s| && i <= |rolls|
    decreases i
  {
    if i < 1 then s
    else ShuffleFrom(Swapped(s, i, SwapPartner(rolls[0], i)), rolls[1..], i - 1)
  }

  /** `shuffle(array, n)` applied to the values `s`. */
  function Shuffled(s: seq<int>, rolls: seq<nat>): seq<int>
    requires |s| <= |rolls| + 1
  {
    ShuffleFrom(s, rolls, |s| - 1)
  }

  /** A swap keeps distinct values distinct. */
  lemma SwappedDistinct(s: seq<int>, i: int, j: int)
    requires 0 <= i < |s| && 0 <= j < |s| && Distinct(s)
    ensures Distinct(Swapped(s, i, j))
  {
    var t := Swapped(s, i, j);
    forall a, b | 0 <= a < b < |t| ensures t[a] != t[b] {
      var a' := if a == i then j else if a == j then i else a;
      var b' := if b == i then j else if b == j then i else b;
      assert t[a] == s[a'] && t[b] == s[b'];
    }
  }

  /** Every shuffle step is a swap, so the result is a permutation of the
      input. */
  lemma {:induction false} ShuffleFromPermutes(s: seq<int>, rolls: seq<nat>, i: int)
    requires i < |s| && i <= |rolls|
    ensures |ShuffleFrom(s, rolls, i)| == |s|
    ensures multiset(ShuffleFrom(s, rolls, i)) == multiset(s)
    decreases i
  {
    if i >= 1 {
      var t := Swapped(s, i, SwapPartner(rolls[0], i));
      assert ShuffleFrom(s, rolls, i) == ShuffleFrom(t, rolls[1..], i - 1);
      ShuffleFromPermutes(t, rolls[1..], i - 1);
    }
  }

  /** The shuffle keeps distinct values distinct. */
  lemma {:induction false} ShuffleFromDistinct(s: seq<int>, rolls: seq<nat>, i: int)
    requires i < |s| && i <= |rolls| && Distinct(s)
    ensures Distinct(ShuffleFrom(s, rolls, i))
    decreases i
  {
    if i >= 1 {
      var j := SwapPartner(rolls[0], i);
      var t := Swapped(s, i, j);
      assert ShuffleFrom(s, rolls, i) == ShuffleFrom(t, rolls[1..], i - 1);
      SwappedDistinct(s, i, j);
      ShuffleFromDistinct(t, rolls[1..], i - 1);
    }
  }

  /** One iteration of the shuffle loop, at position `i` with draw `rolls[k]`. */
  lemma ShuffleFromStep(s: seq<int>, rolls: seq<nat>, k: nat, i: int)
    requires 1 <= i < |s| && k + i <= |rolls|
    ensures ShuffleFrom(s, rolls[k..], i) == ShuffleFrom(Swapped(s, i, SwapPartner(rolls[k], i)), rolls[k + 1..], i - 1)
  {
    assert rolls[k..][0] == rolls[k];
    assert rolls[k..][1..] == rolls[k + 1..];
  }

  method Shuffle(a: array<int>, rolls: seq<nat>)
    requires a.Length <= |rolls| + 1
    modifies a
    ensures a[..] == Shuffled(old(a[..]), rolls)
  {
    var i := a.Length - 1;
    var k := 0;
    while i >= 1
      invariant -1 <= i < a.Length && (i >= 0 || a.Length == 0)
      invariant k == a.Length - 1 - i
      invariant ShuffleFrom(a[..], rolls[k..], i) == Shuffled(old(a[..]), rolls)
    {
      var j := SwapPartner(rolls[k], i);
      ShuffleFromStep(a[..], rolls, k, i);
      Swap(a, i, j);
      i := i - 1;
      k := k + 1;
    }
  }

  /** The identity order 0, 1, ..., n - 1. */
  function Iota(n: nat): (r: seq<int>)
    ensures |r| == n && forall i :: 0 <= i < n ==> r[i] == i
  {
    seq(n, i => i)
  }

  /** The shuffled order in which `init_rooms` hands out pool names: a
      permutation of 0 .. PLAY_ROOMS - 1. */
  function RandomOrder(rolls: seq<nat>): (order: seq<int>)
    requires |rolls| >= PLAY_ROOMS - 1
    ensures |order| == PLAY_ROOMS && Distinct(order)
    ensures forall i :: 0 <= i < PLAY_ROOMS ==> 0 <= order[i] < PLAY_ROOMS
    ensures multiset(order) == multiset(Iota(PLAY_ROOMS))
  {
    ShuffleFromPermutes(Iota(PLAY_ROOMS), rolls, PLAY_ROOMS - 1);
    ShuffleFromDistinct(Iota(PLAY_ROOMS), rolls, PLAY_ROOMS - 1);
    var order := Shuffled(Iota(PLAY_ROOMS), rolls);
    PermutationOfIotaInRange(order, PLAY_ROOMS);
    order
  }

  /** A rearrangement of 0 .. n - 1 holds only values in that range. */
  lemma PermutationOfIotaInRange(s: seq<int>, n: nat)
    requires multiset(s) == multiset(Iota(n))
    ensures forall i :: 0 <= i < |s| ==> 0 <= s[i] < n
  {
    forall i | 0 <= i < |s| ensures 0 <= s[i] < n {
      assert s[i] in multiset(s);
      assert s[i] in Iota(n);
    }
  }

  /*--------------------------- initialisation ---------------------------*/

  /** The role `init_rooms` gives the room at position `i`. */
  function RoleAt(i: int): RoomType {
    if i == 0 then StartRoom else if i == PLAY_ROOMS - 1 then EndRoom else MidRoom
  }

  const NoNeighbors: seq<int> := seq(PLAY_ROOMS, _ => 0)

  /** The rooms as `init_rooms` leaves them when the shuffled order is `order`. */
  function InitialRooms(order: seq<int>): seq<Room>
    requires |order| == PLAY_ROOMS
    requires forall i :: 0 <= i < PLAY_ROOMS ==> 0 <= order[i] < MAX_ROOMS
  {
    seq(PLAY_ROOMS, i requires 0 <= i < PLAY_ROOMS => Room(i, RoomNames[order[i]], RoleAt(i), 0, NoNeighbors))
  }

  method InitRooms(rooms: array<Room>, rolls: seq<nat>)
    requires rooms.Length == PLAY_ROOMS && |rolls| >= PLAY_ROOMS - 1
    modifies rooms
    ensures rooms[..] == InitialRooms(RandomOrder(rolls))
  {
    var randomOrder := new int[PLAY_ROOMS];
    var i := 0;
    while i < PLAY_ROOMS
      invariant 0 <= i <= PLAY_ROOMS
      invariant forall k :: 0 <= k < i ==> randomOrder[k] == k
    {
      randomOrder[i] := i;
      i := i + 1;
    }
    assert randomOrder[..] == Iota(PLAY_ROOMS);
    Shuffle(randomOrder, rolls);
    ghost var order := RandomOrder(rolls);
    assert randomOrder[..] == order;

    i := 0;
    while i < PLAY_ROOMS
      invariant 0 <= i <= PLAY_ROOMS && randomOrder[..] == order
      invariant forall k :: 0 <= k < i ==> rooms[k] == Room(k, RoomNames[order[k]], MidRoom, 0, NoNeighbors)
    {
      rooms[i] := Room(i, RoomNames[randomOrder[i]], MidRoom, 0, NoNeighbors);
      i := i + 1;
    }
    rooms[0] := rooms[0].(roomType := StartRoom);
    rooms[PLAY_ROOMS - 1] := rooms[PLAY_ROOMS - 1].(roomType := EndRoom);
  }

  /*--------------------------- graph invariant ---------------------------*/

  /** The ids `j >= from` whose adjacency entry is set, in ascending order: the
      order in which `writeToDisk` lists connections. */
  function AdjacentFrom(row: seq<int>, from: nat): (r: seq<nat>)
    ensures forall k :: 0 <= k < |r| ==> from <= r[k] < |row| && row[r[k]] != 0
    decreases |row| - from
  {
    if from >= |row| then []
    else if row[from] != 0 then [from] + AdjacentFrom(row, from + 1)
    else AdjacentFrom(row, from + 1)
  }

  /** AdjacentFrom lists the set entries in strictly ascending order. */
  lemma {:induction false} AdjacentFromAscending(row: seq<int>, from: nat)
    ensures forall k, m :: 0 <= k < m < |AdjacentFrom(row, from)| ==> AdjacentFrom(row, from)[k] < AdjacentFrom(row, from)[m]
    decreases |row| - from
  {
    if from < |row| && row[from] != 0 {
      AdjacentFromAscending(row, from + 1);
      var t := AdjacentFrom(row, from + 1);
      var r := [from] + t;
      assert AdjacentFrom(row, from) == r;
      forall k, m | 0 <= k < m < |r| ensures r[k] < r[m] {
        if k == 0 {
          assert r[0] == from && r[m] == t[m - 1];
          assert from + 1 <= t[m - 1];
        } else {
          assert r[k] == t[k - 1] && r[m] == t[m - 1];
          assert t[k - 1] < t[m - 1];
        }
      }
    } else if from < |row| {
      AdjacentFromAscending(row, from + 1);
      assert AdjacentFrom(row, from) == AdjacentFrom(row, from + 1);
    }
  }

  /** AdjacentFrom lists every set entry at or after `from`. */
  lemma {:induction false} AdjacentFromComplete(row: seq<int>, from: nat)
    ensures forall v :: from <= v < |row| && row[v] != 0 ==> v in AdjacentFrom(row, from)
    decreases |row| - from
  {
    if from < |row| {
      AdjacentFromComplete(row, from + 1);
      var t := AdjacentFrom(row, from + 1);
      if row[from] != 0 {
        var r := [from] + t;
        assert AdjacentFrom(row, from) == r;
        forall v | from <= v < |row| && row[v] != 0 ensures v in r {
          if v > from {
            assert v in t;
          }
        }
      } else {
        assert AdjacentFrom(row, from) == t;
        forall v | from <= v < |row| && row[v] != 0 ensures v in t {
          assert v != from;
        }
      }
    }
  }

  /** All neighbour ids of a row, ascending. */
  function Adjacent(row: seq<int>): seq<nat> {
    AdjacentFrom(row, 0)
  }

  /** What must hold of the room at position `i`: its id is `i`, its row is a
      0/1 row of `PLAY_ROOMS` entries with no self-loop, and its degree is the
      number of set entries and at most `MAX_CONNECTIONS`. */
  predicate RoomInv(r: Room, i: int) {
    && r.id == i
    && |r.neighbors| == PLAY_ROOMS
    && 0 <= i < PLAY_ROOMS
    && r.neighbors[i] == 0
    && (forall j :: 0 <= j < PLAY_ROOMS ==> r.neighbors[j] == 0 || r.neighbors[j] == 1)
    && r.numConnections == |Adjacent(r.neighbors)|
    && r.numConnections <= MAX_CONNECTIONS
  }

  /** Entry (i, j) of the adjacency matrix: room `i`'s row at id `j`. */
  function Entry(rs: seq<Room>, i: int, j: int): int
    requires 0 <= i < |rs| && 0 <= j < |rs[i].neighbors|
  {
    rs[i].neighbors[j]
  }

  /** The generator's invariant: every room satisfies RoomInv and adjacency is
      symmetric. */
  predicate GraphInv(rs: seq<Room>) {
    && |rs| == PLAY_ROOMS
    && (forall i :: 0 <= i < PLAY_ROOMS ==> RoomInv(rs[i], i))
    && (forall i, j :: 0 <= i < PLAY_ROOMS && 0 <= j < PLAY_ROOMS ==> Entry(rs, i, j) == Entry(rs, j, i))
  }

  /** Sum of all degrees. */
  function TotalDegree(rs: seq<Room>): int {
    if rs == [] then 0 else rs[0].numConnections + TotalDegree(rs[1..])
  }

  /** The names are distinct entries of the first `PLAY_ROOMS` pool names. */
  predicate NamesFromPool(rs: seq<Room>) {
    && (forall i :: 0 <= i < |rs| ==> rs[i].name in RoomNames[..PLAY_ROOMS])
    && (forall i, j :: 0 <= i < j < |rs| ==> rs[i].name != rs[j].name)
  }

  /** Positions decide roles: 0 is START, the last is END, the rest MID. */
  predicate RolesByPosition(rs: seq<Room>) {
    forall i :: 0 <= i < |rs| ==> rs[i].roomType == RoleAt(i)
  }

  /** id, name and role of every room are the same in `rs` and `rs'`. */
  predicate SameIdentities(rs: seq<Room>, rs': seq<Room>) {
    |rs| == |rs'| &&
    forall i :: 0 <= i < |rs| ==> rs'[i].id == rs[i].id && rs'[i].name == rs[i].name && rs'[i].roomType == rs[i].roomType
  }

  /** The first seven pool names are pairwise distinct. */
  lemma PoolNamesDistinct()
    ensures forall i, j :: 0 <= i < j < PLAY_ROOMS ==> RoomNames[i] != RoomNames[j]
  {
    assert RoomNames[0][0] == 'L' && RoomNames[1][0] == 'W' && RoomNames[2][0] == 'E';
    assert RoomNames[3][0] == 'O' && RoomNames[4][0] == 'L' && RoomNames[5][0] == 'S';
    assert RoomNames[6][0] == 'L';
    assert |RoomNames[0]| == 8 && |RoomNames[4]| == 4 && |RoomNames[6]| == 12;
  }

  /** A row of zeros lists no neighbour. */
  lemma {:induction false} AdjacentFromZeros(row: seq<int>, from: nat)
    requires forall v :: 0 <= v < |row| ==> row[v] == 0
    ensures AdjacentFrom(row, from) == []
    decreases |row| - from
  {
    if from < |row| {
      AdjacentFromZeros(row, from + 1);
    }
  }

  lemma NoNeighborsAdjacent()
    ensures |NoNeighbors| == PLAY_ROOMS && Adjacent(NoNeighbors) == []
  {
    AdjacentFromZeros(NoNeighbors, 0);
  }

  /** The table `init_rooms` builds from the draws satisfies what the rest of
      `main` relies on. */
  lemma InitialRoomsProperties(rolls: seq<nat>)
    requires |rolls| >= PLAY_ROOMS - 1
    ensures var rs := InitialRooms(RandomOrder(rolls));
      GraphInv(rs) && NamesFromPool(rs) && RolesByPosition(rs)
  {
    InitialRoomsOf(RandomOrder(rolls));
  }

  /** After `init_rooms` with any shuffled order: ids are positions, no room
      has a connection, the graph invariant holds, names are distinct pool
      names with index below `PLAY_ROOMS`, and exactly room 0 is START and
      exactly the last room END. */
  lemma InitialRoomsOf(order: seq<int>)
    requires |order| == PLAY_ROOMS && Distinct(order)
    requires forall i :: 0 <= i < PLAY_ROOMS ==> 0 <= order[i] < PLAY_ROOMS
    ensures var rs := InitialRooms(order);
      && GraphInv(rs) && NamesFromPool(rs) && RolesByPosition(rs)
      && (forall i :: 0 <= i < PLAY_ROOMS ==> rs[i].id == i && rs[i].numConnections == 0 && rs[i].neighbors == NoNeighbors)
      && (forall i :: 0 <= i < PLAY_ROOMS ==> (rs[i].roomType == StartRoom <==> i == 0))
      && (forall i :: 0 <= i < PLAY_ROOMS ==> (rs[i].roomType == EndRoom <==> i == PLAY_ROOMS - 1))
  {
    var rs := InitialRooms(order);
    NoNeighborsAdjacent();
    assert forall i :: 0 <= i < PLAY_ROOMS ==> rs[i] == Room(i, RoomNames[order[i]], RoleAt(i), 0, NoNeighbors);
    InitialGraphInv(rs);
    InitialNames(order, rs);
    assert RolesByPosition(rs);
    OneStartOneEnd(rs);
  }

  /** With roles by position, room 0 is the only START room and the last room
      the only END room. */
  lemma OneStartOneEnd(rs: seq<Room>)
    requires |rs| == PLAY_ROOMS && RolesByPosition(rs)
    ensures forall i :: 0 <= i < PLAY_ROOMS ==> (rs[i].roomType == StartRoom <==> i == 0)
    ensures forall i :: 0 <= i < PLAY_ROOMS ==> (rs[i].roomType == EndRoom <==> i == PLAY_ROOMS - 1)
  {
  }

  lemma InitialGraphInv(rs: seq<Room>)
    requires |rs| == PLAY_ROOMS && Adjacent(NoNeighbors) == []
    requires forall i :: 0 <= i < PLAY_ROOMS ==> rs[i].id == i && rs[i].numConnections == 0 && rs[i].neighbors == NoNeighbors
    ensures GraphInv(rs)
  {
    forall i | 0 <= i < PLAY_ROOMS ensures RoomInv(rs[i], i) {
      assert rs[i].neighbors == NoNeighbors;
    }
  }

  lemma InitialNames(order: seq<int>, rs: seq<Room>)
    requires |order| == PLAY_ROOMS && Distinct(order)
    requires forall i :: 0 <= i < PLAY_ROOMS ==> 0 <= order[i] < PLAY_ROOMS
    requires |rs| == PLAY_ROOMS && forall i :: 0 <= i < PLAY_ROOMS ==> rs[i].name == RoomNames[order[i]]
    ensures NamesFromPool(rs)
  {
    PoolNamesDistinct();
    forall i | 0 <= i < PLAY_ROOMS ensures rs[i].name in RoomNames[..PLAY_ROOMS] {
      assert RoomNames[..PLAY_ROOMS][order[i]] == rs[i].name;
    }
    forall i, j | 0 <= i < j < PLAY_ROOMS ensures rs[i].name != rs[j].name {
      assert order[i] != order[j];
    }
  }

  /*-------------------------- graph operations --------------------------*/

  predicate IsGraphFullRoom(r: Room) {
    MIN_CONNECTIONS <= r.numConnections < MAX_CONNECTIONS
  }

  /** The number of rooms whose degree lies in [MIN_CONNECTIONS, MAX_CONNECTIONS). */
  function FullRooms(rs: seq<Room>): nat {
    if rs == [] then 0
    else FullRooms(rs[..|rs| - 1]) + (if IsGraphFullRoom(rs[|rs| - 1]) then 1 else 0)
  }

  /** FullRooms counts exactly the positions of rooms in range. */
  lemma {:induction false} FullRoomsIsCardinality(rs: seq<Room>)
    ensures FullRooms(rs) == |set i | 0 <= i < |rs| && IsGraphFullRoom(rs[i])|
    decreases |rs|
  {
    if rs != [] {
      var n := |rs| - 1;
      var init := rs[..n];
      FullRoomsIsCardinality(init);
      var a := set i | 0 <= i < |init| && IsGraphFullRoom(init[i]);
      var b := set i | 0 <= i < |rs| && IsGraphFullRoom(rs[i]);
      if IsGraphFullRoom(rs[n]) {
        assert b == a + {n};
        assert n !in a;
      } else {
        assert b == a;
      }
    }
  }

  /** Replacing one room changes FullRooms by that room's own contribution. */
  lemma {:induction false} FullRoomsUpdate(rs: seq<Room>, x: int, r: Room)
    requires 0 <= x < |rs|
    ensures FullRooms(rs[x := r]) ==
      FullRooms(rs) - (if IsGraphFullRoom(rs[x]) then 1 else 0) + (if IsGraphFullRoom(r) then 1 else 0)
    decreases |rs|
  {
    var n := |rs| - 1;
    var rs' := rs[x := r];
    if x < n {
      assert rs'[..n] == rs[..n][x := r];
      FullRoomsUpdate(rs[..n], x, r);
    } else {
      assert rs'[..n] == rs[..n];
    }
  }

  /** `isGraphFull`: exactly PLAY_ROOMS - 1 rooms (no more, no fewer) have a
      degree in [MIN_CONNECTIONS, MAX_CONNECTIONS). */
  method IsGraphFull(rooms: array<Room>) returns (full: bool)
    requires rooms.Length == PLAY_ROOMS
    ensures full <==> FullRooms(rooms[..]) == PLAY_ROOMS - 1
  {
    var fullRooms := 0;
    var i := 0;
    while i < PLAY_ROOMS
      invariant 0 <= i <= PLAY_ROOMS
      invariant fullRooms == FullRooms(rooms[..i])
    {
      assert rooms[..i + 1][..i] == rooms[..i];
      if rooms[i].numConnections >= MIN_CONNECTIONS && rooms[i].numConnections < MAX_CONNECTIONS {
        fullRooms := fullRooms + 1;
      }
      i := i + 1;
    }
    assert rooms[..i] == rooms[..];
    full := fullRooms == PLAY_ROOMS - 1;
  }

  predicate CanAddConnectionFrom(x: Room) {
    x.numConnections < MAX_CONNECTIONS
  }

  /** `ConnectionAlreadyExists`: both directed entries between the two rooms are
      set. */
  function ConnectionAlreadyExists(x: Room, y: Room): (r: bool)
    requires 0 <= y.id < |x.neighbors| && 0 <= x.id < |y.neighbors|
    ensures r <==> x.neighbors[y.id] == 1 && y.neighbors[x.id] == 1
  {
    x.neighbors[y.id] == y.neighbors[x.id] && x.neighbors[y.id] == 1
  }

  predicate IsSameRoom(x: Room, y: Room) {
    x.id == y.id
  }

  /** Under the invariant, the room tests of AddRandomConnection mean what
      their names say: a room has room for a connection when fewer than
      `MAX_CONNECTIONS` neighbours are listed in its row, same room is same
      position, and "already connected" is "listed among the neighbours". */
  lemma GuardsUnderInvariant(rs: seq<Room>, x: int, y: int)
    requires GraphInv(rs) && 0 <= x < PLAY_ROOMS && 0 <= y < PLAY_ROOMS
    ensures CanAddConnectionFrom(rs[x]) <==> |Adjacent(rs[x].neighbors)| < MAX_CONNECTIONS
    ensures IsSameRoom(rs[x], rs[y]) <==> x == y
    ensures ConnectionAlreadyExists(rs[x], rs[y]) <==> rs[x].neighbors[y] == 1
    ensures ConnectionAlreadyExists(rs[x], rs[y]) <==> y in Adjacent(rs[x].neighbors)
  {
    assert RoomInv(rs[x], x) && RoomInv(rs[y], y);
    assert Entry(rs, x, y) == Entry(rs, y, x);
    AdjacentFromAscending(rs[x].neighbors, 0);
    AdjacentFromComplete(rs[x].neighbors, 0);
    if y in Adjacent(rs[x].neighbors) {
      var k :| 0 <= k < |Adjacent(rs[x].neighbors)| && Adjacent(rs[x].neighbors)[k] == y;
    }
  }

  /** `ConnectRoom(x, y)`: the state after setting `x`'s entry for `y`'s id and
      incrementing `x`'s degree; nothing else changes. */
  function Connect(rs: seq<Room>, x: int, y: int): (r: seq<Room>)
    requires 0 <= x < |rs| && 0 <= y < |rs|
    requires 0 <= rs[y].id < |rs[x].neighbors|
    ensures |r| == |rs| && SameIdentities(rs, r)
    ensures forall i :: 0 <= i < |rs| && i != x ==> r[i] == rs[i]
    ensures r[x].numConnections == rs[x].numConnections + 1
    ensures |r[x].neighbors| == |rs[x].neighbors| && r[x].neighbors[rs[y].id] == 1
    ensures forall j :: 0 <= j < |rs[x].neighbors| && j != rs[y].id ==> r[x].neighbors[j] == rs[x].neighbors[j]
  {
    rs[x := rs[x].(neighbors := rs[x].neighbors[rs[y].id := 1], numConnections := rs[x].numConnections + 1)]
  }

  method ConnectRoom(rooms: array<Room>, x: int, y: int)
    requires 0 <= x < rooms.Length && 0 <= y < rooms.Length
    requires 0 <= rooms[y].id < |rooms[x].neighbors|
    modifies rooms
    ensures rooms[..] == Connect(old(rooms[..]), x, y)
  {
    var yId := rooms[y].id;
    rooms[x] := rooms[x].(neighbors := rooms[x].neighbors[yId := 1], numConnections := rooms[x].numConnections + 1);
  }

  /** Room `r` with its entry for id `j` set and its degree incremented. */
  function SetEntry(r: Room, j: int): Room
    requires 0 <= j < |r.neighbors|
  {
    r.(neighbors := r.neighbors[j := 1], numConnections := r.numConnections + 1)
  }

  /** The state after connecting `x` and `y` in both directions. */
  function Link(rs: seq<Room>, x: int, y: int): seq<Room>
    requires GraphInv(rs) && 0 <= x < PLAY_ROOMS && 0 <= y < PLAY_ROOMS
  {
    assert RoomInv(rs[x], x) && RoomInv(rs[y], y);
    rs[x := SetEntry(rs[x], y)][y := SetEntry(rs[y], x)]
  }

  /** The two ConnectRoom calls of AddRandomConnection produce Link. */
  lemma ConnectTwiceIsLink(rs: seq<Room>, x: int, y: int)
    requires GraphInv(rs) && 0 <= x < PLAY_ROOMS && 0 <= y < PLAY_ROOMS && x != y
    ensures RoomInv(rs[x], x) && RoomInv(rs[y], y)
    ensures Connect(Connect(rs, x, y), y, x) == Link(rs, x, y)
  {
    assert RoomInv(rs[x], x) && RoomInv(rs[y], y);
  }

  /** Setting one unset entry of a row adds exactly that id to the neighbour
      list at or after it, and leaves the list after it alone. */
  lemma {:induction false} AdjacentFromSet(row: seq<int>, from: nat, y: nat)
    requires y < |row| && row[y] == 0
    ensures from > y ==> AdjacentFrom(row[y := 1], from) == AdjacentFrom(row, from)
    ensures from <= y ==> |AdjacentFrom(row[y := 1], from)| == |AdjacentFrom(row, from)| + 1
    decreases |row| - from
  {
    if from < |row| {
      AdjacentFromSet(row, from + 1, y);
      var row' := row[y := 1];
      if from == y {
        assert AdjacentFrom(row', from) == [from] + AdjacentFrom(row', from + 1);
        assert AdjacentFrom(row, from) == AdjacentFrom(row, from + 1);
      } else {
        assert row'[from] == row[from];
      }
    }
  }

  /** TotalDegree after replacing one room. */
  lemma {:induction false} TotalDegreeUpdate(rs: seq<Room>, x: int, r: Room)
    requires 0 <= x < |rs|
    ensures TotalDegree(rs[x := r]) == TotalDegree(rs) - rs[x].numConnections + r.numConnections
    decreases |rs|
  {
    if x > 0 {
      assert rs[x := r][1..] == rs[1..][x - 1 := r];
      TotalDegreeUpdate(rs[1..], x - 1, r);
    } else {
      assert rs[x := r][1..] == rs[1..];
    }
  }

  /** Connecting two distinct rooms with spare capacity that are not yet
      connected keeps the invariant (symmetry, no self-loop, degree equals
      the row's count, degree at most MAX_CONNECTIONS), raises the total degree
      by exactly 2, and changes no id, name or role. */
  lemma LinkPreservesInvariant(rs: seq<Room>, x: int, y: int)
    requires GraphInv(rs) && 0 <= x < PLAY_ROOMS && 0 <= y < PLAY_ROOMS && x != y
    requires CanAddConnectionFrom(rs[x]) && CanAddConnectionFrom(rs[y]) && rs[x].neighbors[y] == 0
    ensures GraphInv(Link(rs, x, y))
    ensures TotalDegree(Link(rs, x, y)) == TotalDegree(rs) + 2
    ensures SameIdentities(rs, Link(rs, x, y))
    ensures Link(rs, x, y)[x].neighbors[y] == 1 && Link(rs, x, y)[y].neighbors[x] == 1
  {
    LinkEntries(rs, x, y);
    LinkRooms(rs, x, y);
    LinkSymmetric(rs, x, y);
    LinkTotalDegree(rs, x, y);
  }

  /** Link sets exactly the entries (x, y) and (y, x), adds one to the degrees
      of x and y, and keeps everything else. */
  lemma LinkEntries(rs: seq<Room>, x: int, y: int)
    requires GraphInv(rs) && 0 <= x < PLAY_ROOMS && 0 <= y < PLAY_ROOMS && x != y
    ensures var r2 := Link(rs, x, y);
      && |r2| == PLAY_ROOMS
      && (forall i :: 0 <= i < PLAY_ROOMS && i != x && i != y ==> r2[i] == rs[i])
      && r2[x] == SetEntry(rs[x], y) && r2[y] == SetEntry(rs[y], x)
  {
    assert RoomInv(rs[x], x) && RoomInv(rs[y], y);
  }

  lemma LinkRooms(rs: seq<Room>, x: int, y: int)
    requires GraphInv(rs) && 0 <= x < PLAY_ROOMS && 0 <= y < PLAY_ROOMS && x != y
    requires CanAddConnectionFrom(rs[x]) && CanAddConnectionFrom(rs[y]) && rs[x].neighbors[y] == 0
    ensures forall i :: 0 <= i < PLAY_ROOMS ==> RoomInv(Link(rs, x, y)[i], i)
    ensures SameIdentities(rs, Link(rs, x, y))
  {
    var r2 := Link(rs, x, y);
    LinkEntries(rs, x, y);
    assert RoomInv(rs[x], x) && RoomInv(rs[y], y);
    assert Entry(rs, y, x) == Entry(rs, x, y);
    SetEntryKeepsRoomInv(rs[x], x, y);
    SetEntryKeepsRoomInv(rs[y], y, x);
    forall i | 0 <= i < PLAY_ROOMS ensures RoomInv(r2[i], i) {
      assert RoomInv(rs[i], i);
    }
  }

  lemma LinkSymmetric(rs: seq<Room>, x: int, y: int)
    requires GraphInv(rs) && 0 <= x < PLAY_ROOMS && 0 <= y < PLAY_ROOMS && x != y
    ensures forall i, j :: 0 <= i < PLAY_ROOMS && 0 <= j < PLAY_ROOMS ==>
      Link(rs, x, y)[i].neighbors[j] == Link(rs, x, y)[j].neighbors[i]
  {
    var r2 := Link(rs, x, y);
    LinkEntries(rs, x, y);
    assert RoomInv(rs[x], x) && RoomInv(rs[y], y);
    forall i, j | 0 <= i < PLAY_ROOMS && 0 <= j < PLAY_ROOMS
      ensures r2[i].neighbors[j] == r2[j].neighbors[i]
    {
      assert Entry(rs, i, j) == Entry(rs, j, i);
      assert r2[i].neighbors[j] == if (i == x && j == y) || (i == y && j == x) then 1 else rs[i].neighbors[j];
      assert r2[j].neighbors[i] == if (j == x && i == y) || (j == y && i == x) then 1 else rs[j].neighbors[i];
    }
  }

  lemma LinkTotalDegree(rs: seq<Room>, x: int, y: int)
    requires GraphInv(rs) && 0 <= x < PLAY_ROOMS && 0 <= y < PLAY_ROOMS && x != y
    ensures TotalDegree(Link(rs, x, y)) == TotalDegree(rs) + 2
  {
    assert RoomInv(rs[x], x) && RoomInv(rs[y], y);
    var r1 := rs[x := SetEntry(rs[x], y)];
    TotalDegreeUpdate(rs, x, r1[x]);
    TotalDegreeUpdate(r1, y, SetEntry(rs[y], x));
  }

  /** Setting an unset, non-diagonal entry of a room with spare capacity keeps
      that room's invariant. */
  lemma SetEntryKeepsRoomInv(r: Room, i: int, j: int)
    requires RoomInv(r, i) && 0 <= j < PLAY_ROOMS && j != i && r.neighbors[j] == 0
    requires CanAddConnectionFrom(r)
    ensures RoomInv(SetEntry(r, j), i)
  {
    AdjacentFromSet(r.neighbors, 0, j);
  }

  /** The halting test can be jumped over: when five rooms are in range and
      the new connection joins two rooms of degree 2, seven rooms are in range
      afterwards and the test `== PLAY_ROOMS - 1` is false. */
  lemma HaltingTestSkippedUpward(rs: seq<Room>, x: int, y: int)
    requires GraphInv(rs) && 0 <= x < PLAY_ROOMS && 0 <= y < PLAY_ROOMS && x != y
    requires rs[x].neighbors[y] == 0
    requires rs[x].numConnections == MIN_CONNECTIONS - 1 && rs[y].numConnections == MIN_CONNECTIONS - 1
    requires FullRooms(rs) == PLAY_ROOMS - 2
    ensures FullRooms(Link(rs, x, y)) == PLAY_ROOMS
  {
    LinkPreservesInvariant(rs, x, y);
    var r1 := rs[x := SetEntry(rs[x], y)];
    FullRoomsUpdate(rs, x, r1[x]);
    FullRoomsUpdate(r1, y, Link(rs, x, y)[y]);
  }

  /** Once all seven rooms are in range, joining two rooms of degree
      MAX_CONNECTIONS - 1 leaves five in range, skipping the test again. */
  lemma HaltingTestSkippedDownward(rs: seq<Room>, x: int, y: int)
    requires GraphInv(rs) && 0 <= x < PLAY_ROOMS && 0 <= y < PLAY_ROOMS && x != y
    requires rs[x].neighbors[y] == 0
    requires rs[x].numConnections == MAX_CONNECTIONS - 1 && rs[y].numConnections == MAX_CONNECTIONS - 1
    requires FullRooms(rs) == PLAY_ROOMS
    ensures FullRooms(Link(rs, x, y)) == PLAY_ROOMS - 2
  {
    LinkPreservesInvariant(rs, x, y);
    var r1 := rs[x := SetEntry(rs[x], y)];
    FullRoomsUpdate(rs, x, r1[x]);
    FullRoomsUpdate(r1, y, Link(rs, x, y)[y]);
  }

  /** The first loop of AddRandomConnection as a specification: the index of
      the first draw at or after `from` that lands on a room with spare
      capacity, or -1 when none does (FirstWithCapacityIsFirst). */
  function FirstWithCapacity(rs: seq<Room>, rolls: seq<nat>, from: nat): (k: int)
    requires |rs| == PLAY_ROOMS && from <= |rolls|
    ensures -1 <= k < |rolls| && (k >= 0 ==> from <= k)
    decreases |rolls| - from
  {
    if from == |rolls| then -1
    else if CanAddConnectionFrom(rs[rolls[from] % PLAY_ROOMS]) then from
    else FirstWithCapacity(rs, rolls, from + 1)
  }

  /** FirstWithCapacity finds a room with spare capacity, and no earlier draw
      does; -1 means no draw at all does. */
  lemma {:induction false} FirstWithCapacityIsFirst(rs: seq<Room>, rolls: seq<nat>, from: nat)
    requires |rs| == PLAY_ROOMS && from <= |rolls|
    ensures var k := FirstWithCapacity(rs, rolls, from);
      && (k >= 0 ==> CanAddConnectionFrom(rs[rolls[k] % PLAY_ROOMS]))
      && (forall d :: from <= d < |rolls| && (k < 0 || d < k) ==> !CanAddConnectionFrom(rs[rolls[d] % PLAY_ROOMS]))
    decreases |rolls| - from
  {
    if from < |rolls| && !CanAddConnectionFrom(rs[rolls[from] % PLAY_ROOMS]) {
      FirstWithCapacityIsFirst(rs, rolls, from + 1);
    }
  }

  /** The first loop of AddRandomConnection: draw until a room with spare
      capacity comes up; -1 when `rolls` runs out first. */
  method PickRoomWithCapacity(rooms: array<Room>, rolls: seq<nat>) returns (k: int)
    requires rooms.Length == PLAY_ROOMS
    ensures k == FirstWithCapacity(rooms[..], rolls, 0)
  {
    k := 0;
    while k < |rolls|
      invariant 0 <= k <= |rolls|
      invariant FirstWithCapacity(rooms[..], rolls, k) == FirstWithCapacity(rooms[..], rolls, 0)
    {
      if CanAddConnectionFrom(rooms[rolls[k] % PLAY_ROOMS]) {
        return;
      }
      k := k + 1;
    }
    k := -1;
  }

  /** The rejection test of the second loop of AddRandomConnection. */
  predicate Rejected(rs: seq<Room>, x: int, y: int)
    requires GraphInv(rs) && 0 <= x < PLAY_ROOMS && 0 <= y < PLAY_ROOMS
  {
    assert RoomInv(rs[x], x) && RoomInv(rs[y], y);
    !CanAddConnectionFrom(rs[y]) || IsSameRoom(rs[x], rs[y]) || ConnectionAlreadyExists(rs[x], rs[y])
  }

  /** The second loop of AddRandomConnection as a specification: the index of
      the first draw at or after `from` that lands on an acceptable partner
      for `x`, or -1 when every one is rejected (FirstPartnerIsFirst). */
  function FirstPartner(rs: seq<Room>, x: int, rolls: seq<nat>, from: nat): (k: int)
    requires GraphInv(rs) && 0 <= x < PLAY_ROOMS && from <= |rolls|
    ensures -1 <= k < |rolls| && (k >= 0 ==> from <= k)
    decreases |rolls| - from
  {
    if from == |rolls| then -1
    else if !Rejected(rs, x, rolls[from] % PLAY_ROOMS) then from
    else FirstPartner(rs, x, rolls, from + 1)
  }

  /** FirstPartner finds an acceptable partner, and every earlier draw is
      rejected; -1 means every draw is rejected. */
  lemma {:induction false} FirstPartnerIsFirst(rs: seq<Room>, x: int, rolls: seq<nat>, from: nat)
    requires GraphInv(rs) && 0 <= x < PLAY_ROOMS && from <= |rolls|
    ensures var k := FirstPartner(rs, x, rolls, from);
      && (k >= 0 ==> !Rejected(rs, x, rolls[k] % PLAY_ROOMS))
      && (forall d :: from <= d < |rolls| && (k < 0 || d < k) ==> Rejected(rs, x, rolls[d] % PLAY_ROOMS))
    decreases |rolls| - from
  {
    if from < |rolls| && Rejected(rs, x, rolls[from] % PLAY_ROOMS) {
      FirstPartnerIsFirst(rs, x, rolls, from + 1);
    }
  }

  /** The second loop of AddRandomConnection: draw until a partner for `x`
      passes the rejection test; -1 when `rolls` runs out first. */
  method PickPartner(rooms: array<Room>, x: int, rolls: seq<nat>) returns (k: int)
    requires rooms.Length == PLAY_ROOMS && GraphInv(rooms[..]) && 0 <= x < PLAY_ROOMS
    ensures k == FirstPartner(rooms[..], x, rolls, 0)
  {
    k := 0;
    while k < |rolls|
      invariant 0 <= k <= |rolls|
      invariant FirstPartner(rooms[..], x, rolls, k) == FirstPartner(rooms[..], x, rolls, 0)
    {
      var other := rolls[k] % PLAY_ROOMS;
      assert RoomInv(rooms[x], x) && RoomInv(rooms[other], other);
      if !(!CanAddConnectionFrom(rooms[other]) || IsSameRoom(rooms[x], rooms[other])
           || ConnectionAlreadyExists(rooms[x], rooms[other])) {
        return;
      }
      k := k + 1;
    }
    k := -1;
  }

  /** What AddRandomConnection does with the draws `rolls`: `x` is the room of
      the first draw with spare capacity, `y` the room of the first later draw
      that is an acceptable partner for `x`, and `used` counts the draws up to
      and including `y`'s; the draws run out when either search finds
      nothing (FirstFitConnects). */
  function FirstFit(rs: seq<Room>, rolls: seq<nat>): (r: Draw)
    requires GraphInv(rs)
    ensures r.Connected? ==> 2 <= r.used <= |rolls| && r.x < PLAY_ROOMS && r.y < PLAY_ROOMS
  {
    var k1 := FirstWithCapacity(rs, rolls, 0);
    if k1 < 0 then Exhausted
    else
      var x := rolls[k1] % PLAY_ROOMS;
      var k2 := FirstPartner(rs, x, rolls, k1 + 1);
      if k2 < 0 then Exhausted
      else Connected(x, rolls[k2] % PLAY_ROOMS, k2 + 1)
  }

  /** A connection FirstFit chooses joins two distinct rooms with spare
      capacity that are not yet connected. The draws run out exactly when no
      draw lands on a room with spare capacity, or every draw after the first
      one that does is rejected as its partner. */
  lemma FirstFitConnects(rs: seq<Room>, rolls: seq<nat>)
    requires GraphInv(rs)
    ensures var r := FirstFit(rs, rolls);
      r.Connected? ==>
        && r.x != r.y
        && CanAddConnectionFrom(rs[r.x]) && CanAddConnectionFrom(rs[r.y])
        && rs[r.x].neighbors[r.y] == 0
    ensures var k1 := FirstWithCapacity(rs, rolls, 0);
      FirstFit(rs, rolls).Exhausted? <==>
        k1 < 0 || forall e :: k1 < e < |rolls| ==> Rejected(rs, rolls[k1] % PLAY_ROOMS, rolls[e] % PLAY_ROOMS)
  {
    var k1 := FirstWithCapacity(rs, rolls, 0);
    FirstWithCapacityIsFirst(rs, rolls, 0);
    if k1 >= 0 {
      var x := rolls[k1] % PLAY_ROOMS;
      FirstPartnerIsFirst(rs, x, rolls, k1 + 1);
      var k2 := FirstPartner(rs, x, rolls, k1 + 1);
      if k2 >= 0 {
        var y := rolls[k2] % PLAY_ROOMS;
        GuardsUnderInvariant(rs, x, y);
      }
    }
  }

  /** A search over the draws after index `k1` is the search from `k1 + 1`
      over the whole stream, shifted. */
  lemma {:induction false} FirstPartnerShift(rs: seq<Room>, x: int, rolls: seq<nat>, k1: nat, from: nat)
    requires GraphInv(rs) && 0 <= x < PLAY_ROOMS && k1 < |rolls| && from <= |rolls| - (k1 + 1)
    ensures var k := FirstPartner(rs, x, rolls[k1 + 1..], from);
      var k' := FirstPartner(rs, x, rolls, k1 + 1 + from);
      (k < 0 <==> k' < 0) && (k >= 0 ==> k' == k1 + 1 + k)
    decreases |rolls| - from
  {
    var tail := rolls[k1 + 1..];
    if from < |tail| {
      assert tail[from] == rolls[k1 + 1 + from];
      FirstPartnerShift(rs, x, rolls, k1, from + 1);
    }
  }

  /** `AddRandomConnection`: draws a room with spare capacity, then a partner
      with spare capacity that is neither the same room nor already connected,
      and connects them in both directions. The outcome is FirstFit of the
      draws; the new table is Link of the old one on a connection, and the old
      one when the draws ran out. */
  method AddRandomConnection(rooms: array<Room>, rolls: seq<nat>) returns (d: Draw)
    requires rooms.Length == PLAY_ROOMS && GraphInv(rooms[..])
    modifies rooms
    ensures d == FirstFit(old(rooms[..]), rolls)
    ensures GraphInv(rooms[..]) && SameIdentities(old(rooms[..]), rooms[..])
    ensures d.Exhausted? ==> rooms[..] == old(rooms[..])
    ensures d.Connected? ==>
      && rooms[..] == Link(old(rooms[..]), d.x, d.y)
      && TotalDegree(rooms[..]) == TotalDegree(old(rooms[..])) + 2
  {
    ghost var before := rooms[..];
    var k1 := PickRoomWithCapacity(rooms, rolls);
    if k1 < 0 {
      return Exhausted;
    }
    var x := rolls[k1] % PLAY_ROOMS;
    var k2 := PickPartner(rooms, x, rolls[k1 + 1..]);
    FirstPartnerShift(before, x, rolls, k1, 0);
    if k2 < 0 {
      return Exhausted;
    }
    var y := rolls[k1 + 1..][k2] % PLAY_ROOMS;
    assert y == rolls[k1 + 1 + k2] % PLAY_ROOMS;
    d := Connected(x, y, k1 + 1 + k2 + 1);
    assert d == FirstFit(before, rolls);
    FirstFitConnects(before, rolls);
    LinkPreservesInvariant(before, x, y);
    ConnectTwiceIsLink(before, x, y);
    ConnectRoom(rooms, x, y);
    ConnectRoom(rooms, y, x);
  }

  /** The result of populating the rooms: whether the halting test held, the
      rooms, and the draws not consumed. */
  datatype Populated = Populated(full: bool, rooms: seq<Room>, rest: seq<nat>)

  /** `populateConnections` as a specification: stop when the halting test
      holds; otherwise add the connection FirstFit chooses and go on with the
      draws it left. Its properties are stated by PopulateKeepsInvariant,
      PopulateStops and PopulateRest. */
  function Populate(rs: seq<Room>, rolls: seq<nat>): Populated
    requires GraphInv(rs)
    decreases |rolls|
  {
    if FullRooms(rs) == PLAY_ROOMS - 1 then Populated(true, rs, rolls)
    else
      match FirstFit(rs, rolls)
      case Exhausted => Populated(false, rs, rolls)
      case Connected(x, y, used) =>
        FirstFitConnects(rs, rolls);
        LinkPreservesInvariant(rs, x, y);
        Populate(Link(rs, x, y), rolls[used..])
  }

  /** Populate keeps the graph invariant and every id, name and role, and
      never lowers the total degree. */
  lemma {:induction false} PopulateKeepsInvariant(rs: seq<Room>, rolls: seq<nat>)
    requires GraphInv(rs)
    ensures GraphInv(Populate(rs, rolls).rooms)
    ensures SameIdentities(rs, Populate(rs, rolls).rooms)
    ensures TotalDegree(Populate(rs, rolls).rooms) >= TotalDegree(rs)
    decreases |rolls|
  {
    if FullRooms(rs) != PLAY_ROOMS - 1 {
      PopulateUnfold(rs, rolls);
      var d := FirstFit(rs, rolls);
      if d.Connected? {
        FirstFitConnects(rs, rolls);
        LinkPreservesInvariant(rs, d.x, d.y);
        PopulateKeepsInvariant(Link(rs, d.x, d.y), rolls[d.used..]);
      }
    }
  }

  /** One step of Populate short of the halting test. */
  lemma PopulateUnfold(rs: seq<Room>, rolls: seq<nat>)
    requires GraphInv(rs) && FullRooms(rs) != PLAY_ROOMS - 1
    ensures var d := FirstFit(rs, rolls);
      && (d.Exhausted? ==> Populate(rs, rolls) == Populated(false, rs, rolls))
      && (d.Connected? ==>
            GraphInv(Link(rs, d.x, d.y)) &&
            Populate(rs, rolls) == Populate(Link(rs, d.x, d.y), rolls[d.used..]))
  {
    var d := FirstFit(rs, rolls);
    if d.Connected? {
      FirstFitConnects(rs, rolls);
      LinkPreservesInvariant(rs, d.x, d.y);
    }
  }

  /** A suffix of a suffix is a suffix. */
  lemma SuffixOfDrop<T>(s: seq<T>, k: nat, r: seq<T>)
    requires k <= |s| && |r| <= |s| - k && r == s[k..][|s| - k - |r|..]
    ensures r == s[|s| - |r|..]
  {
  }

  /** One connecting step of Populate, with the linked table given. */
  lemma PopulateStep(rs: seq<Room>, rolls: seq<nat>, rs': seq<Room>)
    requires GraphInv(rs) && GraphInv(rs') && FullRooms(rs) != PLAY_ROOMS - 1
    requires FirstFit(rs, rolls).Connected?
    requires rs' == Link(rs, FirstFit(rs, rolls).x, FirstFit(rs, rolls).y)
    ensures Populate(rs, rolls) == Populate(rs', rolls[FirstFit(rs, rolls).used..])
  {
    PopulateUnfold(rs, rolls);
  }

  /** Populate leaves a suffix of the draws. */
  lemma {:induction false} PopulateRest(rs: seq<Room>, rolls: seq<nat>)
    requires GraphInv(rs)
    ensures var p := Populate(rs, rolls);
      |p.rest| <= |rolls| && p.rest == rolls[|rolls| - |p.rest|..]
    decreases |rolls|
  {
    if FullRooms(rs) != PLAY_ROOMS - 1 {
      PopulateUnfold(rs, rolls);
      var d := FirstFit(rs, rolls);
      if d.Connected? {
        PopulateRest(Link(rs, d.x, d.y), rolls[d.used..]);
        SuffixOfDrop(rolls, d.used, Populate(rs, rolls).rest);
      }
    }
  }

  /** Populate is full exactly when the halting test holds, and stops short of
      full only when the draws it left can no longer produce a connection. */
  lemma {:induction false} PopulateStops(rs: seq<Room>, rolls: seq<nat>)
    requires GraphInv(rs)
    ensures var p := Populate(rs, rolls);
      && (p.full <==> FullRooms(p.rooms) == PLAY_ROOMS - 1)
      && (!p.full ==> GraphInv(p.rooms) && FirstFit(p.rooms, p.rest).Exhausted?)
    decreases |rolls|
  {
    if FullRooms(rs) != PLAY_ROOMS - 1 {
      PopulateUnfold(rs, rolls);
      var d := FirstFit(rs, rolls);
      if d.Connected? {
        PopulateStops(Link(rs, d.x, d.y), rolls[d.used..]);
      }
    }
  }

  /** `populateConnections`: adds connections until `isGraphFull`. Its result
      and its new table are those of Populate, so it keeps the invariant and
      the identities and returns the halting test. `left` is what remains of
      the `rand()` stream. */
  method PopulateConnections(rooms: array<Room>, rolls: seq<nat>) returns (full: bool)
    requires rooms.Length == PLAY_ROOMS && GraphInv(rooms[..])
    modifies rooms
    ensures full == Populate(old(rooms[..]), rolls).full
    ensures rooms[..] == Populate(old(rooms[..]), rolls).rooms
    ensures GraphInv(rooms[..]) && SameIdentities(old(rooms[..]), rooms[..])
    ensures full <==> FullRooms(rooms[..]) == PLAY_ROOMS - 1
    ensures TotalDegree(rooms[..]) >= TotalDegree(old(rooms[..]))
  {
    ghost var goal := Populate(rooms[..], rolls);
    var left := rolls;
    full := IsGraphFull(rooms);
    while !full
      invariant GraphInv(rooms[..])
      invariant full <==> FullRooms(rooms[..]) == PLAY_ROOMS - 1
      invariant Populate(rooms[..], left) == goal
      decreases |left|
    {
      ghost var before := rooms[..];
      var d := AddRandomConnection(rooms, left);
      if d.Exhausted? {
        PopulateUnfold(before, left);
        break;
      }
      PopulateStep(before, left, rooms[..]);
      left := left[d.used..];
      full := IsGraphFull(rooms);
    }
    assert goal == Populated(full, rooms[..], left);
    PopulateKeepsInvariant(old(rooms[..]), rolls);
  }

  /*------------------------------- writer -------------------------------*/

  /** The text `writeToDisk` prints for a role: a single word, and the only
      role whose name is `START_ROOM` (resp. `END_ROOM`) is the start (resp.
      end) room, which is what the reader relies on. */
  function TypeName(t: RoomType): (s: string)
    ensures IsWord(s)
    ensures s == "START_ROOM" <==> t == StartRoom
    ensures s == "END_ROOM" <==> t == EndRoom
  {
    match t
    case StartRoom => "START_ROOM"
    case EndRoom => "END_ROOM"
    case MidRoom => "MID_ROOM"
  }

  /** `ROOM NAME: <name>` */
  function NameLine(name: string): string {
    Line3("ROOM", "NAME:", name)
  }

  /** `CONNECTION <k>: <name>` */
  function ConnectionLine(k: nat, name: string): string {
    Line3("CONNECTION", NatToString(k) + ":", name)
  }

  /** `ROOM TYPE: <START_ROOM|END_ROOM|MID_ROOM>` */
  function TypeLine(t: RoomType): string {
    Line3("ROOM", "TYPE:", TypeName(t))
  }

  /** One connection line per id in `idx`, numbered from `k`. */
  function ConnectionLines(rs: seq<Room>, idx: seq<nat>, k: nat): seq<string>
    requires forall m :: 0 <= m < |idx| ==> idx[m] < |rs|
  {
    if idx == [] then [] else [ConnectionLine(k, rs[idx[0]].name)] + ConnectionLines(rs, idx[1..], k + 1)
  }

  /** The lines of room `i`'s record. */
  function RecordLines(rs: seq<Room>, i: int): seq<string>
    requires 0 <= i < |rs| && |rs[i].neighbors| <= |rs|
  {
    [NameLine(rs[i].name)] + ConnectionLines(rs, Adjacent(rs[i].neighbors), 1) + [TypeLine(rs[i].roomType)]
  }

  /** The text of room `i`'s file. */
  function Record(rs: seq<Room>, i: int): string
    requires 0 <= i < |rs| && |rs[i].neighbors| <= |rs|
  {
    Concat(RecordLines(rs, i))
  }

  lemma {:induction false} ConnectionLinesAt(rs: seq<Room>, idx: seq<nat>, k: nat)
    requires forall m :: 0 <= m < |idx| ==> idx[m] < |rs|
    ensures |ConnectionLines(rs, idx, k)| == |idx|
    ensures forall m :: 0 <= m < |idx| ==> ConnectionLines(rs, idx, k)[m] == ConnectionLine(k + m, rs[idx[m]].name)
    decreases |idx|
  {
    if idx != [] {
      var tail := ConnectionLines(rs, idx[1..], k + 1);
      ConnectionLinesAt(rs, idx[1..], k + 1);
      var all := [ConnectionLine(k, rs[idx[0]].name)] + tail;
      assert ConnectionLines(rs, idx, k) == all;
      forall m | 1 <= m < |idx| ensures all[m] == ConnectionLine(k + m, rs[idx[m]].name) {
        assert all[m] == tail[m - 1] && idx[1..][m - 1] == idx[m];
      }
    }
  }

  /** The layout of a record: the name line first; then, for k = 1 .. degree,
      the k-th line names the k-th neighbour in ascending id order; the role
      line last. */
  lemma RecordLayout(rs: seq<Room>, i: int)
    requires GraphInv(rs) && 0 <= i < PLAY_ROOMS
    ensures var ls, adj := RecordLines(rs, i), Adjacent(rs[i].neighbors);
      && |ls| == rs[i].numConnections + 2 && |adj| == rs[i].numConnections
      && ls[0] == NameLine(rs[i].name)
      && (forall k :: 1 <= k <= rs[i].numConnections ==> ls[k] == ConnectionLine(k, rs[adj[k - 1]].name))
      && (forall k, m :: 0 <= k < m < |adj| ==> adj[k] < adj[m])
      && (forall j :: 0 <= j < PLAY_ROOMS ==> (j in adj <==> rs[i].neighbors[j] == 1))
      && ls[|ls| - 1] == TypeLine(rs[i].roomType)
  {
    assert RoomInv(rs[i], i);
    RecordLinesShape(rs, i);
    AdjacentFromAscending(rs[i].neighbors, 0);
    AdjacentMembers(rs[i].neighbors);
  }

  /** The lines of a record, one by one, for any row. */
  lemma RecordLinesShape(rs: seq<Room>, i: int)
    requires 0 <= i < |rs| && |rs[i].neighbors| <= |rs|
    ensures var ls, adj := RecordLines(rs, i), Adjacent(rs[i].neighbors);
      && |ls| == |adj| + 2
      && ls[0] == NameLine(rs[i].name)
      && (forall k :: 1 <= k <= |adj| ==> ls[k] == ConnectionLine(k, rs[adj[k - 1]].name))
      && ls[|ls| - 1] == TypeLine(rs[i].roomType)
  {
    var adj := Adjacent(rs[i].neighbors);
    ConnectionLinesAt(rs, adj, 1);
    var cs := ConnectionLines(rs, adj, 1);
    var ls := RecordLines(rs, i);
    assert ls == [NameLine(rs[i].name)] + cs + [TypeLine(rs[i].roomType)];
    forall k | 1 <= k <= |adj| ensures ls[k] == ConnectionLine(k, rs[adj[k - 1]].name) {
      assert ls[k] == cs[k - 1];
    }
  }

  /** The ids Adjacent lists are exactly the set entries of a 0/1 row. */
  lemma AdjacentMembers(row: seq<int>)
    requires |row| == PLAY_ROOMS
    requires forall j :: 0 <= j < PLAY_ROOMS ==> row[j] == 0 || row[j] == 1
    ensures forall j :: 0 <= j < PLAY_ROOMS ==> (j in Adjacent(row) <==> row[j] == 1)
  {
    var adj := Adjacent(row);
    AdjacentFromComplete(row, 0);
    forall j | 0 <= j < PLAY_ROOMS ensures j in adj <==> row[j] == 1 {
      if j in adj {
        var k :| 0 <= k < |adj| && adj[k] == j;
        assert row[adj[k]] != 0;
      }
    }
  }

  /** One step of the writer's scan over a row. */
  lemma ConnectionLinesStep(rs: seq<Room>, row: seq<int>, j: nat, k: nat)
    requires j < |row| <= |rs|
    ensures ConnectionLines(rs, AdjacentFrom(row, j), k) ==
      if row[j] != 0 then [ConnectionLine(k, rs[j].name)] + ConnectionLines(rs, AdjacentFrom(row, j + 1), k + 1)
      else ConnectionLines(rs, AdjacentFrom(row, j + 1), k)
  {
    if row[j] != 0 {
      var idx := [j] + AdjacentFrom(row, j + 1);
      assert idx[0] == j && idx[1..] == AdjacentFrom(row, j + 1);
    }
  }

  /** What the writer still prints for room `i` once its scan has reached
      column `j` with `found` connection lines printed. */
  function Remaining(rs: seq<Room>, i: int, j: nat, found: nat): string
    requires 0 <= i < |rs| && j <= |rs[i].neighbors| <= |rs|
  {
    Concat(ConnectionLines(rs, AdjacentFrom(rs[i].neighbors, j), found + 1)) + TypeLine(rs[i].roomType)
  }

  /** One column of the writer's scan. */
  lemma RemainingStep(rs: seq<Room>, i: int, j: nat, found: nat)
    requires 0 <= i < |rs| && j < |rs[i].neighbors| <= |rs|
    ensures Remaining(rs, i, j, found) ==
      if rs[i].neighbors[j] != 0 then ConnectionLine(found + 1, rs[j].name) + Remaining(rs, i, j + 1, found + 1)
      else Remaining(rs, i, j + 1, found)
  {
    var row := rs[i].neighbors;
    ConnectionLinesStep(rs, row, j, found + 1);
    if row[j] != 0 {
      var l := ConnectionLine(found + 1, rs[j].name);
      var more := ConnectionLines(rs, AdjacentFrom(row, j + 1), found + 2);
      ConcatAppend([l], more);
      assert Concat([l]) == l + Concat([]);
      AppendAssoc(l, Concat(more), TypeLine(rs[i].roomType));
    }
  }

  /** A record is its name line followed by everything the scan prints. */
  lemma RecordStart(rs: seq<Room>, i: int)
    requires 0 <= i < |rs| && |rs[i].neighbors| <= |rs|
    ensures Record(rs, i) == NameLine(rs[i].name) + Remaining(rs, i, 0, 0)
  {
    var n, t := NameLine(rs[i].name), TypeLine(rs[i].roomType);
    var cl := ConnectionLines(rs, Adjacent(rs[i].neighbors), 1);
    ConcatAppend([n] + cl, [t]);
    ConcatAppend([n], cl);
    assert Concat([n]) == n + Concat([]);
    assert Concat([t]) == t + Concat([]);
    AppendAssoc(n, Concat(cl), t);
  }

  /** The record text `writeToDisk` prints for room `i`. */
  method FormatRecord(rooms: array<Room>, i: int) returns (text: string)
    requires rooms.Length == PLAY_ROOMS && 0 <= i < PLAY_ROOMS && |rooms[i].neighbors| == PLAY_ROOMS
    ensures text == Record(rooms[..], i)
  {
    ghost var rs := rooms[..];
    assert rs[i] == rooms[i];
    text := NameLine(rooms[i].name);
    RecordStart(rs, i);
    var j := 0;
    var found := 0;
    while j < PLAY_ROOMS
      invariant 0 <= j <= PLAY_ROOMS
      invariant text + Remaining(rs, i, j, found) == Record(rs, i)
    {
      var neighbor := rooms[i].neighbors[j];
      RemainingStep(rs, i, j, found);
      if neighbor != 0 {
        found := found + 1;
        assert rooms[j] == rs[j];
        var line := ConnectionLine(found, rooms[j].name);
        AppendAssoc(text, line, Remaining(rs, i, j + 1, found));
        text := text + line;
      }
      j := j + 1;
    }
    assert AdjacentFrom(rs[i].neighbors, j) == [];
    assert Remaining(rs, i, j, found) == TypeLine(rooms[i].roomType);
    text := text + TypeLine(rooms[i].roomType);
  }

  /** `writeToDisk` without the file system: one file per room, named after the
      room, holding its record. */
  method WriteToDisk(rooms: array<Room>) returns (files: seq<RoomFile>)
    requires rooms.Length == PLAY_ROOMS
    requires forall i :: 0 <= i < PLAY_ROOMS ==> |rooms[i].neighbors| == PLAY_ROOMS
    ensures |files| == PLAY_ROOMS
    ensures forall i :: 0 <= i < PLAY_ROOMS ==> files[i] == RoomFile(rooms[..][i].name, Record(rooms[..], i))
  {
    files := [];
    var i := 0;
    while i < PLAY_ROOMS
      invariant 0 <= i <= PLAY_ROOMS && |files| == i
      invariant forall k :: 0 <= k < i ==> files[k] == RoomFile(rooms[..][k].name, Record(rooms[..], k))
    {
      var text := FormatRecord(rooms, i);
      files := files + [RoomFile(rooms[i].name, text)];
      i := i + 1;
    }
  }

  /** Names and roles survive any change that keeps identities. */
  lemma IdentitiesKeepNamesAndRoles(rs: seq<Room>, rs': seq<Room>)
    requires SameIdentities(rs, rs') && NamesFromPool(rs) && RolesByPosition(rs)
    ensures NamesFromPool(rs') && RolesByPosition(rs')
  {
  }

  /** The rooms `main` produces from the draws: Populate of the initial table,
      over the draws the shuffle left. */
  function Generated(rolls: seq<nat>): Populated
    requires |rolls| >= PLAY_ROOMS - 1
  {
    InitialRoomsProperties(rolls);
    Populate(InitialRooms(RandomOrder(rolls)), rolls[PLAY_ROOMS - 1..])
  }

  /** `main` without `createDir`: initialise, populate, write. The rooms are
      Generated of the draws; they
      satisfy the graph invariant, carry distinct pool names and positional
      roles, `ok` is the halting test, and on success `files` are their
      records. */
  method Generate(rolls: seq<nat>) returns (ok: bool, rooms: seq<Room>, files: seq<RoomFile>)
    requires |rolls| >= PLAY_ROOMS - 1
    ensures ok == Generated(rolls).full && rooms == Generated(rolls).rooms
    ensures GraphInv(rooms) && NamesFromPool(rooms) && RolesByPosition(rooms)
    ensures ok <==> FullRooms(rooms) == PLAY_ROOMS - 1
    ensures ok ==> |files| == PLAY_ROOMS
    ensures ok ==> forall i :: 0 <= i < PLAY_ROOMS ==> files[i] == RoomFile(rooms[i].name, Record(rooms, i))
    ensures !ok ==> files == []
  {
    var myRooms := new Room[PLAY_ROOMS];
    InitRooms(myRooms, rolls);
    InitialRoomsProperties(rolls);
    ghost var initial := myRooms[..];
    ok := PopulateConnections(myRooms, rolls[PLAY_ROOMS - 1..]);
    rooms := myRooms[..];
    IdentitiesKeepNamesAndRoles(initial, rooms);
    if ok {
      forall i | 0 <= i < PLAY_ROOMS ensures |myRooms[i].neighbors| == PLAY_ROOMS {
        assert RoomInv(rooms[i], i);
      }
      files := WriteToDisk(myRooms);
    } else {
      files := [];
    }
  }
}
