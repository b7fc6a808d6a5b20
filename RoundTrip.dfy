/** How the two programs fit together: a record written by the generator is
    read back by the reader as the room it describes, and a directory of
    generated records, listed in any order, loads into a map whose start and
    end rooms are the generator's and whose accepted moves are exactly the
    generator's connections. */
module RoundTrip {
  import opened Text
  import B = BuildRooms
  import A = Adventure

  /*------------------------------ tokens ------------------------------*/

  /** A string of non-space characters is a word. */
  lemma WordOf(s: string)
    requires |s| > 0 && forall i :: 0 <= i < |s| ==> s[i] != ' ' && !('\t' <= s[i] <= '\r')
    ensures IsWord(s)
  {
  }

  /** Every name of the pool is a single token. */
  lemma PoolNamesAreWords()
    ensures forall k :: 0 <= k < B.MAX_ROOMS ==> IsWord(B.RoomNames[k])
  {
    forall k | 0 <= k < B.MAX_ROOMS ensures IsWord(B.RoomNames[k]) {
      WordOf(B.RoomNames[k]);
    }
  }

  /** Rooms named from the pool have single-token names. */
  lemma PoolRoomsAreWords(rs: seq<B.Room>)
    requires B.NamesFromPool(rs)
    ensures forall j :: 0 <= j < |rs| ==> IsWord(rs[j].name)
  {
    PoolNamesAreWords();
    forall j | 0 <= j < |rs| ensures IsWord(rs[j].name) {
      var k :| 0 <= k < B.PLAY_ROOMS && B.RoomNames[..B.PLAY_ROOMS][k] == rs[j].name;
      assert B.RoomNames[k] == rs[j].name;
    }
  }

  /** The fixed labels of a record, the role names and a connection number
      followed by ':' are single tokens. */
  lemma LabelsAreWords(k: nat, t: B.RoomType)
    ensures IsWord("ROOM") && IsWord("NAME:") && IsWord("TYPE:") && IsWord("CONNECTION")
    ensures IsWord(B.TypeName(t))
    ensures IsWord(NatToString(k) + ":")
  {
    WordOf("ROOM");
    WordOf("NAME:");
    WordOf("TYPE:");
    WordOf("CONNECTION");
    WordOf(B.TypeName(t));
    var n := NatToString(k);
    var s := n + ":";
    forall i | 0 <= i < |s| ensures !IsSpace(s[i]) {
      if i < |n| {
        assert s[i] == n[i];
      }
    }
  }

  /*------------------------------ one record ------------------------------*/

  /** Every line of a record is a complete line whose third token is the
      field it carries. */
  lemma RecordLinesAreLines(rs: seq<B.Room>, i: int)
    requires B.GraphInv(rs) && 0 <= i < B.PLAY_ROOMS
    requires forall j :: 0 <= j < |rs| ==> IsWord(rs[j].name)
    ensures var ls, adj := B.RecordLines(rs, i), B.Adjacent(rs[i].neighbors);
      && |ls| == |adj| + 2 && |adj| <= B.MAX_CONNECTIONS
      && (forall m :: 0 <= m < |ls| ==> IsLine(ls[m]))
      && ScanThird(ls[0], "") == rs[i].name
      && ScanThird(ls[|ls| - 1], "") == B.TypeName(rs[i].roomType)
      && (forall k :: 0 <= k < |adj| ==> ScanThird(ls[k + 1], "") == rs[adj[k]].name)
  {
    B.RecordLayout(rs, i);
    assert B.RoomInv(rs[i], i);
    var ls, adj := B.RecordLines(rs, i), B.Adjacent(rs[i].neighbors);
    var t := rs[i].roomType;
    LabelsAreWords(0, t);
    Line3IsLine("ROOM", "NAME:", rs[i].name);
    Line3Tokens("ROOM", "NAME:", rs[i].name);
    Line3IsLine("ROOM", "TYPE:", B.TypeName(t));
    Line3Tokens("ROOM", "TYPE:", B.TypeName(t));
    forall k | 0 <= k < |adj| ensures IsLine(ls[k + 1]) && ScanThird(ls[k + 1], "") == rs[adj[k]].name {
      LabelsAreWords(k + 1, t);
      Line3IsLine("CONNECTION", NatToString(k + 1) + ":", rs[adj[k]].name);
      Line3Tokens("CONNECTION", NatToString(k + 1) + ":", rs[adj[k]].name);
    }
    forall m | 0 <= m < |ls| ensures IsLine(ls[m]) {
      if 0 < m < |ls| - 1 {
        assert IsLine(ls[(m - 1) + 1]);
      }
    }
  }

  /** Reading back a generated record: `serialize` recovers the room's name,
      its role as text, its degree, and in the first slots the names of its
      neighbours in ascending id order; the remaining slots stay empty. */
  lemma RecordRoundTrip(rs: seq<B.Room>, i: int)
    requires B.GraphInv(rs) && 0 <= i < B.PLAY_ROOMS
    requires forall j :: 0 <= j < |rs| ==> IsWord(rs[j].name)
    ensures A.Readable(B.Record(rs, i))
    ensures var d, adj := A.Decode(B.Record(rs, i)), B.Adjacent(rs[i].neighbors);
      && d.name == rs[i].name
      && d.roomType == B.TypeName(rs[i].roomType)
      && d.numConnections == rs[i].numConnections == |adj|
      && (forall k :: 0 <= k < |adj| ==> d.connections[k] == rs[adj[k]].name)
      && (forall k :: |adj| <= k < A.PLAY_ROOMS ==> d.connections[k] == "")
  {
    var ls := B.RecordLines(rs, i);
    RecordLinesAreLines(rs, i);
    assert B.RoomInv(rs[i], i);
    LinesOfConcat(ls);
    assert Lines(B.Record(rs, i)) == ls;
  }

  /*------------------------------ a directory ------------------------------*/

  /** The facts a generated directory listed in the order `order` satisfies. */
  predicate GeneratedDirectory(rs: seq<B.Room>, order: seq<int>, files: seq<string>) {
    && B.GraphInv(rs) && B.NamesFromPool(rs) && B.RolesByPosition(rs)
    && |order| == A.PLAY_ROOMS && B.Distinct(order) && multiset(order) == multiset(B.Iota(B.PLAY_ROOMS))
    && |files| == A.PLAY_ROOMS
    && forall q :: 0 <= q < A.PLAY_ROOMS ==> 0 <= order[q] < B.PLAY_ROOMS && files[q] == B.Record(rs, order[q])
  }

  /** Every file of a generated directory is readable and decodes to the name
      and the role text of the room it was written for. */
  lemma GeneratedFilesDecode(rs: seq<B.Room>, order: seq<int>, files: seq<string>)
    requires GeneratedDirectory(rs, order, files)
    ensures forall q :: 0 <= q < A.PLAY_ROOMS ==> A.Readable(files[q])
    ensures forall q :: 0 <= q < A.PLAY_ROOMS ==>
      A.Decode(files[q]).name == rs[order[q]].name && A.Decode(files[q]).roomType == B.TypeName(B.RoleAt(order[q]))
  {
    PoolRoomsAreWords(rs);
    forall q | 0 <= q < A.PLAY_ROOMS ensures A.Readable(files[q]) && A.Decode(files[q]).name == rs[order[q]].name
      && A.Decode(files[q]).roomType == B.TypeName(B.RoleAt(order[q])) {
      RecordRoundTrip(rs, order[q]);
    }
  }

  /** The generated directory, its seven records listed in the order `order`
      (a rearrangement of the room ids), is readable, and decoding it gives
      the rooms in that order with the start room at START_ROOM's unique
      position and the end room at END_ROOM's. */
  lemma DirectoryLoads(rs: seq<B.Room>, order: seq<int>, files: seq<string>)
    requires GeneratedDirectory(rs, order, files)
    ensures forall q :: 0 <= q < A.PLAY_ROOMS ==> A.Readable(files[q])
    ensures var ds := A.DecodeAll(files);
      var s, e := A.LastTyped(ds, A.START_ROOM, -1), A.LastTyped(ds, A.END_ROOM, -1);
      && (forall q :: 0 <= q < A.PLAY_ROOMS ==> ds[q].name == rs[order[q]].name)
      && 0 <= s < A.PLAY_ROOMS && order[s] == 0
      && 0 <= e < A.PLAY_ROOMS && order[e] == B.PLAY_ROOMS - 1
  {
    GeneratedFilesDecode(rs, order, files);
    var ds := A.DecodeAll(files);
    assert B.Iota(B.PLAY_ROOMS)[0] == 0 && B.Iota(B.PLAY_ROOMS)[B.PLAY_ROOMS - 1] == B.PLAY_ROOMS - 1;
    assert 0 in multiset(order) && B.PLAY_ROOMS - 1 in multiset(order);
    var qs :| 0 <= qs < |order| && order[qs] == 0;
    var qe :| 0 <= qe < |order| && order[qe] == B.PLAY_ROOMS - 1;
    UniqueRole(ds, order, A.START_ROOM, B.StartRoom, qs, -1);
    UniqueRole(ds, order, A.END_ROOM, B.EndRoom, qe, -1);
  }

  /** The room decoded from position `q` offers, in its first slots, the
      names of the generated neighbours of room `order[q]` in ascending id. */
  lemma DecodedConnections(rs: seq<B.Room>, order: seq<int>, files: seq<string>, q: int)
    requires GeneratedDirectory(rs, order, files) && 0 <= q < A.PLAY_ROOMS
    ensures A.Readable(files[q])
    ensures var d, adj := A.Decode(files[q]), B.Adjacent(rs[order[q]].neighbors);
      && d.numConnections == |adj|
      && (forall k :: 0 <= k < |adj| ==> d.connections[k] == rs[adj[k]].name)
      && (forall j :: 0 <= j < B.PLAY_ROOMS ==> (j in adj <==> rs[order[q]].neighbors[j] == 1))
  {
    PoolRoomsAreWords(rs);
    RecordRoundTrip(rs, order[q]);
    assert B.RoomInv(rs[order[q]], order[q]);
    B.AdjacentMembers(rs[order[q]].neighbors);
  }

  /** On the map loaded from a generated directory, the game moves from
      position `q` to position `d` on token `t` exactly when `t` names room
      `d` and the generator connected the two rooms: every accepted move
      follows a connection, and every connection can be followed. */
  lemma MovesFollowConnections(rs: seq<B.Room>, order: seq<int>, files: seq<string>, q: int, d: int, t: string)
    requires GeneratedDirectory(rs, order, files)
    requires 0 <= q < A.PLAY_ROOMS && 0 <= d < A.PLAY_ROOMS
    ensures forall p :: 0 <= p < A.PLAY_ROOMS ==> A.Readable(files[p])
    ensures A.RoomsOk(A.DecodeAll(files))
    ensures var ds := A.DecodeAll(files);
      A.Destination(ds, q, t) == d <==> t == ds[d].name && rs[order[q]].neighbors[order[d]] == 1
  {
    GeneratedFilesDecode(rs, order, files);
    var ds := A.DecodeAll(files);
    assert A.RoomsOk(ds);
    if A.Destination(ds, q, t) == d {
      MoveIsConnection(rs, order, files, q, d, t);
    }
    if t == ds[d].name && rs[order[q]].neighbors[order[d]] == 1 {
      ConnectionIsMove(rs, order, files, q, d);
    }
  }

  /** Every accepted move follows a generated connection. */
  lemma MoveIsConnection(rs: seq<B.Room>, order: seq<int>, files: seq<string>, q: int, d: int, t: string)
    requires GeneratedDirectory(rs, order, files)
    requires 0 <= q < A.PLAY_ROOMS && 0 <= d < A.PLAY_ROOMS
    requires forall p :: 0 <= p < A.PLAY_ROOMS ==> A.Readable(files[p])
    requires A.RoomsOk(A.DecodeAll(files)) && A.Destination(A.DecodeAll(files), q, t) == d
    ensures t == A.DecodeAll(files)[d].name && rs[order[q]].neighbors[order[d]] == 1
  {
    var ds := A.DecodeAll(files);
    assert ds[q] == A.Decode(files[q]) && ds[d] == A.Decode(files[d]);
    assert ds[d].name == t;
    DecodedConnections(rs, order, files, q);
    DecodedName(rs, order, files, d);
    var adj := B.Adjacent(rs[order[q]].neighbors);
    var i :| 0 <= i < ds[q].numConnections && ds[q].connections[i] == t;
    assert rs[adj[i]].name == rs[order[d]].name;
    assert adj[i] == order[d];
  }

  /** The room decoded from position `p` carries the generated name. */
  lemma DecodedName(rs: seq<B.Room>, order: seq<int>, files: seq<string>, p: int)
    requires GeneratedDirectory(rs, order, files) && 0 <= p < A.PLAY_ROOMS
    ensures A.Readable(files[p]) && A.Decode(files[p]).name == rs[order[p]].name
  {
    PoolRoomsAreWords(rs);
    RecordRoundTrip(rs, order[p]);
  }

  /** Every generated connection can be followed by naming its far end. */
  lemma ConnectionIsMove(rs: seq<B.Room>, order: seq<int>, files: seq<string>, q: int, d: int)
    requires GeneratedDirectory(rs, order, files)
    requires 0 <= q < A.PLAY_ROOMS && 0 <= d < A.PLAY_ROOMS
    requires forall p :: 0 <= p < A.PLAY_ROOMS ==> A.Readable(files[p])
    requires A.RoomsOk(A.DecodeAll(files)) && rs[order[q]].neighbors[order[d]] == 1
    ensures A.Destination(A.DecodeAll(files), q, A.DecodeAll(files)[d].name) == d
  {
    GeneratedFilesDecode(rs, order, files);
    var ds := A.DecodeAll(files);
    var t := ds[d].name;
    DecodedConnections(rs, order, files, q);
    assert ds[q] == A.Decode(files[q]);
    var adj := B.Adjacent(rs[order[q]].neighbors);
    var i :| 0 <= i < |adj| && adj[i] == order[d];
    assert ds[q].connections[i] == t;
    assert A.Offered(ds[q], t);
    forall j | 0 <= j < A.PLAY_ROOMS && j != d ensures ds[j].name != t {
      assert order[j] != order[d];
    }
  }

  /** When exactly position `q` of the decoded rooms carries the text of role
      `r`, the assembly loop settles on `q`. */
  lemma UniqueRole(ds: seq<A.Room>, order: seq<int>, t: string, r: B.RoomType, q: int, prior: int)
    requires |order| == A.PLAY_ROOMS && B.Distinct(order) && |ds| == A.PLAY_ROOMS
    requires forall p :: 0 <= p < A.PLAY_ROOMS ==> 0 <= order[p] < B.PLAY_ROOMS
    requires forall p :: 0 <= p < A.PLAY_ROOMS ==> ds[p].roomType == B.TypeName(B.RoleAt(order[p]))
    requires t == B.TypeName(r) && (r == B.StartRoom || r == B.EndRoom)
    requires 0 <= q < A.PLAY_ROOMS && B.RoleAt(order[q]) == r
    ensures A.LastTyped(ds, t, prior) == q
  {
    A.LastTypedIsLast(ds, t, prior);
    forall p | 0 <= p < A.PLAY_ROOMS && p != q ensures ds[p].roomType != t {
      assert order[p] != order[q];
      assert B.RoleAt(order[p]) != r;
      RoleNamesDiffer(B.RoleAt(order[p]), r);
    }
  }

  /** Different roles are written as different words. */
  lemma RoleNamesDiffer(r1: B.RoomType, r2: B.RoomType)
    requires r1 != r2
    ensures B.TypeName(r1) != B.TypeName(r2)
  {
    assert B.TypeName(r1)[0] != B.TypeName(r2)[0] || |B.TypeName(r1)| != |B.TypeName(r2)|;
  }
}
