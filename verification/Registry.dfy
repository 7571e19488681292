/** The three indexes of the connections of one server instance, and the one relation that they
    must agree with: which player, and optionally which room, each live connection has. */
module Registry {
  import opened Wrappers

  type PlayerId = string
  type ConnId = string
  type RoomId = string

  datatype Conn = Conn(player: PlayerId, room: Option<RoomId>)

  datatype Indexes = Indexes(
    conns: map<ConnId, Conn>,
    players: map<PlayerId, ConnId>,
    rooms: map<RoomId, set<ConnId>>)

  const NOTHING := Indexes(map[], map[], map[])

  // ---- The relation ----

  ghost function Members(conns: map<ConnId, Conn>, room: RoomId): set<ConnId> {
    set c | c in conns && conns[c].room == Some(room)
  }

  /** rooms is exactly the inverse image of the room ids, without empty sets. */
  ghost predicate RoomsAgree(conns: map<ConnId, Conn>, rooms: map<RoomId, set<ConnId>>) {
    && (forall room :: room in rooms ==> rooms[room] == Members(conns, room) && rooms[room] != {})
    && (forall c :: c in conns && conns[c].room.Some? ==> conns[c].room.value in rooms)
  }

  /** Every player entry points to a live connection of that player. */
  ghost predicate PlayersAgree(conns: map<ConnId, Conn>, players: map<PlayerId, ConnId>) {
    forall p :: p in players ==> players[p] in conns && conns[players[p]].player == p
  }

  ghost predicate Agree(x: Indexes) {
    RoomsAgree(x.conns, x.rooms) && PlayersAgree(x.conns, x.players)
  }

  /** No live connection is in the room with the empty name. */
  ghost predicate NamedRooms(conns: map<ConnId, Conn>) {
    forall c :: c in conns ==> conns[c].room != Some("")
  }

  /** The rooms index is determined by the connections. */
  lemma RoomsDetermined(conns: map<ConnId, Conn>, a: map<RoomId, set<ConnId>>, b: map<RoomId, set<ConnId>>)
    requires RoomsAgree(conns, a) && RoomsAgree(conns, b)
    ensures a == b
  {
    forall room
      ensures room in a <==> room in b
    {
      if room in a {
        var c :| c in a[room];
      }
      if room in b {
        var c :| c in b[room];
      }
    }
  }

  // ---- The operations, as the code performs them ----

  /** Discards a connection from a room's member set, and the set itself once empty. */
  function Discard(rooms: map<RoomId, set<ConnId>>, room: RoomId, c: ConnId): map<RoomId, set<ConnId>> {
    if room !in rooms then rooms
    else if rooms[room] - {c} == {} then rooms - {room}
    else rooms[room := rooms[room] - {c}]
  }

  function Register(x: Indexes, c: ConnId, p: PlayerId): Indexes {
    x.(conns := x.conns[c := Conn(p, None)], players := x.players[p := c])
  }

  /** An empty room id counts as no room here. */
  function Disconnect(x: Indexes, c: ConnId): Indexes {
    if c !in x.conns then x
    else
      var info := x.conns[c];
      Indexes(
        x.conns - {c},
        if info.player in x.players && x.players[info.player] == c then x.players - {info.player} else x.players,
        if info.room.Some? && info.room.value != "" then Discard(x.rooms, info.room.value, c) else x.rooms)
  }

  function Leave(x: Indexes, c: ConnId): Indexes {
    if c !in x.conns || x.conns[c].room.None? then x
    else
      x.(conns := x.conns[c := x.conns[c].(room := None)], rooms := Discard(x.rooms, x.conns[c].room.value, c))
  }

  function Enter(x: Indexes, c: ConnId, room: RoomId): Indexes
    requires c in x.conns
  {
    x.(conns := x.conns[c := x.conns[c].(room := Some(room))],
       rooms := x.rooms[room := GetOr(x.rooms, room, {}) + {c}])
  }

  /** The old room is left first, unless it is the same one or has the empty name. */
  function Join(x: Indexes, c: ConnId, room: RoomId): Indexes {
    if c !in x.conns then x
    else
      var current := x.conns[c].room;
      Enter(if current.Some? && current.value != "" && current.value != room then Leave(x, c) else x, c, room)
  }

  predicate InUnnamedRoom(x: Indexes, c: ConnId) {
    c in x.conns && x.conns[c].room == Some("")
  }

  // ---- Each operation keeps the indexes in agreement ----

  lemma RegisterAgrees(x: Indexes, c: ConnId, p: PlayerId)
    requires Agree(x) && c !in x.conns
    ensures Agree(Register(x, c, p))
  {
    var y := Register(x, c, p);
    forall room
      ensures Members(y.conns, room) == Members(x.conns, room)
    {
    }
  }

  lemma DiscardAgrees(conns: map<ConnId, Conn>, rooms: map<RoomId, set<ConnId>>, room: RoomId, c: ConnId,
                      conns': map<ConnId, Conn>)
    requires RoomsAgree(conns, rooms) && c in conns && conns[c].room == Some(room)
    requires c in conns' ==> conns'[c].room == None
    requires conns'.Keys + {c} == conns.Keys
    requires forall d :: d in conns && d != c ==> d in conns' && conns'[d] == conns[d]
    ensures RoomsAgree(conns', Discard(rooms, room, c))
  {
    forall other
      ensures Members(conns', other) == if other == room then Members(conns, other) - {c} else Members(conns, other)
    {
    }
    forall d | d in conns' && conns'[d].room.Some?
      ensures d != c && d in Members(conns', conns'[d].room.value)
    {
    }
  }

  lemma LeaveAgrees(x: Indexes, c: ConnId)
    requires Agree(x)
    ensures Agree(Leave(x, c))
  {
    if c in x.conns && x.conns[c].room.Some? {
      DiscardAgrees(x.conns, x.rooms, x.conns[c].room.value, c, Leave(x, c).conns);
    }
  }

  lemma EnterAgrees(x: Indexes, c: ConnId, room: RoomId)
    requires Agree(x) && c in x.conns && (x.conns[c].room == None || x.conns[c].room == Some(room))
    ensures Agree(Enter(x, c, room))
  {
    var conns' := Enter(x, c, room).conns;
    assert room !in x.rooms ==> Members(x.conns, room) == {};
    forall other
      ensures Members(conns', other) == if other == room then Members(x.conns, other) + {c} else Members(x.conns, other)
    {
    }
  }

  /** Joining keeps the rooms index right exactly when the connection does not come from the room
      with the empty name, where it would stay behind as a member. */
  lemma JoinAgreesIff(x: Indexes, c: ConnId, room: RoomId)
    requires Agree(x)
    ensures Agree(Join(x, c, room)) <==> !(InUnnamedRoom(x, c) && room != "")
  {
    if c in x.conns {
      var current, y := x.conns[c].room, Join(x, c, room);
      if current == Some("") && room != "" {
        assert c in y.rooms[""] && c !in Members(y.conns, "");
      } else if current.Some? && current.value != room {
        LeaveAgrees(x, c);
        EnterAgrees(Leave(x, c), c, room);
      } else {
        EnterAgrees(x, c, room);
      }
    }
  }

  /** Disconnecting keeps the rooms index right exactly when the connection is not in the room with
      the empty name: from there it would stay behind as a member. */
  lemma DisconnectAgreesIff(x: Indexes, c: ConnId)
    requires Agree(x)
    ensures Agree(Disconnect(x, c)) <==> !InUnnamedRoom(x, c)
  {
    if c in x.conns {
      var y := Disconnect(x, c);
      var info := x.conns[c];
      assert PlayersAgree(y.conns, y.players);
      if info.room == Some("") {
        assert c in y.rooms[""] && c !in Members(y.conns, "");
      } else if info.room.Some? {
        DiscardAgrees(x.conns, x.rooms, info.room.value, c, y.conns);
      } else {
        forall room
          ensures Members(y.conns, room) == Members(x.conns, room)
        {
        }
      }
    }
  }

  // ---- Listings and broadcasts ----

  ghost function ConnsOf(conns: map<ConnId, Conn>, cs: set<ConnId>, p: PlayerId): set<ConnId>
    requires cs <= conns.Keys
  {
    set c | c in cs && conns[c].player == p
  }

  /** ids holds the player of each given connection, one entry per connection. */
  ghost predicate ListsPlayers(conns: map<ConnId, Conn>, cs: set<ConnId>, ids: seq<PlayerId>)
    requires cs <= conns.Keys
  {
    forall p :: multiset(ids)[p] == |ConnsOf(conns, cs, p)|
  }

  lemma ListOneMore(conns: map<ConnId, Conn>, cs: set<ConnId>, ids: seq<PlayerId>, c: ConnId)
    requires cs <= conns.Keys && ListsPlayers(conns, cs, ids) && c in conns && c !in cs
    ensures ListsPlayers(conns, cs + {c}, ids + [conns[c].player])
  {
    forall p
      ensures multiset(ids + [conns[c].player])[p] == |ConnsOf(conns, cs + {c}, p)|
    {
      assert multiset(ids)[p] == |ConnsOf(conns, cs, p)|;
      if conns[c].player == p {
        assert ConnsOf(conns, cs + {c}, p) == ConnsOf(conns, cs, p) + {c};
      } else {
        assert ConnsOf(conns, cs + {c}, p) == ConnsOf(conns, cs, p);
      }
    }
  }

  /** The player entries left when some connections are gone: those that point elsewhere. */
  ghost predicate EntriesWithout(before: map<PlayerId, ConnId>, gone: set<ConnId>, after: map<PlayerId, ConnId>) {
    forall p :: (p in after <==> p in before && before[p] !in gone) && (p in after ==> after[p] == before[p])
  }

  ghost function Targets(conns: map<ConnId, Conn>, room: RoomId, excluded: Option<PlayerId>): set<ConnId> {
    set c | c in Members(conns, room) && Some(conns[c].player) != excluded
  }

  ghost function Reached(cs: set<ConnId>, delivers: ConnId -> bool): set<ConnId> {
    set c | c in cs && delivers(c)
  }

  ghost function Missed(cs: set<ConnId>, delivers: ConnId -> bool): set<ConnId> {
    set c | c in cs && !delivers(c)
  }

  lemma NobodyYet(targets: set<ConnId>, todo: set<ConnId>, delivers: ConnId -> bool)
    requires todo == targets
    ensures Reached(targets - todo, delivers) == {} && Missed(targets - todo, delivers) == {}
  {
  }

  lemma OneMore(targets: set<ConnId>, todo: set<ConnId>, c: ConnId, delivers: ConnId -> bool)
    requires c in todo && todo <= targets
    ensures |Reached(targets - (todo - {c}), delivers)|
      == |Reached(targets - todo, delivers)| + (if delivers(c) then 1 else 0)
    ensures Missed(targets - (todo - {c}), delivers)
      == Missed(targets - todo, delivers) + (if delivers(c) then {} else {c})
    ensures c !in Missed(targets - todo, delivers)
  {
    assert targets - (todo - {c}) == (targets - todo) + {c};
    AddOne(targets - todo, c, delivers);
  }

  lemma AddOne(done: set<ConnId>, c: ConnId, delivers: ConnId -> bool)
    requires c !in done
    ensures |Reached(done + {c}, delivers)| == |Reached(done, delivers)| + (if delivers(c) then 1 else 0)
    ensures Missed(done + {c}, delivers) == Missed(done, delivers) + (if delivers(c) then {} else {c})
  {
    if delivers(c) {
      assert Reached(done + {c}, delivers) == Reached(done, delivers) + {c};
    } else {
      assert Reached(done + {c}, delivers) == Reached(done, delivers);
    }
  }

  // ---- The connection manager ----

  class ConnectionManager {
    var connections: map<ConnId, Conn>
    var playerConnections: map<PlayerId, ConnId>
    var roomMembers: map<RoomId, set<ConnId>>

    ghost function Value(): Indexes
      reads this
    {
      Indexes(connections, playerConnections, roomMembers)
    }

    /** The indexes agree, and all rooms have a name. */
    ghost predicate Valid()
      reads this
    {
      Agree(Value()) && NamedRooms(connections)
    }

    constructor ()
      ensures Valid() && Value() == NOTHING
    {
      connections, playerConnections, roomMembers := map[], map[], map[];
    }

    /** The registration at the end of connect. */
    method RegisterConnection(c: ConnId, p: PlayerId)
      modifies this
      ensures Value() == Register(old(Value()), c, p)
      ensures connections == old(connections)[c := Conn(p, None)]
      ensures playerConnections == old(playerConnections)[p := c] && roomMembers == old(roomMembers)
      ensures old(Valid()) && c !in old(connections) ==> Valid()
    {
      connections := connections[c := Conn(p, None)];
      playerConnections := playerConnections[p := c];
      if old(Valid()) && c !in old(connections) {
        RegisterAgrees(old(Value()), c, p);
      }
    }

    method DisconnectConnection(c: ConnId) returns (info: Option<Conn>)
      modifies this
      ensures Value() == Disconnect(old(Value()), c)
      ensures connections == old(connections) - {c}
      ensures old(Valid()) ==> EntriesWithout(old(playerConnections), {c}, playerConnections)
      ensures info == if c in old(connections) then Some(old(connections)[c]) else None
      ensures old(Valid()) ==> Valid()
    {
      if c !in connections {
        return None;
      }
      var conn := connections[c];
      connections := connections - {c};
      if conn.player in playerConnections && playerConnections[conn.player] == c {
        playerConnections := playerConnections - {conn.player};
      }
      if conn.room.Some? && conn.room.value != "" {
        DiscardMember(conn.room.value, c);
      }
      if old(Valid()) {
        DisconnectAgreesIff(old(Value()), c);
      }
      return Some(conn);
    }

    /** Removes a connection from a room's set, and an empty set from the index. */
    method DiscardMember(room: RoomId, c: ConnId)
      modifies this`roomMembers
      ensures roomMembers == Discard(old(roomMembers), room, c)
    {
      if room in roomMembers {
        var members := roomMembers[room] - {c};
        roomMembers := roomMembers[room := members];
        if members == {} {
          roomMembers := roomMembers - {room};
        }
      }
    }

    method LeaveRoom(c: ConnId)
      modifies this
      ensures Value() == Leave(old(Value()), c)
      ensures connections == if c in old(connections) then old(connections)[c := Conn(old(connections)[c].player, None)]
        else old(connections)
      ensures playerConnections == old(playerConnections)
      ensures old(Valid()) ==> Valid()
    {
      if c !in connections || connections[c].room.None? {
        return;
      }
      var room := connections[c].room.value;
      connections := connections[c := connections[c].(room := None)];
      DiscardMember(room, c);
      if old(Valid()) {
        LeaveAgrees(old(Value()), c);
      }
    }

    method JoinRoom(c: ConnId, room: RoomId)
      modifies this
      ensures Value() == Join(old(Value()), c, room)
      ensures c in old(connections) ==>
        && connections == old(connections)[c := Conn(old(connections)[c].player, Some(room))]
        && room in roomMembers && c in roomMembers[room]
      ensures c !in old(connections) ==> Value() == old(Value())
      ensures playerConnections == old(playerConnections)
      ensures old(Valid()) && room != "" ==> Valid()
    {
      if c !in connections {
        return;
      }
      var current := connections[c].room;
      if current.Some? && current.value != "" && current.value != room {
        LeaveRoom(c);
      }
      EnterRoom(c, room);
      if old(Valid()) {
        JoinAgreesIff(old(Value()), c, room);
      }
    }

    method EnterRoom(c: ConnId, room: RoomId)
      requires c in connections
      modifies this
      ensures Value() == Enter(old(Value()), c, room)
    {
      connections := connections[c := connections[c].(room := Some(room))];
      if room !in roomMembers {
        roomMembers := roomMembers[room := {}];
      }
      roomMembers := roomMembers[room := roomMembers[room] + {c}];
    }

    /** The players of the connections in a room, one entry per connection. */
    method GetRoomMemberIds(room: RoomId) returns (ids: seq<PlayerId>)
      requires Valid()
      ensures forall p ::
        multiset(ids)[p] == |set c | c in connections && connections[c] == Conn(p, Some(room))|
    {
      var members := if room in roomMembers then roomMembers[room] else {};
      assert members == Members(connections, room);
      ids := ListPlayers(members);
      forall p
        ensures ConnsOf(connections, members, p)
          == set c | c in connections && connections[c] == Conn(p, Some(room))
      {
      }
    }

    method ListPlayers(members: set<ConnId>) returns (ids: seq<PlayerId>)
      requires members <= connections.Keys
      ensures ListsPlayers(connections, members, ids)
    {
      var todo := members;
      ids := [];
      ghost var done := {};
      while todo != {}
        invariant todo !! done && todo + done == members
        invariant ListsPlayers(connections, done, ids)
        decreases todo
      {
        var c :| c in todo;
        ListOneMore(connections, done, ids, c);
        ids := ids + [connections[c].player];
        done := done + {c};
        todo := todo - {c};
      }
      assert done == members;
    }

    /** Sends to every member of the room except the excluded player. A send that fails, as `delivers`
        tells, removes its connection; no other connection is touched. */
    method BroadcastToRoom(room: RoomId, excluded: Option<PlayerId>, delivers: ConnId -> bool) returns (sent: nat)
      requires Valid()
      modifies this
      ensures Valid()
      ensures var missed := set c | c in old(connections) && old(connections)[c].room == Some(room)
          && excluded != Some(old(connections)[c].player) && !delivers(c);
        connections == old(connections) - missed && EntriesWithout(old(playerConnections), missed, playerConnections)
      ensures sent == |set c | c in old(connections) && old(connections)[c].room == Some(room)
          && excluded != Some(old(connections)[c].player) && delivers(c)|
    {
      var members := if room in roomMembers then roomMembers[room] else {};
      var targets := set c | c in members && Some(connections[c].player) != excluded;
      assert targets == Targets(connections, room, excluded);
      sent := SendToAll(targets, delivers);
      assert Missed(targets, delivers) == set c | c in old(connections) && old(connections)[c].room == Some(room)
        && excluded != Some(old(connections)[c].player) && !delivers(c);
      assert Reached(targets, delivers) == set c | c in old(connections) && old(connections)[c].room == Some(room)
        && excluded != Some(old(connections)[c].player) && delivers(c);
    }

    method SendToAll(targets: set<ConnId>, delivers: ConnId -> bool) returns (sent: nat)
      requires Valid() && targets <= connections.Keys
      modifies this
      ensures Valid()
      ensures sent == |Reached(targets, delivers)|
      ensures connections == old(connections) - Missed(targets, delivers)
      ensures EntriesWithout(old(playerConnections), Missed(targets, delivers), playerConnections)
    {
      var todo := targets;
      sent := 0;
      NobodyYet(targets, todo, delivers);
      while todo != {}
        invariant Valid() && todo <= targets
        invariant sent == |Reached(targets - todo, delivers)|
        invariant connections == old(connections) - Missed(targets - todo, delivers)
        invariant EntriesWithout(old(playerConnections), Missed(targets - todo, delivers), playerConnections)
        decreases todo
      {
        var c :| c in todo;
        OneMore(targets, todo, c, delivers);
        var delivered := SendToConnection(c, delivers(c));
        sent := sent + (if delivered then 1 else 0);
        todo := todo - {c};
      }
      assert targets - todo == targets;
    }

    /** _send_to_connection to a live connection: a failed send removes it. */
    method SendToConnection(c: ConnId, delivers: bool) returns (delivered: bool)
      requires Valid()
      modifies this
      ensures Valid()
      ensures delivered ==> c in old(connections) && delivers && Value() == old(Value())
      ensures !delivered ==> connections == old(connections) - {c}
      ensures !delivered ==> EntriesWithout(old(playerConnections), {c}, playerConnections)
      ensures !delivered ==> Value() == Disconnect(old(Value()), c)
      ensures delivers && c in old(connections) ==> delivered
    {
      if c !in connections {
        return false;
      }
      delivered := delivers;
      if !delivered {
        var info := DisconnectConnection(c);
      }
    }

    /** close_all with nothing interleaved empties all three indexes. */
    method CloseAll()
      requires Valid()
      modifies this
      ensures Value() == NOTHING
    {
      var todo := connections.Keys;
      while todo != {}
        invariant Valid() && connections.Keys <= todo
        decreases todo
      {
        var c :| c in todo;
        var info := DisconnectConnection(c);
        todo := todo - {c};
      }
      EmptyAgrees(Value());
    }
  }

  /** Agreeing indexes without connections are empty. */
  lemma EmptyAgrees(x: Indexes)
    requires Agree(x) && x.conns.Keys == {}
    ensures x == NOTHING
  {
    forall room
      ensures room !in x.rooms
    {
      assert Members(x.conns, room) == {};
    }
    assert x.conns == map[] && x.players == map[];
  }
}
