/** The connection registry under every interleaving: a step is the code between two awaits. Failed
    sends, slow consumers, forced closes and shutdown all come down to a disconnect at some later
    point, which may happen to any connection at any time. */
module RegistryRuns {
  import opened Wrappers
  import opened Registry

  /** A connect call that is waiting: for the eviction of an old connection, or for the accept. */
  datatype Connecting = Connecting(player: PlayerId, evicting: Option<ConnId>)

  datatype System = System(
    x: Indexes,
    used: set<ConnId>,                 // connection ids handed out so far
    connects: map<ConnId, Connecting>,
    latest: map<PlayerId, ConnId>)     // history: the connection each player registered last

  datatype Step =
    | BeginConnect(player: PlayerId, conn: ConnId)
    | Evict(conn: ConnId)
    | FinishConnect(conn: ConnId)
    | AbortConnect(conn: ConnId)
    | DoDisconnect(conn: ConnId)
    | DoJoin(conn: ConnId, room: RoomId)
    | DoLeave(conn: ConnId)

  predicate Enabled(s: System, step: Step) {
    match step
    case BeginConnect(_, c) => c !in s.used
    case Evict(c) => c in s.connects && s.connects[c].evicting.Some?
    case FinishConnect(c) => c in s.connects && s.connects[c].evicting.None?
    case AbortConnect(c) => c in s.connects
    case _ => true
  }

  function Apply(s: System, step: Step): System
    requires Enabled(s, step)
  {
    match step
    case BeginConnect(p, c) =>
      var existing := if p in s.x.players && s.x.players[p] in s.x.conns then Some(s.x.players[p]) else None;
      s.(used := s.used + {c}, connects := s.connects[c := Connecting(p, existing)])
    case Evict(c) =>
      s.(x := Disconnect(s.x, s.connects[c].evicting.value),
         connects := s.connects[c := Connecting(s.connects[c].player, None)])
    case FinishConnect(c) =>
      var p := s.connects[c].player;
      s.(x := Register(s.x, c, p), connects := s.connects - {c}, latest := s.latest[p := c])
    case AbortConnect(c) => s.(connects := s.connects - {c})
    case DoDisconnect(c) => s.(x := Disconnect(s.x, c))
    case DoJoin(c, room) => s.(x := Join(s.x, c, room))
    case DoLeave(c) => s.(x := Leave(s.x, c))
  }

  const INITIAL := System(NOTHING, {}, map[], map[])

  ghost predicate Reaches(s: System, steps: seq<Step>, s': System)
    decreases |steps|
  {
    if steps == [] then s' == s
    else Enabled(s, steps[0]) && Reaches(Apply(s, steps[0]), steps[1..], s')
  }

  // ---- Agreement ----

  /** Every player entry points to a live connection of that player, and ids are used once. */
  ghost predicate Consistent(s: System) {
    && PlayersAgree(s.x.conns, s.x.players)
    && s.x.conns.Keys <= s.used && s.connects.Keys <= s.used
    && s.x.conns.Keys !! s.connects.Keys
  }

  lemma StepConsistent(s: System, step: Step)
    requires Consistent(s) && Enabled(s, step)
    ensures Consistent(Apply(s, step))
  {
    match step
    case DoJoin(c, room) => MoveKeepsPlayers(s.x, c, room);
    case DoLeave(c) => MoveKeepsPlayers(s.x, c, "");
    case _ =>
  }

  /** Moving between rooms changes neither who is live nor who they are. */
  lemma MoveKeepsPlayers(x: Indexes, c: ConnId, room: RoomId)
    ensures forall y :: y == Leave(x, c) || y == Join(x, c, room) ==>
      && y.conns.Keys == x.conns.Keys && y.players == x.players
      && forall d :: d in x.conns ==> y.conns[d].player == x.conns[d].player
  {
  }

  lemma {:induction false} RunConsistent(s: System, steps: seq<Step>, s': System)
    requires Consistent(s) && Reaches(s, steps, s')
    ensures Consistent(s')
    decreases |steps|
  {
    if steps != [] {
      StepConsistent(s, steps[0]);
      RunConsistent(Apply(s, steps[0]), steps[1..], s');
    }
  }

  /** The step takes a connection out of the room with the empty name other than by leaving it. */
  predicate LeavesBehind(s: System, step: Step)
    requires Enabled(s, step)
  {
    match step
    case Evict(c) => InUnnamedRoom(s.x, s.connects[c].evicting.value)
    case DoDisconnect(c) => InUnnamedRoom(s.x, c)
    case DoJoin(c, room) => InUnnamedRoom(s.x, c) && room != ""
    case _ => false
  }

  lemma StepAgreesIff(s: System, step: Step)
    requires Consistent(s) && Agree(s.x) && Enabled(s, step)
    ensures Agree(Apply(s, step).x) <==> !LeavesBehind(s, step)
  {
    match step
    case Evict(c) => DisconnectAgreesIff(s.x, s.connects[c].evicting.value);
    case FinishConnect(c) => RegisterAgrees(s.x, c, s.connects[c].player);
    case DoDisconnect(c) => DisconnectAgreesIff(s.x, c);
    case DoJoin(c, room) => JoinAgreesIff(s.x, c, room);
    case DoLeave(c) => LeaveAgrees(s.x, c);
    case _ =>
  }

  /** The indexes agree at every await boundary of the run. */
  ghost predicate AgreesThroughout(s: System, steps: seq<Step>)
    decreases |steps|
  {
    Agree(s.x) && (steps != [] && Enabled(s, steps[0]) ==> AgreesThroughout(Apply(s, steps[0]), steps[1..]))
  }

  ghost predicate Tidy(s: System, steps: seq<Step>)
    decreases |steps|
  {
    steps != [] && Enabled(s, steps[0]) ==> !LeavesBehind(s, steps[0]) && Tidy(Apply(s, steps[0]), steps[1..])
  }

  lemma {:induction false} RunAgreesIff(s: System, steps: seq<Step>, s': System)
    requires Consistent(s) && Agree(s.x) && Reaches(s, steps, s')
    ensures AgreesThroughout(s, steps) <==> Tidy(s, steps)
    ensures Tidy(s, steps) ==> Agree(s'.x)
    decreases |steps|
  {
    if steps != [] {
      StepConsistent(s, steps[0]);
      StepAgreesIff(s, steps[0]);
      if !LeavesBehind(s, steps[0]) {
        RunAgreesIff(Apply(s, steps[0]), steps[1..], s');
      }
    }
  }

  /** In every interleaving every player entry points to a live connection of that player, and all
      three indexes agree at every await boundary exactly when nobody disconnects from the room with
      the empty name, or joins another room from there. */
  lemma IndexesAgreeIff(steps: seq<Step>, s: System)
    requires Reaches(INITIAL, steps, s)
    ensures PlayersAgree(s.x.conns, s.x.players)
    ensures AgreesThroughout(INITIAL, steps) <==> Tidy(INITIAL, steps)
  {
    RunConsistent(INITIAL, steps, s);
    RunAgreesIff(INITIAL, steps, s);
  }

  /** All rooms that are joined have a name. */
  predicate NamesRooms(steps: seq<Step>) {
    steps == [] || (!(steps[0].DoJoin? && steps[0].room == "") && NamesRooms(steps[1..]))
  }

  lemma {:induction false} NamedIsTidy(s: System, steps: seq<Step>, s': System)
    requires NamedRooms(s.x.conns) && NamesRooms(steps) && Reaches(s, steps, s')
    ensures Tidy(s, steps)
    decreases |steps|
  {
    if steps != [] {
      NamedIsTidy(Apply(s, steps[0]), steps[1..], s');
    }
  }

  /** So when all rooms have a name the indexes agree at every await boundary. */
  lemma IndexesAgree(steps: seq<Step>, s: System)
    requires Reaches(INITIAL, steps, s) && NamesRooms(steps)
    ensures AgreesThroughout(INITIAL, steps) && Agree(s.x)
  {
    NamedIsTidy(INITIAL, steps, s);
    RunAgreesIff(INITIAL, steps, s);
  }

  // ---- What a live connection is ----

  function RoomNext(step: Step, c: ConnId, room: Option<RoomId>): Option<RoomId> {
    if step.DoJoin? && step.conn == c then Some(step.room)
    else if step == DoLeave(c) || step == FinishConnect(c) then None
    else room
  }

  /** The room that the steps put c into last. */
  function RoomAfter(steps: seq<Step>, c: ConnId, room: Option<RoomId>): Option<RoomId> {
    if steps == [] then room else RoomAfter(steps[1..], c, RoomNext(steps[0], c, room))
  }

  lemma StepRoom(s: System, step: Step, c: ConnId, room: Option<RoomId>)
    requires Enabled(s, step) && (c in s.x.conns ==> s.x.conns[c].room == room)
    ensures var t := Apply(s, step); c in t.x.conns ==> t.x.conns[c].room == RoomNext(step, c, room)
  {
  }

  lemma {:induction false} RoomRun(s: System, steps: seq<Step>, s': System, c: ConnId, room: Option<RoomId>)
    requires Reaches(s, steps, s') && (c in s.x.conns ==> s.x.conns[c].room == room)
    ensures c in s'.x.conns ==> s'.x.conns[c].room == RoomAfter(steps, c, room)
    decreases |steps|
  {
    if steps != [] {
      StepRoom(s, steps[0], c, room);
      RoomRun(Apply(s, steps[0]), steps[1..], s', c, RoomNext(steps[0], c, room));
    }
  }

  /** c is live or waiting for player p. */
  ghost predicate KnownAs(s: System, c: ConnId, p: PlayerId) {
    || (c in s.x.conns && s.x.conns[c].player == p)
    || (c in s.connects && s.connects[c].player == p)
  }

  lemma {:induction false} PlayerRun(s: System, steps: seq<Step>, s': System, c: ConnId, p: PlayerId)
    requires Reaches(s, steps, s') && KnownAs(s', c, p)
    ensures KnownAs(s, c, p) || BeginConnect(p, c) in steps
    decreases |steps|
  {
    if steps != [] {
      PlayerRun(Apply(s, steps[0]), steps[1..], s', c, p);
    }
  }

  /** In every interleaving a live connection belongs to the player who connected with it, and is in
      the room that it joined last, or in none if it left since or never joined one. */
  lemma LiveAsJoined(steps: seq<Step>, s: System, c: ConnId)
    requires Reaches(INITIAL, steps, s) && c in s.x.conns
    ensures BeginConnect(s.x.conns[c].player, c) in steps
    ensures s.x.conns[c].room == RoomAfter(steps, c, None)
  {
    PlayerRun(INITIAL, steps, s, c, s.x.conns[c].player);
    RoomRun(INITIAL, steps, s, c, None);
  }

  /** What an uninterrupted connect does: the player's entry is the new connection, which has no room,
      the connection of the old entry is gone, and everybody else is as before. */
  lemma ConnectEvicts(s: System, p: PlayerId, c: ConnId) returns (steps: seq<Step>, s': System)
    requires Consistent(s) && c !in s.used
    ensures Reaches(s, steps, s') && |steps| <= 3
    ensures s'.x.conns == (if p in s.x.players then s.x.conns - {s.x.players[p]} else s.x.conns)[c := Conn(p, None)]
    ensures s'.x.players == s.x.players[p := c] && s'.connects == s.connects && s'.used == s.used + {c}
  {
    var begun := Apply(s, BeginConnect(p, c));
    if p in s.x.players {
      var cleared := Apply(begun, Evict(c));
      s' := Apply(cleared, FinishConnect(c));
      steps := [BeginConnect(p, c), Evict(c), FinishConnect(c)];
      assert steps[1..] == [Evict(c), FinishConnect(c)] && steps[1..][1..] == [FinishConnect(c)];
      assert Reaches(cleared, [FinishConnect(c)], s');
      assert Reaches(begun, [Evict(c), FinishConnect(c)], s');
    } else {
      s' := Apply(begun, FinishConnect(c));
      steps := [BeginConnect(p, c), FinishConnect(c)];
      assert steps[1..] == [FinishConnect(c)];
      assert Reaches(begun, [FinishConnect(c)], s');
    }
    assert s'.connects == s.connects;
  }

  /** A live connection can be closed, join any room and leave it at any time, and a waiting connect can
      be broken off. */
  lemma AlwaysEnabled(s: System, c: ConnId, room: RoomId)
    ensures Enabled(s, DoDisconnect(c)) && Enabled(s, DoJoin(c, room)) && Enabled(s, DoLeave(c))
    ensures c in s.connects ==> Enabled(s, AbortConnect(c))
  {
  }

  // ---- One connection per player ----

  ghost predicate OnePerPlayer(x: Indexes) {
    forall c, d :: c in x.conns && d in x.conns && x.conns[c].player == x.conns[d].player ==> c == d
  }

  /** A connect begins only when no other connect of the same player is waiting. */
  ghost predicate Serial(s: System, step: Step) {
    step.BeginConnect? ==> forall c :: c in s.connects ==> s.connects[c].player != step.player
  }

  ghost predicate SerialRun(s: System, steps: seq<Step>)
    decreases |steps|
  {
    steps != [] ==> Enabled(s, steps[0]) ==> Serial(s, steps[0]) && SerialRun(Apply(s, steps[0]), steps[1..])
  }

  /** Every live connection is the one its player's entry points to. */
  ghost predicate LiveIsEntry(x: Indexes) {
    forall c :: c in x.conns ==> x.conns[c].player in x.players && x.players[x.conns[c].player] == c
  }

  /** Every live connection is the one its player registered last. */
  ghost predicate LiveIsLatest(x: Indexes, latest: map<PlayerId, ConnId>) {
    forall c :: c in x.conns ==> x.conns[c].player in latest && latest[x.conns[c].player] == c
  }

  ghost predicate Separate(connects: map<ConnId, Connecting>) {
    forall c, d :: c in connects && d in connects && connects[c].player == connects[d].player ==> c == d
  }

  /** A waiting connect leaves its player no live connection other than the one it will evict. */
  ghost predicate Clearing(x: Indexes, connects: map<ConnId, Connecting>) {
    forall c, d :: c in connects && d in x.conns && x.conns[d].player == connects[c].player ==>
      connects[c].evicting == Some(d)
  }

  ghost predicate Unique(s: System) {
    LiveIsEntry(s.x) && Separate(s.connects) && Clearing(s.x, s.connects)
  }

  lemma DisconnectKeepsUnique(x: Indexes, connects: map<ConnId, Connecting>, c: ConnId)
    requires LiveIsEntry(x) && Clearing(x, connects)
    ensures LiveIsEntry(Disconnect(x, c)) && Clearing(Disconnect(x, c), connects)
  {
    assert Disconnect(x, c).conns == x.conns - {c};
  }

  lemma BeginKeepsUnique(s: System, p: PlayerId, c: ConnId)
    requires Consistent(s) && Unique(s) && Enabled(s, BeginConnect(p, c)) && Serial(s, BeginConnect(p, c))
    ensures Unique(Apply(s, BeginConnect(p, c)))
  {
  }

  lemma EvictKeepsUnique(s: System, c: ConnId)
    requires Unique(s) && Enabled(s, Evict(c))
    ensures Unique(Apply(s, Evict(c)))
  {
    DisconnectKeepsUnique(s.x, s.connects, s.connects[c].evicting.value);
  }

  /** Whoever finishes a connect has no live connection left. */
  lemma FinishesAlone(s: System, c: ConnId)
    requires Unique(s) && Enabled(s, FinishConnect(c))
    ensures forall d :: d in s.x.conns ==> s.x.conns[d].player != s.connects[c].player
  {
  }

  lemma FinishKeepsUnique(s: System, c: ConnId)
    requires Consistent(s) && Unique(s) && Enabled(s, FinishConnect(c))
    ensures Unique(Apply(s, FinishConnect(c)))
  {
    FinishesAlone(s, c);
  }

  lemma StepUnique(s: System, step: Step)
    requires Consistent(s) && Unique(s) && Enabled(s, step) && Serial(s, step)
    ensures Unique(Apply(s, step))
  {
    match step
    case BeginConnect(p, c) => BeginKeepsUnique(s, p, c);
    case Evict(c) => EvictKeepsUnique(s, c);
    case FinishConnect(c) => FinishKeepsUnique(s, c);
    case AbortConnect(c) =>
    case DoDisconnect(c) => DisconnectKeepsUnique(s.x, s.connects, c);
    case DoJoin(c, room) => MoveKeepsPlayers(s.x, c, room);
    case DoLeave(c) => MoveKeepsPlayers(s.x, c, "");
  }

  lemma StepLatest(s: System, step: Step)
    requires Unique(s) && Enabled(s, step) && LiveIsLatest(s.x, s.latest)
    ensures LiveIsLatest(Apply(s, step).x, Apply(s, step).latest)
  {
    match step
    case FinishConnect(c) => FinishesAlone(s, c);
    case DoJoin(c, room) => MoveKeepsPlayers(s.x, c, room);
    case DoLeave(c) => MoveKeepsPlayers(s.x, c, "");
    case _ =>
  }

  lemma {:induction false} RunUnique(s: System, steps: seq<Step>, s': System)
    requires Consistent(s) && Unique(s) && Reaches(s, steps, s') && SerialRun(s, steps)
    ensures Unique(s')
    ensures LiveIsLatest(s.x, s.latest) ==> LiveIsLatest(s'.x, s'.latest)
    decreases |steps|
  {
    if steps != [] {
      StepConsistent(s, steps[0]);
      StepUnique(s, steps[0]);
      if LiveIsLatest(s.x, s.latest) {
        StepLatest(s, steps[0]);
      }
      RunUnique(Apply(s, steps[0]), steps[1..], s');
    }
  }

  /** When connects of the same player never overlap, each player has at most one live connection,
      the most recently registered one, and the player's entry points to it. */
  lemma OneConnectionPerPlayer(steps: seq<Step>, s: System)
    requires Reaches(INITIAL, steps, s) && SerialRun(INITIAL, steps)
    ensures OnePerPlayer(s.x)
    ensures forall c :: c in s.x.conns ==>
      && s.x.conns[c].player in s.latest && s.latest[s.x.conns[c].player] == c
      && s.x.conns[c].player in s.x.players && s.x.players[s.x.conns[c].player] == c
  {
    RunUnique(INITIAL, steps, s);
  }

  // ---- Exactly when a player can get a second connection ----

  /** However the run goes on, as long as no further connects of one player overlap, no player ever
      has two live connections. */
  ghost predicate StaysOne(s: System) {
    forall steps, s' :: Reaches(s, steps, s') && SerialRun(s, steps) ==> OnePerPlayer(s'.x)
  }

  lemma BreaksNow(s: System)
    requires !OnePerPlayer(s.x)
    ensures !StaysOne(s)
  {
    assert Reaches(s, [], s) && SerialRun(s, []);
  }

  lemma BreaksLater(s: System, step: Step)
    requires Enabled(s, step) && Serial(s, step) && !StaysOne(Apply(s, step))
    ensures !StaysOne(s)
  {
    var steps, s' :| Reaches(Apply(s, step), steps, s') && SerialRun(Apply(s, step), steps) && !OnePerPlayer(s'.x);
    var all := [step] + steps;
    assert all[1..] == steps;
    assert Reaches(s, all, s') && SerialRun(s, all);
  }

  /** A registration keeps one connection per player exactly when the player has none at that
      moment. */
  lemma FinishKeepsOneIff(s: System, c: ConnId)
    requires Consistent(s) && OnePerPlayer(s.x) && Enabled(s, FinishConnect(c))
    ensures OnePerPlayer(Apply(s, FinishConnect(c)).x)
      <==> forall d :: d in s.x.conns ==> s.x.conns[d].player != s.connects[c].player
  {
    var t := Apply(s, FinishConnect(c));
    if d :| d in s.x.conns && s.x.conns[d].player == s.connects[c].player {
      assert d in t.x.conns && c in t.x.conns && d != c;
    }
  }

  /** A connect that does not evict a live connection of its player will end up beside it. */
  lemma UnclearedBreaks(s: System, c: ConnId, d: ConnId)
    requires Consistent(s) && c in s.connects && d in s.x.conns
    requires s.x.conns[d].player == s.connects[c].player && s.connects[c].evicting != Some(d)
    ensures !StaysOne(s)
    decreases s.connects[c].evicting.Some?
  {
    if !OnePerPlayer(s.x) {
      BreaksNow(s);
    } else if s.connects[c].evicting.Some? {
      StepConsistent(s, Evict(c));
      UnclearedBreaks(Apply(s, Evict(c)), c, d);
      BreaksLater(s, Evict(c));
    } else {
      FinishKeepsOneIff(s, c);
      BreaksNow(Apply(s, FinishConnect(c)));
      BreaksLater(s, FinishConnect(c));
    }
  }

  /** Of two waiting connects of one player, both may finish. */
  lemma InseparateBreaks(s: System, c: ConnId, d: ConnId)
    requires Consistent(s) && c in s.connects && d in s.connects && c != d
    requires s.connects[c].player == s.connects[d].player
    ensures !StaysOne(s)
    decreases s.connects[c].evicting.Some?, s.connects[d].evicting.Some?
  {
    if s.connects[c].evicting.Some? {
      StepConsistent(s, Evict(c));
      InseparateBreaks(Apply(s, Evict(c)), c, d);
      BreaksLater(s, Evict(c));
    } else if s.connects[d].evicting.Some? {
      StepConsistent(s, Evict(d));
      InseparateBreaks(Apply(s, Evict(d)), c, d);
      BreaksLater(s, Evict(d));
    } else {
      StepConsistent(s, FinishConnect(d));
      UnclearedBreaks(Apply(s, FinishConnect(d)), c, d);
      BreaksLater(s, FinishConnect(d));
    }
  }

  /** A live connection that its player's entry does not point to is not evicted by the next connect. */
  lemma ForgottenBreaks(s: System, c: ConnId)
    requires Consistent(s) && c in s.x.conns && Separate(s.connects)
    requires !(s.x.conns[c].player in s.x.players && s.x.players[s.x.conns[c].player] == c)
    ensures !StaysOne(s)
    decreases s.connects.Keys
  {
    var p := s.x.conns[c].player;
    if p in s.x.players {
      assert s.x.players[p] != c && s.x.conns[s.x.players[p]].player == p;
      BreaksNow(s);
    } else if w :| w in s.connects && s.connects[w].player == p {
      StepConsistent(s, AbortConnect(w));
      ForgottenBreaks(Apply(s, AbortConnect(w)), c);
      BreaksLater(s, AbortConnect(w));
    } else {
      var unused := UnusedId(s.used);
      StepConsistent(s, BeginConnect(p, unused));
      UnclearedBreaks(Apply(s, BeginConnect(p, unused)), unused, c);
      BreaksLater(s, BeginConnect(p, unused));
    }
  }

  /** Some id is longer than all used ones. */
  lemma {:induction false} UnusedId(used: set<ConnId>) returns (c: ConnId)
    ensures forall d :: d in used ==> |d| < |c|
    decreases used
  {
    if used == {} {
      c := "c";
    } else {
      var d :| d in used;
      c := UnusedId(used - {d});
      if |c| <= |d| {
        c := d + "c";
      }
      assert forall e :: e in used ==> e == d || e in used - {d};
    }
  }

  /** From any consistent state: no player can ever get a second live connection, unless connects
      overlap from now on, exactly when every live connection is its player's entry, no two connects
      of one player are waiting, and every waiting connect will evict its player's live connection. */
  lemma StaysOneIff(s: System)
    requires Consistent(s)
    ensures StaysOne(s) <==> LiveIsEntry(s.x) && Separate(s.connects) && Clearing(s.x, s.connects)
  {
    if Unique(s) {
      forall steps, s' | Reaches(s, steps, s') && SerialRun(s, steps)
        ensures OnePerPlayer(s'.x)
      {
        RunUnique(s, steps, s');
      }
    } else if !Separate(s.connects) {
      var c, d :| c in s.connects && d in s.connects && s.connects[c].player == s.connects[d].player && c != d;
      InseparateBreaks(s, c, d);
    } else if !Clearing(s.x, s.connects) {
      var c, d :| c in s.connects && d in s.x.conns && s.x.conns[d].player == s.connects[c].player
        && s.connects[c].evicting != Some(d);
      UnclearedBreaks(s, c, d);
    } else {
      var c :| c in s.x.conns && !(s.x.conns[c].player in s.x.players && s.x.players[s.x.conns[c].player] == c);
      ForgottenBreaks(s, c);
    }
  }

  /** Overlapping connects of one player can leave two live connections. */
  lemma OverlapLeavesTwo(p: PlayerId, c: ConnId, d: ConnId) returns (steps: seq<Step>, s: System)
    requires c != d
    ensures Reaches(INITIAL, steps, s) && !OnePerPlayer(s.x)
    ensures c in s.x.conns && d in s.x.conns && s.x.conns[c].player == s.x.conns[d].player == p
  {
    var s1 := Apply(INITIAL, BeginConnect(p, c));
    var s2 := Apply(s1, BeginConnect(p, d));
    var s3 := Apply(s2, FinishConnect(c));
    s := Apply(s3, FinishConnect(d));
    steps := [BeginConnect(p, c), BeginConnect(p, d), FinishConnect(c), FinishConnect(d)];
    assert steps[1..] == [BeginConnect(p, d), FinishConnect(c), FinishConnect(d)];
    assert steps[1..][1..] == [FinishConnect(c), FinishConnect(d)];
    assert steps[1..][1..][1..] == [FinishConnect(d)];
    assert s.x.conns[c].player == s.x.conns[d].player == p;
    assert Reaches(s3, [FinishConnect(d)], s);
    assert Reaches(s2, [FinishConnect(c), FinishConnect(d)], s);
    assert Reaches(s1, [BeginConnect(p, d), FinishConnect(c), FinishConnect(d)], s);
  }

  // ---- Shutdown ----

  /** The run disconnects c at some point. */
  predicate Closes(steps: seq<Step>, c: ConnId) {
    steps != [] && (steps[0] == DoDisconnect(c) || Closes(steps[1..], c))
  }

  predicate Registers(steps: seq<Step>) {
    steps != [] && (steps[0].FinishConnect? || Registers(steps[1..]))
  }

  lemma {:induction false} RunShrinks(s: System, steps: seq<Step>, s': System)
    requires Reaches(s, steps, s') && !Registers(steps)
    ensures s'.x.conns.Keys <= s.x.conns.Keys
    ensures forall c :: Closes(steps, c) ==> c !in s'.x.conns
    decreases |steps|
  {
    if steps != [] {
      RunShrinks(Apply(s, steps[0]), steps[1..], s');
    }
  }

  /** However close_all interleaves with the rest, once every connection that was live at its start
      has been closed and no connect was finished meanwhile, no connection and no player entry is left,
      and no room either if the indexes agreed throughout. */
  lemma ShutdownEmpties(before: seq<Step>, s: System, steps: seq<Step>, s': System)
    requires Reaches(INITIAL, before, s) && Reaches(s, steps, s') && !Registers(steps)
    requires forall c :: c in s.x.conns ==> Closes(steps, c)
    ensures s'.x.conns == map[] && s'.x.players == map[]
    ensures Tidy(INITIAL, before) && Tidy(s, steps) ==> s'.x == NOTHING
  {
    RunConsistent(INITIAL, before, s);
    RunConsistent(s, steps, s');
    RunShrinks(s, steps, s');
    assert s'.x.conns.Keys == {};
    if Tidy(INITIAL, before) && Tidy(s, steps) {
      RunAgreesIff(INITIAL, before, s);
      RunAgreesIff(s, steps, s');
      EmptyAgrees(s'.x);
    }
  }
}
