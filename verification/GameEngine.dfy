/** The engine's in-memory games: each method is the code between two awaits of the coroutine of
    the same name, and changes its game in place exactly as the rules on values say. */
module GameEngine {
  import opened Wrappers
  import opened Grid
  import opened Territory
  import opened GameRules
  import Snapshot

  type RoomId = string

  class ActiveGame {
    const rules: Rules
    const players: seq<PlayerId>
    const elos: map<PlayerId, int>
    var current: nat
    var board: Board
    var scores: map<PlayerId, int>
    var turn: nat
    var status: Status
    var winner: Option<PlayerId>
    var history: seq<Entry>
    var disconnected: set<PlayerId>

    ghost function Value(): Game
      reads this
    {
      Game(players, elos, current, board, scores, turn, status, winner, history, disconnected)
    }

    ghost predicate Valid()
      reads this
    {
      Playable(rules, Value())
    }

    constructor (rules: Rules, g: Game)
      requires Playable(rules, g)
      ensures Valid() && this.rules == rules && Value() == g
    {
      this.rules, players, elos := rules, g.players, g.elos;
      current, board, scores, turn := g.current, g.board, g.scores, g.turn;
      status, winner, history, disconnected := g.status, g.winner, g.history, g.disconnected;
    }

    /** Validates a placement and fills the cross of the cell, one neighbour after the other. */
    method ApplyPlace(p: PlayerId, x: Option<int>, y: Option<int>) returns (verdict: Verdict)
      requires Valid() && p in players
      modifies this`board, this`scores
      ensures Valid()
      ensures verdict ==
        if x.None? || y.None? then MissingCoords
        else if !InGrid(rules.n, Cell(x.value, y.value)) then OutOfBounds
        else if old(At(rules.n, board, Cell(x.value, y.value))) != 0 then CellOccupied
        else Accepted
      ensures verdict != Accepted ==> Value() == old(Value())
      ensures verdict == Accepted ==>
        var cross := Cross(Cell(x.value, y.value));
        && board == old(Fill(rules.n, board, cross, NumberOf(players, p)))
        && scores == old(scores[p := GetOr(scores, p, 0) + |Claimed(rules.n, board, cross)|])
    {
      if x.None? || y.None? {
        return MissingCoords;
      }
      var c := Cell(x.value, y.value);
      if !InGrid(rules.n, c) {
        return OutOfBounds;
      }
      if At(rules.n, board, c) != 0 {
        return CellOccupied;
      }
      Claim(p, c);
      return Accepted;
    }

    /** Fills an empty cell and its empty neighbours, scoring each as it is filled. */
    method Claim(p: PlayerId, c: Cell)
      requires Valid() && p in players && InGrid(rules.n, c) && At(rules.n, board, c) == 0
      modifies this`board, this`scores
      ensures Filled(p, old(board), old(scores), Cross(c))
    {
      ghost var start, startScores := board, scores;
      FirstFill(rules.n, start, c, NumberOf(players, p));
      ClaimOne(p, c);
      var offsets := Offsets();
      for k := 0 to |offsets|
        invariant Filled(p, start, startScores, Visited(c, k))
      {
        ClaimNext(p, Shift(c, offsets[k]), start, startScores, Visited(c, k));
      }
      VisitedAll(c);
    }

    /** The visited cells have been filled and scored. */
    ghost predicate Filled(p: PlayerId, start: Board, startScores: map<PlayerId, int>, visited: set<Cell>)
      reads this
    {
      && Valid() && Shaped(rules.n, start)
      && board == Fill(rules.n, start, visited, NumberOf(players, p))
      && scores == Scored(startScores, p, |Claimed(rules.n, start, visited)|)
    }

    method ClaimNext(p: PlayerId, d: Cell, ghost start: Board, ghost startScores: map<PlayerId, int>,
                     ghost visited: set<Cell>)
      requires Filled(p, start, startScores, visited)
      modifies this`board, this`scores
      ensures Filled(p, start, startScores, visited + {d})
    {
      FillNext(rules.n, start, visited, d, NumberOf(players, p));
      ScoredTwice(startScores, p, |Claimed(rules.n, start, visited)|);
      ClaimOne(p, d);
    }

    lemma ScoredTwice(scores: map<PlayerId, int>, p: PlayerId, gained: nat)
      ensures Scored(Scored(scores, p, gained), p, 1) == Scored(scores, p, gained + 1)
    {
    }

    function Scored(scores: map<PlayerId, int>, p: PlayerId, gained: nat): map<PlayerId, int> {
      scores[p := GetOr(scores, p, 0) + gained]
    }

    /** Marks and scores one cell if it is on the board and empty. */
    method ClaimOne(p: PlayerId, d: Cell)
      requires Valid()
      modifies this`board, this`scores
      ensures Valid()
      ensures var free := InGrid(rules.n, d) && old(At(rules.n, board, d)) == 0;
        && board == (if free then Mark(old(board), d, NumberOf(players, p)) else old(board))
        && scores == (if free then Scored(old(scores), p, 1) else old(scores))
    {
      if InGrid(rules.n, d) && At(rules.n, board, d) == 0 {
        board := Mark(board, d, NumberOf(players, p));
        scores := scores[p := GetOr(scores, p, 0) + 1];
      }
    }

    /** c and its first k neighbours. */
    ghost function Visited(c: Cell, k: nat): set<Cell>
      requires k <= 4
    {
      if k == 0 then {c} else Visited(c, k - 1) + {Shift(c, Offsets()[k - 1])}
    }

    lemma VisitedAll(c: Cell)
      ensures Visited(c, 4) == Cross(c)
    {
      var o := Offsets();
      assert Visited(c, 0) == {c};
      assert Visited(c, 1) == {c, Shift(c, o[0])};
      assert Visited(c, 2) == {c, Shift(c, o[0]), Shift(c, o[1])};
      assert Visited(c, 3) == {c, Shift(c, o[0]), Shift(c, o[1]), Shift(c, o[2])};
    }

    lemma FirstFill(n: nat, b: Board, c: Cell, num: nat)
      requires Shaped(n, b) && n == rules.n && num != 0 && InGrid(n, c) && At(n, b, c) == 0
      ensures Fill(n, b, {c}, num) == Mark(b, c, num) && |Claimed(n, b, {c})| == 1
    {
      SameBoard(n, Fill(n, b, {c}, num), Mark(b, c, num));
      assert Claimed(n, b, {c}) == {c};
    }

    function Mark(b: Board, c: Cell, num: nat): (r: Board)
      requires Shaped(rules.n, b) && InGrid(rules.n, c)
      ensures Shaped(rules.n, r)
    {
      var row: seq<nat> := b[c.y][c.x := num];
      b[c.y := row]
    }

    /** Visiting one more cell marks it if it is on the board and still empty. */
    lemma FillNext(n: nat, b: Board, visited: set<Cell>, c: Cell, num: nat)
      requires Shaped(n, b) && n == rules.n && num != 0
      ensures var now := Fill(n, b, visited, num);
        if InGrid(n, c) && At(n, now, c) == 0 then
          && Mark(now, c, num) == Fill(n, b, visited + {c}, num)
          && |Claimed(n, b, visited + {c})| == |Claimed(n, b, visited)| + 1
        else
          && now == Fill(n, b, visited + {c}, num)
          && Claimed(n, b, visited + {c}) == Claimed(n, b, visited)
    {
      var now, next := Fill(n, b, visited, num), Fill(n, b, visited + {c}, num);
      if InGrid(n, c) && At(n, now, c) == 0 {
        SameBoard(n, Mark(now, c, num), next);
        assert Claimed(n, b, visited + {c}) == Claimed(n, b, visited) + {c};
      } else {
        SameBoard(n, now, next);
        assert Claimed(n, b, visited + {c}) == Claimed(n, b, visited);
      }
    }

    method HasEmpty() returns (found: bool)
      requires Valid()
      ensures found <==> !Full(rules.n, board)
    {
      for y := 0 to rules.n
        invariant forall c :: InGrid(rules.n, c) && c.y < y ==> At(rules.n, board, c) != 0
      {
        for x := 0 to rules.n
          invariant forall c :: InGrid(rules.n, c) && (c.y < y || (c.y == y && c.x < x)) ==> At(rules.n, board, c) != 0
        {
          if board[y][x] == 0 {
            assert At(rules.n, board, Cell(x, y)) == 0;
            return true;
          }
        }
      }
      return false;
    }

    ghost function Score(p: PlayerId): int
      reads this
    {
      GetOr(scores, p, 0)
    }

    /** Exactly the player who scored more than the other wins. */
    method DetermineWinner()
      requires Valid()
      modifies this`winner
      ensures winner == Some(players[0]) <==> Score(players[0]) > Score(players[1])
      ensures winner == Some(players[1]) <==> Score(players[1]) > Score(players[0])
      ensures winner.Some? ==> winner.value in players
    {
      var s1, s2 := GetOr(scores, players[0], 0), GetOr(scores, players[1], 0);
      if s1 > s2 {
        winner := Some(players[0]);
      } else if s2 > s1 {
        winner := Some(players[1]);
      } else {
        winner := None;
      }
    }

    method CheckGameOver() returns (over: bool)
      requires Valid()
      modifies this`status, this`winner
      ensures over <==> Exhausted(rules, turn, board)
      ensures status == if over then Finished else old(status)
      ensures winner == if over then Leader(players, scores) else old(winner)
    {
      if turn >= rules.maxTurns {
        status := Finished;
        DetermineWinner();
        return true;
      }
      var hasEmpty := HasEmpty();
      if !hasEmpty {
        status := Finished;
        DetermineWinner();
        return true;
      }
      return false;
    }

    /** process_action from the status check to the broadcast: which rejection comes first, and that
        none changes anything. */
    method Process(p: PlayerId, a: Action) returns (verdict: Verdict, over: bool)
      requires Valid()
      modifies this
      ensures Valid()
      ensures old(status) != InProgress <==> verdict == GameNotActive
      ensures old(status) == InProgress ==> (p != players[old(current)] <==> verdict == NotYourTurn)
      ensures old(status) == InProgress && p == players[old(current)] ==> (a.OtherAction? <==> verdict == UnknownAction)
      ensures old(status) == InProgress && p == players[old(current)] && a.Place? ==>
        verdict == (if a.x.None? || a.y.None? then MissingCoords
                    else if !(0 <= a.x.value < rules.n && 0 <= a.y.value < rules.n) then OutOfBounds
                    else if old(board)[a.y.value][a.x.value] != 0 then CellOccupied
                    else Accepted)
      ensures verdict != Accepted ==> Value() == old(Value())
      ensures verdict == old(Judge(rules, Value(), p, a))
      ensures Value() == old(Act(rules, Value(), p, a))
      ensures over <==> verdict == Accepted && status == Finished
    {
      over := false;
      if status != InProgress {
        return GameNotActive, false;
      }
      if p != players[current] {
        return NotYourTurn, false;
      }
      if a.OtherAction? {
        return UnknownAction, false;
      }
      verdict, over := ProcessPlace(p, a);
    }

    /** The rest of process_action, for a placement by the player to move of a running game. */
    method ProcessPlace(p: PlayerId, a: Action) returns (verdict: Verdict, over: bool)
      requires Valid() && status == InProgress && p == players[current] && a.Place?
      modifies this
      ensures Valid()
      ensures verdict ==
        if a.x.None? || a.y.None? then MissingCoords
        else if !(0 <= a.x.value < rules.n && 0 <= a.y.value < rules.n) then OutOfBounds
        else if old(board)[a.y.value][a.x.value] != 0 then CellOccupied
        else Accepted
      ensures verdict != Accepted ==> Value() == old(Value())
      ensures verdict == old(Judge(rules, Value(), p, a))
      ensures Value() == old(Act(rules, Value(), p, a))
      ensures over <==> verdict == Accepted && status == Finished
    {
      over := false;
      verdict := ApplyPlace(p, a.x, a.y);
      if verdict == Accepted {
        over := EndTurn(p, a);
        ActIs(rules, old(Value()), p, a, Value());
      }
    }

    lemma ActIs(r: Rules, g: Game, p: PlayerId, a: Action, g': Game)
      requires Playable(r, g) && Judge(r, g, p, a) == Accepted && Shaped(r.n, g'.board)
      requires var cross := Cross(Cell(a.x.value, a.y.value)); var over := Exhausted(r, g.turn + 1, g'.board);
        && g'.board == Fill(r.n, g.board, cross, NumberOf(g.players, p))
        && g'.scores == g.scores[p := GetOr(g.scores, p, 0) + |Claimed(r.n, g.board, cross)|]
        && g' == g.(board := g'.board, scores := g'.scores, turn := g.turn + 1,
                    history := g.history + [Entry(p, a, g.turn)],
                    current := if over then g.current else (g.current + 1) % 2,
                    status := if over then Finished else g.status,
                    winner := if over then Leader(g.players, g'.scores) else g.winner)
      ensures g' == Act(r, g, p, a)
    {
      assert a == Place(Some(a.x.value), Some(a.y.value));
    }

    /** Records an accepted action, tests for the end and otherwise passes the turn. */
    method EndTurn(p: PlayerId, a: Action) returns (over: bool)
      requires Valid()
      modifies this`history, this`turn, this`current, this`status, this`winner
      ensures Valid()
      ensures history == old(history) + [Entry(p, a, old(turn))] && turn == old(turn) + 1
      ensures over <==> Exhausted(rules, turn, board)
      ensures current == if over then old(current) else (old(current) + 1) % 2
      ensures status == if over then Finished else old(status)
      ensures winner == if over then Leader(players, scores) else old(winner)
    {
      history := history + [Entry(p, a, turn)];
      turn := turn + 1;
      over := CheckGameOver();
      if !over {
        current := (current + 1) % |players|;
      }
    }

    method PlayerDropped(p: PlayerId) returns (recorded: bool)
      modifies this`disconnected, this`status
      ensures Value() == old(Drop(Value(), p))
      ensures recorded <==> old(status) == InProgress
    {
      recorded := status == InProgress;
      if recorded {
        disconnected := disconnected + {p};
        status := Paused;
      }
    }

    method TimerExpired(p: PlayerId) returns (forfeited: bool)
      requires Valid()
      modifies this`winner, this`status
      ensures Valid()
      ensures Value() == old(TimeOut(Value(), p))
      ensures forfeited <==> p in disconnected
    {
      forfeited := p in disconnected;
      if forfeited {
        var k := 0;
        while k < |players| && players[k] == p
          invariant 0 <= k <= |players|
          invariant forall j :: 0 <= j < k ==> players[j] == p
          decreases |players| - k
        {
          k := k + 1;
        }
        if k < |players| {
          winner := Some(players[k]);
        }
        status := Finished;
      }
    }

    method PlayerReturned(p: PlayerId)
      modifies this`disconnected, this`status
      ensures Value() == old(Rejoin(Value(), p))
    {
      disconnected := disconnected - {p};
      if status == Paused && disconnected == {} {
        status := InProgress;
      }
    }
  }

  class Engine {
    const rules: Rules
    var games: map<RoomId, ActiveGame>

    /** The games of distinct rooms are distinct objects. */
    ghost predicate Valid()
      reads this, games.Values
    {
      && (forall room :: room in games ==> games[room].Valid() && games[room].rules == rules)
      && (forall a, b :: a in games && b in games && games[a] == games[b] ==> a == b)
    }

    ghost function Table(): map<RoomId, Game>
      reads this, games.Values
    {
      map room | room in games :: games[room].Value()
    }

    /** When only the game of one room has changed, only its row of the table has. */
    twostate lemma OneChanged(room: RoomId)
      requires old(Valid()) && games == old(games) && room in games
      requires games[room].Valid()
      requires forall other :: other in games && other != room ==> unchanged(games[other])
      ensures Valid() && Table() == old(Table())[room := games[room].Value()]
    {
    }

    constructor (rules: Rules)
      ensures Valid() && this.rules == rules && Table() == map[]
    {
      this.rules := rules;
      games := map[];
    }

    twostate lemma InstallTable(room: RoomId, new game: ActiveGame)
      requires old(Valid()) && games == old(games)[room := game]
      requires game.Valid() && game.rules == rules
      requires forall other :: other in old(games) ==> old(games[other]) != game && unchanged(old(games[other]))
      ensures Table() == old(Table())[room := game.Value()]
    {
    }

    twostate lemma InstallValid(room: RoomId, new game: ActiveGame)
      requires old(Valid()) && games == old(games)[room := game]
      requires game.Valid() && game.rules == rules
      requires forall other :: other in old(games) ==> old(games[other]) != game && unchanged(old(games[other]))
      ensures Valid()
    {
    }

    /** Installs a game under a room id, replacing what was there. */
    method Install(room: RoomId, g: Game)
      requires Valid() && Playable(rules, g)
      modifies this`games
      ensures Valid() && fresh(games.Values - old(games.Values))
      ensures Table() == old(Table())[room := g]
    {
      var game := new ActiveGame(rules, g);
      games := games[room := game];
      assert forall other :: other in old(games) ==> old(games)[other] != game;
      InstallValid(room, game);
      InstallTable(room, game);
    }

    method CreateGame(room: RoomId, players: seq<PlayerId>, elos: map<PlayerId, int>)
      requires Valid() && TwoPlayers(players)
      modifies this`games
      ensures Valid() && fresh(games.Values - old(games.Values))
      ensures Table() == old(Table())[room := Created(rules, players, elos)]
    {
      Install(room, Created(rules, players, elos));
    }

    /** restore_game_from_snapshot, given what Redis holds for the room: nothing happens without both
        a snapshot and a room record. */
    method RestoreGame(room: RoomId, saved: Option<Snapshot.Saved>, players: Option<seq<PlayerId>>)
        returns (restored: bool)
      requires Valid()
      requires saved.Some? ==> Shaped(rules.n, saved.value.board)
      requires players.Some? ==> TwoPlayers(players.value)
      modifies this`games
      ensures Valid() && fresh(games.Values - old(games.Values))
      ensures restored <==> saved.Some? && players.Some?
      ensures Table() ==
        if restored then old(Table())[room := Snapshot.Restore(players.value, saved.value)] else old(Table())
    {
      if saved.None? {
        return false;
      }
      if players.None? {
        return false;
      }
      Install(room, Snapshot.Restore(players.value, saved.value));
      return true;
    }

    method ProcessAction(room: RoomId, p: PlayerId, a: Action) returns (verdict: Verdict, over: bool)
      requires Valid()
      modifies if room in games then {games[room]} else {}
      ensures Valid()
      ensures room !in games ==> verdict == GameNotFound && !over && Table() == old(Table())
      ensures room in games ==>
        && verdict == old(Judge(rules, Table()[room], p, a))
        && Table() == old(Table())[room := old(Act(rules, Table()[room], p, a))]
        && (over <==> verdict == Accepted && Table()[room].status == Finished)
    {
      if room !in games {
        return GameNotFound, false;
      }
      verdict, over := games[room].Process(p, a);
      OneChanged(room);
    }

    /** handle_player_disconnect up to its first await; true if a grace timer will follow. */
    method HandleDisconnect(room: RoomId, p: PlayerId) returns (recorded: bool)
      requires Valid()
      modifies if room in games then {games[room]} else {}
      ensures Valid()
      ensures recorded <==> room in games && old(Table()[room].status == InProgress)
      ensures Table() == if room in games then old(Table())[room := old(Drop(Table()[room], p))] else old(Table())
    {
      recorded := false;
      if room in games {
        recorded := games[room].PlayerDropped(p);
        OneChanged(room);
      }
    }

    /** _disconnect_timer after its sleep; true if the game was forfeited. */
    method DisconnectTimer(room: RoomId, p: PlayerId) returns (forfeited: bool)
      requires Valid()
      modifies if room in games then {games[room]} else {}
      ensures Valid()
      ensures forfeited <==> room in games && p in old(Table()[room].disconnected)
      ensures Table() == if room in games then old(Table())[room := old(TimeOut(Table()[room], p))] else old(Table())
    {
      forfeited := false;
      if room in games {
        forfeited := games[room].TimerExpired(p);
        OneChanged(room);
      }
    }

    method HandleReconnect(room: RoomId, p: PlayerId)
      requires Valid()
      modifies if room in games then {games[room]} else {}
      ensures Valid()
      ensures Table() == if room in games then old(Table())[room := old(Rejoin(Table()[room], p))] else old(Table())
    {
      if room in games {
        games[room].PlayerReturned(p);
        OneChanged(room);
      }
    }

    /** The pop at the start of _cleanup_game. */
    method Cleanup(room: RoomId)
      requires Valid()
      modifies this`games
      ensures Valid()
      ensures Table() == old(Table()) - {room}
    {
      games := games - {room};
    }
  }
}
