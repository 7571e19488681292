/** The rules of the territory game on values: what one action, one disconnect, one forfeit and
    one reconnect do to a game, and what every legal game looks like. */
module GameRules {
  import opened Wrappers
  import opened Grid
  import opened Territory

  type PlayerId = string

  datatype Status = Waiting | InProgress | Paused | Finished | Abandoned

  datatype Action = Place(x: Option<int>, y: Option<int>) | OtherAction(name: string)

  datatype Entry = Entry(player: PlayerId, action: Action, turn: nat)

  datatype Verdict =
    | Accepted
    | GameNotFound
    | GameNotActive
    | NotYourTurn
    | UnknownAction
    | MissingCoords
    | OutOfBounds
    | CellOccupied

  /** BOARD_SIZE and MAX_TURNS. */
  datatype Rules = Rules(n: nat, maxTurns: nat)

  const STANDARD := Rules(10, 100)

  datatype Game = Game(
    players: seq<PlayerId>,
    elos: map<PlayerId, int>,
    current: nat,
    board: Board,
    scores: map<PlayerId, int>,
    turn: nat,
    status: Status,
    winner: Option<PlayerId>,
    history: seq<Entry>,
    disconnected: set<PlayerId>)

  predicate TwoPlayers(players: seq<PlayerId>) {
    |players| == 2 && players[0] != players[1]
  }

  predicate Playable(r: Rules, g: Game) {
    Shaped(r.n, g.board) && TwoPlayers(g.players) && g.current < 2
  }

  function Created(r: Rules, players: seq<PlayerId>, elos: map<PlayerId, int>): Game
    requires TwoPlayers(players)
  {
    Game(players, elos, 0, EmptyBoard(r.n), map[players[0] := 0, players[1] := 0], 0,
         InProgress, None, [], {})
  }

  /** The number with which a player marks cells: 1 or 2. */
  function NumberOf(players: seq<PlayerId>, p: PlayerId): nat
    requires TwoPlayers(players)
  {
    if p == players[0] then 1 else 2
  }

  /** The first player other than p. */
  function Opponent(players: seq<PlayerId>, p: PlayerId): PlayerId
    requires TwoPlayers(players)
  {
    if players[0] != p then players[0] else players[1]
  }

  function Judge(r: Rules, g: Game, p: PlayerId, a: Action): Verdict
    requires Playable(r, g)
  {
    if g.status != InProgress then GameNotActive
    else if p != g.players[g.current] then NotYourTurn
    else if a.OtherAction? then UnknownAction
    else if a.x.None? || a.y.None? then MissingCoords
    else if !InGrid(r.n, Cell(a.x.value, a.y.value)) then OutOfBounds
    else if At(r.n, g.board, Cell(a.x.value, a.y.value)) != 0 then CellOccupied
    else Accepted
  }

  function Leader(players: seq<PlayerId>, scores: map<PlayerId, int>): Option<PlayerId>
    requires TwoPlayers(players)
  {
    var s1, s2 := GetOr(scores, players[0], 0), GetOr(scores, players[1], 0);
    if s1 > s2 then Some(players[0]) else if s2 > s1 then Some(players[1]) else None
  }

  ghost predicate Exhausted(r: Rules, turn: nat, board: Board)
    requires Shaped(r.n, board)
  {
    turn >= r.maxTurns || Full(r.n, board)
  }

  /** The game after an accepted placement on c: its whole cross is filled and scored at once. */
  ghost function Advance(r: Rules, g: Game, p: PlayerId, c: Cell): (g': Game)
    requires Playable(r, g)
    ensures Playable(r, g') && g'.players == g.players && g'.elos == g.elos
  {
    var gained := |Claimed(r.n, g.board, Cross(c))|;
    var next := g.(
      board := Fill(r.n, g.board, Cross(c), NumberOf(g.players, p)),
      scores := g.scores[p := GetOr(g.scores, p, 0) + gained],
      turn := g.turn + 1,
      history := g.history + [Entry(p, Place(Some(c.x), Some(c.y)), g.turn)]);
    if Exhausted(r, next.turn, next.board) then
      next.(status := Finished, winner := Leader(g.players, next.scores))
    else
      next.(current := (g.current + 1) % 2)
  }

  /** process_action on a game: a rejected action changes nothing. */
  ghost function Act(r: Rules, g: Game, p: PlayerId, a: Action): (g': Game)
    requires Playable(r, g)
    ensures Playable(r, g') && g'.players == g.players && g'.elos == g.elos
  {
    if Judge(r, g, p, a) == Accepted then Advance(r, g, p, Cell(a.x.value, a.y.value)) else g
  }

  /** A disconnect is recorded only while the game is in progress. */
  function Drop(g: Game, p: PlayerId): Game {
    if g.status == InProgress then g.(disconnected := g.disconnected + {p}, status := Paused) else g
  }

  /** A grace timer of p runs out. */
  function TimeOut(g: Game, p: PlayerId): Game
    requires TwoPlayers(g.players)
  {
    if p in g.disconnected then g.(winner := Some(Opponent(g.players, p)), status := Finished) else g
  }

  function Rejoin(g: Game, p: PlayerId): Game {
    var left := g.disconnected - {p};
    g.(disconnected := left, status := if g.status == Paused && left == {} then InProgress else g.status)
  }

  // ---- What holds of the board, the scores and the turn counter ----

  ghost predicate BoardOk(n: nat, b: Board, ms: seq<Move>) {
    && Shaped(n, b)
    && Spaced(n, ms)
    && Explains(n, b, ms)
    && forall i :: 0 <= i < |ms| ==> ms[i].num <= 2
  }

  ghost predicate ScoresOk(n: nat, b: Board, players: seq<PlayerId>, scores: map<PlayerId, int>) {
    && Shaped(n, b)
    && TwoPlayers(players)
    && scores.Keys == {players[0], players[1]}
    && scores[players[0]] == |Owned(n, b, 1)|
    && scores[players[1]] == |Owned(n, b, 2)|
  }

  /** The placements ms explain the game: they are spaced, the board is theirs, and each score is
      the number of cells that its player owns. */
  ghost predicate Explained(r: Rules, g: Game, ms: seq<Move>) {
    && Playable(r, g)
    && BoardOk(r.n, g.board, ms)
    && ScoresOk(r.n, g.board, g.players, g.scores)
    && g.turn == |ms|
  }

  lemma CreatedExplained(r: Rules, players: seq<PlayerId>, elos: map<PlayerId, int>)
    requires TwoPlayers(players)
    ensures Explained(r, Created(r, players, elos), [])
  {
    var g := Created(r, players, elos);
    forall c | InGrid(r.n, c)
      ensures forall i :: !FirstCover([], i, c)
    {
    }
    assert Owned(r.n, g.board, 1) == {} && Owned(r.n, g.board, 2) == {};
  }

  lemma PlaceBoardOk(n: nat, b: Board, ms: seq<Move>, m: Move)
    requires BoardOk(n, b, ms) && InGrid(n, m.cell) && At(n, b, m.cell) == 0 && 0 < m.num <= 2
    ensures BoardOk(n, Fill(n, b, Cross(m.cell), m.num), ms + [m])
  {
    PlaceExplains(n, b, ms, m);
  }

  lemma PlaceScoresOk(n: nat, b: Board, players: seq<PlayerId>, scores: map<PlayerId, int>, p: PlayerId,
                      cells: set<Cell>)
    requires ScoresOk(n, b, players, scores) && p in players
    ensures ScoresOk(n, Fill(n, b, cells, NumberOf(players, p)), players,
                     scores[p := GetOr(scores, p, 0) + |Claimed(n, b, cells)|])
  {
    FillCounts(n, b, cells, NumberOf(players, p), 1);
    FillCounts(n, b, cells, NumberOf(players, p), 2);
  }

  lemma AdvanceParts(r: Rules, g: Game, p: PlayerId, c: Cell)
    requires Playable(r, g)
    ensures var g' := Advance(r, g, p, c);
      && g'.board == Fill(r.n, g.board, Cross(c), NumberOf(g.players, p))
      && g'.scores == g.scores[p := GetOr(g.scores, p, 0) + |Claimed(r.n, g.board, Cross(c))|]
      && g'.turn == g.turn + 1
  {
  }

  lemma AdvanceExplained(r: Rules, g: Game, ms: seq<Move>, p: PlayerId, c: Cell)
    requires Explained(r, g, ms) && p in g.players && InGrid(r.n, c) && At(r.n, g.board, c) == 0
    ensures Explained(r, Advance(r, g, p, c), ms + [Move(c, NumberOf(g.players, p))])
  {
    AdvanceParts(r, g, p, c);
    NextExplained(r, g, ms, p, c, Advance(r, g, p, c));
  }

  lemma NextExplained(r: Rules, g: Game, ms: seq<Move>, p: PlayerId, c: Cell, g': Game)
    requires Explained(r, g, ms) && p in g.players && InGrid(r.n, c) && At(r.n, g.board, c) == 0
    requires Playable(r, g') && g'.players == g.players && g'.turn == g.turn + 1
    requires g'.board == Fill(r.n, g.board, Cross(c), NumberOf(g.players, p))
    requires g'.scores == g.scores[p := GetOr(g.scores, p, 0) + |Claimed(r.n, g.board, Cross(c))|]
    ensures Explained(r, g', ms + [Move(c, NumberOf(g.players, p))])
  {
    assert BoardOk(r.n, g'.board, ms + [Move(c, NumberOf(g.players, p))]) by {
      PlaceBoardOk(r.n, g.board, ms, Move(c, NumberOf(g.players, p)));
    }
    assert ScoresOk(r.n, g'.board, g'.players, g'.scores) by {
      PlaceScoresOk(r.n, g.board, g.players, g.scores, p, Cross(c));
    }
  }

  /** The cells that were empty and are not any more. */
  ghost function Filled(n: nat, before: Board, after: Board): set<Cell>
    requires Shaped(n, before) && Shaped(n, after)
  {
    set c | c in Cells(n) && before[c.y][c.x] == 0 && after[c.y][c.x] != 0
  }

  /** The placement's own cell and the four beside it. */
  predicate Touches(a: Action, x: int, y: int) {
    a.Place? && a.x.Some? && a.y.Some? &&
    ((x == a.x.value && a.y.value - 1 <= y <= a.y.value + 1) || (y == a.y.value && a.x.value - 1 <= x <= a.x.value + 1))
  }

  /** What an accepted action does to the board of any game, restored ones included: the player's
      number fills the empty cells that it touches, and each of them scores. */
  lemma ActFills(r: Rules, g: Game, p: PlayerId, a: Action)
    requires Playable(r, g) && Judge(r, g, p, a) == Accepted
    ensures var g' := Act(r, g, p, a); var num := if p == g.players[0] then 1 else 2;
      forall x, y :: 0 <= x < r.n && 0 <= y < r.n ==>
        g'.board[y][x] == if g.board[y][x] == 0 && Touches(a, x, y) then num else g.board[y][x]
    ensures var g' := Act(r, g, p, a); var score := if p in g.scores then g.scores[p] else 0;
      g'.scores == g.scores[p := score + |Filled(r.n, g.board, g'.board)|]
  {
    var c, num := Cell(a.x.value, a.y.value), NumberOf(g.players, p);
    AdvanceParts(r, g, p, c);
    forall x, y | 0 <= x < r.n && 0 <= y < r.n
      ensures var after := Act(r, g, p, a).board[y][x];
        after == if g.board[y][x] == 0 && Touches(a, x, y) then num else g.board[y][x]
    {
      FillsCell(r.n, g.board, c, num, a, x, y);
    }
    FilledIsClaimed(r.n, g.board, Cross(c), num);
  }

  lemma FillsCell(n: nat, b: Board, c: Cell, num: nat, a: Action, x: int, y: int)
    requires Shaped(n, b) && 0 <= x < n && 0 <= y < n && a == Place(Some(c.x), Some(c.y))
    ensures Fill(n, b, Cross(c), num)[y][x] == if b[y][x] == 0 && Touches(a, x, y) then num else b[y][x]
  {
    CrossIsNear(c);
    assert At(n, Fill(n, b, Cross(c), num), Cell(x, y)) == Fill(n, b, Cross(c), num)[y][x];
    assert At(n, b, Cell(x, y)) == b[y][x];
    assert Near(c, Cell(x, y)) <==> Touches(a, x, y);
  }

  lemma FilledIsClaimed(n: nat, b: Board, cells: set<Cell>, num: nat)
    requires Shaped(n, b) && num != 0
    ensures Filled(n, b, Fill(n, b, cells, num)) == Claimed(n, b, cells)
  {
    var after := Fill(n, b, cells, num);
    forall c | InGrid(n, c)
      ensures c in Filled(n, b, after) <==> c in Claimed(n, b, cells)
    {
      assert At(n, after, c) == after[c.y][c.x] && At(n, b, c) == b[c.y][c.x];
    }
  }

  /** And to the rest: it is recorded under its turn, and either ends the game, at the turn cap or with
      no cell left empty, in favour of the higher score, or passes the turn. */
  lemma ActRecords(r: Rules, g: Game, p: PlayerId, a: Action)
    requires Playable(r, g) && Judge(r, g, p, a) == Accepted
    ensures var g' := Act(r, g, p, a);
      g'.turn == g.turn + 1 && g'.history == g.history + [Entry(p, a, g.turn)] && g'.disconnected == g.disconnected
    ensures var g' := Act(r, g, p, a);
      if g'.turn >= r.maxTurns || forall x, y :: 0 <= x < r.n && 0 <= y < r.n ==> g'.board[y][x] != 0 then
        var s1, s2 := GetOr(g'.scores, g.players[0], 0), GetOr(g'.scores, g.players[1], 0);
        && g'.status == Finished && g'.current == g.current
        && (g'.winner == Some(g.players[0]) <==> s1 > s2) && (g'.winner == Some(g.players[1]) <==> s2 > s1)
        && (g'.winner == None <==> s1 == s2)
      else
        g'.status == InProgress && g'.current == 1 - g.current && g'.winner == g.winner
  {
    assert a == Place(Some(a.x.value), Some(a.y.value));
    FullByCells(r.n, Act(r, g, p, a).board);
  }

  lemma FullByCells(n: nat, b: Board)
    requires Shaped(n, b)
    ensures Full(n, b) <==> forall x, y :: 0 <= x < n && 0 <= y < n ==> b[y][x] != 0
  {
    if forall x, y :: 0 <= x < n && 0 <= y < n ==> b[y][x] != 0 {
      assert forall c :: InGrid(n, c) ==> b[c.y][c.x] == At(n, b, c) != 0;
    }
    if Full(n, b) {
      forall x, y | 0 <= x < n && 0 <= y < n
        ensures b[y][x] != 0
      {
        assert At(n, b, Cell(x, y)) == b[y][x];
      }
    }
  }

  lemma CellNumbers(r: Rules, g: Game, ms: seq<Move>, c: Cell)
    requires Explained(r, g, ms) && InGrid(r.n, c)
    ensures At(r.n, g.board, c) <= 2
  {
    if i :| Covers(ms, i, c) {
      var first := FirstCoverExists(ms, i, c);
    }
  }

  /** The two scores and the empty cells always add up to the board. */
  lemma ScoreConservation(r: Rules, g: Game, ms: seq<Move>)
    requires Explained(r, g, ms)
    ensures g.scores[g.players[0]] + g.scores[g.players[1]] + |Owned(r.n, g.board, 0)| == r.n * r.n
  {
    forall c | InGrid(r.n, c)
      ensures At(r.n, g.board, c) <= 2
    {
      CellNumbers(r, g, ms, c);
    }
    Conservation(r.n, g.board);
  }

  /** On a full board the leader owns more than half of the cells, and a draw is an exact half. */
  lemma FullBoardMajority(r: Rules, g: Game, ms: seq<Move>)
    requires Explained(r, g, ms) && Full(r.n, g.board)
    ensures var lead := Leader(g.players, g.scores);
      && (lead.Some? ==> lead.value in g.scores && 2 * g.scores[lead.value] > r.n * r.n)
      && (lead.None? <==> 2 * g.scores[g.players[0]] == r.n * r.n)
  {
    ScoreConservation(r, g, ms);
    assert Owned(r.n, g.board, 0) == {};
  }

  // ---- Replaying a history ----

  /** The game that the actions of a history produce from the start. */
  ghost function Replay(r: Rules, start: Game, h: seq<Entry>): (g: Game)
    requires Playable(r, start)
    ensures Playable(r, g) && g.players == start.players && g.elos == start.elos
  {
    if h == [] then start
    else
      var last := h[|h| - 1];
      Act(r, Replay(r, start, h[..|h| - 1]), last.player, last.action)
  }

  /** Every entry was accepted in its turn. */
  ghost predicate Legal(r: Rules, start: Game, h: seq<Entry>)
    requires Playable(r, start)
  {
    forall k :: 0 <= k < |h| ==> LegalEntry(r, start, h, k)
  }

  ghost predicate LegalEntry(r: Rules, start: Game, h: seq<Entry>, k: nat)
    requires Playable(r, start) && k < |h|
  {
    h[k].turn == k && Judge(r, Replay(r, start, h[..k]), h[k].player, h[k].action) == Accepted
  }

  lemma LegalPrefix(r: Rules, start: Game, h: seq<Entry>, k: nat)
    requires Playable(r, start) && Legal(r, start, h) && k <= |h|
    ensures Legal(r, start, h[..k])
  {
    forall j | 0 <= j < k
      ensures LegalEntry(r, start, h[..k], j)
    {
      assert LegalEntry(r, start, h, j) && h[..k][..j] == h[..j];
    }
  }

  lemma LegalExtend(r: Rules, start: Game, h: seq<Entry>, e: Entry)
    requires Playable(r, start) && Legal(r, start, h) && e.turn == |h|
    requires Judge(r, Replay(r, start, h), e.player, e.action) == Accepted
    ensures Legal(r, start, h + [e])
    ensures Replay(r, start, h + [e]) == Act(r, Replay(r, start, h), e.player, e.action)
  {
    assert (h + [e])[..|h|] == h;
    forall j | 0 <= j <= |h|
      ensures LegalEntry(r, start, h + [e], j)
    {
      if j < |h| {
        assert LegalEntry(r, start, h, j) && (h + [e])[..j] == h[..j];
      }
    }
  }

  function MoveOf(players: seq<PlayerId>, e: Entry): Move
    requires TwoPlayers(players)
  {
    if e.action.Place? && e.action.x.Some? && e.action.y.Some?
    then Move(Cell(e.action.x.value, e.action.y.value), NumberOf(players, e.player))
    else Move(Cell(-1, -1), 0)
  }

  function MovesOf(players: seq<PlayerId>, h: seq<Entry>): seq<Move>
    requires TwoPlayers(players)
  {
    seq(|h|, i requires 0 <= i < |h| => MoveOf(players, h[i]))
  }

  /** Strict alternation: entry i has turn i and belongs to player i mod 2. */
  predicate Alternates(players: seq<PlayerId>, h: seq<Entry>)
    requires |players| == 2
  {
    forall i :: 0 <= i < |h| ==> h[i].turn == i && h[i].player == players[i % 2]
  }

  ghost predicate Over(r: Rules, g: Game)
    requires Playable(r, g)
  {
    g.turn > 0 && Exhausted(r, g.turn, g.board)
  }

  /** The history h is what the game recorded, is strictly alternating, and the game is over exactly
      when its last action exhausted it. */
  ghost predicate InOrder(r: Rules, g: Game, h: seq<Entry>) {
    && Playable(r, g)
    && g.history == h
    && g.turn == |h|
    && Alternates(g.players, h)
    && g.disconnected == {}
    && EndsInOrder(r, g)
  }

  ghost predicate EndsInOrder(r: Rules, g: Game)
    requires Playable(r, g)
  {
    if Over(r, g) then
      g.status == Finished && g.winner == Leader(g.players, g.scores) && g.current == (g.turn - 1) % 2
    else
      g.status == InProgress && g.winner == None && g.current == g.turn % 2
  }

  ghost predicate Sound(r: Rules, g: Game, h: seq<Entry>) {
    InOrder(r, g, h) && Explained(r, g, MovesOf(g.players, h))
  }

  lemma ActEndsInOrder(r: Rules, g: Game, p: PlayerId, a: Action)
    requires Playable(r, g) && EndsInOrder(r, g) && Judge(r, g, p, a) == Accepted
    ensures EndsInOrder(r, Act(r, g, p, a))
  {
  }

  lemma ActInOrder(r: Rules, g: Game, h: seq<Entry>, p: PlayerId, a: Action)
    requires InOrder(r, g, h) && Judge(r, g, p, a) == Accepted
    ensures InOrder(r, Act(r, g, p, a), h + [Entry(p, a, |h|)])
  {
    assert a == Place(Some(a.x.value), Some(a.y.value));
    assert !Over(r, g);
    AlternatesOn(g.players, h, Entry(p, a, |h|));
    ActEndsInOrder(r, g, p, a);
  }

  lemma AlternatesOn(players: seq<PlayerId>, h: seq<Entry>, e: Entry)
    requires |players| == 2 && Alternates(players, h) && e.turn == |h| && e.player == players[|h| % 2]
    ensures Alternates(players, h + [e])
  {
  }

  lemma MovesGrow(players: seq<PlayerId>, h: seq<Entry>, e: Entry)
    requires TwoPlayers(players)
    ensures MovesOf(players, h + [e]) == MovesOf(players, h) + [MoveOf(players, e)]
  {
  }

  lemma ActSound(r: Rules, g: Game, h: seq<Entry>, p: PlayerId, a: Action)
    requires Sound(r, g, h) && Judge(r, g, p, a) == Accepted
    ensures Sound(r, Act(r, g, p, a), h + [Entry(p, a, |h|)])
  {
    var e := Entry(p, a, |h|);
    ActInOrder(r, g, h, p, a);
    AdvanceExplained(r, g, MovesOf(g.players, h), p, Cell(a.x.value, a.y.value));
    MovesGrow(g.players, h, e);
    assert MoveOf(g.players, e) == Move(Cell(a.x.value, a.y.value), NumberOf(g.players, p));
  }

  lemma LastEntry(r: Rules, start: Game, h: seq<Entry>)
    requires Playable(r, start) && Legal(r, start, h) && h != []
    ensures var k := |h| - 1;
      && Legal(r, start, h[..k])
      && h == h[..k] + [Entry(h[k].player, h[k].action, k)]
      && Judge(r, Replay(r, start, h[..k]), h[k].player, h[k].action) == Accepted
  {
    LegalPrefix(r, start, h, |h| - 1);
    assert LegalEntry(r, start, h, |h| - 1);
  }

  lemma {:induction false} ReplaySound(r: Rules, players: seq<PlayerId>, elos: map<PlayerId, int>, h: seq<Entry>)
    requires TwoPlayers(players) && Legal(r, Created(r, players, elos), h)
    ensures Sound(r, Replay(r, Created(r, players, elos), h), h)
  {
    var start := Created(r, players, elos);
    if h == [] {
      CreatedExplained(r, players, elos);
      assert MovesOf(players, h) == [];
    } else {
      var k := |h| - 1;
      LastEntry(r, start, h);
      ReplaySound(r, players, elos, h[..k]);
      ActSound(r, Replay(r, start, h[..k]), h[..k], h[k].player, h[k].action);
    }
  }

  /** A game is genuine when it is what its own history replays to. */
  ghost predicate Genuine(r: Rules, g: Game) {
    && TwoPlayers(g.players)
    && Legal(r, Created(r, g.players, g.elos), g.history)
    && g == Replay(r, Created(r, g.players, g.elos), g.history)
  }

  lemma GenuineSound(r: Rules, g: Game)
    requires Genuine(r, g)
    ensures Sound(r, g, g.history)
  {
    ReplaySound(r, g.players, g.elos, g.history);
  }

  lemma ActGenuine(r: Rules, g: Game, p: PlayerId, a: Action)
    requires Genuine(r, g) && Judge(r, g, p, a) == Accepted
    ensures var g' := Act(r, g, p, a); Genuine(r, g') && g'.history == g.history + [Entry(p, a, g.turn)]
  {
    GenuineSound(r, g);
    ActInOrder(r, g, g.history, p, a);
    LegalExtend(r, Created(r, g.players, g.elos), g.history, Entry(p, a, g.turn));
  }

  // ---- Exactly which games can be played ----

  function HistoryOf(players: seq<PlayerId>, cs: seq<Cell>): seq<Entry>
    requires |players| == 2
  {
    seq(|cs|, i requires 0 <= i < |cs| => Entry(players[i % 2], Place(Some(cs[i].x), Some(cs[i].y)), i))
  }

  /** Cells of the grid, pairwise distinct and non-adjacent. */
  ghost predicate SpacedCells(n: nat, cs: seq<Cell>) {
    && (forall i :: 0 <= i < |cs| ==> InGrid(n, cs[i]))
    && forall i, j :: 0 <= i < j < |cs| ==> !Near(cs[i], cs[j])
  }

  function Cap(r: Rules): nat {
    if r.maxTurns == 0 then 1 else r.maxTurns
  }

  /** The games of at most MAX_TURNS moves are exactly the sequences of pairwise distinct and
      non-adjacent cells: nothing else can be played, and each of them can, in any order. */
  lemma LegalIffSpaced(r: Rules, players: seq<PlayerId>, elos: map<PlayerId, int>, cs: seq<Cell>)
    requires TwoPlayers(players)
    ensures Legal(r, Created(r, players, elos), HistoryOf(players, cs))
      <==> SpacedCells(r.n, cs) && |cs| <= Cap(r)
  {
    if Legal(r, Created(r, players, elos), HistoryOf(players, cs)) {
      LegalIsSpaced(r, players, elos, cs);
    }
    if SpacedCells(r.n, cs) && |cs| <= Cap(r) {
      SpacedIsLegal(r, players, elos, cs);
    }
  }

  lemma LegalIsSpaced(r: Rules, players: seq<PlayerId>, elos: map<PlayerId, int>, cs: seq<Cell>)
    requires TwoPlayers(players) && Legal(r, Created(r, players, elos), HistoryOf(players, cs))
    ensures SpacedCells(r.n, cs) && |cs| <= Cap(r)
  {
    var h := HistoryOf(players, cs);
    ReplaySound(r, players, elos, h);
    SpacedMoves(r.n, MovesOf(players, h), cs);
    LegalWithinCap(r, players, elos, h);
  }

  lemma LegalWithinCap(r: Rules, players: seq<PlayerId>, elos: map<PlayerId, int>, h: seq<Entry>)
    requires TwoPlayers(players) && Legal(r, Created(r, players, elos), h)
    ensures |h| <= Cap(r)
  {
    if h != [] {
      var k := |h| - 1;
      LastEntry(r, Created(r, players, elos), h);
      ReplaySound(r, players, elos, h[..k]);
      RunningBelowCap(r, Replay(r, Created(r, players, elos), h[..k]), h[..k]);
    }
  }

  lemma RunningBelowCap(r: Rules, g: Game, h: seq<Entry>)
    requires InOrder(r, g, h) && g.status == InProgress
    ensures |h| < Cap(r)
  {
  }

  lemma SpacedMoves(n: nat, ms: seq<Move>, cs: seq<Cell>)
    requires Spaced(n, ms) && |ms| == |cs| && forall i :: 0 <= i < |cs| ==> ms[i].cell == cs[i]
    ensures SpacedCells(n, cs)
  {
  }

  lemma UnreachedIsEmpty(r: Rules, g: Game, cs: seq<Cell>, ms: seq<Move>, c: Cell)
    requires Explained(r, g, ms) && |ms| == |cs| && forall i :: 0 <= i < |cs| ==> ms[i].cell == cs[i]
    requires InGrid(r.n, c) && forall i :: 0 <= i < |cs| ==> !Near(cs[i], c)
    ensures At(r.n, g.board, c) == 0
  {
    forall i
      ensures !Covers(ms, i, c)
    {
    }
    EmptyIffUncovered(r.n, g.board, ms, c);
  }

  lemma StillRunning(r: Rules, g: Game, h: seq<Entry>, c: Cell)
    requires InOrder(r, g, h) && |h| < Cap(r) && InGrid(r.n, c) && At(r.n, g.board, c) == 0
    ensures g.status == InProgress && g.current == |h| % 2
  {
    assert !Over(r, g);
  }

  /** A game that is not over accepts any cell of the grid that none of its placements reaches. */
  lemma UnreachedIsAccepted(r: Rules, g: Game, h: seq<Entry>, cs: seq<Cell>, c: Cell)
    requires Sound(r, g, h) && h == HistoryOf(g.players, cs) && |cs| < Cap(r)
    requires InGrid(r.n, c) && forall i :: 0 <= i < |cs| ==> !Near(cs[i], c)
    ensures Judge(r, g, g.players[|cs| % 2], Place(Some(c.x), Some(c.y))) == Accepted
  {
    UnreachedIsEmpty(r, g, cs, MovesOf(g.players, h), c);
    StillRunning(r, g, h, c);
  }

  lemma LegalThenUnreached(r: Rules, players: seq<PlayerId>, elos: map<PlayerId, int>, cs: seq<Cell>, c: Cell)
    requires TwoPlayers(players) && Legal(r, Created(r, players, elos), HistoryOf(players, cs)) && |cs| < Cap(r)
    requires InGrid(r.n, c) && forall i :: 0 <= i < |cs| ==> !Near(cs[i], c)
    ensures Legal(r, Created(r, players, elos), HistoryOf(players, cs + [c]))
  {
    var start, h, k := Created(r, players, elos), HistoryOf(players, cs), |cs|;
    var e := Entry(players[k % 2], Place(Some(c.x), Some(c.y)), k);
    assert Judge(r, Replay(r, start, h), e.player, e.action) == Accepted by {
      ReplaySound(r, players, elos, h);
      UnreachedIsAccepted(r, Replay(r, start, h), h, cs, c);
    }
    LegalExtend(r, start, h, e);
    HistoryGrows(players, cs, c);
  }

  lemma HistoryGrows(players: seq<PlayerId>, cs: seq<Cell>, c: Cell)
    requires |players| == 2
    ensures HistoryOf(players, cs + [c])
      == HistoryOf(players, cs) + [Entry(players[|cs| % 2], Place(Some(c.x), Some(c.y)), |cs|)]
  {
  }

  lemma {:induction false} SpacedIsLegal(r: Rules, players: seq<PlayerId>, elos: map<PlayerId, int>, cs: seq<Cell>)
    requires TwoPlayers(players) && SpacedCells(r.n, cs) && |cs| <= Cap(r)
    ensures Legal(r, Created(r, players, elos), HistoryOf(players, cs))
  {
    if cs != [] {
      var k := |cs| - 1;
      assert SpacedCells(r.n, cs[..k]) && forall i :: 0 <= i < k ==> cs[..k][i] == cs[i];
      SpacedIsLegal(r, players, elos, cs[..k]);
      LegalThenUnreached(r, players, elos, cs[..k], cs[k]);
      assert cs == cs[..k] + [cs[k]];
    }
  }

  /** Every legal game is shorter than half the board, rounded up... */
  lemma GameLengthBound(r: Rules, players: seq<PlayerId>, elos: map<PlayerId, int>, h: seq<Entry>)
    requires TwoPlayers(players) && Legal(r, Created(r, players, elos), h)
    ensures 2 * |h| <= r.n * r.n + 1
    ensures Full(r.n, Replay(r, Created(r, players, elos), h).board) ==> r.n * r.n <= 5 * |h|
  {
    ReplaySound(r, players, elos, h);
    var g := Replay(r, Created(r, players, elos), h);
    TurnBound(r.n, MovesOf(players, h));
    FilledBound(r.n, g.board, MovesOf(players, h));
    if Full(r.n, g.board) {
      assert Owned(r.n, g.board, 0) == {};
    }
  }

  /** ...and that length is reached: the cells of one colour can all be placed. */
  lemma LongestGame(r: Rules, players: seq<PlayerId>, elos: map<PlayerId, int>) returns (h: seq<Entry>)
    requires TwoPlayers(players) && (r.n * r.n + 1) / 2 <= Cap(r)
    ensures Legal(r, Created(r, players, elos), h)
    ensures |h| == (r.n * r.n + 1) / 2
  {
    AboveIs(r.n, r.n);
    var cs := EvenCells(r.n, (r.n * r.n + 1) / 2);
    h := HistoryOf(players, cs);
    LegalIffSpaced(r, players, elos, cs);
  }

  lemma EvenCells(n: nat, half: nat) returns (cs: seq<Cell>)
    requires 2 * half <= Above(n, n) + 1
    ensures |cs| == half && SpacedCells(n, cs)
  {
    cs := seq(half, i requires 0 <= i => PathCell(n, 2 * i));
    forall i | 0 <= i < half
      ensures InGrid(n, cs[i]) && Even(cs[i]) && PathIndex(n, cs[i]) == 2 * i
    {
      PathFacts(n, 2 * i);
      PathColour(n, i);
    }
    forall i, j | 0 <= i < j < half
      ensures !Near(cs[i], cs[j])
    {
      SameColour(cs[i], cs[j]);
    }
  }

  /** When the turn cap is not below that bound it never ends a game: a legal game that is finished
      has a full board, and its leader owns more than half of it. */
  lemma FinishedIsFull(r: Rules, players: seq<PlayerId>, elos: map<PlayerId, int>, h: seq<Entry>)
    requires TwoPlayers(players) && Legal(r, Created(r, players, elos), h)
    requires r.n * r.n + 1 < 2 * r.maxTurns
    ensures var g := Replay(r, Created(r, players, elos), h);
      g.status == Finished ==>
        && Full(r.n, g.board)
        && r.n * r.n <= 5 * |h|
        && g.scores.Keys == {players[0], players[1]}
        && g.scores[players[0]] + g.scores[players[1]] == r.n * r.n
        && (g.winner.Some? ==> g.winner.value in players && 2 * g.scores[g.winner.value] > r.n * r.n)
        && (g.winner.None? <==> 2 * g.scores[players[0]] == r.n * r.n)
  {
    var g := Replay(r, Created(r, players, elos), h);
    GameLengthBound(r, players, elos, h);
    ReplaySound(r, players, elos, h);
    if g.status == Finished {
      assert Over(r, g);
      FullBoardMajority(r, g, MovesOf(players, h));
      ScoreConservation(r, g, MovesOf(players, h));
      assert Owned(r.n, g.board, 0) == {};
    }
  }

  /** On the standard board: at most 50 turns, never the cap of 100; a finished game took at least
      20, its winner owns at least 51 cells, and a draw is 50 to 50. */
  lemma StandardGame(players: seq<PlayerId>, elos: map<PlayerId, int>, h: seq<Entry>)
    requires TwoPlayers(players) && Legal(STANDARD, Created(STANDARD, players, elos), h)
    ensures |h| <= 50
    ensures var g := Replay(STANDARD, Created(STANDARD, players, elos), h);
      g.status == Finished ==>
        && Full(10, g.board)
        && |h| >= 20
        && g.scores.Keys == {players[0], players[1]}
        && (g.winner.Some? ==> g.winner.value in players && g.scores[g.winner.value] >= 51)
        && (g.winner.None? <==> g.scores[players[0]] == 50 && g.scores[players[1]] == 50)
  {
    GameLengthBound(STANDARD, players, elos, h);
    FinishedIsFull(STANDARD, players, elos, h);
  }
}
