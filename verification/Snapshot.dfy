/** Saving a game to its Redis snapshot and restoring it on another instance. */
module Snapshot {
  import opened Wrappers
  import opened Grid
  import opened Territory
  import opened GameRules

  datatype Saved = Saved(
    turn: nat,
    currentPlayer: PlayerId,
    board: Board,
    scores: map<PlayerId, int>,
    history: seq<Entry>,
    status: Status,
    winner: Option<PlayerId>)

  const KEPT: nat := 20

  function Tail<T>(s: seq<T>, k: nat): seq<T> {
    if |s| <= k then s else s[|s| - k..]
  }

  function Save(g: Game): Saved
    requires TwoPlayers(g.players) && g.current < 2
  {
    Saved(g.turn, g.players[g.current], g.board, g.scores, Tail(g.history, KEPT), g.status, g.winner)
  }

  /** The player list comes from the room record; everything not listed here gets its default. */
  function Restore(players: seq<PlayerId>, s: Saved): Game {
    Game(players, map[], 0, s.board, s.scores, s.turn, s.status, s.winner, s.history, {})
  }

  function Restored(g: Game): Game
    requires TwoPlayers(g.players) && g.current < 2
  {
    Restore(g.players, Save(g))
  }

  // ---- What survives ----

  /** What a restored game has of the original, and what it has lost: the ratings, who was missing and,
      for the second player, the turn. */
  lemma RestoredKeeps(g: Game)
    requires TwoPlayers(g.players) && g.current < 2
    ensures var h := Restored(g);
      && h.players == g.players && h.board == g.board && h.scores == g.scores && h.turn == g.turn
      && h.status == g.status && h.winner == g.winner
      && |h.history| == (if |g.history| < 20 then |g.history| else 20)
      && h.history == g.history[|g.history| - |h.history|..]
      && h.current == 0 && h.disconnected == {} && h.elos == map[]
  {
  }

  /** The restored game judges every action of every player as the original exactly when the original
      was not running or the first player was to move. */
  lemma RestoredVerdictsIff(r: Rules, g: Game)
    requires Playable(r, g)
    ensures (forall p, a :: Judge(r, Restored(g), p, a) == Judge(r, g, p, a))
      <==> g.status != InProgress || g.current == 0
  {
    if g.status == InProgress && g.current != 0 {
      var p, a := g.players[1], OtherAction("");
      assert Judge(r, Restored(g), p, a) == NotYourTurn && Judge(r, g, p, a) == UnknownAction;
    }
  }

  /** The player that a snapshot of a running game names is the one whose turn it is. */
  lemma SavedMover(r: Rules, g: Game, p: PlayerId, a: Action)
    requires Playable(r, g) && g.status == InProgress
    ensures Judge(r, g, p, a) == NotYourTurn <==> p != Save(g).currentPlayer
  {
  }

  /** Saving a restored game again gives the same snapshot, except for the player to move, which
      survives exactly when it was the first player. */
  lemma SaveRestoreSave(g: Game)
    requires TwoPlayers(g.players) && g.current < 2
    ensures Save(Restored(g)).(currentPlayer := Save(g).currentPlayer) == Save(g)
    ensures Save(Restored(g)) == Save(g) <==> g.current == 0
    ensures var lost := if |g.history| <= KEPT then 0 else |g.history| - KEPT;
      Restored(g).history == g.history[lost..]
  {
  }

  lemma RestoredExplained(r: Rules, g: Game, ms: seq<Move>)
    requires Explained(r, g, ms)
    ensures Explained(r, Restored(g), ms)
  {
  }

  // ---- Playing on ----

  datatype Input = Input(player: PlayerId, action: Action)

  ghost function Play(r: Rules, g: Game, inputs: seq<Input>): (g': Game)
    requires Playable(r, g)
    ensures Playable(r, g') && g'.players == g.players
  {
    if inputs == [] then g
    else
      var k := |inputs| - 1;
      Act(r, Play(r, g, inputs[..k]), inputs[k].player, inputs[k].action)
  }

  /** Any further play, of a restored game or not, keeps the placements that explain it and adds to
      them. */
  lemma {:induction false} PlayExplained(r: Rules, g: Game, ms: seq<Move>, inputs: seq<Input>) returns (all: seq<Move>)
    requires Explained(r, g, ms)
    ensures Explained(r, Play(r, g, inputs), all) && ms <= all
  {
    if inputs == [] {
      all := ms;
    } else {
      var k := |inputs| - 1;
      var before := Play(r, g, inputs[..k]);
      all := PlayExplained(r, g, ms, inputs[..k]);
      var p, a := inputs[k].player, inputs[k].action;
      if Judge(r, before, p, a) == Accepted {
        var c := Cell(a.x.value, a.y.value);
        AdvanceExplained(r, before, all, p, c);
        all := all + [Move(c, NumberOf(g.players, p))];
      }
    }
  }

  /** A game that is saved at any moment, restored, and played on stays within the turn bound of an
      uninterrupted game, and its scores still count the cells. */
  lemma RestoredPlayBound(r: Rules, g: Game, ms: seq<Move>, inputs: seq<Input>)
    requires Explained(r, g, ms)
    ensures var end := Play(r, Restored(g), inputs);
      && 2 * end.turn <= r.n * r.n + 1
      && ScoresOk(r.n, end.board, end.players, end.scores)
      && forall c :: InGrid(r.n, c) && At(r.n, g.board, c) != 0 ==>
           At(r.n, end.board, c) == At(r.n, g.board, c)
  {
    RestoredExplained(r, g, ms);
    var all := PlayExplained(r, Restored(g), ms, inputs);
    TurnBound(r.n, all);
    var end := Play(r, Restored(g), inputs);
    forall c | InGrid(r.n, c) && At(r.n, g.board, c) != 0
      ensures At(r.n, end.board, c) == At(r.n, g.board, c)
    {
      OwnerStays(r.n, g.board, end.board, ms, all, c);
    }
  }

  lemma OwnerStays(n: nat, before: Board, after: Board, ms: seq<Move>, all: seq<Move>, c: Cell)
    requires BoardOk(n, before, ms) && BoardOk(n, after, all) && ms <= all
    requires InGrid(n, c) && At(n, before, c) != 0
    ensures At(n, after, c) == At(n, before, c)
  {
    EmptyIffUncovered(n, before, ms, c);
    var i :| Covers(ms, i, c);
    var first := FirstCoverExists(ms, i, c);
    FirstCoverStays(ms, all, first, c);
    OwnerOfFirst(n, before, ms, first, c);
    OwnerOfFirst(n, after, all, first, c);
  }

  lemma FirstCoverStays(ms: seq<Move>, all: seq<Move>, first: int, c: Cell)
    requires FirstCover(ms, first, c) && ms <= all
    ensures FirstCover(all, first, c) && all[first] == ms[first]
  {
    forall j | j < first
      ensures !Covers(all, j, c)
    {
      assert !Covers(ms, j, c);
    }
  }

  lemma OwnerOfFirst(n: nat, b: Board, ms: seq<Move>, first: int, c: Cell)
    requires BoardOk(n, b, ms) && InGrid(n, c) && FirstCover(ms, first, c)
    ensures At(n, b, c) == ms[first].num
  {
  }
}
