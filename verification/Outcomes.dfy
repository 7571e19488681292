/** What every interleaving of the coroutines around one game guarantees, and exactly when. */
module Outcomes {
  import opened Wrappers
  import opened Territory
  import opened GameRules
  import opened Lifecycle
  import Snapshot

  // ---- Status ----

  /** A running game has nobody disconnected; a pause is exactly one disconnected player of an
      unfinished game; a game is finished exactly when it was ended by the board or by a forfeit. */
  lemma StatusMeaning(u: Setup, s: System)
    requires Reachable(u, s) && u.grace >= 0.0
    ensures s.game.status == InProgress ==> s.game.disconnected == {}
    ensures s.game.status == Paused <==> s.outcome == Open && |s.game.disconnected| == 1
    ensures s.game.status == Finished <==> s.outcome != Open
    ensures s.game.status == InProgress || s.game.status == Paused || s.game.status == Finished
    ensures !s.listed ==> s.game.status == Finished && s.completions >= 1
  {
    ReachableInv(u, s);
  }

  // ---- The board ----

  lemma GameOkSound(u: Setup, s: System)
    requires GameOk(u, s)
    ensures Playable(u.rules, s.game)
    ensures Explained(u.rules, s.game, MovesOf(s.game.players, s.game.history))
    ensures Alternates(s.game.players, s.game.history) && |s.game.history| == s.game.turn
    ensures s.game.current == (if s.outcome == ByBoard then s.game.turn - 1 else s.game.turn) % 2
    ensures s.outcome == ByBoard <==> Over(u.rules, s.game)
    ensures s.outcome == ByBoard ==> s.game.winner == Leader(s.game.players, s.game.scores)
  {
    var g := if s.outcome == ByBoard then s.game else Unpaused(s.game);
    GenuineSound(u.rules, g);
    assert Over(u.rules, g) == Over(u.rules, s.game);
  }

  /** In every reachable state, whatever was paused, rejected or forfeited on the way: turns
      alternate strictly, each cell belongs to the first placement that reaches it, the scores count
      the cells, and at most half of the cells (rounded up) were placed on. */
  lemma BoardMeaning(u: Setup, s: System)
    requires Reachable(u, s) && u.grace >= 0.0
    ensures Playable(u.rules, s.game)
    ensures Explained(u.rules, s.game, MovesOf(s.game.players, s.game.history))
    ensures Alternates(s.game.players, s.game.history) && |s.game.history| == s.game.turn
    ensures s.game.current == (if s.outcome == ByBoard then s.game.turn - 1 else s.game.turn) % 2
    ensures 2 * s.game.turn <= u.rules.n * u.rules.n + 1
    ensures s.outcome == ByBoard ==>
      s.game.winner == Leader(s.game.players, s.game.scores) && Exhausted(u.rules, s.game.turn, s.game.board)
  {
    ReachableInv(u, s);
    GameOkSound(u, s);
    TurnBound(u.rules.n, MovesOf(s.game.players, s.game.history));
  }

  /** The state of a game is a function of its players and its history: replaying the history from
      the start gives the same board, scores, turn and player to move. */
  lemma ReplayGivesGame(u: Setup, s: System)
    requires Reachable(u, s) && u.grace >= 0.0
    ensures TwoPlayers(s.game.players)
    ensures var start := Created(u.rules, s.game.players, s.game.elos);
      && Legal(u.rules, start, s.game.history)
      && var g := Replay(u.rules, start, s.game.history);
        && g.board == s.game.board && g.scores == s.game.scores && g.turn == s.game.turn
        && g.current == s.game.current && g.history == s.game.history
        && (s.outcome == ByBoard ==> g == s.game)
        && (s.outcome != ByBoard ==> g.status == InProgress)
  {
    ReachableInv(u, s);
  }

  /** On the standard board no reachable game is longer than 50 turns, and one ended by its board is
      full: its winner owns at least 51 cells, and a draw is 50 to 50. */
  lemma StandardOutcome(u: Setup, s: System)
    requires Reachable(u, s) && u.grace >= 0.0 && u.rules == STANDARD
    ensures Playable(STANDARD, s.game) && s.game.turn <= 50
    ensures s.outcome == ByBoard ==>
      && Full(10, s.game.board)
      && s.game.scores.Keys == {s.game.players[0], s.game.players[1]}
      && (s.game.winner.Some? ==> s.game.winner.value in s.game.players && s.game.scores[s.game.winner.value] >= 51)
      && (s.game.winner.None? <==> s.game.scores[s.game.players[0]] == 50 && s.game.scores[s.game.players[1]] == 50)
  {
    ReachableInv(u, s);
    PlayableKept(u, s);
    StandardGame(s.game.players, s.game.elos, s.game.history);
    LengthIsTurn(u, s);
  }

  lemma LengthIsTurn(u: Setup, s: System)
    requires GameOk(u, s)
    ensures |s.game.history| == s.game.turn
    ensures s.outcome == ByBoard ==> s.game.status == Finished
  {
    GameOkSound(u, s);
  }

  lemma WhoseTurn(u: Setup, s: System)
    requires Reachable(u, s) && u.grace >= 0.0
    ensures Playable(u.rules, s.game)
    ensures s.game.current == (if s.outcome == ByBoard then s.game.turn - 1 else s.game.turn) % 2
  {
    ReachableInv(u, s);
    GameOkSound(u, s);
  }

  /** A snapshot keeps the player to move exactly at even turn numbers, while the game is not over;
      a game restored at an odd turn gives the player who moved last another turn. */
  lemma MoverSurvivesRestoreIff(u: Setup, s: System)
    requires Reachable(u, s) && u.grace >= 0.0 && s.outcome != ByBoard
    ensures TwoPlayers(s.game.players) && s.game.current < 2
    ensures var g := Snapshot.Restored(s.game);
      g.players[g.current] == s.game.players[s.game.current] <==> s.game.turn % 2 == 0
  {
    WhoseTurn(u, s);
  }

  predicate Reconnects(steps: seq<Step>) {
    steps != [] && (steps[0].Reconnect? || Reconnects(steps[1..]))
  }

  lemma {:induction false} EmptyPauseRun(u: Setup, s: System, steps: seq<Step>, t: System)
    requires s.game.status == Paused && s.game.disconnected == {}
    requires Reaches(u, s, steps, t) && !Reconnects(steps)
    ensures t.game == s.game
    decreases |steps|
  {
    if steps != [] {
      assert Apply(u, s, steps[0]).game == s.game;
      EmptyPauseRun(u, Apply(u, s, steps[0]), steps[1..], t);
    }
  }

  /** A game saved while paused comes back paused with nobody missing: whatever actions, disconnects
      and timers interleave, it stays as it is until a reconnect, and that of any player resumes it. */
  lemma {:induction false} RestoredPause(u: Setup, g: Game, s: System, steps: seq<Step>, t: System, p: PlayerId)
    requires TwoPlayers(g.players) && g.current < 2 && g.status == Paused
    requires s.game == Snapshot.Restored(g) && Reaches(u, s, steps, t) && !Reconnects(steps)
    ensures t.game == s.game
    ensures t.listed && Enabled(u, t, Reconnect(p)) ==>
      Apply(u, t, Reconnect(p)).game == s.game.(status := InProgress)
  {
    EmptyPauseRun(u, s, steps, t);
    assert s.game.disconnected - {p} == {};
  }

  // ---- Finality ----

  lemma FinalStep(u: Setup, s: System, step: Step)
    requires GameOk(u, s) && s.outcome != Open && Enabled(u, s, step)
    ensures var t := Apply(u, s, step);
      && t.outcome == s.outcome
      && t.game.disconnected <= s.game.disconnected
      && t.game == s.game.(disconnected := t.game.disconnected)
  {
    if step.Fire? && s.outcome == ByBoard {
      BoardEndIsConnected(u, s);
    }
  }

  /** Once a game is finished, no interleaving changes its board, scores, turn, status or winner,
      even when stale timers fire. */
  lemma {:induction false} FinishedIsFinal(u: Setup, s: System, steps: seq<Step>, s': System)
    requires Inv(u, s) && s.game.status == Finished && u.grace >= 0.0 && Reaches(u, s, steps, s')
    ensures s'.outcome == s.outcome
    ensures s'.game.disconnected <= s.game.disconnected
    ensures s'.game == s.game.(disconnected := s'.game.disconnected)
    decreases |steps|
  {
    if steps != [] {
      StepKeeps(u, s, steps[0]);
      FinalStep(u, s, steps[0]);
      FinishedIsFinal(u, Apply(u, s, steps[0]), steps[1..], s');
    }
  }

  // ---- Completion ----

  /** A game ended by its board enters _handle_game_over exactly once: it is either still on its way
      there or has been there, once; and no forfeit ever follows. */
  lemma BoardEndCompletesOnce(u: Setup, s: System, steps: seq<Step>, s': System)
    requires Reachable(u, s) && u.grace >= 0.0 && s.outcome == ByBoard && Reaches(u, s, steps, s')
    ensures s'.outcome == ByBoard && s'.completions + s'.ending == 1 && s'.persisted <= 1
  {
    ReachableInv(u, s);
    FinishedIsFinal(u, s, steps, s');
    RunKeeps(u, s, steps, s');
  }

  /** No finished game is forgotten: while it is still listed, some coroutine is on its way to remove
      it; and it is not removed before its result was handed over. */
  lemma FinishedIsBeingClosed(u: Setup, s: System)
    requires Reachable(u, s) && u.grace >= 0.0 && s.game.status == Finished
    ensures s.listed ==> s.ending + s.reporting + s.saving > 0
    ensures !s.listed ==> s.persisted >= 1
  {
    ReachableInv(u, s);
  }

  ghost predicate OnceOk(s: System, f: PlayerId) {
    && s.game.status == Finished && s.game.disconnected <= {f}
    && s.ending == 0 && s.completions == 1
    && !Awaited(s, f)
  }

  lemma OnceStep(u: Setup, s: System, f: PlayerId, step: Step)
    requires OnceOk(s, f) && Enabled(u, s, step)
    ensures OnceOk(Apply(u, s, step), f)
  {
    NoNewTimer(u, s, f, step);
  }

  /** A finished game starts no timer for a player who has none. */
  lemma NoNewTimer(u: Setup, s: System, f: PlayerId, step: Step)
    requires s.game.status == Finished && !Awaited(s, f) && Enabled(u, s, step)
    ensures !Awaited(Apply(u, s, step), f)
  {
    forall at
      ensures Mark(f, at) !in Apply(u, s, step).timers && Mark(f, at) !in Apply(u, s, step).arming
    {
      NoNewMark(u, s, f, step, at);
    }
  }

  lemma NoNewMark(u: Setup, s: System, f: PlayerId, step: Step, at: real)
    requires s.game.status == Finished && !Awaited(s, f) && Enabled(u, s, step)
    ensures Mark(f, at) !in Apply(u, s, step).timers && Mark(f, at) !in Apply(u, s, step).arming
  {
    assert Mark(f, at) !in s.timers && Mark(f, at) !in s.arming;
    if step.Arm? {
      assert step.mark == Mark(step.mark.player, step.mark.at);
    }
  }

  lemma {:induction false} OnceRun(u: Setup, s: System, f: PlayerId, steps: seq<Step>, s': System)
    requires OnceOk(s, f) && Reaches(u, s, steps, s')
    ensures s'.completions == 1
    decreases |steps|
  {
    if steps != [] {
      OnceStep(u, s, f, steps[0]);
      OnceRun(u, Apply(u, s, steps[0]), f, steps[1..], s');
    }
  }

  lemma Then(u: Setup, s: System, step: Step, rest: seq<Step>, s': System)
    requires Enabled(u, s, step) && Reaches(u, Apply(u, s, step), rest, s')
    ensures Reaches(u, s, [step] + rest, s')
  {
    assert ([step] + rest)[1..] == rest;
  }

  function Delay(u: Setup, s: System, m: Mark): (d: real)
    ensures d >= 0.0 && s.now + d >= m.at + u.grace
  {
    if s.now >= m.at + u.grace then 0.0 else m.at + u.grace - s.now
  }

  /** The run in which a pending timer of a disconnected player is left to expire. */
  lemma LetFire(u: Setup, s: System, m: Mark) returns (steps: seq<Step>, s': System)
    requires Playable(u.rules, s.game) && m in s.timers && s.listed && m.player in s.game.disconnected
    ensures Reaches(u, s, steps, s')
    ensures s'.completions == s.completions + 1 && s'.game == TimeOut(s.game, m.player)
    ensures s'.now == s.now + Delay(u, s, m) && s'.arming == s.arming && s'.listed && s'.drops == s.drops
    ensures s.outcome == Open ==> s'.outcome == ByForfeit(m.player, s'.now)
  {
    var wait := Wait(Delay(u, s, m));
    var waited := Apply(u, s, wait);
    s' := Apply(u, waited, Fire(m));
    Then(u, waited, Fire(m), [], s');
    Then(u, s, wait, [Fire(m)], s');
    steps := [wait] + [Fire(m)];
  }

  /** The run in which a timer of p, pending or still to be started, expires at most one grace
      period from now. */
  lemma LetExpire(u: Setup, s: System, p: PlayerId) returns (steps: seq<Step>, s': System)
    requires Playable(u.rules, s.game) && Awaited(s, p) && TimesOk(u, s) && u.grace >= 0.0
    requires s.listed && p in s.game.disconnected
    ensures Reaches(u, s, steps, s')
    ensures s'.completions == s.completions + 1 && s'.game == TimeOut(s.game, p)
    ensures s.now <= s'.now <= s.now + u.grace
    ensures s.outcome == Open ==> s'.outcome == ByForfeit(p, s'.now)
  {
    var at :| Mark(p, at) in s.timers || Mark(p, at) in s.arming;
    if Mark(p, at) in s.timers {
      steps, s' := LetFire(u, s, Mark(p, at));
    } else {
      var arm := Arm(Mark(p, at));
      var rest;
      rest, s' := LetFire(u, Apply(u, s, arm), Mark(p, s.now));
      Then(u, s, arm, rest, s');
      steps := [arm] + rest;
    }
  }

  ghost predicate CompletesOnce(u: Setup, s: System) {
    forall steps, s' :: Reaches(u, s, steps, s') ==> s'.completions == 1
  }

  lemma AwaitedCompletesTwice(u: Setup, s: System, f: PlayerId)
    requires Playable(u.rules, s.game) && Awaited(s, f) && TimesOk(u, s) && u.grace >= 0.0
    requires s.listed && f in s.game.disconnected && s.completions == 1
    ensures !CompletesOnce(u, s)
  {
    var steps, s' := LetExpire(u, s, f);
    assert Reaches(u, s, steps, s') && s'.completions == 2;
  }

  lemma UnawaitedCompletesOnce(u: Setup, s: System, f: PlayerId)
    requires OnceOk(s, f)
    ensures CompletesOnce(u, s)
  {
    forall steps, s' | Reaches(u, s, steps, s')
      ensures s'.completions == 1
    {
      OnceRun(u, s, f, steps, s');
    }
  }

  /** A game ended by a forfeit is completed once in every continuation exactly when the forfeiter
      has no second timer, pending or about to be started. */
  lemma ForfeitCompletesOnceIff(u: Setup, s: System)
    requires Reachable(u, s) && u.grace >= 0.0
    requires s.outcome.ByForfeit? && s.listed && s.completions == 1 && s.outcome.loser in s.game.disconnected
    ensures CompletesOnce(u, s) <==> !Awaited(s, s.outcome.loser)
  {
    ReachableInv(u, s);
    PlayableKept(u, s);
    if Awaited(s, s.outcome.loser) {
      AwaitedCompletesTwice(u, s, s.outcome.loser);
    } else {
      UnawaitedCompletesOnce(u, s, s.outcome.loser);
    }
  }

  // ---- Handlers and timers ----

  /** How many timers the steps let expire. */
  function Fires(steps: seq<Step>): nat {
    if steps == [] then 0 else (if steps[0].Fire? then 1 else 0) + Fires(steps[1..])
  }

  lemma StepBalances(u: Setup, s: System, step: Step)
    requires Enabled(u, s, step)
    ensures var t := Apply(u, s, step);
      |t.arming| + |t.timers| + (if step.Fire? then 1 else 0) - |t.drops| == |s.arming| + |s.timers| - |s.drops|
  {
  }

  lemma {:induction false} TimersBalance(u: Setup, s: System, steps: seq<Step>, s': System)
    requires Reaches(u, s, steps, s')
    ensures |s'.arming| + |s'.timers| + Fires(steps) - |s'.drops| == |s.arming| + |s.timers| - |s.drops|
    decreases |steps|
  {
    if steps != [] {
      StepBalances(u, s, steps[0]);
      TimersBalance(u, Apply(u, s, steps[0]), steps[1..], s');
    }
  }

  /** Nobody but a recorded disconnect starts a timer, and each starts one: in every interleaving the
      recorded disconnects number as many as the handlers and timers pending and the timers expired. */
  lemma OneTimerPerDrop(u: Setup, players: seq<PlayerId>, elos: map<PlayerId, int>, now: real, steps: seq<Step>,
                        s: System)
    requires TwoPlayers(players) && Reaches(u, Start(u, players, elos, now), steps, s)
    ensures |s.drops| == |s.arming| + |s.timers| + Fires(steps)
  {
    TimersBalance(u, Start(u, players, elos, now), steps, s);
  }

  lemma {:induction false} SamePlayers(u: Setup, s: System, steps: seq<Step>, s': System)
    requires Reaches(u, s, steps, s')
    ensures s'.game.players == s.game.players && s'.game.elos == s.game.elos
    decreases |steps|
  {
    if steps != [] {
      SamePlayers(u, Apply(u, s, steps[0]), steps[1..], s');
    }
  }

  /** The players and the ratings that a game is rated with in the end are those it was created with. */
  lemma RatedAsCreated(u: Setup, players: seq<PlayerId>, elos: map<PlayerId, int>, now: real, steps: seq<Step>,
                       s: System)
    requires TwoPlayers(players) && Reaches(u, Start(u, players, elos, now), steps, s)
    ensures s.game.players == players && s.game.elos == elos
  {
    SamePlayers(u, Start(u, players, elos, now), steps, s);
  }

  // ---- Pauses and forfeits ----

  /** No pause is stuck: unless the player returns, it can end in the forfeit of the missing player
      within one grace period, and the opponent wins. */
  lemma PauseCanEnd(u: Setup, s: System) returns (p: PlayerId, steps: seq<Step>, s': System)
    requires Reachable(u, s) && u.grace >= 0.0 && s.game.status == Paused
    ensures TwoPlayers(s.game.players) && s.game.disconnected == {p} && Awaited(s, p)
    ensures Reaches(u, s, steps, s') && s'.now <= s.now + u.grace
    ensures s'.outcome == ByForfeit(p, s'.now)
    ensures s'.game == s.game.(status := Finished, winner := Some(Opponent(s.game.players, p)))
  {
    ReachableInv(u, s);
    PlayableKept(u, s);
    p :| s.game.disconnected == {p} && Awaited(s, p);
    steps, s' := LetExpire(u, s, p);
  }

  /** Only the timer of a currently disconnected player of a paused game forfeits it. */
  lemma ForfeitStep(u: Setup, s: System, step: Step)
    requires Reachable(u, s) && u.grace >= 0.0 && Enabled(u, s, step)
    requires s.outcome == Open && Apply(u, s, step).outcome.ByForfeit?
    ensures var t := Apply(u, s, step); var f := t.outcome.loser;
      && s.game.status == Paused && s.game.disconnected == {f}
      && t.game == s.game.(status := Finished, winner := Some(Opponent(s.game.players, f)))
      && t.outcome.at == s.now && t.completions == 1
  {
    ReachableInv(u, s);
  }

  /** A game that ended by a forfeit was won by the opponent, at least one grace period after some
      disconnect of the loser was recorded. */
  lemma ForfeitIsEarned(u: Setup, s: System)
    requires Reachable(u, s) && u.grace >= 0.0 && s.outcome.ByForfeit?
    ensures TwoPlayers(s.game.players)
    ensures s.game.winner == Some(Opponent(s.game.players, s.outcome.loser))
    ensures s.game.winner != Some(s.outcome.loser) && s.game.winner.Some? && s.game.winner.value in s.game.players
    ensures DroppedBy(s.drops, s.outcome.loser, s.outcome.at - u.grace) && s.outcome.at <= s.now
  {
    ReachableInv(u, s);
    PlayableKept(u, s);
  }

  /** The run contains no reconnect of p. */
  predicate StaysAway(steps: seq<Step>, p: PlayerId) {
    steps == [] || (steps[0] != Reconnect(p) && StaysAway(steps[1..], p))
  }

  lemma PausedStep(u: Setup, s: System, p: PlayerId, step: Step)
    requires s.game.status == Paused && s.game.disconnected == {p} && s.outcome == Open
    requires Enabled(u, s, step) && step != Reconnect(p)
    ensures var t := Apply(u, s, step);
      if t.outcome == Open then t.game == s.game
      else t.outcome.ByForfeit? && t.outcome.loser == p && t.game == TimeOut(s.game, p)
  {
    if step.Reconnect? {
      assert s.game.disconnected - {step.player} == {p};
    }
  }

  lemma {:induction false} PausedRun(u: Setup, s: System, p: PlayerId, steps: seq<Step>, t: System)
    requires Inv(u, s) && u.grace >= 0.0 && s.game.status == Paused && s.game.disconnected == {p}
    requires Reaches(u, s, steps, t) && StaysAway(steps, p)
    ensures t.outcome == Open ==> t.game == s.game
    decreases |steps|
  {
    if steps != [] {
      var next := Apply(u, s, steps[0]);
      StepKeeps(u, s, steps[0]);
      PausedStep(u, s, p, steps[0]);
      if next.outcome == Open {
        PausedRun(u, next, p, steps[1..], t);
      } else {
        FinishedIsFinal(u, next, steps[1..], t);
      }
    }
  }

  /** A pause is transparent: when a player drops from a running game and returns before a forfeit,
      the game is exactly what it was, whatever was tried in between. */
  lemma PauseIsTransparent(u: Setup, s: System, p: PlayerId, steps: seq<Step>, t: System)
    requires Reachable(u, s) && u.grace >= 0.0 && s.listed && s.game.status == InProgress
    requires Enabled(u, s, Disconnect(p)) && Reaches(u, Apply(u, s, Disconnect(p)), steps, t)
    requires StaysAway(steps, p) && t.outcome == Open
    ensures Enabled(u, t, Reconnect(p)) && Apply(u, t, Reconnect(p)).game == s.game
  {
    ReachableInv(u, s);
    var dropped := Apply(u, s, Disconnect(p));
    StepKeeps(u, s, Disconnect(p));
    assert dropped.game.disconnected == {p};
    PausedRun(u, dropped, p, steps, t);
    RunKeeps(u, dropped, steps, t);
    PlayableKept(u, t);
    assert t.game.disconnected - {p} == {};
  }

  ghost predicate NoOldTimer(s: System, p: PlayerId, since: real) {
    forall m :: m in s.timers && m.player == p ==> m.at >= since
  }

  ghost predicate GraceOk(u: Setup, s: System, p: PlayerId, since: real) {
    && s.now >= since
    && NoOldTimer(s, p, since)
    && (s.outcome.ByForfeit? && s.outcome.loser == p ==> s.outcome.at >= since + u.grace)
  }

  lemma GraceStep(u: Setup, s: System, p: PlayerId, since: real, step: Step)
    requires GraceOk(u, s, p, since) && Enabled(u, s, step)
    ensures GraceOk(u, Apply(u, s, step), p, since)
  {
    if step.Fire? {
      FireGrace(u, s, p, since, step.mark);
    } else {
      LaterTimersOnly(u, s, p, since, step);
    }
  }

  lemma FireGrace(u: Setup, s: System, p: PlayerId, since: real, m: Mark)
    requires GraceOk(u, s, p, since) && Enabled(u, s, Fire(m))
    ensures GraceOk(u, Apply(u, s, Fire(m)), p, since)
  {
    assert m.player == p ==> s.now >= since + u.grace;
    assert s.timers - multiset{m} <= s.timers;
  }

  lemma LaterTimersOnly(u: Setup, s: System, p: PlayerId, since: real, step: Step)
    requires GraceOk(u, s, p, since) && Enabled(u, s, step) && !step.Fire?
    ensures GraceOk(u, Apply(u, s, step), p, since)
  {
  }

  lemma {:induction false} GraceRun(u: Setup, s: System, p: PlayerId, since: real, steps: seq<Step>, s': System)
    requires GraceOk(u, s, p, since) && Reaches(u, s, steps, s')
    ensures GraceOk(u, s', p, since)
    decreases |steps|
  {
    if steps != [] {
      GraceStep(u, s, p, since, steps[0]);
      GraceRun(u, Apply(u, s, steps[0]), p, since, steps[1..], s');
    }
  }

  ghost predicate ForfeitsBefore(u: Setup, s: System, p: PlayerId, time: real) {
    exists steps, s' ::
      Reaches(u, s, steps, s') && s'.outcome.ByForfeit? && s'.outcome.loser == p && s'.outcome.at < time
  }

  /** A player missing now is sure of a full grace period from now exactly when no timer from an
      earlier disconnect of that player is still pending. */
  lemma FullGraceIff(u: Setup, s: System, p: PlayerId)
    requires Reachable(u, s) && u.grace > 0.0 && s.game.status == Paused && p in s.game.disconnected
    ensures !ForfeitsBefore(u, s, p, s.now + u.grace) <==> NoOldTimer(s, p, s.now)
  {
    ReachableInv(u, s);
    PlayableKept(u, s);
    if NoOldTimer(s, p, s.now) {
      if ForfeitsBefore(u, s, p, s.now + u.grace) {
        var steps, s' :| Reaches(u, s, steps, s') && s'.outcome.ByForfeit? && s'.outcome.loser == p
          && s'.outcome.at < s.now + u.grace;
        GraceRun(u, s, p, s.now, steps, s');
      }
    } else {
      var m :| m in s.timers && m.player == p && m.at < s.now;
      var steps, s' := LetFire(u, s, m);
      assert Reaches(u, s, steps, s') && s'.outcome == ByForfeit(p, s'.now) && s'.now < s.now + u.grace;
    }
  }

  // ---- Putting runs together ----

  ghost predicate IsRun(u: Setup, states: seq<System>, steps: seq<Step>) {
    && |states| == |steps| + 1
    && forall i :: 0 <= i < |steps| ==>
      Enabled(u, states[i], steps[i]) && states[i + 1] == Apply(u, states[i], steps[i])
  }

  lemma {:induction false} RunReaches(u: Setup, states: seq<System>, steps: seq<Step>)
    requires IsRun(u, states, steps)
    ensures Reaches(u, states[0], steps, states[|steps|])
    decreases |steps|
  {
    if steps != [] {
      RunReaches(u, states[1..], steps[1..]);
    }
  }

  lemma {:induction false} Join(u: Setup, s: System, first: seq<Step>, mid: System, second: seq<Step>, s': System)
    requires Reaches(u, s, first, mid) && Reaches(u, mid, second, s')
    ensures Reaches(u, s, first + second, s')
    decreases |first|
  {
    if first == [] {
      assert first + second == second;
    } else {
      Join(u, Apply(u, s, first[0]), first[1..], mid, second, s');
      assert first + second == [first[0]] + (first[1..] + second);
      Then(u, s, first[0], first[1..] + second, s');
    }
  }

  // ---- What can happen ----

  lemma LegalStep(u: Setup, s: System, p: PlayerId, a: Action)
    requires Playable(u.rules, s.game) && s.listed && s.outcome == Open && s.ending == 0
    requires Judge(u.rules, s.game, p, a) == Accepted
    ensures var t := Apply(u, s, DoAct(p, a)); var over := t.game.status == Finished;
      && t.game == Act(u.rules, s.game, p, a)
      && t.outcome == (if over then ByBoard else Open) && t.ending == (if over then 1 else 0)
      && t.listed && t.completions == s.completions
  {
  }

  /** Every legal history can be played, and ends the game exactly when its last action exhausts it. */
  lemma {:induction false} LegalIsReachable(u: Setup, players: seq<PlayerId>, elos: map<PlayerId, int>, now: real,
                                            h: seq<Entry>) returns (steps: seq<Step>, s: System)
    requires TwoPlayers(players) && Legal(u.rules, Created(u.rules, players, elos), h)
    ensures Reaches(u, Start(u, players, elos, now), steps, s)
    ensures s.game == Replay(u.rules, Created(u.rules, players, elos), h) && s.listed && s.completions == 0
    ensures s.game.history == h
    ensures s.outcome == (if Over(u.rules, s.game) then ByBoard else Open)
    ensures s.ending == (if Over(u.rules, s.game) then 1 else 0)
    decreases |h|
  {
    var start, created := Start(u, players, elos, now), Created(u.rules, players, elos);
    ReplaySound(u.rules, players, elos, h);
    if h == [] {
      steps, s := [], start;
    } else {
      var k := |h| - 1;
      LastEntry(u.rules, created, h);
      ReplaySound(u.rules, players, elos, h[..k]);
      var before, mid := LegalIsReachable(u, players, elos, now, h[..k]);
      var step := DoAct(h[k].player, h[k].action);
      LegalStep(u, mid, h[k].player, h[k].action);
      s := Apply(u, mid, step);
      Then(u, mid, step, [], s);
      Join(u, start, before, mid, [step] + [], s);
      steps := before + ([step] + []);
    }
  }

  /** Some interleaving of the game records the history h. */
  ghost predicate Records(u: Setup, players: seq<PlayerId>, elos: map<PlayerId, int>, now: real, h: seq<Entry>)
    requires TwoPlayers(players)
  {
    exists steps, s :: Reaches(u, Start(u, players, elos, now), steps, s) && s.game.history == h
  }

  /** The histories that the interleavings of one game can record are exactly the legal ones. */
  lemma RecordsIffLegal(u: Setup, players: seq<PlayerId>, elos: map<PlayerId, int>, now: real, h: seq<Entry>)
    requires TwoPlayers(players) && u.grace >= 0.0
    ensures Records(u, players, elos, now, h) <==> Legal(u.rules, Created(u.rules, players, elos), h)
  {
    if Records(u, players, elos, now, h) {
      var steps, s :| Reaches(u, Start(u, players, elos, now), steps, s) && s.game.history == h;
      RatedAsCreated(u, players, elos, now, steps, s);
      ReplayGivesGame(u, s);
    } else if Legal(u.rules, Created(u.rules, players, elos), h) {
      var steps, s := LegalIsReachable(u, players, elos, now, h);
    }
  }

  /** No client is ever blocked: in every reachable state any player can act, drop and return, and time
      can pass. */
  lemma ClientsEnabled(u: Setup, s: System, p: PlayerId, a: Action, wait: real)
    requires Reachable(u, s) && u.grace >= 0.0 && wait >= 0.0
    ensures Enabled(u, s, DoAct(p, a)) && Enabled(u, s, Disconnect(p)) && Enabled(u, s, Reconnect(p))
    ensures Enabled(u, s, Wait(wait))
  {
    ReachableInv(u, s);
    PlayableKept(u, s);
  }

  /** Every finished game can be closed: at most three more steps report it, hand its result over and
      remove it, and leave the game as it ended. */
  lemma FinishedCanClose(u: Setup, s: System) returns (steps: seq<Step>, s': System)
    requires Reachable(u, s) && u.grace >= 0.0 && s.game.status == Finished && s.listed
    ensures Reaches(u, s, steps, s') && |steps| <= 3
    ensures !s'.listed && s'.persisted >= 1 && s'.game == s.game && s'.now == s.now
  {
    ReachableInv(u, s);
    PlayableKept(u, s);
    var reported := if s.saving == s.reporting == 0 then Apply(u, s, Report) else s;
    var saved := if s.saving == 0 then Apply(u, reported, Persist) else reported;
    s' := Apply(u, saved, Unlist);
    Then(u, saved, Unlist, [], s');
    steps := [Unlist] + [];
    if s.saving == 0 {
      Then(u, reported, Persist, steps, s');
      steps := [Persist] + steps;
      if s.reporting == 0 {
        Then(u, s, Report, steps, s');
        steps := [Report] + steps;
      }
    }
  }

  // ---- Two reachable states that the hypotheses above exclude ----

  /** A player drops and returns; the timer still sleeps. */
  lemma DropAndReturn(u: Setup, players: seq<PlayerId>, elos: map<PlayerId, int>) returns (steps: seq<Step>, s: System)
    requires TwoPlayers(players)
    ensures Reaches(u, Start(u, players, elos, 0.0), steps, s)
    ensures var m := Mark(players[0], 0.0);
      s == Start(u, players, elos, 0.0).(timers := multiset{m}, drops := [m])
  {
    var p := players[0];
    var drop, arm, back := Disconnect(p), Arm(Mark(p, 0.0)), Reconnect(p);
    var s0 := Start(u, players, elos, 0.0);
    var s1 := Apply(u, s0, drop);
    var s2 := Apply(u, s1, arm);
    s := Apply(u, s2, back);
    assert s.game == s0.game && s.timers == multiset{Mark(p, 0.0)} && s.arming == multiset{};
    steps := [drop, arm, back];
    RunReaches(u, [s0, s1, s2, s], steps);
  }

  /** Dropping again while that timer sleeps. */
  lemma DropTwice(u: Setup, players: seq<PlayerId>, elos: map<PlayerId, int>, wait: real)
      returns (steps: seq<Step>, s: System)
    requires TwoPlayers(players) && wait >= 0.0
    ensures Reaches(u, Start(u, players, elos, 0.0), steps, s)
    ensures s.outcome == Open && s.listed && s.completions == s.reporting == s.persisted == 0
    ensures s.game == Created(u.rules, players, elos).(status := Paused, disconnected := {players[0]})
    ensures Mark(players[0], 0.0) in s.timers && Mark(players[0], wait) in s.arming && s.now == wait
    ensures |s.drops| == 2 && s.drops[1] == Mark(players[0], wait)
  {
    var p, start := players[0], Start(u, players, elos, 0.0);
    var first, back := DropAndReturn(u, players, elos);
    var waited := Apply(u, back, Wait(wait));
    s := Apply(u, waited, Disconnect(p));
    assert s.game.disconnected == {p};
    Then(u, waited, Disconnect(p), [], s);
    Then(u, back, Wait(wait), [Disconnect(p)], s);
    Join(u, start, first, back, [Wait(wait)] + [Disconnect(p)], s);
    steps := first + ([Wait(wait)] + [Disconnect(p)]);
  }

  /** Both timers of a player who dropped twice run _handle_game_over: the result is recorded twice. */
  lemma DoubleCompletion(u: Setup, players: seq<PlayerId>, elos: map<PlayerId, int>) returns (s: System)
    requires TwoPlayers(players) && u.grace >= 0.0
    ensures Reachable(u, s) && s.outcome.ByForfeit? && s.completions == 2 && s.persisted == 2
  {
    var start := Start(u, players, elos, 0.0);
    var steps, dropped := DropTwice(u, players, elos, 0.0);
    StartInv(u, players, elos, 0.0);
    RunKeeps(u, start, steps, dropped);
    var second, once := LetFire(u, dropped, Mark(players[0], 0.0));
    Join(u, start, steps, dropped, second, once);
    RunKeeps(u, start, steps + second, once);
    PlayableKept(u, once);
    var third, twice := LetExpire(u, once, players[0]);
    Join(u, start, steps + second, once, third, twice);
    RunKeeps(u, start, steps + second + third, twice);
    FinishedIsFinal(u, once, third, twice);
    s := PersistTwice(u, start, steps + second + third, twice);
  }

  lemma PersistTwice(u: Setup, start: System, steps: seq<Step>, twice: System) returns (s: System)
    requires Reaches(u, start, steps, twice) && Inv(u, twice) && twice.completions == 2 && u.grace >= 0.0
    ensures exists all :: Reaches(u, start, all, s)
    ensures s.completions == 2 && s.persisted == 2 && s.outcome == twice.outcome
  {
    s := twice;
    var all := steps;
    while s.reporting > 0
      invariant Reaches(u, start, all, s) && Inv(u, s) && s.completions == 2 && s.outcome == twice.outcome
    {
      PlayableKept(u, s);
      var next := Apply(u, s, Persist);
      Then(u, s, Persist, [], next);
      Join(u, start, all, s, [Persist], next);
      StepKeeps(u, s, Persist);
      s, all := next, all + [Persist];
    }
  }

  /** The timer of an earlier disconnect can forfeit a player whose latest disconnect is less than a
      grace period old. */
  lemma EarlyForfeit(u: Setup, players: seq<PlayerId>, elos: map<PlayerId, int>) returns (s: System)
    requires TwoPlayers(players) && u.grace > 0.0
    ensures Reachable(u, s) && |s.drops| == 2
    ensures s.outcome == ByForfeit(s.drops[1].player, s.now) && s.now < s.drops[1].at + u.grace
  {
    var steps, dropped := DropTwice(u, players, elos, u.grace / 2.0);
    var more;
    more, s := LetFire(u, dropped, Mark(players[0], 0.0));
    Join(u, Start(u, players, elos, 0.0), steps, dropped, more, s);
  }
}
