/** One created game among its concurrent coroutines. A step is a stretch of code between two
    awaits; the steps of all coroutines interleave in any order. */
module Lifecycle {
  import opened Wrappers
  import opened GameRules

  /** A player and the time at which a disconnect was recorded or a grace timer was started. */
  datatype Mark = Mark(player: PlayerId, at: real)

  /** How the game ended. This and `drops` are history variables. */
  datatype Ending = Open | ByBoard | ByForfeit(loser: PlayerId, at: real)

  datatype System = System(
    game: Game,
    listed: bool,            // still in _games
    now: real,
    arming: multiset<Mark>,  // disconnect handlers that still have to start their timer
    timers: multiset<Mark>,  // sleeping grace timers
    ending: nat,             // actions that ended the game and still await their broadcast
    reporting: nat,          // _handle_game_over: awaiting the sends
    saving: nat,             // _handle_game_over: result task created, awaiting the snapshot
    completions: nat,        // times _handle_game_over was entered
    persisted: nat,          // result tasks created
    outcome: Ending,
    drops: seq<Mark>)        // every recorded disconnect, in order

  datatype Step =
    | DoAct(player: PlayerId, action: Action)
    | Report
    | Persist
    | Unlist
    | Disconnect(player: PlayerId)
    | Arm(mark: Mark)
    | Fire(mark: Mark)
    | Reconnect(player: PlayerId)
    | Wait(time: real)

  datatype Setup = Setup(rules: Rules, grace: real)

  ghost predicate Enabled(u: Setup, s: System, step: Step) {
    Playable(u.rules, s.game) &&
    match step
    case DoAct(_, _) => true
    case Report => s.ending > 0
    case Persist => s.reporting > 0
    case Unlist => s.saving > 0
    case Disconnect(_) => true
    case Arm(m) => m in s.arming
    case Fire(m) => m in s.timers && s.now >= m.at + u.grace
    case Reconnect(_) => true
    case Wait(d) => d >= 0.0
  }

  ghost function Apply(u: Setup, s: System, step: Step): System
    requires Enabled(u, s, step)
  {
    match step
    case DoAct(p, a) =>
      if !s.listed then s
      else
        var accepted := Judge(u.rules, s.game, p, a) == Accepted;
        var g := Act(u.rules, s.game, p, a);
        if accepted && g.status == Finished then s.(game := g, ending := s.ending + 1, outcome := ByBoard)
        else s.(game := g)
    case Report =>
      s.(ending := s.ending - 1, reporting := s.reporting + 1, completions := s.completions + 1)
    case Persist =>
      s.(reporting := s.reporting - 1, saving := s.saving + 1, persisted := s.persisted + 1)
    case Unlist =>
      s.(saving := s.saving - 1, listed := false)
    case Disconnect(p) =>
      if !s.listed || s.game.status != InProgress then s
      else s.(game := GameRules.Drop(s.game, p), arming := s.arming + multiset{Mark(p, s.now)},
              drops := s.drops + [Mark(p, s.now)])
    case Arm(m) =>
      s.(arming := s.arming - multiset{m}, timers := s.timers + multiset{Mark(m.player, s.now)})
    case Fire(m) =>
      var t := s.(timers := s.timers - multiset{m});
      if !s.listed || m.player !in s.game.disconnected then t
      else t.(game := TimeOut(s.game, m.player), reporting := s.reporting + 1, completions := s.completions + 1,
              outcome := if s.outcome == Open then ByForfeit(m.player, s.now) else s.outcome)
    case Reconnect(p) =>
      if !s.listed then s else s.(game := Rejoin(s.game, p))
    case Wait(d) =>
      s.(now := s.now + d)
  }

  function Start(u: Setup, players: seq<PlayerId>, elos: map<PlayerId, int>, now: real): System
    requires TwoPlayers(players)
  {
    System(Created(u.rules, players, elos), true, now, multiset{}, multiset{}, 0, 0, 0, 0, 0, Open, [])
  }

  /** s' is reached from s by the given steps. */
  ghost predicate Reaches(u: Setup, s: System, steps: seq<Step>, s': System)
    decreases |steps|
  {
    if steps == [] then s' == s
    else Enabled(u, s, steps[0]) && Reaches(u, Apply(u, s, steps[0]), steps[1..], s')
  }

  ghost predicate Reachable(u: Setup, s: System) {
    exists players, elos, now, steps ::
      TwoPlayers(players) && Reaches(u, Start(u, players, elos, now), steps, s)
  }

  // ---- The invariant ----

  function Unpaused(g: Game): Game {
    g.(status := InProgress, disconnected := {}, winner := None)
  }

  /** The game is what its history replays to, apart from a pause or a forfeit. */
  ghost predicate GameOk(u: Setup, s: System) {
    var g := s.game;
    match s.outcome
    case Open =>
      && Genuine(u.rules, Unpaused(g))
      && g.winner == None
      && (g.status == InProgress || g.status == Paused)
      && (g.status == InProgress ==> g.disconnected == {})
      && (g.status == Paused ==> exists p :: g.disconnected == {p} && Awaited(s, p))
    case ByBoard =>
      Genuine(u.rules, g) && g.status == Finished
    case ByForfeit(f, _) =>
      && Genuine(u.rules, Unpaused(g))
      && g.status == Finished
      && g.disconnected <= {f}
      && g.winner == Some(Opponent(g.players, f))
  }

  /** A timer of p is pending, or a handler that will start one. */
  ghost predicate Awaited(s: System, p: PlayerId) {
    exists at :: Mark(p, at) in s.timers || Mark(p, at) in s.arming
  }

  /** Who is still on the way to or inside _handle_game_over. */
  ghost predicate CountsOk(s: System) {
    && s.completions == s.persisted + s.reporting
    && (s.outcome.Open? ==> s.listed && s.ending == 0 && s.completions == 0 && s.saving == 0)
    && (s.outcome.ByBoard? ==> s.completions + s.ending == 1)
    && (s.outcome.ByForfeit? ==> s.ending == 0 && s.completions >= 1)
    && (!s.outcome.Open? && s.listed ==> s.ending + s.reporting + s.saving > 0)
    && (!s.listed ==> s.persisted >= 1)
    && s.saving <= s.persisted
  }

  /** Some recorded disconnect of p happened by the given time. */
  ghost predicate DroppedBy(drops: seq<Mark>, p: PlayerId, time: real) {
    exists i :: 0 <= i < |drops| && drops[i].player == p && drops[i].at <= time
  }

  ghost predicate MarksOk(marks: multiset<Mark>, drops: seq<Mark>, now: real) {
    forall m :: m in marks ==> m.at <= now && DroppedBy(drops, m.player, m.at)
  }

  ghost predicate TimesOk(u: Setup, s: System) {
    && MarksOk(s.timers, s.drops, s.now)
    && MarksOk(s.arming, s.drops, s.now)
    && (s.outcome.ByForfeit? ==>
        s.outcome.at <= s.now && DroppedBy(s.drops, s.outcome.loser, s.outcome.at - u.grace))
  }

  ghost predicate Inv(u: Setup, s: System) {
    GameOk(u, s) && CountsOk(s) && TimesOk(u, s)
  }

  lemma StartInv(u: Setup, players: seq<PlayerId>, elos: map<PlayerId, int>, now: real)
    requires TwoPlayers(players)
    ensures Inv(u, Start(u, players, elos, now))
  {
    var g := Start(u, players, elos, now).game;
    assert Unpaused(g) == g && g.history == [];
  }

  lemma PlayableKept(u: Setup, s: System)
    requires GameOk(u, s)
    ensures Playable(u.rules, s.game)
  {
    if s.outcome.ByBoard? {
      GenuineSound(u.rules, s.game);
    } else {
      GenuineSound(u.rules, Unpaused(s.game));
    }
  }

  lemma DropsGrow(drops: seq<Mark>, m: Mark, p: PlayerId, time: real)
    requires DroppedBy(drops, p, time)
    ensures DroppedBy(drops + [m], p, time)
  {
    var i :| 0 <= i < |drops| && drops[i].player == p && drops[i].at <= time;
    assert (drops + [m])[i] == drops[i];
  }

  lemma ActKeeps(u: Setup, s: System, p: PlayerId, a: Action)
    requires Inv(u, s) && Enabled(u, s, DoAct(p, a))
    ensures GameOk(u, Apply(u, s, DoAct(p, a)))
  {
    if s.listed && Judge(u.rules, s.game, p, a) == Accepted {
      assert Unpaused(s.game) == s.game;
      ActGenuine(u.rules, s.game, p, a);
      GenuineSound(u.rules, Act(u.rules, s.game, p, a));
      var g := Act(u.rules, s.game, p, a);
      if g.status == InProgress {
        assert Unpaused(g) == g;
      }
    }
  }

  lemma DisconnectKeeps(u: Setup, s: System, p: PlayerId)
    requires GameOk(u, s) && CountsOk(s) && Enabled(u, s, Disconnect(p))
    ensures GameOk(u, Apply(u, s, Disconnect(p)))
  {
    var t := Apply(u, s, Disconnect(p));
    if t != s {
      assert Unpaused(t.game) == Unpaused(s.game);
      assert t.game.disconnected == {p};
      assert Mark(p, s.now) in t.arming;
    }
  }

  lemma ArmKeeps(u: Setup, s: System, m: Mark)
    requires GameOk(u, s) && Enabled(u, s, Arm(m))
    ensures GameOk(u, Apply(u, s, Arm(m)))
  {
    if s.outcome == Open && s.game.status == Paused {
      var p :| s.game.disconnected == {p} && Awaited(s, p);
      AwaitedAfterArm(u, s, m, p);
    }
  }

  lemma FireKeeps(u: Setup, s: System, m: Mark)
    requires GameOk(u, s) && CountsOk(s) && Enabled(u, s, Fire(m))
    ensures GameOk(u, Apply(u, s, Fire(m)))
  {
    var t := Apply(u, s, Fire(m));
    if s.listed && m.player in s.game.disconnected {
      assert Unpaused(t.game) == Unpaused(s.game);
      if s.outcome == ByBoard {
        BoardEndIsConnected(u, s);
      }
    } else if s.outcome == Open && s.game.status == Paused {
      var p :| s.game.disconnected == {p} && Awaited(s, p);
      var at :| Mark(p, at) in s.timers || Mark(p, at) in s.arming;
      assert Mark(p, at) in t.timers || Mark(p, at) in t.arming || m == Mark(p, at);
    }
  }

  lemma BoardEndIsConnected(u: Setup, s: System)
    requires GameOk(u, s) && s.outcome == ByBoard
    ensures s.game.disconnected == {}
  {
    GenuineSound(u.rules, s.game);
  }

  lemma ReconnectKeeps(u: Setup, s: System, p: PlayerId)
    requires GameOk(u, s) && Enabled(u, s, Reconnect(p))
    ensures GameOk(u, Apply(u, s, Reconnect(p)))
  {
    var t := Apply(u, s, Reconnect(p));
    if t != s {
      assert Unpaused(t.game) == Unpaused(s.game);
      if s.outcome == ByBoard {
        BoardEndIsConnected(u, s);
      } else if s.outcome == Open && s.game.status == Paused {
        var q :| s.game.disconnected == {q} && Awaited(s, q);
        assert Awaited(t, q);
      }
    }
  }

  lemma GameStepKeeps(u: Setup, s: System, step: Step)
    requires Inv(u, s) && Enabled(u, s, step)
    ensures GameOk(u, Apply(u, s, step))
  {
    match step
    case DoAct(p, a) => ActKeeps(u, s, p, a);
    case Disconnect(p) => DisconnectKeeps(u, s, p);
    case Arm(m) => ArmKeeps(u, s, m);
    case Fire(m) => FireKeeps(u, s, m);
    case Reconnect(p) => ReconnectKeeps(u, s, p);
    case _ => QuietStepKeeps(u, s, step);
  }

  lemma QuietStepKeeps(u: Setup, s: System, step: Step)
    requires GameOk(u, s) && Enabled(u, s, step)
    requires step.Report? || step.Persist? || step.Unlist? || step.Wait?
    ensures GameOk(u, Apply(u, s, step))
  {
    if s.outcome == Open && s.game.status == Paused {
      var q :| s.game.disconnected == {q} && Awaited(s, q);
      assert Awaited(Apply(u, s, step), q);
    }
  }

  lemma AwaitedAfterArm(u: Setup, s: System, m: Mark, p: PlayerId)
    requires Awaited(s, p) && Enabled(u, s, Arm(m))
    ensures Awaited(Apply(u, s, Arm(m)), p)
  {
    var t := Apply(u, s, Arm(m));
    var at :| Mark(p, at) in s.timers || Mark(p, at) in s.arming;
    if m.player == p {
      assert Mark(p, s.now) in t.timers;
    } else {
      assert Mark(p, at) in t.timers || Mark(p, at) in t.arming;
    }
  }

  lemma CountStepKeeps(u: Setup, s: System, step: Step)
    requires GameOk(u, s) && CountsOk(s) && Enabled(u, s, step)
    ensures CountsOk(Apply(u, s, step))
  {
    match step
    case DoAct(p, a) => ActCounts(u, s, p, a);
    case Fire(m) =>
      if s.outcome == ByBoard {
        BoardEndIsConnected(u, s);
      }
    case _ =>
  }

  lemma ActCounts(u: Setup, s: System, p: PlayerId, a: Action)
    requires GameOk(u, s) && CountsOk(s) && Enabled(u, s, DoAct(p, a))
    ensures CountsOk(Apply(u, s, DoAct(p, a)))
  {
    assert Judge(u.rules, s.game, p, a) == Accepted ==> s.game.status == InProgress && s.outcome == Open;
  }

  lemma DisconnectTimes(u: Setup, s: System, p: PlayerId)
    requires TimesOk(u, s) && Enabled(u, s, Disconnect(p))
    ensures TimesOk(u, Apply(u, s, Disconnect(p)))
  {
    var t := Apply(u, s, Disconnect(p));
    if t != s {
      var mark := Mark(p, s.now);
      assert t.drops[|s.drops|] == mark;
      forall m | (m in s.timers || m in s.arming)
        ensures DroppedBy(t.drops, m.player, m.at)
      {
        DropsGrow(s.drops, mark, m.player, m.at);
      }
      if s.outcome.ByForfeit? {
        DropsGrow(s.drops, mark, s.outcome.loser, s.outcome.at - u.grace);
      }
    }
  }

  lemma DroppedLater(drops: seq<Mark>, p: PlayerId, time: real, later: real)
    requires DroppedBy(drops, p, time) && time <= later
    ensures DroppedBy(drops, p, later)
  {
  }

  lemma ArmTimes(u: Setup, s: System, m: Mark)
    requires TimesOk(u, s) && Enabled(u, s, Arm(m))
    ensures TimesOk(u, Apply(u, s, Arm(m)))
  {
    DroppedLater(s.drops, m.player, m.at, s.now);
  }

  lemma FireTimes(u: Setup, s: System, m: Mark)
    requires TimesOk(u, s) && Enabled(u, s, Fire(m)) && u.grace >= 0.0
    ensures TimesOk(u, Apply(u, s, Fire(m)))
  {
    FireEarned(s.timers, s.drops, s.now, u.grace, m);
    TimesStillOk(u, s, Apply(u, s, Fire(m)));
  }

  lemma TimesStillOk(u: Setup, s: System, t: System)
    requires TimesOk(u, s) && u.grace >= 0.0
    requires t.now == s.now && t.drops == s.drops && t.arming == s.arming && t.timers <= s.timers
    requires t.outcome == s.outcome || t.outcome.ByBoard? ||
      (t.outcome.ByForfeit? && t.outcome.at == s.now && DroppedBy(s.drops, t.outcome.loser, s.now - u.grace))
    ensures TimesOk(u, t)
  {
    FewerMarks(s.timers, t.timers, s.drops, s.now);
  }

  lemma FireEarned(timers: multiset<Mark>, drops: seq<Mark>, now: real, grace: real, m: Mark)
    requires MarksOk(timers, drops, now) && m in timers && now >= m.at + grace
    ensures DroppedBy(drops, m.player, now - grace)
  {
    DroppedLater(drops, m.player, m.at, now - grace);
  }

  lemma FewerMarks(marks: multiset<Mark>, fewer: multiset<Mark>, drops: seq<Mark>, now: real)
    requires MarksOk(marks, drops, now) && fewer <= marks
    ensures MarksOk(fewer, drops, now)
  {
  }

  lemma TimeStepKeeps(u: Setup, s: System, step: Step)
    requires TimesOk(u, s) && Enabled(u, s, step) && u.grace >= 0.0
    ensures TimesOk(u, Apply(u, s, step))
  {
    match step
    case Disconnect(p) => DisconnectTimes(u, s, p);
    case Arm(m) => ArmTimes(u, s, m);
    case Fire(m) => FireTimes(u, s, m);
    case _ =>
  }

  lemma StepKeeps(u: Setup, s: System, step: Step)
    requires Inv(u, s) && Enabled(u, s, step) && u.grace >= 0.0
    ensures Inv(u, Apply(u, s, step))
  {
    GameStepKeeps(u, s, step);
    CountStepKeeps(u, s, step);
    TimeStepKeeps(u, s, step);
  }

  lemma {:induction false} RunKeeps(u: Setup, s: System, steps: seq<Step>, s': System)
    requires Inv(u, s) && Reaches(u, s, steps, s') && u.grace >= 0.0
    ensures Inv(u, s')
    decreases |steps|
  {
    if steps != [] {
      StepKeeps(u, s, steps[0]);
      RunKeeps(u, Apply(u, s, steps[0]), steps[1..], s');
    }
  }

  lemma ReachableInv(u: Setup, s: System)
    requires Reachable(u, s) && u.grace >= 0.0
    ensures Inv(u, s)
  {
    var players, elos, now, steps :|
      TwoPlayers(players) && Reaches(u, Start(u, players, elos, now), steps, s);
    StartInv(u, players, elos, now);
    RunKeeps(u, Start(u, players, elos, now), steps, s);
  }
}
