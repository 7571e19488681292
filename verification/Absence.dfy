/** Players who have disconnected and not come back, whether or not the engine noticed. */
module Absence {
  import opened GameRules
  import opened Lifecycle
  import Outcomes

  function AwayNext(step: Step, away: set<PlayerId>): set<PlayerId> {
    match step
    case Disconnect(p) => away + {p}
    case Reconnect(p) => away - {p}
    case _ => away
  }

  /** Who is away after the steps: gone, and not back since. */
  function Away(steps: seq<Step>, away: set<PlayerId>): set<PlayerId> {
    if steps == [] then away else Away(steps[1..], AwayNext(steps[0], away))
  }

  /** Whose last departure so far went unrecorded. */
  function Missed(s: System, step: Step, missed: set<PlayerId>): set<PlayerId> {
    match step
    case Disconnect(p) => if s.listed && s.game.status == InProgress then missed - {p} else missed + {p}
    case Reconnect(p) => missed - {p}
    case _ => missed
  }

  /** Whose last departure in the run found the game not running, and who has not come back since. */
  ghost function Unrecorded(u: Setup, s: System, steps: seq<Step>, missed: set<PlayerId>): set<PlayerId>
    decreases |steps|
  {
    if steps == [] || !Enabled(u, s, steps[0]) then missed
    else Unrecorded(u, Apply(u, s, steps[0]), steps[1..], Missed(s, steps[0], missed))
  }

  /** While the game is open, those away are the recorded and the missed. */
  ghost predicate Split(s: System, away: set<PlayerId>, missed: set<PlayerId>) {
    s.outcome == Open ==>
      && s.listed && s.ending == s.reporting == s.saving == 0
      && away == missed + s.game.disconnected
  }

  lemma StepSplits(u: Setup, s: System, step: Step, away: set<PlayerId>, missed: set<PlayerId>)
    requires Split(s, away, missed) && Enabled(u, s, step)
    ensures Split(Apply(u, s, step), AwayNext(step, away), Missed(s, step, missed))
  {
  }

  lemma {:induction false} RunSplits(u: Setup, s: System, steps: seq<Step>, t: System,
                                     away: set<PlayerId>, missed: set<PlayerId>)
    requires Reaches(u, s, steps, t) && Split(s, away, missed)
    ensures Split(t, Away(steps, away), Unrecorded(u, s, steps, missed))
    decreases |steps|
  {
    if steps != [] {
      StepSplits(u, s, steps[0], away, missed);
      RunSplits(u, Apply(u, s, steps[0]), steps[1..], t, AwayNext(steps[0], away), Missed(s, steps[0], missed));
    }
  }

  /** A player of a running game is away exactly when the last departure arrived during a pause. */
  lemma RunningAwayIff(u: Setup, players: seq<PlayerId>, elos: map<PlayerId, int>, now: real, steps: seq<Step>,
                       t: System, p: PlayerId)
    requires TwoPlayers(players) && u.grace >= 0.0
    requires Reaches(u, Start(u, players, elos, now), steps, t) && t.game.status == InProgress
    ensures p in Away(steps, {}) <==> p in Unrecorded(u, Start(u, players, elos, now), steps, {})
  {
    var start := Start(u, players, elos, now);
    StartInv(u, players, elos, now);
    RunSplits(u, start, steps, t, {}, {});
    RunKeeps(u, start, steps, t);
  }

  ghost predicate Unthreatened(s: System) {
    s.game.disconnected == {} && !s.outcome.ByForfeit?
  }

  predicate Departs(steps: seq<Step>) {
    steps != [] && (steps[0].Disconnect? || Departs(steps[1..]))
  }

  lemma {:induction false} NobodyForfeits(u: Setup, s: System, steps: seq<Step>, t: System)
    requires Unthreatened(s) && Reaches(u, s, steps, t) && !Departs(steps)
    ensures Unthreatened(t)
    decreases |steps|
  {
    if steps != [] {
      NobodyForfeits(u, Apply(u, s, steps[0]), steps[1..], t);
    }
  }

  /** And an absence that was missed has no consequence: however long the player stays away and
      whatever timers are pending, no further departure means no pause and no forfeit. */
  lemma MissedIsIgnored(u: Setup, s: System, steps: seq<Step>, t: System)
    requires Reachable(u, s) && u.grace >= 0.0 && s.game.status == InProgress
    requires Reaches(u, s, steps, t) && !Departs(steps)
    ensures !t.outcome.ByForfeit? && t.game.status != Paused
  {
    ReachableInv(u, s);
    NobodyForfeits(u, s, steps, t);
    RunKeeps(u, s, steps, t);
  }

  /** A reachable running game with an absent player for whom no timer is pending. */
  lemma AwayUnnoticed(u: Setup, players: seq<PlayerId>, elos: map<PlayerId, int>)
      returns (steps: seq<Step>, s: System)
    requires TwoPlayers(players)
    ensures Reaches(u, Start(u, players, elos, 0.0), steps, s) && s.game.status == InProgress
    ensures players[1] in Away(steps, {}) && !Awaited(s, players[1])
  {
    var s0 := Start(u, players, elos, 0.0);
    var p, q := players[0], players[1];
    var s1 := Apply(u, s0, Disconnect(p));
    var s2 := Apply(u, s1, Disconnect(q));
    s := Apply(u, s2, Reconnect(p));
    assert s2 == s1 && s.game.disconnected == {};
    steps := [Disconnect(p), Disconnect(q), Reconnect(p)];
    Outcomes.RunReaches(u, [s0, s1, s2, s], steps);
    assert steps[1..] == [Disconnect(q), Reconnect(p)] && steps[1..][1..] == [Reconnect(p)];
    assert Away([Reconnect(p)], {p} + {q}) == {p} + {q} - {p};
    assert Away([Disconnect(q), Reconnect(p)], {p}) == {p} + {q} - {p};
    assert {} + {p} == {p};
  }
}
