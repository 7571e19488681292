/** Any number of instances share one queue. Their transactions and script runs are atomic and
    interleave in any order; each instance reads its own clock. */
module MatchRuns {
  import opened Wrappers
  import opened Matchmaking
  import opened Ranking

  datatype Step =
    | Enqueue(player: PlayerId, elo: int, now: real)
    | Dequeue(player: PlayerId)
    | Pop(now: real, answer: Option<Pair>)

  /** The shared store, and the history of what happened to each player, with multiplicity. */
  datatype Ledger = Ledger(
    store: Store,
    entered: multiset<PlayerId>,    // enqueued
    replaced: multiset<PlayerId>,   // enqueued again while still queued
    left: multiset<PlayerId>,       // dequeued while queued
    matched: multiset<PlayerId>)    // popped in a pair

  const EMPTY := Ledger(Store(map[], map[]), multiset{}, multiset{}, multiset{}, multiset{})

  function Single(here: bool, p: PlayerId): multiset<PlayerId> {
    if here then multiset{p} else multiset{}
  }

  function After(s: Store, answer: Option<Pair>): Store {
    if answer.Some? then Without(s, {answer.value.a.pid, answer.value.b.pid}) else s
  }

  ghost predicate Enabled(cfg: Settings, l: Ledger, step: Step) {
    step.Pop? ==> Popped(cfg, l.store, step.now, step.answer, After(l.store, step.answer))
  }

  /** Players can come and go and the script can run at any time, with one possible answer. */
  lemma AlwaysEnabled(cfg: Settings, l: Ledger, now: real) returns (answer: Option<Pair>)
    ensures forall other :: Enabled(cfg, l, Pop(now, other)) <==> other == answer
    ensures forall p, elo :: Enabled(cfg, l, Enqueue(p, elo, now)) && Enabled(cfg, l, Dequeue(p))
  {
    var s;
    answer, s := PopExists(cfg, l.store, now);
    forall other
      ensures Enabled(cfg, l, Pop(now, other)) <==> other == answer
    {
      if Enabled(cfg, l, Pop(now, other)) {
        PopDetermined(cfg, l.store, now, answer, s, other, After(l.store, other));
      }
    }
  }

  ghost function Apply(l: Ledger, step: Step): Ledger {
    match step
    case Enqueue(p, elo, now) =>
      l.(store := Store(l.store.queue[p := elo], l.store.stamps[p := now]),
         entered := l.entered + multiset{p},
         replaced := l.replaced + Single(p in l.store.queue, p))
    case Dequeue(p) =>
      l.(store := Without(l.store, {p}), left := l.left + Single(p in l.store.queue, p))
    case Pop(_, None) => l
    case Pop(_, Some(Pair(a, b))) =>
      l.(store := After(l.store, step.answer), matched := l.matched + multiset{a.pid, b.pid})
  }

  ghost predicate Reaches(cfg: Settings, l: Ledger, steps: seq<Step>, l': Ledger)
    decreases |steps|
  {
    if steps == [] then l' == l
    else Enabled(cfg, l, steps[0]) && Reaches(cfg, Apply(l, steps[0]), steps[1..], l')
  }

  /** The hash has exactly the queue's keys, and every time a player entered the queue was followed
      by exactly one way out of it, or the player is still there. */
  ghost predicate Balanced(l: Ledger) {
    && l.store.stamps.Keys == l.store.queue.Keys
    && l.entered == l.replaced + l.left + l.matched + multiset(l.store.queue.Keys)
  }

  lemma EnqueueBalanced(l: Ledger, p: PlayerId, elo: int, now: real)
    requires Balanced(l)
    ensures Balanced(Apply(l, Enqueue(p, elo, now)))
  {
    SetAdd(l.store.queue.Keys, p);
    assert Apply(l, Enqueue(p, elo, now)).store.queue.Keys == l.store.queue.Keys + {p};
  }

  lemma DequeueBalanced(l: Ledger, p: PlayerId)
    requires Balanced(l)
    ensures Balanced(Apply(l, Dequeue(p)))
  {
    var keys := l.store.queue.Keys;
    assert Apply(l, Dequeue(p)).store.queue.Keys == keys - {p};
    SetRemove(keys, p);
  }

  lemma SetRemove(s: set<PlayerId>, p: PlayerId)
    ensures multiset(s) == multiset(s - {p}) + Single(p in s, p)
  {
    SetAdd(s - {p}, p);
    assert p in s ==> s - {p} + {p} == s;
  }

  lemma PopBalanced(l: Ledger, now: real, pair: Pair)
    requires Balanced(l) && pair.a.pid in l.store.queue && pair.b.pid in l.store.queue && pair.a.pid != pair.b.pid
    ensures Balanced(Apply(l, Pop(now, Some(pair))))
  {
    RemovePair(l.store, pair);
  }

  lemma StepBalanced(cfg: Settings, l: Ledger, step: Step)
    requires Balanced(l) && Enabled(cfg, l, step)
    ensures Balanced(Apply(l, step))
  {
    match step
    case Enqueue(p, elo, now) => EnqueueBalanced(l, p, elo, now);
    case Dequeue(p) => DequeueBalanced(l, p);
    case Pop(now, answer) =>
      if answer.Some? {
        PopBalanced(l, now, answer.value);
      }
  }

  lemma SetAdd(s: set<PlayerId>, p: PlayerId)
    ensures multiset(s + {p}) == multiset(s) + Single(p !in s, p)
  {
  }

  lemma {:induction false} RunBalanced(cfg: Settings, l: Ledger, steps: seq<Step>, l': Ledger)
    requires Balanced(l) && Reaches(cfg, l, steps, l')
    ensures Balanced(l')
    decreases |steps|
  {
    if steps != [] {
      StepBalanced(cfg, l, steps[0]);
      RunBalanced(cfg, Apply(l, steps[0]), steps[1..], l');
    }
  }

  /** No player is matched more often than enqueued; a queued player has one entry to spare. */
  lemma NoDoubleBooking(cfg: Settings, steps: seq<Step>, l: Ledger, p: PlayerId)
    requires Reaches(cfg, EMPTY, steps, l)
    ensures l.matched[p] + (if p in l.store.queue then 1 else 0) <= l.entered[p]
    ensures l.entered[p] == l.replaced[p] + l.left[p] + l.matched[p] + (if p in l.store.queue then 1 else 0)
  {
    assert Balanced(EMPTY);
    RunBalanced(cfg, EMPTY, steps, l);
  }

  /** The script never falls back on the current time for a queued player without a join time. */
  lemma JoinTimeKnown(cfg: Settings, steps: seq<Step>, l: Ledger, p: PlayerId, now: real)
    requires Reaches(cfg, EMPTY, steps, l) && p in l.store.queue
    ensures p in l.store.stamps && GetOr(l.store.stamps, p, now) == l.store.stamps[p]
  {
    assert Balanced(EMPTY);
    RunBalanced(cfg, EMPTY, steps, l);
  }

  /** Some step enqueues p. */
  predicate Enters(steps: seq<Step>, p: PlayerId) {
    steps != [] && ((steps[0].Enqueue? && steps[0].player == p) || Enters(steps[1..], p))
  }

  /** The run's last enqueue of p is its step i, and p was not removed since. */
  ghost predicate LastEntered(steps: seq<Step>, p: PlayerId, elo: int, at: real) {
    exists i :: 0 <= i < |steps| && steps[i] == Enqueue(p, elo, at) && !Enters(steps[i + 1..], p)
  }

  lemma {:induction false} StillAsEntered(cfg: Settings, l: Ledger, steps: seq<Step>, l': Ledger, p: PlayerId)
    requires Reaches(cfg, l, steps, l') && p in l'.store.queue && p in l'.store.stamps && Enters(steps, p)
    ensures LastEntered(steps, p, l'.store.queue[p], l'.store.stamps[p])
    decreases |steps|
  {
    var next := Apply(l, steps[0]);
    if Enters(steps[1..], p) {
      StillAsEntered(cfg, next, steps[1..], l', p);
      var i :| 0 <= i < |steps[1..]| && steps[1..][i] == Enqueue(p, l'.store.queue[p], l'.store.stamps[p])
        && !Enters(steps[1..][i + 1..], p);
      assert steps[1..][i + 1..] == steps[i + 2..] && steps[i + 1] == steps[1..][i];
    } else {
      UntilEnqueued(cfg, next, steps[1..], l', p);
      assert steps[0] == Enqueue(p, l'.store.queue[p], l'.store.stamps[p]);
    }
  }

  /** Whoever is queued has the rating and the join time of the last own enqueue. */
  lemma QueuedAsEntered(cfg: Settings, steps: seq<Step>, l: Ledger, p: PlayerId)
    requires Reaches(cfg, EMPTY, steps, l) && p in l.store.queue
    ensures p in l.store.stamps && LastEntered(steps, p, l.store.queue[p], l.store.stamps[p])
  {
    assert Balanced(EMPTY);
    RunBalanced(cfg, EMPTY, steps, l);
    if !Enters(steps, p) {
      UntilEnqueued(cfg, EMPTY, steps, l, p);
      assert false;
    }
    StillAsEntered(cfg, EMPTY, steps, l, p);
  }

  lemma StepUntilEnqueued(cfg: Settings, l: Ledger, step: Step, p: PlayerId)
    requires Enabled(cfg, l, step) && !(step.Enqueue? && step.player == p)
    ensures var t := Apply(l, step);
      && (p !in l.store.queue ==> p !in t.store.queue && t.matched[p] == l.matched[p])
      && (p in t.store.queue ==> p in l.store.queue && t.store.queue[p] == l.store.queue[p])
      && (p in t.store.queue && p in l.store.stamps ==> p in t.store.stamps && t.store.stamps[p] == l.store.stamps[p])
  {
  }

  /** A player who is not queued is not matched until enqueued again; whoever is still queued after
      any run without a new enqueue kept rating and join time. */
  lemma {:induction false} UntilEnqueued(cfg: Settings, l: Ledger, steps: seq<Step>, l': Ledger, p: PlayerId)
    requires Reaches(cfg, l, steps, l') && !Enters(steps, p)
    ensures p !in l.store.queue ==> p !in l'.store.queue && l'.matched[p] == l.matched[p]
    ensures p in l'.store.queue ==> p in l.store.queue && l'.store.queue[p] == l.store.queue[p]
    ensures p in l'.store.queue && p in l.store.stamps ==>
      p in l'.store.stamps && l'.store.stamps[p] == l.store.stamps[p]
    decreases |steps|
  {
    if steps != [] {
      StepUntilEnqueued(cfg, l, steps[0], p);
      UntilEnqueued(cfg, Apply(l, steps[0]), steps[1..], l', p);
    }
  }

  // ---- Widening ----

  ghost predicate Widening(cfg: Settings) {
    cfg.expansion >= 0.0
  }

  lemma ToleranceGrows(cfg: Settings, joined: real, now: real, later: real)
    requires Widening(cfg) && now <= later
    ensures Tolerance(cfg, joined, now) <= Tolerance(cfg, joined, later)
  {
    assert (later - now) * cfg.expansion >= 0.0;
    assert (later - joined) * cfg.expansion == (now - joined) * cfg.expansion + (later - now) * cfg.expansion;
  }

  /** Two players who accept each other still do at any later time, after any interleaving in which
      neither enqueues again and both stay queued; so a later pop cannot come back empty. */
  lemma CompatibleStays(cfg: Settings, l: Ledger, steps: seq<Step>, l': Ledger, p: PlayerId, q: PlayerId,
                        now: real, later: real)
    requires Widening(cfg) && now <= later && Reaches(cfg, l, steps, l') && Balanced(l)
    requires Compatible(cfg, l.store, now, p, q) && !Enters(steps, p) && !Enters(steps, q)
    requires p in l'.store.queue && q in l'.store.queue
    ensures Compatible(cfg, l'.store, later, p, q)
    ensures forall answer :: Enabled(cfg, l', Pop(later, answer)) ==> answer.Some?
  {
    UntilEnqueued(cfg, l, steps, l', p);
    UntilEnqueued(cfg, l, steps, l', q);
    CompatibleLater(cfg, l.store, l'.store, p, q, now, later);
  }

  lemma CompatibleLater(cfg: Settings, s: Store, t: Store, p: PlayerId, q: PlayerId, now: real, later: real)
    requires Widening(cfg) && now <= later && Compatible(cfg, s, now, p, q)
    requires forall x :: x == p || x == q ==>
      && x in s.stamps && x in t.stamps && t.stamps[x] == s.stamps[x]
      && x in t.queue && t.queue[x] == s.queue[x]
    ensures Compatible(cfg, t, later, p, q)
  {
    ToleranceGrows(cfg, s.stamps[p], now, later);
    ToleranceGrows(cfg, s.stamps[q], now, later);
  }

  /** Having waited for `wait` seconds or more, as seen at `now`. */
  ghost predicate Waited(s: Store, now: real, p: PlayerId, wait: real) {
    p in s.queue && p in s.stamps && now - s.stamps[p] >= wait
  }

  function LeastTolerance(cfg: Settings, wait: real): real {
    Min(cfg.base + wait * cfg.expansion, cfg.max)
  }

  /** The least tolerance of a player who has waited that long. */
  lemma ToleranceAfter(cfg: Settings, s: Store, now: real, p: PlayerId, wait: real)
    requires Widening(cfg) && Waited(s, now, p, wait)
    ensures ToleranceOf(cfg, s, now, p) >= LeastTolerance(cfg, wait)
  {
    assert (now - s.stamps[p] - wait) * cfg.expansion >= 0.0;
    assert (now - s.stamps[p]) * cfg.expansion == wait * cfg.expansion + (now - s.stamps[p] - wait) * cfg.expansion;
  }

  /** When the script finds nothing, any two players who have waited that long differ by more than
      that tolerance. With wait 0 this is the base tolerance, with (max - base) / expansion the
      maximum. */
  lemma NothingFoundSeparates(cfg: Settings, s: Store, now: real, p: PlayerId, q: PlayerId, wait: real)
    requires Widening(cfg) && NoPair(cfg, s, now) && p != q
    requires Waited(s, now, p, wait) && Waited(s, now, q, wait)
    ensures Gap(s.queue[p], s.queue[q]) as real > LeastTolerance(cfg, wait)
  {
    ToleranceAfter(cfg, s, now, p, wait);
    ToleranceAfter(cfg, s, now, q, wait);
    assert !Compatible(cfg, s, now, p, q);
  }

  lemma SaturatedTolerance(cfg: Settings, wait: real)
    requires cfg.expansion > 0.0 && wait == (cfg.max - cfg.base) / cfg.expansion
    ensures LeastTolerance(cfg, wait) == cfg.max
  {
  }

  /** So two players who both waited until their tolerance stopped widening differ by more than the
      maximum, and any two whose clocks are not ahead differ by more than the base. */
  lemma SaturatedSeparates(cfg: Settings, s: Store, now: real, p: PlayerId, q: PlayerId)
    requires cfg.expansion > 0.0 && NoPair(cfg, s, now) && p != q
    ensures var wait := (cfg.max - cfg.base) / cfg.expansion;
      Waited(s, now, p, wait) && Waited(s, now, q, wait) ==> Gap(s.queue[p], s.queue[q]) as real > cfg.max
    ensures cfg.base <= cfg.max && Waited(s, now, p, 0.0) && Waited(s, now, q, 0.0) ==>
      Gap(s.queue[p], s.queue[q]) as real > cfg.base
  {
    var wait := (cfg.max - cfg.base) / cfg.expansion;
    SaturatedTolerance(cfg, wait);
    if Waited(s, now, p, wait) && Waited(s, now, q, wait) {
      NothingFoundSeparates(cfg, s, now, p, q, wait);
    }
    if Waited(s, now, p, 0.0) && Waited(s, now, q, 0.0) {
      NothingFoundSeparates(cfg, s, now, p, q, 0.0);
    }
  }

  function Total(gaps: nat, gap: real): real {
    gaps as real * gap
  }

  /** How far apart the remaining players are: n >= 2 of them span more than n - 1 such gaps. */
  lemma ResidueSpread(cfg: Settings, s: Store, now: real, wait: real) returns (low: PlayerId, high: PlayerId)
    requires Widening(cfg) && NoPair(cfg, s, now) && |s.queue| >= 2
    requires forall p :: p in s.queue ==> Waited(s, now, p, wait)
    ensures low in s.queue && high in s.queue
    ensures (s.queue[high] - s.queue[low]) as real > Total(|s.queue| - 1, LeastTolerance(cfg, wait))
  {
    var ms := RankAll(s.queue, s.queue.Keys);
    forall i | 0 <= i < |ms| - 1
      ensures Apart(ms, i, LeastTolerance(cfg, wait))
    {
      NeighbourGap(cfg, s, now, wait, ms, i);
    }
    RankedSpread(s.queue, ms, LeastTolerance(cfg, wait));
    low, high := ms[0].pid, ms[|ms| - 1].pid;
  }

  lemma RankedSpread(queue: map<PlayerId, int>, ms: seq<Member>, gap: real)
    requires Ranks(queue, queue.Keys, ms) && |ms| == |queue| >= 2
    requires forall i :: 0 <= i < |ms| - 1 ==> Apart(ms, i, gap)
    ensures var low, high := ms[0].pid, ms[|ms| - 1].pid;
      && low in queue && high in queue
      && (queue[high] - queue[low]) as real > Total(|queue| - 1, gap)
  {
    SpreadAdds(ms, gap);
    assert ms[0] in ms && ms[|ms| - 1] in ms;
  }

  ghost predicate Apart(ms: seq<Member>, i: nat, gap: real)
    requires i + 1 < |ms|
  {
    (ms[i + 1].elo - ms[i].elo) as real > gap
  }

  lemma NeighbourGap(cfg: Settings, s: Store, now: real, wait: real, ms: seq<Member>, i: nat)
    requires Widening(cfg) && NoPair(cfg, s, now) && Ranks(s.queue, s.queue.Keys, ms) && i + 1 < |ms|
    requires forall p :: p in s.queue ==> Waited(s, now, p, wait)
    ensures Apart(ms, i, LeastTolerance(cfg, wait))
  {
    assert ms[i] in ms && ms[i + 1] in ms;
    NothingFoundSeparates(cfg, s, now, ms[i].pid, ms[i + 1].pid, wait);
  }

  lemma {:induction false} SpreadAdds(ms: seq<Member>, gap: real)
    requires |ms| >= 2
    requires forall i :: 0 <= i < |ms| - 1 ==> Apart(ms, i, gap)
    ensures (ms[|ms| - 1].elo - ms[0].elo) as real > Total(|ms| - 1, gap)
  {
    var k := |ms| - 1;
    assert Apart(ms, k - 1, gap);
    if |ms| > 2 {
      forall i | 0 <= i < k - 1
        ensures Apart(ms[..k], i, gap)
      {
        assert Apart(ms, i, gap);
      }
      SpreadAdds(ms[..k], gap);
      assert Total(k - 1, gap) + gap == Total(k, gap);
    }
  }

  /** Two queued players will accept each other at some later time exactly when their ratings differ
      by no more than the maximum tolerance. */
  lemma EventuallyCompatibleIff(cfg: Settings, s: Store, p: PlayerId, q: PlayerId, now: real)
    requires cfg.expansion > 0.0 && s.stamps.Keys == s.queue.Keys
    requires p in s.queue && q in s.queue && p != q
    ensures (exists later :: later >= now && Compatible(cfg, s, later, p, q))
      <==> Gap(s.queue[p], s.queue[q]) as real <= cfg.max
  {
    if Gap(s.queue[p], s.queue[q]) as real <= cfg.max {
      var wait := (cfg.max - cfg.base) / cfg.expansion;
      var join := if s.stamps[p] <= s.stamps[q] then s.stamps[q] else s.stamps[p];
      var later := if join + wait >= now then join + wait else now;
      SaturatedTolerance(cfg, wait);
      ToleranceAfter(cfg, s, later, p, wait);
      ToleranceAfter(cfg, s, later, q, wait);
      assert later >= now && Compatible(cfg, s, later, p, q);
    }
  }
}
