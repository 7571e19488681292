/** The matchmaking queue: a sorted set of ratings and a hash of join times, and the script that
    pops one compatible pair from both. Times are seconds, as reals. */
module Matchmaking {
  import opened Ranking
  import opened Wrappers

  datatype Settings = Settings(base: real, expansion: real, max: real)

  /** The sorted set MATCHMAKING_QUEUE and the hash MATCHMAKING_TIMESTAMPS. */
  datatype Store = Store(queue: map<PlayerId, int>, stamps: map<PlayerId, real>)

  datatype Candidate = Candidate(pid: PlayerId, elo: int, tolerance: real)

  datatype Pair = Pair(a: Member, b: Member)

  function Min(x: real, y: real): real {
    if x <= y then x else y
  }

  function Tolerance(cfg: Settings, joined: real, now: real): real {
    Min(cfg.base + (now - joined) * cfg.expansion, cfg.max)
  }

  function ToleranceOf(cfg: Settings, s: Store, now: real, p: PlayerId): real {
    Tolerance(cfg, GetOr(s.stamps, p, now), now)
  }

  function Gap(x: int, y: int): nat {
    if x < y then y - x else x - y
  }

  /** Two queued players who both accept the rating difference. */
  predicate Compatible(cfg: Settings, s: Store, now: real, p: PlayerId, q: PlayerId) {
    && p != q && p in s.queue && q in s.queue
    && Gap(s.queue[p], s.queue[q]) as real <= ToleranceOf(cfg, s, now, p)
    && Gap(s.queue[p], s.queue[q]) as real <= ToleranceOf(cfg, s, now, q)
  }

  ghost predicate NoPair(cfg: Settings, s: Store, now: real) {
    forall p, q :: !Compatible(cfg, s, now, p, q)
  }

  /** a is a lowest-rated player who has a partner at all, and b is the nearest of all queued
      players, rated above or below, who are compatible with a. */
  ghost predicate Greedy(cfg: Settings, s: Store, now: real, a: PlayerId, b: PlayerId) {
    && Compatible(cfg, s, now, a, b)
    && s.queue[a] <= s.queue[b]
    && (forall p, q :: Compatible(cfg, s, now, p, q) ==> s.queue[a] <= s.queue[p])
    && (forall q :: Compatible(cfg, s, now, a, q) ==> Gap(s.queue[a], s.queue[b]) <= Gap(s.queue[a], s.queue[q]))
  }

  function MemberOf(s: Store, p: PlayerId): Member
    requires p in s.queue
  {
    Member(p, s.queue[p])
  }

  /** Equal ratings are told apart by the ids: a comes first of all who have a partner, and b first of
      all partners of a. */
  ghost predicate First(cfg: Settings, s: Store, now: real, a: PlayerId, b: PlayerId) {
    && Compatible(cfg, s, now, a, b)
    && (forall p, q :: Compatible(cfg, s, now, p, q) ==> p == a || Before(MemberOf(s, a), MemberOf(s, p)))
    && (forall q :: Compatible(cfg, s, now, a, q) ==> q == b || Before(MemberOf(s, b), MemberOf(s, q)))
  }

  function Without(s: Store, ps: set<PlayerId>): Store {
    Store(s.queue - ps, s.stamps - ps)
  }

  /** What one run of the script may answer and leave behind. */
  ghost predicate Popped(cfg: Settings, s: Store, now: real, r: Option<Pair>, s': Store) {
    match r
    case None => s' == s && NoPair(cfg, s, now)
    case Some(Pair(a, b)) =>
      && Greedy(cfg, s, now, a.pid, b.pid) && First(cfg, s, now, a.pid, b.pid)
      && a.elo == s.queue[a.pid] && b.elo == s.queue[b.pid]
      && s' == Without(s, {a.pid, b.pid})
  }

  /** The script's answer and what it leaves are determined by the queue, the join times and the clock. */
  lemma PopDetermined(cfg: Settings, s: Store, now: real, r: Option<Pair>, t: Store, r': Option<Pair>, t': Store)
    requires Popped(cfg, s, now, r, t) && Popped(cfg, s, now, r', t')
    ensures r == r' && t == t'
  {
    if r.Some? && r'.Some? {
      FirstIsUnique(cfg, s, now, r.value.a.pid, r.value.b.pid, r'.value.a.pid, r'.value.b.pid);
    }
  }

  lemma FirstIsUnique(cfg: Settings, s: Store, now: real, a: PlayerId, b: PlayerId, a': PlayerId, b': PlayerId)
    requires First(cfg, s, now, a, b) && First(cfg, s, now, a', b')
    ensures a == a' && b == b'
  {
    if a != a' {
      BeforeAsymmetric(MemberOf(s, a), MemberOf(s, a'));
    } else if b != b' {
      BeforeAsymmetric(MemberOf(s, b), MemberOf(s, b'));
    }
  }

  /** Among players with equal ratings the one with the first id is matched first. */
  lemma TieBreak(cfg: Settings, s: Store, now: real, a: PlayerId, b: PlayerId)
    requires First(cfg, s, now, a, b)
    ensures forall p, q :: Compatible(cfg, s, now, p, q) && s.queue[p] == s.queue[a] && p != a ==> Precedes(a, p)
    ensures forall q :: Compatible(cfg, s, now, a, q) && s.queue[q] == s.queue[b] && q != b ==> Precedes(b, q)
  {
  }

  // ---- When two players start to accept each other ----

  /** The exact moment: two queued players accept each other once both have waited until their
      tolerance, widening from the base, has reached the difference, if it is at most the maximum. */
  lemma AcceptanceMoment(cfg: Settings, s: Store, now: real, p: PlayerId, q: PlayerId)
    requires cfg.expansion > 0.0 && p != q
    requires p in s.queue && q in s.queue && p in s.stamps && q in s.stamps
    ensures var gap := (if s.queue[p] < s.queue[q] then s.queue[q] - s.queue[p] else s.queue[p] - s.queue[q]) as real;
      Compatible(cfg, s, now, p, q) <==>
        && gap <= cfg.max
        && now - s.stamps[p] >= (gap - cfg.base) / cfg.expansion
        && now - s.stamps[q] >= (gap - cfg.base) / cfg.expansion
  {
    var gap := (if s.queue[p] < s.queue[q] then s.queue[q] - s.queue[p] else s.queue[p] - s.queue[q]) as real;
    ToleratesIff(cfg, s, now, p, gap);
    ToleratesIff(cfg, s, now, q, gap);
    assert gap == Gap(s.queue[p], s.queue[q]) as real;
  }

  lemma ToleratesIff(cfg: Settings, s: Store, now: real, p: PlayerId, gap: real)
    requires cfg.expansion > 0.0 && p in s.stamps
    ensures gap <= ToleranceOf(cfg, s, now, p)
      <==> gap <= cfg.max && now - s.stamps[p] >= (gap - cfg.base) / cfg.expansion
  {
    ToleranceIs(cfg, s, now, p, now - s.stamps[p]);
    WaitIff(cfg.base, cfg.expansion, now - s.stamps[p], gap);
  }

  lemma ToleranceIs(cfg: Settings, s: Store, now: real, p: PlayerId, wait: real)
    requires p in s.stamps && wait == now - s.stamps[p]
    ensures ToleranceOf(cfg, s, now, p) == Min(cfg.base + wait * cfg.expansion, cfg.max)
  {
  }

  lemma WaitIff(base: real, expansion: real, wait: real, gap: real)
    requires expansion > 0.0
    ensures gap <= base + wait * expansion <==> wait >= (gap - base) / expansion
  {
    var need := (gap - base) / expansion;
    assert need * expansion == gap - base;
    assert wait * expansion - need * expansion == (wait - need) * expansion;
    SignOfProduct(wait - need, expansion);
  }

  lemma SignOfProduct(x: real, k: real)
    requires k > 0.0
    ensures x * k >= 0.0 <==> x >= 0.0
  {
  }

  /** A player without a join time counts as just joined. */
  lemma WithoutStamp(cfg: Settings, s: Store, now: real, p: PlayerId, q: PlayerId)
    requires p !in s.stamps
    ensures Compatible(cfg, s, now, p, q) <==> Compatible(cfg, s.(stamps := s.stamps[p := now]), now, p, q)
  {
  }

  /** Two players who have just joined match only within the base tolerance, whatever the expansion. */
  lemma JustJoined(cfg: Settings, s: Store, now: real, p: PlayerId, q: PlayerId)
    requires p != q && p in s.queue && q in s.queue
    requires p in s.stamps && q in s.stamps && s.stamps[p] == now && s.stamps[q] == now
    ensures Compatible(cfg, s, now, p, q) <==>
      && -cfg.base <= (s.queue[p] - s.queue[q]) as real <= cfg.base
      && -cfg.max <= (s.queue[p] - s.queue[q]) as real <= cfg.max
  {
    ToleranceIs(cfg, s, now, p, 0.0);
    ToleranceIs(cfg, s, now, q, 0.0);
    var d := s.queue[p] - s.queue[q];
    assert Gap(s.queue[p], s.queue[q]) == if d < 0 then -d else d;
  }

  // ---- From the lexicographically least index pair to the greedy choice ----

  ghost predicate Candidates(cfg: Settings, s: Store, now: real, ms: seq<Member>, cs: seq<Candidate>) {
    && |cs| == |ms|
    && forall i :: 0 <= i < |cs| ==>
      cs[i] == Candidate(ms[i].pid, ms[i].elo, ToleranceOf(cfg, s, now, ms[i].pid))
  }

  predicate Accept(c: Candidate, d: Candidate) {
    Gap(c.elo, d.elo) as real <= c.tolerance && Gap(c.elo, d.elo) as real <= d.tolerance
  }

  /** No accepting pair comes before (i, j) in lexicographic order. */
  ghost predicate NoneBefore(cs: seq<Candidate>, i: int, j: int) {
    forall k, l :: 0 <= k < l < |cs| && (k < i || (k == i && l < j)) ==> !Accept(cs[k], cs[l])
  }

  ghost predicate Scanned(cfg: Settings, s: Store, now: real, ms: seq<Member>, cs: seq<Candidate>) {
    Ranks(s.queue, s.queue.Keys, ms) && Candidates(cfg, s, now, ms, cs)
  }

  lemma IndexOf(cfg: Settings, s: Store, now: real, ms: seq<Member>, cs: seq<Candidate>, p: PlayerId) returns (i: nat)
    requires Scanned(cfg, s, now, ms, cs) && p in s.queue
    ensures i < |cs| && cs[i] == Candidate(p, s.queue[p], ToleranceOf(cfg, s, now, p))
  {
    assert Member(p, s.queue[p]) in ms;
    i :| 0 <= i < |ms| && ms[i] == Member(p, s.queue[p]);
  }

  /** Every compatible pair is an accepting pair of the list, in one of the two orders. */
  lemma IndexPair(cfg: Settings, s: Store, now: real, ms: seq<Member>, cs: seq<Candidate>, p: PlayerId, q: PlayerId)
      returns (k: nat, l: nat)
    requires Scanned(cfg, s, now, ms, cs) && Compatible(cfg, s, now, p, q)
    ensures k < |cs| && l < |cs| && k != l && cs[k].pid == p && cs[l].pid == q
    ensures cs[k].elo == s.queue[p] && cs[l].elo == s.queue[q]
    ensures Accept(cs[k], cs[l]) && Accept(cs[l], cs[k])
  {
    k := IndexOf(cfg, s, now, ms, cs, p);
    l := IndexOf(cfg, s, now, ms, cs, q);
  }

  lemma ScanFindsNone(cfg: Settings, s: Store, now: real, ms: seq<Member>, cs: seq<Candidate>)
    requires Scanned(cfg, s, now, ms, cs) && NoneBefore(cs, |cs|, 0)
    ensures NoPair(cfg, s, now)
  {
    forall p, q
      ensures !Compatible(cfg, s, now, p, q)
    {
      if Compatible(cfg, s, now, p, q) {
        var k, l := IndexPair(cfg, s, now, ms, cs, p, q);
      }
    }
  }

  lemma RankOrder(cfg: Settings, s: Store, now: real, ms: seq<Member>, cs: seq<Candidate>, i: nat, j: nat)
    requires Scanned(cfg, s, now, ms, cs) && i <= j < |cs|
    ensures cs[i].elo <= cs[j].elo
    ensures i == j || Before(Member(cs[i].pid, cs[i].elo), Member(cs[j].pid, cs[j].elo))
  {
  }

  /** The first accepting pair of the scan is the greedy choice. */
  lemma ScanFindsGreedy(cfg: Settings, s: Store, now: real, ms: seq<Member>, cs: seq<Candidate>, i: nat, j: nat)
    requires Scanned(cfg, s, now, ms, cs) && i < j < |cs|
    requires NoneBefore(cs, i, j) && Accept(cs[i], cs[j])
    ensures Greedy(cfg, s, now, cs[i].pid, cs[j].pid)
    ensures s.queue[cs[i].pid] == cs[i].elo && s.queue[cs[j].pid] == cs[j].elo
  {
    var a, b := cs[i].pid, cs[j].pid;
    assert ms[i] in ms && ms[j] in ms;
    RankOrder(cfg, s, now, ms, cs, i, j);
    forall p, q | Compatible(cfg, s, now, p, q)
      ensures s.queue[a] <= s.queue[p]
    {
      var k, l := IndexPair(cfg, s, now, ms, cs, p, q);
      RankOrder(cfg, s, now, ms, cs, i, k);
    }
    forall q | Compatible(cfg, s, now, a, q)
      ensures Gap(s.queue[a], s.queue[b]) <= Gap(s.queue[a], s.queue[q])
    {
      var k, l := IndexPair(cfg, s, now, ms, cs, a, q);
      assert k == i;
      RankOrder(cfg, s, now, ms, cs, j, l);
    }
  }

  /** It is also first in the order of ratings and ids. */
  lemma ScanFindsFirst(cfg: Settings, s: Store, now: real, ms: seq<Member>, cs: seq<Candidate>, i: nat, j: nat)
    requires Scanned(cfg, s, now, ms, cs) && i < j < |cs|
    requires NoneBefore(cs, i, j) && Accept(cs[i], cs[j])
    ensures First(cfg, s, now, cs[i].pid, cs[j].pid)
  {
    var a, b := cs[i].pid, cs[j].pid;
    assert ms[i] in ms && ms[j] in ms;
    forall p, q | Compatible(cfg, s, now, p, q)
      ensures p == a || Before(MemberOf(s, a), MemberOf(s, p))
    {
      var k, l := IndexPair(cfg, s, now, ms, cs, p, q);
      RankOrder(cfg, s, now, ms, cs, i, k);
    }
    forall q | Compatible(cfg, s, now, a, q)
      ensures q == b || Before(MemberOf(s, b), MemberOf(s, q))
    {
      var k, l := IndexPair(cfg, s, now, ms, cs, a, q);
      assert k == i;
      RankOrder(cfg, s, now, ms, cs, j, l);
    }
  }

  /** The first accepting pair from (i, j) on, in lexicographic order. */
  lemma {:induction false} NextPair(cs: seq<Candidate>, i: nat, j: nat) returns (k: nat, l: nat)
    requires i < j <= |cs| && NoneBefore(cs, i, j)
    ensures k < |cs| ==> k < l < |cs| && Accept(cs[k], cs[l]) && NoneBefore(cs, k, l)
    ensures k >= |cs| ==> NoneBefore(cs, |cs|, 0)
    decreases |cs| - i, |cs| - j
  {
    if j < |cs| && Accept(cs[i], cs[j]) {
      k, l := i, j;
    } else if j < |cs| {
      k, l := NextPair(cs, i, j + 1);
    } else if i + 1 < |cs| {
      k, l := NextPair(cs, i + 1, i + 2);
    } else {
      k, l := |cs|, 0;
    }
  }

  /** From every queue the script has an answer: some pair that leaves the rest, or nothing. */
  lemma PopExists(cfg: Settings, s: Store, now: real) returns (r: Option<Pair>, s': Store)
    ensures Popped(cfg, s, now, r, s')
  {
    var ms := RankAll(s.queue, s.queue.Keys);
    var cs := seq(|ms|, i requires 0 <= i < |ms| =>
      Candidate(ms[i].pid, ms[i].elo, ToleranceOf(cfg, s, now, ms[i].pid)));
    var i, j := |cs|, 0;
    if |cs| > 0 {
      i, j := NextPair(cs, 0, 1);
    }
    if i < |cs| {
      ScanFindsGreedy(cfg, s, now, ms, cs, i, j);
      ScanFindsFirst(cfg, s, now, ms, cs, i, j);
      r := Some(Pair(Member(cs[i].pid, cs[i].elo), Member(cs[j].pid, cs[j].elo)));
      s' := Without(s, {cs[i].pid, cs[j].pid});
    } else {
      ScanFindsNone(cfg, s, now, ms, cs);
      r, s' := None, s;
    }
  }

  // ---- The service ----

  class Matchmaker {
    const cfg: Settings
    var queue: map<PlayerId, int>
    var stamps: map<PlayerId, real>

    ghost function Contents(): Store
      reads this
    {
      Store(queue, stamps)
    }

    constructor (cfg: Settings)
      ensures this.cfg == cfg && Contents() == Store(map[], map[])
    {
      this.cfg, queue, stamps := cfg, map[], map[];
    }

    /** enqueue_player: one transaction on both keys. */
    method Enqueue(p: PlayerId, elo: int, now: real)
      modifies this
      ensures Contents() == Store(old(queue)[p := elo], old(stamps)[p := now])
    {
      queue := queue[p := elo];
      stamps := stamps[p := now];
    }

    method Dequeue(p: PlayerId) returns (removed: bool)
      modifies this
      ensures removed <==> p in old(queue)
      ensures queue == old(queue) - {p} && stamps == old(stamps) - {p}
      ensures Contents() == Without(old(Contents()), {p})
    {
      removed := p in queue;
      queue := queue - {p};
      stamps := stamps - {p};
    }

    /** ZRANGEBYSCORE -inf +inf: by rating, equal ratings by id. */
    method RangeByScore() returns (ms: seq<Member>)
      ensures Ranks(queue, queue.Keys, ms)
    {
      ms := [];
      var todo := queue.Keys;
      ghost var done := {};
      while todo != {}
        invariant todo !! done && todo + done == queue.Keys
        invariant Ranks(queue, done, ms)
        decreases todo
      {
        var p :| p in todo;
        InsertRanks(queue, done, ms, p);
        ms := Insert(ms, Member(p, queue[p]));
        todo, done := todo - {p}, done + {p};
      }
      assert done == queue.Keys;
    }

    /** The first accepting pair of the list in lexicographic order of the indices. */
    static method FirstPair(cs: seq<Candidate>) returns (i: nat, j: nat)
      ensures i < |cs| ==> i < j < |cs| && Accept(cs[i], cs[j]) && NoneBefore(cs, i, j)
      ensures i >= |cs| ==> NoneBefore(cs, |cs|, 0)
    {
      i, j := 0, 0;
      while i < |cs|
        invariant 0 <= i <= |cs|
        invariant NoneBefore(cs, i, 0)
      {
        j := i + 1;
        while j < |cs|
          invariant i < j <= |cs|
          invariant NoneBefore(cs, i, j)
        {
          if Accept(cs[i], cs[j]) {
            return;
          }
          j := j + 1;
        }
        i := i + 1;
      }
    }

    /** The script MATCHMAKING_LUA. */
    method PopPair(now: real) returns (r: Option<Pair>)
      modifies this
      ensures Popped(cfg, old(Contents()), now, r, Contents())
      ensures r.Some? ==>
        var a, b := r.value.a, r.value.b;
        && a.pid in old(queue) && b.pid in old(queue) && a.pid != b.pid
        && a.elo == old(queue)[a.pid] && b.elo == old(queue)[b.pid]
        && queue == old(queue) - {a.pid, b.pid} && stamps == old(stamps) - {a.pid, b.pid}
    {
      var ms := RangeByScore();
      if |ms| < 2 {
        TooFew(ms);
        return None;
      }
      var cs: seq<Candidate> := [];
      for k := 0 to |ms|
        invariant Candidates(cfg, Contents(), now, ms[..k], cs)
      {
        var joined := GetOr(stamps, ms[k].pid, now);
        cs := cs + [Candidate(ms[k].pid, ms[k].elo, Tolerance(cfg, joined, now))];
      }
      assert ms[..|ms|] == ms;
      var i, j := FirstPair(cs);
      if i >= |cs| {
        ScanFindsNone(cfg, Contents(), now, ms, cs);
        return None;
      }
      ScanFindsGreedy(cfg, Contents(), now, ms, cs, i, j);
      ScanFindsFirst(cfg, Contents(), now, ms, cs, i, j);
      var both := {cs[i].pid, cs[j].pid};
      queue := queue - both;
      stamps := stamps - both;
      return Some(Pair(Member(cs[i].pid, cs[i].elo), Member(cs[j].pid, cs[j].elo)));
    }

    lemma TooFew(ms: seq<Member>)
      requires Ranks(queue, queue.Keys, ms) && |ms| < 2
      ensures forall now :: NoPair(cfg, Contents(), now)
    {
      forall now, p, q
        ensures !Compatible(cfg, Contents(), now, p, q)
      {
      }
    }

    /** _try_match: answers nothing when the script has to be reloaded first. */
    method TryMatch(cached: bool, now: real) returns (r: Option<Pair>)
      modifies this
      ensures cached ==> Popped(cfg, old(Contents()), now, r, Contents())
      ensures !cached ==> r == None && Contents() == old(Contents())
    {
      if !cached {
        return None;
      }
      r := PopPair(now);
    }

    /** The inner loop of _matching_loop, at the times clock(0), clock(1), ..., while the service
        runs and nobody else touches the queue: one run of the script after the other, each from what
        the one before left. When it ended because the script answered nothing, no two of those left
        are compatible. */
    method Drain(clock: nat -> real, running: nat -> bool, cached: nat -> bool)
        returns (pairs: seq<Pair>, ghost stores: seq<Store>)
      modifies this
      ensures Chain(cfg, clock, stores, pairs) && stores[0] == old(Contents()) && stores[|pairs|] == Contents()
      ensures forall i :: 0 <= i < |pairs| ==> running(i) && cached(i)
      ensures !running(|pairs|) || !cached(|pairs|) || NoPair(cfg, Contents(), clock(|pairs|))
    {
      pairs, stores := [], [Contents()];
      while running(|pairs|)
        invariant Chain(cfg, clock, stores, pairs) && stores[0] == old(Contents()) && stores[|pairs|] == Contents()
        invariant forall i :: 0 <= i < |pairs| ==> running(i) && cached(i)
        decreases |queue|
      {
        var r := TryMatch(cached(|pairs|), clock(|pairs|));
        if r == None {
          return;
        }
        RemovePair(stores[|pairs|], r.value);
        ChainGrows(cfg, clock, stores, pairs, r.value, Contents());
        pairs, stores := pairs + [r.value], stores + [Contents()];
      }
    }
  }

  /** The pairs come from runs of the script, each from the store that the one before left. */
  ghost predicate Chain(cfg: Settings, clock: nat -> real, stores: seq<Store>, pairs: seq<Pair>) {
    && |stores| == |pairs| + 1
    && forall i :: 0 <= i < |pairs| ==> Popped(cfg, stores[i], clock(i), Some(pairs[i]), stores[i + 1])
  }

  lemma ChainGrows(cfg: Settings, clock: nat -> real, stores: seq<Store>, pairs: seq<Pair>, pair: Pair, s: Store)
    requires Chain(cfg, clock, stores, pairs) && Popped(cfg, stores[|pairs|], clock(|pairs|), Some(pair), s)
    ensures Chain(cfg, clock, stores + [s], pairs + [pair])
  {
  }

  lemma ChainPrefix(cfg: Settings, clock: nat -> real, stores: seq<Store>, pairs: seq<Pair>, k: nat)
    requires Chain(cfg, clock, stores, pairs) && k <= |pairs|
    ensures Chain(cfg, clock, stores[..k + 1], pairs[..k])
  {
  }

  /** So everyone queued at the start is in one pair or still queued, and nobody else. */
  lemma {:induction false} ChainDrains(cfg: Settings, clock: nat -> real, stores: seq<Store>, pairs: seq<Pair>)
    requires Chain(cfg, clock, stores, pairs)
    ensures Drained(stores[0], pairs, stores[|pairs|])
    decreases |pairs|
  {
    if pairs == [] {
      DrainStarts(stores[0]);
    } else {
      var k := |pairs| - 1;
      ChainPrefix(cfg, clock, stores, pairs, k);
      ChainDrains(cfg, clock, stores[..k + 1], pairs[..k]);
      DrainsOneMore(cfg, clock(k), stores[0], pairs[..k], stores[k], pairs[k], stores[k + 1]);
      assert pairs == pairs[..k] + [pairs[k]];
    }
  }

  lemma DrainsOneMore(cfg: Settings, now: real, start: Store, pairs: seq<Pair>, s: Store, pair: Pair, t: Store)
    requires Drained(start, pairs, s) && Popped(cfg, s, now, Some(pair), t)
    ensures Drained(start, pairs + [pair], t)
  {
    DrainContinues(start, pairs, s, pair);
  }

  /** Every pair was the greedy one when it was made, and carries the ratings of the initial queue. */
  lemma DrainedPair(cfg: Settings, clock: nat -> real, stores: seq<Store>, pairs: seq<Pair>, i: nat)
    requires Chain(cfg, clock, stores, pairs) && i < |pairs|
    ensures var a, b := pairs[i].a, pairs[i].b;
      && Greedy(cfg, stores[i], clock(i), a.pid, b.pid)
      && a.pid in stores[0].queue && stores[0].queue[a.pid] == a.elo
      && b.pid in stores[0].queue && stores[0].queue[b.pid] == b.elo
  {
    ChainPrefix(cfg, clock, stores, pairs, i);
    ChainDrains(cfg, clock, stores[..i + 1], pairs[..i]);
    assert Popped(cfg, stores[i], clock(i), Some(pairs[i]), stores[i + 1]);
  }

  /** How often p occurs in a pair, and in the first k pairs. */
  function Occurs(pair: Pair, p: PlayerId): nat {
    (if pair.a.pid == p then 1 else 0) + (if pair.b.pid == p then 1 else 0)
  }

  ghost function Times(pairs: seq<Pair>, k: nat, p: PlayerId): nat
    requires k <= |pairs|
  {
    if k == 0 then 0 else Times(pairs, k - 1, p) + Occurs(pairs[k - 1], p)
  }

  function Queued(s: Store, p: PlayerId): nat {
    if p in s.queue then 1 else 0
  }

  ghost predicate Accounted(start: Store, pairs: seq<Pair>, s: Store) {
    forall p :: Times(pairs, |pairs|, p) + Queued(s, p) == Queued(start, p)
  }

  /** Everyone queued at the start is in exactly one pair or still queued, rating and join time
      unchanged; nobody else is. */
  ghost predicate Drained(start: Store, pairs: seq<Pair>, s: Store) {
    && Accounted(start, pairs, s)
    && s.queue.Keys <= start.queue.Keys
    && s == Without(start, start.queue.Keys - s.queue.Keys)
  }

  lemma DrainStarts(s: Store)
    ensures Drained(s, [], s)
  {
    assert s.queue.Keys - s.queue.Keys == {};
    assert s == Without(s, {});
  }

  lemma {:induction false} TimesPrefix(pairs: seq<Pair>, pair: Pair, k: nat, p: PlayerId)
    requires k <= |pairs|
    ensures Times(pairs + [pair], k, p) == Times(pairs, k, p)
  {
    if k > 0 {
      TimesPrefix(pairs, pair, k - 1, p);
    }
  }

  lemma DrainContinues(start: Store, pairs: seq<Pair>, s: Store, pair: Pair)
    requires Drained(start, pairs, s)
    requires pair.a.pid in s.queue && pair.b.pid in s.queue && pair.a.pid != pair.b.pid
    ensures var t := Without(s, {pair.a.pid, pair.b.pid});
      Drained(start, pairs + [pair], t) && |t.queue| < |s.queue|
  {
    RemovePair(s, pair);
    WithoutMore(start, s, {pair.a.pid, pair.b.pid});
    AccountContinues(start, pairs, s, pair);
  }

  lemma AccountContinues(start: Store, pairs: seq<Pair>, s: Store, pair: Pair)
    requires Accounted(start, pairs, s)
    requires pair.a.pid in s.queue && pair.b.pid in s.queue && pair.a.pid != pair.b.pid
    ensures Accounted(start, pairs + [pair], Without(s, {pair.a.pid, pair.b.pid}))
  {
    forall p
      ensures Times(pairs + [pair], |pairs + [pair]|, p) + Queued(Without(s, {pair.a.pid, pair.b.pid}), p)
        == Queued(start, p)
    {
      assert Times(pairs, |pairs|, p) + Queued(s, p) == Queued(start, p);
      CountContinues(pairs, s, pair, p);
    }
  }

  lemma CountContinues(pairs: seq<Pair>, s: Store, pair: Pair, p: PlayerId)
    requires pair.a.pid in s.queue && pair.b.pid in s.queue && pair.a.pid != pair.b.pid
    ensures Times(pairs + [pair], |pairs + [pair]|, p) + Queued(Without(s, {pair.a.pid, pair.b.pid}), p)
      == Times(pairs, |pairs|, p) + Queued(s, p)
  {
    TimesPrefix(pairs, pair, |pairs|, p);
  }

  /** So the pairs of one drain are disjoint. */
  lemma DrainedPairsDisjoint(start: Store, pairs: seq<Pair>, s: Store, i: nat, j: nat)
    requires Drained(start, pairs, s) && i < j < |pairs|
    ensures {pairs[i].a.pid, pairs[i].b.pid} !! {pairs[j].a.pid, pairs[j].b.pid}
    ensures pairs[i].a.pid != pairs[i].b.pid
  {
    forall p
      ensures Occurs(pairs[i], p) + Occurs(pairs[j], p) <= 1
    {
      OccursTwice(pairs, |pairs|, i, j, p);
      assert Times(pairs, |pairs|, p) + Queued(s, p) == Queued(start, p);
    }
    var x, y := pairs[i], pairs[j];
    assert Occurs(x, x.a.pid) + Occurs(y, x.a.pid) <= 1;
    assert Occurs(x, x.b.pid) + Occurs(y, x.b.pid) <= 1;
  }

  lemma {:induction false} OccursOnce(pairs: seq<Pair>, k: nat, i: nat, p: PlayerId)
    requires i < k <= |pairs|
    ensures Occurs(pairs[i], p) <= Times(pairs, k, p)
  {
    if i < k - 1 {
      OccursOnce(pairs, k - 1, i, p);
    }
  }

  lemma {:induction false} OccursTwice(pairs: seq<Pair>, k: nat, i: nat, j: nat, p: PlayerId)
    requires i < j < k <= |pairs|
    ensures Occurs(pairs[i], p) + Occurs(pairs[j], p) <= Times(pairs, k, p)
  {
    if j < k - 1 {
      OccursTwice(pairs, k - 1, i, j, p);
    } else {
      OccursOnce(pairs, j, i, p);
    }
  }

  lemma RemovePair(s: Store, pair: Pair)
    requires pair.a.pid in s.queue && pair.b.pid in s.queue && pair.a.pid != pair.b.pid
    ensures var rest := Without(s, {pair.a.pid, pair.b.pid}).queue;
      && multiset(s.queue.Keys) == multiset{pair.a.pid, pair.b.pid} + multiset(rest.Keys)
      && |rest| < |s.queue|
  {
    var rest := Without(s, {pair.a.pid, pair.b.pid}).queue;
    assert rest.Keys == s.queue.Keys - {pair.a.pid, pair.b.pid};
    TakeTwo(s.queue.Keys, pair.a.pid, pair.b.pid);
    assert |rest| == |rest.Keys| && |s.queue| == |s.queue.Keys|;
  }

  lemma TakeTwo(s: set<PlayerId>, p: PlayerId, q: PlayerId)
    requires p in s && q in s && p != q
    ensures multiset(s) == multiset{p, q} + multiset(s - {p, q})
    ensures |s - {p, q}| < |s|
  {
    CardinalityMonotone(s - {p, q}, s - {p});
  }

  lemma WithoutMore(start: Store, s: Store, ps: set<PlayerId>)
    requires s.queue.Keys <= start.queue.Keys && ps <= s.queue.Keys
    requires s == Without(start, start.queue.Keys - s.queue.Keys)
    ensures var t := Without(s, ps); t == Without(start, start.queue.Keys - t.queue.Keys)
  {
    var t := Without(s, ps);
    assert t.queue.Keys == s.queue.Keys - ps;
    assert start.queue.Keys - t.queue.Keys == (start.queue.Keys - s.queue.Keys) + ps;
  }
}
