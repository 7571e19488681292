/** The order of a Redis sorted set: by rating, and by id where ratings are equal. */
module Ranking {
  type PlayerId = string

  datatype Member = Member(pid: PlayerId, elo: int)

  /** Strict lexicographic order of strings. */
  predicate Precedes(s: string, t: string) {
    t != [] && (s == [] || s[0] < t[0] || (s[0] == t[0] && Precedes(s[1..], t[1..])))
  }

  lemma {:induction false} PrecedesTotal(s: string, t: string)
    ensures Precedes(s, t) || s == t || Precedes(t, s)
    ensures !(Precedes(s, t) && Precedes(t, s)) && !Precedes(s, s)
  {
    if s != [] {
      PrecedesTotal(s[1..], s[1..]);
    }
    if s != [] && t != [] && s[0] == t[0] {
      PrecedesTotal(s[1..], t[1..]);
      assert s == [s[0]] + s[1..] && t == [t[0]] + t[1..];
    }
  }

  lemma {:induction false} PrecedesTransitive(s: string, t: string, u: string)
    requires Precedes(s, t) && Precedes(t, u)
    ensures Precedes(s, u)
  {
    if s != [] && s[0] == t[0] == u[0] {
      PrecedesTransitive(s[1..], t[1..], u[1..]);
    }
  }

  /** s comes first exactly when t goes on after s, or has the larger character where they first
      differ. */
  lemma {:induction false} PrecedesIff(s: string, t: string)
    ensures Precedes(s, t) <==>
      exists k: nat :: k <= |s| && k < |t| && s[..k] == t[..k] && (k == |s| || s[k] < t[k])
  {
    if s != [] && t != [] && s[0] == t[0] {
      PrecedesIff(s[1..], t[1..]);
      if k: nat :| k <= |s| && k < |t| && s[..k] == t[..k] && (k == |s| || s[k] < t[k]) {
        assert k > 0 && s[1..][..k - 1] == s[..k][1..] && t[1..][..k - 1] == t[..k][1..];
      }
      if Precedes(s, t) {
        var k: nat :| k <= |s[1..]| && k < |t[1..]| && s[1..][..k] == t[1..][..k]
          && (k == |s[1..]| || s[1..][k] < t[1..][k]);
        assert s[..k + 1] == [s[0]] + s[1..][..k] && t[..k + 1] == [t[0]] + t[1..][..k];
      }
    } else if Precedes(s, t) {
      assert s[..0] == t[..0];
    }
  }

  predicate Before(m: Member, n: Member) {
    m.elo < n.elo || (m.elo == n.elo && Precedes(m.pid, n.pid))
  }

  lemma BeforeTotal(m: Member, n: Member)
    ensures Before(m, n) || m == n || Before(n, m)
  {
    PrecedesTotal(m.pid, n.pid);
  }

  lemma BeforeAsymmetric(m: Member, n: Member)
    ensures !(Before(m, n) && Before(n, m))
  {
    PrecedesTotal(m.pid, n.pid);
  }

  lemma BeforeTransitive(l: Member, m: Member, n: Member)
    requires Before(l, m) && Before(m, n)
    ensures Before(l, n)
  {
    if l.elo == m.elo == n.elo {
      PrecedesTransitive(l.pid, m.pid, n.pid);
    }
  }

  // ---- Listings ----

  ghost predicate Sorted(ms: seq<Member>) {
    forall i, j :: 0 <= i < j < |ms| ==> Before(ms[i], ms[j])
  }

  ghost predicate DistinctIds(ms: seq<Member>) {
    forall i, j :: 0 <= i < j < |ms| ==> ms[i].pid != ms[j].pid
  }

  /** ms lists the given players once each, in order. */
  ghost predicate Ranks(queue: map<PlayerId, int>, players: set<PlayerId>, ms: seq<Member>)
    requires players <= queue.Keys
  {
    && Sorted(ms) && DistinctIds(ms)
    && (forall p :: p in players ==> Member(p, queue[p]) in ms)
    && (forall m :: m in ms ==> m.pid in players && queue[m.pid] == m.elo)
  }

  function InsertAt(ms: seq<Member>, k: nat, m: Member): (r: seq<Member>)
    requires k <= |ms|
    ensures |r| == |ms| + 1
    ensures forall i :: 0 <= i < |r| ==> r[i] == if i < k then ms[i] else if i == k then m else ms[i - 1]
  {
    ms[..k] + [m] + ms[k..]
  }

  lemma InsertMembers(ms: seq<Member>, k: nat, m: Member)
    requires k <= |ms|
    ensures forall x :: x in InsertAt(ms, k, m) <==> x in ms || x == m
  {
    assert ms == ms[..k] + ms[k..];
  }

  lemma InsertSorted(ms: seq<Member>, k: nat, m: Member)
    requires k <= |ms| && Sorted(ms)
    requires k > 0 ==> Before(ms[k - 1], m)
    requires k < |ms| ==> Before(m, ms[k])
    ensures Sorted(InsertAt(ms, k, m))
  {
    forall i | 0 <= i < |ms|
      ensures if i < k then Before(ms[i], m) else Before(m, ms[i])
    {
      if i < k - 1 {
        BeforeTransitive(ms[i], ms[k - 1], m);
      } else if i > k {
        BeforeTransitive(m, ms[k], ms[i]);
      }
    }
  }

  lemma InsertDistinct(ms: seq<Member>, k: nat, m: Member)
    requires k <= |ms| && DistinctIds(ms) && forall x :: x in ms ==> x.pid != m.pid
    ensures DistinctIds(InsertAt(ms, k, m))
  {
    assert forall i :: 0 <= i < |ms| ==> ms[i] in ms;
  }

  /** Behind all that come before m. */
  function Position(ms: seq<Member>, m: Member): (k: nat)
    ensures k <= |ms|
    ensures k > 0 ==> Before(ms[k - 1], m)
    ensures k < |ms| ==> !Before(ms[k], m)
  {
    if ms == [] || !Before(ms[0], m) then 0 else 1 + Position(ms[1..], m)
  }

  function Insert(ms: seq<Member>, m: Member): (r: seq<Member>)
    ensures |r| == |ms| + 1
  {
    InsertAt(ms, Position(ms, m), m)
  }

  lemma InsertRanks(queue: map<PlayerId, int>, players: set<PlayerId>, ms: seq<Member>, p: PlayerId)
    requires players <= queue.Keys && Ranks(queue, players, ms) && p in queue && p !in players
    ensures Ranks(queue, players + {p}, Insert(ms, Member(p, queue[p])))
  {
    var m := Member(p, queue[p]);
    var k := Position(ms, m);
    InsertMembers(ms, k, m);
    if k < |ms| {
      assert ms[k] in ms;
      BeforeTotal(m, ms[k]);
    }
    InsertSorted(ms, k, m);
    InsertDistinct(ms, k, m);
  }

  /** Every queue has a sorted listing with one entry per player. */
  lemma {:induction false} RankAll(queue: map<PlayerId, int>, players: set<PlayerId>) returns (ms: seq<Member>)
    requires players <= queue.Keys
    ensures Ranks(queue, players, ms) && |ms| == |players|
    decreases players
  {
    if players == {} {
      ms := [];
    } else {
      var p :| p in players;
      var others := players - {p};
      assert players == others + {p};
      var rest := RankAll(queue, others);
      ms := Insert(rest, Member(p, queue[p]));
      assert Ranks(queue, others + {p}, ms) by {
        InsertRanks(queue, others, rest, p);
      }
    }
  }
}
