/** The sliding-window rate limiter: a pruned and expiring sorted set, against the full log of all
    requests. Times are seconds, as reals; Redis expires keys by the same clock. */
module RateLimit {
  import opened Wrappers

  type Key = string
  type Id = string

  /** The sorted set of one client, and the time at which Redis drops the key. */
  datatype Bucket = Bucket(entries: map<Id, real>, expires: real)

  datatype Request = Request(id: Id, at: real)

  const FRESH := Bucket(map[], 0.0)

  /** The entries that a request at the given time still finds and does not prune. */
  function Surviving(b: Bucket, window: int, now: real): map<Id, real> {
    if now >= b.expires then map[]
    else map id | id in b.entries && b.entries[id] > now - window as real :: b.entries[id]
  }

  function Hit(b: Bucket, window: int, r: Request): Bucket {
    Bucket(Surviving(b, window, r.at)[r.id := r.at], r.at + window as real + 1.0)
  }

  class RateLimiter {
    var buckets: map<Key, Bucket>
    ghost var logs: map<Key, seq<Request>>  // all requests of each client, admitted or not
    ghost var windows: map<Key, int>        // the window with which each client is checked

    /** Each sorted set is what its client's requests have left in it. */
    ghost predicate Valid()
      reads this
    {
      Mirrors(buckets, logs, windows)
    }

    constructor ()
      ensures Valid() && buckets == map[]
    {
      buckets, logs, windows := map[], map[], map[];
    }

    /** The transaction: drop what is a window old, add the request, count, set the expiry. */
    method Transact(key: Key, window: int, r: Request) returns (requestCount: nat)
      modifies this`buckets
      ensures buckets == old(buckets)[key := Hit(GetOr(old(buckets), key, FRESH), window, r)]
      ensures requestCount == |buckets[key].entries|
    {
      var found := GetOr(buckets, key, FRESH);
      var entries := if r.at >= found.expires then map[] else found.entries;
      var windowStart := r.at - window as real;
      entries := map id | id in entries && entries[id] > windowStart :: entries[id];
      entries := entries[r.id := r.at];
      requestCount := |entries|;
      buckets := buckets[key := Bucket(entries, r.at + window as real + 1.0)];
    }

    /** check_rate_limit: the answer counts the kept requests, which for a client whose requests come in
        order are the recent ones of the full log. The id of a request is the time it was made and the
        address of that number, which may be in use again. */
    method CheckRateLimit(key: Key, maxRequests: int, window: int, r: Request) returns (allowed: bool)
      requires Valid() && GetOr(windows, key, window) == window
      modifies this
      ensures Valid()
      ensures logs == old(logs)[key := GetOr(old(logs), key, []) + [r]]
      ensures windows == old(windows)[key := window]
      ensures RightAnswer(maxRequests, window, logs[key], allowed)
    {
      ghost var log := GetOr(logs, key, []);
      var requestCount := Transact(key, window, r);
      logs := logs[key := log + [r]];
      windows := windows[key := window];
      allowed := requestCount <= maxRequests;
      MirrorsNext(old(buckets), old(logs), old(windows), key, window, r);
      AnswerToLast(maxRequests, window, log + [r]);
    }
  }

  // ---- Runs of one client ----

  /** The sorted set after all requests of the log, accepted or not. */
  function BucketAfter(window: int, log: seq<Request>): Bucket {
    if log == [] then FRESH else Hit(BucketAfter(window, log[..|log| - 1]), window, log[|log| - 1])
  }

  ghost predicate Mirrors(buckets: map<Key, Bucket>, logs: map<Key, seq<Request>>, windows: map<Key, int>) {
    && buckets.Keys == logs.Keys == windows.Keys
    && forall key :: key in buckets ==> buckets[key] == BucketAfter(windows[key], logs[key])
  }

  lemma MirrorsNext(buckets: map<Key, Bucket>, logs: map<Key, seq<Request>>, windows: map<Key, int>,
                    key: Key, window: int, r: Request)
    requires Mirrors(buckets, logs, windows) && GetOr(windows, key, window) == window
    ensures var b := Hit(GetOr(buckets, key, FRESH), window, r); var log := GetOr(logs, key, []) + [r];
      b == BucketAfter(window, log) && Mirrors(buckets[key := b], logs[key := log], windows[key := window])
  {
    BucketGrows(window, GetOr(logs, key, []), r);
  }

  lemma BucketGrows(window: int, log: seq<Request>, r: Request)
    ensures BucketAfter(window, log + [r]) == Hit(BucketAfter(window, log), window, r)
    ensures (log + [r])[..|log|] == log
  {
    assert (log + [r])[..|log|] == log;
  }

  /** The number of entries that the limiter counts for request i. */
  function RequestCount(window: int, log: seq<Request>, i: nat): nat
    requires i < |log|
  {
    |Hit(BucketAfter(window, log[..i]), window, log[i]).entries|
  }

  /** The limiter's answer to request i. */
  predicate Admitted(maxRequests: int, window: int, log: seq<Request>, i: nat)
    requires i < |log|
  {
    RequestCount(window, log, i) <= maxRequests
  }

  /** The earlier requests of the log that are less than a window old at request i. */
  ghost function Recent(window: int, log: seq<Request>, i: nat): set<nat>
    requires i < |log|
  {
    set k: nat | k < i && log[k].at > log[i].at - window as real
  }

  ghost predicate InOrder(log: seq<Request>) {
    forall i, j :: 0 <= i < j < |log| ==> log[i].at <= log[j].at
  }

  ghost predicate DistinctIds(log: seq<Request>) {
    forall i, j :: 0 <= i < j < |log| ==> log[i].id != log[j].id
  }

  /** An id begins with the time of its request, so that equal ids have equal times. */
  ghost predicate IdsNameTimes(log: seq<Request>) {
    forall i, j :: 0 <= i < j < |log| && log[i].id == log[j].id ==> log[i].at == log[j].at
  }

  ghost predicate DistinctAmong(log: seq<Request>, s: set<nat>)
    requires forall k :: k in s ==> k < |log|
  {
    forall i, j :: i in s && j in s && log[i].id == log[j].id ==> i == j
  }

  /** Request k is still in the set at request i: no request after it, up to and including i, came a
      window later or found the whole set expired. */
  ghost predicate Kept(window: int, log: seq<Request>, k: nat, i: nat)
    requires i < |log|
  {
    k < i && forall m :: k < m <= i ==> StillThere(window, log, k, m)
  }

  /** Request m neither came a window after request k nor found the whole set expired. */
  predicate StillThere(window: int, log: seq<Request>, k: nat, m: nat)
    requires k < m < |log|
  {
    && log[m].at < log[k].at + window as real
    && log[m].at < log[m - 1].at + window as real + 1.0
  }

  ghost function KeptAt(window: int, log: seq<Request>, i: nat): set<nat>
    requires i < |log|
  {
    set k: nat | k < i && Kept(window, log, k, i)
  }

  ghost function Names(log: seq<Request>, s: set<nat>): set<Id>
    requires forall k :: k in s ==> k < |log|
  {
    set k | k in s :: log[k].id
  }

  /** The entries are exactly those of the given requests of the log, with their times. */
  ghost predicate Stores(entries: map<Id, real>, log: seq<Request>, s: set<nat>) {
    && (forall k :: k in s ==> k < |log| && log[k].id in entries && entries[log[k].id] == log[k].at)
    && (forall id :: id in entries ==> exists k :: k in s && log[k].id == id)
  }

  lemma KeptNext(window: int, log: seq<Request>, k: nat, j: nat)
    requires k <= j && j + 1 < |log|
    ensures Kept(window, log, k, j + 1) <==>
      && (k == j || Kept(window, log, k, j))
      && log[j + 1].at < log[k].at + window as real
      && log[j + 1].at < log[j].at + window as real + 1.0
  {
    assert StillThere(window, log, k, j + 1) <==>
      log[j + 1].at < log[k].at + window as real && log[j + 1].at < log[j].at + window as real + 1.0;
  }

  /** What the next request finds of request j and of what j found. */
  function FoundNext(window: int, log: seq<Request>, j: nat, before: map<Id, real>): map<Id, real>
    requires j + 1 < |log|
  {
    Surviving(Bucket(before[log[j].id := log[j].at], log[j].at + window as real + 1.0), window, log[j + 1].at)
  }

  lemma KeptIsFound(window: int, log: seq<Request>, j: nat, before: map<Id, real>, k: nat)
    requires j + 1 < |log| && IdsNameTimes(log) && Stores(before, log, KeptAt(window, log, j))
    requires Kept(window, log, k, j + 1)
    ensures var found := FoundNext(window, log, j, before);
      log[k].id in found && found[log[k].id] == log[k].at
  {
    KeptNext(window, log, k, j);
    var r := log[k];
    if k < j {
      assert k in KeptAt(window, log, j);
      assert r.id in before && before[r.id] == r.at && (r.id == log[j].id ==> r.at == log[j].at);
    }
    assert before[log[j].id := log[j].at][r.id] == r.at;
  }

  lemma FoundIsKept(window: int, log: seq<Request>, j: nat, before: map<Id, real>, id: Id) returns (k: nat)
    requires j + 1 < |log| && IdsNameTimes(log) && Stores(before, log, KeptAt(window, log, j))
    requires id in FoundNext(window, log, j, before)
    ensures Kept(window, log, k, j + 1) && log[k].id == id
  {
    if id == log[j].id {
      k := j;
    } else {
      k :| k in KeptAt(window, log, j) && log[k].id == id;
    }
    KeptNext(window, log, k, j);
  }

  lemma StoresNext(window: int, log: seq<Request>, j: nat, before: map<Id, real>)
    requires j + 1 < |log| && IdsNameTimes(log) && Stores(before, log, KeptAt(window, log, j))
    ensures Stores(FoundNext(window, log, j, before), log, KeptAt(window, log, j + 1))
  {
    forall k | k in KeptAt(window, log, j + 1)
      ensures var found := FoundNext(window, log, j, before);
        log[k].id in found && found[log[k].id] == log[k].at
    {
      KeptIsFound(window, log, j, before, k);
    }
    forall id | id in FoundNext(window, log, j, before)
      ensures exists k :: k in KeptAt(window, log, j + 1) && log[k].id == id
    {
      var k := FoundIsKept(window, log, j, before, id);
      assert k in KeptAt(window, log, j + 1);
    }
  }

  /** What request i finds in the set. */
  function FoundAt(window: int, log: seq<Request>, i: nat): map<Id, real>
    requires i < |log|
  {
    Surviving(BucketAfter(window, log[..i]), window, log[i].at)
  }

  lemma FoundAtNext(window: int, log: seq<Request>, j: nat)
    requires j + 1 < |log|
    ensures FoundAt(window, log, j + 1) == FoundNext(window, log, j, FoundAt(window, log, j))
  {
    assert log[..j + 1] == log[..j] + [log[j]];
    BucketGrows(window, log[..j], log[j]);
  }

  /** Whatever the order of the times, it finds exactly the kept requests. */
  lemma {:induction false} BucketKeeps(window: int, log: seq<Request>, i: nat)
    requires i < |log| && IdsNameTimes(log)
    ensures Stores(FoundAt(window, log, i), log, KeptAt(window, log, i))
  {
    if i == 0 {
      assert FoundAt(window, log, 0) == map[] && KeptAt(window, log, 0) == {};
    } else {
      BucketKeeps(window, log, i - 1);
      FoundAtNext(window, log, i - 1);
      StoresNext(window, log, i - 1, FoundAt(window, log, i - 1));
    }
  }

  lemma KeptAreRecent(window: int, log: seq<Request>, i: nat)
    requires i < |log|
    ensures KeptAt(window, log, i) <= Recent(window, log, i)
  {
    forall k | k in KeptAt(window, log, i)
      ensures k in Recent(window, log, i)
    {
      assert StillThere(window, log, k, i);
    }
  }

  /** In order, the kept requests are the recent ones. */
  lemma KeptInOrder(window: int, log: seq<Request>, i: nat)
    requires InOrder(log) && i < |log|
    ensures KeptAt(window, log, i) == Recent(window, log, i)
  {
    KeptAreRecent(window, log, i);
    forall k: nat | k in Recent(window, log, i)
      ensures Kept(window, log, k, i)
    {
      forall m | k < m <= i
        ensures StillThere(window, log, k, m)
      {
        assert log[k].at <= log[m - 1].at && log[m].at <= log[i].at;
      }
    }
  }

  /** The requests less than a window old at the given time. */
  ghost function Within(window: int, log: seq<Request>, now: real): set<nat> {
    set k: nat | k < |log| && log[k].at > now - window as real
  }

  /** A request at the given time, with an id of its own. */
  lemma Probe(log: seq<Request>, now: real) returns (probe: Request)
    requires InOrder(log) && IdsNameTimes(log) && (log != [] ==> log[|log| - 1].at <= now)
    ensures probe.at == now && InOrder(log + [probe]) && IdsNameTimes(log + [probe])
  {
    var id := UnusedId(log);
    probe := Request(id, now);
  }

  lemma {:induction false} UnusedId(log: seq<Request>) returns (id: Id)
    ensures forall i :: 0 <= i < |log| ==> |log[i].id| < |id|
  {
    id := "x";
    if log != [] {
      var k := |log| - 1;
      id := UnusedId(log[..k]);
      if |id| <= |log[k].id| {
        id := log[k].id + "x";
      }
    }
  }

  lemma StoresWithoutProbe(entries: map<Id, real>, window: int, log: seq<Request>, probe: Request)
    requires Stores(entries, log + [probe], Recent(window, log + [probe], |log|))
    ensures Stores(entries, log, Within(window, log, probe.at))
  {
    var probed := log + [probe];
    forall k | k in Within(window, log, probe.at)
      ensures log[k].id in entries && entries[log[k].id] == log[k].at
    {
      assert probed[k] == log[k] && k in Recent(window, probed, |log|);
    }
    forall id | id in entries
      ensures exists k :: k in Within(window, log, probe.at) && log[k].id == id
    {
      var k :| k in Recent(window, probed, |log|) && probed[k].id == id;
      assert log[k] == probed[k] && k in Within(window, log, probe.at);
    }
  }

  /** With requests in order, at any time not before the last of them, the set still holds exactly
      the requests that are less than a window old, expired or not. */
  lemma BucketRepresents(window: int, log: seq<Request>, now: real)
    requires InOrder(log) && IdsNameTimes(log) && (log != [] ==> log[|log| - 1].at <= now)
    ensures Stores(Surviving(BucketAfter(window, log), window, now), log, Within(window, log, now))
  {
    var probe := Probe(log, now);
    BucketGrows(window, log, probe);
    BucketKeeps(window, log + [probe], |log|);
    KeptInOrder(window, log + [probe], |log|);
    StoresWithoutProbe(Surviving(BucketAfter(window, log), window, now), window, log, probe);
  }

  /** Requests have at most as many names as there are of them, and as many exactly when their ids
      differ. */
  lemma {:induction false} NamesSize(log: seq<Request>, s: set<nat>)
    requires forall k :: k in s ==> k < |log|
    ensures |Names(log, s)| <= |s|
    ensures |Names(log, s)| == |s| <==> DistinctAmong(log, s)
    decreases s
  {
    if i :| i in s {
      var rest := s - {i};
      NamesSize(log, rest);
      assert s == rest + {i};
      assert Names(log, s) == Names(log, rest) + {log[i].id};
      if log[i].id in Names(log, rest) {
        assert Names(log, s) == Names(log, rest);
        var j :| j in rest && log[j].id == log[i].id;
      } else {
        assert DistinctAmong(log, s) == DistinctAmong(log, rest);
      }
    } else {
      assert Names(log, s) == {};
    }
  }

  /** What is counted when request i is answered: itself and the kept requests. */
  ghost function Counted(window: int, log: seq<Request>, i: nat): (s: set<nat>)
    requires i < |log|
    ensures forall k :: k in s ==> k <= i
  {
    KeptAt(window, log, i) + {i}
  }

  /** The count for any request, with clocks in any order: one for each id of it and the kept ones. */
  lemma CountsKept(window: int, log: seq<Request>, i: nat)
    requires IdsNameTimes(log) && i < |log|
    ensures RequestCount(window, log, i) == |Names(log, Counted(window, log, i))|
  {
    var found := FoundAt(window, log, i);
    BucketKeeps(window, log, i);
    assert found.Keys == Names(log, KeptAt(window, log, i));
    assert found[log[i].id := log[i].at].Keys == found.Keys + {log[i].id};
    assert Names(log, Counted(window, log, i)) == found.Keys + {log[i].id};
  }

  /** With distinct ids, the request itself and the kept requests count. */
  lemma AdmittedByKept(maxRequests: int, window: int, log: seq<Request>, i: nat)
    requires DistinctIds(log) && i < |log|
    ensures Admitted(maxRequests, window, log, i) <==> |KeptAt(window, log, i)| + 1 <= maxRequests
  {
    CountsKept(window, log, i);
    NamesSize(log, Counted(window, log, i));
  }

  /** All recent requests are still there, under ids of their own. */
  ghost predicate NothingLost(window: int, log: seq<Request>, i: nat)
    requires i < |log|
  {
    && (forall k :: k in Recent(window, log, i) ==> Kept(window, log, k, i))
    && DistinctAmong(log, Recent(window, log, i) + {i})
  }

  /** The count is that of the full log exactly when no clock between a recent request and this one
      was a window ahead of the former or expired the set, and no two of these requests got the same
      id. */
  lemma CountsAsFullLogIff(window: int, log: seq<Request>, i: nat)
    requires IdsNameTimes(log) && i < |log|
    ensures RequestCount(window, log, i) == |Recent(window, log, i)| + 1 <==> NothingLost(window, log, i)
  {
    CountsKept(window, log, i);
    NamesAllIff(window, log, i);
  }

  lemma NamesAllIff(window: int, log: seq<Request>, i: nat)
    requires i < |log|
    ensures |Names(log, Counted(window, log, i))| == |Recent(window, log, i)| + 1 <==> NothingLost(window, log, i)
  {
    var due, counted := Recent(window, log, i) + {i}, Counted(window, log, i);
    NamesSize(log, counted);
    KeptAreRecent(window, log, i);
    assert counted <= due && |due| == |Recent(window, log, i)| + 1;
    if k :| k in Recent(window, log, i) && !Kept(window, log, k, i) {
      CardinalityMonotone(counted, due - {k});
    } else {
      assert counted == due;
    }
  }

  /** So is the answer, whatever the limit. */
  lemma {:induction false} AnswersAsFullLogIff(window: int, log: seq<Request>, i: nat)
    requires IdsNameTimes(log) && i < |log|
    ensures (forall max :: Admitted(max, window, log, i) <==> |Recent(window, log, i)| + 1 <= max)
      <==> NothingLost(window, log, i)
  {
    CountsAsFullLogIff(window, log, i);
    var count, due := RequestCount(window, log, i), |Recent(window, log, i)| + 1;
    assert Admitted(count, window, log, i) && (Admitted(due, window, log, i) <==> count <= due);
  }

  /** With requests in order the limiter answers as the full log would: the request itself and all
      earlier requests, accepted or rejected, that are less than a window old count, and nothing else.
      Neither pruning nor expiry ever changes an answer. */
  lemma AnswersAsFullLog(maxRequests: int, window: int, log: seq<Request>, i: nat)
    requires InOrder(log) && DistinctIds(log) && i < |log|
    ensures Admitted(maxRequests, window, log, i) <==> |Recent(window, log, i)| + 1 <= maxRequests
  {
    AdmittedByKept(maxRequests, window, log, i);
    KeptInOrder(window, log, i);
  }

  /** The answer to the last request counts the ids of it and of the kept ones: of distinct requests in
      order, it and the recent ones. */
  ghost predicate RightAnswer(maxRequests: int, window: int, log: seq<Request>, allowed: bool)
    requires log != []
  {
    var i := |log| - 1;
    && (allowed <==> Admitted(maxRequests, window, log, i))
    && (IdsNameTimes(log) ==> (allowed <==> |Names(log, Counted(window, log, i))| <= maxRequests))
    && (InOrder(log) && DistinctIds(log) ==> (allowed <==> |Recent(window, log, i)| + 1 <= maxRequests))
  }

  lemma AnswerToLast(maxRequests: int, window: int, log: seq<Request>)
    requires log != []
    ensures RightAnswer(maxRequests, window, log, |BucketAfter(window, log).entries| <= maxRequests)
  {
    if IdsNameTimes(log) {
      CountsKept(window, log, |log| - 1);
    }
    if InOrder(log) && DistinctIds(log) {
      AnswersAsFullLog(maxRequests, window, log, |log| - 1);
    }
  }

  /** Requests of which the last is admitted, which all lie less than a window before it, are at most
      the limit. */
  lemma AdmittedCluster(maxRequests: int, window: int, log: seq<Request>, s: set<nat>, last: nat)
    requires IdsNameTimes(log) && last in s && last < |log|
    requires Admitted(maxRequests, window, log, last) && NothingLost(window, log, last)
    requires forall i :: i in s ==> i <= last && (i != last ==> log[i].at > log[last].at - window as real)
    ensures |s| <= maxRequests
  {
    AnswersAsFullLogIff(window, log, last);
    assert s - {last} <= Recent(window, log, last);
    CardinalityMonotone(s - {last}, Recent(window, log, last));
  }

  lemma {:induction false} Latest(s: set<nat>) returns (last: nat)
    requires s != {}
    ensures last in s && forall i :: i in s ==> i <= last
    decreases s
  {
    var first :| first in s;
    var above := set i | i in s && i > first;
    if above == {} {
      last := first;
      assert forall i :: i in s && i > first ==> i in above;
    } else {
      assert first !in above;
      last := Latest(above);
      assert forall i :: i in s && i > first ==> i in above;
    }
  }

  ghost function AdmittedBetween(maxRequests: int, window: int, log: seq<Request>, from: real): set<nat> {
    set i: nat | i < |log| && from < log[i].at <= from + window as real && Admitted(maxRequests, window, log, i)
  }

  /** In every window of length W, wherever it starts, at most max_requests are admitted, as long as
      the set has lost nothing that the admitted ones should have found. */
  lemma WindowLimitUnlessLost(maxRequests: nat, window: int, log: seq<Request>, from: real)
    requires IdsNameTimes(log)
    requires forall i :: i in AdmittedBetween(maxRequests, window, log, from) ==> NothingLost(window, log, i)
    ensures |AdmittedBetween(maxRequests, window, log, from)| <= maxRequests
  {
    var s := AdmittedBetween(maxRequests, window, log, from);
    if s != {} {
      var last := Latest(s);
      AdmittedCluster(maxRequests, window, log, s, last);
    }
  }

  /** So the limit holds in every window for requests in order with distinct ids. */
  lemma WindowLimit(maxRequests: nat, window: int, log: seq<Request>, from: real)
    requires InOrder(log) && DistinctIds(log)
    ensures |AdmittedBetween(maxRequests, window, log, from)| <= maxRequests
  {
    forall i | i in AdmittedBetween(maxRequests, window, log, from)
      ensures NothingLost(window, log, i)
    {
      KeptInOrder(window, log, i);
    }
    WindowLimitUnlessLost(maxRequests, window, log, from);
  }

  /** A client that was silent for a window is admitted exactly when the limit allows anyone. */
  lemma SilentClientAdmitted(maxRequests: int, window: int, log: seq<Request>, i: nat)
    requires InOrder(log) && DistinctIds(log) && i < |log|
    requires forall k :: 0 <= k < i ==> log[k].at <= log[i].at - window as real
    ensures Admitted(maxRequests, window, log, i) <==> maxRequests >= 1
  {
    AnswersAsFullLog(maxRequests, window, log, i);
    assert Recent(window, log, i) == {};
  }

  /** Rejected requests count: a client that keeps at least max_requests of its own requests, admitted
      or not, within every window is never admitted again. */
  lemma PersistentClientRejected(maxRequests: nat, window: int, log: seq<Request>, i: nat)
    requires InOrder(log) && DistinctIds(log) && maxRequests <= i < |log|
    requires log[i - maxRequests].at > log[i].at - window as real
    ensures !Admitted(maxRequests, window, log, i)
  {
    BlockSize(i - maxRequests, i);
    forall k | k in Block(i - maxRequests, i)
      ensures k in Recent(window, log, i)
    {
      assert log[i - maxRequests].at <= log[k].at;
    }
    CardinalityMonotone(Block(i - maxRequests, i), Recent(window, log, i));
    AnswersAsFullLog(maxRequests, window, log, i);
  }

  ghost function Block(low: nat, high: nat): set<nat> {
    if low >= high then {} else Block(low, high - 1) + {high - 1}
  }

  lemma {:induction false} BlockSize(low: nat, high: nat)
    requires low <= high
    ensures |Block(low, high)| == high - low
    ensures forall k :: k in Block(low, high) <==> low <= k < high
  {
    if low < high {
      BlockSize(low, high - 1);
    }
  }

  /** With clocks that run backwards the pruned set forgets requests that the log would count. */
  lemma BackwardClockForgets()
    ensures var log := [Request("a", 5.0), Request("b", 10.0), Request("c", 5.5)];
      && DistinctIds(log) && Admitted(2, 1, log, 2) && |Recent(1, log, 2)| + 1 == 3
      && 0 in Recent(1, log, 2) && !Kept(1, log, 0, 2)
  {
    var log := [Request("a", 5.0), Request("b", 10.0), Request("c", 5.5)];
    var b1, b2 := Hit(FRESH, 1, log[0]), Hit(Hit(FRESH, 1, log[0]), 1, log[1]);
    assert log[..1] == [log[0]] && log[..2] == [log[0], log[1]];
    assert log[..2][..1] == log[..1] && log[..1][..0] == [];
    assert BucketAfter(1, log[..1]) == b1;
    assert BucketAfter(1, log[..2]) == b2;
    assert b2.entries == map["b" := 10.0];
    assert Hit(b2, 1, log[2]).entries == map["b" := 10.0, "c" := 5.5];
    assert Recent(1, log, 2) == {0, 1} && !StillThere(1, log, 0, 1);
  }
}
