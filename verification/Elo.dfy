/** The rating update after a game, over the reals. The power function is a parameter: all that is
    used of 10^x is that it is positive, increasing, 1 at 0, and that 10^x * 10^-x = 1. */
module Elo {
  import opened Wrappers
  import opened GameRules
  import Snapshot

  ghost predicate IsPower(pow: real -> real) {
    && (forall x :: pow(x) > 0.0)
    && (forall x, y :: x < y ==> pow(x) < pow(y))
    && pow(0.0) == 1.0
    && Reciprocals(pow)
  }

  ghost predicate Reciprocals(pow: real -> real) {
    forall x :: pow(x) * pow(-x) == 1.0
  }

  /** Round half to even. */
  function Round(v: real): int {
    var low := v.Floor;
    var rest := v - low as real;
    if rest < 0.5 then low
    else if rest > 0.5 then low + 1
    else if low % 2 == 0 then low
    else low + 1
  }

  const K: real := 32.0

  const DEFAULT_ELO: int := 1000

  function Expected(pow: real -> real, own: int, other: int): real
    requires 1.0 + pow((other - own) as real / 400.0) != 0.0
  {
    1.0 / (1.0 + pow((other - own) as real / 400.0))
  }

  /** What the first and the second player scored. */
  function Actual(players: seq<PlayerId>, winner: Option<PlayerId>): (real, real)
    requires TwoPlayers(players)
  {
    if winner == Some(players[0]) then (1.0, 0.0)
    else if winner == Some(players[1]) then (0.0, 1.0)
    else (0.5, 0.5)
  }

  datatype Change = Change(rating: int, delta: int)

  /** The new rating and the change of each player. */
  ghost function EloChanges(pow: real -> real, players: seq<PlayerId>, elos: map<PlayerId, int>,
                            winner: Option<PlayerId>): map<PlayerId, Change>
    requires TwoPlayers(players) && IsPower(pow)
  {
    var elo1, elo2 := GetOr(elos, players[0], DEFAULT_ELO), GetOr(elos, players[1], DEFAULT_ELO);
    var expected1 := Expected(pow, elo1, elo2);
    var expected2 := 1.0 - expected1;
    var actual := Actual(players, winner);
    var delta1, delta2 := Round(K * (actual.0 - expected1)), Round(K * (actual.1 - expected2));
    map[players[0] := Change(elo1 + delta1, delta1), players[1] := Change(elo2 + delta2, delta2)]
  }

  // ---- Rounding ----

  lemma FloorIs(v: real, n: int)
    requires n as real <= v < n as real + 1.0
    ensures v.Floor == n
  {
  }

  lemma RoundOdd(v: real)
    ensures Round(-v) == -Round(v)
  {
    var low := v.Floor;
    if v == low as real {
      FloorIs(-v, -low);
    } else {
      FloorIs(-v, -low - 1);
    }
  }

  lemma RoundMonotone(v: real, w: real)
    requires v <= w
    ensures Round(v) <= Round(w)
  {
    if v.Floor < w.Floor {
      assert Round(v) <= v.Floor + 1 <= w.Floor <= Round(w);
    }
  }

  lemma RoundInt(n: int)
    ensures Round(n as real) == n
  {
    FloorIs(n as real, n);
  }

  /** Rounding gives something positive exactly above one half. */
  lemma RoundPositiveIff(v: real)
    ensures Round(v) > 0 <==> v > 0.5
  {
  }

  /** Rounding goes to a nearest integer, and to the even one where two are equally near. */
  lemma RoundNearest(v: real)
    ensures -0.5 <= Round(v) as real - v <= 0.5
    ensures Round(v) as real - v == 0.5 || Round(v) as real - v == -0.5 ==> Round(v) % 2 == 0
  {
    var low := v.Floor;
    assert low as real <= v < low as real + 1.0;
  }

  // ---- Expected scores ----

  lemma ExpectedRange(pow: real -> real, own: int, other: int)
    requires IsPower(pow)
    ensures 0.0 < Expected(pow, own, other) < 1.0
  {
    var t := pow((other - own) as real / 400.0);
    Reciprocal(t);
  }

  lemma Reciprocal(t: real)
    requires t > 0.0
    ensures 0.0 < 1.0 / (1.0 + t) < 1.0
    ensures 1.0 / (1.0 + t) * (1.0 + t) == 1.0
  {
  }

  lemma ReciprocalOrder(t: real, s: real)
    requires 0.0 < t <= s
    ensures 1.0 / (1.0 + s) <= 1.0 / (1.0 + t)
  {
    var a, b := 1.0 / (1.0 + t), 1.0 / (1.0 + s);
    Reciprocal(t);
    Reciprocal(s);
    assert (a - b) * (1.0 + t) == b * (s - t);
    assert b * (s - t) >= 0.0;
  }

  /** The expected scores of the two players add up to one. */
  lemma ExpectedSwap(pow: real -> real, own: int, other: int)
    requires IsPower(pow)
    ensures Expected(pow, own, other) + Expected(pow, other, own) == 1.0
  {
    var x := (other - own) as real / 400.0;
    assert (own - other) as real / 400.0 == -x;
    var t, s := pow(x), pow(-x);
    assert t * s == 1.0;
    ReciprocalSum(t, s);
  }

  lemma ReciprocalSum(t: real, s: real)
    requires t > 0.0 && s > 0.0 && t * s == 1.0
    ensures 1.0 / (1.0 + t) + 1.0 / (1.0 + s) == 1.0
  {
    var a, b := 1.0 / (1.0 + t), 1.0 / (1.0 + s);
    Reciprocal(t);
    Reciprocal(s);
    assert (1.0 + t) * s == 1.0 + s;
    assert a * ((1.0 + t) * s) == s;
    assert a == s * b;
  }

  lemma ExpectedMonotone(pow: real -> real, own: int, other: int, own': int, other': int)
    requires IsPower(pow) && own - other <= own' - other'
    ensures Expected(pow, own, other) <= Expected(pow, own', other')
  {
    var x, y := (other' - own') as real / 400.0, (other - own) as real / 400.0;
    if x < y {
      assert pow(x) < pow(y);
    }
    ReciprocalOrder(pow(x), pow(y));
  }

  // ---- The update ----

  /** The change of the rating of a player who scored a. */
  ghost function DeltaFor(pow: real -> real, a: real, own: int, other: int): int
    requires IsPower(pow)
  {
    Round(K * (a - Expected(pow, own, other)))
  }

  lemma DeltaForOther(pow: real -> real, a: real, own: int, other: int)
    requires IsPower(pow)
    ensures DeltaFor(pow, 1.0 - a, other, own) == -DeltaFor(pow, a, own, other)
  {
    ExpectedSwap(pow, own, other);
    MirroredDelta(a, Expected(pow, own, other));
  }

  /** The change of the first player's rating. */
  ghost function FirstDelta(pow: real -> real, players: seq<PlayerId>, elos: map<PlayerId, int>,
                            winner: Option<PlayerId>): int
    requires TwoPlayers(players) && IsPower(pow)
  {
    DeltaFor(pow, Actual(players, winner).0, GetOr(elos, players[0], DEFAULT_ELO), GetOr(elos, players[1], DEFAULT_ELO))
  }

  /** d points move from q to p. */
  function Transfer(p: PlayerId, q: PlayerId, elo1: int, elo2: int, d: int): map<PlayerId, Change> {
    map[p := Change(elo1 + d, d), q := Change(elo2 - d, -d)]
  }

  /** The second player's rating changes by exactly the opposite, since rounding is odd. */
  lemma OppositeDeltas(pow: real -> real, players: seq<PlayerId>, elos: map<PlayerId, int>, winner: Option<PlayerId>)
    requires TwoPlayers(players) && IsPower(pow)
    ensures EloChanges(pow, players, elos, winner)
      == Transfer(players[0], players[1], GetOr(elos, players[0], DEFAULT_ELO), GetOr(elos, players[1], DEFAULT_ELO),
                  FirstDelta(pow, players, elos, winner))
  {
    var elo1, elo2 := GetOr(elos, players[0], DEFAULT_ELO), GetOr(elos, players[1], DEFAULT_ELO);
    SecondDelta(players, winner, Expected(pow, elo1, elo2));
  }

  lemma DeltasAre(pow: real -> real, players: seq<PlayerId>, elos: map<PlayerId, int>, winner: Option<PlayerId>)
    requires TwoPlayers(players) && IsPower(pow)
    ensures var c := EloChanges(pow, players, elos, winner); var d := FirstDelta(pow, players, elos, winner);
      && players[0] in c && c[players[0]] == Change(GetOr(elos, players[0], DEFAULT_ELO) + d, d)
      && players[1] in c && c[players[1]] == Change(GetOr(elos, players[1], DEFAULT_ELO) - d, -d)
  {
    OppositeDeltas(pow, players, elos, winner);
  }

  lemma SecondDelta(players: seq<PlayerId>, winner: Option<PlayerId>, e: real)
    requires TwoPlayers(players)
    ensures var a := Actual(players, winner);
      Round(K * (a.1 - (1.0 - e))) == -Round(K * (a.0 - e))
  {
    var a := Actual(players, winner);
    assert a.1 == 1.0 - a.0;
    MirroredDelta(a.0, e);
  }

  lemma MirroredDelta(a: real, e: real)
    ensures Round(K * ((1.0 - a) - (1.0 - e))) == -Round(K * (a - e))
  {
    MirroredScores(a, e);
    RoundOdd(K * (a - e));
  }

  lemma MirroredScores(a: real, e: real)
    ensures K * ((1.0 - a) - (1.0 - e)) == -(K * (a - e))
  {
  }

  /** The change of the first player's rating is the integer nearest to 32 points for each score above
      the expected one. */
  lemma NearestDelta(pow: real -> real, players: seq<PlayerId>, elos: map<PlayerId, int>, winner: Option<PlayerId>)
    requires TwoPlayers(players) && IsPower(pow) && (winner.Some? ==> winner.value in players)
    ensures var elo1 := if players[0] in elos then elos[players[0]] else 1000;
      var elo2 := if players[1] in elos then elos[players[1]] else 1000;
      var score := if winner == Some(players[0]) then 1.0 else if winner == None then 0.5 else 0.0;
      var odds := pow((elo2 - elo1) as real / 400.0);
      var c := EloChanges(pow, players, elos, winner);
      && odds > 0.0 && players[0] in c && players[1] in c
      && -0.5 <= c[players[0]].delta as real - 32.0 * (score - 1.0 / (1.0 + odds)) <= 0.5
      && c[players[0]].rating == elo1 + c[players[0]].delta
      && c[players[1]].rating == elo2 - c[players[0]].delta
  {
    DeltasAre(pow, players, elos, winner);
    var elo1, elo2 := GetOr(elos, players[0], DEFAULT_ELO), GetOr(elos, players[1], DEFAULT_ELO);
    var score := Actual(players, winner).0;
    NearestDeltaFor(pow, score, elo1, elo2);
  }

  lemma NearestDeltaFor(pow: real -> real, score: real, own: int, other: int)
    requires IsPower(pow)
    ensures var odds := pow((other - own) as real / 400.0);
      odds > 0.0 && -0.5 <= DeltaFor(pow, score, own, other) as real - 32.0 * (score - 1.0 / (1.0 + odds)) <= 0.5
  {
    RoundNearest(K * (score - Expected(pow, own, other)));
  }

  /** No rating is created or destroyed, whatever the ratings and the outcome. */
  lemma ZeroSum(pow: real -> real, players: seq<PlayerId>, elos: map<PlayerId, int>, winner: Option<PlayerId>)
    requires TwoPlayers(players) && IsPower(pow)
    ensures var c := EloChanges(pow, players, elos, winner); var p, q := players[0], players[1];
      && c.Keys == {p, q}
      && c[p].delta + c[q].delta == 0
      && c[p].rating + c[q].rating == GetOr(elos, p, DEFAULT_ELO) + GetOr(elos, q, DEFAULT_ELO)
  {
    OppositeDeltas(pow, players, elos, winner);
  }

  /** At most 32 points change hands, at most 16 on a draw, and never from the winner to the loser. */
  lemma DeltaBounds(pow: real -> real, players: seq<PlayerId>, elos: map<PlayerId, int>, winner: Option<PlayerId>)
    requires TwoPlayers(players) && IsPower(pow) && (winner.Some? ==> winner.value in players)
    ensures var c := EloChanges(pow, players, elos, winner);
      && c.Keys == {players[0], players[1]}
      && (winner.Some? ==> 0 <= c[winner.value].delta <= 32)
      && (winner.None? ==> -16 <= c[players[0]].delta <= 16)
  {
    OppositeDeltas(pow, players, elos, winner);
    DeltaForBounds(pow, GetOr(elos, players[0], DEFAULT_ELO), GetOr(elos, players[1], DEFAULT_ELO));
  }

  lemma DeltaForBounds(pow: real -> real, own: int, other: int)
    requires IsPower(pow)
    ensures 0 <= DeltaFor(pow, 1.0, own, other) <= 32
    ensures -16 <= DeltaFor(pow, 0.5, own, other) <= 16
    ensures -32 <= DeltaFor(pow, 0.0, own, other) <= 0
  {
    var e := Expected(pow, own, other);
    ExpectedRange(pow, own, other);
    RoundBetween(K * (1.0 - e), 0, 32);
    RoundBetween(K * (0.5 - e), -16, 16);
    RoundBetween(K * (0.0 - e), -32, 0);
  }

  lemma RoundBetween(v: real, low: int, high: int)
    ensures low as real <= v <= high as real ==> low <= Round(v) <= high
  {
    if low as real <= v <= high as real {
      RoundInt(low);
      RoundInt(high);
      RoundMonotone(low as real, v);
      RoundMonotone(v, high as real);
    }
  }

  /** Which player is listed first makes no difference. */
  lemma OrderIrrelevant(pow: real -> real, players: seq<PlayerId>, elos: map<PlayerId, int>, winner: Option<PlayerId>)
    requires TwoPlayers(players) && IsPower(pow)
    ensures EloChanges(pow, [players[1], players[0]], elos, winner) == EloChanges(pow, players, elos, winner)
  {
    var swapped := [players[1], players[0]];
    SwappedDelta(pow, players, elos, winner);
    OppositeDeltas(pow, players, elos, winner);
    OppositeDeltas(pow, swapped, elos, winner);
    var d, e := FirstDelta(pow, players, elos, winner), FirstDelta(pow, swapped, elos, winner);
    SameChanges(players[0], players[1], GetOr(elos, players[0], DEFAULT_ELO), GetOr(elos, players[1], DEFAULT_ELO),
                d, e);
  }

  lemma SwappedDelta(pow: real -> real, players: seq<PlayerId>, elos: map<PlayerId, int>, winner: Option<PlayerId>)
    requires TwoPlayers(players) && IsPower(pow)
    ensures FirstDelta(pow, [players[1], players[0]], elos, winner) == -FirstDelta(pow, players, elos, winner)
  {
    SwappedScore(players, winner);
    var elo1, elo2 := GetOr(elos, players[0], DEFAULT_ELO), GetOr(elos, players[1], DEFAULT_ELO);
    DeltaForOther(pow, Actual(players, winner).0, elo1, elo2);
  }

  lemma SwappedScore(players: seq<PlayerId>, winner: Option<PlayerId>)
    requires TwoPlayers(players)
    ensures Actual([players[1], players[0]], winner).0 == 1.0 - Actual(players, winner).0
  {
  }

  lemma SameChanges(p: PlayerId, q: PlayerId, elo1: int, elo2: int, d: int, e: int)
    requires p != q && e == -d
    ensures Transfer(p, q, elo1, elo2, d) == Transfer(q, p, elo2, elo1, e)
  {
  }

  /** A larger lead never earns the first player more, for the same result. */
  lemma LeadEarnsLess(pow: real -> real, players: seq<PlayerId>, elos: map<PlayerId, int>, elos': map<PlayerId, int>,
                      winner: Option<PlayerId>)
    requires TwoPlayers(players) && IsPower(pow)
    requires GetOr(elos, players[0], DEFAULT_ELO) - GetOr(elos, players[1], DEFAULT_ELO)
      <= GetOr(elos', players[0], DEFAULT_ELO) - GetOr(elos', players[1], DEFAULT_ELO)
    ensures players[0] in EloChanges(pow, players, elos, winner)
    ensures players[0] in EloChanges(pow, players, elos', winner)
    ensures EloChanges(pow, players, elos', winner)[players[0]].delta
      <= EloChanges(pow, players, elos, winner)[players[0]].delta
  {
    DeltasAre(pow, players, elos, winner);
    DeltasAre(pow, players, elos', winner);
    LeadDelta(pow, players, elos, elos', winner);
  }

  lemma LeadDelta(pow: real -> real, players: seq<PlayerId>, elos: map<PlayerId, int>, elos': map<PlayerId, int>,
                  winner: Option<PlayerId>)
    requires TwoPlayers(players) && IsPower(pow)
    requires GetOr(elos, players[0], DEFAULT_ELO) - GetOr(elos, players[1], DEFAULT_ELO)
      <= GetOr(elos', players[0], DEFAULT_ELO) - GetOr(elos', players[1], DEFAULT_ELO)
    ensures FirstDelta(pow, players, elos', winner) <= FirstDelta(pow, players, elos, winner)
  {
    var e := Expected(pow, GetOr(elos, players[0], DEFAULT_ELO), GetOr(elos, players[1], DEFAULT_ELO));
    var e' := Expected(pow, GetOr(elos', players[0], DEFAULT_ELO), GetOr(elos', players[1], DEFAULT_ELO));
    ExpectedMonotone(pow, GetOr(elos, players[0], DEFAULT_ELO), GetOr(elos, players[1], DEFAULT_ELO),
      GetOr(elos', players[0], DEFAULT_ELO), GetOr(elos', players[1], DEFAULT_ELO));
    var a := Actual(players, winner).0;
    RoundMonotone(K * (a - e'), K * (a - e));
  }

  /** The favourite, listed first, does not gain from a draw, and an upset pays at least as much as
      the expected result. */
  lemma UpsetPaysMore(pow: real -> real, players: seq<PlayerId>, elos: map<PlayerId, int>)
    requires TwoPlayers(players) && IsPower(pow)
    requires GetOr(elos, players[0], DEFAULT_ELO) >= GetOr(elos, players[1], DEFAULT_ELO)
    ensures var p, q := players[0], players[1];
      && p in EloChanges(pow, players, elos, None) && EloChanges(pow, players, elos, None)[p].delta <= 0
      && p in EloChanges(pow, players, elos, Some(p)) && q in EloChanges(pow, players, elos, Some(q))
      && EloChanges(pow, players, elos, Some(p))[p].delta <= EloChanges(pow, players, elos, Some(q))[q].delta
  {
    DeltasAre(pow, players, elos, None);
    DeltasAre(pow, players, elos, Some(players[0]));
    DeltasAre(pow, players, elos, Some(players[1]));
    UpsetDeltas(pow, players, elos);
  }

  lemma UpsetDeltas(pow: real -> real, players: seq<PlayerId>, elos: map<PlayerId, int>)
    requires TwoPlayers(players) && IsPower(pow)
    requires GetOr(elos, players[0], DEFAULT_ELO) >= GetOr(elos, players[1], DEFAULT_ELO)
    ensures FirstDelta(pow, players, elos, None) <= 0
    ensures FirstDelta(pow, players, elos, Some(players[0])) <= -FirstDelta(pow, players, elos, Some(players[1]))
  {
    UpsetDeltaFor(pow, GetOr(elos, players[0], DEFAULT_ELO), GetOr(elos, players[1], DEFAULT_ELO));
  }

  lemma UpsetDeltaFor(pow: real -> real, own: int, other: int)
    requires IsPower(pow) && own >= other
    ensures DeltaFor(pow, 0.5, own, other) <= 0
    ensures DeltaFor(pow, 1.0, own, other) <= -DeltaFor(pow, 0.0, own, other)
  {
    FavouriteExpectsHalf(pow, own, other);
    RoundedUpset(Expected(pow, own, other));
  }

  lemma RoundedUpset(e: real)
    requires e >= 0.5
    ensures Round(K * (0.5 - e)) <= 0
    ensures Round(K * (1.0 - e)) <= -Round(K * (0.0 - e))
  {
    RoundInt(0);
    RoundMonotone(K * (0.5 - e), 0.0);
    RoundOdd(K * (0.0 - e));
    RoundMonotone(K * (1.0 - e), -(K * (0.0 - e)));
  }

  lemma FavouriteExpectsHalf(pow: real -> real, own: int, other: int)
    requires IsPower(pow) && own >= other
    ensures Expected(pow, own, other) >= 0.5
  {
    ExpectedMonotone(pow, other, own, own, other);
    ExpectedSwap(pow, own, other);
  }

  /** A winner gains something exactly when the odds against the opponent are below 63 to 1. */
  lemma WinnerGainsIff(pow: real -> real, players: seq<PlayerId>, elos: map<PlayerId, int>)
    requires TwoPlayers(players) && IsPower(pow)
    ensures var c := EloChanges(pow, players, elos, Some(players[0]));
      var lag := GetOr(elos, players[1], DEFAULT_ELO) - GetOr(elos, players[0], DEFAULT_ELO);
      players[0] in c && (c[players[0]].delta > 0 <==> 63.0 * pow(lag as real / 400.0) > 1.0)
  {
    var elo1, elo2 := GetOr(elos, players[0], DEFAULT_ELO), GetOr(elos, players[1], DEFAULT_ELO);
    var t := pow((elo2 - elo1) as real / 400.0);
    var e := Expected(pow, elo1, elo2);
    OppositeDeltas(pow, players, elos, Some(players[0]));
    RoundPositiveIff(K * (1.0 - e));
    HalfPointIff(t);
  }

  lemma HalfPointIff(t: real)
    requires t > 0.0
    ensures K * (1.0 - 1.0 / (1.0 + t)) > 0.5 <==> 63.0 * t > 1.0
  {
    var a := 1.0 / (1.0 + t);
    Reciprocal(t);
    assert a * (1.0 + t) == 1.0;
  }

  /** A restored game has lost its ratings: it is rated as between two 1000-rated players, so that
      every win moves exactly 16 points. */
  lemma RestoredGameIsEven(pow: real -> real, g: Game)
    requires TwoPlayers(g.players) && g.current < 2 && IsPower(pow) && g.winner.Some? && g.winner.value in g.players
    ensures var h := Snapshot.Restored(g); var c := EloChanges(pow, h.players, h.elos, h.winner);
      && g.winner.value in c
      && c[g.winner.value] == Change(1016, 16)
  {
    var h := Snapshot.Restored(g);
    OppositeDeltas(pow, h.players, h.elos, h.winner);
    EvenDelta(pow, DEFAULT_ELO);
  }

  lemma EvenDelta(pow: real -> real, elo: int)
    requires IsPower(pow)
    ensures DeltaFor(pow, 1.0, elo, elo) == 16 && DeltaFor(pow, 0.0, elo, elo) == -16
  {
    assert (elo - elo) as real / 400.0 == 0.0;
    RoundInt(16);
    RoundInt(-16);
  }

  lemma ReciprocalStrict(t: real, s: real)
    requires 0.0 < t < s
    ensures 1.0 / (1.0 + s) < 1.0 / (1.0 + t)
  {
    var a, b := 1.0 / (1.0 + t), 1.0 / (1.0 + s);
    Reciprocal(t);
    Reciprocal(s);
    assert (a - b) * (1.0 + t) == b * (s - t);
    assert b * (s - t) > 0.0;
    SignOfFactor(a - b, 1.0 + t);
  }

  lemma SignOfFactor(x: real, k: real)
    requires k > 0.0 && x * k > 0.0
    ensures x > 0.0
  {
  }

  function SamplePower(x: real): real {
    if x >= 0.0 then 1.0 + x else 1.0 / (1.0 + -x)
  }

  lemma SampleReciprocals(pow: real -> real)
    requires forall x :: pow(x) == SamplePower(x)
    ensures Reciprocals(pow)
  {
    forall x
      ensures pow(x) * pow(-x) == 1.0
    {
      assert pow(x) == SamplePower(x) && pow(-x) == SamplePower(-x);
      if x != 0.0 {
        Reciprocal(if x < 0.0 then -x else x);
      }
    }
  }

  /** The assumptions on the power function can be met. */
  lemma PowerExists() returns (pow: real -> real)
    ensures IsPower(pow)
  {
    pow := x => SamplePower(x);
    SampleReciprocals(pow);
    forall x
      ensures pow(x) > 0.0
    {
      if x < 0.0 {
        Reciprocal(-x);
      }
    }
    forall x, y | x < y
      ensures pow(x) < pow(y)
    {
      if y < 0.0 {
        ReciprocalStrict(-y, -x);
      } else if x < 0.0 {
        Reciprocal(-x);
      }
    }
  }
}
