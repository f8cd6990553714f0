/** The pairing rule of swissPairings: walk down the ranking two rows at a
    time, pairing rank 0 with rank 1, rank 2 with rank 3, and so on, for
    floor(n / 2) pairs. With an odd count the last-ranked player gets no pair.
    The lemmas here hold for ANY ranking sorted by wins, so they do not depend
    on how ties are ordered. */
module Pairings {
  import opened Records
  import opened Ranking

  /** The tuple concatenation `results[first] + results[last]`. */
  function Pair(a: Standing, b: Standing): Pairing
  {
    Pairing(a.id, a.name, b.id, b.name)
  }

  /** The pairings of a ranking: pair i is built from ranks 2i and 2i + 1. */
  function PairUp(r: seq<Standing>): (ps: seq<Pairing>)
    ensures |ps| == |r| / 2
    ensures forall i :: 0 <= i < |ps| ==> ps[i] == Pair(r[2 * i], r[2 * i + 1])
  {
    if |r| < 2 then [] else [Pair(r[0], r[1])] + PairUp(r[2..])
  }

  /** The players seated by a list of pairings, pair by pair, first then second. */
  function Seated(ps: seq<Pairing>): seq<nat>
  {
    if ps == [] then [] else [ps[0].id1, ps[0].id2] + Seated(ps[1..])
  }

  /** The seats follow the ranking: they are the ids of the first 2 * floor(n / 2)
      ranks, in ranking order. */
  lemma {:induction false} SeatedInRankOrder(r: seq<Standing>)
    ensures Seated(PairUp(r)) == Ids(r)[..|r| / 2 * 2]
  {
    if |r| >= 2 {
      SeatedInRankOrder(r[2..]);
      var ps := PairUp(r);
      assert ps[1..] == PairUp(r[2..]);
      assert Ids(r[2..]) == Ids(r)[2..];
      assert (|r| - 2) / 2 * 2 + 2 == |r| / 2 * 2;
      assert Ids(r)[..|r| / 2 * 2] == [r[0].id, r[1].id] + Ids(r)[2..][..(|r| - 2) / 2 * 2];
    }
  }

  /** Every player is in at most one pair and is never paired with itself. */
  lemma {:induction false} PairsAreDisjoint(r: seq<Standing>)
    requires DistinctIds(r)
    ensures Distinct(Seated(PairUp(r)))
    ensures forall i :: 0 <= i < |PairUp(r)| ==> PairUp(r)[i].id1 != PairUp(r)[i].id2
  {
    SeatedInRankOrder(r);
  }

  /** With an even count, every ranked player is seated, each exactly once. */
  lemma {:induction false} EvenCountSeatsEveryone(r: seq<Standing>)
    requires |r| % 2 == 0
    ensures Seated(PairUp(r)) == Ids(r)
    ensures forall k :: 0 <= k < |r| ==> r[k].id in Seated(PairUp(r))
  {
    SeatedInRankOrder(r);
    assert Ids(r)[..|r| / 2 * 2] == Ids(r);
    assert forall k :: 0 <= k < |r| ==> Ids(r)[k] == r[k].id;
  }

  /** With an odd count, the last-ranked player is the one left without a pair;
      everyone ranked above is seated. */
  lemma {:induction false} OddCountDropsLast(r: seq<Standing>)
    requires |r| % 2 == 1
    requires DistinctIds(r)
    ensures Seated(PairUp(r)) == Ids(r)[..|r| - 1]
    ensures r[|r| - 1].id !in Seated(PairUp(r))
    ensures forall k :: 0 <= k < |r| - 1 ==> r[k].id in Seated(PairUp(r))
  {
    SeatedInRankOrder(r);
    assert |r| / 2 * 2 == |r| - 1;
    var seated := Seated(PairUp(r));
    assert forall k :: 0 <= k < |r| - 1 ==> seated[k] == r[k].id;
  }

  /** The wins the ranking lists for player `id` (0 when it lists none). */
  function WinsOf(r: seq<Standing>, id: nat): nat
  {
    if r == [] then 0 else if r[0].id == id then r[0].wins else WinsOf(r[1..], id)
  }

  /** In a ranking without repeated players, looking a player up by id finds
      their own row. */
  lemma {:induction false} WinsOfAt(r: seq<Standing>, k: nat)
    requires DistinctIds(r) && k < |r|
    ensures WinsOf(r, r[k].id) == r[k].wins
  {
    if k > 0 {
      assert r[0].id != r[k].id;
      assert r[1..][k - 1] == r[k];
      WinsOfAt(r[1..], k - 1);
    }
  }

  /** The two players of pair i are looked up at ranks 2i and 2i + 1. */
  lemma {:induction false} WinsOfPair(r: seq<Standing>, i: nat)
    requires DistinctIds(r) && i < |r| / 2
    ensures WinsOf(r, PairUp(r)[i].id1) == r[2 * i].wins
    ensures WinsOf(r, PairUp(r)[i].id2) == r[2 * i + 1].wins
  {
    WinsOfAt(r, 2 * i);
    WinsOfAt(r, 2 * i + 1);
  }

  /** Paired players have adjacent records: in a ranking sorted by wins, the
      first player of pair i has at least the wins of the second, who has at
      least the wins of the first player of any later pair j. */
  lemma {:induction false} PairsFollowRanking(r: seq<Standing>, i: nat, j: nat)
    requires SortedByWins(r) && DistinctIds(r)
    requires i < j < |r| / 2
    ensures WinsOf(r, PairUp(r)[i].id1) >= WinsOf(r, PairUp(r)[i].id2)
    ensures WinsOf(r, PairUp(r)[i].id2) >= WinsOf(r, PairUp(r)[j].id1)
    ensures WinsOf(r, PairUp(r)[j].id1) >= WinsOf(r, PairUp(r)[j].id2)
  {
    WinsOfPair(r, i);
    WinsOfPair(r, j);
  }

  /** The one-round scenario of tournament_test.py: four players, A beat B and
      C beat D. Whatever order the ranking gives to equal records, A and C are
      paired first and B and D second. */
  lemma {:induction false} OneRoundScenario(r: seq<Standing>, a: Standing, b: Standing, c: Standing, d: Standing)
    requires a.wins == 1 && c.wins == 1 && b.wins == 0 && d.wins == 0
    requires DistinctIds([a, b, c, d])
    requires SortedByWins(r) && multiset(r) == multiset{a, b, c, d}
    ensures |PairUp(r)| == 2
    ensures {PairUp(r)[0].id1, PairUp(r)[0].id2} == {a.id, c.id}
    ensures {PairUp(r)[1].id1, PairUp(r)[1].id2} == {b.id, d.id}
  {
    var s := [a, b, c, d];
    assert s[0].id != s[2].id && s[1].id != s[3].id;
    assert |r| == |multiset(r)| == 4;
    assert a in multiset(r) && b in multiset(r) && c in multiset(r) && d in multiset(r);
    var ka :| 0 <= ka < 4 && r[ka] == a;
    var kb :| 0 <= kb < 4 && r[kb] == b;
    var kc :| 0 <= kc < 4 && r[kc] == c;
    var kd :| 0 <= kd < 4 && r[kd] == d;
    // A one-win player is ranked above every zero-win player.
    assert ka < kb && ka < kd && kc < kb && kc < kd;
    assert ka != kc && kb != kd;
    assert {ka, kc} == {0, 1} && {kb, kd} == {2, 3};
  }
}
