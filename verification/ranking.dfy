/** The standings query of tournament.py: keep the members of one tournament,
    report (id, name, wins, wins + losses) for each, and order the rows by wins,
    highest first. The order among equal wins is left to the database in the
    source; this model breaks ties by registration order, and nothing proved
    about the ranking or the pairings depends on that choice. */
module Ranking {
  import opened Records

  /** The standings row of one member: matches played is wins plus losses. */
  function Row(p: Player): Standing
  {
    Standing(p.id, p.name, p.wins, p.wins + p.losses)
  }

  function Rows(ps: seq<Player>): seq<Standing>
  {
    seq(|ps|, i requires 0 <= i < |ps| => Row(ps[i]))
  }

  /** Sorted by wins, highest first. */
  predicate SortedByWins(r: seq<Standing>)
  {
    forall i, j :: 0 <= i < j < |r| ==> r[i].wins >= r[j].wins
  }

  /** The members registered in tournament `t`, in table order. */
  function OfTournament(ps: seq<Player>, t: nat): (r: seq<Player>)
    ensures forall p :: p in r <==> p in ps && p.tournament == t
    ensures DistinctPlayerIds(ps) ==> DistinctPlayerIds(r)
  {
    if ps == [] then []
    else
      var rest := OfTournament(ps[1..], t);
      if ps[0].tournament == t then
        assert forall p :: p in rest ==> p in ps[1..];
        [ps[0]] + rest
      else rest
  }

  /** Places `x` in front of the first row with fewer or equal wins. */
  function InsertByWins(x: Standing, r: seq<Standing>): (res: seq<Standing>)
    requires SortedByWins(r)
    ensures SortedByWins(res)
    ensures multiset(res) == multiset(r) + multiset{x}
  {
    if r == [] || x.wins >= r[0].wins then [x] + r
    else
      var tail := InsertByWins(x, r[1..]);
      assert r == [r[0]] + r[1..];
      assert forall k :: 0 <= k < |tail| ==> r[0].wins >= tail[k].wins by {
        forall k | 0 <= k < |tail| ensures r[0].wins >= tail[k].wins {
          assert tail[k] in multiset(r[1..]) + multiset{x};
        }
      }
      [r[0]] + tail
  }

  /** Inserting a row whose player is not yet ranked keeps the ids distinct. */
  lemma {:induction false} InsertKeepsDistinctIds(x: Standing, r: seq<Standing>)
    requires SortedByWins(r) && DistinctIds(r)
    requires forall y :: y in r ==> y.id != x.id
    ensures DistinctIds(InsertByWins(x, r))
  {
    if r != [] && x.wins < r[0].wins {
      assert r == [r[0]] + r[1..];
      InsertKeepsDistinctIds(x, r[1..]);
      var tail := InsertByWins(x, r[1..]);
      forall k | 0 <= k < |tail| ensures r[0].id != tail[k].id {
        assert tail[k] in multiset(r[1..]) + multiset{x};
      }
    }
  }

  /** A stable sort of the rows by wins, highest first. */
  function SortByWins(s: seq<Standing>): (r: seq<Standing>)
    ensures SortedByWins(r)
    ensures multiset(r) == multiset(s)
  {
    if s == [] then []
    else
      assert s == [s[0]] + s[1..];
      InsertByWins(s[0], SortByWins(s[1..]))
  }

  /** Sorting neither drops nor duplicates a player. */
  lemma {:induction false} SortKeepsDistinctIds(s: seq<Standing>)
    requires DistinctIds(s)
    ensures DistinctIds(SortByWins(s))
  {
    if s != [] {
      assert s == [s[0]] + s[1..];
      SortKeepsDistinctIds(s[1..]);
      var tail := SortByWins(s[1..]);
      forall y | y in tail ensures y.id != s[0].id {
        assert y in multiset(s[1..]);
      }
      InsertKeepsDistinctIds(s[0], tail);
    }
  }

  /** The rows of distinct members have distinct ids. */
  lemma RowsKeepDistinctIds(ps: seq<Player>)
    requires DistinctPlayerIds(ps)
    ensures DistinctIds(Rows(ps))
  {
  }

  /** The standings of tournament `t`: the rows of its members ordered by
      wins from highest to lowest, a permutation of those rows. */
  function Standings(ps: seq<Player>, t: nat): (r: seq<Standing>)
    ensures SortedByWins(r)
    ensures multiset(r) == multiset(Rows(OfTournament(ps, t)))
  {
    SortByWins(Rows(OfTournament(ps, t)))
  }

  /** The standings hold one row per member of the tournament, a row is in
      them exactly when it is the row of a member of that tournament, and when
      member ids are distinct no player is listed twice. */
  lemma StandingsMembers(ps: seq<Player>, t: nat)
    ensures |Standings(ps, t)| == |OfTournament(ps, t)|
    ensures forall x :: x in Standings(ps, t) <==> exists p :: p in ps && p.tournament == t && x == Row(p)
    ensures DistinctPlayerIds(ps) ==> DistinctIds(Standings(ps, t))
  {
    var members := OfTournament(ps, t);
    var rows := Rows(members);
    var r := Standings(ps, t);
    assert |r| == |multiset(r)| == |multiset(rows)| == |rows|;
    forall x ensures x in r <==> exists p :: p in ps && p.tournament == t && x == Row(p) {
      assert x in r <==> x in multiset(rows);
      if x in rows {
        var i :| 0 <= i < |rows| && rows[i] == x;
        assert members[i] in members;
      }
      if p :| p in ps && p.tournament == t && x == Row(p) {
        assert p in members;
        var i :| 0 <= i < |members| && members[i] == p;
        assert rows[i] == x;
      }
    }
    if DistinctPlayerIds(ps) {
      RowsKeepDistinctIds(members);
      SortKeepsDistinctIds(rows);
    }
  }

  /** A member who has played no match is listed in the standings of their
      tournament with wins 0 and matches 0. */
  lemma NewcomerListed(ps: seq<Player>, p: Player)
    requires p in ps && p.wins == 0 && p.losses == 0
    ensures Standing(p.id, p.name, 0, 0) in Standings(ps, p.tournament)
  {
    StandingsMembers(ps, p.tournament);
  }

  /** Before any match of tournament `t` is reported, every row of its
      standings shows zero wins and zero matches, and there is one row per member of the tournament. */
  lemma StandingsBeforeMatches(ps: seq<Player>, t: nat)
    requires forall p :: p in ps && p.tournament == t ==> p.wins == 0 && p.losses == 0
    ensures |Standings(ps, t)| == |OfTournament(ps, t)|
    ensures forall x :: x in Standings(ps, t) ==> x.wins == 0 && x.matches == 0
  {
    StandingsMembers(ps, t);
  }
}
