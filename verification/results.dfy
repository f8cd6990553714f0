/** The tally updates of reportMatch: `wins = wins + 1` on the member whose id
    is the winner's and `losses = losses + 1` on the member whose id is the
    loser's. Like the two UPDATE statements, they touch every row whose id
    matches and no other; an id that matches no row changes nothing. */
module Results {
  import opened Records
  import opened Ranking

  /** One member row after both updates. */
  function Credit(p: Player, winner: nat, loser: nat): Player
  {
    p.(wins := if p.id == winner then p.wins + 1 else p.wins,
       losses := if p.id == loser then p.losses + 1 else p.losses)
  }

  /** The members table after both updates; an UPDATE neither adds nor
      removes rows. */
  function RecordResult(ps: seq<Player>, winner: nat, loser: nat): (r: seq<Player>)
    ensures |r| == |ps|
  {
    if ps == [] then [] else [Credit(ps[0], winner, loser)] + RecordResult(ps[1..], winner, loser)
  }

  /** Row by row: the update keeps the table's length and every row's id, name
      and tournament; it adds exactly one win to the winner's row, exactly one
      loss to the loser's row, and leaves every other row as it was. */
  lemma {:induction false} RecordResultAt(ps: seq<Player>, winner: nat, loser: nat, i: nat)
    requires i < |ps|
    ensures |RecordResult(ps, winner, loser)| == |ps|
    ensures var q, p := RecordResult(ps, winner, loser)[i], ps[i];
      && q.id == p.id && q.name == p.name && q.tournament == p.tournament
      && q.wins == (if p.id == winner then p.wins + 1 else p.wins)
      && q.losses == (if p.id == loser then p.losses + 1 else p.losses)
      && (p.id != winner && p.id != loser ==> q == p)
  {
    if i > 0 {
      RecordResultAt(ps[1..], winner, loser, i - 1);
    }
  }

  /** Each player's matches played moves with the update: one more for the
      winner, one more for the loser, the same for everybody else. */
  lemma RecordResultMatches(ps: seq<Player>, winner: nat, loser: nat, i: nat)
    requires i < |ps|
    ensures |RecordResult(ps, winner, loser)| == |ps|
    ensures Row(RecordResult(ps, winner, loser)[i]).matches
         == Row(ps[i]).matches + (if ps[i].id == winner then 1 else 0) + (if ps[i].id == loser then 1 else 0)
  {
    RecordResultAt(ps, winner, loser, i);
  }

  /** Total wins over the table. */
  function TotalWins(ps: seq<Player>): nat
  {
    if ps == [] then 0 else ps[0].wins + TotalWins(ps[1..])
  }

  /** Total losses over the table. */
  function TotalLosses(ps: seq<Player>): nat
  {
    if ps == [] then 0 else ps[0].losses + TotalLosses(ps[1..])
  }

  /** Whether some member row has id `id`. */
  predicate Registered(ps: seq<Player>, id: nat)
  {
    exists i :: 0 <= i < |ps| && ps[i].id == id
  }

  /** When ids are distinct, a reported match adds exactly one win to the table
      if the winner is registered and none otherwise, and likewise one loss for
      the loser: the tallies change by exactly one. */
  lemma {:induction false} RecordResultTotals(ps: seq<Player>, winner: nat, loser: nat)
    requires DistinctPlayerIds(ps)
    ensures TotalWins(RecordResult(ps, winner, loser)) == TotalWins(ps) + (if Registered(ps, winner) then 1 else 0)
    ensures TotalLosses(RecordResult(ps, winner, loser)) == TotalLosses(ps) + (if Registered(ps, loser) then 1 else 0)
  {
    if ps != [] {
      var tail := ps[1..];
      assert DistinctPlayerIds(tail);
      RecordResultTotals(tail, winner, loser);
      assert RecordResult(ps, winner, loser)[1..] == RecordResult(tail, winner, loser);
      // The head row is the only one that can carry its id.
      assert !Registered(tail, ps[0].id);
      assert Registered(ps, winner) == (ps[0].id == winner || Registered(tail, winner)) by {
        if Registered(ps, winner) && ps[0].id != winner {
          var k :| 0 <= k < |ps| && ps[k].id == winner;
          assert tail[k - 1].id == winner;
        }
        if Registered(tail, winner) {
          var k :| 0 <= k < |tail| && tail[k].id == winner;
          assert ps[k + 1].id == winner;
        }
      }
      assert Registered(ps, loser) == (ps[0].id == loser || Registered(tail, loser)) by {
        if Registered(ps, loser) && ps[0].id != loser {
          var k :| 0 <= k < |ps| && ps[k].id == loser;
          assert tail[k - 1].id == loser;
        }
        if Registered(tail, loser) {
          var k :| 0 <= k < |tail| && tail[k].id == loser;
          assert ps[k + 1].id == loser;
        }
      }
    }
  }
}
