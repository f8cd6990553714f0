/** The tournament store: the three tables behind tournament.py, held in
    memory. Each public function of tournament.py except connect() becomes a
    member of Store; the SQL statements become updates of the tables or reads
    of them. The database's serial columns become the counters
    nextTournamentId and nextPlayerId, which, like a serial sequence, are never
    reset by a delete. */
module TournamentStore {
  import opened Records
  import opened Ranking
  import opened Pairings
  import opened Results

  /** Ids strictly increase down the tournaments table and stay below `next`. */
  predicate TournamentIdsBelow(ts: seq<Tournament>, next: nat)
  {
    && (forall i, j :: 0 <= i < j < |ts| ==> ts[i].id < ts[j].id)
    && (forall i :: 0 <= i < |ts| ==> ts[i].id < next)
  }

  /** Ids strictly increase down the members table and stay below `next`. */
  predicate PlayerIdsBelow(ps: seq<Player>, next: nat)
  {
    && (forall i, j :: 0 <= i < j < |ps| ==> ps[i].id < ps[j].id)
    && (forall i :: 0 <= i < |ps| ==> ps[i].id < next)
  }

  /** The id of the first tournament called `name`, or None when there is none
      (where the source's `fetchall()[0][0]` fails). */
  function FirstNamed(ts: seq<Tournament>, name: string): (r: Option<nat>)
    ensures r.None? <==> forall i :: 0 <= i < |ts| ==> ts[i].name != name
    ensures r.Some? ==> exists i :: 0 <= i < |ts| && ts[i].name == name && ts[i].id == r.value
                                   && forall j :: 0 <= j < i ==> ts[j].name != name
  {
    if ts == [] then None
    else if ts[0].name == name then Some(ts[0].id)
    else
      var r := FirstNamed(ts[1..], name);
      assert r.Some? ==> exists i :: 0 < i < |ts| && ts[i].name == name && ts[i].id == r.value
                                    && forall j :: 0 <= j < i ==> ts[j].name != name by {
        if r.Some? {
          var i :| 0 <= i < |ts| - 1 && ts[1..][i].name == name && ts[1..][i].id == r.value
                   && forall j :: 0 <= j < i ==> ts[1..][j].name != name;
          assert forall j :: 0 <= j < i + 1 ==> ts[j].name != name by {
            forall j | 0 <= j < i + 1 ensures ts[j].name != name {
              if j > 0 { assert ts[j] == ts[1..][j - 1]; }
            }
          }
        }
      }
      r
  }

  /** Registering one more tournament keeps an existing lookup, and makes a
      name that was missing find the new row. */
  lemma {:induction false} FirstNamedAppend(ts: seq<Tournament>, t: Tournament, name: string)
    ensures FirstNamed(ts, name).Some? ==> FirstNamed(ts + [t], name) == FirstNamed(ts, name)
    ensures FirstNamed(ts, name).None? ==> FirstNamed(ts + [t], name) == if t.name == name then Some(t.id) else None
  {
    if ts != [] {
      assert (ts + [t])[1..] == ts[1..] + [t];
      FirstNamedAppend(ts[1..], t, name);
    }
  }

  /** COUNT(*) over a keyed table is its number of distinct ids. */
  lemma {:induction false} TournamentCount(ts: seq<Tournament>)
    requires forall i, j :: 0 <= i < j < |ts| ==> ts[i].id < ts[j].id
    ensures |set t | t in ts :: t.id| == |ts|
  {
    if ts != [] {
      TournamentCount(ts[1..]);
      assert (set t | t in ts :: t.id) == {ts[0].id} + (set t | t in ts[1..] :: t.id);
      assert ts[0].id !in (set t | t in ts[1..] :: t.id);
    }
  }

  lemma {:induction false} PlayerCount(ps: seq<Player>)
    requires forall i, j :: 0 <= i < j < |ps| ==> ps[i].id < ps[j].id
    ensures |set p | p in ps :: p.id| == |ps|
  {
    if ps != [] {
      PlayerCount(ps[1..]);
      assert (set p | p in ps :: p.id) == {ps[0].id} + (set p | p in ps[1..] :: p.id);
      assert ps[0].id !in (set p | p in ps[1..] :: p.id);
    }
  }

  class Store {
    var tournaments: seq<Tournament>
    var players: seq<Player>
    var matches: seq<Match>
    var nextTournamentId: nat
    var nextPlayerId: nat

    /** Every id was handed out by its serial counter, once. */
    ghost predicate Valid()
      reads this
    {
      TournamentIdsBelow(tournaments, nextTournamentId) && PlayerIdsBelow(players, nextPlayerId)
    }

    /** A freshly created database: empty tables, serial ids starting at 1. */
    constructor ()
      ensures Valid()
      ensures tournaments == [] && players == [] && matches == []
      ensures nextTournamentId == 1 && nextPlayerId == 1
    {
      tournaments, players, matches := [], [], [];
      nextTournamentId, nextPlayerId := 1, 1;
    }

    /** countTournaments: the number of registered tournaments. */
    function CountTournaments(): (n: nat)
      reads this
      requires Valid()
      ensures n == |set t | t in tournaments :: t.id|
    {
      TournamentCount(tournaments);
      |tournaments|
    }

    /** countPlayers: the number of registered players, over all tournaments. */
    function CountPlayers(): (n: nat)
      reads this
      requires Valid()
      ensures n == |set p | p in players :: p.id|
    {
      PlayerCount(players);
      |players|
    }

    /** getTournamentId: the id of a tournament called `name`, the first one
        registered when several share it; None when no tournament has it. */
    function GetTournamentId(name: string): (r: Option<nat>)
      reads this
      ensures r.None? <==> forall t :: t in tournaments ==> t.name != name
      ensures r.Some? ==> Tournament(r.value, name) in tournaments
    {
      FirstNamed(tournaments, name)
    }

    /** playerStandings: see Ranking.Standings; within the store no player
        is listed twice. */
    function PlayerStandings(tournament: nat): (r: seq<Standing>)
      reads this
      requires Valid()
      ensures DistinctIds(r)
    {
      StandingsMembers(players, tournament);
      Standings(players, tournament)
    }

    /** deleteMatches: empties the matches table. */
    method DeleteMatches()
      requires Valid()
      modifies this
      ensures Valid()
      ensures matches == []
      ensures tournaments == old(tournaments) && players == old(players)
      ensures nextTournamentId == old(nextTournamentId) && nextPlayerId == old(nextPlayerId)
    {
      matches := [];
    }

    /** deletePlayers: empties the members table; countPlayers is then 0. */
    method DeletePlayers()
      requires Valid()
      modifies this
      ensures Valid()
      ensures players == [] && CountPlayers() == 0
      ensures tournaments == old(tournaments) && matches == old(matches)
      ensures nextTournamentId == old(nextTournamentId) && nextPlayerId == old(nextPlayerId)
    {
      players := [];
    }

    /** deleteTournaments: empties the tournaments table. */
    method DeleteTournaments()
      requires Valid()
      modifies this
      ensures Valid()
      ensures tournaments == [] && CountTournaments() == 0
      ensures players == old(players) && matches == old(matches)
      ensures nextTournamentId == old(nextTournamentId) && nextPlayerId == old(nextPlayerId)
    {
      tournaments := [];
    }

    /** registerTournament: appends a tournament under a fresh serial id. */
    method RegisterTournament(name: string)
      requires Valid()
      modifies this
      ensures Valid()
      ensures tournaments == old(tournaments) + [Tournament(old(nextTournamentId), name)]
      ensures nextTournamentId == old(nextTournamentId) + 1
      ensures players == old(players) && matches == old(matches) && nextPlayerId == old(nextPlayerId)
      ensures CountTournaments() == old(CountTournaments()) + 1
      ensures GetTournamentId(name).Some?
      ensures old(GetTournamentId(name)).None? ==> GetTournamentId(name) == Some(old(nextTournamentId))
    {
      var t := Tournament(nextTournamentId, name);
      ghost var before := tournaments;
      tournaments := tournaments + [t];
      nextTournamentId := nextTournamentId + 1;
      FirstNamedAppend(before, t, name);
    }

    /** registerPlayer: appends a member of `tournament` under a fresh serial
        id, with no wins and no losses (see Ranking.NewcomerListed for the row
        it then shows in the standings). */
    method RegisterPlayer(name: string, tournament: nat)
      requires Valid()
      modifies this
      ensures Valid()
      ensures players == old(players) + [Player(old(nextPlayerId), name, tournament, 0, 0)]
      ensures nextPlayerId == old(nextPlayerId) + 1
      ensures tournaments == old(tournaments) && matches == old(matches)
      ensures nextTournamentId == old(nextTournamentId)
      ensures CountPlayers() == old(CountPlayers()) + 1
    {
      var p := Player(nextPlayerId, name, tournament, 0, 0);
      players := players + [p];
      nextPlayerId := nextPlayerId + 1;
    }

    /** reportMatch: appends the match and applies both tally updates in one
        step. The winner's row gains exactly one win, the loser's row exactly
        one loss, and every other row is left as it was. */
    method ReportMatch(tournament: nat, winner: nat, loser: nat)
      requires Valid()
      modifies this
      ensures Valid()
      ensures matches == old(matches) + [Match(tournament, winner, loser)]
      ensures players == RecordResult(old(players), winner, loser)
      ensures |players| == |old(players)|
      ensures forall i :: 0 <= i < |players| ==> players[i] == Credit(old(players)[i], winner, loser)
      ensures tournaments == old(tournaments)
      ensures nextTournamentId == old(nextTournamentId) && nextPlayerId == old(nextPlayerId)
    {
      ghost var before := players;
      matches := matches + [Match(tournament, winner, loser)];
      players := RecordResult(players, winner, loser);
      forall i | 0 <= i < |players| ensures players[i] == Credit(before[i], winner, loser) {
        RecordResultAt(before, winner, loser, i);
      }
    }

    /** swissPairings: reads the ranking of `tournament` and walks it with the
        counters `first` and `last`, two ranks at a time, for floor(n / 2)
        rounds. Pair i is ranks 2i and 2i + 1 (see Pairings.PairUp); no player
        is seated twice; with an even count every player of the tournament is
        seated, with an odd count all but the last-ranked. */
    method SwissPairings(tournament: nat) returns (pairings: seq<Pairing>)
      requires Valid()
      ensures pairings == PairUp(PlayerStandings(tournament))
      ensures Distinct(Seated(pairings))
      ensures |PlayerStandings(tournament)| % 2 == 0 ==> Seated(pairings) == Ids(PlayerStandings(tournament))
      ensures |PlayerStandings(tournament)| % 2 == 1 ==>
        Seated(pairings) == Ids(PlayerStandings(tournament))[..|PlayerStandings(tournament)| - 1]
    {
      var results := PlayerStandings(tournament);
      pairings := [];
      var first, last := 0, 1;
      for i := 0 to |results| / 2
        invariant first == 2 * i && last == first + 1
        invariant |pairings| == i
        invariant forall k :: 0 <= k < i ==> pairings[k] == Pair(results[2 * k], results[2 * k + 1])
      {
        pairings := pairings + [Pair(results[first], results[last])];
        first, last := first + 2, last + 2;
      }
      assert pairings == PairUp(results);
      PairsAreDisjoint(results);
      if |results| % 2 == 0 {
        EvenCountSeatsEveryone(results);
      } else {
        OddCountDropsLast(results);
      }
    }
  }
}
