/** The rows held by the tournament store (the tournaments, members and
    matches tables) and the rows its two queries return. Identifiers are the
    serial numbers the store hands out, so they are natural numbers. */
module Records {

  datatype Option<+T> = None | Some(value: T)

  /** A row of the tournaments table. Names need not be unique. */
  datatype Tournament = Tournament(id: nat, name: string)

  /** A row of the members table: a player registered in one tournament,
      with the running tally of matches won and lost. */
  datatype Player = Player(id: nat, name: string, tournament: nat, wins: nat, losses: nat)

  /** A row of the matches table: an append-only log of results. */
  datatype Match = Match(tournament: nat, winner: nat, loser: nat)

  /** One row of the standings: (id, name, wins, matches). */
  datatype Standing = Standing(id: nat, name: string, wins: nat, matches: nat)

  /** One pairing of the next round: (id1, name1, id2, name2). */
  datatype Pairing = Pairing(id1: nat, name1: string, id2: nat, name2: string)

  /** No two rows of a ranking belong to the same player. */
  predicate DistinctIds(r: seq<Standing>)
  {
    forall i, j :: 0 <= i < j < |r| ==> r[i].id != r[j].id
  }

  /** No two member rows share an id (the id is the table's key). */
  predicate DistinctPlayerIds(ps: seq<Player>)
  {
    forall i, j :: 0 <= i < j < |ps| ==> ps[i].id != ps[j].id
  }

  /** The ids of a ranking, in ranking order. */
  function Ids(r: seq<Standing>): seq<nat>
  {
    seq(|r|, i requires 0 <= i < |r| => r[i].id)
  }

  /** No value occurs twice. */
  predicate Distinct(s: seq<nat>)
  {
    forall i, j :: 0 <= i < j < |s| ==> s[i] != s[j]
  }
}
