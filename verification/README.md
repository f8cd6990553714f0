# Swiss-tournament bookkeeping, modelled in Dafny

`tournament.py` keeps a Swiss-system tournament in three PostgreSQL tables:
tournaments, members (players with a running tally of wins and losses) and
matches. It registers tournaments and players, records match results, lists
the standings of a tournament by wins, and pairs the players for the next
round by walking the standings two at a time.

This model replaces the database with an in-memory store,
`TournamentStore.Store`: a class whose fields are the three tables (as
sequences of rows) and the two serial counters that hand out ids. Every public
function of `tournament.py` but `connect()` is a member of the class; the
constructor stands for a freshly created database. The register, delete and
report functions are methods that change the tables. The count, lookup and
standings queries are functions that read them. `swissPairings` is a method
with the source's `first`/`last` counter loop.

The read-only logic is written as functions over row sequences, each with its
lemmas:

- `Records`: the rows (`Tournament`, `Player`, `Match`), the two query results
  (`Standing` = (id, name, wins, matches) and `Pairing` = (id1, name1, id2,
  name2)), and the "distinct ids" predicates.
- `Ranking`: the standings query. It keeps the members of one tournament,
  turns each into (id, name, wins, wins + losses), and sorts the rows by wins,
  highest first.
- `Pairings`: the pairing rule. It pairs rank 2i with rank 2i + 1 for i below
  floor(n / 2). Every lemma in it holds for any ranking sorted by wins.
- `Results`: the two tally updates of `reportMatch`.
- `Scenarios`: one scenario of `tournament_test.py`, replayed as a client of
  the store.

Where the code leaves a choice open, or its test script disagrees with it, the
model follows the code:

- Ties in the standings. `ORDER BY wins DESC` leaves the order of equal wins
  to the database. The model's sort is stable, so it keeps registration order
  among ties. No contract or lemma depends on that choice: the standings are
  specified as sorted and a permutation, and the pairing lemmas quantify over
  every sorted ranking.
- Odd player counts. The loop of `swissPairings` runs floor(n / 2) times, so
  with an odd count the last-ranked player is in no pair.
- `reportMatch` inserts the match and runs its two `UPDATE`s whatever the ids
  are. An `UPDATE` on an id that matches no row changes nothing, and the
  model does the same.
- `getTournamentId` fails (`fetchall()[0][0]` on an empty result) when no
  tournament has the name. The model returns `None` there. When several
  tournaments share the name, the query has no `ORDER BY`; the model returns
  the first in registration order.
- `tournament_test.py:92` expects five columns per standings row. The query
  at `tournament.py:107` selects four. The model follows the query.

## Model

| member | source | states |
|---|---|---|
| `Ranking.OfTournament` | vagrant/tournament/tournament.py:107 | the `WHERE tournament = t` filter: a row is kept exactly when it is a member row with that tournament; distinct ids stay distinct |
| `Ranking.SortByWins` | vagrant/tournament/tournament.py:107 | the `ORDER BY wins DESC`: the result is sorted by wins, highest first, and is a permutation (same multiset) of its input |
| `Ranking.Standings` | vagrant/tournament/tournament.py:92-111 | playerStandings: the rows are sorted by wins, highest first, and form a permutation of the (id, name, wins, wins + losses) rows of the tournament's members |
| `Ranking.StandingsMembers` | vagrant/tournament/tournament.py:92-111 | one standings row per member of the tournament; a row appears exactly when it is the row of a member of that tournament; with distinct member ids no player is listed twice |
| `Ranking.NewcomerListed` | vagrant/tournament/tournament.py:85-88 | a member with no wins and no losses is listed in their tournament's standings as (id, name, 0, 0) |
| `Ranking.StandingsBeforeMatches` | vagrant/tournament/tournament_test.py:77-101 | before any match of the tournament, its standings have one row per member, each with wins 0 and matches 0 |
| `Ranking.SortKeepsDistinctIds` | vagrant/tournament/tournament.py:107 | sorting neither duplicates nor merges players: distinct ids stay distinct |
| `Pairings.PairUp` | vagrant/tournament/tournament.py:165-175 | exactly floor(n / 2) pairs; pair i is (id, name) of rank 2i followed by (id, name) of rank 2i + 1 |
| `Pairings.SeatedInRankOrder` | vagrant/tournament/tournament.py:165-175 | the players seated by the pairings, in order, are the first 2 * floor(n / 2) players of the ranking, in ranking order |
| `Pairings.PairsAreDisjoint` | vagrant/tournament/tournament.py:140-146 | for a ranking without repeated players, no player is seated twice and nobody is paired with themselves |
| `Pairings.EvenCountSeatsEveryone` | vagrant/tournament/tournament.py:142-143 | with an even count, the seated players are exactly the ranking's players, in order, so each appears exactly once |
| `Pairings.OddCountDropsLast` | vagrant/tournament/tournament.py:171 | with an odd count, everyone but the last-ranked player is seated, and the last-ranked player is not |
| `Pairings.PairsFollowRanking` | vagrant/tournament/tournament.py:143-145 | in a ranking sorted by wins without repeated players, looking the paired players up by id: the first player of pair i has at least the wins of the second, who has at least the wins of the first player of any later pair j, who has at least the wins of their partner |
| `Pairings.OneRoundScenario` | vagrant/tournament/tournament_test.py:129-154 | after A beat B and C beat D, for every sorted ranking of the four rows, the first pair is {A, C} and the second is {B, D} |
| `Results.RecordResultAt` | vagrant/tournament/tournament.py:125-134 | the winner's row gains exactly one win, the loser's row exactly one loss; id, name and tournament are kept; every other row is unchanged |
| `Results.RecordResultMatches` | vagrant/tournament/tournament_test.py:117-127 | matches played (wins + losses) grows by one for the winner and one for the loser and stays the same for everyone else |
| `Results.RecordResult` | vagrant/tournament/tournament.py:128-134 | the two updates neither add nor remove member rows (the row-by-row effect is `Results.RecordResultAt`) |
| `Results.RecordResultTotals` | vagrant/tournament/tournament.py:125-134 | with distinct ids, total wins grow by exactly one when the winner is registered (by none otherwise), and total losses likewise for the loser |
| `TournamentStore.FirstNamed` | vagrant/tournament/tournament.py:66-74 | getTournamentId: None exactly when no tournament has the name; otherwise the id of a tournament with that name that no earlier row shares |
| `TournamentStore.Store.GetTournamentId` | vagrant/tournament/tournament.py:66-74 | None exactly when no tournament in the table has the name; otherwise a tournament of that name with the returned id is in the table (the first such, by `TournamentStore.FirstNamed`) |
| `TournamentStore.FirstNamedAppend` | vagrant/tournament/tournament.py:57-63 | registering a tournament keeps an existing lookup, and a name that was missing then finds the new row |
| `TournamentStore.Store.constructor` | vagrant/tournament/tournament.py:9-11 | a freshly created database: the tables are empty and the serial ids start at 1 (`connect()` itself opens an existing database; the schema that creates it is not part of this model) |
| `TournamentStore.Store.CountTournaments` | vagrant/tournament/tournament.py:37-45 | the count is the number of distinct tournament ids in the table |
| `TournamentStore.Store.CountPlayers` | vagrant/tournament/tournament.py:47-55 | the count is the number of distinct player ids in the table |
| `TournamentStore.Store.PlayerStandings` | vagrant/tournament/tournament.py:105-111 | in the store, no player is listed twice in a tournament's standings |
| `TournamentStore.Store.DeleteMatches` | vagrant/tournament/tournament.py:13-19 | the matches table is empty; nothing else changes |
| `TournamentStore.Store.DeletePlayers` | vagrant/tournament/tournament.py:21-27 | the members table is empty and countPlayers is 0; nothing else changes |
| `TournamentStore.Store.DeleteTournaments` | vagrant/tournament/tournament.py:29-35 | the tournaments table is empty and countTournaments is 0; nothing else changes |
| `TournamentStore.Store.RegisterTournament` | vagrant/tournament/tournament.py:57-63 | appends (fresh id, name); countTournaments grows by one; getTournamentId then finds the name, and finds this new id if the name was missing before |
| `TournamentStore.Store.RegisterPlayer` | vagrant/tournament/tournament.py:76-89 | appends (fresh id, name, tournament, 0 wins, 0 losses); countPlayers grows by one; nothing else changes |
| `TournamentStore.Store.ReportMatch` | vagrant/tournament/tournament.py:113-137 | appends the match (t, w, l); each member row gets the winner's and loser's updates (see `Results.RecordResultAt`); the tournaments table and the counters are unchanged |
| `TournamentStore.Store.SwissPairings` | vagrant/tournament/tournament.py:139-179 | the counter loop yields exactly `Pairings.PairUp` of the standings (floor(n / 2) pairs, pair i = ranks 2i and 2i + 1); no player is seated twice; with an even count the seated players are exactly the ranking's players, with an odd count all but the last-ranked |

## Left out

- The database connection. The `psycopg2` connect, cursor, commit and close calls and the SQL text are I/O through a foreign library. The in-memory tables take their place.
- Atomicity. `reportMatch` commits three times (lines 120-135), so a crash between commits can leave a match logged without its tallies. The model applies the insert and both updates as one step, and does not model partial failure.
- The tie order in the standings. The source leaves it to the database. The model fixes one order (stable, by registration) only because a function must compute something. No stated property depends on that order.
- Referential integrity. The schema is not part of this model. Foreign keys that may reject a player of an unknown tournament, a match for unknown players, or a delete of referenced rows are not modelled. Every insert and delete succeeds.
- Id generation. The database serial becomes a counter per table, starting at 1. A delete never resets it, like a serial sequence. Sequence gaps after failed inserts are not modelled.
- Integer width. Wins, losses and ids are unbounded naturals. The 4-byte PostgreSQL integer columns and their overflow are not modelled.
- `TournamentStore.Store.PlayerStandings`: its own contract only says that no player is listed twice. Sortedness and the permutation are stated by `Ranking.Standings` and `Ranking.StandingsMembers`, which it returns.
- The print-driven test script is not modelled. `Scenarios.RegisterCountDelete` restates its registration and count checks. `Pairings.OneRoundScenario` and `Results.RecordResultMatches` state what its match and pairing checks expect.
