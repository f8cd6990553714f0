/** A scenario of tournament_test.py replayed against the store: a client
    that reasons from the members' contracts. The one-round pairing
    scenario is Pairings.OneRoundScenario. */
module Scenarios {
  import opened Records
  import opened TournamentStore

  /** testRegisterTournament, testRegisterCountDelete. */
  method RegisterCountDelete()
  {
    var db := new Store();
    db.RegisterTournament("Test Tournament");
    assert db.CountTournaments() == 1;
    var t := db.GetTournamentId("Test Tournament");
    assert t == Some(1);
    db.RegisterPlayer("Markov Chaney", t.value);
    assert |db.players| == 1;
    db.RegisterPlayer("Joe Malik", t.value);
    assert |db.players| == 2;
    db.RegisterPlayer("Mao Tsu-hsi", t.value);
    assert |db.players| == 3;
    db.RegisterPlayer("Atlanta Hope", t.value);
    assert db.CountPlayers() == 4;
    db.DeletePlayers();
    assert db.CountPlayers() == 0;
  }
}
